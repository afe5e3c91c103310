/**
 * RecommendationEngine.rank_sermons of utils.py: the model's answer reorders the
 * retrieved candidates, duplicates by message link are dropped, the result is
 * cached per (user, query hash), and any exception falls back to a similarity
 * threshold. The model, the JSON parser and the hash are parameters.
 */
module Ranking {
  import opened Wrappers
  import opened Text
  import opened Sermons
  import opened Cache
  import Config

  /** Candidates taken in their original order when the answer is not a bracketed list. */
  const FallbackCount: nat := 10

  /** `a` can be obtained from `b` by deleting elements: same elements, same relative order. */
  predicate IsSubsequence<T(==)>(a: seq<T>, b: seq<T>)
    decreases |b|
  {
    a == [] || (b != [] && if a[0] == b[0] then IsSubsequence(a[1..], b[1..]) else IsSubsequence(a, b[1..]))
  }

  lemma {:induction false} SubsequenceSnocRight<T>(a: seq<T>, b: seq<T>, x: T)
    requires IsSubsequence(a, b)
    ensures IsSubsequence(a, b + [x])
    decreases |b|
  {
    if a != [] {
      assert (b + [x])[0] == b[0] && (b + [x])[1..] == b[1..] + [x];
      if a[0] == b[0] {
        SubsequenceSnocRight(a[1..], b[1..], x);
      } else {
        SubsequenceSnocRight(a, b[1..], x);
      }
    }
  }

  lemma {:induction false} SubsequenceSnocBoth<T>(a: seq<T>, b: seq<T>, x: T)
    requires IsSubsequence(a, b)
    ensures IsSubsequence(a + [x], b + [x])
    decreases |b|
  {
    if b == [] {
      assert a == [];
      assert ([] + [x])[1..] == [];
    } else {
      assert (b + [x])[0] == b[0] && (b + [x])[1..] == b[1..] + [x];
      if a == [] {
        assert a + [x] == [x];
        if b[0] != x {
          SubsequenceSnocBoth(a, b[1..], x);
        } else {
          assert [x][1..] == [];
        }
      } else {
        assert (a + [x])[0] == a[0] && (a + [x])[1..] == a[1..] + [x];
        if a[0] == b[0] {
          SubsequenceSnocBoth(a[1..], b[1..], x);
        } else {
          SubsequenceSnocBoth(a, b[1..], x);
        }
      }
    }
  }

  /** A subsequence is no longer than the sequence and holds only its elements. */
  lemma {:induction false} SubsequenceMembers<T>(a: seq<T>, b: seq<T>)
    requires IsSubsequence(a, b)
    ensures |a| <= |b|
    ensures forall x :: x in a ==> x in b
    decreases |b|
  {
    if a != [] {
      if a[0] == b[0] {
        SubsequenceMembers(a[1..], b[1..]);
        assert a == [a[0]] + a[1..];
      } else {
        SubsequenceMembers(a, b[1..]);
      }
    }
  }

  /** `sermon.get('similarity_score', 0)`. */
  function Score(s: Sermon): real {
    s.similarityScore.GetOr(0.0)
  }

  /** The exception path of rank_sermons: the candidates scoring at least the threshold, in retrieval order. */
  function ThresholdFilter(sermons: seq<Sermon>): (r: seq<Sermon>)
    ensures forall x :: x in r <==> x in sermons && Score(x) >= Config.MinRelevanceScore
    ensures IsSubsequence(r, sermons)
  {
    if sermons == [] then []
    else if Score(sermons[0]) >= Config.MinRelevanceScore then [sermons[0]] + ThresholdFilter(sermons[1..])
    else ThresholdFilter(sermons[1..])
  }

  /** Scores 0.9, 0.5 and 0.8 keep the first and the third candidate, in that order. */
  lemma ThresholdExample(c0: Sermon, c1: Sermon, c2: Sermon)
    requires c0.similarityScore == Some(0.9) && c1.similarityScore == Some(0.5) && c2.similarityScore == Some(0.8)
    ensures ThresholdFilter([c0, c1, c2]) == [c0, c2]
  {
    assert Score(c0) == 0.9 && Score(c1) == 0.5 && Score(c2) == 0.8;
    assert [c2][1..] == [];
    assert ThresholdFilter([c2]) == [c2];
    assert [c1, c2][1..] == [c2];
    assert ThresholdFilter([c1, c2]) == [c2];
    assert [c0, c1, c2][1..] == [c1, c2];
  }

  /** `range(m)`. */
  function Range(m: nat): (r: seq<int>)
    ensures |r| == m && forall i :: 0 <= i < m ==> r[i] == i
  {
    seq(m, i => i)
  }

  /** The candidates the index list points at, in list order, skipping out-of-range indexes. */
  function Picked(sermons: seq<Sermon>, idxs: seq<int>): (r: seq<Sermon>)
    ensures |r| <= |idxs|
    ensures forall k :: 0 <= k < |r| ==> r[k] in sermons
    decreases |idxs|
  {
    if idxs == [] then []
    else
      var idx := idxs[|idxs| - 1];
      Picked(sermons, idxs[..|idxs| - 1]) + (if 0 <= idx < |sermons| then [sermons[idx]] else [])
  }

  /** The positions `0 .. m-1` pick the first `m` candidates. */
  lemma {:induction false} PickedRange(sermons: seq<Sermon>, m: nat)
    requires m <= |sermons|
    ensures Picked(sermons, Range(m)) == sermons[..m]
  {
    if m > 0 {
      assert Range(m)[..m - 1] == Range(m - 1);
      PickedRange(sermons, m - 1);
      assert sermons[..m] == sermons[..m - 1] + [sermons[m - 1]];
    }
  }

  /**
   * The reordering loop of rank_sermons over an index list, as a fold from the left:
   * Some(ranked) when it completes, None when an in-range candidate has no link
   * (`sermon['message_link']` raises).
   */
  function Reordered(sermons: seq<Sermon>, idxs: seq<int>): Option<seq<Sermon>>
    decreases |idxs|
  {
    if idxs == [] then Some([])
    else match Reordered(sermons, idxs[..|idxs| - 1])
      case None => None
      case Some(acc) =>
        var idx := idxs[|idxs| - 1];
        if !(0 <= idx < |sermons|) then Some(acc)
        else match sermons[idx].messageLink
          case None => None
          case Some(link) => if link in LinksOf(acc) then Some(acc) else Some(acc + [sermons[idx]])
  }

  /**
   * What a completed reordering yields: no two elements share a link; the elements are
   * the picked candidates in index-list order with later repeats of a link left out;
   * and every link that was picked is kept.
   */
  lemma {:induction false} ReorderedProperties(sermons: seq<Sermon>, idxs: seq<int>)
    requires Reordered(sermons, idxs).Some?
    ensures DistinctLinks(Reordered(sermons, idxs).value)
    ensures IsSubsequence(Reordered(sermons, idxs).value, Picked(sermons, idxs))
    ensures LinksOf(Reordered(sermons, idxs).value) == LinksOf(Picked(sermons, idxs))
    decreases |idxs|
  {
    if idxs != [] {
      var p := idxs[..|idxs| - 1];
      var idx := idxs[|idxs| - 1];
      ReorderedProperties(sermons, p);
      var acc := Reordered(sermons, p).value;
      if 0 <= idx < |sermons| {
        var x := sermons[idx];
        var link := x.messageLink.value;
        assert Picked(sermons, idxs) == Picked(sermons, p) + [x];
        LinksOfAppend(Picked(sermons, p), x);
        if link in LinksOf(acc) {
          SubsequenceSnocRight(acc, Picked(sermons, p), x);
        } else {
          SubsequenceSnocBoth(acc, Picked(sermons, p), x);
          LinksOfAppend(acc, x);
          var out := acc + [x];
          forall i | 0 <= i < |acc| ensures out[i].messageLink != out[|acc|].messageLink {
            assert acc[i].messageLink.Some?;
            assert acc[i].messageLink.value in LinksOf(acc);
          }
        }
      } else {
        assert Picked(sermons, idxs) == Picked(sermons, p);
      }
    }
  }

  /** `x` occurs in `s` at a position before which no element carries its link. */
  predicate FirstOfLink(s: seq<Sermon>, x: Sermon) {
    exists i :: 0 <= i < |s| && s[i] == x && forall j :: 0 <= j < i ==> s[j].messageLink != x.messageLink
  }

  /** Of several picked candidates with one link, the reordering keeps the first. */
  lemma {:induction false} ReorderedKeepsFirst(sermons: seq<Sermon>, idxs: seq<int>)
    requires Reordered(sermons, idxs).Some?
    ensures forall k :: 0 <= k < |Reordered(sermons, idxs).value| ==>
      FirstOfLink(Picked(sermons, idxs), Reordered(sermons, idxs).value[k])
    decreases |idxs|
  {
    if idxs != [] {
      var p := idxs[..|idxs| - 1];
      var idx := idxs[|idxs| - 1];
      ReorderedKeepsFirst(sermons, p);
      ReorderedProperties(sermons, p);
      var acc := Reordered(sermons, p).value;
      var pp := Picked(sermons, p);
      if 0 <= idx < |sermons| {
        var x := sermons[idx];
        var pi := pp + [x];
        assert Picked(sermons, idxs) == pi;
        forall k | 0 <= k < |acc| ensures FirstOfLink(pi, acc[k]) {
          FirstOfLinkSnoc(pp, x, acc[k]);
        }
        if x.messageLink.value !in LinksOf(acc) {
          FirstOfNewLink(pp, x);
          var out := acc + [x];
          assert Reordered(sermons, idxs).value == out;
          forall k | 0 <= k < |out| ensures FirstOfLink(pi, out[k]) {
            if k < |acc| { assert out[k] == acc[k]; }
          }
        }
      } else {
        assert Picked(sermons, idxs) == pp;
      }
    }
  }

  lemma FirstOfLinkSnoc(s: seq<Sermon>, x: Sermon, y: Sermon)
    requires FirstOfLink(s, y)
    ensures FirstOfLink(s + [x], y)
  {
    var i :| 0 <= i < |s| && s[i] == y && forall j :: 0 <= j < i ==> s[j].messageLink != y.messageLink;
    assert (s + [x])[i] == y;
    assert forall j :: 0 <= j < i ==> (s + [x])[j] == s[j];
  }

  lemma FirstOfNewLink(s: seq<Sermon>, x: Sermon)
    requires x.messageLink.Some? && x.messageLink.value !in LinksOf(s)
    ensures FirstOfLink(s + [x], x)
  {
    var t := s + [x];
    forall j | 0 <= j < |s| ensures t[j].messageLink != x.messageLink {
      assert t[j] == s[j];
      if s[j].messageLink.Some? {
        assert s[j].messageLink.value in LinksOf(s);
      }
    }
    assert t[|s|] == x;
  }

  /** The reordering raises exactly when some picked candidate has no link. */
  lemma {:induction false} ReorderedFails(sermons: seq<Sermon>, idxs: seq<int>)
    ensures Reordered(sermons, idxs).None? <==>
      exists k :: 0 <= k < |Picked(sermons, idxs)| && Picked(sermons, idxs)[k].messageLink.None?
    decreases |idxs|
  {
    if idxs != [] {
      var p := idxs[..|idxs| - 1];
      var idx := idxs[|idxs| - 1];
      ReorderedFails(sermons, p);
      var pp := Picked(sermons, p);
      if 0 <= idx < |sermons| {
        var pi := pp + [sermons[idx]];
        assert Picked(sermons, idxs) == pi;
        if exists k :: 0 <= k < |pp| && pp[k].messageLink.None? {
          var k :| 0 <= k < |pp| && pp[k].messageLink.None?;
          assert pi[k] == pp[k];
        }
        if exists k :: 0 <= k < |pi| && pi[k].messageLink.None? {
          var k :| 0 <= k < |pi| && pi[k].messageLink.None?;
          if k < |pp| { assert pp[k] == pi[k]; }
        }
        assert pi[|pp|] == sermons[idx];
      } else {
        assert Picked(sermons, idxs) == pp;
      }
    }
  }

  /** Once the loop has raised on a prefix of the index list, it raises on the whole list. */
  lemma {:induction false} ReorderedNoneStays(sermons: seq<Sermon>, idxs: seq<int>, i: nat)
    requires i <= |idxs|
    requires Reordered(sermons, idxs[..i]).None?
    ensures Reordered(sermons, idxs).None?
    decreases |idxs| - i
  {
    if i < |idxs| {
      assert idxs[..i + 1][..i] == idxs[..i];
      ReorderedNoneStays(sermons, idxs, i + 1);
    } else {
      assert idxs[..i] == idxs;
    }
  }

  /** Counts: the result is no longer than the index list, nor than the number of distinct links among the candidates. */
  lemma ReorderedBounds(sermons: seq<Sermon>, idxs: seq<int>)
    requires Reordered(sermons, idxs).Some?
    ensures |Reordered(sermons, idxs).value| <= |idxs|
    ensures |Reordered(sermons, idxs).value| <= |LinksOf(sermons)|
    ensures forall x :: x in Reordered(sermons, idxs).value ==> x in sermons
  {
    var out := Reordered(sermons, idxs).value;
    var picked := Picked(sermons, idxs);
    ReorderedProperties(sermons, idxs);
    SubsequenceMembers(out, picked);
    DistinctLinksCount(out);
    assert LinksOf(picked) <= LinksOf(sermons) by {
      forall l | l in LinksOf(picked) ensures l in LinksOf(sermons) {
        var i :| 0 <= i < |picked| && picked[i].messageLink.Some? && picked[i].messageLink.value == l;
        var j :| 0 <= j < |sermons| && sermons[j] == picked[i];
      }
    }
    SubsetCard(LinksOf(out), LinksOf(sermons));
  }

  lemma SubsetCard<T>(a: set<T>, b: set<T>)
    requires a <= b
    ensures |a| <= |b|
  {
    assert b == a + (b - a);
  }

  /**
   * The loop of rank_sermons: walk the index list, skip out-of-range indexes, keep a
   * candidate when its link has not been seen. None when a kept index has no link.
   */
  method ReorderByIndexes(sermons: seq<Sermon>, idxs: seq<int>) returns (r: Option<seq<Sermon>>)
    ensures r == Reordered(sermons, idxs)
  {
    var ranked: seq<Sermon> := [];
    var seen: set<string> := {};
    var i := 0;
    while i < |idxs|
      invariant 0 <= i <= |idxs|
      invariant Reordered(sermons, idxs[..i]) == Some(ranked)
      invariant seen == LinksOf(ranked)
    {
      assert idxs[..i + 1][..i] == idxs[..i];
      var idx := idxs[i];
      if 0 <= idx < |sermons| {
        var sermon := sermons[idx];
        if sermon.messageLink.None? {
          ReorderedNoneStays(sermons, idxs, i + 1);
          return None;
        }
        var link := sermon.messageLink.value;
        if link !in seen {
          LinksOfAppend(ranked, sermon);
          ranked := ranked + [sermon];
          seen := seen + {link};
        }
      }
      i := i + 1;
    }
    assert idxs[..i] == idxs;
    return Some(ranked);
  }

  /** `cache_key = f"rank_{user_id}_{digest}"`. */
  function CacheKey(userId: int, digest: string): string {
    "rank_" + IntToString(userId) + "_" + digest
  }

  /** With digests of one length (an MD5 hex digest has 32 characters), different users or queries never share a key. */
  lemma CacheKeyInjective(u1: int, d1: string, u2: int, d2: string)
    requires |d1| == |d2|
    requires CacheKey(u1, d1) == CacheKey(u2, d2)
    ensures u1 == u2 && d1 == d2
  {
    var k := CacheKey(u1, d1);
    var s1, s2 := IntToString(u1), IntToString(u2);
    assert |s1| == |s2|;
    assert s1 == k[5..5 + |s1|] == s2;
    assert d1 == k[6 + |s1|..] == d2;
    IntToStringInjective(u1, u2);
  }

  /** Every candidate's summary reads `sermon['title']` and `sermon['description']`; a missing key raises. */
  predicate Summarizable(sermons: seq<Sermon>) {
    forall i :: 0 <= i < |sermons| ==> sermons[i].title.Some? && sermons[i].description.Some?
  }

  /** The index list the (stripped) answer yields: the parsed array when it is bracketed, else the first ten positions. */
  function IndexList(content: string, parse: string -> Option<seq<int>>, n: nat): Option<seq<int>> {
    if StartsWith(content, "[") && EndsWith(content, "]") then parse(content)
    else Some(Range(Min(FallbackCount, n)))
  }

  /**
   * Everything the outside world answers during one ranking: the MD5 hex digest, the
   * model's reply (None when the call raises), `json.loads` on a bracketed reply (None
   * when it raises or yields something the loop cannot compare), and the clock when the
   * cache is read and when it is written.
   */
  datatype RankOracle = RankOracle(
    md5: string -> string,
    reply: Option<string>,
    parse: string -> Option<seq<int>>,
    readClock: int,
    writeClock: int)

  /** The try block of rank_sermons: Some(ranked) when it completes, None when it raises. */
  function ModelRanking(sermons: seq<Sermon>, o: RankOracle): Option<seq<Sermon>> {
    if !Summarizable(sermons) || o.reply.None? then None
    else match IndexList(Strip(o.reply.value), o.parse, |sermons|)
      case None => None
      case Some(idxs) => Reordered(sermons, idxs)
  }

  /** A reply that is not a bracketed list ranks the link-deduplicated first ten candidates in their own order. */
  lemma UnbracketedReply(sermons: seq<Sermon>, o: RankOracle)
    requires Summarizable(sermons) && o.reply.Some?
    requires var c := Strip(o.reply.value); !(StartsWith(c, "[") && EndsWith(c, "]"))
    requires ModelRanking(sermons, o).Some?
    ensures var m := Min(FallbackCount, |sermons|);
      var out := ModelRanking(sermons, o).value;
      && DistinctLinks(out)
      && IsSubsequence(out, sermons[..m])
      && LinksOf(out) == LinksOf(sermons[..m])
  {
    var m := Min(FallbackCount, |sermons|);
    var c := Strip(o.reply.value);
    assert IndexList(c, o.parse, |sermons|) == Some(Range(m));
    assert ModelRanking(sermons, o) == Reordered(sermons, Range(m));
    PickedRange(sermons, m);
    ReorderedProperties(sermons, Range(m));
  }

  /** One call of rank_sermons: its result and the cache files afterwards. */
  function RankStep(files: map<string, CacheFile>, query: string, sermons: seq<Sermon>, userId: int, o: RankOracle)
    : (seq<Sermon>, map<string, CacheFile>)
  {
    if sermons == [] then ([], files)
    else
      var key := CacheKey(userId, o.md5(query));
      var cached := Lookup(files, key, o.readClock);
      var files' := AfterLookup(files, key, o.readClock);
      if cached.Some? && cached.value != [] then (cached.value, files')
      else match ModelRanking(sermons, o)
        case Some(ranked) => (ranked, Stored(files', key, ranked, o.writeClock))
        case None => (ThresholdFilter(sermons), files')
  }

  /** No candidates: an empty result, and the cache is neither read nor written. */
  lemma RankEmpty(files: map<string, CacheFile>, query: string, userId: int, o: RankOracle)
    ensures RankStep(files, query, [], userId, o) == ([], files)
  {
  }

  /** A non-empty fresh cached list is returned unchanged whatever the model would have answered. */
  lemma RankCacheHit(files: map<string, CacheFile>, query: string, sermons: seq<Sermon>, userId: int, o: RankOracle, o': RankOracle)
    requires sermons != [] && o'.md5 == o.md5 && o'.readClock == o.readClock
    requires var v := Lookup(files, CacheKey(userId, o.md5(query)), o.readClock); v.Some? && v.value != []
    ensures RankStep(files, query, sermons, userId, o).0 == Lookup(files, CacheKey(userId, o.md5(query)), o.readClock).value
    ensures RankStep(files, query, sermons, userId, o) == RankStep(files, query, sermons, userId, o')
  {
  }

  /**
   * On a miss, a completed model ranking is a link-deduplicated pick of the candidates in
   * index-list order, and it is what the key reads back until the duration runs out.
   */
  lemma RankFresh(files: map<string, CacheFile>, query: string, sermons: seq<Sermon>, userId: int, o: RankOracle, later: int)
    requires sermons != []
    requires var v := Lookup(files, CacheKey(userId, o.md5(query)), o.readClock); v.None? || v.value == []
    requires ModelRanking(sermons, o).Some?
    ensures var (r, files') := RankStep(files, query, sermons, userId, o);
      && DistinctLinks(r)
      && |r| <= |LinksOf(sermons)|
      && (forall x :: x in r ==> x in sermons)
      && Lookup(files', CacheKey(userId, o.md5(query)), later) == (if later <= o.writeClock + Duration then Some(r) else None)
  {
    var key := CacheKey(userId, o.md5(query));
    var files' := AfterLookup(files, key, o.readClock);
    var r := ModelRanking(sermons, o).value;
    RankFreshStep(files, query, sermons, userId, o);
    ModelRankingProperties(sermons, o);
    LookupAfterStore(files', key, r, o.writeClock, later);
  }

  /** On a miss with a completed model ranking, that ranking is returned and written under the key. */
  lemma RankFreshStep(files: map<string, CacheFile>, query: string, sermons: seq<Sermon>, userId: int, o: RankOracle)
    requires sermons != []
    requires var v := Lookup(files, CacheKey(userId, o.md5(query)), o.readClock); v.None? || v.value == []
    requires ModelRanking(sermons, o).Some?
    ensures var key := CacheKey(userId, o.md5(query));
      RankStep(files, query, sermons, userId, o)
        == (ModelRanking(sermons, o).value, Stored(AfterLookup(files, key, o.readClock), key, ModelRanking(sermons, o).value, o.writeClock))
  {
  }

  /** A completed model ranking has distinct links, at most one element per link, and only candidates. */
  lemma ModelRankingProperties(sermons: seq<Sermon>, o: RankOracle)
    requires ModelRanking(sermons, o).Some?
    ensures var r := ModelRanking(sermons, o).value;
      && DistinctLinks(r)
      && |r| <= |LinksOf(sermons)|
      && (forall x :: x in r ==> x in sermons)
  {
    var idxs := IndexList(Strip(o.reply.value), o.parse, |sermons|).value;
    assert Reordered(sermons, idxs) == ModelRanking(sermons, o);
    ReorderedProperties(sermons, idxs);
    ReorderedBounds(sermons, idxs);
  }

  /** On a miss, a raising try block yields the threshold filter and writes nothing to the cache. */
  lemma RankFallback(files: map<string, CacheFile>, query: string, sermons: seq<Sermon>, userId: int, o: RankOracle)
    requires sermons != []
    requires var v := Lookup(files, CacheKey(userId, o.md5(query)), o.readClock); v.None? || v.value == []
    requires ModelRanking(sermons, o).None?
    ensures RankStep(files, query, sermons, userId, o)
      == (ThresholdFilter(sermons), AfterLookup(files, CacheKey(userId, o.md5(query)), o.readClock))
  {
  }

  /** The try block of rank_sermons: summaries, the model call, the parse and the reordering loop. */
  method TryRank(sermons: seq<Sermon>, o: RankOracle) returns (outcome: Option<seq<Sermon>>)
    ensures outcome == ModelRanking(sermons, o)
  {
    if !Summarizable(sermons) || o.reply.None? {
      return None;
    }
    var idxs := IndexList(Strip(o.reply.value), o.parse, |sermons|);
    match idxs
    case None =>
      outcome := None;
    case Some(list) =>
      outcome := ReorderByIndexes(sermons, list);
  }

  class RecommendationEngine {
    const cache: CacheManager

    constructor (cache: CacheManager)
      ensures this.cache == cache
    {
      this.cache := cache;
    }

    /** rank_sermons: the cache is read before the model is consulted and written only after a completed ranking. */
    method RankSermons(query: string, sermons: seq<Sermon>, userId: int, o: RankOracle) returns (r: seq<Sermon>)
      modifies cache
      ensures (r, cache.files) == RankStep(old(cache.files), query, sermons, userId, o)
    {
      if sermons == [] {
        return [];
      }
      ghost var files0 := cache.files;
      var key := CacheKey(userId, o.md5(query));
      var cached := cache.Get(key, o.readClock);
      ghost var files1 := cache.files;
      assert files1 == AfterLookup(files0, key, o.readClock);
      if cached.Some? && cached.value != [] {
        return cached.value;
      }
      var outcome := TryRank(sermons, o);
      match outcome
      case Some(ranked) =>
        cache.Set(key, ranked, o.writeClock);
        r := ranked;
        assert cache.files == Stored(files1, key, ranked, o.writeClock);
      case None =>
        r := ThresholdFilter(sermons);
    }
  }
}
