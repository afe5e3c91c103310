/** The numeric tunables of config.py. */
module Config {
  /** Results the vector index is asked for. */
  const TopKSearch: nat := 20
  /** Similarity a candidate needs to survive the ranking fallback. */
  const MinRelevanceScore: real := 0.7
  /** Recommendations shown when the user names no count. */
  const DefaultRecommendations: nat := 5
  /** Hours a cached ranking stays fresh. */
  const CacheDurationHours: nat := 6
}

/** The sermon record that travels between the scraper, the store, the vector index and the bot. */
module Sermons {
  import opened Wrappers

  /**
   * A sermon as the source passes it around: a dictionary in which every key may be
   * missing (None here). Ingestion fills the first seven keys; a search result also
   * carries the similarity score (1 = identical).
   */
  datatype Sermon = Sermon(
    title: Option<string>,
    description: Option<string>,
    channel: Option<string>,
    messageLink: Option<string>,
    imageUrl: Option<string>,
    date: Option<string>,
    theme: Option<string>,
    similarityScore: Option<real>)

  /** The links present among `s`. */
  function LinksOf(s: seq<Sermon>): set<string> {
    set i | 0 <= i < |s| && s[i].messageLink.Some? :: s[i].messageLink.value
  }

  /** Every sermon of `s` has a link and no two share one. */
  predicate DistinctLinks(s: seq<Sermon>) {
    && (forall i :: 0 <= i < |s| ==> s[i].messageLink.Some?)
    && (forall i, j :: 0 <= i < j < |s| ==> s[i].messageLink != s[j].messageLink)
  }

  lemma LinksOfAppend(s: seq<Sermon>, x: Sermon)
    ensures LinksOf(s + [x]) == LinksOf(s) + (if x.messageLink.Some? then {x.messageLink.value} else {})
  {
    var t := s + [x];
    forall l | l in LinksOf(t) ensures l in LinksOf(s) + (if x.messageLink.Some? then {x.messageLink.value} else {}) {
      var i :| 0 <= i < |t| && t[i].messageLink.Some? && t[i].messageLink.value == l;
      if i < |s| { assert s[i] == t[i]; }
    }
    forall l | l in LinksOf(s) ensures l in LinksOf(t) {
      var i :| 0 <= i < |s| && s[i].messageLink.Some? && s[i].messageLink.value == l;
      assert t[i] == s[i];
    }
    if x.messageLink.Some? {
      assert t[|s|] == x;
    }
  }

  /** A list with distinct links has exactly as many links as elements. */
  lemma {:induction false} DistinctLinksCount(s: seq<Sermon>)
    requires DistinctLinks(s)
    ensures |LinksOf(s)| == |s|
    decreases |s|
  {
    if s != [] {
      var p := s[..|s| - 1];
      var x := s[|s| - 1];
      assert s == p + [x];
      DistinctLinksCount(p);
      LinksOfAppend(p, x);
    }
  }
}
