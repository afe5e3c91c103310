/**
 * PastorTaraBot of telegram_bot.py: the per-user sessions behind "more", the
 * /recommend argument parser, the dispatch of plain messages, the caption of one
 * sermon, and the pagination of a ranked list in pages of five. Every answer the
 * bot would send is returned as a `Reply` value instead; the search results and
 * everything the ranking consults are parameters.
 */
module Bot {
  import opened Wrappers
  import opened Text
  import opened Sermons
  import opened Cache
  import opened Ranking
  import opened Intent
  import Config

  /** Sermons shown per "more". */
  const PageSize: nat := 5

  /** What the bot remembers about a user: the last ranked list and the position of the next page. */
  datatype Session = Session(sermons: seq<Sermon>, index: nat)

  /** The parsed arguments of /recommend. */
  datatype Request = Request(topic: string, num: nat)

  /** The bot's answer to one update, in place of the messages it sends. */
  datatype Reply =
    | AskForTopic                                         // "/recommend" alone: "Please provide a topic!"
    | NoMatches                                           // the search found nothing
    | NoRelevant                                          // the ranking kept nothing
    | Recommendations(shown: seq<Sermon>, offerMore: bool) // the first page, and the "Want more?" hint
    | SearchFirst                                         // "more" without a session
    | NoMoreResults                                       // "more" past the end of the list
    | MoreBatch(batch: seq<Sermon>, stillMore: bool)      // the next page, then "Still more" or "That's all"

  /** One sermon as a Telegram message: a photo with a caption, or a text starting with headphones. */
  datatype SermonMessage = Photo(url: string, caption: string) | Text(text: string)

  /**
   * /recommend arguments (never empty: the empty case asks for a topic first). A final
   * all-digit argument is the count, capped at twenty, and the rest is the topic.
   */
  function ParseRecommendArgs(args: seq<string>): (r: Request)
    requires args != []
    ensures r.num <= MaxRequested
    ensures IsDigits(args[|args| - 1]) ==>
      r == Request(Join(args[..|args| - 1], " "), Min(DigitsValue(args[|args| - 1]), MaxRequested))
    ensures !IsDigits(args[|args| - 1]) ==> r == Request(Join(args, " "), Config.DefaultRecommendations)
  {
    var last := args[|args| - 1];
    if IsDigits(last) then Request(Join(args[..|args| - 1], " "), Min(DigitsValue(last), MaxRequested))
    else Request(Join(args, " "), Config.DefaultRecommendations)
  }

  /** Typing a topic and then a count: the topic and the count come back, the count capped; the topic's words survive. */
  lemma ParseRecommendRoundTrip(topic: seq<string>, n: nat)
    requires forall i :: 0 <= i < |topic| ==> IsWord(topic[i])
    ensures ParseRecommendArgs(topic + [NatToString(n)]) == Request(Join(topic, " "), Min(n, MaxRequested))
    ensures Words(ParseRecommendArgs(topic + [NatToString(n)]).topic) == topic
  {
    var args := topic + [NatToString(n)];
    assert args[..|args| - 1] == topic;
    NatToStringValue(n);
    WordsOfJoin(topic);
  }

  /** Without a final count the whole argument list is the topic and the default count applies. */
  lemma ParseRecommendNoCount(args: seq<string>)
    requires args != [] && forall i :: 0 <= i < |args| ==> IsWord(args[i])
    requires !IsDigits(args[|args| - 1])
    ensures ParseRecommendArgs(args).num == Config.DefaultRecommendations
    ensures Words(ParseRecommendArgs(args).topic) == args
  {
    WordsOfJoin(args);
  }

  /** "/recommend 7" alone asks for seven with an empty topic. */
  lemma ParseRecommendCountOnly()
    ensures ParseRecommendArgs(["7"]) == Request("", 7)
  {
    assert ["7"][..0] == [];
    assert DigitsValue("7") == 7;
  }

  /** A message that asks for the next page: stripped and lower-cased, one of three phrases. */
  predicate IsMoreRequest(text: string) {
    Lower(Strip(text)) in {"more", "more sermons", "show more"}
  }

  /** Whitespace around the message never changes whether it asks for more. */
  lemma MoreRequestPadding(pre: string, text: string, post: string)
    requires AllSpace(pre) && AllSpace(post)
    ensures IsMoreRequest(pre + text + post) <==> IsMoreRequest(text)
  {
    StripPadded(pre, text, post);
  }

  /** Two messages that differ only in the case of ASCII letters both ask for more or both do not. */
  lemma MoreRequestCase(text: string, other: string)
    requires Lower(text) == Lower(other)
    ensures IsMoreRequest(text) <==> IsMoreRequest(other)
  {
    LowerStrip(text);
    LowerStrip(other);
  }

  /** Surrounding whitespace does not matter. */
  lemma MoreRequestPadded()
    ensures IsMoreRequest(" more\n")
  {
    var padded, inner := " more\n", "more\n";
    assert IsSpace(padded[0]) && padded[1..] == inner;
    assert !IsSpace(inner[0]);
    assert LStrip(inner) == inner;
    assert LStrip(padded) == inner;
    assert IsSpace(inner[4]) && inner[..4] == "more";
    assert !IsSpace("more"[3]);
    assert RStrip("more") == "more";
    assert RStrip(inner) == "more";
    assert Lower("more") == "more";
  }

  /** Case does not matter. */
  lemma MoreRequestUpper()
    ensures IsMoreRequest("SHOW MORE")
  {
    assert Strip("SHOW MORE") == "SHOW MORE";
    assert Lower("SHOW MORE") == "show more";
  }

  /** Other wording is a topic, not a page request. */
  lemma MoreRequestOtherWording()
    ensures !IsMoreRequest("more please")
  {
    assert Strip("more please") == "more please";
    assert Lower("more please") == "more please";
  }

  /** `sermon.get(key, default)`. */
  function FieldOr(field: Option<string>, default: string): string {
    field.GetOr(default)
  }

  const CaptionTagline: string := "\U{2728} _Listen. Share. Be Transformed._ \U{2728}"

  /** _format_sermon_caption: the bold title, the description, the tagline and the link. */
  function Caption(s: Sermon): string {
    "*" + FieldOr(s.title, "Untitled") + "*\n\n" + FieldOr(s.description, "No description available")
    + CaptionTail(FieldOr(s.messageLink, ""))
  }

  function CaptionTail(link: string): string {
    "\n\n" + CaptionTagline + "\n\n\U{1F517} " + link
  }

  /**
   * The caption starts with the bold title, ends with the link and contains the
   * description, each replaced by its default when the sermon lacks it.
   */
  lemma CaptionShape(s: Sermon)
    ensures StartsWith(Caption(s), "*" + FieldOr(s.title, "Untitled") + "*\n\n")
    ensures EndsWith(Caption(s), "\U{1F517} " + FieldOr(s.messageLink, ""))
    ensures Contains(Caption(s), FieldOr(s.description, "No description available"))
  {
    var head := "*" + FieldOr(s.title, "Untitled") + "*\n\n";
    var description := FieldOr(s.description, "No description available");
    var last := "\U{1F517} " + FieldOr(s.messageLink, "");
    var tail := CaptionTail(FieldOr(s.messageLink, ""));
    var c := Caption(s);
    assert c == head + description + tail;
    assert c[..|head|] == head;
    assert tail == "\n\n" + CaptionTagline + "\n\n" + last;
    assert c[|c| - |last|..] == last;
    ContainsMiddle(head, description, tail);
  }

  lemma {:induction false} ContainsMiddle(a: string, b: string, c: string)
    ensures Contains(a + b + c, b)
    decreases |a|
  {
    if a == [] {
      assert (a + b + c)[..|b|] == b;
    } else {
      assert (a + b + c)[1..] == a[1..] + b + c;
      ContainsMiddle(a[1..], b, c);
    }
  }

  /** A sermon with no title, description or link still gets a caption, built from the defaults. */
  lemma CaptionDefaults(s: Sermon)
    requires s.title.None? && s.description.None? && s.messageLink.None?
    ensures Caption(s) == "*Untitled*\n\n" + "No description available" + CaptionTail("")
  {
    assert "*" + "Untitled" + "*\n\n" == "*Untitled*\n\n";
  }

  /** _send_sermon_recommendations for one sermon: a photo when it has a non-empty image, else text. */
  function MessageFor(s: Sermon): (m: SermonMessage)
    ensures m.Photo? <==> s.imageUrl.Some? && s.imageUrl.value != []
    ensures m.Photo? ==> m.url == s.imageUrl.value && m.caption == Caption(s)
    ensures m.Text? ==> m.text == "\U{1F3A7} " + Caption(s)
  {
    if s.imageUrl.Some? && s.imageUrl.value != [] then Photo(s.imageUrl.value, Caption(s))
    else Text("\U{1F3A7} " + Caption(s))
  }

  /** What the bot sends for a page of sermons: one message per sermon, in order. */
  function MessagesFor(sermons: seq<Sermon>): (ms: seq<SermonMessage>)
    ensures |ms| == |sermons| && forall i :: 0 <= i < |ms| ==> ms[i] == MessageFor(sermons[i])
  {
    seq(|sermons|, i requires 0 <= i < |sermons| => MessageFor(sermons[i]))
  }

  /**
   * The sessions and answer after _process_recommendation, given the search results and
   * the ranked list rank_sermons returned for them.
   */
  function RecommendOutcome(sessions: map<int, Session>, userId: int, num: nat, found: seq<Sermon>, ranked: seq<Sermon>)
    : (Reply, map<int, Session>)
  {
    if found == [] then (NoMatches, sessions)
    else if ranked == [] then (NoRelevant, sessions)
    else (Recommendations(Take(ranked, num), |ranked| > num), sessions[userId := Session(ranked, num)])
  }

  /**
   * A completed recommendation shows the first `num` ranked sermons, offers more exactly
   * when some are left, and replaces the user's session by the whole list with the
   * next page starting at `num`; other users' sessions are untouched.
   */
  lemma RecommendShown(sessions: map<int, Session>, userId: int, num: nat, found: seq<Sermon>, ranked: seq<Sermon>, other: int)
    requires found != [] && ranked != []
    requires other != userId
    ensures var (reply, sessions') := RecommendOutcome(sessions, userId, num, found, ranked);
      && reply.Recommendations?
      && |reply.shown| == Min(num, |ranked|) && reply.shown == ranked[..|reply.shown|]
      && (reply.offerMore <==> num < |ranked|)
      && userId in sessions' && sessions'[userId] == Session(ranked, num)
      && (other in sessions' <==> other in sessions)
      && (other in sessions ==> sessions'[other] == sessions[other])
  {
  }

  /** Nothing found and nothing relevant are two distinct answers, and neither touches a session. */
  lemma RecommendNothing(sessions: map<int, Session>, userId: int, num: nat, found: seq<Sermon>, ranked: seq<Sermon>)
    requires found == [] || ranked == []
    ensures RecommendOutcome(sessions, userId, num, found, ranked).1 == sessions
    ensures RecommendOutcome(sessions, userId, num, found, ranked).0 == (if found == [] then NoMatches else NoRelevant)
  {
  }

  /** The next page of a session: `sermons[index:index + 5]`. */
  function NextBatch(s: Session): (b: seq<Sermon>)
    ensures |b| <= PageSize
    ensures s.index <= |s.sermons| ==> b == s.sermons[s.index..Min(s.index + PageSize, |s.sermons|)]
    ensures b == [] <==> s.index >= |s.sermons|
  {
    Slice(s.sermons, s.index, s.index + PageSize)
  }

  /** The sessions and answer after _handle_more. */
  function MoreOutcome(sessions: map<int, Session>, userId: int): (Reply, map<int, Session>) {
    if userId !in sessions then (SearchFirst, sessions)
    else
      var s := sessions[userId];
      var batch := NextBatch(s);
      if batch == [] then (NoMoreResults, sessions)
      else
        var s' := s.(index := s.index + PageSize);
        (MoreBatch(batch, s'.index < |s.sermons|), sessions[userId := s'])
  }

  /** Without a session the answer is "search first", never "that's all", and nothing changes. */
  lemma MoreWithoutSession(sessions: map<int, Session>, userId: int)
    requires userId !in sessions
    ensures MoreOutcome(sessions, userId) == (SearchFirst, sessions)
  {
  }

  /**
   * With a session, "more" shows the next one to five sermons and moves the index on by
   * exactly five, even when fewer were left; at the end it says "that's all" and keeps
   * the index.
   */
  lemma MoreWithSession(sessions: map<int, Session>, userId: int)
    requires userId in sessions
    ensures var s := sessions[userId];
      var (reply, sessions') := MoreOutcome(sessions, userId);
      if s.index >= |s.sermons| then reply == NoMoreResults && sessions' == sessions
      else
        && reply.MoreBatch?
        && 1 <= |reply.batch| <= PageSize
        && reply.batch == s.sermons[s.index..Min(s.index + PageSize, |s.sermons|)]
        && (reply.stillMore <==> s.index + PageSize < |s.sermons|)
        && sessions' == sessions[userId := Session(s.sermons, s.index + PageSize)]
  {
  }

  /** The pages "more" hands out from `index` on, until the list is exhausted. */
  function Pages(sermons: seq<Sermon>, index: nat): seq<seq<Sermon>>
    decreases |sermons| - index
  {
    if index >= |sermons| then []
    else [NextBatch(Session(sermons, index))] + Pages(sermons, index + PageSize)
  }

  function Concat(pages: seq<seq<Sermon>>): seq<Sermon> {
    if pages == [] then [] else pages[0] + Concat(pages[1..])
  }

  /**
   * Successive pages are contiguous and disjoint: together they are exactly the rest of
   * the list, every page has one to five sermons and all but the last have five.
   */
  lemma {:induction false} PagesPartition(sermons: seq<Sermon>, index: nat)
    requires index <= |sermons|
    ensures Concat(Pages(sermons, index)) == sermons[index..]
    ensures forall k :: 0 <= k < |Pages(sermons, index)| ==> 1 <= |Pages(sermons, index)[k]| <= PageSize
    ensures forall k :: 0 <= k < |Pages(sermons, index)| - 1 ==> |Pages(sermons, index)[k]| == PageSize
    decreases |sermons| - index
  {
    if index < |sermons| {
      var first := NextBatch(Session(sermons, index));
      var next := index + PageSize;
      if next <= |sermons| {
        PagesPartition(sermons, next);
        assert sermons[index..] == first + sermons[next..];
      } else {
        assert Pages(sermons, next) == [];
        assert first == sermons[index..];
      }
    }
  }

  /** The pages are what repeated "more" requests answer, one after another. */
  lemma {:induction false} MoreAnswersPages(sessions: map<int, Session>, userId: int, k: nat)
    requires userId in sessions
    requires k < |Pages(sessions[userId].sermons, sessions[userId].index)|
    ensures var s := sessions[userId];
      var (reply, sessions') := MoreOutcome(sessions, userId);
      && reply == MoreBatch(Pages(s.sermons, s.index)[0], s.index + PageSize < |s.sermons|)
      && Pages(s.sermons, s.index)[1..] == Pages(sessions'[userId].sermons, sessions'[userId].index)
  {
  }

  /**
   * Nine ranked sermons shown five at a time: the first "more" shows the last four and
   * leaves the index at ten, and the next one says "that's all".
   */
  lemma NineSermons(sessions: map<int, Session>, userId: int, ranked: seq<Sermon>, found: seq<Sermon>)
    requires |ranked| == 9 && found != []
    ensures var (r1, s1) := RecommendOutcome(sessions, userId, 5, found, ranked);
      var (r2, s2) := MoreOutcome(s1, userId);
      var (r3, s3) := MoreOutcome(s2, userId);
      && r1 == Recommendations(ranked[..5], true)
      && r2 == MoreBatch(ranked[5..], false)
      && s2[userId].index == 10
      && r3 == NoMoreResults && s3 == s2
  {
  }

  class PastorTaraBot {
    /** user_sessions: the ranked list and next index per user. */
    var sessions: map<int, Session>
    /** The shared ranking engine and its cache. */
    const engine: RecommendationEngine

    constructor (engine: RecommendationEngine)
      ensures sessions == map[] && this.engine == engine
    {
      sessions := map[];
      this.engine := engine;
    }

    /**
     * _process_recommendation: search (the results are the parameter `found`), rank,
     * store the session and show the first page.
     */
    method ProcessRecommendation(userId: int, topic: string, num: nat, found: seq<Sermon>, o: RankOracle) returns (reply: Reply)
      modifies this, engine.cache
      ensures var (ranked, files) := RankStep(old(engine.cache.files), topic, found, userId, o);
        && engine.cache.files == files
        && (reply, sessions) == RecommendOutcome(old(sessions), userId, num, found, ranked)
    {
      if found == [] {
        return NoMatches;
      }
      var ranked := engine.RankSermons(topic, found, userId, o);
      if ranked == [] {
        return NoRelevant;
      }
      ghost var before := sessions;
      sessions := sessions[userId := Session(ranked, 0)];
      var shown := Take(ranked, num);
      sessions := sessions[userId := sessions[userId].(index := num)];
      reply := Recommendations(shown, |ranked| > num);
      assert sessions == before[userId := Session(ranked, num)];
    }

    /** _handle_more: the next page of the user's session, or why there is none. */
    method HandleMore(userId: int) returns (reply: Reply)
      modifies this
      ensures (reply, sessions) == MoreOutcome(old(sessions), userId)
    {
      if userId !in sessions {
        return SearchFirst;
      }
      var session := sessions[userId];
      var batch := Slice(session.sermons, session.index, session.index + PageSize);
      if batch == [] {
        return NoMoreResults;
      }
      session := session.(index := session.index + PageSize);
      sessions := sessions[userId := session];
      reply := MoreBatch(batch, session.index < |session.sermons|);
    }

    /** recommend_command: no arguments asks for a topic; otherwise parse them and recommend. */
    method RecommendCommand(userId: int, args: seq<string>, found: seq<Sermon>, o: RankOracle) returns (reply: Reply)
      modifies this, engine.cache
      ensures args == [] ==> reply == AskForTopic && sessions == old(sessions) && engine.cache.files == old(engine.cache.files)
      ensures args != [] ==>
        var req := ParseRecommendArgs(args);
        var (ranked, files) := RankStep(old(engine.cache.files), req.topic, found, userId, o);
        && engine.cache.files == files
        && (reply, sessions) == RecommendOutcome(old(sessions), userId, req.num, found, ranked)
    {
      if args == [] {
        return AskForTopic;
      }
      var req := ParseRecommendArgs(args);
      reply := ProcessRecommendation(userId, req.topic, req.num, found, o);
    }

    /** handle_message: a "more" phrase pages on; any other text is a topic with an optional count. */
    method HandleMessage(userId: int, text: string, found: seq<Sermon>, o: RankOracle) returns (reply: Reply)
      modifies this, engine.cache
      ensures IsMoreRequest(text) ==>
        (reply, sessions) == MoreOutcome(old(sessions), userId) && engine.cache.files == old(engine.cache.files)
      ensures !IsMoreRequest(text) ==>
        var message := Strip(text);
        var (ranked, files) := RankStep(old(engine.cache.files), message, found, userId, o);
        && engine.cache.files == files
        && (reply, sessions) == RecommendOutcome(old(sessions), userId, RequestedCount(Words(message)), found, ranked)
    {
      if IsMoreRequest(text) {
        reply := HandleMore(userId);
        return;
      }
      var message := Strip(text);
      var intent := ExtractIntent(message);
      reply := ProcessRecommendation(userId, intent.topic, intent.numRequested, found, o);
    }
  }
}
