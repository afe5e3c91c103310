/**
 * The deterministic parts of ChannelScraper in rag_ingest.py: the teaching filter,
 * the message link, the record built for one message, the clean-up of the model's
 * metadata answer and the fallback without a model, and the documents handed to the
 * vector index. The model's answers and `json.loads` are parameters.
 */
module Ingest {
  import opened Wrappers
  import opened Text
  import opened Sermons
  import opened Store

  /** The words whose presence marks a teaching; each one counts at most once. */
  const TeachingKeywords: seq<string> := [
    "message", "sermon", "teaching", "word", "scripture",
    "bible", "god", "jesus", "pastor", "ministry", "anointing",
    "faith", "prayer", "worship", "spirit", "church", "kingdom",
    "testimony", "revelation", "prophetic", "glory", "grace"]

  /** A message shorter than this is never a teaching. */
  const MinTeachingLength: nat := 100

  /** How many of `keywords` occur in `text`: the generator sum of _is_teaching, over the snoc of the list. */
  function KeywordCount(keywords: seq<string>, text: string): (n: nat)
    ensures n <= |keywords|
    decreases |keywords|
  {
    if keywords == [] then 0
    else KeywordCount(keywords[..|keywords| - 1], text) + (if Contains(text, keywords[|keywords| - 1]) then 1 else 0)
  }

  /** The positions of the keywords that occur in `text`. */
  function FoundKeywords(keywords: seq<string>, text: string): set<nat> {
    set i: nat | i < |keywords| && Contains(text, keywords[i])
  }

  /** The count is the number of keywords present, however often each one occurs. */
  lemma {:induction false} KeywordCountFound(keywords: seq<string>, text: string)
    ensures KeywordCount(keywords, text) == |FoundKeywords(keywords, text)|
    decreases |keywords|
  {
    if keywords != [] {
      var n := |keywords| - 1;
      var p := keywords[..n];
      KeywordCountFound(p, text);
      FoundSnoc(keywords, text);
      var earlier := FoundKeywords(p, text);
      if Contains(text, keywords[n]) {
        assert |earlier + {n}| == |earlier| + 1;
      }
    }
  }

  /** The positions found in a list are those found in its prefix, plus the last one when it occurs. */
  lemma FoundSnoc(keywords: seq<string>, text: string)
    requires keywords != []
    ensures var n := |keywords| - 1;
      && |keywords| - 1 !in FoundKeywords(keywords[..n], text)
      && FoundKeywords(keywords, text)
        == FoundKeywords(keywords[..n], text) + (if Contains(text, keywords[n]) then {n} else {})
  {
    var n := |keywords| - 1;
    var p := keywords[..n];
    var found := FoundKeywords(keywords, text);
    var earlier := FoundKeywords(p, text);
    var last: set<nat> := if Contains(text, keywords[n]) then {n} else {};
    forall i: nat ensures i in found <==> i in earlier + last {
      if i < n { assert p[i] == keywords[i]; }
    }
  }

  /**
   * _is_teaching: at least a hundred characters and two keywords in the lower-cased
   * text; then the model's stripped, upper-cased answer must contain YES. When the
   * model call raises (`verdict` is None) the keyword test, already passed, decides.
   */
  function IsTeaching(text: string, verdict: Option<string>): (r: bool)
    ensures r ==> |text| >= MinTeachingLength && KeywordCount(TeachingKeywords, Lower(text)) >= 2
    ensures |text| >= MinTeachingLength && KeywordCount(TeachingKeywords, Lower(text)) >= 2 ==>
      (r <==> verdict.None? || Contains(Upper(Strip(verdict.value)), "YES"))
  {
    if |text| < MinTeachingLength then false
    else
      var count := KeywordCount(TeachingKeywords, Lower(text));
      if count < 2 then false
      else match verdict
        case None => count >= 2
        case Some(answer) => Contains(Upper(Strip(answer)), "YES")
  }

  /** The answer "yes." counts as YES: case does not matter. */
  lemma LowerCaseYes(text: string)
    requires |text| >= MinTeachingLength && KeywordCount(TeachingKeywords, Lower(text)) >= 2
    ensures IsTeaching(text, Some("yes."))
  {
    var answer := "yes.";
    assert Trimmed(answer) by {
      assert answer[0] == 'y' && answer[|answer| - 1] == '.';
    }
    StripTrimmed(answer);
    assert Upper(answer) == "YES.";
    assert StartsWith("YES.", "YES");
  }

  /** `f"https://t.me/{channel.replace('@', '')}/{message.id}"`. */
  function MessageLink(channel: string, id: int): (r: string)
    ensures StartsWith(r, "https://t.me/")
    ensures '@' !in r
  {
    var r := "https://t.me/" + RemoveChar(channel, '@') + "/" + IntToString(id);
    assert forall c :: c in IntToString(id) ==> IsDigit(c) || c == '-';
    r
  }

  /**
   * For channel names without `/`, the link determines the channel (up to its `@`
   * characters) and the message id.
   */
  lemma MessageLinkInjective(c1: string, i1: int, c2: string, i2: int)
    requires '/' !in c1 && '/' !in c2
    requires MessageLink(c1, i1) == MessageLink(c2, i2)
    ensures RemoveChar(c1, '@') == RemoveChar(c2, '@') && i1 == i2
  {
    var n1, n2 := RemoveChar(c1, '@'), RemoveChar(c2, '@');
    var s1, s2 := IntToString(i1), IntToString(i2);
    var prefix := "https://t.me/";
    assert n1 + "/" + s1 == n2 + "/" + s2 by {
      LinkPath(c1, i1);
      LinkPath(c2, i2);
    }
    SplitAtSlash(n1, s1, n2, s2);
    IntToStringInjective(i1, i2);
  }

  lemma LinkPath(channel: string, id: int)
    ensures MessageLink(channel, id)[13..] == RemoveChar(channel, '@') + "/" + IntToString(id)
  {
    var name, num := RemoveChar(channel, '@'), IntToString(id);
    assert MessageLink(channel, id) == "https://t.me/" + name + "/" + num;
    DropFirst("https://t.me/", name, "/", num);
  }

  lemma DropFirst(a: string, b: string, c: string, d: string)
    ensures (a + b + c + d)[|a|..] == b + c + d
  {
  }

  /** A name without `/`, a slash and a rest: the name and the rest can be told apart. */
  lemma SplitAtSlash(n1: string, s1: string, n2: string, s2: string)
    requires '/' !in n1 && '/' !in n2
    requires n1 + "/" + s1 == n2 + "/" + s2
    ensures n1 == n2 && s1 == s2
  {
    var t := n1 + "/" + s1;
    SlashAfter(n1, s1);
    SlashAfter(n2, s2);
    assert n1 == t[..|n1|] && n2 == t[..|n2|];
    assert s1 == t[|n1| + 1..] && s2 == t[|n2| + 1..];
  }

  /** In `name + "/" + rest` with no `/` in `name`, the first `/` follows the name. */
  lemma SlashAfter(name: string, rest: string)
    requires '/' !in name
    ensures IndexOf(name + "/" + rest, '/') == |name|
  {
    var t := name + "/" + rest;
    assert t[|name|] == '/';
    assert t[..|name|] == name;
    IndexOfFirst(t, '/');
  }

  /** What _extract_metadata returns: title, description and theme. */
  datatype Metadata = Metadata(title: string, description: string, theme: string)

  /** The JSON object `json.loads` produced, by the keys it has. */
  datatype RawMetadata = RawMetadata(title: Option<string>, description: Option<string>, theme: Option<string>)

  const Fence: string := "```"

  /** `content.split('```')[1]` for content that starts with a fence: up to the next fence, or to the end. */
  function FenceBody(content: string): (r: string)
    requires StartsWith(content, Fence)
    ensures |r| <= |content| - 3
  {
    match FindFrom(content, Fence, 3)
    case Some(k) => content[3..k]
    case None => content[3..]
  }

  /**
   * The clean-up of the model's stripped answer before `json.loads`: the body of a
   * leading code fence, without a `json` tag, stripped; then trailing backticks cut
   * and stripped again.
   */
  function Unfenced(content: string): (r: string)
    ensures Trimmed(r)
  {
    var inner :=
      if StartsWith(content, Fence) then
        var body := FenceBody(content);
        Strip(if StartsWith(body, "json") then body[4..] else body)
      else content;
    Strip(RStripChar(inner, '`'))
  }

  /** A fenced, tagged JSON body comes out as the body itself. */
  lemma {:induction false} UnfencedJsonFence(body: string)
    requires Trimmed(body) && (body == [] || body[|body| - 1] != '`')
    requires forall j :: 0 <= j ==> !OccursAt(body, Fence, j)
    requires body == [] || !IsSpace(body[0])
    ensures Unfenced(Fence + "json\n" + body + "\n" + Fence) == body
  {
    var content := Fence + "json\n" + body + "\n" + Fence;
    var tail := "json\n" + body + "\n";
    FenceBodyTagged(body);
    assert StartsWith(tail, "json") && tail[4..] == "\n" + body + "\n";
    StripAround(body);
    StripTrimmed(body);
    RStripCharNone(body);
  }

  /** The fence body of the tagged answer runs from after the opening fence to the closing one. */
  lemma FenceBodyTagged(body: string)
    requires Trimmed(body) && (body == [] || body[|body| - 1] != '`')
    requires forall j :: 0 <= j ==> !OccursAt(body, Fence, j)
    ensures var content := Fence + "json\n" + body + "\n" + Fence;
      StartsWith(content, Fence) && FenceBody(content) == "json\n" + body + "\n"
  {
    var content := Fence + "json\n" + body + "\n" + Fence;
    var tail := "json\n" + body + "\n";
    assert StartsWith(content, Fence);
    assert content[3..] == tail + Fence;
    var k := 3 + |tail|;
    assert OccursAt(content, Fence, k) by {
      assert content[k..k + 3] == Fence;
    }
    forall j | 3 <= j < k ensures !OccursAt(content, Fence, j) {
      NoFenceInTail(body, content, j);
    }
    FindFromFirst(content, Fence, 3, k);
  }

  /** No fence starts inside the tagged body: it would have to lie within `body` or cross its ends, where the characters are not backticks. */
  lemma NoFenceInTail(body: string, content: string, j: nat)
    requires forall i :: 0 <= i ==> !OccursAt(body, Fence, i)
    requires Trimmed(body) && (body == [] || body[|body| - 1] != '`')
    requires content == Fence + "json\n" + body + "\n" + Fence
    requires 3 <= j < 3 + |"json\n" + body + "\n"|
    ensures !OccursAt(content, Fence, j)
  {
    var b0 := 8;
    if j < b0 {
      assert content[j] != '`';
    } else if j + 3 <= b0 + |body| {
      assert content[j..j + 3] == body[j - b0..j - b0 + 3];
      assert !OccursAt(body, Fence, j - b0);
    } else if j < b0 + |body| {
      assert content[b0 + |body| - 1] == body[|body| - 1];
    } else {
      assert content[j] == '\n';
    }
  }

  lemma StripAround(body: string)
    requires Trimmed(body)
    ensures Strip("\n" + body + "\n") == body
  {
    var s := "\n" + body + "\n";
    var t := body + "\n";
    assert IsSpace(s[0]) && s[1..] == t;
    assert LStrip(s) == LStrip(t);
    if body == [] {
      assert t == "\n" && IsSpace(t[0]) && t[1..] == [];
      assert LStrip(t) == LStrip([]) == [];
    } else {
      assert !IsSpace(t[0]);
      assert LStrip(t) == t;
      assert IsSpace(t[|t| - 1]) && t[..|t| - 1] == body;
      assert RStrip(t) == RStrip(body);
      assert !IsSpace(body[|body| - 1]);
      assert RStrip(body) == body;
    }
  }

  lemma RStripCharNone(body: string)
    requires body == [] || body[|body| - 1] != '`'
    ensures RStripChar(body, '`') == body
  {
  }

  /** Text that is not fenced and ends in no backtick passes through unchanged. */
  lemma UnfencedPlain(content: string)
    requires Trimmed(content) && !StartsWith(content, Fence)
    requires content == [] || content[|content| - 1] != '`'
    ensures Unfenced(content) == content
  {
    RStripCharNone(content);
    StripTrimmed(content);
  }

  const TitleLimit: nat := 200
  const DescriptionLimit: nat := 1000
  const ThemeLimit: nat := 50
  const SampleLength: nat := 500

  /** The defaults and cuts applied to the parsed object. */
  function FromRaw(raw: RawMetadata, text: string): (m: Metadata)
    ensures |m.title| <= TitleLimit && |m.description| <= DescriptionLimit && |m.theme| <= ThemeLimit
    ensures raw.title.None? ==> m.title == "Untitled Sermon"
    ensures raw.description.None? ==> m.description == Take(text, SampleLength)
    ensures raw.theme.None? ==> m.theme == "General"
    ensures raw.title.Some? ==> m.title == Take(raw.title.value, TitleLimit)
    ensures raw.description.Some? ==> m.description == Take(raw.description.value, DescriptionLimit)
    ensures raw.theme.Some? ==> m.theme == Take(raw.theme.value, ThemeLimit)
  {
    Metadata(
      Take(raw.title.GetOr("Untitled Sermon"), TitleLimit),
      Take(raw.description.GetOr(Take(text, SampleLength)), DescriptionLimit),
      Take(raw.theme.GetOr("General"), ThemeLimit))
  }

  /** The first line that is not blank, stripped. */
  function FirstNonBlank(lines: seq<string>): (r: Option<string>)
    ensures r.Some? ==> r.value != [] && Trimmed(r.value)
    ensures r.None? <==> Blank(lines)
  {
    if lines == [] then None
    else if Strip(lines[0]) != [] then Some(Strip(lines[0]))
    else
      var rest := lines[1..];
      assert Blank(lines) <==> Blank(rest) by {
        if Blank(rest) {
          forall i | 0 < i < |lines| ensures Strip(lines[i]) == [] {
            assert lines[i] == rest[i - 1];
          }
        }
        if Blank(lines) {
          forall i | 0 <= i < |rest| ensures Strip(rest[i]) == [] {
            assert rest[i] == lines[i + 1];
          }
        }
      }
      FirstNonBlank(rest)
  }

  /** Every line is empty or whitespace. */
  predicate Blank(lines: seq<string>) {
    forall i :: 0 <= i < |lines| ==> Strip(lines[i]) == []
  }

  /** Line `i` is the first one that is not blank. */
  predicate FirstNonBlankAt(lines: seq<string>, i: nat) {
    i < |lines| && Strip(lines[i]) != [] && forall j :: 0 <= j < i ==> Strip(lines[j]) == []
  }

  /** `next(line.strip() for line in lines if line.strip())` is the stripped first non-blank line. */
  lemma {:induction false} FirstNonBlankIsFirst(lines: seq<string>, i: nat)
    requires FirstNonBlankAt(lines, i)
    ensures FirstNonBlank(lines) == Some(Strip(lines[i]))
    decreases i
  {
    if i > 0 {
      assert Strip(lines[0]) == [];
      assert FirstNonBlankAt(lines[1..], i - 1) by {
        forall j | 0 <= j < i - 1 ensures Strip(lines[1..][j]) == [] {
          assert lines[1..][j] == lines[j + 1];
        }
      }
      FirstNonBlankIsFirst(lines[1..], i - 1);
    }
  }

  /** A first line shorter than this is replaced by the first sentence in a text longer than `LongText`. */
  const ShortTitle: nat := 20
  const LongText: nat := 50

  /**
   * The fallback title: the first non-blank line, cut to 200; when that is shorter
   * than twenty characters and the text longer than fifty, the text up to the first
   * `.`, cut to 200; "Untitled Sermon" for a blank text.
   */
  function FallbackTitle(text: string): (t: string)
    ensures |t| <= TitleLimit
    ensures Blank(SplitOn(text, '\n')) ==> t == "Untitled Sermon"
  {
    match FirstNonBlank(SplitOn(text, '\n'))
    case None => "Untitled Sermon"
    case Some(line) =>
      var first := Take(line, TitleLimit);
      if |first| < ShortTitle && |text| > LongText then Take(SplitOn(text, '.')[0], TitleLimit) else first
  }

  /** A first non-blank line of twenty characters or more, or any first line of a short text, is the title, cut to 200. */
  lemma FallbackTitleLine(text: string, i: nat)
    requires FirstNonBlankAt(SplitOn(text, '\n'), i)
    requires |Strip(SplitOn(text, '\n')[i])| >= ShortTitle || |text| <= LongText
    ensures FallbackTitle(text) == Take(Strip(SplitOn(text, '\n')[i]), TitleLimit)
  {
    FirstNonBlankIsFirst(SplitOn(text, '\n'), i);
  }

  /** A short first line in a long text gives way to the text before the first `.` (all of it if there is none), cut to 200. */
  lemma FallbackTitleSentence(text: string, i: nat)
    requires FirstNonBlankAt(SplitOn(text, '\n'), i)
    requires |Strip(SplitOn(text, '\n')[i])| < ShortTitle && |text| > LongText
    ensures FallbackTitle(text) == Take(if '.' in text then text[..IndexOf(text, '.')] else text, TitleLimit)
  {
    var lines := SplitOn(text, '\n');
    FirstNonBlankIsFirst(lines, i);
    assert |Take(Strip(lines[i]), TitleLimit)| < ShortTitle;
    assert FallbackTitle(text) == Take(SplitOn(text, '.')[0], TitleLimit);
    SplitOnFirst(text, '.');
  }

  /** The fallback description: the first 500 characters on one line, stripped. */
  function FallbackDescription(text: string): (d: string)
    ensures |d| <= SampleLength && '\n' !in d && Trimmed(d)
  {
    var flat := ReplaceChar(Take(text, SampleLength), '\n', ' ');
    StripMembers(flat);
    Strip(flat)
  }

  /** The theme table of the fallback, in the dictionary's insertion order. */
  const ThemeTable: seq<(string, string)> := [
    ("faith", "Faith"), ("healing", "Healing"), ("prosperity", "Prosperity"),
    ("purpose", "Purpose"), ("prayer", "Prayer"), ("worship", "Worship"),
    ("family", "Family"), ("business", "Business"), ("breakthrough", "Breakthrough"),
    ("deliverance", "Deliverance"), ("grace", "Grace"), ("love", "Love"),
    ("power", "Power"), ("supernatural", "Supernatural")]

  /** Entry `i` is the first of `table` whose keyword occurs in `lowered`. */
  predicate FirstHit(table: seq<(string, string)>, lowered: string, i: nat)
    requires i < |table|
  {
    Contains(lowered, table[i].0) && forall j :: 0 <= j < i ==> !Contains(lowered, table[j].0)
  }

  /** The theme of the first entry of `table` whose keyword occurs in `lowered`, or "General". */
  function FirstTheme(table: seq<(string, string)>, lowered: string): (r: string)
    ensures r == "General" || exists i :: 0 <= i < |table| && r == table[i].1
    ensures (forall i :: 0 <= i < |table| ==> !Contains(lowered, table[i].0)) ==> r == "General"
    ensures forall i :: 0 <= i < |table| && FirstHit(table, lowered, i) ==> r == table[i].1
  {
    if table == [] then "General"
    else if Contains(lowered, table[0].0) then table[0].1
    else
      var r := FirstTheme(table[1..], lowered);
      assert forall i :: 1 <= i < |table| ==> table[i] == table[1..][i - 1];
      r
  }

  /** Every theme the fallback can give fits the theme cut. */
  lemma ThemeShort(lowered: string)
    ensures |FirstTheme(ThemeTable, lowered)| <= ThemeLimit
  {
    assert forall i :: 0 <= i < |ThemeTable| ==> |ThemeTable[i].1| <= 12;
  }

  /** _fallback_extract_metadata as values. */
  function FallbackMetadata(text: string): (m: Metadata)
    ensures |m.title| <= TitleLimit && |m.description| <= SampleLength && |m.theme| <= ThemeLimit
  {
    ThemeShort(Lower(text));
    Metadata(FallbackTitle(text), FallbackDescription(text), FirstTheme(ThemeTable, Lower(text)))
  }

  /** The theme loop: walk the table and stop at the first keyword that occurs. */
  method FindTheme(table: seq<(string, string)>, lowered: string) returns (theme: string)
    ensures theme == FirstTheme(table, lowered)
  {
    theme := "General";
    var i := 0;
    while i < |table|
      invariant 0 <= i <= |table|
      invariant FirstTheme(table, lowered) == FirstTheme(table[i..], lowered)
    {
      var (keyword, name) := table[i];
      if Contains(lowered, keyword) {
        theme := name;
        break;
      }
      assert table[i..][1..] == table[i + 1..];
      i := i + 1;
    }
  }

  /**
   * _fallback_extract_metadata: the title and description as above, and the theme
   * loop over the table that stops at the first keyword found.
   */
  method FallbackExtractMetadata(text: string) returns (m: Metadata)
    ensures m == FallbackMetadata(text)
    ensures |m.title| <= TitleLimit && |m.description| <= SampleLength
  {
    var title := FallbackTitle(text);
    var description := FallbackDescription(text);
    var theme := FindTheme(ThemeTable, Lower(text));
    return Metadata(title, description, theme);
  }

  /** A text mentioning healing and love but not faith gets the theme Healing: the table's order decides. */
  lemma ThemeOrder(lowered: string)
    requires Contains(lowered, "healing") && !Contains(lowered, "faith")
    ensures FirstTheme(ThemeTable, lowered) == "Healing"
  {
    assert ThemeTable[0].0 == "faith" && ThemeTable[1] == ("healing", "Healing");
  }

  /**
   * _extract_metadata: the model's answer (None when the call raises) is stripped,
   * unfenced and parsed; a failed parse or call falls back to the extraction without
   * a model.
   */
  function ModelMetadata(text: string, reply: Option<string>, parse: string -> Option<RawMetadata>): (m: Metadata)
    ensures |m.title| <= TitleLimit && |m.description| <= DescriptionLimit && |m.theme| <= ThemeLimit
  {
    match reply
    case None => FallbackMetadata(text)
    case Some(answer) =>
      match parse(Unfenced(Strip(answer)))
      case None => FallbackMetadata(text)
      case Some(raw) => FromRaw(raw, text)
  }

  /** The rebinding of `content` in _extract_metadata: unfence, drop the tag, strip, cut the backticks, strip. */
  method CleanContent(stripped: string) returns (content: string)
    ensures content == Unfenced(stripped)
  {
    content := stripped;
    if StartsWith(content, Fence) {
      content := FenceBody(content);
      if StartsWith(content, "json") {
        content := content[4..];
      }
      content := Strip(content);
    }
    content := Strip(RStripChar(content, '`'));
  }

  /** _extract_metadata: strip and clean the answer, parse it, cut the fields; fall back when the call or the parse fails. */
  method ExtractMetadata(text: string, reply: Option<string>, parse: string -> Option<RawMetadata>) returns (m: Metadata)
    ensures m == ModelMetadata(text, reply, parse)
  {
    if reply.None? {
      m := FallbackExtractMetadata(text);
      return;
    }
    var content := CleanContent(Strip(reply.value));
    var parsed := parse(content);
    if parsed.None? {
      m := FallbackExtractMetadata(text);
      return;
    }
    m := FromRaw(parsed.value, text);
  }

  /**
   * _extract_sermon_data for one message: nothing when the link is already stored;
   * otherwise the record with the model's (or fallback) metadata, the image set to the
   * link exactly for photos, and the formatted date.
   */
  method ExtractSermonData(db: SermonDatabase, channel: string, id: int, text: string, isPhoto: bool, date: Option<string>,
                           reply: Option<string>, parse: string -> Option<RawMetadata>) returns (r: Option<Sermon>)
    ensures var link := MessageLink(channel, id);
      && (db.GetSermonByLink(link).Some? ==> r.None?)
      && (db.GetSermonByLink(link).None? ==>
            var m := ModelMetadata(text, reply, parse);
            r == Some(Sermon(Some(m.title), Some(m.description), Some(channel), Some(link),
                             if isPhoto then Some(link) else None, date, Some(m.theme), None)))
  {
    var link := MessageLink(channel, id);
    var existing := db.GetSermonByLink(link);
    if existing.Some? {
      return None;
    }
    var imageUrl: Option<string> := None;
    if isPhoto {
      imageUrl := Some(link);
    }
    var m := ExtractMetadata(text, reply, parse);
    return Some(Sermon(Some(m.title), Some(m.description), Some(channel), Some(link), imageUrl, date, Some(m.theme), None));
  }

  /** The metadata of a vector-index document. */
  datatype DocMetadata = DocMetadata(
    title: string, description: string, channel: string, messageLink: string,
    imageUrl: Option<string>, date: Option<string>, theme: string)

  datatype Document = Document(pageContent: string, metadata: DocMetadata)

  /** The keys _sermons_to_documents reads with `sermon[...]`; each must be present. */
  predicate Documentable(s: Sermon) {
    s.title.Some? && s.description.Some? && s.channel.Some? && s.messageLink.Some?
  }

  /** One sermon as a document: the title, a blank line and the description; the seven fields as metadata. */
  function ToDocument(s: Sermon): (d: Document)
    requires Documentable(s)
    ensures d.pageContent == s.title.value + "\n\n" + s.description.value
    ensures d.metadata.title == s.title.value && d.metadata.description == s.description.value
    ensures d.metadata.channel == s.channel.value && d.metadata.messageLink == s.messageLink.value
    ensures d.metadata.imageUrl == s.imageUrl && d.metadata.date == s.date
    ensures d.metadata.theme == s.theme.GetOr("")
  {
    Document(s.title.value + "\n\n" + s.description.value,
             DocMetadata(s.title.value, s.description.value, s.channel.value, s.messageLink.value,
                         s.imageUrl, s.date, s.theme.GetOr("")))
  }

  /** The page content begins with the title and a blank line and ends with the description, so the title reads back from its start. */
  lemma DocumentTitle(s: Sermon)
    requires Documentable(s)
    ensures StartsWith(ToDocument(s).pageContent, s.title.value + "\n\n")
    ensures EndsWith(ToDocument(s).pageContent, s.description.value)
    ensures ToDocument(s).pageContent[..|s.title.value|] == s.title.value
  {
    var head := s.title.value + "\n\n";
    var content := ToDocument(s).pageContent;
    assert content[..|head|] == head;
    assert content[|content| - |s.description.value|..] == s.description.value;
    assert content[..|s.title.value|] == head[..|s.title.value|];
  }

  /** _sermons_to_documents: one document per sermon, in order. */
  method SermonsToDocuments(sermons: seq<Sermon>) returns (docs: seq<Document>)
    requires forall i :: 0 <= i < |sermons| ==> Documentable(sermons[i])
    ensures |docs| == |sermons|
    ensures forall i :: 0 <= i < |docs| ==> docs[i] == ToDocument(sermons[i])
  {
    docs := [];
    var i := 0;
    while i < |sermons|
      invariant 0 <= i <= |sermons|
      invariant |docs| == i
      invariant forall k :: 0 <= k < i ==> docs[k] == ToDocument(sermons[k])
    {
      docs := docs + [ToDocument(sermons[i])];
      i := i + 1;
    }
  }
}
