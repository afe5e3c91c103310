/**
 * MaterialsLoader._parse_filename of rag_ingest.py for names of the form
 * "Title [link] [image.jpg].ext": the two regular-expression searches are written
 * out as scanners over the name.
 */
module Filename {
  import opened Wrappers
  import opened Text

  /** Python's `s.rfind(c)`: the last position of `c`, or -1. */
  function RFind(s: string, c: char): (k: int)
    ensures -1 <= k < |s|
    ensures k >= 0 ==> s[k] == c
    ensures forall j :: k < j < |s| ==> s[j] != c
  {
    if s == [] then -1
    else if s[|s| - 1] == c then |s| - 1
    else RFind(s[..|s| - 1], c)
  }

  predicate AllDots(s: string) {
    forall i :: 0 <= i < |s| ==> s[i] == '.'
  }

  /**
   * `os.path.splitext(name)[0]`: cut at the last `.` of the final path component,
   * unless everything before it in that component is dots (".bashrc" keeps its name).
   */
  function StripExtension(name: string): (r: string)
    ensures |r| <= |name| && r == name[..|r|]
    ensures r != name ==> name[|r|] == '.' && '.' !in name[|r| + 1..] && '/' !in name[|r| + 1..]
  {
    var dot := RFind(name, '.');
    var sep := RFind(name, '/');
    if dot > sep && !AllDots(name[sep + 1..dot]) then
      assert '.' !in name[dot + 1..] && '/' !in name[dot + 1..];
      name[..dot]
    else name
  }

  /** A `c` at `k` with none after it is what `rfind` returns. */
  lemma RFindLast(s: string, c: char, k: nat)
    requires k < |s| && s[k] == c && c !in s[k + 1..]
    ensures RFind(s, c) == k
  {
    forall t | k < t < |s| ensures s[t] != c {
      assert s[k + 1..][t - k - 1] == s[t];
    }
  }

  /** `c` occurs nowhere from `j` on. */
  lemma AbsentFrom(s: string, c: char, j: nat)
    requires j <= |s| && forall t :: j <= t < |s| ==> s[t] != c
    ensures c !in s[j..]
  {
    forall t | 0 <= t < |s| - j ensures s[j..][t] != c {
      assert s[j..][t] == s[j + t];
    }
  }

  /**
   * The extension is cut: when the last `.` of the name lies in its final path component
   * (no `/` after it) and something other than a dot comes before it in that component,
   * everything from that `.` on is removed.
   */
  lemma StripExtensionCut(name: string, k: nat, j: nat)
    requires k < |name| && name[k] == '.' && '.' !in name[k + 1..] && '/' !in name[k + 1..]
    requires j < k && name[j] != '.' && '/' !in name[j..k]
    ensures StripExtension(name) == name[..k]
  {
    RFindLast(name, '.', k);
    forall t | j <= t < |name| ensures name[t] != '/' {
      if t < k {
        assert name[j..k][t - j] == name[t];
      } else if t > k {
        assert name[k + 1..][t - k - 1] == name[t];
      }
    }
    var sep := RFind(name, '/');
    RFindBefore(name, '/', j);
    assert !AllDots(name[sep + 1..k]) by {
      assert name[sep + 1..k][j - sep - 1] == name[j];
    }
  }

  /** With no `c` from `j` on, `rfind` lands before `j`. */
  lemma RFindBefore(s: string, c: char, j: nat)
    requires forall t :: j <= t < |s| ==> s[t] != c
    ensures RFind(s, c) < j
  {
  }

  /** A stretch of dots. */
  lemma AllDotsSlice(s: string, a: nat, b: nat)
    requires a <= b <= |s| && forall t :: a <= t < b ==> s[t] == '.'
    ensures AllDots(s[a..b])
  {
    forall i | 0 <= i < b - a ensures s[a..b][i] == '.' {
      assert s[a..b][i] == s[a + i];
    }
  }

  /**
   * The name is kept when, in its final path component (no `/` from there on), no dot
   * follows anything but a dot: no dot there at all, or a leading-dot name like ".bashrc".
   */
  lemma StripExtensionKeep(name: string)
    requires forall j :: 0 <= j < |name| && name[j] != '.' && '/' !in name[j..] ==> '.' !in name[j + 1..]
    ensures StripExtension(name) == name
  {
    var dot := RFind(name, '.');
    var sep := RFind(name, '/');
    if dot > sep {
      forall j | sep + 1 <= j < dot ensures name[j] == '.' {
        AbsentFrom(name, '/', j);
        assert name[j + 1..][dot - j - 1] == '.';
      }
      AllDotsSlice(name, sep + 1, dot);
    }
  }

  /** The first position at or after `start` that holds `c`. */
  function FindChar(s: string, c: char, start: nat): (r: Option<nat>)
    ensures r.Some? ==> start <= r.value < |s| && s[r.value] == c
    ensures forall j :: start <= j < |s| && (r.None? || j < r.value) ==> s[j] != c
    decreases |s| - start
  {
    if start >= |s| then None
    else if s[start] == c then Some(start)
    else FindChar(s, c, start + 1)
  }

  /** How many characters `https?://` takes at position `i`: 8, 7, or 0 when neither scheme is there. */
  function SchemeLength(s: string, i: nat): nat {
    if i <= |s| && StartsWith(s[i..], "https://") then 8
    else if i <= |s| && StartsWith(s[i..], "http://") then 7
    else 0
  }

  /**
   * Where `\[(https?://[^\]]+)\]` matched at `p` closes: a `[`, a scheme, at least one
   * character and the first `]` after them.
   */
  function LinkAt(s: string, p: nat): (q: Option<nat>)
    ensures q.Some? ==> p < q.value < |s| && s[p] == '[' && s[q.value] == ']'
  {
    if p < |s| && s[p] == '[' && SchemeLength(s, p + 1) > 0 then
      var body := p + 1 + SchemeLength(s, p + 1);
      match FindChar(s, ']', body)
      case Some(q) => if q > body then Some(q) else None
      case None => None
    else None
  }

  /** `[^\]]+\.ext` without regard to case: at least one character, a dot and `ext`. */
  predicate EndsWithExtension(c: string, ext: string) {
    |c| >= |ext| + 2 && EndsWith(Lower(c), "." + ext)
  }

  /** The contents of an image bracket: a name ending in .jpg, .jpeg, .png or .gif. */
  predicate IsImageName(c: string) {
    EndsWithExtension(c, "jpg") || EndsWithExtension(c, "jpeg") || EndsWithExtension(c, "png") || EndsWithExtension(c, "gif")
  }

  /** Where `\[([^\]]+\.(jpg|jpeg|png|gif))\]` matched at `p` closes: the contents up to the first `]` name an image. */
  function ImageAt(s: string, p: nat): (q: Option<nat>)
    ensures q.Some? ==> p < q.value < |s| && s[p] == '[' && s[q.value] == ']'
    ensures q.Some? ==> IsImageName(s[p + 1..q.value]) && ']' !in s[p + 1..q.value]
  {
    if p < |s| && s[p] == '[' then
      match FindChar(s, ']', p + 1)
      case Some(q) =>
        assert ']' !in s[p + 1..q];
        if IsImageName(s[p + 1..q]) then Some(q) else None
      case None => None
    else None
  }

  /** `re.search` of the link pattern: the leftmost position where it matches, and where the match closes. */
  method FindLink(s: string) returns (m: Option<(nat, nat)>)
    ensures m.Some? ==> LinkAt(s, m.value.0) == Some(m.value.1)
    ensures forall p :: 0 <= p && (m.None? || p < m.value.0) ==> LinkAt(s, p).None?
  {
    var p := 0;
    while p < |s|
      invariant 0 <= p <= |s|
      invariant forall j :: 0 <= j < p ==> LinkAt(s, j).None?
    {
      var q := LinkAt(s, p);
      if q.Some? {
        return Some((p, q.value));
      }
      p := p + 1;
    }
    return None;
  }

  /** `re.search` of the image pattern, likewise. */
  method FindImage(s: string) returns (m: Option<(nat, nat)>)
    ensures m.Some? ==> ImageAt(s, m.value.0) == Some(m.value.1)
    ensures forall p :: 0 <= p && (m.None? || p < m.value.0) ==> ImageAt(s, p).None?
  {
    var p := 0;
    while p < |s|
      invariant 0 <= p <= |s|
      invariant forall j :: 0 <= j < p ==> ImageAt(s, j).None?
    {
      var q := ImageAt(s, p);
      if q.Some? {
        return Some((p, q.value));
      }
      p := p + 1;
    }
    return None;
  }

  /** The title of a name that has no brackets at all is the stripped name, or "Untitled Sermon" when that is empty. */
  lemma NoBracketsNoMatch(s: string)
    requires '[' !in s
    ensures forall p :: 0 <= p ==> LinkAt(s, p).None? && ImageAt(s, p).None?
  {
    forall p | 0 <= p ensures LinkAt(s, p).None? && ImageAt(s, p).None? {
      if p < |s| { assert s[p] in s; }
    }
  }

  lemma {:induction false} RemoveCharAbsent(s: string, c: char)
    requires c !in s
    ensures RemoveChar(s, c) == s
  {
    if s != [] {
      assert s[0] in s;
      assert c !in s[1..];
      RemoveCharAbsent(s[1..], c);
    }
  }

  /** The first link match of `n` starts at `p`. */
  predicate LeftmostLink(n: string, p: nat) {
    p < |n| && LinkAt(n, p).Some? && forall j :: 0 <= j < p ==> LinkAt(n, j).None?
  }

  /** The first image match of `n` starts at `p`. */
  predicate LeftmostImage(n: string, p: nat) {
    p < |n| && ImageAt(n, p).Some? && forall j :: 0 <= j < p ==> ImageAt(n, j).None?
  }

  /** `link` is the body of the first link match of `name`, from `p` to `q`, and `rest` what its removal leaves. */
  predicate TookLink(name: string, p: nat, q: nat, link: string, rest: string) {
    && LeftmostLink(name, p) && LinkAt(name, p) == Some(q)
    && link == name[p + 1..q]
    && rest == Strip(RemoveAll(name, name[p..q + 1]))
  }

  /** `image` is the contents of the first image match of `name`, from `p` to `q`, and `rest` what its removal leaves. */
  predicate TookImage(name: string, p: nat, q: nat, image: string, rest: string) {
    && LeftmostImage(name, p) && ImageAt(name, p) == Some(q)
    && image == name[p + 1..q]
    && rest == Strip(RemoveAll(name, name[p..q + 1]))
  }

  /** The link step: capture the first link match and remove every copy of the matched text. */
  method TakeLink(name: string) returns (link: Option<string>, rest: string)
    ensures link.None? <==> forall p :: 0 <= p ==> LinkAt(name, p).None?
    ensures link.None? ==> rest == name
    ensures link.Some? ==> exists p: nat, q: nat :: TookLink(name, p, q, link.value, rest)
    ensures link.Some? ==> (StartsWith(link.value, "https://") || StartsWith(link.value, "http://")) && ']' !in link.value
  {
    var m := FindLink(name);
    if m.Some? {
      var (p, q) := m.value;
      LinkText(name, p, q);
      link, rest := Some(name[p + 1..q]), Strip(RemoveAll(name, name[p..q + 1]));
      assert TookLink(name, p, q, link.value, rest);
    } else {
      link, rest := None, name;
    }
  }

  /** The image step: capture the first image match and remove every copy of the matched text. */
  method TakeImage(name: string) returns (image: Option<string>, rest: string)
    ensures image.None? <==> forall p :: 0 <= p ==> ImageAt(name, p).None?
    ensures image.None? ==> rest == name
    ensures image.Some? ==> exists p: nat, q: nat :: TookImage(name, p, q, image.value, rest)
    ensures image.Some? ==> IsImageName(image.value) && ']' !in image.value
  {
    var m := FindImage(name);
    if m.Some? {
      var (p, q) := m.value;
      image, rest := Some(name[p + 1..q]), Strip(RemoveAll(name, name[p..q + 1]));
      assert TookImage(name, p, q, image.value, rest);
    } else {
      image, rest := None, name;
    }
  }

  const UntitledSermon: string := "Untitled Sermon"

  /** `re.sub(r'\[|\]', '', name).strip()`, or "Untitled Sermon" when that is empty. */
  function CleanedTitle(name: string): string {
    var stripped := Strip(RemoveChar(RemoveChar(name, '['), ']'));
    if stripped == [] then UntitledSermon else stripped
  }

  /** The last step: delete every bracket left, strip, and fall back to "Untitled Sermon" when nothing is left. */
  method CleanTitle(name: string) returns (title: string)
    ensures title == CleanedTitle(name)
    ensures title != [] && Trimmed(title) && '[' !in title && ']' !in title
    ensures '[' !in name && ']' !in name ==> title == (if Strip(name) == [] then UntitledSermon else Strip(name))
  {
    var cleaned := RemoveChar(RemoveChar(name, '['), ']');
    StripMembers(cleaned);
    if '[' !in name && ']' !in name {
      RemoveCharAbsent(name, '[');
      RemoveCharAbsent(name, ']');
    }
    var stripped := Strip(cleaned);
    if stripped == [] {
      title := UntitledSermon;
    } else {
      title := stripped;
    }
  }

  /**
   * _parse_filename: drop the extension; take the first bracketed http(s) link out of
   * the name (every copy of it), then the first bracketed image name; delete the
   * remaining brackets; strip; an empty title becomes "Untitled Sermon".
   */
  method ParseFilename(filename: string)
    returns (title: string, link: Option<string>, image: Option<string>, ghost afterLink: string, ghost afterImage: string)
    ensures var n := StripExtension(filename);
      && (link.None? <==> forall p :: 0 <= p ==> LinkAt(n, p).None?)
      && (link.None? ==> afterLink == n)
      && (link.Some? ==> exists p: nat, q: nat :: TookLink(n, p, q, link.value, afterLink))
    ensures image.None? <==> forall p :: 0 <= p ==> ImageAt(afterLink, p).None?
    ensures image.None? ==> afterImage == afterLink
    ensures image.Some? ==> exists p: nat, q: nat :: TookImage(afterLink, p, q, image.value, afterImage)
    ensures title == CleanedTitle(afterImage)
    ensures title != [] && Trimmed(title) && '[' !in title && ']' !in title
    ensures link.Some? ==> (StartsWith(link.value, "https://") || StartsWith(link.value, "http://")) && ']' !in link.value
    ensures image.Some? ==> IsImageName(image.value) && ']' !in image.value
    ensures var n := StripExtension(filename);
      '[' !in n && ']' !in n ==> link.None? && image.None? && title == (if Strip(n) == [] then UntitledSermon else Strip(n))
  {
    var name := StripExtension(filename);
    var unlinked, remainder;
    link, unlinked := TakeLink(name);
    image, remainder := TakeImage(unlinked);
    if '[' !in name {
      NoBracketsNoMatch(name);
      NoBracketsNoMatch(unlinked);
    }
    title := CleanTitle(remainder);
    afterLink, afterImage := unlinked, remainder;
  }

  /** A stretch of `s` in which no position holds `c` does not contain `c`. */
  lemma NoCharBetween(s: string, c: char, a: nat, b: nat)
    requires a <= b <= |s|
    requires forall j :: a <= j < b ==> s[j] != c
    ensures c !in s[a..b]
  {
  }

  /** The text a link match captures starts with its scheme and holds no `]`. */
  lemma LinkText(s: string, p: nat, q: nat)
    requires LinkAt(s, p) == Some(q)
    ensures StartsWith(s[p + 1..q], "https://") || StartsWith(s[p + 1..q], "http://")
    ensures ']' !in s[p + 1..q]
  {
    var L := SchemeLength(s, p + 1);
    var body := p + 1 + L;
    var scheme: string := if L == 8 then "https://" else "http://";
    assert s[p + 1..body] == scheme by {
      assert s[p + 1..body] == s[p + 1..][..L];
    }
    assert FindChar(s, ']', body) == Some(q);
    NoCharBetween(s, ']', body, q);
    assert s[p + 1..q] == scheme + s[body..q];
    assert ']' !in scheme;
    assert (scheme + s[body..q])[..L] == scheme;
  }

  /** splitext on three names: an ordinary extension goes, a leading-dot name stays, a dot in a directory name is not an extension. */
  lemma StripExtensionExamples()
    ensures StripExtension("Faith.pdf") == "Faith"
    ensures StripExtension(".bashrc") == ".bashrc"
    ensures StripExtension("v1.2/notes") == "v1.2/notes"
  {
    StripExtensionPlain();
    StripExtensionDotfile();
    StripExtensionDirectoryDot();
  }

  lemma StripExtensionPlain()
    ensures StripExtension("Faith.pdf") == "Faith"
  {
    var name := "Faith.pdf";
    assert RFind(name, '.') == 5 by {
      assert name[..8] == "Faith.pd" && "Faith.pd"[..7] == "Faith.p" && "Faith.p"[..6] == "Faith.";
    }
    assert RFind(name, '/') == -1;
    assert !AllDots(name[0..5]) by { assert name[0..5][0] == 'F'; }
    assert name[..5] == "Faith";
  }

  lemma StripExtensionDotfile()
    ensures StripExtension(".bashrc") == ".bashrc"
  {
    var name := ".bashrc";
    assert RFind(name, '.') == 0 by {
      assert name[0] == '.';
      assert name[1] != '.' && name[2] != '.' && name[3] != '.';
      assert name[4] != '.' && name[5] != '.' && name[6] != '.';
    }
    assert RFind(name, '/') == -1;
    assert AllDots(name[0..0]);
  }

  lemma StripExtensionDirectoryDot()
    ensures StripExtension("v1.2/notes") == "v1.2/notes"
  {
    var name := "v1.2/notes";
    assert RFind(name, '/') == 4 by {
      assert name[..9] == "v1.2/note" && "v1.2/note"[..8] == "v1.2/not";
      assert "v1.2/not"[..7] == "v1.2/no" && "v1.2/no"[..6] == "v1.2/n" && "v1.2/n"[..5] == "v1.2/";
    }
    assert RFind(name, '.') <= 4;
  }

  /** A bracketed image name matches whatever the case of its extension; a bare extension does not. */
  lemma ImageNameExamples()
    ensures IsImageName("cover.JPG")
    ensures !IsImageName(".png")
  {
    var c := "cover.JPG";
    var l := Lower(c);
    assert l[5] == '.' && l[6] == 'j' && l[7] == 'p' && l[8] == 'g';
    assert l[|l| - 4..] == ".jpg";
    assert EndsWithExtension(c, "jpg");
  }
}
