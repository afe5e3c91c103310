/**
 * SermonDatabase of db_handler.py over the `sermons` table: an id assigned by
 * AUTOINCREMENT, a UNIQUE NOT NULL message link, and INSERT OR REPLACE as the upsert.
 * The table is a sequence of rows in rowid order.
 */
module Store {
  import opened Wrappers
  import opened Sermons

  /** One row of `sermons` (the two timestamp columns are not modelled). */
  datatype Row = Row(
    id: nat,
    title: string,
    description: string,
    channel: string,
    messageLink: string,
    imageUrl: Option<string>,
    date: Option<string>,
    theme: Option<string>)

  /** The row add_sermon writes for a record: a missing key is '' for the NOT NULL columns and the theme, NULL otherwise. */
  function RowOf(s: Sermon, id: nat): (r: Row)
    ensures r.id == id && r.messageLink == s.messageLink.GetOr("")
    ensures s.title.None? ==> r.title == ""
    ensures s.description.None? ==> r.description == ""
    ensures s.channel.None? ==> r.channel == ""
    ensures s.theme.None? ==> r.theme == Some("")
    ensures r.imageUrl == s.imageUrl && r.date == s.date
  {
    Row(id, s.title.GetOr(""), s.description.GetOr(""), s.channel.GetOr(""), s.messageLink.GetOr(""),
        s.imageUrl, s.date, Some(s.theme.GetOr("")))
  }

  /** The UNIQUE constraint on message_link. */
  predicate UniqueLinks(rows: seq<Row>) {
    forall i, j :: 0 <= i < j < |rows| ==> rows[i].messageLink != rows[j].messageLink
  }

  /** Rowids grow along the table and stay below the next AUTOINCREMENT value. */
  predicate IdsBelow(rows: seq<Row>, nextId: nat) {
    && (forall i, j :: 0 <= i < j < |rows| ==> rows[i].id < rows[j].id)
    && (forall i :: 0 <= i < |rows| ==> rows[i].id < nextId)
  }

  function Links(rows: seq<Row>): set<string> {
    set i | 0 <= i < |rows| :: rows[i].messageLink
  }

  /** The rows whose link differs from `link`, in table order: what REPLACE leaves before inserting. */
  function WithoutLink(rows: seq<Row>, link: string): (r: seq<Row>)
    ensures forall x :: x in r <==> x in rows && x.messageLink != link
    ensures |r| <= |rows|
    ensures (forall x :: x in rows ==> x.messageLink != link) ==> r == rows
  {
    if rows == [] then []
    else (if rows[0].messageLink == link then [] else [rows[0]]) + WithoutLink(rows[1..], link)
  }

  /** `SELECT * FROM sermons WHERE message_link = ?` followed by fetchone. */
  function FindByLink(rows: seq<Row>, link: string): (r: Option<Row>)
    ensures r.Some? ==> r.value in rows && r.value.messageLink == link
    ensures r.None? <==> forall x :: x in rows ==> x.messageLink != link
  {
    if rows == [] then None
    else if rows[0].messageLink == link then Some(rows[0])
    else FindByLink(rows[1..], link)
  }

  /** The table after INSERT OR REPLACE of `s` with the fresh rowid `id`. */
  function Upserted(rows: seq<Row>, s: Sermon, id: nat): seq<Row> {
    WithoutLink(rows, s.messageLink.GetOr("")) + [RowOf(s, id)]
  }

  lemma {:induction false} LinksCons(rows: seq<Row>)
    requires rows != []
    ensures Links(rows) == {rows[0].messageLink} + Links(rows[1..])
  {
    forall l | l in Links(rows) ensures l in {rows[0].messageLink} + Links(rows[1..]) {
      var i :| 0 <= i < |rows| && rows[i].messageLink == l;
      if i > 0 { assert rows[1..][i - 1] == rows[i]; }
    }
    forall l | l in Links(rows[1..]) ensures l in Links(rows) {
      var i :| 0 <= i < |rows[1..]| && rows[1..][i].messageLink == l;
      assert rows[i + 1] == rows[1..][i];
    }
  }

  /** In a table with unique links the first row's link occurs nowhere else. */
  lemma HeadLinkFresh(rows: seq<Row>)
    requires rows != [] && UniqueLinks(rows)
    ensures UniqueLinks(rows[1..])
    ensures forall x :: x in rows[1..] ==> x.messageLink != rows[0].messageLink
    ensures rows[0].messageLink !in Links(rows[1..])
  {
    var tail := rows[1..];
    forall x | x in tail ensures x.messageLink != rows[0].messageLink {
      var k :| 0 <= k < |tail| && tail[k] == x;
      assert rows[k + 1] == x;
    }
    forall i, j | 0 <= i < j < |tail| ensures tail[i].messageLink != tail[j].messageLink {
      assert tail[i] == rows[i + 1] && tail[j] == rows[j + 1];
    }
  }

  /** A row whose link is not among `rest` can go in front of it. */
  lemma UniqueCons(r: Row, rest: seq<Row>)
    requires UniqueLinks(rest)
    requires forall x :: x in rest ==> x.messageLink != r.messageLink
    ensures UniqueLinks([r] + rest)
  {
    var out := [r] + rest;
    forall i, j | 0 <= i < j < |out| ensures out[i].messageLink != out[j].messageLink {
      if i == 0 { assert out[j] == rest[j - 1] && rest[j - 1] in rest; }
      else { assert out[i] == rest[i - 1] && out[j] == rest[j - 1]; }
    }
  }

  /** Removing a link from a table with unique links removes at most one row and keeps the links unique. */
  lemma {:induction false} UniqueWithout(rows: seq<Row>, link: string)
    requires UniqueLinks(rows)
    ensures |WithoutLink(rows, link)| == |rows| - (if link in Links(rows) then 1 else 0)
    ensures UniqueLinks(WithoutLink(rows, link))
    decreases |rows|
  {
    if rows != [] {
      HeadLinkFresh(rows);
      UniqueWithout(rows[1..], link);
      LinksCons(rows);
      if rows[0].messageLink != link {
        UniqueCons(rows[0], WithoutLink(rows[1..], link));
      }
    }
  }

  /** Removing rows keeps the rowids increasing. */
  lemma {:induction false} IdsWithout(rows: seq<Row>, link: string, nextId: nat)
    requires IdsBelow(rows, nextId)
    ensures IdsBelow(WithoutLink(rows, link), nextId)
    decreases |rows|
  {
    if rows != [] {
      IdsHead(rows, nextId);
      IdsWithout(rows[1..], link, nextId);
      var rest := WithoutLink(rows[1..], link);
      if rows[0].messageLink != link {
        assert WithoutLink(rows, link) == [rows[0]] + rest;
        IdsCons(rows[0], rest, nextId);
      } else {
        assert WithoutLink(rows, link) == [] + rest;
      }
    }
  }

  /** Below the first row the ids still rise, and all exceed the first one. */
  lemma IdsHead(rows: seq<Row>, nextId: nat)
    requires rows != [] && IdsBelow(rows, nextId)
    ensures IdsBelow(rows[1..], nextId) && rows[0].id < nextId
    ensures forall y :: y in rows[1..] ==> rows[0].id < y.id
  {
    var rest := rows[1..];
    forall i, j | 0 <= i < j < |rest| ensures rest[i].id < rest[j].id {
      assert rest[i] == rows[i + 1] && rest[j] == rows[j + 1];
    }
    forall y | y in rest ensures rows[0].id < y.id {
      var k :| 0 <= k < |rest| && rest[k] == y;
      assert rows[k + 1] == y;
    }
  }

  lemma IdsCons(x: Row, rest: seq<Row>, nextId: nat)
    requires IdsBelow(rest, nextId) && x.id < nextId
    requires forall y :: y in rest ==> x.id < y.id
    ensures IdsBelow([x] + rest, nextId)
  {
    var out := [x] + rest;
    forall i, j | 0 <= i < j < |out| ensures out[i].id < out[j].id {
      if i == 0 { assert out[j] == rest[j - 1] && rest[j - 1] in rest; }
      else { assert out[i] == rest[i - 1] && out[j] == rest[j - 1]; }
    }
  }

  /** The upsert keeps the links unique, whatever rowid it uses. */
  lemma UpsertUnique(rows: seq<Row>, s: Sermon, id: nat)
    requires UniqueLinks(rows)
    ensures UniqueLinks(Upserted(rows, s, id))
  {
    var link := s.messageLink.GetOr("");
    var kept := WithoutLink(rows, link);
    UniqueWithout(rows, link);
    var out := Upserted(rows, s, id);
    forall i | 0 <= i < |kept| ensures out[i].messageLink != out[|kept|].messageLink {
      assert out[i] == kept[i] && kept[i] in kept;
    }
  }

  /** A table that meets the schema stays so after an upsert with the next rowid. */
  lemma UpsertKeepsSchema(rows: seq<Row>, s: Sermon, nextId: nat)
    requires UniqueLinks(rows) && IdsBelow(rows, nextId)
    ensures UniqueLinks(Upserted(rows, s, nextId)) && IdsBelow(Upserted(rows, s, nextId), nextId + 1)
  {
    var link := s.messageLink.GetOr("");
    var kept := WithoutLink(rows, link);
    UpsertUnique(rows, s, nextId);
    IdsWithout(rows, link, nextId);
    var out := Upserted(rows, s, nextId);
    forall i | 0 <= i < |kept| ensures out[i].id < out[|kept|].id {
      assert out[i] == kept[i] && kept[i] in kept;
    }
  }

  /** An upsert of a link not yet stored adds one row; of a stored link, it keeps the count. */
  lemma UpsertCount(rows: seq<Row>, s: Sermon, id: nat)
    requires UniqueLinks(rows)
    ensures |Upserted(rows, s, id)| == |rows| + (if s.messageLink.GetOr("") in Links(rows) then 0 else 1)
  {
    UniqueWithout(rows, s.messageLink.GetOr(""));
  }

  /** After an upsert the link reads back the new row; every other link reads what it read before. */
  lemma UpsertLookup(rows: seq<Row>, s: Sermon, id: nat, other: string)
    requires UniqueLinks(rows) && other != s.messageLink.GetOr("")
    ensures FindByLink(Upserted(rows, s, id), s.messageLink.GetOr("")) == Some(RowOf(s, id))
    ensures FindByLink(Upserted(rows, s, id), other) == FindByLink(rows, other)
  {
    var out := Upserted(rows, s, id);
    UpsertUnique(rows, s, id);
    UniqueFind(out, s.messageLink.GetOr(""), |out| - 1);
    UpsertLookupOther(rows, s, id, other);
  }

  lemma UpsertLookupOther(rows: seq<Row>, s: Sermon, id: nat, other: string)
    requires UniqueLinks(rows) && other != s.messageLink.GetOr("")
    ensures FindByLink(Upserted(rows, s, id), other) == FindByLink(rows, other)
  {
    var link := s.messageLink.GetOr("");
    var out := Upserted(rows, s, id);
    var kept := WithoutLink(rows, link);
    UpsertUnique(rows, s, id);
    var before := FindByLink(rows, other);
    assert out[..|out| - 1] == kept;
    if before.Some? {
      assert before.value in kept;
      var k :| 0 <= k < |kept| && kept[k] == before.value;
      assert out[k] == kept[k];
      UniqueFind(out, other, k);
    } else {
      forall x | x in out ensures x.messageLink != other {
        if x in kept {
        } else {
          assert x == RowOf(s, id);
        }
      }
    }
  }

  /** With unique links, the lookup finds the row at any position that holds the link. */
  lemma {:induction false} UniqueFind(rows: seq<Row>, link: string, k: nat)
    requires UniqueLinks(rows) && k < |rows| && rows[k].messageLink == link
    ensures FindByLink(rows, link) == Some(rows[k])
    decreases k
  {
    if k > 0 {
      assert rows[0].messageLink != link;
      assert UniqueLinks(rows[1..]);
      assert rows[1..][k - 1] == rows[k];
      UniqueFind(rows[1..], link, k - 1);
    }
  }

  /** With unique links the count of rows is the number of distinct links. */
  lemma {:induction false} CountIsLinks(rows: seq<Row>)
    requires UniqueLinks(rows)
    ensures |Links(rows)| == |rows|
    decreases |rows|
  {
    if rows != [] {
      assert UniqueLinks(rows[1..]);
      CountIsLinks(rows[1..]);
      LinksCons(rows);
      assert rows[0].messageLink !in Links(rows[1..]) by {
        forall i | 0 <= i < |rows[1..]| ensures rows[1..][i].messageLink != rows[0].messageLink {
          assert rows[1..][i] == rows[i + 1];
        }
      }
    }
  }

  /** SQLite's BINARY collation on TEXT: code-point order, a proper prefix first. */
  predicate TextLe(a: string, b: string)
    decreases |a|
  {
    a == [] || (b != [] && (a[0] < b[0] || (a[0] == b[0] && TextLe(a[1..], b[1..]))))
  }

  lemma {:induction false} TextLeTotal(a: string, b: string)
    ensures TextLe(a, b) || TextLe(b, a)
    decreases |a|
  {
    if a != [] && b != [] && a[0] == b[0] {
      TextLeTotal(a[1..], b[1..]);
    }
  }

  lemma {:induction false} TextLeTrans(a: string, b: string, c: string)
    requires TextLe(a, b) && TextLe(b, c)
    ensures TextLe(a, c)
    decreases |a|
  {
    if a != [] && a[0] == b[0] && b[0] == c[0] {
      TextLeTrans(a[1..], b[1..], c[1..]);
    }
  }

  /**
   * `a` may be listed before `b` under `ORDER BY date DESC`: SQLite orders NULL below
   * every text, so NULL dates come last.
   */
  predicate ListedBefore(a: Option<string>, b: Option<string>) {
    b.None? || (a.Some? && TextLe(b.value, a.value))
  }

  lemma ListedBeforeTotal(a: Option<string>, b: Option<string>)
    ensures ListedBefore(a, b) || ListedBefore(b, a)
  {
    if a.Some? && b.Some? { TextLeTotal(a.value, b.value); }
  }

  lemma ListedBeforeTrans(a: Option<string>, b: Option<string>, c: Option<string>)
    requires ListedBefore(a, b) && ListedBefore(b, c)
    ensures ListedBefore(a, c)
  {
    if c.Some? { TextLeTrans(c.value, b.value, a.value); }
  }

  /** Newest date first, undated rows last. */
  predicate DateDescending(rows: seq<Row>) {
    forall i, j :: 0 <= i < j < |rows| ==> ListedBefore(rows[i].date, rows[j].date)
  }

  /** A row listed before every row of a date-descending list can go in front of it. */
  lemma DescendingCons(r: Row, rest: seq<Row>)
    requires DateDescending(rest)
    requires forall x :: x in rest ==> ListedBefore(r.date, x.date)
    ensures DateDescending([r] + rest)
  {
    var out := [r] + rest;
    forall i, j | 0 <= i < j < |out| ensures ListedBefore(out[i].date, out[j].date) {
      if i == 0 { assert out[j] == rest[j - 1] && rest[j - 1] in rest; }
      else { assert out[i] == rest[i - 1] && out[j] == rest[j - 1]; }
    }
  }

  /** The first row of a date-descending list is listed before all the others. */
  lemma DescendingHead(sorted: seq<Row>)
    requires sorted != [] && DateDescending(sorted)
    ensures DateDescending(sorted[1..])
    ensures forall x :: x in sorted ==> ListedBefore(sorted[0].date, x.date) || x == sorted[0]
  {
    var tail := sorted[1..];
    forall i, j | 0 <= i < j < |tail| ensures ListedBefore(tail[i].date, tail[j].date) {
      assert tail[i] == sorted[i + 1] && tail[j] == sorted[j + 1];
    }
    forall x | x in sorted ensures ListedBefore(sorted[0].date, x.date) || x == sorted[0] {
      var k :| 0 <= k < |sorted| && sorted[k] == x;
    }
  }

  /** Put `r` into a date-descending list, after the rows listed before it. */
  function InsertByDate(sorted: seq<Row>, r: Row): (out: seq<Row>)
    requires DateDescending(sorted)
    ensures DateDescending(out)
    ensures multiset(out) == multiset(sorted) + multiset{r}
    decreases |sorted|
  {
    if sorted == [] then [r]
    else
      DescendingHead(sorted);
      if ListedBefore(r.date, sorted[0].date) then
        forall x | x in sorted ensures ListedBefore(r.date, x.date) {
          if x != sorted[0] { ListedBeforeTrans(r.date, sorted[0].date, x.date); }
        }
        DescendingCons(r, sorted);
        [r] + sorted
      else
        ListedBeforeTotal(r.date, sorted[0].date);
        var rest := InsertByDate(sorted[1..], r);
        assert sorted == [sorted[0]] + sorted[1..];
        forall x | x in rest ensures ListedBefore(sorted[0].date, x.date) {
          assert x in multiset(rest);
          if x != r {
            assert x in multiset(sorted[1..]);
            assert x in sorted;
            if x == sorted[0] { assert ListedBefore(sorted[0].date, sorted[0].date) by { ListedBeforeRefl(x.date); } }
          }
        }
        DescendingCons(sorted[0], rest);
        [sorted[0]] + rest
  }

  lemma ListedBeforeRefl(a: Option<string>)
    ensures ListedBefore(a, a)
  {
    if a.Some? { TextLeRefl(a.value); }
  }

  lemma {:induction false} TextLeRefl(a: string)
    ensures TextLe(a, a)
    decreases |a|
  {
    if a != [] { TextLeRefl(a[1..]); }
  }

  /** The rows of the table in `ORDER BY date DESC` order. */
  function SortByDate(rows: seq<Row>): (out: seq<Row>)
    ensures DateDescending(out)
    ensures multiset(out) == multiset(rows)
    decreases |rows|
  {
    if rows == [] then []
    else
      var init, last := rows[..|rows| - 1], rows[|rows| - 1];
      var sortedInit := SortByDate(init);
      assert rows == init + [last];
      assert multiset(rows) == multiset(init) + multiset{last};
      InsertByDate(sortedInit, last)
  }

  /** The rows whose channel is `channel`, in table order. */
  function OfChannel(rows: seq<Row>, channel: string): (r: seq<Row>)
    ensures multiset(r) <= multiset(rows)
    ensures forall x :: x in r <==> x in rows && x.channel == channel
  {
    if rows == [] then []
    else
      var rest := OfChannel(rows[1..], channel);
      assert rows == [rows[0]] + rows[1..];
      (if rows[0].channel == channel then [rows[0]] else []) + rest
  }

  class SermonDatabase {
    /** The `sermons` table, in rowid order. */
    var rows: seq<Row>
    /** The next AUTOINCREMENT rowid. */
    var nextId: nat

    /** The schema's constraints. */
    predicate Valid()
      reads this
    {
      UniqueLinks(rows) && IdsBelow(rows, nextId)
    }

    /** The database file may already hold a table. */
    constructor (existing: seq<Row>, next: nat)
      requires UniqueLinks(existing) && IdsBelow(existing, next)
      ensures rows == existing && nextId == next && Valid()
    {
      rows := existing;
      nextId := next;
    }

    /**
     * add_sermon: INSERT OR REPLACE deletes the row holding the same link, if any, and
     * inserts the new one with a fresh rowid, which is returned.
     */
    method AddSermon(s: Sermon) returns (id: nat)
      requires Valid()
      modifies this
      ensures Valid()
      ensures id == old(nextId) && nextId == old(nextId) + 1
      ensures rows == Upserted(old(rows), s, id)
    {
      UpsertKeepsSchema(rows, s, nextId);
      id := nextId;
      rows := WithoutLink(rows, s.messageLink.GetOr("")) + [RowOf(s, id)];
      nextId := nextId + 1;
    }

    /** get_sermon_by_link. */
    function GetSermonByLink(link: string): (r: Option<Row>)
      reads this
      ensures r.Some? ==> r.value in rows && r.value.messageLink == link
      ensures r.None? <==> forall x :: x in rows ==> x.messageLink != link
    {
      FindByLink(rows, link)
    }

    /** get_all_sermons: every row, newest date first and undated rows last. */
    function GetAllSermons(): (r: seq<Row>)
      reads this
      ensures multiset(r) == multiset(rows)
      ensures DateDescending(r)
    {
      SortByDate(rows)
    }

    /** get_sermons_by_channel: exactly the rows of that channel, newest date first. */
    function GetSermonsByChannel(channel: string): (r: seq<Row>)
      reads this
      ensures multiset(r) == multiset(OfChannel(rows, channel))
      ensures forall x :: x in r <==> x in rows && x.channel == channel
      ensures DateDescending(r)
    {
      var r := SortByDate(OfChannel(rows, channel));
      assert forall x :: x in r <==> x in multiset(r);
      r
    }

    /** get_sermon_count: `SELECT COUNT(*)`, which under the UNIQUE link is the number of distinct links. */
    function GetSermonCount(): (n: nat)
      reads this
      requires Valid()
      ensures n == |Links(rows)|
    {
      CountIsLinks(rows);
      |rows|
    }

    /** delete_all_sermons: `DELETE FROM sermons`; AUTOINCREMENT does not reuse ids afterwards. */
    method DeleteAllSermons()
      requires Valid()
      modifies this
      ensures Valid()
      ensures rows == [] && nextId == old(nextId)
      ensures GetSermonCount() == 0 && GetAllSermons() == []
      ensures forall link :: GetSermonByLink(link).None?
    {
      rows := [];
    }
  }
}
