/** Listing operations page by page: newest first, with a cursor that names the
    last row of the page before. */
module Pagination {
  import opened Text

  datatype Row = Row(created: int, id: string, interface: string, state: string)

  datatype Filter = Filter(interface: string, state: string)

  datatype Cursor = Cursor(created: int, id: string)

  /** The states an operation can be stored in, by name. */
  const STATES := {"pending", "validated", "snapshotted", "executing", "verifying", "committed", "rolling_back",
                   "rolled_back", "rollback_failed", "rejected", "expired"}

  /** A filter on the state names a state, or none. */
  predicate KnownState(f: Filter) {
    f.state == "" || f.state in STATES
  }

  const DEFAULT_PAGE := 50
  const MAX_PAGE := 200
  const MAX_ID := 128
  const MAX_TOKEN := 512

  // ---- Order ----

  predicate Before(a: string, b: string) {
    if b == "" then false
    else if a == "" then true
    else if a[0] != b[0] then a[0] < b[0]
    else Before(a[1..], b[1..])
  }

  lemma {:induction false} BeforeTotal(a: string, b: string)
    ensures a == b || Before(a, b) || Before(b, a)
    ensures !(Before(a, b) && Before(b, a)) && !Before(a, a)
  {
    if a != "" && b != "" && a[0] == b[0] {
      BeforeTotal(a[1..], b[1..]);
      FirstAndRest(a);
      FirstAndRest(b);
    }
    if a != "" {
      BeforeTotal(a[1..], a[1..]);
    }
  }

  lemma {:induction false} BeforeTransitive(a: string, b: string, c: string)
    requires Before(a, b) && Before(b, c)
    ensures Before(a, c)
  {
    if a != "" && a[0] == b[0] && b[0] == c[0] {
      BeforeTransitive(a[1..], b[1..], c[1..]);
    }
  }

  /** `a` is listed before `b`: newer, or as new with the greater identifier. */
  predicate Newer(a: Cursor, b: Cursor) {
    a.created > b.created || (a.created == b.created && Before(b.id, a.id))
  }

  function Place(r: Row): Cursor {
    Cursor(r.created, r.id)
  }

  lemma NewerOrder(a: Cursor, b: Cursor, c: Cursor)
    ensures a == b || Newer(a, b) || Newer(b, a)
    ensures !(Newer(a, b) && Newer(b, a)) && !Newer(a, a)
    ensures Newer(a, b) && Newer(b, c) ==> Newer(a, c)
  {
    BeforeTotal(a.id, b.id);
    BeforeTotal(a.id, a.id);
    if Newer(a, b) && Newer(b, c) && a.created == b.created == c.created {
      BeforeTransitive(c.id, b.id, a.id);
    }
  }

  ghost predicate Listed(rows: seq<Row>) {
    forall i, j :: 0 <= i < j < |rows| ==> Newer(Place(rows[i]), Place(rows[j]))
  }

  // ---- The query ----

  predicate Selected(r: Row, f: Filter) {
    (f.interface == "" || r.interface == f.interface) && (f.state == "" || r.state == f.state)
  }

  /** The cursor lets through what is listed behind it. */
  predicate Behind(r: Row, before: Option<Cursor>) {
    before.None? || Newer(before.value, Place(r))
  }

  /** `rows` is the result of a query without a limit. */
  ghost predicate Answers(table: set<Row>, f: Filter, before: Option<Cursor>, rows: seq<Row>) {
    Listed(rows) && forall r :: r in rows <==> r in table && Selected(r, f) && Behind(r, before)
  }

  ghost predicate UniqueIds(table: set<Row>) {
    forall a, b :: a in table && b in table && a.id == b.id ==> a == b
  }

  lemma {:induction false} ListedUnique(a: seq<Row>, b: seq<Row>)
    requires Listed(a) && Listed(b) && forall r :: r in a <==> r in b
    ensures a == b
  {
    if a != [] {
      assert a[0] in b;
    }
    if b != [] {
      assert b[0] in a;
      ListedFirst(a, b);
      FirstAndRest(a);
      FirstAndRest(b);
      forall r ensures r in a[1..] <==> r in b[1..] {
        assert r in a <==> r == a[0] || r in a[1..];
        assert r in b <==> r == b[0] || r in b[1..];
      }
      ListedUnique(a[1..], b[1..]);
    }
  }

  lemma ListedFirst(a: seq<Row>, b: seq<Row>)
    requires Listed(a) && Listed(b) && a != [] && b != [] && a[0] in b && b[0] in a
    ensures a[0] == b[0] && a[0] !in a[1..] && b[0] !in b[1..]
  {
    var i :| 0 <= i < |b| && b[i] == a[0];
    var j :| 0 <= j < |a| && a[j] == b[0];
    NewerOrder(Place(a[0]), Place(b[0]), Place(a[0]));
    NewerOrder(Place(b[0]), Place(a[0]), Place(b[0]));
  }

  /** Inserts a row where it is listed. */
  method Insert(rows: seq<Row>, r: Row) returns (next: seq<Row>)
    requires Listed(rows) && forall other :: other in rows ==> Place(other) != Place(r)
    ensures Listed(next) && forall other :: other in next <==> other in rows || other == r
  {
    hide Newer;
    var i := 0;
    while i < |rows| && Newer(Place(rows[i]), Place(r))
      invariant i <= |rows| && forall k :: 0 <= k < i ==> Newer(Place(rows[k]), Place(r))
    {
      i := i + 1;
    }
    next := rows[..i] + [r] + rows[i..];
    forall k | i <= k < |rows| ensures Newer(Place(r), Place(rows[k])) {
      assert rows[i] in rows;
      NewerOrder(Place(r), Place(rows[i]), Place(rows[k]));
    }
    assert rows == rows[..i] + rows[i..];
    InsertedListed(rows, r, i);
  }

  lemma InsertedListed(rows: seq<Row>, r: Row, i: nat)
    requires Listed(rows) && i <= |rows|
    requires forall k :: 0 <= k < i ==> Newer(Place(rows[k]), Place(r))
    requires forall k :: i <= k < |rows| ==> Newer(Place(r), Place(rows[k]))
    ensures Listed(rows[..i] + [r] + rows[i..])
  {
    hide Newer;
    var next := rows[..i] + [r] + rows[i..];
    forall j, k | 0 <= j < k < |next| ensures Newer(Place(next[j]), Place(next[k])) {
      assert next[j] == if j < i then rows[j] else if j == i then r else rows[j - 1];
      assert next[k] == if k < i then rows[k] else if k == i then r else rows[k - 1];
    }
  }

  function Cut(all: seq<Row>, limit: nat): seq<Row> {
    if |all| > limit then all[..limit] else all
  }

  /** The newest of the selected rows, as many as the limit allows. */
  ghost predicate Newest(table: set<Row>, f: Filter, before: Option<Cursor>, limit: nat, rows: seq<Row>) {
    exists all :: Answers(table, f, before, all) && rows == Cut(all, limit)
  }

  /** The query takes a cursor at time zero for none. */
  function Effective(before: Option<Cursor>): Option<Cursor> {
    if before.Some? && before.value.created == 0 then None else before
  }

  /** The repository's query: its checks, then filter, order, limit. */
  method ListOperations(table: set<Row>, f: Filter, limit: int, before: Option<Cursor>)
    returns (result: Option<seq<Row>>, ghost all: seq<Row>)
    requires UniqueIds(table)
    ensures result.None? <==> !(1 <= limit <= MAX_PAGE + 1) || !KnownState(f) || (before.Some? && before.value.id == "")
    ensures result.Some? ==> Answers(table, f, Effective(before), all) && result.value == Cut(all, limit)
    ensures result.Some? ==> Newest(table, f, Effective(before), limit, result.value)
  {
    all := [];
    if limit < 1 || limit > MAX_PAGE + 1 || !KnownState(f) || (before.Some? && before.value.id == "") {
      return None, all;
    }
    var rows: seq<Row> := [];
    var left := table;
    while left != {}
      invariant left <= table && Listed(rows)
      invariant forall r :: r in rows <==> r in table && r !in left && Selected(r, f) && Behind(r, Effective(before))
      decreases |left|
    {
      var r :| r in left;
      left := left - {r};
      if Selected(r, f) && Behind(r, Effective(before)) {
        assert forall other :: other in rows ==> Place(other) != Place(r);
        rows := Insert(rows, r);
      }
    }
    all := rows;
    return Some(Cut(rows, limit)), all;
  }

  // ---- The server ----

  /** A page token: nothing, or the JSON text of a cursor, here the cursor and the
      size of that text.  Its base64 form is not modelled. */
  datatype Token = Start | Token(cursor: Cursor, bytes: nat)

  function DecimalLength(n: nat): (r: nat)
    ensures r > 0
  {
    if n < 10 then 1 else 1 + DecimalLength(n / 10)
  }

  /** Bytes of a character in a JSON string as the server writes it. */
  function JsonWidth(c: char): nat {
    if c in {'"', '\\', '\n', '\r', '\t', '\U{0008}', '\U{000C}'} then 2
    else if c < ' ' || c in {'<', '>', '&', '\U{2028}', '\U{2029}'} then 6
    else Width(c)
  }

  function JsonBytes(s: string): nat {
    if s == "" then 0 else JsonWidth(s[0]) + JsonBytes(s[1..])
  }

  /** The token the server makes for a row: two names and two values. */
  function Encode(c: Cursor): Token {
    var number := if c.created < 0 then 1 + DecimalLength(-c.created) else DecimalLength(c.created);
    Token(c, |"{\"created_at_ms\":"| + number + |",\"id\":\""| + JsonBytes(c.id) + |"\"}"|)
  }

  /** A decoded token, or nothing if the token is refused. */
  function Decode(token: Token): Option<Option<Cursor>> {
    match token
    case Start => Some(None)
    case Token(cursor, bytes) =>
      if bytes > MAX_TOKEN || cursor.created <= 0 || cursor.id == "" || Bytes(cursor.id) > MAX_ID then None
      else Some(Some(cursor))
  }

  datatype Page = Page(rows: seq<Row>, next: Token) | Refused

  /** Rows whose cursor the server reads back. */
  predicate Nameable(r: Row) {
    r.created > 0 && r.id != "" && Bytes(r.id) <= MAX_ID && Encode(Place(r)).bytes <= MAX_TOKEN
  }

  lemma TokenReadsBack(r: Row)
    ensures Decode(Encode(Place(r))) == (if Nameable(r) then Some(Some(Place(r))) else None)
  {
  }

  lemma {:induction false} DecimalBound(n: nat, limit: nat, digits: nat)
    requires digits > 0 && n < limit && limit == Power10(digits)
    ensures DecimalLength(n) <= digits
  {
    if n >= 10 {
      DecimalBound(n / 10, limit / 10, digits - 1);
    }
  }

  function Power10(k: nat): nat {
    if k == 0 then 1 else 10 * Power10(k - 1)
  }

  lemma {:induction false} PlainBytes(s: string)
    requires forall i :: 0 <= i < |s| ==> JsonWidth(s[i]) == Width(s[i])
    ensures JsonBytes(s) == Bytes(s)
  {
    if s != "" {
      PlainBytes(s[1..]);
    }
  }

  /** Identifiers without escaped characters are named within the limit, at any
      time a 64-bit clock can hold. */
  lemma PlainIsNameable(r: Row)
    requires 0 < r.created < 0x8000_0000_0000_0000 && r.id != "" && Bytes(r.id) <= MAX_ID
    requires forall i :: 0 <= i < |r.id| ==> JsonWidth(r.id[i]) == Width(r.id[i])
    ensures Nameable(r)
  {
    PlainBytes(r.id);
    assert Power10(19) == 10_000_000_000_000_000_000 by {
      assert Power10(10) == 10_000_000_000;
    }
    DecimalBound(r.created, Power10(19), 19);
  }

  /** The text of an identifier the store generates: hexadecimal digits and dashes. */
  predicate Generated(id: string) {
    |id| == 36 && forall i :: 0 <= i < |id| ==> '0' <= id[i] <= '9' || 'a' <= id[i] <= 'f' || id[i] == '-'
  }

  /** So every row the program makes is named. */
  lemma GeneratedIsNameable(r: Row)
    requires 0 < r.created < 0x8000_0000_0000_0000 && Generated(r.id)
    ensures Nameable(r)
  {
    NarrowBytes(r.id);
    PlainIsNameable(r);
  }

  lemma {:induction false} Escaped(n: nat)
    ensures JsonBytes(seq(n, _ => '<')) == 6 * n && Bytes(seq(n, _ => '<')) == n
  {
    if n > 0 {
      assert seq(n, _ => '<')[1..] == seq(n - 1, _ => '<');
      Escaped(n - 1);
    }
  }

  /** Escaped characters would make the server refuse a token of its own, for an
      identifier within the limit on identifiers, though not one it generates. */
  lemma OwnTokenRefused(interface: string, state: string) returns (r: Row)
    ensures r.created > 0 && r.id != "" && Bytes(r.id) <= MAX_ID && Decode(Encode(Place(r))) == None
  {
    r := Row(1, seq(MAX_ID, _ => '<'), interface, state);
    Escaped(MAX_ID);
  }

  method ListPage(table: set<Row>, f: Filter, requested: int, token: Token) returns (page: Page, ghost all: seq<Row>)
    requires UniqueIds(table)
    ensures page.Refused? <==> !(0 <= requested <= MAX_PAGE) || Decode(token).None? || !KnownState(f)
    ensures !page.Refused? ==>
              var size := if requested == 0 then DEFAULT_PAGE else requested;
              && Answers(table, f, Decode(token).value, all)
              && page == (if |all| > size then Page(all[..size], Encode(Place(all[size - 1]))) else Page(all, Start))
  {
    all := [];
    var size := if requested == 0 then DEFAULT_PAGE else requested;
    if size < 1 || size > MAX_PAGE {
      return Refused, all;
    }
    var before := Decode(token);
    if before.None? {
      return Refused, all;
    }
    var listed: Option<seq<Row>>;
    listed, all := ListOperations(table, f, size + 1, before.value);
    if listed.None? {
      return Refused, all;
    }
    var records, next := listed.value, Start;
    if |records| > size {
      next := Encode(Place(records[size - 1]));
      records := records[..size];
    }
    return Page(records, next), all;
  }

  // ---- Following the pages ----

  /** What is behind the last row of a page is the rest of the list. */
  lemma RestAfterPage(table: set<Row>, f: Filter, before: Option<Cursor>, all: seq<Row>, size: nat, rest: seq<Row>)
    requires Answers(table, f, before, all) && 0 < size < |all|
    requires Answers(table, f, Some(Place(all[size - 1])), rest)
    ensures rest == all[size..]
  {
    var last := Place(all[size - 1]);
    forall r ensures r in rest <==> r in all[size..] {
      if r in all[size..] {
        var i :| size <= i < |all| && all[i] == r;
        assert r in all;
      }
      if r in rest {
        if before.Some? {
          assert all[size - 1] in all;
          NewerOrder(before.value, last, Place(r));
        }
        assert r in all;
        var i :| 0 <= i < |all| && all[i] == r;
        NewerOrder(last, Place(r), last);
        assert i >= size;
      }
    }
    ListedUnique(rest, all[size..]);
  }

  /** How far the pages have come: `all` is the rest of the list from `at` on. */
  ghost predicate Reached(table: set<Row>, f: Filter, size: nat, list: seq<Row>, rows: seq<Row>, at: nat,
                          before: Option<Cursor>, page: Page) {
    && at <= |list| && size > 0 && Answers(table, f, before, list[at..]) && page.Page?
    && (if |list| - at > size
        then rows == list[..at + size] && page.next == Encode(Place(list[at + size - 1]))
        else rows == list && page.next == Start)
  }

  lemma PageReached(table: set<Row>, f: Filter, size: nat, list: seq<Row>, rows: seq<Row>, at: nat,
                    before: Option<Cursor>, all: seq<Row>, page: Page)
    requires at <= |list| && size > 0 && all == list[at..] && Answers(table, f, before, all) && rows == list[..at]
    requires page == if |all| > size then Page(all[..size], Encode(Place(all[size - 1]))) else Page(all, Start)
    ensures Reached(table, f, size, list, rows + page.rows, at, before, page)
  {
    assert list == list[..at] + all;
    if |all| > size {
      assert list[..at] + all[..size] == list[..at + size];
    }
  }

  lemma MoreToReach(table: set<Row>, f: Filter, size: nat, list: seq<Row>, rows: seq<Row>, at: nat,
                    before: Option<Cursor>, page: Page)
    requires Reached(table, f, size, list, rows, at, before, page)
    ensures page.Page? && at <= |list|
    ensures page.next == Start ==> rows == list
    ensures page.next.Token? ==>
              && size < |list[at..]| && Answers(table, f, before, list[at..])
              && page.next == Encode(Place(list[at..][size - 1])) && rows == list[..at + size]
  {
    hide Answers;
  }

  lemma NextReached(table: set<Row>, f: Filter, size: nat, list: seq<Row>, rows: seq<Row>, at: nat,
                    before: Option<Cursor>, all: seq<Row>, page: Page)
    requires at <= |list| && 0 < size < |list[at..]| && rows == list[..at + size]
    requires all == list[at..][size..] && Answers(table, f, before, all)
    requires page == if |all| > size then Page(all[..size], Encode(Place(all[size - 1]))) else Page(all, Start)
    ensures Reached(table, f, size, list, rows + page.rows, at + size, before, page)
  {
    hide Answers, Reached, Encode;
    assert list[at..][size..] == list[at + size..];
    PageReached(table, f, size, list, rows, at + size, before, all, page);
  }

  /** Following the tokens from the start, with any page size, is refused at once
      or ends, and the pages put together are the whole filtered list in order,
      each row once. */
  method FollowPages(table: set<Row>, f: Filter, requested: int) returns (rows: Option<seq<Row>>)
    requires UniqueIds(table) && forall r :: r in table ==> Nameable(r)
    ensures rows.None? <==> !(0 <= requested <= MAX_PAGE) || !KnownState(f)
    ensures rows.Some? ==> Answers(table, f, None, rows.value)
  {
    hide Answers, Reached, Encode, UniqueIds, Nameable, KnownState;
    var page: Page;
    ghost var list: seq<Row>;
    page, list := ListPage(table, f, requested, Start);
    if page.Refused? {
      return None;
    }
    var listed := page.rows;
    ghost var size: nat := if requested == 0 then DEFAULT_PAGE else requested;
    ghost var at: nat, before: Option<Cursor> := 0, None;
    assert list[..0] == [] && list[0..] == list && [] + page.rows == page.rows;
    PageReached(table, f, size, list, [], 0, None, list, page);
    while page.next.Token?
      invariant page.Page? && at <= |list| && Answers(table, f, None, list)
      invariant Reached(table, f, size, list, listed, at, before, page)
      decreases |list| - at
    {
      ghost var all: seq<Row>;
      MoreToReach(table, f, size, list, listed, at, before, page);
      ghost var earlier := list[at..];
      page, all := NextPage(table, f, requested, page.next, before, earlier, size);
      before := Some(Place(earlier[size - 1]));
      NextReached(table, f, size, list, listed, at, before, all, page);
      at := at + size;
      listed := listed + page.rows;
    }
    MoreToReach(table, f, size, list, listed, at, before, page);
    return Some(listed);
  }

  method NextPage(table: set<Row>, f: Filter, requested: int, token: Token, ghost before: Option<Cursor>,
                  ghost earlier: seq<Row>, ghost size: nat) returns (page: Page, ghost all: seq<Row>)
    requires UniqueIds(table) && 0 <= requested <= MAX_PAGE && KnownState(f) && forall r :: r in table ==> Nameable(r)
    requires size == (if requested == 0 then DEFAULT_PAGE else requested) && size < |earlier|
    requires Answers(table, f, before, earlier) && token == Encode(Place(earlier[size - 1]))
    ensures all == earlier[size..] && Answers(table, f, Some(Place(earlier[size - 1])), all)
    ensures page == if |all| > size then Page(all[..size], Encode(Place(all[size - 1]))) else Page(all, Start)
  {
    assert earlier[size - 1] in earlier;
    TokenReadsBack(earlier[size - 1]);
    page, all := ListPage(table, f, requested, token);
    RestAfterPage(table, f, before, earlier, size, all);
  }
}
