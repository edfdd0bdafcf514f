/**
 * Paging through completed turns: a keyset query over (ended_at, id) and the
 * cursor text that carries the last key (crates/host-core/src/plugin_usage.rs).
 */
module UsagePaging {
  import opened Wrappers
  import opened Bytes
  import opened Utf8
  import opened Decimal
  import Base64

  const MAX_LIMIT: int := 500
  const MAX_WINDOW_MS: int := 365 * 24 * 3600 * 1000
  const COLON: byte := 0x3A
  const PREFIX: seq<byte> := [0x76, 0x31, COLON]

  datatype Error = InvalidParams

  datatype Cursor = Cursor(endedAt: int, id: seq<byte>)

  /** A turn joined with its session; facts stands for the columns that are only passed on. */
  datatype Row = Row(
    id: seq<byte>, session: seq<byte>, project: Option<int>, endedAt: Option<int>, completed: bool, deleted: bool, facts: string)

  datatype Query = Query(fromMs: int, toMs: int, session: Option<seq<byte>>, project: Option<int>)

  datatype Page = Page(turns: seq<Row>, next: Option<seq<byte>>)

  // ----- the cursor -----

  function CursorText(c: Cursor): seq<byte> {
    PREFIX + (PrintInt(c.endedAt) + ([COLON] + c.id))
  }

  function EncodeCursor(c: Cursor): seq<byte> {
    Base64.Encode(CursorText(c))
  }

  function FirstColon(s: seq<byte>): (n: nat)
    ensures n <= |s| && (forall k :: 0 <= k < n ==> s[k] != COLON) && (n < |s| ==> s[n] == COLON)
  {
    if s == [] || s[0] == COLON then 0 else 1 + FirstColon(s[1..])
  }

  function ParseCursor(text: seq<byte>): Option<Cursor> {
    if !(PREFIX <= text) then None
    else
      var rest := text[|PREFIX|..];
      var n := FirstColon(rest);
      if n == |rest| then None
      else
        var ended := ParseI64(rest[..n]);
        if ended.None? || rest[n + 1..] == [] then None
        else Some(Cursor(ended.value, rest[n + 1..]))
  }

  function DecodeCursor(raw: seq<byte>): Result<Cursor, Error> {
    var decoded := Base64.Decode(raw);
    if decoded.None? || !ValidUtf8(decoded.value) then Err(InvalidParams)
    else
      var cursor := ParseCursor(decoded.value);
      if cursor.None? then Err(InvalidParams) else Ok(cursor.value)
  }

  /** What the columns can hold: a 64-bit integer and text. */
  predicate CursorOk(c: Cursor) {
    IsI64(c.endedAt) && ValidUtf8(c.id)
  }

  lemma PrintedHasNoColon(n: int)
    ensures forall k :: 0 <= k < |PrintInt(n)| ==> PrintInt(n)[k] != COLON && PrintInt(n)[k] < 0x80
  {
    DigitsValue(if n < 0 then -n else n);
  }

  lemma FirstColonIs(front: seq<byte>, back: seq<byte>)
    requires forall k :: 0 <= k < |front| ==> front[k] != COLON
    ensures FirstColon(front + ([COLON] + back)) == |front|
  {
    hide FirstColon;
    var s := front + ([COLON] + back);
    var n := FirstColon(s);
    assert s[|front|] == COLON;
    assert forall k :: 0 <= k < |front| ==> s[k] == front[k];
  }

  lemma CursorTextValid(c: Cursor)
    requires CursorOk(c)
    ensures ValidUtf8(CursorText(c))
  {
    PrintedHasNoColon(c.endedAt);
    var printed := PrintInt(c.endedAt);
    var head := PREFIX + printed + [COLON];
    hide PrintInt, ValidUtf8;
    AsciiIsUtf8(head);
    ValidConcat(head, c.id);
    assert head + c.id == PREFIX + (printed + ([COLON] + c.id));
  }

  lemma NoIdIsRefused(endedAt: int)
    ensures ParseCursor(CursorText(Cursor(endedAt, []))) == None
  {
    var printed := PrintInt(endedAt);
    PrintedHasNoColon(endedAt);
    FirstColonIs(printed, []);
    hide PrintInt, ParseI64, FirstColon;
    var rest := printed + ([COLON] + []);
    assert CursorText(Cursor(endedAt, []))[|PREFIX|..] == rest;
    assert rest[|printed| + 1..] == [];
  }

  lemma Joined(a: seq<byte>, b: seq<byte>, c: seq<byte>, d: seq<byte>)
    ensures a + (b + c + d) == a + b + c + d && a + (b + (c + d)) == a + b + c + d
  {}

  lemma ColonNotParsed(digits: seq<byte>)
    requires ParseI64(digits).Some?
    ensures forall k :: 0 <= k < |digits| ==> digits[k] != COLON
  {
    if digits != [] && (digits[0] == MINUS || digits[0] == PLUS) {
      assert forall k :: 1 <= k < |digits| ==> digits[k] == digits[1..][k - 1];
    }
  }

  /** A cursor text is its version, an end time and an id that is not empty. */
  predicate CursorParts(text: seq<byte>, digits: seq<byte>, c: Cursor) {
    && text == [0x76, 0x31, 0x3A] + digits + [0x3A] + c.id
    && ParseI64(digits) == Some(c.endedAt) && c.id != []
  }

  lemma PartsParse(text: seq<byte>, digits: seq<byte>, c: Cursor)
    requires CursorParts(text, digits, c)
    ensures ParseCursor(text) == Some(c)
  {
    ColonNotParsed(digits);
    FirstColonIs(digits, c.id);
    hide ParseI64, FirstColon;
    var rest := digits + ([COLON] + c.id);
    Joined(PREFIX, digits, [COLON], c.id);
    assert text == PREFIX + rest && text[|PREFIX|..] == rest;
    assert rest[..|digits|] == digits && rest[|digits| + 1..] == c.id;
  }

  lemma ParseCursorText(c: Cursor)
    requires CursorOk(c)
    ensures ParseCursor(CursorText(c)) == if c.id == [] then None else Some(c)
  {
    if c.id == [] {
      NoIdIsRefused(c.endedAt);
    } else {
      ParsePrinted(c.endedAt);
      Joined(PREFIX, PrintInt(c.endedAt), [COLON], c.id);
      hide PrintInt, ParseI64, ParseCursor, ValidUtf8;
      PartsParse(CursorText(c), PrintInt(c.endedAt), c);
    }
  }

  /** A cursor comes back from its text exactly when its id is not empty, colons or not. */
  lemma CursorRoundTripIff(c: Cursor)
    requires CursorOk(c)
    ensures DecodeCursor(EncodeCursor(c)) == if c.id == [] then Err(InvalidParams) else Ok(c)
  {
    hide CursorText, ParseCursor, Base64.Encode, Base64.Decode, ValidUtf8;
    Base64.RoundTrip(CursorText(c));
    CursorTextValid(c);
    ParseCursorText(c);
  }

  lemma SplitAt(s: seq<byte>, n: nat)
    requires n < |s| && s[n] == COLON
    ensures s == s[..n] + [COLON] + s[n + 1..]
  {}

  lemma ParsedHasParts(text: seq<byte>, c: Cursor) returns (digits: seq<byte>)
    requires ParseCursor(text) == Some(c)
    ensures CursorParts(text, digits, c)
  {
    var rest := text[|PREFIX|..];
    var n := FirstColon(rest);
    hide ParseI64, FirstColon;
    assert text == PREFIX + rest;
    SplitAt(rest, n);
    digits := rest[..n];
    Joined(PREFIX, digits, [COLON], c.id);
  }

  lemma ParseCursorIff(text: seq<byte>, c: Cursor)
    ensures ParseCursor(text) == Some(c) <==> exists digits :: CursorParts(text, digits, c)
  {
    hide ParseCursor, CursorParts;
    if ParseCursor(text) == Some(c) {
      var digits := ParsedHasParts(text, c);
    }
    if digits :| CursorParts(text, digits, c) {
      PartsParse(text, digits, c);
    }
  }

  /** Exactly the encodings of such texts are cursors; everything else is refused. */
  lemma DecodeCursorIff(raw: seq<byte>, c: Cursor)
    ensures DecodeCursor(raw) == Ok(c) <==>
            exists text, digits :: raw == Base64.Encode(text) && ValidUtf8(text) && CursorParts(text, digits, c)
  {
    var decoded := Base64.Decode(raw);
    hide Base64.Decode, Base64.Encode, ValidUtf8, ParseCursor, CursorParts;
    if decoded.Some? {
      Base64.DecodeIsCanonical(raw);
      ParseCursorIff(decoded.value, c);
    }
    if text, digits :| raw == Base64.Encode(text) && ValidUtf8(text) && CursorParts(text, digits, c) {
      Base64.RoundTrip(text);
      ParseCursorIff(text, c);
    }
  }

  // ----- the order -----

  /** Binary collation. */
  predicate BytesLess(a: seq<byte>, b: seq<byte>) {
    b != [] && (a == [] || a[0] < b[0] || (a[0] == b[0] && BytesLess(a[1..], b[1..])))
  }

  lemma {:induction false} BytesLessTotal(a: seq<byte>, b: seq<byte>)
    ensures a == b || BytesLess(a, b) || BytesLess(b, a)
    ensures !(BytesLess(a, b) && BytesLess(b, a)) && !BytesLess(a, a)
  {
    if a != [] && b != [] {
      BytesLessTotal(a[1..], b[1..]);
      assert a == [a[0]] + a[1..] && b == [b[0]] + b[1..];
    }
    if a != [] { BytesLessTotal(a[1..], a[1..]); }
  }

  lemma {:induction false} BytesLessTransitive(a: seq<byte>, b: seq<byte>, c: seq<byte>)
    requires BytesLess(a, b) && BytesLess(b, c)
    ensures BytesLess(a, c)
  {
    if a != [] && a[0] == b[0] == c[0] { BytesLessTransitive(a[1..], b[1..], c[1..]); }
  }

  predicate KeyLess(a: Cursor, b: Cursor) {
    a.endedAt < b.endedAt || (a.endedAt == b.endedAt && BytesLess(a.id, b.id))
  }

  lemma KeyLessTotal(a: Cursor, b: Cursor)
    ensures a == b || KeyLess(a, b) || KeyLess(b, a)
    ensures !(KeyLess(a, b) && KeyLess(b, a)) && !KeyLess(a, a)
  {
    BytesLessTotal(a.id, b.id);
  }

  lemma KeyLessTransitive(a: Cursor, b: Cursor, c: Cursor)
    requires KeyLess(a, b) && KeyLess(b, c)
    ensures KeyLess(a, c)
  {
    if a.endedAt == b.endedAt == c.endedAt { BytesLessTransitive(a.id, b.id, c.id); }
  }

  function KeyOf(r: Row): Cursor {
    Cursor(if r.endedAt.Some? then r.endedAt.value else 0, r.id)
  }

  // ----- the query -----

  predicate Matches(r: Row, q: Query) {
    && !r.deleted && r.completed && r.endedAt.Some?
    && q.fromMs <= r.endedAt.value <= q.toMs
    && (q.session.None? || r.session == q.session.value)
    && (q.project.None? || r.project == q.project)
  }

  predicate Selected(r: Row, q: Query, cursor: Option<Cursor>) {
    Matches(r, q) && (cursor.None? || KeyLess(cursor.value, KeyOf(r)))
  }

  function Insert(r: Row, rows: seq<Row>): seq<Row> {
    if rows == [] || KeyLess(KeyOf(r), KeyOf(rows[0])) then [r] + rows else [rows[0]] + Insert(r, rows[1..])
  }

  /** WHERE and ORDER BY. */
  function Rows(t: seq<Row>, q: Query, cursor: Option<Cursor>): seq<Row> {
    if t == [] then []
    else if Selected(t[0], q, cursor) then Insert(t[0], Rows(t[1..], q, cursor))
    else Rows(t[1..], q, cursor)
  }

  /** One row more than the page is fetched to learn whether there is more. */
  function ListTurns(t: seq<Row>, q: Query, cursor: Option<Cursor>, limit: nat): (seq<Row>, bool) {
    var all := Rows(t, q, cursor);
    var fetched := if |all| > limit + 1 then all[..limit + 1] else all;
    if |fetched| > limit then (fetched[..limit], true) else (fetched, false)
  }

  predicate WindowOk(q: Query) {
    q.fromMs <= q.toMs && q.toMs - q.fromMs <= MAX_WINDOW_MS
  }

  function CursorParam(raw: Option<seq<byte>>): Result<Option<Cursor>, Error> {
    if raw.None? || raw.value == [] then Ok(None)
    else
      var decoded := DecodeCursor(raw.value);
      if decoded.Err? then Err(decoded.error) else Ok(Some(decoded.value))
  }

  function ListTurnsPage(t: seq<Row>, q: Query, limit: int, raw: Option<seq<byte>>): Result<Page, Error> {
    if !WindowOk(q) || !(1 <= limit <= MAX_LIMIT) then Err(InvalidParams)
    else
      var cursor := CursorParam(raw);
      if cursor.Err? then Err(cursor.error)
      else
        var (turns, hasMore) := ListTurns(t, q, cursor.value, limit);
        Ok(Page(turns, if hasMore && turns != [] then Some(EncodeCursor(KeyOf(turns[|turns| - 1]))) else None))
  }

  // ----- sorted rows -----

  ghost predicate Increasing(rows: seq<Row>) {
    forall i, j :: 0 <= i < j < |rows| ==> KeyLess(KeyOf(rows[i]), KeyOf(rows[j]))
  }

  /** The primary key, and what its columns can hold. */
  ghost predicate TableOk(t: seq<Row>) {
    && (forall i, j :: 0 <= i < j < |t| ==> t[i].id != t[j].id)
    && (forall r :: r in t ==> CursorOk(KeyOf(r)))
  }

  lemma {:induction false} InsertIn(r: Row, rows: seq<Row>)
    ensures forall x :: x in Insert(r, rows) <==> x == r || x in rows
  {
    hide KeyLess;
    if !(rows == [] || KeyLess(KeyOf(r), KeyOf(rows[0]))) {
      InsertIn(r, rows[1..]);
      assert rows == [rows[0]] + rows[1..];
    }
  }

  lemma {:induction false} InsertIncreasing(r: Row, rows: seq<Row>)
    requires Increasing(rows) && forall x :: x in rows ==> x.id != r.id
    ensures Increasing(Insert(r, rows))
  {
    hide KeyLess;
    if rows == [] {
    } else if KeyLess(KeyOf(r), KeyOf(rows[0])) {
      forall k | 0 < k < |rows| ensures KeyLess(KeyOf(r), KeyOf(rows[k])) {
        KeyLessTransitive(KeyOf(r), KeyOf(rows[0]), KeyOf(rows[k]));
      }
    } else {
      InsertIncreasing(r, rows[1..]);
      InsertIn(r, rows[1..]);
      var rest := Insert(r, rows[1..]);
      assert rows[0] in rows;
      KeyLessTotal(KeyOf(r), KeyOf(rows[0]));
      forall k | 0 <= k < |rest| ensures KeyLess(KeyOf(rows[0]), KeyOf(rest[k])) {
        assert rest[k] in rest;
      }
    }
  }

  lemma NewId(t: seq<Row>, rest: seq<Row>)
    requires t != [] && (forall i, j :: 0 <= i < j < |t| ==> t[i].id != t[j].id) && forall r :: r in rest ==> r in t[1..]
    ensures forall x :: x in rest ==> x.id != t[0].id
  {
    forall x | x in rest ensures x.id != t[0].id {
      var k :| 0 <= k < |t[1..]| && t[1..][k] == x;
      assert t[k + 1] == x;
    }
  }

  /** Exactly the selected rows, each once, in order. */
  lemma {:induction false} RowsAre(t: seq<Row>, q: Query, cursor: Option<Cursor>)
    requires TableOk(t)
    ensures Increasing(Rows(t, q, cursor))
    ensures forall r :: r in Rows(t, q, cursor) <==> r in t && Selected(r, q, cursor)
  {
    if t != [] {
      hide Selected, Insert, CursorOk, Increasing;
      assert forall k :: 0 <= k < |t[1..]| ==> t[1..][k] == t[k + 1];
      RowsAre(t[1..], q, cursor);
      var rest := Rows(t[1..], q, cursor);
      assert t == [t[0]] + t[1..];
      if Selected(t[0], q, cursor) {
        InsertIn(t[0], rest);
        NewId(t, rest);
        InsertIncreasing(t[0], rest);
      }
    } else {
      assert Rows(t, q, cursor) == [];
    }
  }

  lemma FirstMember(rows: seq<Row>)
    ensures rows != [] ==> rows[0] in rows
  {}

  lemma TailMembers(rows: seq<Row>, r: Row)
    requires rows != [] && Increasing(rows)
    ensures r in rows[1..] <==> r in rows && r != rows[0]
  {
    hide KeyLess;
    KeyLessTotal(KeyOf(rows[0]), KeyOf(rows[0]));
    if r in rows && r != rows[0] {
      var k :| 0 <= k < |rows| && rows[k] == r;
      assert rows[1..][k - 1] == r;
    }
    if r in rows[1..] {
      var k :| 0 <= k < |rows[1..]| && rows[1..][k] == r;
      assert rows[k + 1] == r;
    }
  }

  lemma SameFirst(a: seq<Row>, b: seq<Row>)
    requires Increasing(a) && Increasing(b) && (forall r :: r in a <==> r in b) && a != [] && b != []
    ensures a[0] == b[0]
  {
    hide KeyLess;
    FirstMember(a);
    FirstMember(b);
    var i :| 0 <= i < |b| && b[i] == a[0];
    var j :| 0 <= j < |a| && a[j] == b[0];
    KeyLessTotal(KeyOf(a[0]), KeyOf(b[0]));
  }

  lemma {:induction false} IncreasingUnique(a: seq<Row>, b: seq<Row>)
    requires Increasing(a) && Increasing(b) && forall r :: r in a <==> r in b
    ensures a == b
  {
    FirstMember(a);
    FirstMember(b);
    if a != [] && b != [] {
      SameFirst(a, b);
      forall r ensures r in a[1..] <==> r in b[1..] {
        TailMembers(a, r);
        TailMembers(b, r);
      }
      IncreasingUnique(a[1..], b[1..]);
    }
  }

  lemma SelectedAfter(q: Query, cursor: Option<Cursor>, next: Cursor, r: Row)
    requires cursor.Some? ==> KeyLess(cursor.value, next)
    ensures Selected(r, q, Some(next)) <==> Selected(r, q, cursor) && KeyLess(next, KeyOf(r))
  {
    hide KeyLess, Matches;
    if KeyLess(next, KeyOf(r)) && cursor.Some? { KeyLessTransitive(cursor.value, next, KeyOf(r)); }
  }

  lemma SuffixMembers(rows: seq<Row>, k: nat, r: Row)
    requires Increasing(rows) && 0 < k <= |rows|
    ensures r in rows[k..] <==> r in rows && KeyLess(KeyOf(rows[k - 1]), KeyOf(r))
  {
    hide KeyLess;
    if r in rows[k..] {
      var j :| 0 <= j < |rows[k..]| && rows[k..][j] == r;
      assert rows[k + j] == r;
    }
    if r in rows && KeyLess(KeyOf(rows[k - 1]), KeyOf(r)) {
      var j :| 0 <= j < |rows| && rows[j] == r;
      KeyLessTotal(KeyOf(rows[k - 1]), KeyOf(r));
      assert rows[k..][j - k] == r;
    }
  }

  /** The rows after the key of row k - 1 are the rows from k on, whatever cursor led there. */
  lemma RowsAfter(t: seq<Row>, q: Query, cursor: Option<Cursor>, k: nat)
    requires TableOk(t) && 0 < k <= |Rows(t, q, cursor)|
    ensures var all := Rows(t, q, cursor); Rows(t, q, Some(KeyOf(all[k - 1]))) == all[k..]
  {
    var all := Rows(t, q, cursor);
    var next := KeyOf(all[k - 1]);
    RowsAre(t, q, cursor);
    RowsAre(t, q, Some(next));
    assert all[k - 1] in all && (cursor.Some? ==> KeyLess(cursor.value, next));
    hide Rows, TableOk, KeyLess, Selected;
    forall r ensures r in Rows(t, q, Some(next)) <==> r in all[k..] {
      SelectedAfter(q, cursor, next, r);
      SuffixMembers(all, k, r);
    }
    IncreasingUnique(Rows(t, q, Some(next)), all[k..]);
  }

  // ----- following the cursor -----

  function Remaining(t: seq<Row>, q: Query, raw: Option<seq<byte>>): nat {
    var cursor := CursorParam(raw);
    if cursor.Err? then 0 else |Rows(t, q, cursor.value)|
  }

  /** A page is the next limit rows, and has a cursor exactly when rows are left. */
  lemma PageIs(t: seq<Row>, q: Query, limit: int, raw: Option<seq<byte>>)
    requires WindowOk(q) && 1 <= limit <= MAX_LIMIT && CursorParam(raw).Ok?
    ensures var rows := Rows(t, q, CursorParam(raw).value);
            ListTurnsPage(t, q, limit, raw) ==
              if |rows| > limit then Ok(Page(rows[..limit], Some(EncodeCursor(KeyOf(rows[limit - 1])))))
              else Ok(Page(rows, None))
  {
    hide CursorParam, Rows, EncodeCursor;
    var rows := Rows(t, q, CursorParam(raw).value);
    if |rows| > limit {
      assert (if |rows| > limit + 1 then rows[..limit + 1] else rows)[..limit] == rows[..limit];
    }
  }

  lemma EncodedIsNotEmpty(c: Cursor)
    ensures EncodeCursor(c) != []
  {}

  lemma EncodedParam(c: Cursor)
    requires CursorOk(c)
    ensures CursorParam(Some(EncodeCursor(c))) == if c.id == [] then Err(InvalidParams) else Ok(Some(c))
  {
    hide EncodeCursor, DecodeCursor, CursorOk;
    CursorRoundTripIff(c);
    EncodedIsNotEmpty(c);
  }

  lemma RowKeyOk(t: seq<Row>, q: Query, cursor: Option<Cursor>, k: nat)
    requires TableOk(t) && k < |Rows(t, q, cursor)|
    ensures CursorOk(KeyOf(Rows(t, q, cursor)[k]))
  {
    RowsAre(t, q, cursor);
    hide CursorOk, Rows, Selected;
    assert Rows(t, q, cursor)[k] in Rows(t, q, cursor);
  }

  lemma KeyId(r: Row)
    ensures KeyOf(r).id == r.id
  {}

  lemma NextCursor(t: seq<Row>, q: Query, limit: int, raw: Option<seq<byte>>)
    requires TableOk(t) && WindowOk(q) && 1 <= limit <= MAX_LIMIT && CursorParam(raw).Ok?
    requires |Rows(t, q, CursorParam(raw).value)| > limit
    ensures var rows := Rows(t, q, CursorParam(raw).value);
            var next := Some(EncodeCursor(KeyOf(rows[limit - 1])));
            if rows[limit - 1].id == [] then CursorParam(next).Err?
            else CursorParam(next).Ok? && Rows(t, q, CursorParam(next).value) == rows[limit..]
  {
    hide *;
    var rows := Rows(t, q, CursorParam(raw).value);
    RowKeyOk(t, q, CursorParam(raw).value, limit - 1);
    EncodedParam(KeyOf(rows[limit - 1]));
    KeyId(rows[limit - 1]);
    RowsAfter(t, q, CursorParam(raw).value, limit);
  }

  lemma NextShrinks(t: seq<Row>, q: Query, limit: int, raw: Option<seq<byte>>)
    requires TableOk(t) && ListTurnsPage(t, q, limit, raw).Ok? && ListTurnsPage(t, q, limit, raw).value.next.Some?
    ensures Remaining(t, q, ListTurnsPage(t, q, limit, raw).value.next) < Remaining(t, q, raw)
  {
    hide Rows, EncodeCursor, TableOk, CursorParam;
    PageIs(t, q, limit, raw);
    NextCursor(t, q, limit, raw);
  }

  /** A client that asks again with nextCursor until there is none. It always ends. */
  ghost function Follow(t: seq<Row>, q: Query, limit: int, raw: Option<seq<byte>>): Result<seq<Row>, Error>
    requires TableOk(t)
    decreases Remaining(t, q, raw)
  {
    var page := ListTurnsPage(t, q, limit, raw);
    if page.Err? then Err(page.error)
    else if page.value.next.None? then Ok(page.value.turns)
    else
      NextShrinks(t, q, limit, raw);
      var rest := Follow(t, q, limit, page.value.next);
      if rest.Err? then Err(rest.error) else Ok(page.value.turns + rest.value)
  }

  /** No full page with more to come ends in a turn whose id is empty. */
  predicate CursorsSurvive(rows: seq<Row>, limit: nat)
    requires limit > 0
  {
    |rows| <= limit || (rows[limit - 1].id != [] && CursorsSurvive(rows[limit..], limit))
  }

  lemma BadCursorFails(t: seq<Row>, q: Query, limit: int, raw: Option<seq<byte>>)
    requires TableOk(t) && CursorParam(raw).Err?
    ensures Follow(t, q, limit, raw) == Err(InvalidParams)
  {
    hide CursorParam, TableOk;
    var page := ListTurnsPage(t, q, limit, raw);
    assert page.Err? && page.error.InvalidParams?;
  }

  lemma {:induction false} FollowCollects(t: seq<Row>, q: Query, limit: int, raw: Option<seq<byte>>)
    requires TableOk(t) && WindowOk(q) && 1 <= limit <= MAX_LIMIT && CursorParam(raw).Ok?
    ensures var rows := Rows(t, q, CursorParam(raw).value);
            Follow(t, q, limit, raw) == if CursorsSurvive(rows, limit) then Ok(rows) else Err(InvalidParams)
    decreases Remaining(t, q, raw)
  {
    hide Rows, EncodeCursor, TableOk, CursorParam, Selected;
    var rows := Rows(t, q, CursorParam(raw).value);
    PageIs(t, q, limit, raw);
    if |rows| > limit {
      NextCursor(t, q, limit, raw);
      var next := Some(EncodeCursor(KeyOf(rows[limit - 1])));
      if rows[limit - 1].id != [] {
        hide ListTurnsPage;
        FollowCollects(t, q, limit, next);
        assert rows == rows[..limit] + rows[limit..];
      } else {
        BadCursorFails(t, q, limit, next);
      }
    }
  }

  lemma {:induction false} NonEmptyIdsSurvive(rows: seq<Row>, limit: nat)
    requires limit > 0 && forall k :: 0 <= k < |rows| ==> rows[k].id != []
    ensures CursorsSurvive(rows, limit)
  {
    if |rows| > limit {
      assert forall k :: 0 <= k < |rows[limit..]| ==> rows[limit..][k] == rows[limit + k];
      NonEmptyIdsSurvive(rows[limit..], limit);
    }
  }

  /** By end time, and by id among those that ended together. */
  ghost predicate InOrder(turns: seq<Row>) {
    forall i, j :: 0 <= i < j < |turns| ==>
      && turns[i].endedAt.Some? && turns[j].endedAt.Some?
      && (turns[i].endedAt.value < turns[j].endedAt.value ||
          (turns[i].endedAt == turns[j].endedAt && BytesLess(turns[i].id, turns[j].id)))
  }

  lemma RowsInOrder(t: seq<Row>, q: Query, cursor: Option<Cursor>)
    requires TableOk(t)
    ensures InOrder(Rows(t, q, cursor))
  {
    RowsAre(t, q, cursor);
    hide Rows, BytesLess, TableOk;
    var rows := Rows(t, q, cursor);
    forall k | 0 <= k < |rows| ensures rows[k].endedAt.Some? {
      assert rows[k] in rows;
    }
  }

  /** A page is refused exactly for a window that is reversed or too long, a limit out of range, or a bad cursor. */
  lemma PageRefusedIff(t: seq<Row>, q: Query, limit: int, raw: Option<seq<byte>>)
    ensures ListTurnsPage(t, q, limit, raw).Err? <==>
              || q.toMs < q.fromMs || q.toMs > q.fromMs + 365 * 86400000
              || limit < 1 || limit > 500
              || (raw.Some? && raw.value != [] && DecodeCursor(raw.value).Err?)
  {
    hide ListTurns, DecodeCursor;
  }

  /**
   * From the start, the pages of any limit concatenate to exactly the matching
   * turns, each once, ordered by end time and id; as long as no id is empty
   * this never fails.
   */
  lemma PagesCollectAllTurns(t: seq<Row>, q: Query, limit: int)
    requires TableOk(t) && WindowOk(q) && 1 <= limit <= MAX_LIMIT
    ensures Follow(t, q, limit, None).Ok? <==> CursorsSurvive(Rows(t, q, None), limit)
    ensures Follow(t, q, limit, None).Ok? ==>
              var turns := Follow(t, q, limit, None).value;
              && InOrder(turns)
              && (forall r :: r in turns <==>
                    && r in t && !r.deleted && r.completed && r.endedAt.Some?
                    && q.fromMs <= r.endedAt.value <= q.toMs
                    && (q.session.Some? ==> Some(r.session) == q.session)
                    && (q.project.Some? ==> r.project == q.project))
    ensures (forall r :: r in t ==> r.id != []) ==> Follow(t, q, limit, None).Ok?
  {
    hide Rows, TableOk, KeyLess, InOrder, Follow, CursorsSurvive;
    FollowCollects(t, q, limit, None);
    RowsAre(t, q, None);
    RowsInOrder(t, q, None);
    var rows := Rows(t, q, None);
    if forall r :: r in t ==> r.id != [] {
      assert forall k :: 0 <= k < |rows| ==> rows[k] in rows;
      NonEmptyIdsSurvive(rows, limit);
    }
  }
}
