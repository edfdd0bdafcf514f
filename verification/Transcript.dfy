/**
 * Reading a transcript line by line: the rows of a file, and the sequential
 * window reader (crates/host-core/src/transcripts.rs).
 */
module Transcript {
  import opened Wrappers
  import opened Naturals
  import opened Bytes
  import opened Sniff
  import opened Utf8
  import opened LogFile

  // ----- Unicode white space, as str::trim knows it -----

  predicate IsSpaceChar(c: seq<byte>) {
    if |c| == 1 then 0x09 <= c[0] <= 0x0D || c[0] == 0x20
    else if |c| == 2 then c[0] == 0xC2 && (c[1] == 0x85 || c[1] == 0xA0)
    else |c| == 3 &&
         ((c[0] == 0xE1 && c[1] == 0x9A && c[2] == 0x80) ||
          (c[0] == 0xE2 && c[1] == 0x80 && (0x80 <= c[2] <= 0x8A || c[2] == 0xA8 || c[2] == 0xA9 || c[2] == 0xAF)) ||
          (c[0] == 0xE2 && c[1] == 0x81 && c[2] == 0x9F) ||
          (c[0] == 0xE3 && c[1] == 0x80 && c[2] == 0x80))
  }

  /** The number of bytes of the white-space character s ends with, or 0. */
  function SpaceAtEnd(s: seq<byte>): (n: nat)
    ensures n <= |s|
  {
    if |s| >= 1 && IsSpaceChar(s[|s| - 1..]) then 1
    else if |s| >= 2 && IsSpaceChar(s[|s| - 2..]) then 2
    else if |s| >= 3 && IsSpaceChar(s[|s| - 3..]) then 3
    else 0
  }

  function SpaceAtStart(s: seq<byte>): (n: nat)
    ensures n <= |s|
  {
    if |s| >= 1 && IsSpaceChar(s[..1]) then 1
    else if |s| >= 2 && IsSpaceChar(s[..2]) then 2
    else if |s| >= 3 && IsSpaceChar(s[..3]) then 3
    else 0
  }

  function TrimEnd(s: seq<byte>): (r: seq<byte>)
    ensures r <= s
    decreases |s|
  {
    var n := SpaceAtEnd(s);
    if n == 0 then s else TrimEnd(s[..|s| - n])
  }

  function TrimStart(s: seq<byte>): seq<byte>
    decreases |s|
  {
    var n := SpaceAtStart(s);
    if n == 0 then s else TrimStart(s[n..])
  }

  function Trim(s: seq<byte>): seq<byte> {
    TrimStart(TrimEnd(s))
  }

  // ----- rows of a file -----

  /** One read_line: where it started and what it returned, newline included. */
  datatype Row = Row(offset: nat, text: seq<byte>)

  datatype ReadError = InvalidUtf8

  function LineLength(s: seq<byte>): (n: nat)
    requires s != []
    ensures 0 < n <= |s|
    ensures NEWLINE !in s[..n - 1]
    ensures n < |s| ==> s[n - 1] == NEWLINE
  {
    if s[0] == NEWLINE || |s| == 1 then 1 else
      var n := LineLength(s[1..]);
      assert s[..n] == [s[0]] + s[1..][..n - 1];
      n + 1
  }

  function Rows(s: seq<byte>, offset: nat): seq<Row>
    decreases |s|
  {
    if s == [] then []
    else
      var n := LineLength(s);
      [Row(offset, s[..n])] + Rows(s[n..], offset + n)
  }

  predicate Terminated(row: Row) {
    row.text != [] && row.text[|row.text| - 1] == NEWLINE
  }

  predicate AllText(rows: seq<Row>) {
    forall k :: 0 <= k < |rows| ==> ValidUtf8(rows[k].text)
  }

  function KindOf(row: Row): Option<LineKind> {
    SniffLine(TrimEnd(row.text))
  }

  /** The rows of one kind, in file order. */
  function OfKind(rows: seq<Row>, kind: LineKind): seq<Row> {
    if rows == [] then []
    else
      var last := rows[|rows| - 1];
      OfKind(rows[..|rows| - 1], kind) + (if KindOf(last) == Some(kind) then [last] else [])
  }

  /** What a decoder makes of some rows; rows it rejects are skipped. */
  function Decoded<T>(decode: seq<byte> -> Option<T>, rows: seq<Row>): seq<T> {
    if rows == [] then []
    else
      var last := rows[|rows| - 1];
      var value := decode(Trim(last.text));
      Decoded(decode, rows[..|rows| - 1]) + (if value.Some? then [value.value] else [])
  }

  /** Positions start <= index < start + limit. */
  function Window<T>(s: seq<T>, start: nat, limit: Option<nat>): seq<T> {
    var from := Min(start, |s|);
    var to := if limit.None? then |s| else Min(from + limit.value, |s|);
    s[from..to]
  }

  // ----- the sequential reader -----

  datatype TranscriptRead<M, C> = TranscriptRead(messages: seq<M>, compactions: seq<C>)

  function ReadRows<M, C>(rows: seq<Row>, decodeM: seq<byte> -> Option<M>, decodeC: seq<byte> -> Option<C>,
                          start: nat, limit: Option<nat>): Result<TranscriptRead<M, C>, ReadError> {
    if !AllText(rows) then Err(InvalidUtf8)
    else Ok(TranscriptRead(Decoded(decodeM, Window(OfKind(rows, MessageLine), start, limit)),
                           Decoded(decodeC, OfKind(rows, CompactionLine))))
  }

  function FileRows(file: Option<seq<byte>>): seq<Row> {
    if file.None? then [] else Rows(file.value, 0)
  }

  lemma {:induction false} LineLengthIs(s: seq<byte>, n: nat)
    requires s != [] && n <= |s| && (forall k :: 0 <= k < n ==> s[k] != NEWLINE)
    requires n < |s| ==> s[n] == NEWLINE
    ensures LineLength(s) == if n < |s| then n + 1 else n
  {
    if n > 0 && |s| > 1 { LineLengthIs(s[1..], n - 1); }
  }

  /** The row read_line returns at position at. */
  function RowAt(file: seq<byte>, at: nat): Row
    requires at < |file|
  {
    Row(at, file[at..at + LineLength(file[at..])])
  }

  /** One read_line: up to and including the next newline, or to the end of the file. */
  method ReadLine(file: seq<byte>, from: nat) returns (row: Row)
    requires from < |file|
    ensures row == RowAt(file, from) && 0 < |row.text| <= |file| - from
  {
    var next := from;
    while next < |file| && file[next] != NEWLINE
      invariant from <= next <= |file|
      invariant forall k :: from <= k < next ==> file[k] != NEWLINE
    {
      next := next + 1;
    }
    LineLengthIs(file[from..], next - from);
    if next < |file| {
      next := next + 1;
    }
    return Row(from, file[from..next]);
  }

  lemma SnocRows(rows: seq<Row>, row: Row)
    ensures (rows + [row])[..|rows|] == rows && (rows + [row])[|rows|] == row
  {}

  predicate Selected(index: nat, start: nat, limit: Option<nat>) {
    index >= start && (limit.None? || index < start + limit.value)
  }

  lemma WindowSnoc<T>(s: seq<T>, x: T, start: nat, limit: Option<nat>)
    ensures Window(s + [x], start, limit) ==
            if Selected(|s|, start, limit) then Window(s, start, limit) + [x] else Window(s, start, limit)
  {}

  lemma RowsAt(file: seq<byte>, at: nat)
    requires at < |file|
    ensures Rows(file[at..], at) == [RowAt(file, at)] + Rows(file[at + LineLength(file[at..])..], at + LineLength(file[at..]))
  {
    var n := LineLength(file[at..]);
    assert file[at..][..n] == file[at..at + n] && file[at..][n..] == file[at + n..];
  }

  /** The rows seen so far are the clean rows of the file before position at. */
  ghost predicate Read(file: seq<byte>, from: nat, at: nat, seen: seq<Row>)
    requires from <= |file|
  {
    at <= |file| && Rows(file[from..], from) == seen + Rows(file[at..], at) && AllText(seen)
  }

  lemma Splice(seen: seq<Row>, row: Row, rest: seq<Row>)
    ensures seen + ([row] + rest) == seen + [row] + rest
    ensures !ValidUtf8(row.text) ==> !AllText(seen + ([row] + rest))
    ensures ValidUtf8(row.text) && AllText(seen) ==> AllText(seen + [row])
  {
    hide ValidUtf8;
    assert (seen + ([row] + rest))[|seen|] == row;
  }

  lemma ReadStep(file: seq<byte>, from: nat, at: nat, seen: seq<Row>)
    requires from <= |file| && Read(file, from, at, seen) && at < |file|
    ensures var row := RowAt(file, at);
            if ValidUtf8(row.text) then Read(file, from, at + |row.text|, seen + [row])
            else !AllText(Rows(file[from..], from))
  {
    hide Rows, LineLength, AllText, ValidUtf8;
    var row := RowAt(file, at);
    RowsAt(file, at);
    Splice(seen, row, Rows(file[at + |row.text|..], at + |row.text|));
  }

  lemma ReadAll(file: seq<byte>, from: nat, seen: seq<Row>)
    requires from <= |file| && Read(file, from, |file|, seen)
    ensures Rows(file[from..], from) == seen && AllText(seen)
  {
    assert seen + [] == seen;
  }

  function TakeOne<T>(taken: seq<T>, decode: seq<byte> -> Option<T>, row: Row): seq<T> {
    var value := decode(Trim(row.text));
    if value.Some? then taken + [value.value] else taken
  }

  lemma DecodedSnoc<T>(decode: seq<byte> -> Option<T>, rows: seq<Row>, row: Row)
    ensures Decoded(decode, rows + [row]) == TakeOne(Decoded(decode, rows), decode, row)
  {
    SnocRows(rows, row);
  }

  lemma OfKindSnoc(rows: seq<Row>, row: Row, kind: LineKind)
    ensures OfKind(rows + [row], kind) == if KindOf(row) == Some(kind) then OfKind(rows, kind) + [row] else OfKind(rows, kind)
  {
    SnocRows(rows, row);
  }

  /** What the reader holds after the rows seen so far. */
  ghost predicate Holds<M, C>(seen: seq<Row>, index: nat, messages: seq<M>, compactions: seq<C>,
                              decodeM: seq<byte> -> Option<M>, decodeC: seq<byte> -> Option<C>,
                              start: nat, limit: Option<nat>) {
    && index == |OfKind(seen, MessageLine)|
    && messages == Decoded(decodeM, Window(OfKind(seen, MessageLine), start, limit))
    && compactions == Decoded(decodeC, OfKind(seen, CompactionLine))
  }

  /** One line of the sequential reader's loop: classify, count, and decode if selected. */
  method TakeLine<M, C>(row: Row, index: nat, messages: seq<M>, compactions: seq<C>,
                        decodeM: seq<byte> -> Option<M>, decodeC: seq<byte> -> Option<C>,
                        start: nat, limit: Option<nat>, ghost seen: seq<Row>)
    returns (index2: nat, messages2: seq<M>, compactions2: seq<C>)
    requires Holds(seen, index, messages, compactions, decodeM, decodeC, start, limit)
    ensures Holds(seen + [row], index2, messages2, compactions2, decodeM, decodeC, start, limit)
  {
    hide OfKind, Decoded, Window, SniffLine, TrimEnd, Trim, TakeOne;
    index2, messages2, compactions2 := index, messages, compactions;
    OfKindSnoc(seen, row, MessageLine);
    OfKindSnoc(seen, row, CompactionLine);
    var kind := SniffLineKind(TrimEnd(row.text));
    if kind == Some(MessageLine) {
      WindowSnoc(OfKind(seen, MessageLine), row, start, limit);
      index2 := index + 1;
      if Selected(index, start, limit) {
        DecodedSnoc(decodeM, Window(OfKind(seen, MessageLine), start, limit), row);
        messages2 := TakeOne(messages, decodeM, row);
      }
    } else if kind == Some(CompactionLine) {
      DecodedSnoc(decodeC, OfKind(seen, CompactionLine), row);
      compactions2 := TakeOne(compactions, decodeC, row);
    }
  }

  lemma ReadNone(file: seq<byte>, from: nat)
    requires from <= |file|
    ensures Read(file, from, from, [])
  {}

  lemma HoldsAtStart<M, C>(decodeM: seq<byte> -> Option<M>, decodeC: seq<byte> -> Option<C>, start: nat, limit: Option<nat>)
    ensures AllText([]) && Holds<M, C>([], 0, [], [], decodeM, decodeC, start, limit)
  {
    assert Window<Row>([], start, limit) == [];
  }

  lemma HoldsAtEnd<M, C>(rows: seq<Row>, index: nat, messages: seq<M>, compactions: seq<C>,
                         decodeM: seq<byte> -> Option<M>, decodeC: seq<byte> -> Option<C>, start: nat, limit: Option<nat>)
    requires AllText(rows) && Holds(rows, index, messages, compactions, decodeM, decodeC, start, limit)
    ensures ReadRows(rows, decodeM, decodeC, start, limit) == Ok(TranscriptRead(messages, compactions))
  {}

  lemma ReadRowsIs<M, C>(rows: seq<Row>, decodeM: seq<byte> -> Option<M>, decodeC: seq<byte> -> Option<C>,
                         start: nat, limit: Option<nat>)
    requires !AllText(rows)
    ensures ReadRows(rows, decodeM, decodeC, start, limit) == Err(InvalidUtf8)
  {}

  method ReadTranscriptWindow<M, C>(file: Option<seq<byte>>, decodeM: seq<byte> -> Option<M>,
                                    decodeC: seq<byte> -> Option<C>, start: nat, limit: Option<nat>)
    returns (r: Result<TranscriptRead<M, C>, ReadError>)
    ensures r == ReadRows(FileRows(file), decodeM, decodeC, start, limit)
  {
    hide Holds, ReadRows, ValidUtf8, LineLength, Rows, AllText, Read, RowAt;
    HoldsAtStart(decodeM, decodeC, start, limit);
    if file.None? {
      HoldsAtEnd([], 0, [], [], decodeM, decodeC, start, limit);
      return Ok(TranscriptRead([], []));
    }
    var bytes := file.value;
    var at, index := 0, 0;
    var messages: seq<M>, compactions: seq<C> := [], [];
    ghost var seen: seq<Row> := [];
    ReadNone(bytes, 0);
    while at < |bytes|
      invariant at <= |bytes| && Read(bytes, 0, at, seen)
      invariant Holds(seen, index, messages, compactions, decodeM, decodeC, start, limit)
    {
      var row := ReadLine(bytes, at);
      ReadStep(bytes, 0, at, seen);
      if !ValidUtf8(row.text) {
        assert bytes[0..] == bytes;
        ReadRowsIs(Rows(bytes, 0), decodeM, decodeC, start, limit);
        return Err(InvalidUtf8);
      }
      index, messages, compactions := TakeLine(row, index, messages, compactions, decodeM, decodeC, start, limit, seen);
      seen := seen + [row];
      at := at + |row.text|;
    }
    ReadAll(bytes, 0, seen);
    assert bytes[0..] == bytes;
    HoldsAtEnd(seen, index, messages, compactions, decodeM, decodeC, start, limit);
    return Ok(TranscriptRead(messages, compactions));
  }
}
