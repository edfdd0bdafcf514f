/**
 * The byte-offset layout of a transcript, scanned and grown incrementally, and
 * when growing it is right (crates/host-core/src/transcripts.rs).
 */
module Layout {
  import opened Wrappers
  import opened Bytes
  import opened Sniff
  import opened Utf8
  import opened LogFile
  import opened Transcript

  datatype TranscriptLayout = TranscriptLayout(messageOffsets: seq<nat>, compactionOffsets: seq<nat>, fileLen: nat)

  const EMPTY := TranscriptLayout([], [], 0)

  /** A torn last row is left out: a later scan picks it up once it is complete. */
  function Whole(rows: seq<Row>): seq<Row> {
    if rows != [] && !Terminated(rows[|rows| - 1]) then rows[..|rows| - 1] else rows
  }

  ghost predicate AllTerminated(rows: seq<Row>) {
    forall k :: 0 <= k < |rows| ==> Terminated(rows[k])
  }

  function Offsets(rows: seq<Row>): seq<nat> {
    if rows == [] then [] else Offsets(rows[..|rows| - 1]) + [rows[|rows| - 1].offset]
  }

  /** Where the last row ends. */
  function EndOf(rows: seq<Row>, start: nat): nat {
    if rows == [] then start else rows[|rows| - 1].offset + |rows[|rows| - 1].text|
  }

  /** The layout that base becomes when the rows after it have been scanned. */
  function Extended(base: TranscriptLayout, rows: seq<Row>): TranscriptLayout {
    TranscriptLayout(base.messageOffsets + Offsets(OfKind(Whole(rows), MessageLine)),
                     base.compactionOffsets + Offsets(OfKind(Whole(rows), CompactionLine)),
                     EndOf(Whole(rows), base.fileLen))
  }

  function ScanFrom(file: seq<byte>, base: TranscriptLayout): Result<TranscriptLayout, ReadError>
    requires base.fileLen <= |file|
  {
    var rows := Rows(file[base.fileLen..], base.fileLen);
    if AllText(rows) then Ok(Extended(base, rows)) else Err(InvalidUtf8)
  }

  /** A scan from scratch. */
  function ScanFile(file: seq<byte>): Result<TranscriptLayout, ReadError> {
    ScanFrom(file, EMPTY)
  }

  function Refresh(file: Option<seq<byte>>, base: TranscriptLayout): Result<TranscriptLayout, ReadError> {
    if file.None? then Ok(EMPTY)
    else if |file.value| == base.fileLen then Ok(base)
    else if |file.value| < base.fileLen then ScanFile(file.value)
    else ScanFrom(file.value, base)
  }

  // ----- rows before and after growth -----

  predicate FrontTerminated(rows: seq<Row>) {
    forall k :: 0 <= k < |rows| - 1 ==> Terminated(rows[k])
  }

  lemma ShapeCons(row: Row, rest: seq<Row>, offset: nat)
    requires FrontTerminated(rest) && (rest != [] ==> Terminated(row))
    ensures FrontTerminated([row] + rest) && |[row] + rest| == 1 + |rest|
    ensures ([row] + rest)[|rest|] == if rest == [] then row else rest[|rest| - 1]
    ensures EndOf([row] + rest, offset) == EndOf(rest, row.offset + |row.text|)
  {
    hide Terminated;
    var rows := [row] + rest;
    forall k | 0 <= k < |rows| - 1 ensures Terminated(rows[k]) {
      if k > 0 { assert rows[k] == rest[k - 1]; }
    }
  }

  lemma LastByte(s: seq<byte>, n: nat, offset: nat)
    requires 0 < n <= |s|
    ensures |s[..n]| == n && |s[n..]| == |s| - n && offset + n + |s[n..]| == offset + |s|
    ensures n == |s| ==> (Terminated(Row(offset, s[..n])) <==> s[|s| - 1] == NEWLINE)
    ensures n < |s| && s[n - 1] == NEWLINE ==> Terminated(Row(offset, s[..n])) && s[n..][|s[n..]| - 1] == s[|s| - 1]
  {}

  lemma RowsUnfold(s: seq<byte>, offset: nat)
    requires s != []
    ensures var n := LineLength(s);
            Rows(s, offset) == [Row(offset, s[..n])] + Rows(s[n..], offset + n)
  {}

  lemma {:induction false} RowsShape(s: seq<byte>, offset: nat)
    ensures var rows := Rows(s, offset);
            && FrontTerminated(rows)
            && (s == [] <==> rows == [])
            && (s != [] ==> (Terminated(rows[|rows| - 1]) <==> s[|s| - 1] == NEWLINE))
            && EndOf(rows, offset) == offset + |s|
    decreases |s|
  {
    if s != [] {
      var n := LineLength(s);
      hide Rows, FrontTerminated, EndOf, Terminated, LineLength;
      LastByte(s, n, offset);
      RowsShape(s[n..], offset + n);
      RowsUnfold(s, offset);
      ShapeCons(Row(offset, s[..n]), Rows(s[n..], offset + n), offset);
    }
  }

  lemma NothingFirst(rows: seq<Row>)
    ensures [] + rows == rows
  {}

  lemma RowsOfNothing(a: seq<byte>, b: seq<byte>, offset: nat)
    requires a == []
    ensures Rows(a + b, offset) == Rows(a, offset) + Rows(b, offset + |a|)
  {
    assert Rows(a, offset) == [];
    hide *;
    assert a + b == b;
    NothingFirst(Rows(b, offset));
  }

  lemma RowsTail(a: seq<byte>)
    requires EndsWithNewline(a) && a != []
    ensures EndsWithNewline(a[LineLength(a)..]) && LineLength(a) <= |a|
  {
    var n := LineLength(a);
    if n < |a| { assert a[n..][|a| - n - 1] == a[|a| - 1]; }
    hide LineLength;
  }

  lemma Reassociate<T>(a: seq<T>, b: seq<T>, c: seq<T>)
    ensures a + (b + c) == a + b + c
  {}

  lemma LineLengthPrefix(a: seq<byte>, b: seq<byte>)
    requires a != [] && a[|a| - 1] == NEWLINE
    ensures LineLength(a + b) == LineLength(a)
  {
    var n := LineLength(a);
    assert a[n - 1] == NEWLINE;
    forall k | 0 <= k < n - 1 ensures (a + b)[k] != NEWLINE {
      assert a[k] in a[..n - 1];
    }
    LineLengthIs(a + b, n - 1);
  }

  lemma RowsConcatStep(a: seq<byte>, b: seq<byte>, offset: nat)
    requires EndsWithNewline(a) && a != []
    requires var n := LineLength(a);
             Rows(a[n..] + b, offset + n) == Rows(a[n..], offset + n) + Rows(b, offset + |a|)
    ensures Rows(a + b, offset) == Rows(a, offset) + Rows(b, offset + |a|)
  {
    hide LineLength, Rows;
    var n := LineLength(a);
    LineLengthPrefix(a, b);
    assert (a + b)[..n] == a[..n] && (a + b)[n..] == a[n..] + b;
    RowsUnfold(a + b, offset);
    RowsUnfold(a, offset);
    Reassociate([Row(offset, a[..n])], Rows(a[n..], offset + n), Rows(b, offset + |a|));
  }

  /** Rows up to a line end are not disturbed by what comes after it. */
  lemma {:induction false} RowsConcat(a: seq<byte>, b: seq<byte>, offset: nat)
    requires EndsWithNewline(a)
    ensures Rows(a + b, offset) == Rows(a, offset) + Rows(b, offset + |a|)
    decreases |a|
  {
    hide *;
    if a == [] {
      RowsOfNothing(a, b, offset);
    } else {
      var n := LineLength(a);
      RowsTail(a);
      RowsConcat(a[n..], b, offset + n);
      RowsConcatStep(a, b, offset);
    }
  }

  lemma RowsAfter(g: seq<byte>, n: nat)
    requires n <= |g| && EndsWithNewline(g[..n])
    ensures Rows(g, 0) == Rows(g[..n], 0) + Rows(g[n..], n)
  {
    hide *;
    assert g == g[..n] + g[n..];
    RowsConcat(g[..n], g[n..], 0);
  }

  /** Where the newline-terminated part of a file ends. */
  function CompleteLength(file: seq<byte>): (n: nat)
    ensures n <= |file| && EndsWithNewline(file[..n])
    ensures NEWLINE !in file[n..]
  {
    if EndsWithNewline(file) then
      assert file[..|file|] == file;
      |file|
    else
      var front := file[..|file| - 1];
      var n := CompleteLength(front);
      assert file[n..] == front[n..] + [file[|file| - 1]] && file[..n] == front[..n];
      n
  }

  lemma {:induction false} OneTornRow(s: seq<byte>, offset: nat)
    requires NEWLINE !in s
    ensures Rows(s, offset) == if s == [] then [] else [Row(offset, s)]
  {
    if s != [] {
      LineLengthIs(s, |s|);
      assert s[..|s|] == s && s[|s|..] == [];
    }
  }

  /** The rows of the newline-terminated part of a file. */
  function CompleteRows(file: seq<byte>): seq<Row> {
    Rows(file[..CompleteLength(file)], 0)
  }

  /** The torn row at the end of a file, if there is one. */
  function TornRow(file: seq<byte>): seq<Row> {
    var n := CompleteLength(file);
    if n == |file| then [] else [Row(n, file[n..])]
  }

  lemma CompleteRowsTerminated(file: seq<byte>)
    ensures forall k :: 0 <= k < |CompleteRows(file)| ==> Terminated(CompleteRows(file)[k])
    ensures EndOf(CompleteRows(file), 0) == CompleteLength(file)
  {
    hide Rows;
    var head := file[..CompleteLength(file)];
    RowsShape(head, 0);
    assert CompleteRows(file) == Rows(head, 0);
  }

  /** A file is its complete part and one torn row or none; a layout covers the former. */
  lemma FileIs(file: seq<byte>)
    ensures Rows(file, 0) == CompleteRows(file) + TornRow(file)
  {
    hide Rows;
    var n := CompleteLength(file);
    RowsAfter(file, n);
    OneTornRow(file[n..], n);
  }

  lemma WholeIs(file: seq<byte>)
    ensures Whole(Rows(file, 0)) == CompleteRows(file)
  {
    hide Rows, CompleteRows;
    var n, head := CompleteLength(file), CompleteRows(file);
    FileIs(file);
    CompleteRowsTerminated(file);
    if n < |file| {
      assert file[|file| - 1] in file[n..];
      assert (head + TornRow(file))[..|head|] == head;
    } else {
      assert head + [] == head;
    }
  }

  lemma {:induction false} OfKindConcat(a: seq<Row>, b: seq<Row>, kind: LineKind)
    ensures OfKind(a + b, kind) == OfKind(a, kind) + OfKind(b, kind)
  {
    if b == [] {
      assert a + b == a;
      assert OfKind(a, kind) + [] == OfKind(a, kind);
    } else {
      hide KindOf, OfKind;
      var front, last := b[..|b| - 1], b[|b| - 1];
      assert b == front + [last];
      Reassociate(a, front, [last]);
      OfKindConcat(a, front, kind);
      OfKindSnoc(a + front, last, kind);
      OfKindSnoc(front, last, kind);
      if KindOf(last) == Some(kind) {
        Reassociate(OfKind(a, kind), OfKind(front, kind), [last]);
      }
    }
  }

  lemma {:induction false} OffsetsConcat(a: seq<Row>, b: seq<Row>)
    ensures Offsets(a + b) == Offsets(a) + Offsets(b)
  {
    if b == [] {
      assert a + b == a;
    } else {
      assert (a + b)[..|a + b| - 1] == a + b[..|b| - 1];
      OffsetsConcat(a, b[..|b| - 1]);
    }
  }

  lemma OffsetsOfKindConcat(a: seq<Row>, b: seq<Row>, kind: LineKind)
    ensures Offsets(OfKind(a + b, kind)) == Offsets(OfKind(a, kind)) + Offsets(OfKind(b, kind))
  {
    hide OfKind, Offsets;
    OfKindConcat(a, b, kind);
    OffsetsConcat(OfKind(a, kind), OfKind(b, kind));
  }

  lemma WholeConcat(a: seq<Row>, b: seq<Row>)
    requires forall k :: 0 <= k < |a| ==> Terminated(a[k])
    ensures Whole(a) == a && Whole(a + b) == a + Whole(b)
  {
    if b == [] {
      assert a + b == a;
    } else {
      assert (a + b)[..|a + b| - 1] == a + b[..|b| - 1];
    }
  }

  lemma EndOfConcat(a: seq<Row>, b: seq<Row>, start: nat)
    ensures EndOf(a + b, start) == EndOf(b, EndOf(a, start))
  {
    if b == [] { assert a + b == a; }
  }

  /** Scanning in two goes: the torn row, if any, is in the second. */
  lemma ExtendTwice(base: TranscriptLayout, a: seq<Row>, b: seq<Row>)
    requires AllTerminated(a)
    ensures Extended(base, a + b) == Extended(Extended(base, a), b)
  {
    hide OfKind, Offsets;
    WholeConcat(a, b);
    OffsetsOfKindConcat(a, Whole(b), MessageLine);
    OffsetsOfKindConcat(a, Whole(b), CompactionLine);
    EndOfConcat(a, Whole(b), base.fileLen);
    Reassociate(base.messageOffsets, Offsets(OfKind(a, MessageLine)), Offsets(OfKind(Whole(b), MessageLine)));
    Reassociate(base.compactionOffsets, Offsets(OfKind(a, CompactionLine)), Offsets(OfKind(Whole(b), CompactionLine)));
  }

  lemma ExtendWhole(rows: seq<Row>)
    requires Whole(Whole(rows)) == Whole(rows)
    ensures Extended(EMPTY, rows) == Extended(EMPTY, Whole(rows))
  {}

  lemma AllTextConcat(a: seq<Row>, b: seq<Row>)
    ensures AllText(a + b) <==> AllText(a) && AllText(b)
  {
    hide ValidUtf8;
    assert forall k :: 0 <= k < |a| ==> (a + b)[k] == a[k];
    assert forall k :: 0 <= k < |b| ==> (a + b)[|a| + k] == b[k];
  }

  lemma ScanIs(file: seq<byte>)
    ensures ScanFile(file) ==
            if AllText(Rows(file, 0)) then Ok(Extended(EMPTY, CompleteRows(file))) else Err(InvalidUtf8)
    ensures Extended(EMPTY, CompleteRows(file)).fileLen == CompleteLength(file)
  {
    hide Rows, OfKind, Offsets, CompleteRows, AllText, CompleteLength;
    assert file[0..] == file;
    WholeIs(file);
    CompleteRowsTerminated(file);
    WholeConcat(CompleteRows(file), []);
    ExtendWhole(Rows(file, 0));
  }

  // ----- when an old layout may be extended -----

  lemma SameFront(a: seq<nat>, b: seq<nat>, c: seq<nat>)
    ensures a + c == b + c <==> a == b
  {
    if a + c == b + c {
      assert |a| == |b|;
      assert (a + c)[..|a|] == a && (b + c)[..|b|] == b;
    }
  }

  lemma ExtendedCancel(x: TranscriptLayout, y: TranscriptLayout, rows: seq<Row>)
    requires x.fileLen == y.fileLen
    ensures Extended(x, rows) == Extended(y, rows) <==> x == y
  {
    hide Offsets, OfKind, Whole;
    SameFront(x.messageOffsets, y.messageOffsets, Offsets(OfKind(Whole(rows), MessageLine)));
    SameFront(x.compactionOffsets, y.compactionOffsets, Offsets(OfKind(Whole(rows), CompactionLine)));
  }

  lemma EmptyNotTorn(rows: seq<Row>)
    requires forall k :: 0 <= k < |rows| - 1 ==> Terminated(rows[k])
    requires rows != [] ==> Terminated(rows[|rows| - 1])
    ensures AllTerminated(rows)
  {}

  lemma RowsSplit(g: seq<byte>, n: nat)
    requires n <= |g| && EndsWithNewline(g[..n])
    ensures Rows(g, 0) == Rows(g[..n], 0) + Rows(g[n..], n)
    ensures AllTerminated(Rows(g[..n], 0)) && EndOf(Rows(g[..n], 0), 0) == n
  {
    hide Rows, EndOf, AllTerminated;
    RowsAfter(g, n);
    RowsShape(g[..n], 0);
    EmptyNotTorn(Rows(g[..n], 0));
  }

  lemma ScanFileIs(g: seq<byte>)
    ensures ScanFile(g) == if AllText(Rows(g, 0)) then Ok(Extended(EMPTY, Rows(g, 0))) else Err(InvalidUtf8)
  {
    hide Rows, Extended, AllText;
    assert g[0..] == g;
  }

  /** A scan from scratch, divided at a line end. */
  lemma ScanSplit(g: seq<byte>, n: nat)
    requires n <= |g| && EndsWithNewline(g[..n])
    ensures var a, b := Rows(g[..n], 0), Rows(g[n..], n);
            && Rows(g, 0) == a + b && AllTerminated(a) && EndOf(a, 0) == n
            && ScanFile(g[..n]) == (if AllText(a) then Ok(Extended(EMPTY, a)) else Err(InvalidUtf8))
            && ScanFile(g) == (if AllText(a) && AllText(b) then Ok(Extended(Extended(EMPTY, a), b)) else Err(InvalidUtf8))
  {
    hide *;
    RowsSplit(g, n);
    ScanFileIs(g[..n]);
    ScanFileIs(g);
    AllTextConcat(Rows(g[..n], 0), Rows(g[n..], n));
    ExtendTwice(EMPTY, Rows(g[..n], 0), Rows(g[n..], n));
  }

  lemma WholeEnd(rows: seq<Row>)
    requires AllTerminated(rows)
    ensures Extended(EMPTY, rows).fileLen == EndOf(rows, 0)
  {}

  lemma ExtendedNone(base: TranscriptLayout)
    ensures Extended(base, []) == base
  {
    assert base.messageOffsets + [] == base.messageOffsets;
    assert base.compactionOffsets + [] == base.compactionOffsets;
  }

  lemma NothingAfter(g: seq<byte>, base: TranscriptLayout)
    requires base.fileLen == |g|
    ensures ScanFrom(g, base) == Ok(base)
  {
    assert g[|g|..] == [];
    ExtendedNone(base);
  }

  lemma RefreshScansOn(g: seq<byte>, base: TranscriptLayout)
    requires base.fileLen <= |g|
    ensures Refresh(Some(g), base) == ScanFrom(g, base)
  {
    hide ScanFrom;
    if base.fileLen == |g| { NothingAfter(g, base); }
  }

  /** Where a line ends at the length of the old layout: its lines must be those the layout was scanned from. */
  lemma RefreshAtLineEnd(g: seq<byte>, base: TranscriptLayout)
    requires base.fileLen <= |g| && EndsWithNewline(g[..base.fileLen])
    ensures Refresh(Some(g), base) == ScanFile(g) <==>
            ScanFile(g[..base.fileLen]) == Ok(base) || !AllText(Rows(g[base.fileLen..], base.fileLen))
  {
    hide Rows, Extended, AllText, EndOf, Refresh, ScanFile, AllTerminated;
    var n := base.fileLen;
    var a, b := Rows(g[..n], 0), Rows(g[n..], n);
    ScanSplit(g, n);
    RefreshScansOn(g, base);
    WholeEnd(a);
    ExtendedCancel(Extended(EMPTY, a), base, b);
  }

  predicate RowsBelow(rows: seq<Row>, bound: nat) {
    forall k :: 0 <= k < |rows| ==> rows[k].offset < bound
  }

  /** The line that runs over position n, from its beginning c on. */
  predicate RunsOver(g: seq<byte>, c: nat, n: nat) {
    c < n < |g| && EndsWithNewline(g[..c]) && NEWLINE !in g[c..n]
  }

  lemma {:induction false} LineLengthOver(a: seq<byte>, b: seq<byte>)
    requires (forall k :: 0 <= k < |a| ==> a[k] != NEWLINE) && b != []
    ensures LineLength(a + b) == |a| + LineLength(b)
    decreases |a|
  {
    if a == [] {
      assert a + b == b;
    } else {
      assert (a + b)[1..] == a[1..] + b && (a + b)[0] == a[0];
      LineLengthOver(a[1..], b);
    }
  }

  /** The first line of s alone is one row. */
  lemma OneRowOnly(s: seq<byte>, n: nat, offset: nat)
    requires s != [] && n == LineLength(s)
    ensures n <= |s| && Rows(s[..n], offset) == [Row(offset, s[..n])]
  {
    assert s[..n][..n] == s[..n] && s[..n][n..] == [];
    if n == |s| {
      assert s[..n] == s;
    } else {
      forall k | 0 <= k < n - 1 ensures s[..n][k] != NEWLINE {
        assert s[k] in s[..n - 1];
      }
      LineLengthIs(s[..n], n - 1);
    }
  }

  lemma RowsFrom(g: seq<byte>, at: nat)
    requires at < |g|
    ensures var m := at + LineLength(g[at..]);
            m <= |g| && Rows(g[at..], at) == [Row(at, g[at..m])] + Rows(g[m..], m)
  {
    hide Rows, LineLength;
    var m := at + LineLength(g[at..]);
    assert g[at..][m - at..] == g[m..] && g[at..][..m - at] == g[at..m];
    RowsUnfold(g[at..], at);
  }

  lemma LengthOver(g: seq<byte>, c: nat, n: nat)
    requires RunsOver(g, c, n)
    ensures c + LineLength(g[c..]) == n + LineLength(g[n..])
  {
    hide LineLength;
    assert forall k :: 0 <= k < n - c ==> g[c..n][k] in g[c..n];
    LineLengthOver(g[c..n], g[n..]);
    assert g[c..] == g[c..n] + g[n..];
  }

  lemma SlicesAround(g: seq<byte>, c: nat, m: nat)
    requires c <= m <= |g|
    ensures g[..m] == g[..c] + g[c..m] && g[c..][..m - c] == g[c..m] && c == 0 + |g[..c]|
  {}

  lemma RowsUpTo(g: seq<byte>, c: nat, m: nat)
    requires c < |g| && EndsWithNewline(g[..c]) && m == c + LineLength(g[c..]) && m <= |g|
    ensures Rows(g[..m], 0) == Rows(g[..c], 0) + [Row(c, g[c..m])]
  {
    hide *;
    SlicesAround(g, c, m);
    OneRowOnly(g[c..], m - c, c);
    RowsConcat(g[..c], g[c..m], 0);
  }

  lemma RunsOverIs(g: seq<byte>, c: nat, n: nat)
    requires RunsOver(g, c, n)
    ensures c < n < |g| && EndsWithNewline(g[..c])
  {}

  /** The rows of a file seen from the beginning of that line, and from the middle of it. */
  lemma StraddledRows(g: seq<byte>, c: nat, n: nat)
    requires RunsOver(g, c, n)
    ensures var m := n + LineLength(g[n..]);
            && m <= |g|
            && Rows(g[c..], c) == [Row(c, g[c..m])] + Rows(g[m..], m)
            && Rows(g[n..], n) == [Row(n, g[n..m])] + Rows(g[m..], m)
            && Rows(g[..m], 0) == Rows(g[..c], 0) + [Row(c, g[c..m])]
            && Rows(g, 0) == Rows(g[..m], 0) + Rows(g[m..], m)
  {
    hide *;
    RunsOverIs(g, c, n);
    var m := n + LineLength(g[n..]);
    LengthOver(g, c, n);
    RowsFrom(g, c);
    RowsFrom(g, n);
    RowsUpTo(g, c, m);
    RowsAfter(g, c);
    Reassociate(Rows(g[..c], 0), [Row(c, g[c..m])], Rows(g[m..], m));
  }

  /** Inside a line: the rest of the line counts for nothing, and the layout is that of a scan up to its end. */
  predicate StraddlesHarmlessly(g: seq<byte>, base: TranscriptLayout)
    requires base.fileLen < |g|
  {
    var n := base.fileLen;
    var m := n + LineLength(g[n..]);
    var rest := KindOf(Row(n, g[n..m]));
    && EndsWithNewline(g[..m]) && ScanFile(g[..m]) == Ok(base.(fileLen := m))
    && AllText(Rows(g[n..], n)) && rest != Some(MessageLine) && rest != Some(CompactionLine)
  }

  /** When extending the old layout gives what a scan from scratch gives. */
  predicate MayExtend(g: seq<byte>, base: TranscriptLayout) {
    var n := base.fileLen;
    if n > |g| then true
    else if EndsWithNewline(g[..n]) then ScanFile(g[..n]) == Ok(base) || !AllText(Rows(g[n..], n))
    else n < |g| && ((!AllText(Rows(g, 0)) && !AllText(Rows(g[n..], n))) || StraddlesHarmlessly(g, base))
  }

  lemma {:induction false} RowsWithin(s: seq<byte>, offset: nat)
    ensures RowsBelow(Rows(s, offset), offset + |s|)
    decreases |s|
  {
    if s != [] { RowsWithin(s[LineLength(s)..], offset + LineLength(s)); }
  }

  lemma OfKindLast(rows: seq<Row>, kind: LineKind)
    requires rows != []
    ensures var front, last := rows[..|rows| - 1], rows[|rows| - 1];
            OfKind(rows, kind) == if KindOf(last) == Some(kind) then OfKind(front, kind) + [last] else OfKind(front, kind)
  {
    hide KindOf;
  }

  predicate Below(offsets: seq<nat>, bound: nat) {
    forall k :: 0 <= k < |offsets| ==> offsets[k] < bound
  }

  lemma BelowSnoc(offsets: seq<nat>, o: nat, bound: nat)
    requires Below(offsets, bound) && o < bound
    ensures Below(offsets + [o], bound)
  {}

  lemma OffsetsSnoc(rows: seq<Row>, row: Row)
    ensures Offsets(rows + [row]) == Offsets(rows) + [row.offset]
  {
    SnocRows(rows, row);
  }

  lemma {:induction false} OffsetsWithin(rows: seq<Row>, kind: LineKind, bound: nat)
    requires RowsBelow(rows, bound)
    ensures Below(Offsets(OfKind(rows, kind)), bound)
  {
    if rows != [] {
      hide KindOf, OfKind, Offsets, Below;
      OffsetsWithin(rows[..|rows| - 1], kind, bound);
      OfKindLast(rows, kind);
      OffsetsSnoc(OfKind(rows[..|rows| - 1], kind), rows[|rows| - 1]);
      BelowSnoc(Offsets(OfKind(rows[..|rows| - 1], kind)), rows[|rows| - 1].offset, bound);
    }
  }

  lemma Regroup(a: seq<nat>, b: seq<nat>, n: nat)
    ensures a + (b + [n]) == a + b + [n]
  {}

  lemma ExtendedSnoc(base: TranscriptLayout, rows: seq<Row>, row: Row)
    requires AllTerminated(rows) && Terminated(row)
    ensures AllTerminated(rows + [row])
    ensures var l, m := Extended(base, rows), Extended(base, rows + [row]);
            && m.messageOffsets == (if KindOf(row) == Some(MessageLine) then l.messageOffsets + [row.offset] else l.messageOffsets)
            && m.compactionOffsets == (if KindOf(row) == Some(CompactionLine) then l.compactionOffsets + [row.offset] else l.compactionOffsets)
            && m.fileLen == row.offset + |row.text|
  {
    hide KindOf, OfKind, Offsets;
    OfKindSnoc(rows, row, MessageLine);
    OfKindSnoc(rows, row, CompactionLine);
    OffsetsSnoc(OfKind(rows, MessageLine), row);
    OffsetsSnoc(OfKind(rows, CompactionLine), row);
    Regroup(base.messageOffsets, Offsets(OfKind(rows, MessageLine)), row.offset);
    Regroup(base.compactionOffsets, Offsets(OfKind(rows, CompactionLine)), row.offset);
  }

  lemma ExtendedTorn(base: TranscriptLayout, rows: seq<Row>, row: Row)
    requires AllTerminated(rows) && !Terminated(row)
    ensures Extended(base, rows + [row]) == Extended(base, rows)
  {
    SnocRows(rows, row);
  }

  lemma ExtendedByOne(base: TranscriptLayout, row: Row)
    ensures Extended(base, [row]) ==
            if !Terminated(row) then base
            else TranscriptLayout(
              if KindOf(row) == Some(MessageLine) then base.messageOffsets + [row.offset] else base.messageOffsets,
              if KindOf(row) == Some(CompactionLine) then base.compactionOffsets + [row.offset] else base.compactionOffsets,
              row.offset + |row.text|)
  {
    hide KindOf, OfKind, Offsets;
    ExtendedNone(base);
    assert [] + [row] == [row];
    if Terminated(row) { ExtendedSnoc(base, [], row); } else { ExtendedTorn(base, [], row); }
  }

  lemma NotLast(a: seq<nat>, n: nat, b: seq<nat>)
    requires Below(b, n)
    ensures a + [n] != b
  {
    assert (a + [n])[|a|] == n;
  }

  lemma ExtendedIs(rows: seq<Row>)
    requires AllTerminated(rows)
    ensures Extended(EMPTY, rows).messageOffsets == Offsets(OfKind(rows, MessageLine))
    ensures Extended(EMPTY, rows).compactionOffsets == Offsets(OfKind(rows, CompactionLine))
  {
    hide OfKind, Offsets;
    assert [] + Offsets(OfKind(rows, MessageLine)) == Offsets(OfKind(rows, MessageLine));
    assert [] + Offsets(OfKind(rows, CompactionLine)) == Offsets(OfKind(rows, CompactionLine));
  }

  /** No scanned offset lies at or after the end of what was scanned. */
  lemma NoOffsetAt(base: TranscriptLayout, n: nat, rows: seq<Row>, row: Row)
    requires AllTerminated(rows) && Terminated(row) && row.offset == n
    requires RowsBelow(rows, n)
    ensures Extended(base, [row]) == Extended(EMPTY, rows) <==>
            && KindOf(row) != Some(MessageLine) && KindOf(row) != Some(CompactionLine)
            && base.(fileLen := row.offset + |row.text|) == Extended(EMPTY, rows)
  {
    hide KindOf, OfKind, Offsets, EndOf;
    ExtendedByOne(base, row);
    OffsetsWithin(rows, MessageLine, n);
    OffsetsWithin(rows, CompactionLine, n);
    WholeConcat(rows, []);
    ExtendedIs(rows);
    NotLast(base.messageOffsets, n, Extended(EMPTY, rows).messageOffsets);
    NotLast(base.compactionOffsets, n, Extended(EMPTY, rows).compactionOffsets);
  }

  lemma Ahead(g: seq<byte>, c: nat, n: nat)
    requires RunsOver(g, c, n)
    ensures n < |g| && n < n + LineLength(g[n..]) <= |g|
  {}

  lemma LineEnd(g: seq<byte>, n: nat, m: nat)
    requires n < m <= |g| && EndsWithNewline(g[..m])
    ensures Terminated(Row(n, g[n..m]))
  {
    assert g[..m][m - 1] == g[n..m][m - n - 1];
  }

  lemma AllTerminatedOne(row: Row)
    requires Terminated(row)
    ensures AllTerminated([row])
  {}

  lemma ScanFromIs(bytes: seq<byte>, base: TranscriptLayout)
    requires base.fileLen <= |bytes|
    ensures var rows := Rows(bytes[base.fileLen..], base.fileLen);
            ScanFrom(bytes, base) == if AllText(rows) then Ok(Extended(base, rows)) else Err(InvalidUtf8)
  {}

  /** Refreshing from inside a complete line: the rest of the line, then the rows after it. */
  lemma RefreshFromInside(g: seq<byte>, base: TranscriptLayout, c: nat, m: nat)
    requires RunsOver(g, c, base.fileLen) && m == base.fileLen + LineLength(g[base.fileLen..]) && m <= |g|
    requires EndsWithNewline(g[..m])
    ensures var n := base.fileLen; var row, r := Row(n, g[n..m]), Rows(g[m..], m);
            && Rows(g[n..], n) == [row] + r
            && Refresh(Some(g), base) ==
                 if AllText([row] + r) then Ok(Extended(Extended(base, [row]), r)) else Err(InvalidUtf8)
  {
    hide *;
    Ahead(g, c, base.fileLen);
    var n := base.fileLen;
    StraddledRows(g, c, n);
    RefreshScansOn(g, base);
    ScanFromIs(g, base);
    LineEnd(g, n, m);
    AllTerminatedOne(Row(n, g[n..m]));
    ExtendTwice(base, [Row(n, g[n..m])], Rows(g[m..], m));
  }

  lemma RowLength(g: seq<byte>, n: nat, m: nat)
    requires n <= m <= |g|
    ensures Row(n, g[n..m]).offset + |Row(n, g[n..m]).text| == m
  {}

  /** The rows up to the end of the straddling line all begin before the position. */
  lemma RowsBefore(g: seq<byte>, c: nat, n: nat)
    requires RunsOver(g, c, n)
    ensures RowsBelow(Rows(g[..n + LineLength(g[n..])], 0), n)
  {
    hide Rows, LineLength;
    StraddledRows(g, c, n);
    RowsWithin(g[..c], 0);
  }

  /** It agrees with the rows from the beginning of the line exactly if it counted for nothing. */
  lemma InsideAgrees(g: seq<byte>, base: TranscriptLayout, c: nat, m: nat)
    requires RunsOver(g, c, base.fileLen) && m == base.fileLen + LineLength(g[base.fileLen..]) && m <= |g|
    requires EndsWithNewline(g[..m])
    ensures var n := base.fileLen; var a, row, r := Rows(g[..m], 0), Row(n, g[n..m]), Rows(g[m..], m);
            Extended(Extended(base, [row]), r) == Extended(Extended(EMPTY, a), r) <==>
              && KindOf(row) != Some(MessageLine) && KindOf(row) != Some(CompactionLine)
              && base.(fileLen := m) == Extended(EMPTY, a)
  {
    hide *;
    Ahead(g, c, base.fileLen);
    var n := base.fileLen;
    var a, row, r := Rows(g[..m], 0), Row(n, g[n..m]), Rows(g[m..], m);
    RowsSplit(g, m);
    LineEnd(g, n, m);
    RowLength(g, n, m);
    ExtendedByOne(base, row);
    WholeEnd(a);
    ExtendedCancel(Extended(base, [row]), Extended(EMPTY, a), r);
    RowsBefore(g, c, n);
    NoOffsetAt(base, n, a, row);
  }

  lemma StraddlesIs(g: seq<byte>, base: TranscriptLayout)
    requires base.fileLen < |g|
    ensures var n := base.fileLen; var m := n + LineLength(g[n..]); var rest := KindOf(Row(n, g[n..m]));
            StraddlesHarmlessly(g, base) <==>
              && EndsWithNewline(g[..m]) && ScanFile(g[..m]) == Ok(base.(fileLen := m))
              && AllText(Rows(g[n..], n)) && rest != Some(MessageLine) && rest != Some(CompactionLine)
  {
    hide ScanFile, LineLength, KindOf, AllText, Rows;
  }

  /** A line runs over the length of the old layout and is complete. */
  lemma RefreshInLine(g: seq<byte>, base: TranscriptLayout, c: nat)
    requires RunsOver(g, c, base.fileLen)
    requires var m := base.fileLen + LineLength(g[base.fileLen..]); EndsWithNewline(g[..m])
    ensures Refresh(Some(g), base) == ScanFile(g) <==>
            (!AllText(Rows(g, 0)) && !AllText(Rows(g[base.fileLen..], base.fileLen))) || StraddlesHarmlessly(g, base)
  {
    hide *;
    RunsOverIs(g, c, base.fileLen);
    var n := base.fileLen;
    var m := n + LineLength(g[n..]);
    Ahead(g, c, n);
    ScanSplit(g, m);
    RefreshFromInside(g, base, c, m);
    InsideAgrees(g, base, c, m);
    AllTextConcat(Rows(g[..m], 0), Rows(g[m..], m));
    AllTextConcat([Row(n, g[n..m])], Rows(g[m..], m));
    StraddlesIs(g, base);
  }

  lemma NoRowsLeft(offset: nat)
    ensures Rows([], offset) == []
  {}

  lemma TornReaches(g: seq<byte>, n: nat)
    requires n < |g| && !EndsWithNewline(g[..n + LineLength(g[n..])])
    ensures n + LineLength(g[n..]) == |g|
  {
    var k := LineLength(g[n..]);
    assert g[..n + k][n + k - 1] == g[n..][k - 1];
  }

  lemma TornEnd(g: seq<byte>, n: nat)
    requires n < |g| && !EndsWithNewline(g)
    ensures !Terminated(Row(n, g[n..]))
  {
    assert g[n..][|g| - n - 1] == g[|g| - 1];
  }

  lemma CompleteNotIn(g: seq<byte>, c: nat, n: nat)
    requires c < n <= |g| && NEWLINE !in g[c..n]
    ensures CompleteLength(g) != n
  {
    hide CompleteLength;
    assert g[..n][n - 1] == g[c..n][n - 1 - c];
  }

  /** A line runs over the length of the old layout to the end of the file. */
  lemma RefreshInTornLine(g: seq<byte>, base: TranscriptLayout, c: nat)
    requires RunsOver(g, c, base.fileLen)
    requires var m := base.fileLen + LineLength(g[base.fileLen..]); !EndsWithNewline(g[..m])
    ensures Refresh(Some(g), base) == ScanFile(g) <==>
            !AllText(Rows(g, 0)) && !AllText(Rows(g[base.fileLen..], base.fileLen))
  {
    hide Rows, Extended, AllText, EndOf, Refresh, LineLength, Terminated, KindOf, CompleteRows, CompleteLength;
    var n := base.fileLen;
    var m := n + LineLength(g[n..]);
    StraddledRows(g, c, n);
    TornReaches(g, n);
    assert g[m..] == [] && g[..m] == g;
    assert Rows(g[m..], m) == [] by { NoRowsLeft(m); }
    assert [Row(n, g[n..m])] + [] == [Row(n, g[n..m])];
    RefreshScansOn(g, base);
    ScanFromIs(g, base);
    TornEnd(g, n);
    ExtendedByOne(base, Row(n, g[n..m]));
    ScanIs(g);
    assert CompleteLength(g) != n by { CompleteNotIn(g, c, n); }
  }

  lemma Overrun(g: seq<byte>, n: nat)
    requires n < |g| && !EndsWithNewline(g[..n])
    ensures RunsOver(g, CompleteLength(g[..n]), n)
  {
    hide CompleteLength;
    var c := CompleteLength(g[..n]);
    assert g[..n][..c] == g[..c] && g[..n][c..] == g[c..n];
    assert g[..n][..n] == g[..n];
  }

  lemma TornNeverHarmless(g: seq<byte>, base: TranscriptLayout)
    requires base.fileLen < |g| && !EndsWithNewline(g[..base.fileLen + LineLength(g[base.fileLen..])])
    ensures !StraddlesHarmlessly(g, base)
  {
    hide ScanFile, LineLength, KindOf, AllText, Rows, EndsWithNewline;
  }

  lemma CompleteEnds(g: seq<byte>)
    requires !EndsWithNewline(g)
    ensures CompleteLength(g) < |g|
  {
    hide CompleteLength;
    assert g[..|g|] == g;
  }

  lemma RefreshAtTornEnd(g: seq<byte>, base: TranscriptLayout)
    requires base.fileLen == |g| && !EndsWithNewline(g[..|g|])
    ensures Refresh(Some(g), base) != ScanFile(g)
  {
    hide Rows, AllText, Extended, CompleteLength, CompleteRows, ScanFile;
    ScanIs(g);
    assert g[..|g|] == g;
    CompleteEnds(g);
  }

  /**
   * The exact reach of refresh_layout. For every file and every base layout,
   * refreshing gives what a scan from scratch gives if and only if the file is
   * shorter than the layout says, or the layout is that of the lines before
   * its length; in between, where a line runs over that length, the line must
   * count for nothing from there on. Two failing reads agree too.
   */
  lemma RefreshIsExact(g: seq<byte>, base: TranscriptLayout)
    ensures Refresh(Some(g), base) == ScanFile(g) <==> MayExtend(g, base)
  {
    hide Rows, AllText, ScanFile, LineLength, StraddlesHarmlessly, EndsWithNewline, CompleteLength;
    var n := base.fileLen;
    if n <= |g| {
      if EndsWithNewline(g[..n]) {
        hide Refresh;
        RefreshAtLineEnd(g, base);
      } else if n < |g| {
        hide Refresh;
        Overrun(g, n);
        var c := CompleteLength(g[..n]);
        if EndsWithNewline(g[..n + LineLength(g[n..])]) {
          RefreshInLine(g, base, c);
        } else {
          RefreshInTornLine(g, base, c);
          TornNeverHarmless(g, base);
        }
      } else {
        RefreshAtTornEnd(g, base);
      }
    }
  }

  // ----- files that keep what was scanned -----

  /** The newline-terminated part of f is still the beginning of g: appends, torn and completed tails. */
  predicate Keeps(f: seq<byte>, g: seq<byte>) {
    f[..CompleteLength(f)] <= g
  }

  lemma ScanPrefix(f: seq<byte>)
    requires AllText(Rows(f, 0))
    ensures ScanFile(f[..CompleteLength(f)]) == Ok(Extended(EMPTY, CompleteRows(f)))
  {
    hide Rows, AllText, Extended, CompleteLength, EndsWithNewline;
    ScanSplit(f, CompleteLength(f));
    AllTextConcat(CompleteRows(f), Rows(f[CompleteLength(f)..], CompleteLength(f)));
  }

  /**
   * A layout scanned from a file and refreshed while its complete lines stay
   * (whole appends, torn tails, completed and replaced tails) is what a scan
   * from scratch gives, read errors included.
   */
  lemma RefreshIsScan(f: seq<byte>, g: seq<byte>, base: TranscriptLayout)
    requires Keeps(f, g) && ScanFile(f) == Ok(base)
    ensures Refresh(Some(g), base) == ScanFile(g)
  {
    hide Rows, AllText, Refresh, CompleteRows, EndsWithNewline, Extended, AllTerminated;
    var n := CompleteLength(f);
    ScanIs(f);
    assert g[..n] == f[..n];
    ScanSplit(f, n);
    ScanPrefix(f);
    RefreshIsExact(g, base);
  }

  /** One refresh per file state, keeping the last layout when a read fails. */
  function Refreshes(cached: TranscriptLayout, files: seq<seq<byte>>): seq<Result<TranscriptLayout, ReadError>>
    decreases |files|
  {
    if files == [] then []
    else
      var r := Refresh(Some(files[0]), cached);
      [r] + Refreshes(if r.Ok? then r.value else cached, files[1..])
  }

  ghost predicate Growing(files: seq<seq<byte>>) {
    forall i, j :: 0 <= i < j < |files| ==> Keeps(files[i], files[j])
  }

  lemma GrowingTail(files: seq<seq<byte>>)
    requires Growing(files) && files != []
    ensures Growing(files[1..]) && forall k :: 0 <= k < |files[1..]| ==> Keeps(files[0], files[1..][k])
  {
    hide Keeps;
  }

  /** Over any run of file states that keep their complete lines, every refresh equals a scan from scratch. */
  lemma {:induction false} RefreshRun(g: seq<byte>, cached: TranscriptLayout, files: seq<seq<byte>>)
    requires ScanFile(g) == Ok(cached) && Growing(files)
    requires forall k :: 0 <= k < |files| ==> Keeps(g, files[k])
    ensures |Refreshes(cached, files)| == |files|
    ensures forall k :: 0 <= k < |files| ==> Refreshes(cached, files)[k] == ScanFile(files[k])
    decreases |files|
  {
    if files != [] {
      hide ScanFile, Refresh, Growing, Keeps;
      RefreshIsScan(g, files[0], cached);
      GrowingTail(files);
      var r := Refresh(Some(files[0]), cached);
      var rest := files[1..];
      RefreshRun(if r.Ok? then files[0] else g, if r.Ok? then r.value else cached, rest);
    }
  }

  // ----- the scanner -----

  lemma TornIsLast(bytes: seq<byte>, at: nat)
    requires at < |bytes| && !Terminated(RowAt(bytes, at))
    ensures at + |RowAt(bytes, at).text| == |bytes|
  {}

  lemma AllTerminatedNone()
    ensures AllTerminated([])
  {}

  lemma RowAtStarts(bytes: seq<byte>, at: nat)
    requires at < |bytes|
    ensures RowAt(bytes, at).offset == at
  {}

  lemma KindOfIs(row: Row)
    ensures KindOf(row) == SniffLine(TrimEnd(row.text))
  {}

  method ScanLayout(bytes: seq<byte>, base: TranscriptLayout) returns (r: Result<TranscriptLayout, ReadError>)
    requires base.fileLen <= |bytes|
    ensures r == ScanFrom(bytes, base)
  {
    hide *;
    var layout, at := base, base.fileLen;
    ghost var seen: seq<Row> := [];
    ReadNone(bytes, base.fileLen);
    ExtendedNone(base);
    ScanFromIs(bytes, base);
    AllTerminatedNone();
    while at < |bytes|
      invariant base.fileLen <= at <= |bytes| && Read(bytes, base.fileLen, at, seen)
      invariant AllTerminated(seen)
      invariant layout.(fileLen := at) == Extended(base, seen)
    {
      var row := ReadLine(bytes, at);
      ReadStep(bytes, base.fileLen, at, seen);
      if !ValidUtf8(row.text) {
        return Err(InvalidUtf8);
      }
      if !Terminated(row) {
        TornIsLast(bytes, at);
        ReadAll(bytes, base.fileLen, seen + [row]);
        ExtendedTorn(base, seen, row);
        layout := layout.(fileLen := at);
        return Ok(layout);
      }
      ExtendedSnoc(base, seen, row);
      RowAtStarts(bytes, at);
      KindOfIs(row);
      var kind := SniffLineKind(TrimEnd(row.text));
      if kind == Some(MessageLine) {
        layout := layout.(messageOffsets := layout.messageOffsets + [at]);
      } else if kind == Some(CompactionLine) {
        layout := layout.(compactionOffsets := layout.compactionOffsets + [at]);
      }
      seen := seen + [row];
      at := at + |row.text|;
    }
    ReadAll(bytes, base.fileLen, seen);
    layout := layout.(fileLen := at);
    return Ok(layout);
  }

  method RefreshLayout(file: Option<seq<byte>>, base: TranscriptLayout) returns (r: Result<TranscriptLayout, ReadError>)
    ensures r == Refresh(file, base)
  {
    if file.None? {
      return Ok(EMPTY);
    }
    var len := |file.value|;
    if len == base.fileLen {
      return Ok(base);
    }
    if len < base.fileLen {
      r := ScanLayout(file.value, EMPTY);
    } else {
      r := ScanLayout(file.value, base);
    }
  }
}
