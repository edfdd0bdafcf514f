/**
 * The window reader that seeks by a layout, and its agreement with the
 * sequential reader (crates/host-core/src/transcripts.rs).
 */
module Seek {
  import opened Wrappers
  import opened Naturals
  import opened Bytes
  import opened Sniff
  import opened Utf8
  import opened Transcript
  import opened Layout

  /** One offset to visit, and which kind of line it holds. */
  datatype Wanted = Wanted(offset: nat, isMessage: bool)

  function Tag(offsets: seq<nat>, isMessage: bool): seq<Wanted> {
    if offsets == [] then [] else [Wanted(offsets[0], isMessage)] + Tag(offsets[1..], isMessage)
  }

  function Insert(x: Wanted, s: seq<Wanted>): seq<Wanted> {
    if s == [] then [x]
    else if x.offset <= s[0].offset then [x] + s
    else [s[0]] + Insert(x, s[1..])
  }

  /** The offsets in ascending order, so that one reader passes over the file once. */
  function SortByOffset(s: seq<Wanted>): seq<Wanted> {
    if s == [] then [] else Insert(s[0], SortByOffset(s[1..]))
  }

  /** The rows found at the offsets of one kind; an offset past the end finds nothing. */
  function RowsFor(file: seq<byte>, wanted: seq<Wanted>, isMessage: bool): seq<Row> {
    if wanted == [] then []
    else
      var last := wanted[|wanted| - 1];
      RowsFor(file, wanted[..|wanted| - 1], isMessage) +
      (if last.isMessage == isMessage && last.offset < |file| then [RowAt(file, last.offset)] else [])
  }

  predicate AllReadable(file: seq<byte>, wanted: seq<Wanted>) {
    forall k :: 0 <= k < |wanted| && wanted[k].offset < |file| ==> ValidUtf8(RowAt(file, wanted[k].offset).text)
  }

  function WantedOf(layout: TranscriptLayout, start: nat, limit: Option<nat>): seq<Wanted> {
    SortByOffset(Tag(Window(layout.messageOffsets, start, limit), true) + Tag(layout.compactionOffsets, false))
  }

  function SeekRead<M, C>(file: Option<seq<byte>>, layout: TranscriptLayout, decodeM: seq<byte> -> Option<M>,
                          decodeC: seq<byte> -> Option<C>, start: nat, limit: Option<nat>)
    : Result<TranscriptRead<M, C>, ReadError>
  {
    var wanted := WantedOf(layout, start, limit);
    if wanted == [] || file.None? then Ok(TranscriptRead([], []))
    else if !AllReadable(file.value, wanted) then Err(InvalidUtf8)
    else Ok(TranscriptRead(Decoded(decodeM, RowsFor(file.value, wanted, true)),
                           Decoded(decodeC, RowsFor(file.value, wanted, false))))
  }

  // ----- sorting keeps the order of each kind -----

  function Pick(s: seq<Wanted>, isMessage: bool): seq<nat> {
    if s == [] then []
    else if s[0].isMessage == isMessage then [s[0].offset] + Pick(s[1..], isMessage)
    else Pick(s[1..], isMessage)
  }

  ghost predicate Ascending(offsets: seq<nat>) {
    forall i, j :: 0 <= i < j < |offsets| ==> offsets[i] < offsets[j]
  }

  lemma PickFirst(wanted: seq<Wanted>, isMessage: bool)
    requires wanted != [] && wanted[0].isMessage == isMessage
    ensures Pick(wanted, isMessage) != [] && Pick(wanted, isMessage)[0] == wanted[0].offset
    ensures Pick(wanted, isMessage)[1..] == Pick(wanted[1..], isMessage)
  {}

  lemma {:induction false} InsertPicks(x: Wanted, s: seq<Wanted>, isMessage: bool)
    requires forall k :: 0 <= k < |Pick(s, x.isMessage)| ==> x.offset <= Pick(s, x.isMessage)[k]
    ensures Pick(Insert(x, s), isMessage) ==
            if x.isMessage == isMessage then [x.offset] + Pick(s, isMessage) else Pick(s, isMessage)
  {
    if s == [] || x.offset <= s[0].offset {
      assert ([x] + s)[1..] == s;
      if s == [] { assert [x][1..] == []; }
    } else {
      PickFirst(s, s[0].isMessage);
      assert s[0].isMessage != x.isMessage;
      assert Pick(s, x.isMessage) == Pick(s[1..], x.isMessage);
      InsertPicks(x, s[1..], isMessage);
      assert ([s[0]] + Insert(x, s[1..]))[1..] == Insert(x, s[1..]);
    }
  }

  lemma PickTail(s: seq<Wanted>, isMessage: bool)
    requires s != [] && Ascending(Pick(s, isMessage))
    ensures Ascending(Pick(s[1..], isMessage))
    ensures s[0].isMessage == isMessage ==>
              forall k :: 0 <= k < |Pick(s[1..], isMessage)| ==> s[0].offset < Pick(s[1..], isMessage)[k]
  {
    var rest := Pick(s[1..], isMessage);
    if s[0].isMessage == isMessage {
      var all := Pick(s, isMessage);
      assert all == [s[0].offset] + rest;
      forall i, j | 0 <= i < j < |rest| ensures rest[i] < rest[j] {
        assert all[i + 1] == rest[i] && all[j + 1] == rest[j];
      }
      forall k | 0 <= k < |rest| ensures s[0].offset < rest[k] {
        assert all[0] == s[0].offset && all[k + 1] == rest[k];
      }
    }
  }

  lemma {:induction false} SortPicks(s: seq<Wanted>, isMessage: bool)
    requires Ascending(Pick(s, true)) && Ascending(Pick(s, false))
    ensures Pick(SortByOffset(s), isMessage) == Pick(s, isMessage)
  {
    if s != [] {
      PickTail(s, true);
      PickTail(s, false);
      SortPicks(s[1..], s[0].isMessage);
      SortPicks(s[1..], isMessage);
      InsertPicks(s[0], SortByOffset(s[1..]), isMessage);
    }
  }

  lemma {:induction false} InsertIsForward(x: Wanted, s: seq<Wanted>)
    requires forall i, j :: 0 <= i < j < |s| ==> s[i].offset <= s[j].offset
    ensures var t := Insert(x, s);
            && |t| == |s| + 1
            && (forall k :: 0 <= k < |t| ==> t[k] == x || t[k] in s)
            && (forall i, j :: 0 <= i < j < |t| ==> t[i].offset <= t[j].offset)
  {
    if s != [] && x.offset > s[0].offset {
      InsertIsForward(x, s[1..]);
      var t := Insert(x, s[1..]);
      forall k | 0 <= k < |t| ensures s[0].offset <= t[k].offset {
        if t[k] != x {
          var i :| 0 <= i < |s[1..]| && s[1..][i] == t[k];
          assert s[i + 1] == t[k];
        }
      }
    }
  }

  lemma {:induction false} InsertAdds(x: Wanted, s: seq<Wanted>)
    ensures multiset(Insert(x, s)) == multiset(s) + multiset{x}
  {
    if s != [] {
      assert s == [s[0]] + s[1..];
      InsertAdds(x, s[1..]);
    }
  }

  /** The reader moves forward only, over exactly the wanted offsets. */
  lemma {:induction false} SortIsForward(s: seq<Wanted>)
    ensures var t := SortByOffset(s);
            && multiset(t) == multiset(s) && |t| == |s|
            && forall i, j :: 0 <= i < j < |t| ==> t[i].offset <= t[j].offset
  {
    if s != [] {
      assert s == [s[0]] + s[1..];
      SortIsForward(s[1..]);
      hide Insert;
      InsertIsForward(s[0], SortByOffset(s[1..]));
      InsertAdds(s[0], SortByOffset(s[1..]));
    }
  }

  lemma PickCons(x: Wanted, t: seq<Wanted>, isMessage: bool)
    ensures Pick([x] + t, isMessage) ==
            if x.isMessage == isMessage then [x.offset] + Pick(t, isMessage) else Pick(t, isMessage)
  {
    assert ([x] + t)[1..] == t;
  }

  lemma FrontOne<T>(x: T, a: seq<T>, b: seq<T>)
    ensures [x] + a + b == [x] + (a + b)
  {}

  lemma {:induction false} TagPicks(offsets: seq<nat>, flag: bool, rest: seq<Wanted>, isMessage: bool)
    ensures Pick(Tag(offsets, flag) + rest, isMessage) ==
            if flag == isMessage then offsets + Pick(rest, isMessage) else Pick(rest, isMessage)
  {
    if offsets == [] {
      assert Tag(offsets, flag) + rest == rest;
    } else {
      var x, later := Wanted(offsets[0], flag), offsets[1..];
      var tagged := Tag(later, flag);
      assert Tag(offsets, flag) == [x] + tagged;
      hide *;
      TagPicks(later, flag, rest, isMessage);
      FrontOne(x, tagged, rest);
      PickCons(x, tagged + rest, isMessage);
      FrontOne(offsets[0], later, Pick(rest, isMessage));
      assert offsets == [offsets[0]] + later;
    }
  }

  lemma BothPicks(ms: seq<nat>, cs: seq<nat>, isMessage: bool)
    ensures Pick(Tag(ms, true) + Tag(cs, false), isMessage) == if isMessage then ms else cs
  {
    assert Pick([], isMessage) == [];
    hide *;
    assert Tag(cs, false) + [] == Tag(cs, false) && cs + [] == cs && ms + [] == ms;
    TagPicks(ms, true, Tag(cs, false), isMessage);
    TagPicks(cs, false, [], isMessage);
  }

  lemma WindowAscends(offsets: seq<nat>, start: nat, limit: Option<nat>)
    requires Ascending(offsets)
    ensures Ascending(Window(offsets, start, limit))
  {}

  lemma WantedPicks(layout: TranscriptLayout, start: nat, limit: Option<nat>)
    requires Ascending(layout.messageOffsets) && Ascending(layout.compactionOffsets)
    ensures Pick(WantedOf(layout, start, limit), true) == Window(layout.messageOffsets, start, limit)
    ensures Pick(WantedOf(layout, start, limit), false) == layout.compactionOffsets
  {
    var ms, cs := Window(layout.messageOffsets, start, limit), layout.compactionOffsets;
    var all := Tag(ms, true) + Tag(cs, false);
    WindowAscends(layout.messageOffsets, start, limit);
    hide Pick, Tag, Window, Ascending, SortByOffset;
    BothPicks(ms, cs, true);
    BothPicks(ms, cs, false);
    SortPicks(all, true);
    SortPicks(all, false);
  }

  // ----- the rows behind the offsets -----

  /** The row at each offset that lies in the file. */
  function RowsAtOffsets(file: seq<byte>, offsets: seq<nat>): seq<Row> {
    if offsets == [] then []
    else (if offsets[0] < |file| then [RowAt(file, offsets[0])] else []) + RowsAtOffsets(file, offsets[1..])
  }

  lemma {:induction false} RowsForSplit(file: seq<byte>, wanted: seq<Wanted>, isMessage: bool)
    requires wanted != []
    ensures RowsFor(file, wanted, isMessage) ==
            (if wanted[0].isMessage == isMessage && wanted[0].offset < |file| then [RowAt(file, wanted[0].offset)] else []) +
            RowsFor(file, wanted[1..], isMessage)
  {
    hide RowAt;
    if |wanted| > 1 {
      var front := wanted[..|wanted| - 1];
      RowsForSplit(file, front, isMessage);
      assert front[1..] == wanted[1..][..|wanted| - 2];
    }
  }

  lemma {:induction false} RowsForPicks(file: seq<byte>, wanted: seq<Wanted>, isMessage: bool)
    ensures RowsFor(file, wanted, isMessage) == RowsAtOffsets(file, Pick(wanted, isMessage))
  {
    hide RowAt;
    if wanted != [] {
      RowsForSplit(file, wanted, isMessage);
      RowsForPicks(file, wanted[1..], isMessage);
      if wanted[0].isMessage == isMessage {
        PickFirst(wanted, isMessage);
      }
    }
  }

  /** row is what a reader finds in the file at row's own offset. */
  predicate Sits(file: seq<byte>, row: Row) {
    row.offset < |file| && RowAt(file, row.offset) == row
  }

  /** Rows in file order from position at on, each where it says. */
  ghost predicate InOrder(file: seq<byte>, rows: seq<Row>, at: nat) {
    && (forall k :: 0 <= k < |rows| ==> Sits(file, rows[k]) && at <= rows[k].offset)
    && (forall i, j :: 0 <= i < j < |rows| ==> rows[i].offset < rows[j].offset)
  }

  lemma InOrderCons(file: seq<byte>, row: Row, rest: seq<Row>, next: nat)
    requires Sits(file, row) && InOrder(file, rest, next) && row.offset < next
    ensures InOrder(file, [row] + rest, row.offset)
  {
    hide Sits;
    var rows := [row] + rest;
    assert forall k :: 0 < k < |rows| ==> rows[k] == rest[k - 1];
  }

  lemma RowAtSits(file: seq<byte>, at: nat)
    requires at < |file|
    ensures Sits(file, RowAt(file, at)) && RowAt(file, at).offset == at < at + LineLength(file[at..])
  {}

  lemma NothingSits(file: seq<byte>)
    ensures InOrder(file, Rows(file[|file|..], |file|), |file|)
  {}

  lemma {:induction false} RowsSit(file: seq<byte>, at: nat)
    requires at <= |file|
    ensures InOrder(file, Rows(file[at..], at), at)
    decreases |file| - at
  {
    hide *;
    if at == |file| {
      NothingSits(file);
    } else {
      var next := at + LineLength(file[at..]);
      RowsAt(file, at);
      RowsSit(file, next);
      RowAtSits(file, at);
      InOrderCons(file, RowAt(file, at), Rows(file[next..], next), next);
    }
  }

  lemma {:induction false} OfKindSubset(rows: seq<Row>, kind: LineKind)
    ensures forall r :: r in OfKind(rows, kind) ==> r in rows
  {
    hide KindOf;
    if rows != [] { OfKindSubset(rows[..|rows| - 1], kind); }
  }

  lemma KeptBeforeLast(file: seq<byte>, rows: seq<Row>, kept: seq<Row>, at: nat)
    requires rows != [] && InOrder(file, rows, at) && InOrder(file, kept, at)
    requires forall r :: r in kept ==> r in rows[..|rows| - 1]
    ensures InOrder(file, kept + [rows[|rows| - 1]], at)
  {
    hide Sits;
    var last := rows[|rows| - 1];
    forall k | 0 <= k < |kept| ensures kept[k].offset < last.offset {
      assert kept[k] in kept;
      var i :| 0 <= i < |rows| - 1 && rows[i] == kept[k];
    }
  }

  lemma {:induction false} OfKindInOrder(file: seq<byte>, rows: seq<Row>, kind: LineKind, at: nat)
    requires InOrder(file, rows, at)
    ensures InOrder(file, OfKind(rows, kind), at)
  {
    hide Sits, KindOf;
    if rows != [] {
      var front, last := rows[..|rows| - 1], rows[|rows| - 1];
      OfKindInOrder(file, front, kind, at);
      OfKindSubset(front, kind);
      KeptBeforeLast(file, rows, OfKind(front, kind), at);
    }
  }

  lemma {:induction false} OffsetsAt(rows: seq<Row>)
    ensures |Offsets(rows)| == |rows|
    ensures forall k :: 0 <= k < |rows| ==> Offsets(rows)[k] == rows[k].offset
  {
    if rows != [] { OffsetsAt(rows[..|rows| - 1]); }
  }

  lemma InOrderTail(file: seq<byte>, rows: seq<Row>)
    requires rows != [] && InOrder(file, rows, 0)
    ensures InOrder(file, rows[1..], 0) && rows[0].offset < |file| && RowAt(file, rows[0].offset) == rows[0]
    ensures rows == [rows[0]] + rows[1..]
  {
    assert Sits(file, rows[0]);
    hide Sits;
    assert forall k :: 0 <= k < |rows[1..]| ==> rows[1..][k] == rows[k + 1];
  }

  lemma OffsetsTail(rows: seq<Row>)
    requires rows != []
    ensures Offsets(rows) != [] && Offsets(rows)[0] == rows[0].offset && Offsets(rows)[1..] == Offsets(rows[1..])
  {
    hide Offsets;
    OffsetsAt(rows);
    OffsetsAt(rows[1..]);
  }

  lemma {:induction false} RowsAtOwnOffsets(file: seq<byte>, rows: seq<Row>)
    requires InOrder(file, rows, 0)
    ensures RowsAtOffsets(file, Offsets(rows)) == rows
  {
    if rows != [] {
      hide Offsets, InOrder, RowAt;
      InOrderTail(file, rows);
      OffsetsTail(rows);
      RowsAtOwnOffsets(file, rows[1..]);
    }
  }

  lemma WindowOffsets(rows: seq<Row>, start: nat, limit: Option<nat>)
    ensures Window(Offsets(rows), start, limit) == Offsets(Window(rows, start, limit))
  {
    hide Offsets;
    OffsetsAt(rows);
    OffsetsAt(Window(rows, start, limit));
  }

  lemma WindowInOrder(file: seq<byte>, rows: seq<Row>, start: nat, limit: Option<nat>)
    requires InOrder(file, rows, 0)
    ensures InOrder(file, Window(rows, start, limit), 0)
  {
    hide Sits;
    var w := Window(rows, start, limit);
    var from := Min(start, |rows|);
    assert forall k :: 0 <= k < |w| ==> w[k] == rows[from + k];
  }

  lemma InOrderAscends(file: seq<byte>, rows: seq<Row>)
    requires InOrder(file, rows, 0)
    ensures Ascending(Offsets(rows))
  {
    hide Sits, Offsets;
    OffsetsAt(rows);
  }

  lemma LayoutOffsets(file: seq<byte>, layout: TranscriptLayout)
    requires ScanFile(file) == Ok(layout)
    ensures layout.messageOffsets == Offsets(OfKind(CompleteRows(file), MessageLine))
    ensures layout.compactionOffsets == Offsets(OfKind(CompleteRows(file), CompactionLine))
  {
    hide ScanFile, OfKind, Offsets, CompleteRows;
    ScanIs(file);
    CompleteRowsTerminated(file);
    WholeConcat(CompleteRows(file), []);
  }

  lemma InOrderPrefix(file: seq<byte>, a: seq<Row>, b: seq<Row>)
    requires InOrder(file, a + b, 0)
    ensures InOrder(file, a, 0)
  {
    hide Sits;
    assert forall k :: 0 <= k < |a| ==> (a + b)[k] == a[k];
  }

  lemma FileInOrder(file: seq<byte>)
    ensures InOrder(file, CompleteRows(file), 0)
  {
    hide *;
    assert file[0..] == file;
    RowsSit(file, 0);
    FileIs(file);
    InOrderPrefix(file, CompleteRows(file), TornRow(file));
  }

  lemma CompleteInOrder(file: seq<byte>, kind: LineKind)
    ensures InOrder(file, OfKind(CompleteRows(file), kind), 0)
  {
    hide *;
    FileInOrder(file);
    OfKindInOrder(file, CompleteRows(file), kind, 0);
  }

  /** By the layout of a file, the seeking reader finds the window of its complete rows. */
  lemma SeekFinds(file: seq<byte>, layout: TranscriptLayout, start: nat, limit: Option<nat>)
    requires ScanFile(file) == Ok(layout)
    ensures RowsFor(file, WantedOf(layout, start, limit), true) ==
            Window(OfKind(CompleteRows(file), MessageLine), start, limit)
    ensures RowsFor(file, WantedOf(layout, start, limit), false) == OfKind(CompleteRows(file), CompactionLine)
  {
    hide *;
    var ms, cs := OfKind(CompleteRows(file), MessageLine), OfKind(CompleteRows(file), CompactionLine);
    LayoutOffsets(file, layout);
    CompleteInOrder(file, MessageLine);
    CompleteInOrder(file, CompactionLine);
    InOrderAscends(file, ms);
    InOrderAscends(file, cs);
    WantedPicks(layout, start, limit);
    WindowOffsets(ms, start, limit);
    WindowInOrder(file, ms, start, limit);
    RowsAtOwnOffsets(file, Window(ms, start, limit));
    RowsAtOwnOffsets(file, cs);
    RowsForPicks(file, WantedOf(layout, start, limit), true);
    RowsForPicks(file, WantedOf(layout, start, limit), false);
  }

  // ----- agreement -----

  /** The torn last line is a record after all, and inside the window: only the sequential reader shows it. */
  predicate TailShows<M, C>(file: seq<byte>, layout: TranscriptLayout, decodeM: seq<byte> -> Option<M>,
                            decodeC: seq<byte> -> Option<C>, start: nat, limit: Option<nat>) {
    var torn := TornRow(file);
    torn != [] &&
    match KindOf(torn[0])
    case Some(MessageLine) => Selected(|layout.messageOffsets|, start, limit) && decodeM(Trim(torn[0].text)).Some?
    case Some(CompactionLine) => decodeC(Trim(torn[0].text)).Some?
    case _ => false
  }

  /** The readers before the torn line is considered. */
  function Common<M, C>(file: seq<byte>, decodeM: seq<byte> -> Option<M>, decodeC: seq<byte> -> Option<C>,
                        start: nat, limit: Option<nat>): TranscriptRead<M, C> {
    TranscriptRead(Decoded(decodeM, Window(OfKind(CompleteRows(file), MessageLine), start, limit)),
                   Decoded(decodeC, OfKind(CompleteRows(file), CompactionLine)))
  }

  lemma DecodedNone<T>(decode: seq<byte> -> Option<T>)
    ensures Decoded(decode, []) == []
  {}

  lemma {:induction false} RowsForHas(file: seq<byte>, wanted: seq<Wanted>, k: nat)
    requires k < |wanted| && wanted[k].offset < |file|
    ensures RowAt(file, wanted[k].offset) in RowsFor(file, wanted, wanted[k].isMessage)
  {
    hide RowAt;
    if k < |wanted| - 1 { RowsForHas(file, wanted[..|wanted| - 1], k); }
  }

  lemma RowIsComplete(file: seq<byte>, layout: TranscriptLayout, row: Row, start: nat, limit: Option<nat>)
    requires ScanFile(file) == Ok(layout)
    requires row in Window(OfKind(CompleteRows(file), MessageLine), start, limit) ||
             row in OfKind(CompleteRows(file), CompactionLine)
    ensures ValidUtf8(row.text)
  {
    hide ScanFile, OfKind, CompleteRows, ValidUtf8;
    var rows := CompleteRows(file);
    OfKindSubset(rows, MessageLine);
    OfKindSubset(rows, CompactionLine);
    assert row in rows;
    ScanIs(file);
    FileIs(file);
    AllTextConcat(rows, TornRow(file));
  }

  /** Everything a layout points to can be read. */
  lemma WantedReadable(file: seq<byte>, layout: TranscriptLayout, start: nat, limit: Option<nat>)
    requires ScanFile(file) == Ok(layout)
    ensures AllReadable(file, WantedOf(layout, start, limit))
  {
    hide ScanFile, OfKind, CompleteRows, RowAt, ValidUtf8, WantedOf;
    var wanted := WantedOf(layout, start, limit);
    SeekFinds(file, layout, start, limit);
    forall k | 0 <= k < |wanted| && wanted[k].offset < |file|
      ensures ValidUtf8(RowAt(file, wanted[k].offset).text)
    {
      RowsForHas(file, wanted, k);
      var row := RowAt(file, wanted[k].offset);
      RowIsComplete(file, layout, row, start, limit);
    }
  }

  lemma SeekIsCommon<M, C>(file: seq<byte>, layout: TranscriptLayout, decodeM: seq<byte> -> Option<M>,
                           decodeC: seq<byte> -> Option<C>, start: nat, limit: Option<nat>)
    requires ScanFile(file) == Ok(layout)
    ensures SeekRead(Some(file), layout, decodeM, decodeC, start, limit) == Ok(Common(file, decodeM, decodeC, start, limit))
  {
    hide ScanFile, WantedOf, OfKind, Window, CompleteRows, Decoded, AllReadable;
    SeekFinds(file, layout, start, limit);
    WantedReadable(file, layout, start, limit);
    DecodedNone(decodeM);
    DecodedNone(decodeC);
  }

  /** What one more row changes for the sequential reader. */
  lemma SequentialTorn<M, C>(rows: seq<Row>, row: Row, decodeM: seq<byte> -> Option<M>,
                             decodeC: seq<byte> -> Option<C>, start: nat, limit: Option<nat>)
    ensures var ms, cs := Decoded(decodeM, Window(OfKind(rows, MessageLine), start, limit)), Decoded(decodeC, OfKind(rows, CompactionLine));
            var ms2 := Decoded(decodeM, Window(OfKind(rows + [row], MessageLine), start, limit));
            var cs2 := Decoded(decodeC, OfKind(rows + [row], CompactionLine));
            && (ms2 == ms <==> !(KindOf(row) == Some(MessageLine) && Selected(|OfKind(rows, MessageLine)|, start, limit) &&
                                 decodeM(Trim(row.text)).Some?))
            && (cs2 == cs <==> !(KindOf(row) == Some(CompactionLine) && decodeC(Trim(row.text)).Some?))
  {
    hide OfKind, Decoded, Window, Trim, KindOf, Selected;
    OfKindSnoc(rows, row, MessageLine);
    OfKindSnoc(rows, row, CompactionLine);
    WindowSnoc(OfKind(rows, MessageLine), row, start, limit);
    DecodedSnoc(decodeM, Window(OfKind(rows, MessageLine), start, limit), row);
    DecodedSnoc(decodeC, OfKind(rows, CompactionLine), row);
  }

  lemma SequentialOver<M, C>(file: seq<byte>, layout: TranscriptLayout, decodeM: seq<byte> -> Option<M>,
                             decodeC: seq<byte> -> Option<C>, start: nat, limit: Option<nat>)
    requires AllText(Rows(file, 0)) && Rows(file, 0) == CompleteRows(file) + TornRow(file) && |TornRow(file)| <= 1
    requires |layout.messageOffsets| == |OfKind(CompleteRows(file), MessageLine)|
    ensures var common := Common(file, decodeM, decodeC, start, limit);
            var r := ReadRows(Rows(file, 0), decodeM, decodeC, start, limit);
            r.Ok? && (r.value == common <==> !TailShows(file, layout, decodeM, decodeC, start, limit))
  {
    hide CompleteRows, Rows, TornRow, OfKind, Decoded, Window, Trim, KindOf, AllText, Selected;
    var rows, torn := CompleteRows(file), TornRow(file);
    if torn == [] {
      assert rows + torn == rows;
    } else {
      assert torn == [torn[0]];
      SequentialTorn(rows, torn[0], decodeM, decodeC, start, limit);
    }
  }

  lemma TornIsOne(file: seq<byte>)
    ensures |TornRow(file)| <= 1
  {}

  lemma SequentialIs<M, C>(file: seq<byte>, layout: TranscriptLayout, decodeM: seq<byte> -> Option<M>,
                           decodeC: seq<byte> -> Option<C>, start: nat, limit: Option<nat>)
    requires ScanFile(file) == Ok(layout)
    ensures var common := Common(file, decodeM, decodeC, start, limit);
            var r := ReadRows(Rows(file, 0), decodeM, decodeC, start, limit);
            r.Ok? && (r.value == common <==> !TailShows(file, layout, decodeM, decodeC, start, limit))
  {
    hide *;
    ScanIs(file);
    FileIs(file);
    LayoutOffsets(file, layout);
    OffsetsAt(OfKind(CompleteRows(file), MessageLine));
    TornIsOne(file);
    SequentialOver(file, layout, decodeM, decodeC, start, limit);
  }

  /**
   * For every file, start and limit: by a layout scanned from the file, the
   * seeking reader returns what the sequential reader returns, if and only if
   * the unterminated last line, if any, is not a selected record. So they agree
   * on newline-terminated files and on files whose torn tail does not decode.
   */
  lemma ReadersAgree<M, C>(file: seq<byte>, layout: TranscriptLayout, decodeM: seq<byte> -> Option<M>,
                           decodeC: seq<byte> -> Option<C>, start: nat, limit: Option<nat>)
    requires ScanFile(file) == Ok(layout)
    ensures SeekRead(Some(file), layout, decodeM, decodeC, start, limit) ==
              ReadRows(FileRows(Some(file)), decodeM, decodeC, start, limit) <==>
            !TailShows(file, layout, decodeM, decodeC, start, limit)
  {
    hide SeekRead, ReadRows, TailShows, Common, ScanFile;
    SeekIsCommon(file, layout, decodeM, decodeC, start, limit);
    SequentialIs(file, layout, decodeM, decodeC, start, limit);
  }

  // ----- the implementation -----

  ghost predicate Gathered<M, C>(file: seq<byte>, seen: seq<Wanted>, messages: seq<M>, compactions: seq<C>,
                                 decodeM: seq<byte> -> Option<M>, decodeC: seq<byte> -> Option<C>) {
    && AllReadable(file, seen)
    && messages == Decoded(decodeM, RowsFor(file, seen, true))
    && compactions == Decoded(decodeC, RowsFor(file, seen, false))
  }

  lemma RowsForSnoc(file: seq<byte>, seen: seq<Wanted>, w: Wanted, isMessage: bool)
    ensures RowsFor(file, seen + [w], isMessage) ==
            if w.isMessage == isMessage && w.offset < |file| then RowsFor(file, seen, isMessage) + [RowAt(file, w.offset)]
            else RowsFor(file, seen, isMessage)
  {
    hide RowAt;
    assert (seen + [w])[..|seen|] == seen;
  }

  lemma ReadableSnoc(file: seq<byte>, seen: seq<Wanted>, w: Wanted)
    ensures AllReadable(file, seen + [w]) <==>
            AllReadable(file, seen) && (w.offset < |file| ==> ValidUtf8(RowAt(file, w.offset).text))
  {
    hide RowAt, ValidUtf8;
    var all := seen + [w];
    assert all[|seen|] == w;
    assert forall k :: 0 <= k < |seen| ==> all[k] == seen[k];
  }

  lemma ReadablePrefix(file: seq<byte>, wanted: seq<Wanted>, n: nat)
    requires n <= |wanted| && !AllReadable(file, wanted[..n])
    ensures !AllReadable(file, wanted)
  {
    hide RowAt, ValidUtf8;
    assert forall k :: 0 <= k < n ==> wanted[..n][k] == wanted[k];
  }

  /** One stop of the forward pass: seek, read a line, decode it as what it was wanted for. */
  method Visit<M, C>(file: seq<byte>, w: Wanted, messages: seq<M>, compactions: seq<C>,
                     decodeM: seq<byte> -> Option<M>, decodeC: seq<byte> -> Option<C>, ghost seen: seq<Wanted>)
    returns (ok: bool, messages2: seq<M>, compactions2: seq<C>)
    requires Gathered(file, seen, messages, compactions, decodeM, decodeC)
    ensures ok ==> Gathered(file, seen + [w], messages2, compactions2, decodeM, decodeC)
    ensures !ok ==> !AllReadable(file, seen + [w])
  {
    hide AllReadable, RowsFor, Decoded, RowAt, ValidUtf8, Trim, TakeOne;
    messages2, compactions2 := messages, compactions;
    ReadableSnoc(file, seen, w);
    RowsForSnoc(file, seen, w, true);
    RowsForSnoc(file, seen, w, false);
    if w.offset >= |file| {
      return true, messages2, compactions2;
    }
    var row := ReadLine(file, w.offset);
    if !ValidUtf8(row.text) {
      return false, messages2, compactions2;
    }
    if w.isMessage {
      DecodedSnoc(decodeM, RowsFor(file, seen, true), row);
      messages2 := TakeOne(messages, decodeM, row);
    } else {
      DecodedSnoc(decodeC, RowsFor(file, seen, false), row);
      compactions2 := TakeOne(compactions, decodeC, row);
    }
    ok := true;
  }

  lemma GatheredNone<M, C>(file: seq<byte>, decodeM: seq<byte> -> Option<M>, decodeC: seq<byte> -> Option<C>)
    ensures Gathered<M, C>(file, [], [], [], decodeM, decodeC)
  {}

  lemma GatheredAll<M, C>(file: seq<byte>, seen: seq<Wanted>, messages: seq<M>, compactions: seq<C>,
                          decodeM: seq<byte> -> Option<M>, decodeC: seq<byte> -> Option<C>)
    requires Gathered(file, seen, messages, compactions, decodeM, decodeC)
    ensures AllReadable(file, seen)
    ensures messages == Decoded(decodeM, RowsFor(file, seen, true))
    ensures compactions == Decoded(decodeC, RowsFor(file, seen, false))
  {}

  method ReadWindowWithLayout<M, C>(file: Option<seq<byte>>, layout: TranscriptLayout, decodeM: seq<byte> -> Option<M>,
                                    decodeC: seq<byte> -> Option<C>, start: nat, limit: Option<nat>)
    returns (r: Result<TranscriptRead<M, C>, ReadError>)
    ensures r == SeekRead(file, layout, decodeM, decodeC, start, limit)
  {
    hide WantedOf, Gathered, AllReadable, RowsFor, Decoded;
    var wanted := WantedOf(layout, start, limit);
    if wanted == [] || file.None? {
      return Ok(TranscriptRead([], []));
    }
    var bytes := file.value;
    var messages: seq<M>, compactions: seq<C> := [], [];
    GatheredNone(bytes, decodeM, decodeC);
    for k := 0 to |wanted|
      invariant Gathered(bytes, wanted[..k], messages, compactions, decodeM, decodeC)
    {
      var ok;
      assert wanted[..k + 1] == wanted[..k] + [wanted[k]];
      ok, messages, compactions := Visit(bytes, wanted[k], messages, compactions, decodeM, decodeC, wanted[..k]);
      if !ok {
        ReadablePrefix(bytes, wanted, k + 1);
        return Err(InvalidUtf8);
      }
    }
    assert wanted[..|wanted|] == wanted;
    GatheredAll(bytes, wanted, messages, compactions, decodeM, decodeC);
    return Ok(TranscriptRead(messages, compactions));
  }
}
