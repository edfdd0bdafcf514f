/**
 * What a window of messages is, for both readers: positions count the message
 * lines of the file, and pages that follow one another join
 * (crates/host-core/src/transcripts.rs).
 */
module Pages {
  import opened Wrappers
  import opened Bytes
  import opened Json
  import opened Sniff
  import opened Utf8
  import opened LogFile
  import opened Transcript
  import opened Layout
  import opened Seek
  import opened CrashSafety

  /** What each message line decodes to, in file order; a line that is rejected has its position too. */
  function MessageLines<M>(decode: seq<byte> -> Option<M>, rows: seq<Row>): seq<Option<M>> {
    if rows == [] then []
    else
      var last := rows[|rows| - 1];
      MessageLines(decode, rows[..|rows| - 1]) + (if KindOf(last) == Some(MessageLine) then [decode(Trim(last.text))] else [])
  }

  function Present<M>(lines: seq<Option<M>>): seq<M> {
    if lines == [] then []
    else
      var last := lines[|lines| - 1];
      Present(lines[..|lines| - 1]) + (if last.Some? then [last.value] else [])
  }

  /** The page holds the elements of all from position start on: limit of them, or all that are left. */
  predicate IsPage<T(==)>(page: seq<T>, all: seq<T>, start: nat, limit: Option<nat>) {
    && |page| == (if start >= |all| then 0
                  else if limit.Some? && start + limit.value <= |all| then limit.value
                  else |all| - start)
    && forall i :: 0 <= i < |page| ==> page[i] == all[start + i]
  }

  // ----- lines and rows -----

  function Outcomes<M>(decode: seq<byte> -> Option<M>, rows: seq<Row>): (lines: seq<Option<M>>)
    ensures |lines| == |rows|
    ensures forall k :: 0 <= k < |rows| ==> lines[k] == decode(Trim(rows[k].text))
  {
    seq(|rows|, k requires 0 <= k < |rows| => decode(Trim(rows[k].text)))
  }

  lemma OutcomesSnoc<M>(decode: seq<byte> -> Option<M>, rows: seq<Row>, row: Row)
    ensures Outcomes(decode, rows + [row]) == Outcomes(decode, rows) + [decode(Trim(row.text))]
  {
    hide Trim;
  }

  lemma {:induction false} LinesAreOutcomes<M>(decode: seq<byte> -> Option<M>, rows: seq<Row>)
    ensures MessageLines(decode, rows) == Outcomes(decode, OfKind(rows, MessageLine))
  {
    hide Trim, KindOf, Outcomes;
    if rows != [] {
      var front, last := rows[..|rows| - 1], rows[|rows| - 1];
      LinesAreOutcomes(decode, front);
      OutcomesSnoc(decode, OfKind(front, MessageLine), last);
      assert OfKind(front, MessageLine) + [] == OfKind(front, MessageLine);
    } else {
      assert Outcomes(decode, []) == [];
    }
  }

  lemma PresentSnoc<M>(lines: seq<Option<M>>, x: Option<M>)
    ensures Present(lines + [x]) == Present(lines) + (if x.Some? then [x.value] else [])
  {
    assert (lines + [x])[..|lines|] == lines;
  }

  lemma PresentOfNone<M>()
    ensures Present<M>([]) == []
  {}

  lemma {:induction false} PresentAreDecoded<M>(decode: seq<byte> -> Option<M>, rows: seq<Row>)
    ensures Present(Outcomes(decode, rows)) == Decoded(decode, rows)
  {
    hide Trim, Outcomes, Present;
    if rows != [] {
      var front, last := rows[..|rows| - 1], rows[|rows| - 1];
      PresentAreDecoded(decode, front);
      assert rows == front + [last];
      OutcomesSnoc(decode, front, last);
      PresentSnoc(Outcomes(decode, front), decode(Trim(last.text)));
    } else {
      PresentOfNone<M>();
      assert Outcomes(decode, []) == [];
    }
  }

  lemma {:induction false} PresentOfAll<M>(lines: seq<Option<M>>)
    requires None !in lines
    ensures |Present(lines)| == |lines|
    ensures forall k :: 0 <= k < |lines| ==> lines[k] == Some(Present(lines)[k])
  {
    if lines != [] {
      assert lines[|lines| - 1] in lines;
      PresentOfAll(lines[..|lines| - 1]);
    }
  }

  lemma {:induction false} PresentConcat<M>(a: seq<Option<M>>, b: seq<Option<M>>)
    ensures Present(a + b) == Present(a) + Present(b)
    decreases |b|
  {
    if b == [] {
      assert a + b == a;
    } else {
      var front, last := b[..|b| - 1], b[|b| - 1];
      PresentConcat(a, front);
      assert a + b == (a + front) + [last] && b == front + [last];
      PresentSnoc(a + front, last);
      PresentSnoc(front, last);
    }
  }

  lemma WindowIsPage<T>(s: seq<T>, start: nat, limit: Option<nat>)
    ensures IsPage(Window(s, start, limit), s, start, limit)
  {}

  lemma OutcomesPage<M>(decode: seq<byte> -> Option<M>, page: seq<Row>, rows: seq<Row>, start: nat, limit: Option<nat>)
    requires IsPage(page, rows, start, limit)
    ensures IsPage(Outcomes(decode, page), Outcomes(decode, rows), start, limit)
  {
    hide Trim;
  }

  lemma PageOf<T>(page: seq<T>, all: seq<T>, start: nat, limit: Option<nat>)
    requires IsPage(page, all, start, limit)
    ensures forall x :: x in page ==> x in all
  {
    forall x | x in page ensures x in all {
      var i :| 0 <= i < |page| && page[i] == x;
      assert all[start + i] == x;
    }
  }

  lemma PresentPage<M>(page: seq<Option<M>>, all: seq<Option<M>>, start: nat, limit: Option<nat>)
    requires IsPage(page, all, start, limit) && None !in all
    ensures IsPage(Present(page), Present(all), start, limit)
  {
    PageOf(page, all, start, limit);
    PresentOfAll(page);
    PresentOfAll(all);
    hide Present;
    forall i | 0 <= i < |page| ensures Present(page)[i] == Present(all)[start + i] {
      assert page[i] == all[start + i];
    }
  }

  /** Pages that follow one another join; a page without a limit goes on to the end. */
  function Plus(a: nat, b: Option<nat>): Option<nat> {
    if b.Some? then Some(a + b.value) else None
  }

  lemma PageJoins<T>(first: seq<T>, second: seq<T>, both: seq<T>, all: seq<T>, start: nat, a: nat, b: Option<nat>)
    requires IsPage(first, all, start, Some(a)) && IsPage(second, all, start + a, b) && IsPage(both, all, start, Plus(a, b))
    ensures first + second == both
  {
    assert |first + second| == |both|;
    forall i | 0 <= i < |both| ensures (first + second)[i] == both[i] {
      if i < |first| {
        assert first[i] == all[start + i];
      } else {
        assert |first| == a;
        assert second[i - a] == all[start + a + (i - a)];
      }
    }
  }

  // ----- the sequential reader -----

  lemma AllFirst<T>(page: seq<T>, all: seq<T>)
    requires IsPage(page, all, 0, None)
    ensures page == all
  {}

  lemma ReadIs<M, C>(rows: seq<Row>, decodeM: seq<byte> -> Option<M>, decodeC: seq<byte> -> Option<C>,
                     start: nat, limit: Option<nat>)
    requires AllText(rows)
    ensures ReadRows(rows, decodeM, decodeC, start, limit) ==
            Ok(TranscriptRead(Decoded(decodeM, Window(OfKind(rows, MessageLine), start, limit)),
                              Decoded(decodeC, OfKind(rows, CompactionLine))))
  {}

  /**
   * A window of a readable file: the records among its message lines from
   * position start on, limit lines or all that are left, whether or not they
   * decode, and all compactions.
   */
  lemma ReadsPage<M, C>(rows: seq<Row>, decodeM: seq<byte> -> Option<M>, decodeC: seq<byte> -> Option<C>,
                        start: nat, limit: Option<nat>) returns (page: seq<Option<M>>)
    requires AllText(rows)
    ensures IsPage(page, MessageLines(decodeM, rows), start, limit)
    ensures var r := ReadRows(rows, decodeM, decodeC, start, limit);
            r.Ok? && r.value.messages == Present(page) && r.value.compactions == Decoded(decodeC, OfKind(rows, CompactionLine))
  {
    hide *;
    var all := OfKind(rows, MessageLine);
    page := Outcomes(decodeM, Window(all, start, limit));
    ReadIs(rows, decodeM, decodeC, start, limit);
    LinesAreOutcomes(decodeM, rows);
    WindowIsPage(all, start, limit);
    OutcomesPage(decodeM, Window(all, start, limit), all, start, limit);
    PresentAreDecoded(decodeM, Window(all, start, limit));
  }

  /** When every message line decodes, a window is the page of the whole history. */
  lemma WindowIsSlice<M, C>(rows: seq<Row>, decodeM: seq<byte> -> Option<M>, decodeC: seq<byte> -> Option<C>,
                            start: nat, limit: Option<nat>)
    requires AllText(rows) && None !in MessageLines(decodeM, rows)
    ensures var whole, r := ReadRows(rows, decodeM, decodeC, 0, None), ReadRows(rows, decodeM, decodeC, start, limit);
            && whole.Ok? && r.Ok? && r.value.compactions == whole.value.compactions
            && IsPage(r.value.messages, whole.value.messages, start, limit)
  {
    hide *;
    var lines := MessageLines(decodeM, rows);
    var page := ReadsPage(rows, decodeM, decodeC, start, limit);
    var all := ReadsPage(rows, decodeM, decodeC, 0, None);
    AllFirst(all, lines);
    PresentPage(page, lines, start, limit);
  }

  /** For every file, whatever decodes: a page and the one after it are the page of both. */
  lemma WindowsJoin<M, C>(rows: seq<Row>, decodeM: seq<byte> -> Option<M>, decodeC: seq<byte> -> Option<C>,
                          start: nat, a: nat, b: Option<nat>)
    requires AllText(rows)
    ensures var first, second := ReadRows(rows, decodeM, decodeC, start, Some(a)), ReadRows(rows, decodeM, decodeC, start + a, b);
            var both := ReadRows(rows, decodeM, decodeC, start, Plus(a, b));
            && first.Ok? && second.Ok? && both.Ok?
            && first.value.messages + second.value.messages == both.value.messages
  {
    hide *;
    var lines := MessageLines(decodeM, rows);
    var first := ReadsPage(rows, decodeM, decodeC, start, Some(a));
    var second := ReadsPage(rows, decodeM, decodeC, start + a, b);
    var both := ReadsPage(rows, decodeM, decodeC, start, Plus(a, b));
    PageJoins(first, second, both, lines, start, a, b);
    PresentConcat(first, second);
  }

  // ----- the seeking reader -----

  lemma CommonIs<M, C>(file: seq<byte>, decodeM: seq<byte> -> Option<M>, decodeC: seq<byte> -> Option<C>,
                       start: nat, limit: Option<nat>)
    ensures Common(file, decodeM, decodeC, start, limit) ==
            TranscriptRead(Decoded(decodeM, Window(OfKind(CompleteRows(file), MessageLine), start, limit)),
                           Decoded(decodeC, OfKind(CompleteRows(file), CompactionLine)))
  {}

  /** By the layout of a file, it reads what the sequential one reads of the complete lines. */
  lemma SeekReadsComplete<M, C>(file: seq<byte>, layout: TranscriptLayout, decodeM: seq<byte> -> Option<M>,
                                decodeC: seq<byte> -> Option<C>, start: nat, limit: Option<nat>)
    requires ScanFile(file) == Ok(layout)
    ensures AllText(CompleteRows(file))
    ensures SeekRead(Some(file), layout, decodeM, decodeC, start, limit) ==
            ReadRows(CompleteRows(file), decodeM, decodeC, start, limit)
  {
    hide *;
    ScanIs(file);
    FileIs(file);
    AllTextConcat(CompleteRows(file), TornRow(file));
    SeekIsCommon(file, layout, decodeM, decodeC, start, limit);
    CommonIs(file, decodeM, decodeC, start, limit);
    ReadIs(CompleteRows(file), decodeM, decodeC, start, limit);
  }

  /** Its windows are pages of the message lines before the torn tail, and of its own whole history if all of them decode. */
  lemma SeekWindowIsSlice<M, C>(file: seq<byte>, layout: TranscriptLayout, decodeM: seq<byte> -> Option<M>,
                                decodeC: seq<byte> -> Option<C>, start: nat, limit: Option<nat>) returns (page: seq<Option<M>>)
    requires ScanFile(file) == Ok(layout)
    ensures var lines := MessageLines(decodeM, CompleteRows(file));
            var whole, r := SeekRead(Some(file), layout, decodeM, decodeC, 0, None), SeekRead(Some(file), layout, decodeM, decodeC, start, limit);
            && whole.Ok? && r.Ok? && r.value.compactions == whole.value.compactions
            && IsPage(page, lines, start, limit) && r.value.messages == Present(page)
            && (None !in lines ==> IsPage(r.value.messages, whole.value.messages, start, limit))
  {
    hide *;
    SeekReadsComplete(file, layout, decodeM, decodeC, start, limit);
    SeekReadsComplete(file, layout, decodeM, decodeC, 0, None);
    page := ReadsPage(CompleteRows(file), decodeM, decodeC, start, limit);
    var all := ReadsPage(CompleteRows(file), decodeM, decodeC, 0, None);
    if None !in MessageLines(decodeM, CompleteRows(file)) {
      WindowIsSlice(CompleteRows(file), decodeM, decodeC, start, limit);
    }
  }

  lemma SeekWindowsJoin<M, C>(file: seq<byte>, layout: TranscriptLayout, decodeM: seq<byte> -> Option<M>,
                              decodeC: seq<byte> -> Option<C>, start: nat, a: nat, b: Option<nat>)
    requires ScanFile(file) == Ok(layout)
    ensures var first := SeekRead(Some(file), layout, decodeM, decodeC, start, Some(a));
            var second := SeekRead(Some(file), layout, decodeM, decodeC, start + a, b);
            var both := SeekRead(Some(file), layout, decodeM, decodeC, start, Plus(a, b));
            && first.Ok? && second.Ok? && both.Ok?
            && first.value.messages + second.value.messages == both.value.messages
  {
    hide *;
    SeekReadsComplete(file, layout, decodeM, decodeC, start, Some(a));
    SeekReadsComplete(file, layout, decodeM, decodeC, start + a, b);
    SeekReadsComplete(file, layout, decodeM, decodeC, start, Plus(a, b));
    WindowsJoin(CompleteRows(file), decodeM, decodeC, start, a, b);
  }

  lemma {:induction false} TagMembers(offsets: seq<nat>, flag: bool, w: Wanted)
    ensures w in Tag(offsets, flag) <==> w.isMessage == flag && w.offset in offsets
  {
    if offsets != [] {
      TagMembers(offsets[1..], flag, w);
      assert offsets == [offsets[0]] + offsets[1..];
    }
  }

  lemma WantedMembers(layout: TranscriptLayout, start: nat, limit: Option<nat>, w: Wanted)
    ensures w in WantedOf(layout, start, limit) <==>
            if w.isMessage then w.offset in Window(layout.messageOffsets, start, limit) else w.offset in layout.compactionOffsets
  {
    var ms, cs := Tag(Window(layout.messageOffsets, start, limit), true), Tag(layout.compactionOffsets, false);
    TagMembers(Window(layout.messageOffsets, start, limit), true, w);
    TagMembers(layout.compactionOffsets, false, w);
    SortIsForward(ms + cs);
    hide Tag, SortByOffset, Window;
    assert w in ms + cs <==> w in multiset(ms + cs);
    assert w in SortByOffset(ms + cs) <==> w in multiset(SortByOffset(ms + cs));
  }

  /** A line at this offset of the file is not text. */
  predicate BadLine(file: seq<byte>, offset: nat) {
    offset < |file| && !ValidUtf8(RowAt(file, offset).text)
  }

  lemma UnreadableIs(file: seq<byte>, wanted: seq<Wanted>)
    ensures !AllReadable(file, wanted) <==> exists w :: w in wanted && BadLine(file, w.offset)
  {
    hide RowAt, ValidUtf8;
  }

  /**
   * By any layout, stale ones too, the seeking reader fails exactly if a line
   * it has to visit is not text; a missing file is an empty one.
   */
  lemma SeekFailsIff<M, C>(file: seq<byte>, layout: TranscriptLayout, decodeM: seq<byte> -> Option<M>,
                           decodeC: seq<byte> -> Option<C>, start: nat, limit: Option<nat>) returns (page: seq<nat>)
    ensures IsPage(page, layout.messageOffsets, start, limit)
    ensures SeekRead(Some(file), layout, decodeM, decodeC, start, limit).Err? <==>
            exists o :: (o in page || o in layout.compactionOffsets) && BadLine(file, o)
    ensures SeekRead(None, layout, decodeM, decodeC, start, limit) == Ok(TranscriptRead([], []))
  {
    page := Window(layout.messageOffsets, start, limit);
    var wanted := WantedOf(layout, start, limit);
    WindowIsPage(layout.messageOffsets, start, limit);
    UnreadableIs(file, wanted);
    hide IsPage, WantedOf, AllReadable, BadLine, RowsFor, Decoded, Window;
    forall w: Wanted
      ensures w in wanted <==> if w.isMessage then w.offset in page else w.offset in layout.compactionOffsets
    {
      WantedMembers(layout, start, limit, w);
    }
    if o :| (o in page || o in layout.compactionOffsets) && BadLine(file, o) {
      assert Wanted(o, o in page) in wanted;
    }
  }

  // ----- after crashes -----

  lemma PlusNone(a: nat)
    ensures Plus(a, None) == None && 0 + a == a
  {}

  lemma ReadableIs<M, C>(rows: seq<Row>, decodeM: seq<byte> -> Option<M>, decodeC: seq<byte> -> Option<C>)
    requires ReadRows(rows, decodeM, decodeC, 0, None).Ok?
    ensures AllText(rows)
  {}

  /** After any history of cut writes that left the file readable, a page and the rest are the surviving messages. */
  lemma PagesSurvive<M(!new), C(!new)>(header: Members, events: seq<Event>, decodeM: seq<byte> -> Option<M>,
                                       decodeC: seq<byte> -> Option<C>, a: nat)
    requires WellFormed(SessionLine, header) && forall e :: e in events ==> RecordOk(e.record)
    requires OnlyObjects(decodeM) && OnlyObjects(decodeC)
    requires CutsAtBoundaries(None, Some(Tagged(KindWord(SessionLine), header)), Appends(events))
    ensures var h := Tagged(KindWord(SessionLine), header);
            var rows := FileRows(FileAfter(None, Some(h), Appends(events)));
            var first, rest := ReadRows(rows, decodeM, decodeC, 0, Some(a)), ReadRows(rows, decodeM, decodeC, a, None);
            && first.Ok? && rest.Ok?
            && first.value.messages + rest.value.messages == FromRecords(decodeM, true, Survivors(None, h, events))
  {
    hide *;
    var h := Tagged(KindWord(SessionLine), header);
    var rows := FileRows(FileAfter(None, Some(h), Appends(events)));
    TranscriptSurvives(header, events, decodeM, decodeC);
    ReadableIs(rows, decodeM, decodeC);
    PlusNone(a);
    WindowsJoin(rows, decodeM, decodeC, 0, a, None);
  }
}
