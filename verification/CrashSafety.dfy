/**
 * What a transcript reader gets back after appends that a crash may have cut at
 * any byte (crates/host-core/src/transcripts.rs).
 */
module CrashSafety {
  import opened Wrappers
  import opened Bytes
  import opened Json
  import opened Sniff
  import opened Utf8
  import opened LogFile
  import opened Transcript
  import opened Layout

  // ----- rows and lines -----

  /** A row without its newline. */
  function Strip(text: seq<byte>): seq<byte> {
    if text != [] && text[|text| - 1] == NEWLINE then text[..|text| - 1] else text
  }

  function Stripped(rows: seq<Row>): seq<seq<byte>> {
    if rows == [] then [] else Stripped(rows[..|rows| - 1]) + [Strip(rows[|rows| - 1].text)]
  }

  lemma StrippedSnoc(rows: seq<Row>, row: Row)
    ensures Stripped(rows + [row]) == Stripped(rows) + [Strip(row.text)]
  {
    SnocRows(rows, row);
  }

  lemma Shift(a: seq<seq<byte>>, b: seq<seq<byte>>, x: seq<byte>)
    ensures a + (b + [x]) == a + b + [x]
  {}

  lemma {:induction false} StrippedConcat(a: seq<Row>, b: seq<Row>)
    ensures Stripped(a + b) == Stripped(a) + Stripped(b)
  {
    if b == [] {
      assert a + b == a;
    } else {
      var front, last := b[..|b| - 1], b[|b| - 1];
      assert b == front + [last];
      hide *;
      StrippedConcat(a, front);
      StrippedSnoc(front, last);
      StrippedSnoc(a + front, last);
      Reassociate(a, front, [last]);
      Shift(Stripped(a), Stripped(front), Strip(last.text));
    }
  }

  lemma FeedWholeLine(lines: seq<seq<byte>>, t: seq<byte>, rest: seq<byte>)
    requires NEWLINE !in t
    ensures Feed(Log(lines, []), t + ([NEWLINE] + rest)) == Feed(Log(lines + [t], []), rest)
  {
    FeedConcat(Log(lines, []), t, [NEWLINE] + rest);
    FeedText(Log(lines, []), t);
    assert [] + t == t;
    FeedConcat(Log(lines, t), [NEWLINE], rest);
  }

  /** The first line of s, fed to a log at a line start. */
  lemma FeedFirstLine(lines: seq<seq<byte>>, s: seq<byte>)
    requires s != [] && s[LineLength(s) - 1] == NEWLINE
    ensures Feed(Log(lines, []), s) == Feed(Log(lines + [Strip(s[..LineLength(s)])], []), s[LineLength(s)..])
  {
    hide LineLength, Feed;
    var n := LineLength(s);
    var t := s[..n - 1];
    assert s == t + ([NEWLINE] + s[n..]);
    assert s[..n][..n - 1] == t && s[..n][n - 1] == NEWLINE;
    FeedWholeLine(lines, t, s[n..]);
  }

  lemma LastLine(s: seq<byte>)
    requires s != [] && s[LineLength(s) - 1] != NEWLINE
    ensures LineLength(s) == |s| && NEWLINE !in s && Strip(s) == s
  {
    hide LineLength;
    var front := s[..|s| - 1];
    forall k | 0 <= k < |s| ensures s[k] != NEWLINE {
      if k < |s| - 1 { assert front[k] == s[k]; }
    }
  }

  lemma TornTexts(lines: seq<seq<byte>>, tail: seq<byte>)
    requires tail != []
    ensures Log(lines, tail).Texts() == lines + [tail]
  {}

  lemma FeedTornLine(lines: seq<seq<byte>>, s: seq<byte>)
    requires s != [] && s[LineLength(s) - 1] != NEWLINE
    ensures LineLength(s) == |s|
    ensures Feed(Log(lines, []), s).Texts() == lines + [Strip(s)]
  {
    LastLine(s);
    hide *;
    FeedText(Log(lines, []), s);
    assert [] + s == s;
    TornTexts(lines, s);
  }

  lemma NoRows(lines: seq<seq<byte>>, s: seq<byte>, offset: nat)
    requires s == []
    ensures Feed(Log(lines, []), s).Texts() == lines + Stripped(Rows(s, offset))
  {
    assert lines + [] == lines;
  }

  lemma OneRow(row: Row)
    ensures Stripped([row]) == [Strip(row.text)]
  {
    assert [row][..0] == [];
  }

  lemma Swap(a: seq<seq<byte>>, x: seq<byte>, b: seq<seq<byte>>)
    ensures a + [x] + b == a + ([x] + b)
  {}

  /** The rows of a file are the lines of its log. */
  lemma {:induction false} RowsAreLines(lines: seq<seq<byte>>, s: seq<byte>, offset: nat)
    ensures Feed(Log(lines, []), s).Texts() == lines + Stripped(Rows(s, offset))
    decreases |s|
  {
    if s == [] {
      NoRows(lines, s, offset);
    } else if s[LineLength(s) - 1] == NEWLINE {
      hide *;
      var n := LineLength(s);
      RowsAreLines(lines + [Strip(s[..n])], s[n..], offset + n);
      FeedFirstLine(lines, s);
      RowsUnfold(s, offset);
      OneRow(Row(offset, s[..n]));
      StrippedConcat([Row(offset, s[..n])], Rows(s[n..], offset + n));
      Swap(lines, Strip(s[..n]), Stripped(Rows(s[n..], offset + n)));
    } else {
      hide *;
      FeedTornLine(lines, s);
      OneRow(Row(offset, s));
      LastLine(s);
      OneTornRow(s, offset);
    }
  }

  lemma StripUtf8(text: seq<byte>)
    ensures ValidUtf8(Strip(text)) <==> ValidUtf8(text)
  {
    if text != [] && text[|text| - 1] == NEWLINE {
      var t := text[..|text| - 1];
      assert text == t + [NEWLINE];
      if ValidUtf8(t) {
        ValidConcat(t, [NEWLINE]);
        assert ValidUtf8([NEWLINE]);
      } else if ValidUtf8(text) {
        PrefixValid(text, |t|);
      }
    }
  }

  lemma AllTextOne(row: Row)
    ensures AllText([row]) <==> ValidUtf8(row.text)
  {
    hide ValidUtf8;
    assert [row][0] == row;
  }

  lemma {:induction false} StrippedUtf8(rows: seq<Row>)
    ensures AllText(rows) <==> AllUtf8(Stripped(rows))
  {
    if rows != [] {
      var front, last := rows[..|rows| - 1], rows[|rows| - 1];
      assert rows == front + [last];
      assert [Strip(last.text)][1..] == [];
      hide ValidUtf8, AllText;
      StrippedUtf8(front);
      AllTextConcat(front, [last]);
      AllTextOne(last);
      StripUtf8(last.text);
      AllUtf8Concat(Stripped(front), [Strip(last.text)]);
    }
  }

  // ----- trimming records and torn records -----

  lemma RecordEnds(text: seq<byte>)
    requires IsRecord(text)
    ensures |text| >= 2 && text[0] == OPEN_BRACE && text[|text| - 1] == CLOSE_BRACE
  {
    var members :| IsTextOf(text, members);
  }

  lemma NotSpaceChar(c: seq<byte>)
    requires 1 <= |c| <= 3 && c[|c| - 1] == CLOSE_BRACE
    ensures !IsSpaceChar(c)
  {}

  lemma NoSpaceAtEnd(t: seq<byte>)
    requires t != [] && t[|t| - 1] == CLOSE_BRACE
    ensures TrimEnd(t) == t
  {
    if |t| >= 1 { NotSpaceChar(t[|t| - 1..]); }
    if |t| >= 2 { NotSpaceChar(t[|t| - 2..]); }
    if |t| >= 3 { NotSpaceChar(t[|t| - 3..]); }
    hide IsSpaceChar;
    assert SpaceAtEnd(t) == 0;
  }

  lemma TrimNewline(t: seq<byte>)
    ensures TrimEnd(t + [NEWLINE]) == TrimEnd(t)
  {
    var s := t + [NEWLINE];
    assert s[|s| - 1..] == [NEWLINE];
    assert s[..|s| - 1] == t;
  }

  lemma TrimStartBrace(u: seq<byte>)
    requires u != [] ==> u[0] == OPEN_BRACE
    ensures TrimStart(u) == u
  {
    assert SpaceAtStart(u) == 0;
  }

  lemma TrimRecord(text: seq<byte>)
    requires IsRecord(text)
    ensures TrimEnd(text) == text && TrimEnd(text + [NEWLINE]) == text && TrimStart(text) == text
  {
    hide *;
    RecordEnds(text);
    NoSpaceAtEnd(text);
    TrimStartBrace(text);
    TrimNewline(text);
  }

  lemma StripCases(text: seq<byte>)
    ensures text == Strip(text) || text == Strip(text) + [NEWLINE]
  {}

  lemma TrimIs(row: Row, text: seq<byte>)
    requires TrimEnd(row.text) == text && TrimStart(text) == text
    ensures Trim(row.text) == text && KindOf(row) == SniffLine(text)
  {}

  /** A row holding a whole record is read as that record. */
  lemma RowOfRecord(row: Row, text: seq<byte>)
    requires IsRecord(text) && Strip(row.text) == text
    ensures Trim(row.text) == text && KindOf(row) == SniffLine(text)
  {
    hide *;
    StripCases(row.text);
    TrimRecord(text);
    TrimIs(row, text);
  }

  lemma TrimEndTorn(row: Row)
    ensures TrimEnd(row.text) <= Strip(row.text)
  {
    hide TrimEnd;
    StripCases(row.text);
    TrimNewline(Strip(row.text));
  }

  /** A row holding the torn beginning of a record is never taken for an object. */
  lemma RowOfTorn(row: Row, text: seq<byte>)
    requires IsRecord(text) && Strip(row.text) <= text && Strip(row.text) != text
    ensures !IsObjectText(Trim(row.text))
  {
    RecordEnds(text);
    TrimEndTorn(row);
    hide IsObjectText, TrimEnd, TrimStart, Strip;
    var u := TrimEnd(row.text);
    assert u <= text && |u| < |text|;
    assert u != [] ==> u[0] == text[0];
    TrimStartBrace(u);
    TrimIs(row, u);
    assert u == text[..|u|];
    TornObjectIsIncomplete(text, |u|);
  }

  // ----- what is recovered -----

  /** The decoder accepts complete objects only. */
  ghost predicate OnlyObjects<T(!new)>(decode: seq<byte> -> Option<T>) {
    forall t :: decode(t).Some? ==> IsObjectText(t)
  }

  /** The decoded records of one kind among some complete objects. */
  function Recovered<T>(decode: seq<byte> -> Option<T>, kind: LineKind, objects: seq<seq<byte>>): seq<T> {
    if objects == [] then []
    else
      var last := objects[|objects| - 1];
      Recovered(decode, kind, objects[..|objects| - 1]) +
      (if SniffLine(last) == Some(kind) && decode(last).Some? then [decode(last).value] else [])
  }

  lemma {:induction false} RecoveredConcat<T>(decode: seq<byte> -> Option<T>, kind: LineKind, a: seq<seq<byte>>, b: seq<seq<byte>>)
    ensures Recovered(decode, kind, a + b) == Recovered(decode, kind, a) + Recovered(decode, kind, b)
  {
    hide SniffLine;
    if b == [] {
      assert a + b == a;
    } else {
      var front := b[..|b| - 1];
      assert (a + b)[..|a + b| - 1] == a + front;
      RecoveredConcat(decode, kind, a, front);
    }
  }

  /** One row, read as kind. */
  function ReadOne<T>(decode: seq<byte> -> Option<T>, kind: LineKind, row: Row): seq<T> {
    if KindOf(row) == Some(kind) && decode(Trim(row.text)).Some? then [decode(Trim(row.text)).value] else []
  }

  lemma RecordIsObject(text: seq<byte>)
    requires IsRecord(text)
    ensures IsObjectText(text)
  {}

  lemma OneRecovered<T>(decode: seq<byte> -> Option<T>, kind: LineKind, text: seq<byte>)
    ensures Recovered(decode, kind, [text]) ==
            if SniffLine(text) == Some(kind) && decode(text).Some? then [decode(text).value] else []
  {
    hide SniffLine;
    assert [text][..0] == [];
  }

  lemma ReadWhole<T>(decode: seq<byte> -> Option<T>, kind: LineKind, row: Row, text: seq<byte>)
    requires IsRecord(text) && Trim(row.text) == text && KindOf(row) == SniffLine(text)
    ensures ReadOne(decode, kind, row) == Recovered(decode, kind, Objects([text]))
  {
    hide IsObjectText, Trim, KindOf, SniffLine;
    assert [text][1..] == [];
    OneRecovered(decode, kind, text);
  }

  lemma ReadTorn<T(!new)>(decode: seq<byte> -> Option<T>, kind: LineKind, row: Row, t: seq<byte>)
    requires OnlyObjects(decode) && !IsObjectText(t) && !IsObjectText(Trim(row.text))
    ensures ReadOne(decode, kind, row) == Recovered(decode, kind, Objects([t]))
  {
    hide IsObjectText, Trim, KindOf;
    assert [t][1..] == [];
  }

  lemma ReadOneIs<T(!new)>(decode: seq<byte> -> Option<T>, kind: LineKind, row: Row)
    requires OnlyObjects(decode) && IsPiece(Strip(row.text))
    ensures ReadOne(decode, kind, row) == Recovered(decode, kind, Objects([Strip(row.text)]))
  {
    hide OnlyObjects, IsRecord, Strip;
    var t := Strip(row.text);
    var text :| IsRecord(text) && t <= text;
    if t == text {
      hide *;
      RowOfRecord(row, text);
      ReadWhole(decode, kind, row, text);
    } else {
      assert t == text[..|t|] && |t| < |text|;
      hide *;
      RecordIsObject(text);
      TornObjectIsIncomplete(text, |t|);
      RowOfTorn(row, text);
      ReadTorn(decode, kind, row, t);
    }
  }

  lemma DecodedOfKindSnoc<T>(decode: seq<byte> -> Option<T>, kind: LineKind, rows: seq<Row>, row: Row)
    ensures Decoded(decode, OfKind(rows + [row], kind)) == Decoded(decode, OfKind(rows, kind)) + ReadOne(decode, kind, row)
  {
    hide OfKind, Decoded, KindOf, Trim;
    OfKindSnoc(rows, row, kind);
    DecodedSnoc(decode, OfKind(rows, kind), row);
    assert Decoded(decode, OfKind(rows, kind)) + [] == Decoded(decode, OfKind(rows, kind));
  }

  /** The reader's records of one kind are those among the complete objects. */
  lemma {:induction false} ReadIsRecovered<T(!new)>(decode: seq<byte> -> Option<T>, kind: LineKind, rows: seq<Row>)
    requires OnlyObjects(decode) && forall t :: t in Stripped(rows) ==> IsPiece(t)
    ensures Decoded(decode, OfKind(rows, kind)) == Recovered(decode, kind, Objects(Stripped(rows)))
  {
    if rows != [] {
      var front, last := rows[..|rows| - 1], rows[|rows| - 1];
      assert rows == front + [last];
      assert Stripped(rows) == Stripped(front) + [Strip(last.text)];
      hide *;
      ReadIsRecovered(decode, kind, front);
      DecodedOfKindSnoc(decode, kind, front, last);
      ReadOneIs(decode, kind, last);
      ObjectsConcat(Stripped(front), [Strip(last.text)]);
      RecoveredConcat(decode, kind, Objects(Stripped(front)), Objects([Strip(last.text)]));
    }
  }

  // ----- the transcript -----

  /** What append_message and append_compaction write. */
  datatype Record = MessageRecord(body: Members) | CompactionRecord(body: Members)

  function Text(record: Record): seq<byte> {
    Tagged(KindWord(if record.MessageRecord? then MessageLine else CompactionLine), record.body)
  }

  /** The record fields, and the whole line, are what serde can produce. */
  ghost predicate WellFormed(kind: LineKind, body: Members) {
    ValidMembers(body) && ValidUtf8(Tagged(KindWord(kind), body))
  }

  ghost predicate RecordOk(record: Record) {
    WellFormed(if record.MessageRecord? then MessageLine else CompactionLine, record.body)
  }

  /** One append of a record, of whose write the first cut bytes reached the disk. */
  datatype Event = Event(record: Record, cut: nat)

  function Appends(events: seq<Event>): seq<Append> {
    if events == [] then [] else [Append(Text(events[0].record), events[0].cut)] + Appends(events[1..])
  }

  function Maybe<T>(present: bool, x: T): seq<T> {
    if present then [x] else []
  }

  /** The records whose JSON text was fully written, in order. */
  function Survivors(file: Option<seq<byte>>, header: seq<byte>, events: seq<Event>): seq<Record>
    decreases |events|
  {
    if events == [] then []
    else
      var a := Append(Text(events[0].record), events[0].cut);
      Maybe(FullyWritten(file, Some(header), a), events[0].record) +
      Survivors(Some(AfterAppend(file, Some(header), a)), header, events[1..])
  }

  /** The decoded survivors of one kind. */
  function FromRecords<T>(decode: seq<byte> -> Option<T>, messages: bool, records: seq<Record>): seq<T> {
    if records == [] then []
    else
      (if records[0].MessageRecord? == messages && decode(Text(records[0])).Some?
       then [decode(Text(records[0])).value] else []) +
      FromRecords(decode, messages, records[1..])
  }

  lemma TaggedObject(word: seq<byte>, body: Members)
    requires ValidMembers(body)
    ensures IsObjectText(Print(Object(Member(TYPE, String(word), body))))
  {
    assert IsTextOf(Print(Object(Member(TYPE, String(word), body))), Member(TYPE, String(word), body));
  }

  lemma TaggedIsRecord(kind: LineKind, body: Members)
    requires WellFormed(kind, body)
    ensures IsRecord(Tagged(KindWord(kind), body)) && SniffLine(Tagged(KindWord(kind), body)) == Some(kind)
  {
    hide Tagged, KindWord, SniffLine, ValidUtf8;
    var word := KindWord(kind);
    TaggedIsObject(word, body);
    TaggedObject(word, body);
    TaggedIsSniffed(kind, body, []);
    assert Tagged(word, body) + [] == Tagged(word, body);
  }

  lemma AllRecordsCons(a: Append, rest: seq<Append>)
    requires IsRecord(a.text) && AllRecords(rest)
    ensures AllRecords([a] + rest)
  {
    hide IsRecord;
    assert forall k :: 1 <= k < |[a] + rest| ==> ([a] + rest)[k] == rest[k - 1];
  }

  lemma {:induction false} AppendsAreRecords(events: seq<Event>)
    requires forall e :: e in events ==> RecordOk(e.record)
    ensures AllRecords(Appends(events))
  {
    if events != [] {
      var kind := if events[0].record.MessageRecord? then MessageLine else CompactionLine;
      assert RecordOk(events[0].record);
      hide IsRecord, Tagged, KindWord, WellFormed, AllRecords;
      TaggedIsRecord(kind, events[0].record.body);
      AppendsAreRecords(events[1..]);
      AllRecordsCons(Append(Text(events[0].record), events[0].cut), Appends(events[1..]));
    }
  }

  lemma RecoveredHeader<T>(decode: seq<byte> -> Option<T>, kind: LineKind, present: bool, h: seq<byte>)
    requires SniffLine(h) == Some(SessionLine) && (kind.MessageLine? || kind.CompactionLine?)
    ensures Recovered(decode, kind, Maybe(present, h)) == []
  {
    hide SniffLine;
    OneRecovered(decode, kind, h);
  }

  lemma RecoveredRecord<T>(decode: seq<byte> -> Option<T>, messages: bool, present: bool, record: Record)
    requires SniffLine(Text(record)) == Some(if record.MessageRecord? then MessageLine else CompactionLine)
    ensures Recovered(decode, if messages then MessageLine else CompactionLine, Maybe(present, Text(record))) ==
            FromRecords(decode, messages, Maybe(present, record))
  {
    hide SniffLine, Text;
    OneRecovered(decode, if messages then MessageLine else CompactionLine, Text(record));
    assert [record][1..] == [];
  }

  lemma WrittenByIs(file: Option<seq<byte>>, h: seq<byte>, a: Append)
    ensures WrittenBy(file, Some(h), a) ==
            Maybe(file.None? && a.cut >= |h|, h) + Maybe(FullyWritten(file, Some(h), a), a.text)
  {}

  lemma RecordSniffed(record: Record)
    requires RecordOk(record)
    ensures SniffLine(Text(record)) == Some(if record.MessageRecord? then MessageLine else CompactionLine)
  {
    hide Tagged, KindWord, WellFormed, SniffLine;
    TaggedIsRecord(if record.MessageRecord? then MessageLine else CompactionLine, record.body);
  }

  /** What is recovered from one append is the header, which is neither kind, and the record if it is whole. */
  lemma RecoveredFromOne<T>(decode: seq<byte> -> Option<T>, messages: bool, file: Option<seq<byte>>, header: Members, e: Event)
    requires WellFormed(SessionLine, header) && RecordOk(e.record)
    ensures var h := Tagged(KindWord(SessionLine), header);
            var a := Append(Text(e.record), e.cut);
            Recovered(decode, if messages then MessageLine else CompactionLine, WrittenBy(file, Some(h), a)) ==
            FromRecords(decode, messages, Maybe(FullyWritten(file, Some(h), a), e.record))
  {
    var kind := if messages then MessageLine else CompactionLine;
    var h := Tagged(KindWord(SessionLine), header);
    var a := Append(Text(e.record), e.cut);
    hide *;
    RecordSniffed(e.record);
    TaggedIsRecord(SessionLine, header);
    var x, y := Maybe(file.None? && a.cut >= |h|, h), Maybe(FullyWritten(file, Some(h), a), a.text);
    WrittenByIs(file, h, a);
    RecoveredHeader(decode, kind, file.None? && a.cut >= |h|, h);
    RecoveredRecord(decode, messages, FullyWritten(file, Some(h), a), e.record);
    RecoveredConcat(decode, kind, x, y);
  }

  lemma {:induction false} FromRecordsConcat<T>(decode: seq<byte> -> Option<T>, messages: bool, a: seq<Record>, b: seq<Record>)
    ensures FromRecords(decode, messages, a + b) == FromRecords(decode, messages, a) + FromRecords(decode, messages, b)
  {
    hide Text;
    if a == [] {
      assert a + b == b;
    } else {
      assert (a + b)[1..] == a[1..] + b;
      FromRecordsConcat(decode, messages, a[1..], b);
    }
  }

  lemma {:induction false} RecoveredIsSurvivors<T>(decode: seq<byte> -> Option<T>, messages: bool, file: Option<seq<byte>>,
                                                  header: Members, events: seq<Event>)
    requires WellFormed(SessionLine, header) && forall e :: e in events ==> RecordOk(e.record)
    ensures var h := Tagged(KindWord(SessionLine), header);
            Recovered(decode, if messages then MessageLine else CompactionLine, Written(file, Some(h), Appends(events))) ==
            FromRecords(decode, messages, Survivors(file, h, events))
    decreases |events|
  {
    if events != [] {
      var kind := if messages then MessageLine else CompactionLine;
      var h := Tagged(KindWord(SessionLine), header);
      var a := Append(Text(events[0].record), events[0].cut);
      assert RecordOk(events[0].record);
      assert Appends(events)[1..] == Appends(events[1..]);
      var next := Some(AfterAppend(file, Some(h), a));
      hide Recovered, FromRecords, Tagged, KindWord, Text, FullyWritten, AfterAppend, Maybe, WrittenBy, RecordOk, WellFormed;
      RecoveredFromOne(decode, messages, file, header, events[0]);
      RecoveredIsSurvivors(decode, messages, next, header, events[1..]);
      RecoveredConcat(decode, kind, WrittenBy(file, Some(h), a), Written(next, Some(h), Appends(events[1..])));
      FromRecordsConcat(decode, messages, Maybe(FullyWritten(file, Some(h), a), events[0].record),
                        Survivors(next, h, events[1..]));
    }
  }

  lemma ReadWholeFile<M, C>(rows: seq<Row>, decodeM: seq<byte> -> Option<M>, decodeC: seq<byte> -> Option<C>)
    ensures ReadRows(rows, decodeM, decodeC, 0, None) ==
              if AllText(rows) then Ok(TranscriptRead(Decoded(decodeM, OfKind(rows, MessageLine)),
                                                      Decoded(decodeC, OfKind(rows, CompactionLine))))
              else Err(InvalidUtf8)
  {
    hide Decoded, OfKind, AllText;
    var ms := OfKind(rows, MessageLine);
    assert ms[0..|ms|] == ms;
  }

  lemma LinesOfRows(file: Option<seq<byte>>)
    ensures Stripped(FileRows(file)) == LogBefore(file).Texts()
  {
    if file.Some? {
      RowsAreLines([], file.value, 0);
      assert [] + Stripped(Rows(file.value, 0)) == Stripped(Rows(file.value, 0));
    }
  }

  /** The rows of a file with a history: pieces of records, clean iff no cut is inside a character. */
  lemma HistoryRows(h: seq<byte>, history: seq<Append>)
    requires IsRecord(h) && AllRecords(history)
    ensures var rows := FileRows(FileAfter(None, Some(h), history));
            && (forall t :: t in Stripped(rows) ==> IsPiece(t))
            && Objects(Stripped(rows)) == Written(None, Some(h), history)
            && (AllText(rows) <==> CutsAtBoundaries(None, Some(h), history))
  {
    hide IsRecord, IsPiece, AllText, Written, CutsAtBoundaries, AllRecords;
    var file := FileAfter(None, Some(h), history);
    hide FileAfter;
    TornHistory(None, Some(h), history);
    LinesArePieces(None, Some(h), history);
    LinesOfRows(file);
    StrippedUtf8(FileRows(file));
    assert [] + Written(None, Some(h), history) == Written(None, Some(h), history);
  }

  /**
   * For every history of appends to a new transcript, each write cut at any
   * byte: reading it back succeeds if and only if no write was cut inside a
   * character, and then returns, in order, exactly the records whose JSON text
   * was fully written. A torn tail never swallows or corrupts a later record.
   */
  lemma TranscriptSurvives<M(!new), C(!new)>(header: Members, events: seq<Event>,
                                             decodeM: seq<byte> -> Option<M>, decodeC: seq<byte> -> Option<C>)
    requires WellFormed(SessionLine, header) && forall e :: e in events ==> RecordOk(e.record)
    requires OnlyObjects(decodeM) && OnlyObjects(decodeC)
    ensures var h := Tagged(KindWord(SessionLine), header);
            var records := Survivors(None, h, events);
            ReadRows(FileRows(FileAfter(None, Some(h), Appends(events))), decodeM, decodeC, 0, None) ==
              if CutsAtBoundaries(None, Some(h), Appends(events))
              then Ok(TranscriptRead(FromRecords(decodeM, true, records), FromRecords(decodeC, false, records)))
              else Err(InvalidUtf8)
  {
    hide *;
    var h := Tagged(KindWord(SessionLine), header);
    var file := FileAfter(None, Some(h), Appends(events));
    TaggedIsRecord(SessionLine, header);
    AppendsAreRecords(events);
    HistoryRows(h, Appends(events));
    ReadIsRecovered(decodeM, MessageLine, FileRows(file));
    ReadIsRecovered(decodeC, CompactionLine, FileRows(file));
    RecoveredIsSurvivors(decodeM, true, None, header, events);
    RecoveredIsSurvivors(decodeC, false, None, header, events);
    ReadWholeFile(FileRows(file), decodeM, decodeC);
  }
}
