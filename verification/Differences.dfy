/**
 * Inputs on which the transcript code differs from what one may expect of it:
 * each makes an exact condition of the other modules bite
 * (crates/host-core/src/transcripts.rs).
 */
module Differences {
  import opened Wrappers
  import opened Bytes
  import opened Json
  import opened Sniff
  import opened Utf8
  import opened JsonUtf8
  import opened LogFile
  import opened Transcript
  import opened Layout
  import opened Seek
  import opened CrashSafety

  // ----- a rewrite of the same length, or a longer one -----

  lemma OneLine(row: Row, kind: LineKind)
    requires Terminated(row) && row.offset == 0 && KindOf(row) == Some(kind)
    ensures EndsWithNewline(row.text)
    ensures TranscriptLayout(if KindOf(row) == Some(MessageLine) then EMPTY.messageOffsets + [row.offset] else EMPTY.messageOffsets,
                             if KindOf(row) == Some(CompactionLine) then EMPTY.compactionOffsets + [row.offset] else EMPTY.compactionOffsets,
                             row.offset + |row.text|) ==
            TranscriptLayout(if kind.MessageLine? then [0] else [], if kind.CompactionLine? then [0] else [], |row.text|)
  {
    hide KindOf;
    var none: seq<nat> := [];
    assert none + [row.offset] == [0];
  }

  /** A record and its newline are one row, and text. */
  lemma RecordRow(text: seq<byte>)
    requires IsRecord(text)
    ensures Rows(text + [NEWLINE], 0) == [Row(0, text + [NEWLINE])] && AllText(Rows(text + [NEWLINE], 0))
    ensures Terminated(Row(0, text + [NEWLINE])) && Strip(text + [NEWLINE]) == text
  {
    RecordHasNoNewline(text);
    ValidConcat(text, [NEWLINE]);
    hide IsObjectText;
    var line := text + [NEWLINE];
    forall k | 0 <= k < |text| ensures line[k] != NEWLINE {
      assert line[k] == text[k];
    }
    LineLengthIs(line, |text|);
    assert line[..|line|] == line && line[|line|..] == [];
    assert line[..|text|] == text;
  }

  /** The layout of a file of one record line. */
  lemma OneLineScanned(kind: LineKind, body: Members)
    requires WellFormed(kind, body)
    ensures var line := Tagged(KindWord(kind), body) + [NEWLINE];
            && EndsWithNewline(line)
            && ScanFile(line) == Ok(TranscriptLayout(if kind.MessageLine? then [0] else [],
                                                     if kind.CompactionLine? then [0] else [], |line|))
  {
    var text := Tagged(KindWord(kind), body);
    TaggedIsRecord(kind, body);
    hide *;
    RecordRow(text);
    ScanFileIs(text + [NEWLINE]);
    RowOfRecord(Row(0, text + [NEWLINE]), text);
    ExtendedByOne(EMPTY, Row(0, text + [NEWLINE]));
    OneLine(Row(0, text + [NEWLINE]), kind);
  }

  lemma QuotedLength(word: seq<byte>)
    requires IsPlain(word)
    ensures |Quoted(word)| == |word| + 2
  {
    EscapePlain(word);
    hide Escape;
  }

  lemma TaggedLength(a: seq<byte>, b: seq<byte>, body: Members)
    requires |Quoted(a)| == |Quoted(b)|
    ensures |Tagged(a, body)| == |Tagged(b, body)|
  {
    hide Quoted, Print;
  }

  lemma WordsOfOneLength(body: Members)
    ensures |Tagged(KindWord(SessionLine), body)| == |Tagged(KindWord(MessageLine), body)|
  {
    hide Tagged, Quoted;
    QuotedLength(SESSION);
    QuotedLength(MESSAGE);
    assert |SESSION| == |MESSAGE|;
    TaggedLength(SESSION, MESSAGE, body);
  }

  /**
   * A transcript that holds only its header is rewritten, at the same length
   * or with any more lines, so that it begins with a message: refreshing the
   * old layout never sees that message, a scan from scratch does.
   */
  lemma RewriteIsTrusted(body: Members, more: seq<byte>)
    requires WellFormed(SessionLine, body) && WellFormed(MessageLine, body)
    ensures var before := Tagged(KindWord(SessionLine), body) + [NEWLINE];
            var after := Tagged(KindWord(MessageLine), body) + [NEWLINE] + more;
            var base := TranscriptLayout([], [], |before|);
            && ScanFile(before) == Ok(base) && |after| == |before| + |more|
            && (AllText(Rows(more, |before|)) ==> Refresh(Some(after), base) != ScanFile(after))
  {
    OneLineScanned(SessionLine, body);
    OneLineScanned(MessageLine, body);
    WordsOfOneLength(body);
    hide Tagged, KindWord, ScanFile, Refresh, Rows, AllText, EndsWithNewline, WellFormed, StraddlesHarmlessly;
    var line := Tagged(KindWord(MessageLine), body) + [NEWLINE];
    var after, base := line + more, TranscriptLayout([], [], |line|);
    assert after[..|line|] == line && after[|line|..] == more;
    RefreshIsExact(after, base);
    if AllText(Rows(more, |line|)) {
      assert ScanFile(line) != Ok(base);
    }
  }

  // ----- a record without its newline -----

  /** A header line, and a message whose newline was cut off. */
  function Unterminated(header: Members, body: Members): seq<byte> {
    Tagged(KindWord(SessionLine), header) + [NEWLINE] + Tagged(KindWord(MessageLine), body)
  }

  lemma {:induction false} CompleteLengthIs(line: seq<byte>, rest: seq<byte>)
    requires line != [] && EndsWithNewline(line) && forall k :: 0 <= k < |rest| ==> rest[k] != NEWLINE
    ensures CompleteLength(line + rest) == |line|
    decreases |rest|
  {
    if rest == [] {
      assert line + rest == line;
    } else {
      var file := line + rest;
      assert file[..|file| - 1] == line + rest[..|rest| - 1];
      assert file[|file| - 1] == rest[|rest| - 1];
      CompleteLengthIs(line, rest[..|rest| - 1]);
    }
  }

  lemma TailAt(line: seq<byte>, text: seq<byte>)
    ensures |line + text| - |text| == |line|
  {}

  lemma UnterminatedIs(header: Members, body: Members)
    ensures Unterminated(header, body) ==
            Tagged(KindWord(SessionLine), header) + [NEWLINE] + Tagged(KindWord(MessageLine), body)
  {}

  lemma StripRecord(text: seq<byte>)
    requires IsRecord(text)
    ensures Strip(text) == text
  {
    RecordHasNoNewline(text);
    hide IsRecord;
  }

  lemma RecordNotEmpty(text: seq<byte>)
    requires IsRecord(text)
    ensures text != []
  {
    RecordEnds(text);
  }

  lemma TornTail(line: seq<byte>, text: seq<byte>)
    requires IsRecord(text) && line != [] && EndsWithNewline(line)
    ensures CompleteLength(line + text) == |line| && TornRow(line + text) == [Row(|line|, text)]
    ensures Rows(text, |line|) == [Row(|line|, text)]
  {
    RecordHasNoNewline(text);
    RecordNotEmpty(text);
    hide IsRecord, Rows, CompleteLength, EndsWithNewline;
    assert forall k :: 0 <= k < |text| ==> text[k] in text;
    CompleteLengthIs(line, text);
    OneTornRow(text, |line|);
    assert (line + text)[|line|..] == text;
  }

  lemma RecordIsText(row: Row)
    requires IsRecord(row.text)
    ensures AllText([row])
  {
    hide IsObjectText;
  }

  lemma TornText(line: seq<byte>, text: seq<byte>)
    requires IsRecord(text) && line != [] && EndsWithNewline(line) && AllText(Rows(line, 0))
    ensures AllText(Rows(line + text, 0)) && TornRow(line + text) == [Row(|line|, text)]
  {
    hide *;
    TornTail(line, text);
    RowsConcat(line, text, 0);
    RecordIsText(Row(|line|, text));
    AllTextConcat(Rows(line, 0), [Row(|line|, text)]);
    assert 0 + |line| == |line|;
  }

  /** A record after a line of text: everything is text, and the record is the torn row. */
  lemma TornRecord(line: seq<byte>, text: seq<byte>)
    requires IsRecord(text) && line != [] && EndsWithNewline(line) && AllText(Rows(line, 0))
    ensures |text| <= |line + text| && AllText(Rows(line + text, 0))
    ensures TornRow(line + text) == [Row(|line + text| - |text|, text)]
    ensures KindOf(Row(|line + text| - |text|, text)) == SniffLine(text) && Trim(text) == text
  {
    hide *;
    TornText(line, text);
    TailAt(line, text);
    StripRecord(text);
    RowOfRecord(Row(|line|, text), text);
  }

  lemma UnterminatedRows(header: Members, body: Members)
    requires WellFormed(SessionLine, header) && WellFormed(MessageLine, body)
    ensures var file := Unterminated(header, body);
            var text := Tagged(KindWord(MessageLine), body);
            && |text| <= |file| && AllText(Rows(file, 0))
            && TornRow(file) == [Row(|file| - |text|, text)]
            && KindOf(Row(|file| - |text|, text)) == Some(MessageLine) && Trim(text) == text
  {
    hide *;
    var h, text := Tagged(KindWord(SessionLine), header), Tagged(KindWord(MessageLine), body);
    TaggedIsRecord(SessionLine, header);
    TaggedIsRecord(MessageLine, body);
    OneLineScanned(SessionLine, header);
    UnterminatedIs(header, body);
    RecordRow(h);
    TornRecord(h + [NEWLINE], text);
  }

  lemma TailIsShown<M, C>(file: seq<byte>, layout: TranscriptLayout, text: seq<byte>,
                          decodeM: seq<byte> -> Option<M>, decodeC: seq<byte> -> Option<C>)
    requires |text| <= |file| && TornRow(file) == [Row(|file| - |text|, text)]
    requires KindOf(Row(|file| - |text|, text)) == Some(MessageLine) && Trim(text) == text && decodeM(text).Some?
    ensures TailShows(file, layout, decodeM, decodeC, 0, None)
  {
    hide TornRow, KindOf, Trim;
  }

  /** Only the sequential reader returns that message. */
  lemma UnterminatedDiffers<M, C>(header: Members, body: Members, decodeM: seq<byte> -> Option<M>, decodeC: seq<byte> -> Option<C>)
    requires WellFormed(SessionLine, header) && WellFormed(MessageLine, body)
    requires decodeM(Tagged(KindWord(MessageLine), body)).Some?
    ensures var file := Unterminated(header, body);
            && ScanFile(file).Ok?
            && SeekRead(Some(file), ScanFile(file).value, decodeM, decodeC, 0, None) !=
                 ReadRows(FileRows(Some(file)), decodeM, decodeC, 0, None)
  {
    hide *;
    var file := Unterminated(header, body);
    UnterminatedRows(header, body);
    ScanFileIs(file);
    ReadersAgree(file, ScanFile(file).value, decodeM, decodeC, 0, None);
    TailIsShown(file, ScanFile(file).value, Tagged(KindWord(MessageLine), body), decodeM, decodeC);
  }

  // ----- a write cut inside a character -----

  lemma CutOffBoundary(h: seq<byte>, text: seq<byte>, rest: seq<Append>, k: nat)
    requires k < |text| && IsContinuation(text[k])
    ensures !CutsAtBoundaries(None, Some(h), [Append(text, |h| + 1 + k)] + rest)
  {
    var a := Append(text, |h| + 1 + k);
    assert ([a] + rest)[0] == a;
    assert Buffer(None, Some(h), a.text)[a.cut] == a.text[k];
  }

  lemma AppendsFirst(event: Event, later: seq<Event>)
    ensures Appends([event] + later) == [Append(Text(event.record), event.cut)] + Appends(later)
  {
    hide Text;
    assert ([event] + later)[1..] == later;
  }

  /**
   * The write of the first record of a transcript stops before a continuing
   * byte of one of its characters: whatever is appended later, reading fails.
   */
  lemma TornCharacterIsForever<M(!new), C(!new)>(header: Members, record: Record, k: nat, later: seq<Event>,
                                                 decodeM: seq<byte> -> Option<M>, decodeC: seq<byte> -> Option<C>)
    requires WellFormed(SessionLine, header) && RecordOk(record) && forall e :: e in later ==> RecordOk(e.record)
    requires k < |Text(record)| && IsContinuation(Text(record)[k])
    requires OnlyObjects(decodeM) && OnlyObjects(decodeC)
    ensures var h := Tagged(KindWord(SessionLine), header);
            var events := [Event(record, |h| + 1 + k)] + later;
            ReadRows(FileRows(FileAfter(None, Some(h), Appends(events))), decodeM, decodeC, 0, None) == Err(InvalidUtf8)
  {
    hide *;
    var h := Tagged(KindWord(SessionLine), header);
    var events := [Event(record, |h| + 1 + k)] + later;
    assert events[0] == Event(record, |h| + 1 + k);
    assert forall e :: e in events ==> e == events[0] || e in later;
    TranscriptSurvives(header, events, decodeM, decodeC);
    AppendsFirst(events[0], later);
    CutOffBoundary(h, Text(record), Appends(later), k);
  }

  /** The fields of a message that holds one two-byte letter, e with an acute accent. */
  const ACCENTED := Member([0x61], String([0xC3, 0xA9]), NoMembers)

  lemma AccentedText()
    ensures ValidMembers(ACCENTED) && TextMembers(ACCENTED)
  {
    var letter: seq<byte> := [0xC3, 0xA9];
    assert StartsWithChar(letter, 2) && letter[2..] == [];
    AsciiIsUtf8([0x61]);
    assert TextMembers(NoMembers);
    assert TextValue(String([0xC3, 0xA9]));
  }

  lemma AccentedByte()
    ensures 0xA9 in PrintMembers(ACCENTED)
  {
    EscapePlain([0xC3, 0xA9]);
    hide Escape;
    assert 0xA9 in Quoted([0xC3, 0xA9]);
    assert PrintMembers(ACCENTED) == Quoted([0x61]) + ([COLON] + (Print(String([0xC3, 0xA9])) + []));
  }

  lemma FieldsInText(kind: LineKind, body: Members, b: byte)
    requires b in PrintMembers(body)
    ensures b in Tagged(KindWord(kind), body)
  {
    ObjectTail(body);
    hide Quoted, Print, KindWord;
    assert body.Member?;
    assert b in Print(Object(body))[1..];
    assert b in [COMMA] + Print(Object(body))[1..];
  }

  /** There is such a record. */
  lemma AccentedOk() returns (k: nat)
    ensures RecordOk(MessageRecord(ACCENTED))
    ensures k < |Text(MessageRecord(ACCENTED))| && IsContinuation(Text(MessageRecord(ACCENTED))[k])
  {
    AccentedText();
    TaggedIsText(MessageLine, ACCENTED);
    AccentedByte();
    FieldsInText(MessageLine, ACCENTED, 0xA9);
    hide Tagged, KindWord, PrintMembers, ValidUtf8;
    var text := Text(MessageRecord(ACCENTED));
    k :| k < |text| && text[k] == 0xA9;
  }

  // ----- the same on given bytes -----

  lemma AccentedEverywhere(kind: LineKind)
    ensures WellFormed(kind, ACCENTED)
  {
    AccentedText();
    TaggedIsText(kind, ACCENTED);
    hide ValidUtf8, Tagged, KindWord;
  }

  lemma NothingIsText(offset: nat)
    ensures AllText(Rows([], offset))
  {}

  /** A file and a rewrite of the same length whose refreshed layout is wrong. */
  lemma RewriteShows() returns (before: seq<byte>, after: seq<byte>, base: TranscriptLayout)
    ensures ScanFile(before) == Ok(base) && |after| == |before| && Refresh(Some(after), base) != ScanFile(after)
  {
    hide *;
    AccentedEverywhere(SessionLine);
    AccentedEverywhere(MessageLine);
    RewriteIsTrusted(ACCENTED, []);
    before := Tagged(KindWord(SessionLine), ACCENTED) + [NEWLINE];
    after := Tagged(KindWord(MessageLine), ACCENTED) + [NEWLINE] + [];
    base := TranscriptLayout([], [], |before|);
    NothingIsText(|before|);
  }

  /** A file on which the two readers differ, whatever the records are decoded to. */
  lemma UnterminatedShows() returns (file: seq<byte>, layout: TranscriptLayout, decode: seq<byte> -> Option<seq<byte>>)
    ensures ScanFile(file) == Ok(layout)
    ensures SeekRead(Some(file), layout, decode, decode, 0, None) != ReadRows(FileRows(Some(file)), decode, decode, 0, None)
  {
    hide *;
    AccentedEverywhere(SessionLine);
    AccentedEverywhere(MessageLine);
    decode := (t: seq<byte>) => Some(t);
    UnterminatedDiffers(ACCENTED, ACCENTED, decode, decode);
    file := Unterminated(ACCENTED, ACCENTED);
    layout := ScanFile(file).value;
  }
}
