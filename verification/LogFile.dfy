/**
 * Append-only JSONL files: their lines, and appends that a crash may cut short
 * at any byte (crates/host-core/src/transcripts.rs).
 */
module LogFile {
  import opened Wrappers
  import opened Bytes
  import opened Json
  import opened Utf8

  const NEWLINE: byte := 0x0A

  /** The newline-terminated lines of a file, without their newlines, and what follows the last one. */
  datatype Log = Log(lines: seq<seq<byte>>, tail: seq<byte>) {
    /** The lines a reader sees: an empty tail is no line. */
    function Texts(): seq<seq<byte>> {
      if tail == [] then lines else lines + [tail]
    }
  }

  function Feed(log: Log, bytes: seq<byte>): Log
    decreases |bytes|
  {
    if bytes == [] then log
    else if bytes[0] == NEWLINE then Feed(Log(log.lines + [log.tail], []), bytes[1..])
    else Feed(Log(log.lines, log.tail + [bytes[0]]), bytes[1..])
  }

  function LogOf(file: seq<byte>): Log {
    Feed(Log([], []), file)
  }

  lemma {:induction false} FeedConcat(log: Log, a: seq<byte>, b: seq<byte>)
    ensures Feed(log, a + b) == Feed(Feed(log, a), b)
    decreases |a|
  {
    if a == [] {
      assert a + b == b;
    } else {
      assert (a + b)[1..] == a[1..] + b;
      FeedConcat(if a[0] == NEWLINE then Log(log.lines + [log.tail], []) else Log(log.lines, log.tail + [a[0]]), a[1..], b);
    }
  }

  lemma {:induction false} FeedText(log: Log, text: seq<byte>)
    requires NEWLINE !in text
    ensures Feed(log, text) == Log(log.lines, log.tail + text)
    decreases |text|
  {
    if text == [] {
      assert log.tail + text == log.tail;
    } else {
      FeedText(Log(log.lines, log.tail + [text[0]]), text[1..]);
      assert log.tail + [text[0]] + text[1..] == log.tail + text;
    }
  }

  /** A file ends in a newline, or is empty, exactly when no tail is left. */
  lemma {:induction false} FeedTail(log: Log, bytes: seq<byte>)
    ensures Feed(log, bytes).tail == [] <==>
            if bytes == [] then log.tail == [] else bytes[|bytes| - 1] == NEWLINE
    decreases |bytes|
  {
    if bytes != [] {
      var next := if bytes[0] == NEWLINE then Log(log.lines + [log.tail], []) else Log(log.lines, log.tail + [bytes[0]]);
      FeedTail(next, bytes[1..]);
    }
  }

  // ----- appending -----

  /** One append_line call, of whose buffer only the first cut bytes reached the disk. */
  datatype Append = Append(text: seq<byte>, cut: nat)

  /** An empty file counts as terminated. */
  predicate EndsWithNewline(file: seq<byte>) {
    file == [] || file[|file| - 1] == NEWLINE
  }

  /** Everything append_line hands to one write. */
  function Buffer(file: Option<seq<byte>>, header: Option<seq<byte>>, text: seq<byte>): seq<byte> {
    var front :=
      if file.None? then (if header.None? then [] else header.value + [NEWLINE])
      else if EndsWithNewline(file.value) then []
      else [NEWLINE];
    front + (text + [NEWLINE])
  }

  function Torn(buffer: seq<byte>, cut: nat): seq<byte> {
    if cut >= |buffer| then buffer else buffer[..cut]
  }

  function AfterAppend(file: Option<seq<byte>>, header: Option<seq<byte>>, a: Append): seq<byte> {
    (if file.None? then [] else file.value) + Torn(Buffer(file, header, a.text), a.cut)
  }

  function FileAfter(file: Option<seq<byte>>, header: Option<seq<byte>>, history: seq<Append>): Option<seq<byte>>
    decreases |history|
  {
    if history == [] then file
    else FileAfter(Some(AfterAppend(file, header, history[0])), header, history[1..])
  }

  /** The record's JSON text reached the disk completely; its final newline may be missing. */
  predicate FullyWritten(file: Option<seq<byte>>, header: Option<seq<byte>>, a: Append) {
    a.cut + 1 >= |Buffer(file, header, a.text)|
  }

  /** The texts one append leaves on disk complete; the header is one if this write creates the file. */
  function WrittenBy(file: Option<seq<byte>>, header: Option<seq<byte>>, a: Append): seq<seq<byte>> {
    (if file.None? && header.Some? && a.cut >= |header.value| then [header.value] else []) +
    (if FullyWritten(file, header, a) then [a.text] else [])
  }

  /** The texts a history leaves on disk complete, in order. */
  function Written(file: Option<seq<byte>>, header: Option<seq<byte>>, history: seq<Append>): seq<seq<byte>>
    decreases |history|
  {
    if history == [] then []
    else WrittenBy(file, header, history[0]) +
         Written(Some(AfterAppend(file, header, history[0])), header, history[1..])
  }

  predicate CutAtBoundary(file: Option<seq<byte>>, header: Option<seq<byte>>, a: Append) {
    AtBoundary(Buffer(file, header, a.text), a.cut)
  }

  /** No write was cut inside a character. */
  predicate CutsAtBoundaries(file: Option<seq<byte>>, header: Option<seq<byte>>, history: seq<Append>)
    decreases |history|
  {
    history == [] ||
    (CutAtBoundary(file, header, history[0]) &&
     CutsAtBoundaries(Some(AfterAppend(file, header, history[0])), header, history[1..]))
  }

  // ----- what a log holds -----

  /** What the writers append: one complete JSON object, held in a String. */
  ghost predicate IsRecord(text: seq<byte>) {
    IsObjectText(text) && ValidUtf8(text)
  }

  ghost predicate AllRecords(history: seq<Append>) {
    forall k :: 0 <= k < |history| ==> IsRecord(history[k].text)
  }

  ghost function Objects(texts: seq<seq<byte>>): seq<seq<byte>> {
    if texts == [] then []
    else (if IsObjectText(texts[0]) then [texts[0]] else []) + Objects(texts[1..])
  }

  predicate AllUtf8(texts: seq<seq<byte>>) {
    texts == [] || (ValidUtf8(texts[0]) && AllUtf8(texts[1..]))
  }

  /** The part of text a reader sees as a line when its first n bytes are on disk. */
  function Piece(text: seq<byte>, n: int): seq<seq<byte>> {
    if n <= 0 || text == [] then [] else if n < |text| then [text[..n]] else [text]
  }

  /** What one append adds to the lines of the file. */
  function Pieces(file: Option<seq<byte>>, header: Option<seq<byte>>, a: Append): seq<seq<byte>> {
    var front := |Buffer(file, header, a.text)| - |a.text| - 1;
    (if file.None? && header.Some? then Piece(header.value, a.cut) else []) + Piece(a.text, a.cut - front)
  }

  lemma {:induction false} ObjectsConcat(a: seq<seq<byte>>, b: seq<seq<byte>>)
    ensures Objects(a + b) == Objects(a) + Objects(b)
  {
    if a == [] {
      assert a + b == b;
    } else {
      assert (a + b)[1..] == a[1..] + b;
      ObjectsConcat(a[1..], b);
    }
  }

  lemma {:induction false} AllUtf8Concat(a: seq<seq<byte>>, b: seq<seq<byte>>)
    ensures AllUtf8(a + b) <==> AllUtf8(a) && AllUtf8(b)
  {
    if a == [] {
      assert a + b == b;
    } else {
      assert (a + b)[1..] == a[1..] + b;
      AllUtf8Concat(a[1..], b);
    }
  }

  lemma {:induction false} EscapeNoControl(s: seq<byte>)
    ensures forall k :: 0 <= k < |Escape(s)| ==> Escape(s)[k] >= 0x20
  {
    if s != [] { EscapeNoControl(s[1..]); }
  }

  lemma QuotedNoControl(s: seq<byte>)
    ensures forall k :: 0 <= k < |Quoted(s)| ==> Quoted(s)[k] >= 0x20
  {
    EscapeNoControl(s);
  }

  lemma {:induction false} NoControlBytes(v: Json, k: nat)
    requires Valid(v) && k < |Print(v)|
    ensures Print(v)[k] >= 0x20
    decreases v
  {
    match v {
      case String(content) => QuotedNoControl(content);
      case Array(items) => if 0 < k < |Print(v)| - 1 { ItemsNoControl(items, k - 1); }
      case Object(members) => if 0 < k < |Print(v)| - 1 { MembersNoControl(members, k - 1); }
      case Number(text) => assert IsNumberByte(text[k]);
      case _ =>
    }
  }

  lemma {:induction false} ItemsNoControl(items: Items, k: nat)
    requires ValidItems(items) && k < |PrintItems(items)|
    ensures PrintItems(items)[k] >= 0x20
    decreases items
  {
    var n := |Print(items.head)|;
    if k < n {
      NoControlBytes(items.head, k);
    } else if k > n {
      ItemsNoControl(items.tail, k - n - 1);
    }
  }

  lemma {:induction false} MembersNoControl(members: Members, k: nat)
    requires ValidMembers(members) && k < |PrintMembers(members)|
    ensures PrintMembers(members)[k] >= 0x20
    decreases members
  {
    QuotedNoControl(members.key);
    var q := |Quoted(members.key)|;
    var n := |Print(members.value)|;
    if q < k <= q + n {
      NoControlBytes(members.value, k - q - 1);
    } else if k > q + n + 1 {
      MembersNoControl(members.rest, k - q - n - 2);
    }
  }

  lemma RecordHasNoNewline(text: seq<byte>)
    requires IsObjectText(text)
    ensures NEWLINE !in text && text != []
  {
    var members :| IsTextOf(text, members);
    if NEWLINE in text {
      var k :| 0 <= k < |text| && text[k] == NEWLINE;
      NoControlBytes(Object(members), k);
      assert false;
    }
  }

  /** A piece counts as a record only if it is whole. */
  lemma PieceObjects(text: seq<byte>, n: int)
    requires IsRecord(text)
    ensures Objects(Piece(text, n)) == if n >= |text| then [text] else []
  {
    RecordHasNoNewline(text);
    if 0 <= n < |text| { TornObjectIsIncomplete(text, n); }
  }

  /** A piece is text only if the cut is not inside a character. */
  lemma PieceUtf8(text: seq<byte>, n: int)
    requires ValidUtf8(text)
    ensures AllUtf8(Piece(text, n)) <==> n < 0 || AtBoundary(text + [NEWLINE], n)
  {
    if 0 <= n < |text| { PrefixValid(text, n); }
  }

  lemma TornLine(lines: seq<seq<byte>>, text: seq<byte>, k: nat)
    requires NEWLINE !in text && text != []
    ensures Feed(Log(lines, []), Torn(text + [NEWLINE], k)).Texts() == lines + Piece(text, k)
    ensures k > |text| ==> Feed(Log(lines, []), Torn(text + [NEWLINE], k)) == Log(lines + [text], [])
  {
    if k <= |text| {
      assert Torn(text + [NEWLINE], k) == text[..k];
      FeedText(Log(lines, []), text[..k]);
      assert [] + text[..k] == text[..k];
    } else {
      FeedConcat(Log(lines, []), text, [NEWLINE]);
      FeedText(Log(lines, []), text);
      assert [] + text == text;
    }
  }

  /** The boundary of a cut does not depend on what is written before it. */
  lemma TornAfter(front: seq<byte>, rest: seq<byte>, cut: nat)
    requires cut >= |front|
    ensures Torn(front + rest, cut) == front + Torn(rest, cut - |front|)
    ensures AtBoundary(front + rest, cut) <==> AtBoundary(rest, cut - |front|)
  {
    if cut < |front + rest| {
      assert (front + rest)[..cut] == front + rest[..cut - |front|];
      assert (front + rest)[cut] == rest[cut - |front|];
    }
  }

  lemma TornOntoTail(log: Log, text: seq<byte>, cut: nat)
    requires log.tail != [] && NEWLINE !in text && text != []
    ensures Feed(log, Torn([NEWLINE] + (text + [NEWLINE]), cut)).Texts() == log.Texts() + Piece(text, cut - 1)
  {
    var rest := text + [NEWLINE];
    if cut == 0 {
      assert Torn([NEWLINE] + rest, 0) == [];
    } else {
      TornAfter([NEWLINE], rest, cut);
      FeedConcat(log, [NEWLINE], Torn(rest, cut - 1));
      assert Feed(log, [NEWLINE]) == Log(log.Texts(), []);
      TornLine(log.Texts(), text, cut - 1);
    }
  }

  lemma TornAfterHeader(h: seq<byte>, text: seq<byte>, cut: nat)
    requires NEWLINE !in h && h != [] && NEWLINE !in text && text != []
    ensures LogOf(Torn(h + [NEWLINE] + (text + [NEWLINE]), cut)).Texts() == Piece(h, cut) + Piece(text, cut - |h| - 1)
  {
    var line, rest := h + [NEWLINE], text + [NEWLINE];
    if cut > |h| {
      TornAfter(line, rest, cut);
      FeedConcat(Log([], []), line, Torn(rest, cut - |line|));
      TornLine([], h, |h| + 1);
      assert [] + [h] == [h];
      TornLine([h], text, cut - |line|);
    } else {
      assert Torn(line + rest, cut) == Torn(line, cut);
      TornLine([], h, cut);
    }
  }

  lemma TornOntoFile(prior: seq<byte>, text: seq<byte>, cut: nat)
    requires NEWLINE !in text && text != []
    ensures var front := if EndsWithNewline(prior) then [] else [NEWLINE];
            LogOf(prior + Torn(front + (text + [NEWLINE]), cut)).Texts() ==
            LogOf(prior).Texts() + Piece(text, cut - |front|)
  {
    var front := if EndsWithNewline(prior) then [] else [NEWLINE];
    var log := LogOf(prior);
    FeedConcat(Log([], []), prior, Torn(front + (text + [NEWLINE]), cut));
    FeedTail(Log([], []), prior);
    if EndsWithNewline(prior) {
      assert front + (text + [NEWLINE]) == text + [NEWLINE];
      TornLine(log.lines, text, cut);
    } else {
      TornOntoTail(log, text, cut);
    }
  }

  lemma TornAlone(text: seq<byte>, cut: nat)
    requires NEWLINE !in text && text != []
    ensures LogOf(Torn(text + [NEWLINE], cut)).Texts() == Piece(text, cut)
  {
    hide Feed, Piece, Torn;
    TornLine([], text, cut);
    assert [] + Piece(text, cut) == Piece(text, cut);
  }

  lemma AppendToNewFile(header: Option<seq<byte>>, a: Append)
    requires NEWLINE !in a.text && a.text != [] && (header.Some? ==> NEWLINE !in header.value && header.value != [])
    ensures LogOf(AfterAppend(None, header, a)).Texts() == Pieces(None, header, a)
  {
    hide Feed, LogOf, Piece, Torn;
    var buffer := Buffer(None, header, a.text);
    assert [] + Torn(buffer, a.cut) == Torn(buffer, a.cut);
    if header.Some? {
      TornAfterHeader(header.value, a.text, a.cut);
    } else {
      assert buffer == a.text + [NEWLINE];
      TornAlone(a.text, a.cut);
      assert [] + Piece(a.text, a.cut) == Piece(a.text, a.cut);
    }
  }

  function LogBefore(file: Option<seq<byte>>): Log {
    if file.None? then Log([], []) else LogOf(file.value)
  }

  lemma PiecesOntoFile(prior: seq<byte>, header: Option<seq<byte>>, a: Append)
    ensures Pieces(Some(prior), header, a) == Piece(a.text, a.cut - |if EndsWithNewline(prior) then [] else [NEWLINE]|)
    ensures AfterAppend(Some(prior), header, a) ==
            prior + Torn((if EndsWithNewline(prior) then [] else [NEWLINE]) + (a.text + [NEWLINE]), a.cut)
  {
    hide Piece, Torn, EndsWithNewline;
    var all := Piece(a.text, a.cut - |if EndsWithNewline(prior) then [] else [NEWLINE]|);
    assert [] + all == all;
  }

  /** An append, cut anywhere, leaves the earlier lines alone and adds its pieces. */
  lemma AppendAddsPieces(file: Option<seq<byte>>, header: Option<seq<byte>>, a: Append)
    requires NEWLINE !in a.text && a.text != [] && (header.Some? ==> NEWLINE !in header.value && header.value != [])
    ensures LogOf(AfterAppend(file, header, a)).Texts() == LogBefore(file).Texts() + Pieces(file, header, a)
  {
    hide Feed, LogOf, Piece, Pieces, Torn, EndsWithNewline, AfterAppend, Buffer;
    if file.Some? {
      TornOntoFile(file.value, a.text, a.cut);
      PiecesOntoFile(file.value, header, a);
    } else {
      AppendToNewFile(header, a);
      assert [] + Pieces(file, header, a) == Pieces(file, header, a);
    }
  }

  /** Whatever comes before the text in the buffer, a cut is judged by the text alone. */
  lemma CutInText(front: seq<byte>, text: seq<byte>, cut: nat)
    requires cut < |front| ==> AtBoundary(front, cut)
    ensures AtBoundary(front + (text + [NEWLINE]), cut) <==>
            cut < |front| || AtBoundary(text + [NEWLINE], cut - |front|)
  {
    if cut >= |front| {
      TornAfter(front, text + [NEWLINE], cut);
    } else {
      assert (front + (text + [NEWLINE]))[cut] == front[cut];
    }
  }

  lemma HeaderCut(h: seq<byte>, text: seq<byte>, cut: nat)
    ensures AtBoundary(h + [NEWLINE] + (text + [NEWLINE]), cut) <==>
            AtBoundary(h + [NEWLINE], cut) && (cut <= |h| || AtBoundary(text + [NEWLINE], cut - |h| - 1))
  {
    var line := h + [NEWLINE];
    if cut < |line| {
      assert (line + (text + [NEWLINE]))[cut] == line[cut];
    } else {
      CutInText(line, text, cut);
    }
  }

  lemma PlainShape(file: Option<seq<byte>>, header: Option<seq<byte>>, a: Append, front: seq<byte>)
    requires file.Some? || header.None?
    requires front == if file.None? || EndsWithNewline(file.value) then [] else [NEWLINE]
    ensures Buffer(file, header, a.text) == front + (a.text + [NEWLINE])
    ensures Pieces(file, header, a) == Piece(a.text, a.cut - |front|)
    ensures FullyWritten(file, header, a) <==> a.cut - |front| >= |a.text|
  {}

  lemma HeaderObjects(h: seq<byte>, a: Append)
    requires IsRecord(a.text) && IsRecord(h)
    ensures Objects(Pieces(None, Some(h), a)) == WrittenBy(None, Some(h), a)
  {
    hide IsObjectText;
    PieceObjects(h, a.cut);
    PieceObjects(a.text, a.cut - |h| - 1);
    ObjectsConcat(Piece(h, a.cut), Piece(a.text, a.cut - |h| - 1));
  }

  /** The pieces of one append that are records. */
  lemma PiecesObjects(file: Option<seq<byte>>, header: Option<seq<byte>>, a: Append)
    requires IsRecord(a.text) && (header.Some? ==> IsRecord(header.value))
    ensures Objects(Pieces(file, header, a)) == WrittenBy(file, header, a)
  {
    hide IsObjectText;
    if file.None? && header.Some? {
      HeaderObjects(header.value, a);
    } else {
      var front := if file.None? || EndsWithNewline(file.value) then [] else [NEWLINE];
      PlainShape(file, header, a, front);
      PieceObjects(a.text, a.cut - |front|);
    }
  }

  /** The pieces of one append are text iff the write was not cut inside a character. */
  lemma PiecesUtf8(file: Option<seq<byte>>, header: Option<seq<byte>>, a: Append)
    requires ValidUtf8(a.text) && (header.Some? ==> ValidUtf8(header.value))
    ensures AllUtf8(Pieces(file, header, a)) <==> CutAtBoundary(file, header, a)
  {
    if file.None? && header.Some? {
      var h := header.value;
      PieceUtf8(h, a.cut);
      PieceUtf8(a.text, a.cut - |h| - 1);
      AllUtf8Concat(Piece(h, a.cut), Piece(a.text, a.cut - |h| - 1));
      HeaderCut(h, a.text, a.cut);
    } else {
      var front := if file.None? || EndsWithNewline(file.value) then [] else [NEWLINE];
      PlainShape(file, header, a, front);
      PieceUtf8(a.text, a.cut - |front|);
      CutInText(front, a.text, a.cut);
    }
  }

  /** The complete objects grew by added, and the text is clean iff it was and clean holds. */
  ghost predicate Grows(was: Log, now: Log, added: seq<seq<byte>>, clean: bool) {
    && Objects(now.Texts()) == Objects(was.Texts()) + added
    && (AllUtf8(now.Texts()) <==> AllUtf8(was.Texts()) && clean)
  }

  /** One append, cut anywhere, onto any file: earlier lines stay, and the record counts iff it is whole. */
  lemma AppendStep(file: Option<seq<byte>>, header: Option<seq<byte>>, a: Append)
    requires IsRecord(a.text) && (header.Some? ==> IsRecord(header.value))
    ensures Grows(LogBefore(file), LogOf(AfterAppend(file, header, a)), WrittenBy(file, header, a),
                  CutAtBoundary(file, header, a))
  {
    RecordHasNoNewline(a.text);
    if header.Some? { RecordHasNoNewline(header.value); }
    AppendAddsPieces(file, header, a);
    PiecesObjects(file, header, a);
    PiecesUtf8(file, header, a);
    ObjectsConcat(LogBefore(file).Texts(), Pieces(file, header, a));
    AllUtf8Concat(LogBefore(file).Texts(), Pieces(file, header, a));
  }

  lemma GrowsTwice(a: Log, b: Log, c: Log, x: seq<seq<byte>>, y: seq<seq<byte>>, p: bool, q: bool)
    requires Grows(a, b, x, p) && Grows(b, c, y, q)
    ensures Grows(a, c, x + y, p && q)
  {
    hide Objects, AllUtf8, Log.Texts;
    assert Objects(a.Texts()) + x + y == Objects(a.Texts()) + (x + y);
  }

  /**
   * Over every history of appends, each cut at any byte: the complete objects in
   * the file are, in order, those there before and those fully written since; a
   * torn tail takes no later record with it. The file is readable as text if and
   * only if it was before and no write was cut inside a character.
   */
  lemma {:induction false} TornHistory(file: Option<seq<byte>>, header: Option<seq<byte>>, history: seq<Append>)
    requires AllRecords(history) && (header.Some? ==> IsRecord(header.value))
    ensures Grows(LogBefore(file), LogBefore(FileAfter(file, header, history)), Written(file, header, history),
                  CutsAtBoundaries(file, header, history))
    decreases |history|
  {
    if history == [] {
      var texts := LogBefore(file).Texts();
      assert Objects(texts) + [] == Objects(texts);
    } else {
      var a, next := history[0], Some(AfterAppend(file, header, history[0]));
      AppendStep(file, header, a);
      TornHistory(next, header, history[1..]);
      GrowsTwice(LogBefore(file), LogBefore(next), LogBefore(FileAfter(file, header, history)),
                 WrittenBy(file, header, a), Written(next, header, history[1..]),
                 CutAtBoundary(file, header, a), CutsAtBoundaries(next, header, history[1..]));
    }
  }

  /** t is the beginning of some record's text, or all of it. */
  ghost predicate IsPiece(t: seq<byte>) {
    exists text :: IsRecord(text) && t <= text
  }

  /** Whatever is cut, each line of the file is a record or the beginning of one. */
  lemma {:induction false} LinesArePieces(file: Option<seq<byte>>, header: Option<seq<byte>>, history: seq<Append>)
    requires AllRecords(history) && (header.Some? ==> IsRecord(header.value))
    requires forall t :: t in LogBefore(file).Texts() ==> IsPiece(t)
    ensures forall t :: t in LogBefore(FileAfter(file, header, history)).Texts() ==> IsPiece(t)
    decreases |history|
  {
    if history != [] {
      var a, next := history[0], Some(AfterAppend(file, header, history[0]));
      RecordHasNoNewline(a.text);
      if header.Some? { RecordHasNoNewline(header.value); }
      AppendAddsPieces(file, header, a);
      forall t | t in Pieces(file, header, a) ensures IsPiece(t) {
        assert t <= a.text || (header.Some? && t <= header.value);
      }
      LinesArePieces(next, header, history[1..]);
    }
  }

  lemma BadCutIsForever(header: Option<seq<byte>>, bad: Append, later: seq<Append>)
    requires IsRecord(bad.text) && AllRecords(later) && (header.Some? ==> IsRecord(header.value))
    requires !AtBoundary(Buffer(None, header, bad.text), bad.cut)
    ensures !AllUtf8(LogBefore(FileAfter(None, header, [bad] + later)).Texts())
  {
    assert ([bad] + later)[1..] == later;
    AppendStep(None, header, bad);
    TornHistory(Some(AfterAppend(None, header, bad)), header, later);
  }

  lemma InsideText(header: Option<seq<byte>>, text: seq<byte>, k: nat)
    requires k < |text| && IsContinuation(text[k])
    ensures |Buffer(None, header, text)| - |text| - 1 + k >= 0
    ensures !AtBoundary(Buffer(None, header, text), |Buffer(None, header, text)| - |text| - 1 + k)
  {
    var front := if header.None? then [] else header.value + [NEWLINE];
    assert Buffer(None, header, text)[|front| + k] == text[k];
  }

  /**
   * Any record with a character of more than one byte can be cut so: if its
   * write stops before a continuing byte, the whole file is unreadable, and no
   * later append repairs it.
   */
  lemma CutInsideCharacter(header: Option<seq<byte>>, text: seq<byte>, k: nat, later: seq<Append>)
    requires IsRecord(text) && AllRecords(later) && (header.Some? ==> IsRecord(header.value))
    requires k < |text| && IsContinuation(text[k])
    ensures var cut := |Buffer(None, header, text)| - |text| - 1 + k;
            !AllUtf8(LogBefore(FileAfter(None, header, [Append(text, cut)] + later)).Texts())
  {
    hide *;
    var cut := |Buffer(None, header, text)| - |text| - 1 + k;
    InsideText(header, text, k);
    BadCutIsForever(header, Append(text, cut), later);
  }

  // ----- no crash -----

  function LinesOf(history: seq<Append>): seq<byte> {
    if history == [] then [] else history[0].text + [NEWLINE] + LinesOf(history[1..])
  }

  /** No write is cut short. */
  predicate Uncut(header: Option<seq<byte>>, a: Append) {
    a.cut >= |a.text| + 2 + (if header.Some? then |header.value| else 0)
  }

  lemma UncutAppend(file: Option<seq<byte>>, header: Option<seq<byte>>, a: Append)
    requires Uncut(header, a) && (file.Some? ==> EndsWithNewline(file.value))
    ensures var before := if file.Some? then file.value else if header.Some? then header.value + [NEWLINE] else [];
            AfterAppend(file, header, a) == before + (a.text + [NEWLINE]) && EndsWithNewline(AfterAppend(file, header, a))
  {}

  /** Without a crash a transcript is its header and its records, one a line, and nothing else. */
  lemma {:induction false} UncutHistory(file: Option<seq<byte>>, header: Option<seq<byte>>, history: seq<Append>)
    requires history != [] && (forall k :: 0 <= k < |history| ==> Uncut(header, history[k]))
    requires file.Some? ==> EndsWithNewline(file.value)
    ensures var before := if file.Some? then file.value else if header.Some? then header.value + [NEWLINE] else [];
            FileAfter(file, header, history) == Some(before + LinesOf(history))
    decreases |history|
  {
    hide AfterAppend, Uncut, EndsWithNewline;
    var before := if file.Some? then file.value else if header.Some? then header.value + [NEWLINE] else [];
    var line, next := history[0].text + [NEWLINE], AfterAppend(file, header, history[0]);
    UncutAppend(file, header, history[0]);
    if |history| == 1 {
      assert LinesOf(history) == line + LinesOf([]) == line;
    } else {
      UncutHistory(Some(next), header, history[1..]);
      assert before + line + LinesOf(history[1..]) == before + (line + LinesOf(history[1..]));
    }
  }

  // ----- the writer -----

  class JsonlFile {
    /** None while the file does not exist. */
    var content: Option<seq<byte>>

    /** cut: how many bytes of the write survive; the header goes only into a new file. */
    method AppendLine(header: Option<seq<byte>>, line: seq<byte>, cut: nat)
      modifies this
      ensures content == Some(AfterAppend(old(content), header, Append(line, cut)))
    {
      var buffer: seq<byte> := [];
      if content.None? {
        if header.Some? {
          buffer := header.value + [NEWLINE];
        }
      } else if !EndsWithNewline(content.value) {
        buffer := [NEWLINE];
      }
      buffer := buffer + (line + [NEWLINE]);
      var existing := if content.None? then [] else content.value;
      content := Some(existing + if cut >= |buffer| then buffer else buffer[..cut]);
    }
  }
}
