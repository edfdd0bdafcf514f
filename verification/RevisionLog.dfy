/**
 * read_revision: the newest decodable line of a family, over any history of
 * torn appends (crates/host-core/src/transcripts.rs).
 */
module RevisionLog {
  import opened Wrappers
  import opened Bytes
  import opened Json
  import opened Sniff
  import opened Utf8
  import opened JsonUtf8
  import opened Decimal
  import opened LogFile
  import opened Transcript
  import opened Layout
  import opened CrashSafety
  import opened Revisions

  datatype Payload<S, L> = Stored(stored: S) | Live(live: L)

  /** How the two kinds of record decode. */
  datatype Decoders<!S, !L> = Decoders(stored: seq<byte> -> Option<S>, live: seq<byte> -> Option<L>)

  predicate Matches(text: seq<byte>, root: seq<byte>, index: int) {
    match LineHead(text)
    case None => false
    case Some(head) => head.root == root && head.index == index
  }

  function DecodeAs<S, L>(d: Decoders<S, L>, kind: LineKind, text: seq<byte>): Option<Payload<S, L>> {
    if kind == RevisionLiveLine then
      var v := d.live(text);
      if v.Some? then Some(Live(v.value)) else None
    else
      var v := d.stored(text);
      if v.Some? then Some(Stored(v.value)) else None
  }

  /** What one line answers to a query. */
  function Answer<S, L>(d: Decoders<S, L>, text: seq<byte>, root: seq<byte>, index: int): Option<Payload<S, L>> {
    if Matches(text, root, index) then DecodeAs(d, LineHead(text).value.kind, text) else None
  }

  /** The newest row that answers. */
  function Newest<S, L>(d: Decoders<S, L>, rows: seq<Row>, root: seq<byte>, index: int): Option<Payload<S, L>> {
    if rows == [] then None
    else
      var answer := Answer(d, Trim(rows[|rows| - 1].text), root, index);
      if answer.Some? then answer else Newest(d, rows[..|rows| - 1], root, index)
  }

  /** Only newline-terminated lines are considered; a line that is not text fails the read. */
  function ReadRevisionRows<S, L>(d: Decoders<S, L>, rows: seq<Row>, root: seq<byte>, index: int)
    : Result<Option<Payload<S, L>>, ReadError>
  {
    if AllText(rows) then Ok(Newest(d, Whole(rows), root, index)) else Err(InvalidUtf8)
  }

  // ----- the implementation -----

  /** A matching line: its offset and its kind. */
  datatype Hit = Hit(offset: nat, kind: LineKind)

  function HitsOf(rows: seq<Row>, root: seq<byte>, index: int): seq<Hit> {
    if rows == [] then []
    else
      var last := rows[|rows| - 1];
      HitsOf(rows[..|rows| - 1], root, index) +
      (if Matches(Trim(last.text), root, index) then [Hit(last.offset, LineHead(Trim(last.text)).value.kind)] else [])
  }

  lemma HitsSnoc(rows: seq<Row>, row: Row, root: seq<byte>, index: int)
    ensures HitsOf(rows + [row], root, index) ==
            if Matches(Trim(row.text), root, index)
            then HitsOf(rows, root, index) + [Hit(row.offset, LineHead(Trim(row.text)).value.kind)]
            else HitsOf(rows, root, index)
  {
    hide Trim, LineHead;
    SnocRows(rows, row);
  }

  /** The line of one hit, read again at its offset and decoded. */
  function HitValue<S, L>(d: Decoders<S, L>, file: seq<byte>, hit: Hit): Option<Payload<S, L>> {
    if hit.offset < |file| then DecodeAs(d, hit.kind, Trim(RowAt(file, hit.offset).text)) else None
  }

  /** The newest hit that decodes. */
  function NewestHit<S, L>(d: Decoders<S, L>, file: seq<byte>, hits: seq<Hit>): Option<Payload<S, L>> {
    if hits == [] then None
    else
      var value := HitValue(d, file, hits[|hits| - 1]);
      if value.Some? then value else NewestHit(d, file, hits[..|hits| - 1])
  }

  lemma NewestHitSnoc<S, L>(d: Decoders<S, L>, file: seq<byte>, hits: seq<Hit>, hit: Hit)
    ensures NewestHit(d, file, hits + [hit]) == Or(HitValue(d, file, hit), NewestHit(d, file, hits))
  {
    hide HitValue;
    assert (hits + [hit])[..|hits|] == hits;
  }

  lemma NewestSnoc<S, L>(d: Decoders<S, L>, rows: seq<Row>, row: Row, root: seq<byte>, index: int)
    ensures Newest(d, rows + [row], root, index) == Or(Answer(d, Trim(row.text), root, index), Newest(d, rows, root, index))
  {
    hide Answer, Trim;
    SnocRows(rows, row);
  }

  ghost predicate RowsIn(file: seq<byte>, rows: seq<Row>) {
    forall k :: 0 <= k < |rows| ==> rows[k].offset < |file| && RowAt(file, rows[k].offset) == rows[k]
  }

  lemma RowsInSplit(file: seq<byte>, rows: seq<Row>, row: Row)
    requires RowsIn(file, rows + [row])
    ensures RowsIn(file, rows) && row.offset < |file| && RowAt(file, row.offset) == row
  {
    hide RowAt;
    var all := rows + [row];
    assert all[|rows|] == row;
    assert forall k :: 0 <= k < |rows| ==> all[k] == rows[k];
  }

  lemma OneHit<S, L>(d: Decoders<S, L>, file: seq<byte>, row: Row, root: seq<byte>, index: int)
    requires row.offset < |file| && RowAt(file, row.offset) == row && Matches(Trim(row.text), root, index)
    ensures HitValue(d, file, Hit(row.offset, LineHead(Trim(row.text)).value.kind)) == Answer(d, Trim(row.text), root, index)
  {
    hide DecodeAs, Trim, RowAt, LineHead;
  }

  lemma NoAnswer<S, L>(d: Decoders<S, L>, text: seq<byte>, root: seq<byte>, index: int)
    requires !Matches(text, root, index)
    ensures Answer(d, text, root, index) == None
  {}

  lemma MatchesIs(text: seq<byte>, root: seq<byte>, index: int)
    ensures Matches(text, root, index) <==>
            LineHead(text).Some? && LineHead(text).value.root == root && LineHead(text).value.index == index
  {}

  /** Reading the hits newest first is reading all rows newest first. */
  lemma {:induction false} HitsSuffice<S, L>(d: Decoders<S, L>, file: seq<byte>, rows: seq<Row>, root: seq<byte>, index: int)
    requires RowsIn(file, rows)
    ensures NewestHit(d, file, HitsOf(rows, root, index)) == Newest(d, rows, root, index)
  {
    if rows != [] {
      hide HitValue, NewestHit, Newest, HitsOf, Answer, Matches, Trim, RowsIn, RowAt, LineHead;
      var front, last := rows[..|rows| - 1], rows[|rows| - 1];
      assert rows == front + [last];
      RowsInSplit(file, front, last);
      HitsSuffice(d, file, front, root, index);
      HitsSnoc(front, last, root, index);
      NewestSnoc(d, front, last, root, index);
      var text := Trim(last.text);
      if Matches(text, root, index) {
        MatchesIs(text, root, index);
        OneHit(d, file, last, root, index);
        NewestHitSnoc(d, file, HitsOf(front, root, index), Hit(last.offset, LineHead(text).value.kind));
      } else {
        NoAnswer(d, text, root, index);
      }
    }
  }

  lemma RowsInSnoc(file: seq<byte>, rows: seq<Row>, at: nat)
    requires RowsIn(file, rows) && at < |file|
    ensures RowsIn(file, rows + [RowAt(file, at)]) && RowAt(file, at).offset == at
  {}

  lemma NoHits(file: seq<byte>, root: seq<byte>, index: int)
    ensures HitsOf([], root, index) == [] && RowsIn(file, [])
  {}

  lemma AllTerminatedSnoc(rows: seq<Row>, row: Row)
    requires AllTerminated(rows) && Terminated(row)
    ensures AllTerminated(rows + [row])
  {}

  lemma WholeTorn(rows: seq<Row>, row: Row)
    requires !Terminated(row)
    ensures Whole(rows + [row]) == rows
  {
    SnocRows(rows, row);
  }

  lemma WholeAll(rows: seq<Row>)
    requires AllTerminated(rows)
    ensures Whole(rows) == rows
  {}

  /** First pass: the hits among the terminated rows. */
  method CollectHits(bytes: seq<byte>, root: seq<byte>, index: int) returns (r: Result<seq<Hit>, ReadError>)
    ensures r.Err? <==> !AllText(Rows(bytes, 0))
    ensures r.Ok? ==> r.value == HitsOf(Whole(Rows(bytes, 0)), root, index) && RowsIn(bytes, Whole(Rows(bytes, 0)))
  {
    hide *;
    var at, hits := 0, [];
    ghost var seen: seq<Row> := [];
    ReadNone(bytes, 0);
    AllTerminatedNone();
    NoHits(bytes, root, index);
    assert bytes[0..] == bytes;
    while at < |bytes|
      invariant at <= |bytes| && Read(bytes, 0, at, seen)
      invariant AllTerminated(seen) && RowsIn(bytes, seen)
      invariant hits == HitsOf(seen, root, index)
    {
      var row := ReadLine(bytes, at);
      ReadStep(bytes, 0, at, seen);
      if !ValidUtf8(row.text) {
        return Err(InvalidUtf8);
      }
      if !Terminated(row) {
        TornIsLast(bytes, at);
        ReadAll(bytes, 0, seen + [row]);
        WholeTorn(seen, row);
        return Ok(hits);
      }
      RowsInSnoc(bytes, seen, at);
      AllTerminatedSnoc(seen, row);
      HitsSnoc(seen, row, root, index);
      MatchesIs(Trim(row.text), root, index);
      var head := RevisionLineHead(Trim(row.text));
      if head.Some? && head.value.root == root && head.value.index == index {
        hits := hits + [Hit(at, head.value.kind)];
      }
      seen := seen + [row];
      at := at + |row.text|;
    }
    ReadAll(bytes, 0, seen);
    WholeAll(seen);
    return Ok(hits);
  }

  /** Second pass: the matching lines again, newest first, until one decodes. */
  method DecodeNewest<S, L>(bytes: seq<byte>, d: Decoders<S, L>, hits: seq<Hit>) returns (r: Option<Payload<S, L>>)
    ensures r == NewestHit(d, bytes, hits)
  {
    hide DecodeAs, RowAt, Trim;
    var k := |hits|;
    assert hits[..k] == hits;
    while k > 0
      invariant 0 <= k <= |hits|
      invariant NewestHit(d, bytes, hits[..k]) == NewestHit(d, bytes, hits)
    {
      k := k - 1;
      assert hits[..k + 1][..k] == hits[..k];
      if hits[k].offset >= |bytes| {
        continue;
      }
      var row := ReadLine(bytes, hits[k].offset);
      var value := DecodeAs(d, hits[k].kind, Trim(row.text));
      if value.Some? {
        return value;
      }
    }
    return None;
  }

  lemma NothingToRead<S, L>(d: Decoders<S, L>, root: seq<byte>, index: int)
    ensures ReadRevisionRows(d, [], root, index) == Ok(None)
  {}

  method ReadRevision<S, L>(file: Option<seq<byte>>, d: Decoders<S, L>, root: seq<byte>, index: int)
    returns (r: Result<Option<Payload<S, L>>, ReadError>)
    ensures r == ReadRevisionRows(d, FileRows(file), root, index)
  {
    hide NewestHit, HitsOf, Newest, Whole, Rows, AllText, RowsIn;
    if file.None? {
      NothingToRead(d, root, index);
      return Ok(None);
    }
    var found := CollectHits(file.value, root, index);
    if found.Err? {
      return Err(InvalidUtf8);
    }
    HitsSuffice(d, file.value, Whole(Rows(file.value, 0)), root, index);
    var value := DecodeNewest(file.value, d, found.value);
    return Ok(value);
  }

  // ----- histories -----

  /** One append_revision or append_live_revision; fields are the record's other members. */
  datatype Revision = Revision(live: bool, root: seq<byte>, index: int, body: Members)

  function RevisionText(r: Revision): seq<byte> {
    Tagged(KindWord(if r.live then RevisionLiveLine else RevisionLine), r.body)
  }

  /** The body is what serde prints for such a record: unique keys, in any order, the family keys among them. */
  ghost predicate RevisionOk(r: Revision) {
    && ValidMembers(r.body) && ValidUtf8(RevisionText(r)) && IsI64(r.index)
    && UniqueKeys(r.body) && !HasKey(r.body, TYPE)
    && Lookup(r.body, ROOT_USER_ID) == Some(String(r.root))
    && Lookup(r.body, REVISION_INDEX) == Some(Number(PrintInt(r.index)))
  }

  lemma DigitsRun(s: seq<byte>)
    requires forall k :: 0 <= k < |s| ==> InNumber(s[k])
    ensures RunLength(s) == |s|
  {
    if s != [] { DigitsRun(s[1..]); }
  }

  lemma IndexPrinted(n: int)
    requires IsI64(n)
    ensures IndexOf(Number(PrintInt(n))) == Some(n)
  {
    ParsePrinted(n);
    DigitsValue(if n < 0 then -n else n);
    DigitsRun(PrintInt(n));
    assert PrintInt(n)[..|PrintInt(n)|] == PrintInt(n);
  }

  function Headed(r: Revision): Members {
    Member(TYPE, String(KindWord(if r.live then RevisionLiveLine else RevisionLine)), r.body)
  }

  lemma LookupSecond(key: seq<byte>, value: Json, rest: Members, wanted: seq<byte>)
    requires key != wanted
    ensures Lookup(Member(key, value, rest), wanted) == Lookup(rest, wanted)
  {}

  lemma LookupFirst(key: seq<byte>, value: Json, rest: Members)
    ensures Lookup(Member(key, value, rest), key) == Some(value)
  {}

  lemma KindOfWord(live: bool)
    ensures RevisionKind(KindWord(if live then RevisionLiveLine else RevisionLine)) ==
            Some(if live then RevisionLiveLine else RevisionLine)
  {
    assert |REVISION| == 8 && |REVISION_LIVE| == 13;
  }

  lemma HeadedKind(r: Revision)
    ensures KindIn(Headed(r)) == Some(if r.live then RevisionLiveLine else RevisionLine)
  {
    KindOfWord(r.live);
    hide KindWord, RevisionKind, Lookup;
    LookupFirst(TYPE, String(KindWord(if r.live then RevisionLiveLine else RevisionLine)), r.body);
  }

  lemma HeadedRoot(r: Revision)
    requires Lookup(r.body, ROOT_USER_ID) == Some(String(r.root))
    ensures RootIn(Headed(r)) == Some(Escape(r.root))
  {
    KeysDiffer();
    hide KindWord, Escape, Lookup;
    LookupSecond(TYPE, String(KindWord(if r.live then RevisionLiveLine else RevisionLine)), r.body, ROOT_USER_ID);
  }

  lemma HeadedIndex(r: Revision)
    requires IsI64(r.index) && Lookup(r.body, REVISION_INDEX) == Some(Number(PrintInt(r.index)))
    ensures IndexIn(Headed(r)) == Some(r.index)
  {
    KeysDiffer();
    IndexPrinted(r.index);
    hide KindWord, Lookup, PrintInt, IndexOf;
    LookupSecond(TYPE, String(KindWord(if r.live then RevisionLiveLine else RevisionLine)), r.body, REVISION_INDEX);
  }

  lemma HeadedShape(r: Revision)
    requires ValidMembers(r.body) && UniqueKeys(r.body) && !HasKey(r.body, TYPE)
    ensures UniqueKeys(Headed(r)) && ValidMembers(Headed(r))
  {
    hide KindWord;
  }

  lemma HeadedLookups(r: Revision)
    requires RevisionOk(r)
    ensures UniqueKeys(Headed(r)) && ValidMembers(Headed(r))
    ensures KindIn(Headed(r)) == Some(if r.live then RevisionLiveLine else RevisionLine)
    ensures RootIn(Headed(r)) == Some(Escape(r.root)) && IndexIn(Headed(r)) == Some(r.index)
  {
    hide Headed, KindWord, Escape, PrintInt, ValidUtf8, RevisionText, Lookup, KindIn, RootIn, IndexIn, UniqueKeys, ValidMembers;
    HeadedShape(r);
    HeadedKind(r);
    HeadedRoot(r);
    HeadedIndex(r);
  }

  lemma HeadOfHeaded(r: Revision)
    requires RevisionOk(r)
    ensures HeadOf(Headed(r), NOTHING) == Some(Head(if r.live then RevisionLiveLine else RevisionLine, Escape(r.root), r.index))
  {
    hide HeadOf, Headed, Escape, UniqueKeys, ValidMembers, KindIn, RootIn, IndexIn, RevisionOk, HasKey;
    HeadedLookups(r);
    HeadByLookup(Headed(r), NOTHING);
  }

  /** The head of a written record is its kind, its root as escaped, and its index. */
  lemma HeadOfRevision(r: Revision)
    requires RevisionOk(r)
    ensures IsRecord(RevisionText(r))
    ensures LineHead(RevisionText(r)) == Some(Head(if r.live then RevisionLiveLine else RevisionLine, Escape(r.root), r.index))
  {
    hide Tagged, HeadOf, LineHead, KindWord, Escape, Print, ValidUtf8, UniqueKeys, IsObjectText, Lookup, HasKey;
    var word := KindWord(if r.live then RevisionLiveLine else RevisionLine);
    HeadedLookups(r);
    HeadOfHeaded(r);
    TaggedIsObject(word, r.body);
    TaggedObject(word, r.body);
    HeadIsTopLevel(Headed(r), []);
    assert Print(Object(Headed(r))) + [] == Print(Object(Headed(r)));
  }

  datatype Event = Event(revision: Revision, cut: nat)

  function AppendOf(e: Event): Append {
    Append(RevisionText(e.revision), e.cut)
  }

  function Appends(events: seq<Event>): seq<Append> {
    if events == [] then [] else [AppendOf(events[0])] + Appends(events[1..])
  }

  /** The revisions whose JSON text was fully written, in order. */
  function Survivors(file: Option<seq<byte>>, events: seq<Event>): seq<Revision>
    decreases |events|
  {
    if events == [] then []
    else
      var a := AppendOf(events[0]);
      Maybe(FullyWritten(file, None, a), events[0].revision) + Survivors(Some(AfterAppend(file, None, a)), events[1..])
  }

  /** The survivors on newline-terminated lines: a last one without its newline is not visible yet. */
  ghost function Visible(events: seq<Event>): seq<Revision> {
    var all := Survivors(None, events);
    var tail := LogBefore(FileAfter(None, None, Appends(events))).tail;
    if tail != [] && IsObjectText(tail) && all != [] then all[..|all| - 1] else all
  }

  /** What a record holds: live ones are decoded as live, the others as stored. */
  function PayloadOf<S, L>(d: Decoders<S, L>, r: Revision): Option<Payload<S, L>> {
    if r.live then
      match d.live(RevisionText(r)) case Some(v) => Some(Live(v)) case None => None
    else
      match d.stored(RevisionText(r)) case Some(v) => Some(Stored(v)) case None => None
  }

  function AnswerOf<S, L>(d: Decoders<S, L>, r: Revision, root: seq<byte>, index: int): Option<Payload<S, L>> {
    if Escape(r.root) == root && r.index == index then PayloadOf(d, r) else None
  }

  /** The newest record that answers. */
  function LastAnswer<S, L>(d: Decoders<S, L>, revisions: seq<Revision>, root: seq<byte>, index: int): Option<Payload<S, L>> {
    if revisions == [] then None
    else Or(LastAnswer(d, revisions[1..], root, index), AnswerOf(d, revisions[0], root, index))
  }

  // ----- lines, texts and revisions -----

  function NewestText<S, L>(d: Decoders<S, L>, texts: seq<seq<byte>>, root: seq<byte>, index: int): Option<Payload<S, L>> {
    if texts == [] then None
    else Or(NewestText(d, texts[1..], root, index), Answer(d, texts[0], root, index))
  }

  lemma {:induction false} NewestTextConcat<S, L>(d: Decoders<S, L>, a: seq<seq<byte>>, b: seq<seq<byte>>, root: seq<byte>, index: int)
    ensures NewestText(d, a + b, root, index) == Or(NewestText(d, b, root, index), NewestText(d, a, root, index))
  {
    hide Answer;
    if a == [] {
      assert a + b == b;
    } else {
      assert (a + b)[1..] == a[1..] + b;
      NewestTextConcat(d, a[1..], b, root, index);
    }
  }

  ghost predicate DecodersOk<S(!new), L(!new)>(d: Decoders<S, L>) {
    OnlyObjects(d.stored) && OnlyObjects(d.live)
  }

  lemma AnswerTorn<S(!new), L(!new)>(d: Decoders<S, L>, text: seq<byte>, root: seq<byte>, index: int)
    requires DecodersOk(d) && !IsObjectText(text)
    ensures Answer(d, text, root, index) == None
  {
    hide IsObjectText, Matches, LineHead;
  }

  lemma ObjectsOne(t: seq<byte>)
    ensures Objects([t]) == if IsObjectText(t) then [t] else []
  {
    hide IsObjectText;
    assert [t][1..] == [];
  }

  lemma NewestTextOne<S, L>(d: Decoders<S, L>, t: seq<byte>, root: seq<byte>, index: int)
    ensures NewestText(d, [t], root, index) == Answer(d, t, root, index)
    ensures NewestText(d, [], root, index) == None
  {
    hide Answer;
    assert [t][1..] == [];
  }

  lemma AnswerOfRow<S(!new), L(!new)>(d: Decoders<S, L>, row: Row, root: seq<byte>, index: int)
    requires DecodersOk(d) && IsPiece(Strip(row.text))
    ensures Answer(d, Trim(row.text), root, index) == NewestText(d, Objects([Strip(row.text)]), root, index)
  {
    hide OnlyObjects, IsRecord, Strip, Answer;
    var t := Strip(row.text);
    var text :| IsRecord(text) && t <= text;
    assert [t][1..] == [];
    hide *;
    RecordIsObject(text);
    if t == text {
      RowOfRecord(row, text);
      ObjectsOne(t);
    } else {
      assert t == text[..|t|] && |t| < |text|;
      TornObjectIsIncomplete(text, |t|);
      RowOfTorn(row, text);
      ObjectsOne(t);
      AnswerTorn(d, Trim(row.text), root, index);
    }
    NewestTextOne(d, t, root, index);
  }

  lemma {:induction false} NewestIsObjects<S(!new), L(!new)>(d: Decoders<S, L>, rows: seq<Row>, root: seq<byte>, index: int)
    requires DecodersOk(d) && forall t :: t in Stripped(rows) ==> IsPiece(t)
    ensures Newest(d, rows, root, index) == NewestText(d, Objects(Stripped(rows)), root, index)
  {
    if rows != [] {
      var front, last := rows[..|rows| - 1], rows[|rows| - 1];
      assert rows == front + [last];
      assert Stripped(rows) == Stripped(front) + [Strip(last.text)];
      hide *;
      NewestIsObjects(d, front, root, index);
      NewestSnoc(d, front, last, root, index);
      AnswerOfRow(d, last, root, index);
      ObjectsConcat(Stripped(front), [Strip(last.text)]);
      NewestTextConcat(d, Objects(Stripped(front)), Objects([Strip(last.text)]), root, index);
    }
  }

  function TextsOf(revisions: seq<Revision>): seq<seq<byte>> {
    if revisions == [] then [] else [RevisionText(revisions[0])] + TextsOf(revisions[1..])
  }

  lemma {:induction false} TextsOfConcat(a: seq<Revision>, b: seq<Revision>)
    ensures TextsOf(a + b) == TextsOf(a) + TextsOf(b)
  {
    hide RevisionText;
    if a == [] {
      assert a + b == b;
    } else {
      assert (a + b)[1..] == a[1..] + b;
      TextsOfConcat(a[1..], b);
    }
  }

  lemma TextsOfMaybe(written: bool, r: Revision, rest: seq<Revision>)
    ensures TextsOf(Maybe(written, r) + rest) == (if written then [RevisionText(r)] else []) + TextsOf(rest)
  {
    hide RevisionText;
    assert [r][1..] == [];
    TextsOfConcat(Maybe(written, r), rest);
  }

  lemma WrittenStep(file: Option<seq<byte>>, events: seq<Event>)
    requires events != []
    ensures var a := AppendOf(events[0]);
            Written(file, None, Appends(events)) ==
              (if FullyWritten(file, None, a) then [a.text] else []) +
              Written(Some(AfterAppend(file, None, a)), None, Appends(events[1..]))
  {
    hide RevisionText, FullyWritten, AfterAppend;
    var a := AppendOf(events[0]);
    assert Appends(events)[0] == a && Appends(events)[1..] == Appends(events[1..]);
    assert WrittenBy(file, None, a) == if FullyWritten(file, None, a) then [a.text] else [];
  }

  lemma SurvivorsStep(file: Option<seq<byte>>, events: seq<Event>)
    requires events != []
    ensures var a := AppendOf(events[0]);
            Survivors(file, events) ==
              Maybe(FullyWritten(file, None, a), events[0].revision) + Survivors(Some(AfterAppend(file, None, a)), events[1..])
  {
    hide RevisionText, FullyWritten, AfterAppend;
  }

  lemma NoTexts()
    ensures TextsOf([]) == []
  {}

  lemma {:induction false} WrittenAreSurvivors(file: Option<seq<byte>>, events: seq<Event>)
    ensures Written(file, None, Appends(events)) == TextsOf(Survivors(file, events))
    decreases |events|
  {
    if events != [] {
      hide RevisionText, FullyWritten, AfterAppend, TextsOf, Written, Survivors, Appends, Maybe;
      var a := AppendOf(events[0]);
      WrittenStep(file, events);
      SurvivorsStep(file, events);
      WrittenAreSurvivors(Some(AfterAppend(file, None, a)), events[1..]);
      TextsOfMaybe(FullyWritten(file, None, a), events[0].revision, Survivors(Some(AfterAppend(file, None, a)), events[1..]));
    } else {
      NoTexts();
    }
  }

  ghost predicate AllOk(revisions: seq<Revision>) {
    forall r :: r in revisions ==> RevisionOk(r)
  }

  lemma OkMaybe(present: bool, r: Revision, rest: seq<Revision>)
    requires RevisionOk(r) && AllOk(rest)
    ensures AllOk(Maybe(present, r) + rest)
  {
    hide RevisionOk;
  }

  lemma {:induction false} SurvivorsOk(file: Option<seq<byte>>, events: seq<Event>)
    requires forall e :: e in events ==> RevisionOk(e.revision)
    ensures AllOk(Survivors(file, events))
    decreases |events|
  {
    if events != [] {
      hide RevisionOk, FullyWritten, AfterAppend, AllOk, AppendOf, Survivors, Maybe;
      var a := AppendOf(events[0]);
      assert events[0] in events && forall e :: e in events[1..] ==> e in events;
      SurvivorsStep(file, events);
      SurvivorsOk(Some(AfterAppend(file, None, a)), events[1..]);
      OkMaybe(FullyWritten(file, None, a), events[0].revision, Survivors(Some(AfterAppend(file, None, a)), events[1..]));
    }
  }

  lemma {:induction false} AppendsOk(events: seq<Event>)
    requires forall e :: e in events ==> RevisionOk(e.revision)
    ensures AllRecords(Appends(events))
  {
    if events != [] {
      hide RevisionText, RevisionOk, IsRecord, AllRecords;
      assert events[0] in events && forall e :: e in events[1..] ==> e in events;
      AppendsOk(events[1..]);
      HeadOfRevision(events[0].revision);
      AllRecordsCons(AppendOf(events[0]), Appends(events[1..]));
    }
  }

  lemma AnswerIsAnswerOf<S, L>(d: Decoders<S, L>, r: Revision, root: seq<byte>, index: int)
    requires RevisionOk(r)
    ensures Answer(d, RevisionText(r), root, index) == AnswerOf(d, r, root, index)
  {
    HeadOfRevision(r);
    hide DecodeAs, RevisionText, RevisionOk, LineHead, Escape;
  }

  lemma {:induction false} NewestIsLast<S, L>(d: Decoders<S, L>, revisions: seq<Revision>, root: seq<byte>, index: int)
    requires AllOk(revisions)
    ensures NewestText(d, TextsOf(revisions), root, index) == LastAnswer(d, revisions, root, index)
  {
    if revisions != [] {
      hide RevisionText, RevisionOk, Answer, AnswerOf;
      assert revisions[0] in revisions;
      NewestIsLast(d, revisions[1..], root, index);
      AnswerIsAnswerOf(d, revisions[0], root, index);
      assert TextsOf(revisions)[1..] == TextsOf(revisions[1..]);
    }
  }

  lemma DropTail(lines: seq<seq<byte>>, tail: seq<byte>, rows: seq<Row>)
    requires Stripped(rows) == Log(lines, tail).Texts()
    requires tail == [] <==> rows == [] || Terminated(rows[|rows| - 1])
    ensures Stripped(Whole(rows)) == lines
  {
    hide Strip, Terminated;
    if tail != [] {
      var front := Stripped(rows[..|rows| - 1]);
      assert (front + [Strip(rows[|rows| - 1].text)])[..|front|] == front;
      assert (lines + [tail])[..|lines|] == lines;
    }
  }

  /** The whole rows of a file are the newline-terminated lines of its log. */
  lemma WholeAreLines(file: Option<seq<byte>>)
    ensures Stripped(Whole(FileRows(file))) == LogBefore(file).lines
  {
    LinesOfRows(file);
    if file.Some? {
      RowsShape(file.value, 0);
      FeedTail(Log([], []), file.value);
      hide Rows, Feed, Stripped, Whole, Terminated;
      DropTail(LogBefore(file).lines, LogBefore(file).tail, FileRows(file));
    }
  }

  lemma LinesWithoutTail(lines: seq<seq<byte>>, tail: seq<byte>, all: seq<Revision>)
    requires Objects(Log(lines, tail).Texts()) == TextsOf(all)
    ensures tail != [] && IsObjectText(tail) ==> all != [] && Objects(lines) == TextsOf(all[..|all| - 1])
    ensures !(tail != [] && IsObjectText(tail)) ==> Objects(lines) == TextsOf(all)
  {
    hide IsObjectText, RevisionText;
    if tail != [] {
      ObjectsConcat(lines, [tail]);
      ObjectsOne(tail);
      if IsObjectText(tail) {
        assert all != [];
        var front, last := all[..|all| - 1], all[|all| - 1];
        assert all == front + [last];
        TextsOfConcat(front, [last]);
        assert [last][1..] == [];
        assert (Objects(lines) + [tail])[..|Objects(lines)|] == Objects(lines);
        assert (TextsOf(front) + [RevisionText(last)])[..|TextsOf(front)|] == TextsOf(front);
      }
    }
  }

  lemma SubseqOk(all: seq<Revision>, n: nat)
    requires AllOk(all) && n <= |all|
    ensures AllOk(all[..n])
  {}

  lemma VisibleIs(events: seq<Event>)
    ensures var all := Survivors(None, events);
            var tail := LogBefore(FileAfter(None, None, Appends(events))).tail;
            Visible(events) == if tail != [] && IsObjectText(tail) && all != [] then all[..|all| - 1] else all
  {}

  lemma ReadRevisionRowsIs<S, L>(d: Decoders<S, L>, rows: seq<Row>, root: seq<byte>, index: int)
    ensures ReadRevisionRows(d, rows, root, index) ==
            if AllText(rows) then Ok(Newest(d, Whole(rows), root, index)) else Err(InvalidUtf8)
  {}

  lemma RevisionHistory(history: seq<Append>)
    requires AllRecords(history)
    ensures var log := LogBefore(FileAfter(None, None, history));
            && (forall t :: t in log.lines ==> IsPiece(t))
            && Objects(Log(log.lines, log.tail).Texts()) == Written(None, None, history)
            && (AllUtf8(log.Texts()) <==> CutsAtBoundaries(None, None, history))
  {
    hide IsRecord, IsPiece, Written, CutsAtBoundaries, AllRecords, FileAfter;
    TornHistory(None, None, history);
    LinesArePieces(None, None, history);
    assert [] + Written(None, None, history) == Written(None, None, history);
    var log := LogBefore(FileAfter(None, None, history));
    assert forall t :: t in log.lines ==> t in log.Texts();
  }

  /**
   * For every history of revision appends, each write cut at any byte, and for
   * every query: the read succeeds if and only if no write was cut inside a
   * character, and then answers with the newest visible record of that family
   * and index that decodes. Torn lines never answer.
   */
  lemma RevisionSurvives<S(!new), L(!new)>(events: seq<Event>, d: Decoders<S, L>, root: seq<byte>, index: int)
    requires DecodersOk(d) && forall e :: e in events ==> RevisionOk(e.revision)
    ensures ReadRevisionRows(d, FileRows(FileAfter(None, None, Appends(events))), root, index) ==
              if CutsAtBoundaries(None, None, Appends(events))
              then Ok(LastAnswer(d, Visible(events), root, index))
              else Err(InvalidUtf8)
  {
    hide *;
    var history, all := Appends(events), Survivors(None, events);
    var file := FileAfter(None, None, history);
    var rows, log := FileRows(file), LogBefore(file);
    SurvivorsOk(None, events);
    AppendsOk(events);
    RevisionHistory(history);
    WrittenAreSurvivors(None, events);
    LinesOfRows(file);
    WholeAreLines(file);
    StrippedUtf8(rows);
    NewestIsObjects(d, Whole(rows), root, index);
    LinesWithoutTail(log.lines, log.tail, all);
    VisibleIs(events);
    if all != [] { SubseqOk(all, |all| - 1); }
    NewestIsLast(d, Visible(events), root, index);
    ReadRevisionRowsIs(d, rows, root, index);
  }

  /** The decoder of its kind accepts the record. */
  predicate DecodesItself<S, L>(d: Decoders<S, L>, r: Revision) {
    if r.live then d.live(RevisionText(r)).Some? else d.stored(RevisionText(r)).Some?
  }

  predicate Answers<S, L>(d: Decoders<S, L>, r: Revision, root: seq<byte>, index: int) {
    Escape(r.root) == root && r.index == index && DecodesItself(d, r)
  }

  /** The answer is what the decoder of its kind makes of the record. */
  predicate Holds<S(==), L(==)>(d: Decoders<S, L>, r: Revision, answer: Option<Payload<S, L>>) {
    && answer.Some?
    && if r.live then answer.value.Live? && d.live(RevisionText(r)) == Some(answer.value.live)
       else answer.value.Stored? && d.stored(RevisionText(r)) == Some(answer.value.stored)
  }

  /** The read is of the last record that has this family and index and decodes. */
  lemma {:induction false} LastAnswerIs<S, L>(d: Decoders<S, L>, revisions: seq<Revision>, root: seq<byte>, index: int)
    returns (k: int)
    ensures -1 <= k < |revisions| && forall j :: k < j < |revisions| ==> !Answers(d, revisions[j], root, index)
    ensures var answer := LastAnswer(d, revisions, root, index);
            if k == -1 then answer == None else Answers(d, revisions[k], root, index) && Holds(d, revisions[k], answer)
  {
    if revisions == [] {
      k := -1;
    } else {
      hide RevisionText, Escape;
      k := LastAnswerIs(d, revisions[1..], root, index);
      if k >= 0 {
        k := k + 1;
      } else if Answers(d, revisions[0], root, index) {
        k := 0;
      }
      assert forall j :: 0 < j < |revisions| ==> revisions[j] == revisions[1..][j - 1];
    }
  }

  // ----- last write wins, and when -----

  /** The map a caller has in mind: for each family and index, the record written last. */
  function LastWrites(revisions: seq<Revision>): map<(seq<byte>, int), Revision> {
    if revisions == [] then map[]
    else map[(revisions[0].root, revisions[0].index) := revisions[0]] + LastWrites(revisions[1..])
  }

  lemma {:induction false} LastWritesIn(revisions: seq<Revision>)
    ensures forall k :: k in LastWrites(revisions) ==> LastWrites(revisions)[k] in revisions
  {
    if revisions != [] { LastWritesIn(revisions[1..]); }
  }

  /** When every record decodes, a lookup by a plain root id is a lookup in that map. */
  lemma {:induction false} LastWriteWins<S, L>(d: Decoders<S, L>, revisions: seq<Revision>, root: seq<byte>, index: int)
    requires IsPlain(root)
    requires forall r :: r in revisions ==> DecodesItself(d, r)
    ensures var m := LastWrites(revisions);
            if (root, index) in m then Holds(d, m[(root, index)], LastAnswer(d, revisions, root, index))
            else LastAnswer(d, revisions, root, index) == None
  {
    if revisions != [] {
      hide RevisionText, Escape, IsPlain;
      LastWriteWins(d, revisions[1..], root, index);
      EscapeMeets(revisions[0].root, root);
      assert revisions[0] in revisions;
      LastWritesIn(revisions[1..]);
    }
  }

  function RevisionsOf(events: seq<Event>): seq<Revision> {
    if events == [] then [] else [events[0].revision] + RevisionsOf(events[1..])
  }

  /** No write is cut. */
  predicate WholeWrites(file: Option<seq<byte>>, events: seq<Event>)
    decreases |events|
  {
    events == [] ||
    (events[0].cut >= |Buffer(file, None, RevisionText(events[0].revision))| &&
     WholeWrites(Some(AfterAppend(file, None, AppendOf(events[0]))), events[1..]))
  }

  lemma WholeWrite(file: Option<seq<byte>>, a: Append)
    requires a.cut >= |Buffer(file, None, a.text)|
    ensures FullyWritten(file, None, a) && CutAtBoundary(file, None, a)
    ensures EndsWithNewline(AfterAppend(file, None, a))
  {}

  lemma {:induction false} WholeWritesSurvive(file: Option<seq<byte>>, events: seq<Event>)
    requires WholeWrites(file, events)
    ensures Survivors(file, events) == RevisionsOf(events)
    decreases |events|
  {
    hide RevisionText, FullyWritten, AfterAppend, Buffer;
    if events != [] {
      WholeWrite(file, AppendOf(events[0]));
      WholeWritesSurvive(Some(AfterAppend(file, None, AppendOf(events[0]))), events[1..]);
    }
  }

  lemma {:induction false} WholeWritesClean(file: Option<seq<byte>>, events: seq<Event>)
    requires WholeWrites(file, events) && (file.Some? ==> EndsWithNewline(file.value))
    ensures CutsAtBoundaries(file, None, Appends(events))
    ensures var after := FileAfter(file, None, Appends(events)); after.Some? ==> EndsWithNewline(after.value)
    decreases |events|
  {
    hide RevisionText, CutAtBoundary, AfterAppend, Buffer, EndsWithNewline;
    if events != [] {
      WholeWrite(file, AppendOf(events[0]));
      WholeWritesClean(Some(AfterAppend(file, None, AppendOf(events[0]))), events[1..]);
      assert Appends(events)[0] == AppendOf(events[0]) && Appends(events)[1..] == Appends(events[1..]);
    }
  }

  lemma NoTail(file: Option<seq<byte>>)
    requires file.Some? ==> EndsWithNewline(file.value)
    ensures LogBefore(file).tail == []
  {
    if file.Some? { FeedTail(Log([], []), file.value); }
    hide Feed;
  }

  /** On a crash-free history all records are visible, and a read is a lookup in the map of last writes. */
  lemma CrashFreeReadsLookUp<S(!new), L(!new)>(events: seq<Event>, d: Decoders<S, L>, root: seq<byte>, index: int)
    requires DecodersOk(d) && IsPlain(root) && WholeWrites(None, events)
    requires forall e :: e in events ==> RevisionOk(e.revision)
    requires forall r :: r in RevisionsOf(events) ==> DecodesItself(d, r)
    ensures Visible(events) == RevisionsOf(events)
    ensures var m, read := LastWrites(RevisionsOf(events)), ReadRevisionRows(d, FileRows(FileAfter(None, None, Appends(events))), root, index);
            && read.Ok?
            && if (root, index) in m then Holds(d, m[(root, index)], read.value) else read.value == None
  {
    hide *;
    RevisionSurvives(events, d, root, index);
    WholeWritesSurvive(None, events);
    WholeWritesClean(None, events);
    NoTail(FileAfter(None, None, Appends(events)));
    VisibleIs(events);
    LastWriteWins(d, RevisionsOf(events), root, index);
  }

  /**
   * Roots are compared in their escaped form. The comparison is right for all
   * stored roots if and only if the queried root needs no escaping; otherwise
   * the family's own records are never found.
   */
  lemma RootMatchIsExactIffPlain(root: seq<byte>)
    ensures (forall stored: seq<byte> :: Escape(stored) == root <==> stored == root) <==> IsPlain(root)
    ensures !IsPlain(root) ==> Escape(root) != root
  {
    EscapeIsIdentityIff(root);
    if IsPlain(root) {
      forall stored: seq<byte> ensures Escape(stored) == root <==> stored == root {
        EscapeMeets(stored, root);
      }
    } else {
      assert Escape(root) != root;
    }
  }

  lemma EscapedSample()
    ensures Escape([0x61, QUOTE]) == [0x61, BACKSLASH, QUOTE]
    ensures Escape([0x61, BACKSLASH, QUOTE]) != [0x61, BACKSLASH, QUOTE]
  {
    assert [QUOTE][1..] == [];
    assert Escape([QUOTE]) == [BACKSLASH, QUOTE];
    assert [0x61, QUOTE][1..] == [QUOTE];
    RootMatchIsExactIffPlain([0x61, BACKSLASH, QUOTE]);
    assert [0x61, BACKSLASH, QUOTE][1] == BACKSLASH;
  }

  /** A query for the three bytes a, backslash, quote is answered by the family named a, quote, and not by its own. */
  lemma WrongFamilyAnswers<S, L>(d: Decoders<S, L>, other: Revision, own: Revision)
    requires RevisionOk(other) && other.root == [0x61, QUOTE]
    requires RevisionOk(own) && own.root == [0x61, BACKSLASH, QUOTE]
    ensures if DecodesItself(d, other) then Holds(d, other, Answer(d, RevisionText(other), own.root, other.index))
            else Answer(d, RevisionText(other), own.root, other.index) == None
    ensures Answer(d, RevisionText(own), own.root, own.index) == None
  {
    EscapedSample();
    hide Answer, RevisionText, RevisionOk, Escape;
    AnswerIsAnswerOf(d, other, own.root, other.index);
    AnswerIsAnswerOf(d, own, own.root, own.index);
  }

  /** The record of a family, with nothing but its root and the index 1. */
  function FamilyRecord(root: seq<byte>): Revision {
    Revision(false, root, 1, Member(ROOT_USER_ID, String(root), Member(REVISION_INDEX, Number([0x31]), NoMembers)))
  }

  lemma FamilyFields(root: seq<byte>)
    ensures var body := FamilyRecord(root).body;
            && ValidMembers(body) && UniqueKeys(body) && !HasKey(body, TYPE)
            && Lookup(body, ROOT_USER_ID) == Some(String(root)) && Lookup(body, REVISION_INDEX) == Some(Number([0x31]))
  {
    KeysDiffer();
    assert ValidMembers(Member(REVISION_INDEX, Number([0x31]), NoMembers));
  }

  lemma FamilyText(root: seq<byte>)
    requires ValidUtf8(root)
    ensures ValidUtf8(RevisionText(FamilyRecord(root)))
  {
    AsciiIsUtf8(ROOT_USER_ID);
    AsciiIsUtf8(REVISION_INDEX);
    FamilyFields(root);
    hide ValidUtf8, Tagged, KindWord, ValidMembers;
    assert TextMembers(Member(REVISION_INDEX, Number([0x31]), NoMembers));
    TaggedIsText(RevisionLine, FamilyRecord(root).body);
  }

  lemma PrintOne()
    ensures PrintInt(1) == [0x31]
  {}

  lemma FamilyRecordOk(root: seq<byte>)
    requires ValidUtf8(root)
    ensures RevisionOk(FamilyRecord(root))
  {
    hide ValidUtf8, RevisionText, ValidMembers, UniqueKeys, HasKey, Lookup, PrintInt;
    FamilyFields(root);
    FamilyText(root);
    PrintOne();
  }

  /** Two records on which this shows, whatever records are decoded to. */
  lemma WrongFamilyShows<S, L>(d: Decoders<S, L>)
    ensures var other, own := FamilyRecord([0x61, QUOTE]), FamilyRecord([0x61, BACKSLASH, QUOTE]);
            && RevisionOk(other) && RevisionOk(own)
            && Answer(d, RevisionText(other), own.root, 1) ==
                 (match d.stored(RevisionText(other)) case Some(v) => Some(Stored(v)) case None => None)
            && Answer(d, RevisionText(own), own.root, 1) == None
  {
    AsciiIsUtf8([0x61, QUOTE]);
    AsciiIsUtf8([0x61, BACKSLASH, QUOTE]);
    hide ValidUtf8, Answer, RevisionText, RevisionOk;
    FamilyRecordOk([0x61, QUOTE]);
    FamilyRecordOk([0x61, BACKSLASH, QUOTE]);
    WrongFamilyAnswers(d, FamilyRecord([0x61, QUOTE]), FamilyRecord([0x61, BACKSLASH, QUOTE]));
  }
}
