/**
 * Finding the newest archived branch of a family by scanning line heads
 * (crates/host-core/src/transcripts.rs).
 */
module Revisions {
  import opened Wrappers
  import opened Bytes
  import opened Json
  import opened Skipping
  import opened Sniff
  import opened Decimal

  const ROOT_USER_ID: seq<byte> := [0x72, 0x6F, 0x6F, 0x74, 0x55, 0x73, 0x65, 0x72, 0x49, 0x64]
  const REVISION_INDEX: seq<byte> := [0x72, 0x65, 0x76, 0x69, 0x73, 0x69, 0x6F, 0x6E, 0x49, 0x6E, 0x64, 0x65, 0x78]

  /** The keys read so far at the top level of a line. */
  datatype Found = Found(kind: Option<LineKind>, root: Option<seq<byte>>, index: Option<int>)

  /** Kind, family key and index of one line. */
  datatype Head = Head(kind: LineKind, root: seq<byte>, index: int)

  const NOTHING := Found(None, None, None)

  function Complete(found: Found): Option<Head> {
    if found.kind.Some? && found.root.Some? && found.index.Some?
    then Some(Head(found.kind.value, found.root.value, found.index.value))
    else None
  }

  function RevisionKind(word: seq<byte>): Option<LineKind> {
    if word == REVISION then Some(RevisionLine)
    else if word == REVISION_LIVE then Some(RevisionLiveLine)
    else None
  }

  predicate InNumber(b: byte) {
    IsDigit(b) || b == MINUS
  }

  function RunLength(s: seq<byte>): (n: nat)
    ensures n <= |s|
  {
    if s != [] && InNumber(s[0]) then 1 + RunLength(s[1..]) else 0
  }

  // ----- the scan, as a function of what is still to be read -----

  /** A string value at the start of v: its raw text and what follows it. */
  function StringValue(v: seq<byte>): Option<(seq<byte>, seq<byte>)> {
    if v == [] || v[0] != QUOTE || AfterString(v).None? then None
    else Some((RawString(v).value, AfterString(v).value))
  }

  /** One top-level key and the text of its value; None abandons the line. */
  function ReadMember(key: seq<byte>, v: seq<byte>, found: Found): (r: Option<(Found, seq<byte>)>)
    ensures r.Some? ==> |r.value.1| <= |v|
  {
    if key == TYPE then
      var value := StringValue(v);
      if value.None? || RevisionKind(value.value.0).None? then None
      else Some((found.(kind := RevisionKind(value.value.0)), value.value.1))
    else if key == ROOT_USER_ID then
      var value := StringValue(v);
      if value.None? then None
      else Some((found.(root := Some(value.value.0)), value.value.1))
    else if key == REVISION_INDEX then
      var n := RunLength(v);
      var index := ParseI64(v[..n]);
      if index.None? then None else Some((found.(index := index), v[n..]))
    else Some((found, v))
  }

  function HeadScan(s: seq<byte>, depth: nat, found: Found): Option<Head>
    requires depth >= 1
    decreases |s|
  {
    if s == [] then None
    else if s[0] == QUOTE then
      if AfterString(s).None? then None
      else
        var after := AfterString(s).value;
        var t := SkipSpace(after);
        if depth != 1 || t == [] || t[0] != COLON then HeadScan(after, depth, found)
        else
          var member := ReadMember(RawString(s).value, SkipSpace(t[1..]), found);
          if member.None? then None
          else if Complete(member.value.0).Some? then Complete(member.value.0)
          else HeadScan(member.value.1, 1, member.value.0)
    else if s[0] == OPEN_BRACE || s[0] == OPEN_BRACKET then HeadScan(s[1..], depth + 1, found)
    else if s[0] == CLOSE_BRACE || s[0] == CLOSE_BRACKET then
      if depth == 1 then None else HeadScan(s[1..], depth - 1, found)
    else HeadScan(s[1..], depth, found)
  }

  function LineHead(line: seq<byte>): Option<Head> {
    var s := SkipSpace(line);
    if s == [] || s[0] != OPEN_BRACE then None else HeadScan(s[1..], 1, NOTHING)
  }

  // ----- what the answer means -----

  function IndexOf(value: Json): Option<int> {
    if value.Number? then ParseI64(value.text[..RunLength(value.text)]) else None
  }

  /** What one member adds; None if it rules the line out. */
  function AddMember(key: seq<byte>, value: Json, found: Found): Option<Found> {
    if key == TYPE then
      if value.String? && RevisionKind(value.content).Some? then Some(found.(kind := RevisionKind(value.content))) else None
    else if key == ROOT_USER_ID then
      if value.String? then Some(found.(root := Some(Escape(value.content)))) else None
    else if key == REVISION_INDEX then
      if IndexOf(value).Some? then Some(found.(index := IndexOf(value))) else None
    else Some(found)
  }

  /** The members read in order, until all three keys are there or one is bad. */
  function HeadOf(members: Members, found: Found): Option<Head> {
    match members
    case NoMembers => None
    case Member(key, value, rest) =>
      var next := AddMember(key, value, found);
      if next.None? then None
      else if Complete(next.value).Some? then Complete(next.value)
      else HeadOf(rest, next.value)
  }

  // ----- the scan reads the members -----

  function HeadScanner(found: Found): (seq<byte>, nat) -> Option<Head> {
    (s: seq<byte>, depth: nat) => if depth == 0 then None else HeadScan(s, depth, found)
  }

  lemma HeadOne(b: byte, rest: seq<byte>, depth: nat, found: Found)
    requires depth >= 1 && b != QUOTE
    ensures HeadScan([b] + rest, depth, found) ==
            if b == OPEN_BRACE || b == OPEN_BRACKET then HeadScan(rest, depth + 1, found)
            else if b == CLOSE_BRACE || b == CLOSE_BRACKET then
              (if depth == 1 then None else HeadScan(rest, depth - 1, found))
            else HeadScan(rest, depth, found)
  {
    assert ([b] + rest)[1..] == rest;
  }

  lemma HeadString(s: seq<byte>, after: seq<byte>, depth: nat, found: Found)
    requires depth >= 1 && s != [] && s[0] == QUOTE && AfterString(s) == Some(after)
    requires depth > 1 || Follows(after)
    ensures HeadScan(s, depth, found) == HeadScan(after, depth, found)
  {
    hide ReadMember;
    if depth == 1 { assert SkipSpace(after) == after; }
  }

  lemma NoSpaceFirst(t: seq<byte>)
    requires t != [] && !IsSpace(t[0])
    ensures SkipSpace(t) == t
  {}

  lemma HeadKey(s: seq<byte>, raw: seq<byte>, v: seq<byte>, found: Found)
    requires s != [] && s[0] == QUOTE && AfterString(s) == Some([COLON] + v) && RawString(s) == Some(raw)
    ensures HeadScan(s, 1, found) ==
            var member := ReadMember(raw, SkipSpace(v), found);
            if member.None? then None
            else if Complete(member.value.0).Some? then Complete(member.value.0)
            else HeadScan(member.value.1, 1, member.value.0)
  {
    hide ReadMember, Complete, SkipSpace, AfterString, RawString;
    var after := [COLON] + v;
    NoSpaceFirst(after);
    assert after[1..] == v;
  }

  lemma HeadSkips(found: Found)
    ensures Skips(HeadScanner(found))
  {
    hide HeadScan, Quoted;
    var f := HeadScanner(found);
    forall b: byte, rest: seq<byte>, d: nat {:trigger f([b] + rest, d)} | d >= 1 && b != QUOTE
      ensures f([b] + rest, d) ==
              if b == OPEN_BRACE || b == OPEN_BRACKET then f(rest, d + 1)
              else if b == CLOSE_BRACE || b == CLOSE_BRACKET then (if d == 1 then None else f(rest, d - 1))
              else f(rest, d)
    {
      HeadOne(b, rest, d, found);
    }
    forall content: seq<byte>, rest: seq<byte>, d: nat {:trigger f(Quoted(content) + rest, d)} | d >= 2 || (d == 1 && Follows(rest))
      ensures f(Quoted(content) + rest, d) == f(rest, d)
    {
      ReadQuoted(content, rest);
      HeadString(Quoted(content) + rest, rest, d, found);
    }
  }

  lemma HeadValue(v: Json, rest: seq<byte>, found: Found)
    requires Valid(v) && Follows(rest)
    ensures HeadScan(Print(v) + rest, 1, found) == HeadScan(rest, 1, found)
  {
    hide HeadScan, Skips, Print;
    HeadSkips(found);
    SkipValue(HeadScanner(found), v, rest, 1);
  }

  /** Escaping neither hides nor makes one of the three key names, or a kind. */
  lemma KeysEscaped(key: seq<byte>)
    ensures Escape(key) == TYPE <==> key == TYPE
    ensures Escape(key) == ROOT_USER_ID <==> key == ROOT_USER_ID
    ensures Escape(key) == REVISION_INDEX <==> key == REVISION_INDEX
  {
    EscapeMeets(key, TYPE);
    EscapeMeets(key, ROOT_USER_ID);
    EscapeMeets(key, REVISION_INDEX);
  }

  lemma RevisionKindEscaped(content: seq<byte>)
    ensures RevisionKind(Escape(content)) == RevisionKind(content)
  {
    EscapeMeets(content, REVISION);
    EscapeMeets(content, REVISION_LIVE);
  }

  lemma {:induction false} RunStops(text: seq<byte>, rest: seq<byte>)
    requires Follows(rest)
    ensures RunLength(text + rest) == RunLength(text)
  {
    if text == [] {
      assert text + rest == rest;
    } else {
      assert (text + rest)[1..] == text[1..] + rest;
      RunStops(text[1..], rest);
    }
  }

  lemma StringValueOf(v: Json, rest: seq<byte>)
    requires Valid(v)
    ensures StringValue(Print(v) + rest) == if v.String? then Some((Escape(v.content), rest)) else None
  {
    PrintNonEmpty(v);
    assert (Print(v) + rest)[0] == Print(v)[0];
    if v.String? { ReadQuoted(v.content, rest); }
  }

  lemma NumberPrefix(text: seq<byte>, rest: seq<byte>)
    requires Follows(rest)
    ensures var n := RunLength(text);
            RunLength(text + rest) == n && (text + rest)[..n] == text[..n] && (text + rest)[n..] == text[n..] + rest
  {
    RunStops(text, rest);
  }

  lemma NoNumber(v: Json, rest: seq<byte>)
    requires Valid(v) && !v.Number?
    ensures RunLength(Print(v) + rest) == 0
  {
    PrintNonEmpty(v);
    assert (Print(v) + rest)[0] == Print(v)[0];
  }

  /** Where the scan goes on after a value: behind a string, behind the digits of a number, or at the value. */
  function AfterValue(key: seq<byte>, v: Json, rest: seq<byte>): seq<byte> {
    if key == TYPE || key == ROOT_USER_ID then rest
    else if key == REVISION_INDEX && v.Number? then v.text[RunLength(v.text)..] + rest
    else Print(v) + rest
  }

  lemma KeysDiffer()
    ensures TYPE != ROOT_USER_ID && TYPE != REVISION_INDEX && ROOT_USER_ID != REVISION_INDEX
  {
    assert |TYPE| == 4 && |ROOT_USER_ID| == 10 && |REVISION_INDEX| == 13;
  }

  lemma ReadString(raw: seq<byte>, key: seq<byte>, v: Json, rest: seq<byte>, found: Found)
    requires key == TYPE || key == ROOT_USER_ID ==> raw == key
    requires StringValue(Print(v) + rest) == if v.String? then Some((Escape(v.content), rest)) else None
    ensures key == TYPE || key == ROOT_USER_ID ==>
              ReadMember(raw, Print(v) + rest, found) ==
              match AddMember(key, v, found)
              case None => None
              case Some(next) => Some((next, AfterValue(key, v, rest)))
  {
    if v.String? { RevisionKindEscaped(v.content); }
    hide Escape, StringValue, RevisionKind, Print;
  }

  lemma NumberText(v: Json)
    requires v.Number?
    ensures Print(v) == v.text
  {}

  lemma ReadNumber(raw: seq<byte>, v: Json, rest: seq<byte>, found: Found)
    requires Valid(v) && Follows(rest)
    ensures raw == REVISION_INDEX ==>
              ReadMember(raw, Print(v) + rest, found) ==
              match AddMember(REVISION_INDEX, v, found)
              case None => None
              case Some(next) => Some((next, AfterValue(REVISION_INDEX, v, rest)))
  {
    KeysDiffer();
    assert ParseI64([]) == None;
    if v.Number? {
      NumberPrefix(v.text, rest);
      NumberText(v);
    } else {
      NoNumber(v, rest);
      assert (Print(v) + rest)[..0] == [];
    }
    hide RunLength, ParseI64, Print, Valid;
  }

  lemma ReadOther(raw: seq<byte>, key: seq<byte>, v: Json, rest: seq<byte>, found: Found)
    requires (raw == TYPE <==> key == TYPE) && (raw == ROOT_USER_ID <==> key == ROOT_USER_ID)
    requires raw == REVISION_INDEX <==> key == REVISION_INDEX
    ensures key != TYPE && key != ROOT_USER_ID && key != REVISION_INDEX ==>
              ReadMember(raw, Print(v) + rest, found) ==
              match AddMember(key, v, found)
              case None => None
              case Some(next) => Some((next, AfterValue(key, v, rest)))
  {
    hide Print, StringValue, RevisionKind;
  }

  /** Reading the printed member is adding the member. */
  lemma ReadIsAdd(key: seq<byte>, v: Json, rest: seq<byte>, found: Found)
    requires Valid(v) && Follows(rest)
    ensures ReadMember(Escape(key), Print(v) + rest, found) ==
            match AddMember(key, v, found)
            case None => None
            case Some(next) => Some((next, AfterValue(key, v, rest)))
  {
    hide *;
    KeysEscaped(key);
    StringValueOf(v, rest);
    ReadString(Escape(key), key, v, rest, found);
    ReadNumber(Escape(key), v, rest, found);
    ReadOther(Escape(key), key, v, rest, found);
    if key == REVISION_INDEX { KeysDiffer(); }
  }

  lemma NumberIsPlain(v: Json)
    requires Valid(v) && v.Number?
    ensures forall k :: 0 <= k < |v.text| ==> !Structural(v.text[k])
  {}

  /** The rest of the value, if any, is stepped over. */
  lemma AfterValueSkipped(key: seq<byte>, v: Json, rest: seq<byte>, found: Found)
    requires Valid(v) && Follows(rest)
    ensures HeadScan(AfterValue(key, v, rest), 1, found) == HeadScan(rest, 1, found)
  {
    hide HeadScan, Print;
    if key == REVISION_INDEX && v.Number? {
      var tail := v.text[RunLength(v.text)..];
      HeadSkips(found);
      NumberIsPlain(v);
      SkipPlain(HeadScanner(found), tail, rest, 1);
    } else {
      HeadValue(v, rest, found);
    }
  }

  lemma NothingPrinted(r: seq<byte>)
    ensures PrintMembers(NoMembers) + ([CLOSE_BRACE] + r) == [CLOSE_BRACE] + r
  {}

  lemma PrintNoSpace(v: Json, rest: seq<byte>)
    requires Valid(v)
    ensures SkipSpace(Print(v) + rest) == Print(v) + rest
  {
    PrintStartsInk(v);
    hide Print;
    assert (Print(v) + rest)[0] == Print(v)[0];
    NoSpaceFirst(Print(v) + rest);
  }

  /** One printed member at the top level: what it adds, then the text after it. */
  lemma HeadMember(key: seq<byte>, v: Json, rest: seq<byte>, found: Found)
    requires Valid(v) && Follows(rest)
    ensures HeadScan(Quoted(key) + ([COLON] + (Print(v) + rest)), 1, found) ==
            match AddMember(key, v, found)
            case None => None
            case Some(next) => if Complete(next).Some? then Complete(next) else HeadScan(rest, 1, next)
  {
    hide *;
    var value := Print(v) + rest;
    ReadQuoted(key, [COLON] + value);
    HeadKey(Quoted(key) + ([COLON] + value), Escape(key), value, found);
    PrintNoSpace(v, rest);
    ReadIsAdd(key, v, rest, found);
    var next := AddMember(key, v, found);
    if next.Some? {
      AfterValueSkipped(key, v, rest, next.value);
    }
  }

  lemma {:induction false} HeadMembers(members: Members, r: seq<byte>, found: Found)
    requires ValidMembers(members)
    ensures HeadScan(PrintMembers(members) + ([CLOSE_BRACE] + r), 1, found) == HeadOf(members, found)
    decreases members
  {
    MembersFront(members, r);
    if members.NoMembers? {
      HeadOne(CLOSE_BRACE, r, 1, found);
    } else {
      hide HeadScan, Print, PrintMembers, AddMember, Complete;
      var after := AfterMember(members.rest, r);
      HeadMember(members.key, members.value, after, found);
      var next := AddMember(members.key, members.value, found);
      if next.Some? && Complete(next.value).None? {
        HeadMembers(members.rest, r, next.value);
        if members.rest.Member? {
          HeadOne(COMMA, PrintMembers(members.rest) + ([CLOSE_BRACE] + r), 1, next.value);
        } else {
          NothingPrinted(r);
        }
      }
    }
  }

  /**
   * On every printed object, the head read from a line is what its top-level
   * members say; keys and strings inside payloads never take part.
   */
  lemma HeadIsTopLevel(members: Members, tail: seq<byte>)
    requires ValidMembers(members)
    ensures LineHead(Print(Object(members)) + tail) == HeadOf(members, NOTHING)
  {
    hide HeadScan, HeadOf, Print, PrintMembers, SkipSpace;
    ObjectFront(members, tail);
    var s := Print(Object(members)) + tail;
    NoSpaceFirst(s);
    assert s[1..] == PrintMembers(members) + ([CLOSE_BRACE] + tail);
    HeadMembers(members, tail, NOTHING);
  }

  // ----- records, whose keys are unique -----

  predicate HasKey(members: Members, key: seq<byte>) {
    members.Member? && (members.key == key || HasKey(members.rest, key))
  }

  predicate UniqueKeys(members: Members) {
    members.Member? ==> !HasKey(members.rest, members.key) && UniqueKeys(members.rest)
  }

  function Lookup(members: Members, key: seq<byte>): Option<Json> {
    match members
    case NoMembers => None
    case Member(k, value, rest) => if k == key then Some(value) else Lookup(rest, key)
  }

  function KindIn(members: Members): Option<LineKind> {
    match Lookup(members, TYPE)
    case Some(String(content)) => RevisionKind(content)
    case _ => None
  }

  function RootIn(members: Members): Option<seq<byte>> {
    match Lookup(members, ROOT_USER_ID)
    case Some(String(content)) => Some(Escape(content))
    case _ => None
  }

  function IndexIn(members: Members): Option<int> {
    match Lookup(members, REVISION_INDEX)
    case Some(value) => IndexOf(value)
    case _ => None
  }

  function Or<T>(a: Option<T>, b: Option<T>): Option<T> {
    if a.Some? then a else b
  }

  lemma {:induction false} MissingKey(members: Members, key: seq<byte>)
    ensures HasKey(members, key) <==> Lookup(members, key).Some?
  {
    if members.Member? { MissingKey(members.rest, key); }
  }

  /** With unique keys the order of the members does not matter. */
  lemma {:induction false} HeadByLookup(members: Members, found: Found)
    requires UniqueKeys(members) && Complete(found).None?
    requires found.kind.Some? ==> !HasKey(members, TYPE)
    requires found.root.Some? ==> !HasKey(members, ROOT_USER_ID)
    requires found.index.Some? ==> !HasKey(members, REVISION_INDEX)
    ensures HeadOf(members, found) ==
            Complete(Found(Or(found.kind, KindIn(members)), Or(found.root, RootIn(members)), Or(found.index, IndexIn(members))))
    decreases members
  {
    if members.Member? {
      hide RevisionKind, IndexOf, Escape;
      KeysDiffer();
      MissingKey(members.rest, members.key);
      var next := AddMember(members.key, members.value, found);
      if next.Some? && Complete(next.value).None? {
        HeadByLookup(members.rest, next.value);
      }
    }
  }

  // ----- the implementation -----

  method RunEnd(bytes: seq<byte>, from: nat) returns (end: nat)
    requires from <= |bytes|
    ensures end == from + RunLength(bytes[from..]) && end <= |bytes|
  {
    end := from;
    while end < |bytes| && InNumber(bytes[end])
      invariant from <= end <= |bytes|
      invariant RunLength(bytes[from..]) == end - from + RunLength(bytes[end..])
    {
      assert bytes[end..][1..] == bytes[end + 1..];
      end := end + 1;
    }
  }

  method StringAt(bytes: seq<byte>, index: nat) returns (r: Option<(seq<byte>, nat)>)
    requires index <= |bytes|
    ensures r.None? <==> StringValue(bytes[index..]).None?
    ensures r.Some? ==> index < r.value.1 <= |bytes|
    ensures r.Some? ==> StringValue(bytes[index..]) == Some((r.value.0, bytes[r.value.1..]))
  {
    if index >= |bytes| || bytes[index] != QUOTE {
      return None;
    }
    r := ScanJsonString(bytes, index);
  }

  /** One top-level member: key is its raw key, index the position of its value. */
  method MemberAt(bytes: seq<byte>, index: nat, key: seq<byte>, found: Found) returns (r: Option<(Found, nat)>)
    requires index <= |bytes|
    ensures r.None? <==> ReadMember(key, bytes[index..], found).None?
    ensures r.Some? ==> index <= r.value.1 <= |bytes|
    ensures r.Some? ==> ReadMember(key, bytes[index..], found) == Some((r.value.0, bytes[r.value.1..]))
  {
    hide StringValue, RevisionKind, RunLength, ParseI64;
    if key == TYPE {
      var value := StringAt(bytes, index);
      if value.None? || RevisionKind(value.value.0).None? {
        return None;
      }
      return Some((found.(kind := RevisionKind(value.value.0)), value.value.1));
    } else if key == ROOT_USER_ID {
      var value := StringAt(bytes, index);
      if value.None? {
        return None;
      }
      return Some((found.(root := Some(value.value.0)), value.value.1));
    } else if key == REVISION_INDEX {
      var end := RunEnd(bytes, index);
      assert bytes[index..][..end - index] == bytes[index..end] && bytes[index..][end - index..] == bytes[end..];
      var number := ParseI64(bytes[index..end]);
      if number.None? {
        return None;
      }
      return Some((found.(index := number), end));
    } else {
      return Some((found, index));
    }
  }

  lemma HeadStringCases(s: seq<byte>, depth: nat, found: Found)
    requires depth >= 1 && s != [] && s[0] == QUOTE
    ensures AfterString(s).None? ==> HeadScan(s, depth, found) == None
    ensures AfterString(s).Some? ==>
              var after := AfterString(s).value;
              var t := SkipSpace(after);
              HeadScan(s, depth, found) ==
              if depth != 1 || t == [] || t[0] != COLON then HeadScan(after, depth, found)
              else
                var member := ReadMember(RawString(s).value, SkipSpace(t[1..]), found);
                if member.None? then None
                else if Complete(member.value.0).Some? then Complete(member.value.0)
                else HeadScan(member.value.1, 1, member.value.0)
  {
    hide ReadMember, Complete, SkipSpace, AfterString, RawString;
  }

  /** A top-level string at index whose text ends at next: is it a key, and what does it add? */
  method KeyAt(bytes: seq<byte>, next: nat, key: seq<byte>, found: Found)
    returns (isKey: bool, member: Option<(Found, nat)>)
    requires next <= |bytes|
    ensures var t := SkipSpace(bytes[next..]);
            && (isKey <==> t != [] && t[0] == COLON)
            && (isKey ==>
                  var m := ReadMember(key, SkipSpace(t[1..]), found);
                  if member.None? then m.None?
                  else next <= member.value.1 <= |bytes| && m == Some((member.value.0, bytes[member.value.1..])))
  {
    hide ReadMember, SkipSpace;
    var colon := SkipSpaceFrom(bytes, next);
    if colon >= |bytes| || bytes[colon] != COLON {
      return false, None;
    }
    assert bytes[colon..][1..] == bytes[colon + 1..];
    var index := SkipSpaceFrom(bytes, colon + 1);
    member := MemberAt(bytes, index, key, found);
    isKey := true;
  }

  /** A string at position index: the line's answer, or where the scan goes on, and with what. */
  method HeadStringAt(bytes: seq<byte>, index: nat, depth: nat, found: Found)
    returns (answer: Option<Option<Head>>, next: nat, found2: Found)
    requires index < |bytes| && bytes[index] == QUOTE && depth >= 1
    ensures answer.Some? ==> HeadScan(bytes[index..], depth, found) == answer.value
    ensures answer.None? ==> index < next <= |bytes|
    ensures answer.None? ==> HeadScan(bytes[index..], depth, found) == HeadScan(bytes[next..], depth, found2)
  {
    hide HeadScan, ReadMember, SkipSpace, AfterString, RawString;
    HeadStringCases(bytes[index..], depth, found);
    var scanned := ScanJsonString(bytes, index);
    next, found2 := index, found;
    if scanned.None? {
      answer := Some(None);
    } else {
      next := scanned.value.1;
      answer := None;
      if depth == 1 {
        var isKey, member := KeyAt(bytes, next, scanned.value.0, found);
        if isKey {
          if member.None? {
            answer := Some(None);
          } else if Complete(member.value.0).Some? {
            answer := Some(Complete(member.value.0));
          } else {
            found2, next := member.value.0, member.value.1;
          }
        }
      }
    }
  }

  lemma HeadOther(bytes: seq<byte>, index: nat, depth: nat, found: Found)
    requires index < |bytes| && depth >= 1 && bytes[index] != QUOTE
    ensures HeadScan(bytes[index..], depth, found) ==
            var b := bytes[index];
            if b == OPEN_BRACE || b == OPEN_BRACKET then HeadScan(bytes[index + 1..], depth + 1, found)
            else if b == CLOSE_BRACE || b == CLOSE_BRACKET then
              (if depth == 1 then None else HeadScan(bytes[index + 1..], depth - 1, found))
            else HeadScan(bytes[index + 1..], depth, found)
  {
    hide HeadScan;
    assert bytes[index..] == [bytes[index]] + bytes[index + 1..];
    HeadOne(bytes[index], bytes[index + 1..], depth, found);
  }

  lemma HeadEnd(s: seq<byte>, found: Found, depth: nat)
    requires depth >= 1 && s == []
    ensures HeadScan(s, depth, found) == None
  {}

  method RevisionLineHead(bytes: seq<byte>) returns (r: Option<Head>)
    ensures r == LineHead(bytes)
  {
    hide HeadScan, SkipSpace;
    var index := SkipSpaceFrom(bytes, 0);
    assert bytes[0..] == bytes;
    if index >= |bytes| || bytes[index] != OPEN_BRACE {
      return None;
    }
    assert bytes[index..][1..] == bytes[index + 1..];
    index := index + 1;
    var depth, found := 1, NOTHING;
    while index < |bytes|
      invariant index <= |bytes| && depth >= 1
      invariant LineHead(bytes) == HeadScan(bytes[index..], depth, found)
    {
      if bytes[index] == QUOTE {
        var answer, next, found2 := HeadStringAt(bytes, index, depth, found);
        if answer.Some? {
          return answer.value;
        }
        index, found := next, found2;
      } else {
        HeadOther(bytes, index, depth, found);
        if bytes[index] == OPEN_BRACE || bytes[index] == OPEN_BRACKET {
          depth := depth + 1;
        } else if bytes[index] == CLOSE_BRACE || bytes[index] == CLOSE_BRACKET {
          depth := depth - 1;
          if depth == 0 {
            return None;
          }
        }
        index := index + 1;
      }
    }
    HeadEnd(bytes[index..], found, depth);
    return None;
  }
}
