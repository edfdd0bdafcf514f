/**
 * Classifying a transcript line by its top-level "type" without decoding it
 * (crates/host-core/src/transcripts.rs).
 */
module Sniff {
  import opened Wrappers
  import opened Bytes
  import opened Json
  import opened Skipping

  datatype LineKind = MessageLine | CompactionLine | SessionLine | RevisionLine | RevisionLiveLine

  // The words the scanner looks for, as bytes.
  const TYPE: seq<byte> := [0x74, 0x79, 0x70, 0x65]
  const MESSAGE: seq<byte> := [0x6D, 0x65, 0x73, 0x73, 0x61, 0x67, 0x65]
  const COMPACTION: seq<byte> := [0x63, 0x6F, 0x6D, 0x70, 0x61, 0x63, 0x74, 0x69, 0x6F, 0x6E]
  const SESSION: seq<byte> := [0x73, 0x65, 0x73, 0x73, 0x69, 0x6F, 0x6E]
  const REVISION: seq<byte> := [0x72, 0x65, 0x76, 0x69, 0x73, 0x69, 0x6F, 0x6E]
  const REVISION_LIVE: seq<byte> := REVISION + [0x5F, 0x6C, 0x69, 0x76, 0x65]

  function KindNamed(word: seq<byte>): Option<LineKind> {
    if word == MESSAGE then Some(MessageLine)
    else if word == COMPACTION then Some(CompactionLine)
    else if word == SESSION then Some(SessionLine)
    else if word == REVISION then Some(RevisionLine)
    else if word == REVISION_LIVE then Some(RevisionLiveLine)
    else None
  }

  function KindWord(kind: LineKind): (word: seq<byte>)
    ensures KindNamed(word) == Some(kind) && IsPlain(word)
  {
    match kind
    case MessageLine => MESSAGE
    case CompactionLine => COMPACTION
    case SessionLine => SESSION
    case RevisionLine => REVISION
    case RevisionLiveLine => REVISION_LIVE
  }

  predicate IsSpace(b: byte) {
    b == 0x20 || b == 0x09 || b == 0x0A || b == 0x0C || b == 0x0D
  }

  function SkipSpace(s: seq<byte>): (r: seq<byte>)
    ensures |r| <= |s| && r == s[|s| - |r|..]
    ensures r != [] ==> !IsSpace(r[0])
  {
    if s != [] && IsSpace(s[0]) then SkipSpace(s[1..]) else s
  }

  // ----- the scan, as a function of what is still to be read -----

  /** The text after the string whose opening quote is s[0]. */
  function AfterString(s: seq<byte>): Option<seq<byte>>
    requires s != []
  {
    match StringEnd(s[1..])
    case None => None
    case Some(n) => Some(s[n + 2..])
  }

  /** The raw text of the string whose opening quote is s[0]. */
  function RawString(s: seq<byte>): Option<seq<byte>>
    requires s != []
  {
    match StringEnd(s[1..])
    case None => None
    case Some(n) => Some(s[1..n + 1])
  }

  /** The answer once a top-level "type" and its colon have been read. */
  function TypeValue(s: seq<byte>): Option<LineKind> {
    var v := SkipSpace(s);
    if v == [] || v[0] != QUOTE then None
    else match RawString(v)
      case None => None
      case Some(word) => KindNamed(word)
  }

  function Scan(s: seq<byte>, depth: nat): Option<LineKind>
    requires depth >= 1
    decreases |s|
  {
    if s == [] then None
    else if s[0] == QUOTE then
      if AfterString(s).None? then None
      else
        var after := AfterString(s).value;
        if depth != 1 || RawString(s).value != TYPE then Scan(after, depth)
        else
          var t := SkipSpace(after);
          if t == [] || t[0] != COLON then Scan(t, depth) else TypeValue(t[1..])
    else if s[0] == OPEN_BRACE || s[0] == OPEN_BRACKET then Scan(s[1..], depth + 1)
    else if s[0] == CLOSE_BRACE || s[0] == CLOSE_BRACKET then
      if depth == 1 then None else Scan(s[1..], depth - 1)
    else Scan(s[1..], depth)
  }

  function SniffLine(line: seq<byte>): Option<LineKind> {
    var s := SkipSpace(line);
    if s == [] || s[0] != OPEN_BRACE then None else Scan(s[1..], 1)
  }

  // ----- what the answer means -----

  /** The kind named by the first top-level member called "type". */
  function TopLevelKind(members: Members): Option<LineKind> {
    match members
    case NoMembers => None
    case Member(key, value, rest) =>
      if key == TYPE then (if value.String? then KindNamed(value.content) else None)
      else TopLevelKind(rest)
  }

  lemma ScanOne(b: byte, rest: seq<byte>, depth: nat)
    requires depth >= 1 && b != QUOTE
    ensures Scan([b] + rest, depth) ==
            if b == OPEN_BRACE || b == OPEN_BRACKET then Scan(rest, depth + 1)
            else if b == CLOSE_BRACE || b == CLOSE_BRACKET then
              (if depth == 1 then None else Scan(rest, depth - 1))
            else Scan(rest, depth)
  {
    assert ([b] + rest)[1..] == rest;
  }

  lemma ReadQuoted(content: seq<byte>, rest: seq<byte>)
    ensures var s := Quoted(content) + rest;
            s != [] && s[0] == QUOTE && AfterString(s) == Some(rest) && RawString(s) == Some(Escape(content))
  {
    var s := Quoted(content) + rest;
    QuotedFront(content, rest);
    assert s[1..] == Escape(content) + ([QUOTE] + rest);
    QuotedScans(content, rest);
    assert s[|Escape(content)| + 2..] == rest;
    assert s[1..|Escape(content)| + 1] == Escape(content);
  }

  lemma ScanString(s: seq<byte>, raw: seq<byte>, after: seq<byte>, depth: nat)
    requires depth >= 1 && s != [] && s[0] == QUOTE
    requires AfterString(s) == Some(after) && RawString(s) == Some(raw)
    requires depth > 1 || raw != TYPE || (Stops(after) && after != [])
    ensures Scan(s, depth) == Scan(after, depth)
  {
    if depth == 1 && raw == TYPE {
      assert SkipSpace(after) == after;
    }
  }

  lemma ScanTypeString(s: seq<byte>, after: seq<byte>)
    requires s != [] && s[0] == QUOTE
    requires AfterString(s) == Some(after) && RawString(s) == Some(TYPE)
    ensures var t := SkipSpace(after);
            Scan(s, 1) == if t == [] || t[0] != COLON then Scan(t, 1) else TypeValue(t[1..])
  {}

  lemma ScanTypeKey(s: seq<byte>, value: seq<byte>)
    requires s != [] && s[0] == QUOTE
    requires AfterString(s) == Some([COLON] + value) && RawString(s) == Some(TYPE)
    ensures Scan(s, 1) == TypeValue(value)
  {
    var after := [COLON] + value;
    assert after[1..] == value && SkipSpace(after) == after;
  }

  /** A string that is not the discriminator key is stepped over. */
  lemma ScanQuoted(content: seq<byte>, rest: seq<byte>, depth: nat)
    requires depth >= 1
    requires depth > 1 || content != TYPE || (Stops(rest) && rest != [])
    ensures Scan(Quoted(content) + rest, depth) == Scan(rest, depth)
  {
    ReadQuoted(content, rest);
    if content != TYPE { EscapeMeets(content, TYPE); }
    ScanString(Quoted(content) + rest, Escape(content), rest, depth);
  }

  /** The scan as a function of two arguments; depth 0 is never reached. */
  function Scanner(s: seq<byte>, depth: nat): Option<LineKind> {
    if depth == 0 then None else Scan(s, depth)
  }

  lemma ScannerSkips()
    ensures Skips(Scanner)
  {
    hide Scan, Quoted;
    var f := Scanner;
    forall b: byte, rest: seq<byte>, d: nat {:trigger f([b] + rest, d)} | d >= 1 && b != QUOTE
      ensures f([b] + rest, d) ==
              if b == OPEN_BRACE || b == OPEN_BRACKET then f(rest, d + 1)
              else if b == CLOSE_BRACE || b == CLOSE_BRACKET then (if d == 1 then None else f(rest, d - 1))
              else f(rest, d)
    {
      ScanOne(b, rest, d);
    }
    forall content: seq<byte>, rest: seq<byte>, d: nat {:trigger f(Quoted(content) + rest, d)} | d >= 2 || (d == 1 && Follows(rest))
      ensures f(Quoted(content) + rest, d) == f(rest, d)
    {
      ScanQuoted(content, rest, d);
    }
  }

  lemma TypeValueAt(s: seq<byte>)
    requires s != [] && !IsSpace(s[0])
    ensures s[0] != QUOTE ==> TypeValue(s) == None
    ensures s[0] == QUOTE && RawString(s).Some? ==> TypeValue(s) == KindNamed(RawString(s).value)
  {
    assert SkipSpace(s) == s;
  }

  lemma PrintStartsInk(v: Json)
    requires Valid(v)
    ensures Print(v) != [] && !IsSpace(Print(v)[0])
  {
    if v.Number? { assert IsNumberByte(v.text[0]); }
  }

  lemma NotPlainNotKind(word: seq<byte>)
    requires !IsPlain(word)
    ensures KindNamed(word) == None
  {}

  lemma KindEscaped(content: seq<byte>)
    ensures KindNamed(Escape(content)) == KindNamed(content)
  {
    if IsPlain(Escape(content)) {
      EscapeMeets(content, Escape(content));
    } else {
      if IsPlain(content) { EscapePlain(content); }
      NotPlainNotKind(content);
      NotPlainNotKind(Escape(content));
    }
  }

  lemma TypeValueReads(v: Json, rest: seq<byte>)
    requires Valid(v)
    ensures TypeValue(Print(v) + rest) == if v.String? then KindNamed(v.content) else None
  {
    PrintNonEmpty(v);
    var s := Print(v) + rest;
    assert s[0] == Print(v)[0];
    PrintStartsInk(v);
    if v.String? {
      ReadQuoted(v.content, rest);
      KindEscaped(v.content);
    }
    TypeValueAt(s);
  }

  lemma TypeFirst(value: seq<byte>)
    ensures Scan(Quoted(TYPE) + ([COLON] + value), 1) == TypeValue(value)
  {
    ReadQuoted(TYPE, [COLON] + value);
    EscapePlain(TYPE);
    ScanTypeKey(Quoted(TYPE) + ([COLON] + value), value);
  }

  lemma {:induction false} ScanTop(members: Members, r: seq<byte>)
    requires ValidMembers(members)
    ensures Scan(PrintMembers(members) + ([CLOSE_BRACE] + r), 1) == TopLevelKind(members)
  {
    MembersFront(members, r);
    if members.NoMembers? {
      ScanOne(CLOSE_BRACE, r, 1);
    } else {
      var after := AfterMember(members.rest, r);
      var value := Print(members.value) + after;
      if members.key == TYPE {
        TypeFirst(value);
        TypeValueReads(members.value, after);
      } else {
        ScanQuoted(members.key, [COLON] + value, 1);
        ScanOne(COLON, value, 1);
        ScannerSkips();
        SkipValue(Scanner, members.value, after, 1);
        if members.rest.Member? {
          ScanOne(COMMA, PrintMembers(members.rest) + ([CLOSE_BRACE] + r), 1);
        }
        ScanTop(members.rest, r);
      }
    }
  }

  /**
   * On every printed object, in any key order, the scanner answers with the
   * kind named by the top-level "type", never one named inside a payload.
   */
  lemma SniffIsTopLevelType(members: Members, tail: seq<byte>)
    requires ValidMembers(members)
    ensures SniffLine(Print(Object(members)) + tail) == TopLevelKind(members)
  {
    ObjectFront(members, tail);
    var s := Print(Object(members)) + tail;
    assert SkipSpace(s) == s;
    assert s[1..] == PrintMembers(members) + ([CLOSE_BRACE] + tail);
    ScanTop(members, tail);
  }

  // ----- writing the discriminator first -----

  /** The line written for a record body: its own text with the tag spliced in front. */
  function Tagged(tag: seq<byte>, body: Members): seq<byte> {
    var head := [OPEN_BRACE] + (Quoted(TYPE) + ([COLON] + Quoted(tag)));
    if body.NoMembers? then head + [CLOSE_BRACE]
    else head + ([COMMA] + Print(Object(body))[1..])
  }

  lemma ObjectTail(body: Members)
    ensures Print(Object(body))[1..] == PrintMembers(body) + [CLOSE_BRACE]
  {}

  lemma OneMoreMember(tag: seq<byte>, body: Members)
    requires body.Member?
    ensures PrintMembers(Member(TYPE, String(tag), body)) ==
            Quoted(TYPE) + ([COLON] + (Quoted(tag) + ([COMMA] + PrintMembers(body))))
  {}

  lemma Regroup(key: seq<byte>, tag: seq<byte>, members: seq<byte>)
    ensures [OPEN_BRACE] + (key + ([COLON] + tag)) + ([COMMA] + (members + [CLOSE_BRACE])) ==
            [OPEN_BRACE] + (key + ([COLON] + (tag + ([COMMA] + members)))) + [CLOSE_BRACE]
  {}

  /** Splicing texts is the same as printing the body with one more member. */
  lemma TaggedIsObject(tag: seq<byte>, body: Members)
    ensures Tagged(tag, body) == Print(Object(Member(TYPE, String(tag), body)))
  {
    if body.Member? {
      ObjectTail(body);
      OneMoreMember(tag, body);
      Regroup(Quoted(TYPE), Quoted(tag), PrintMembers(body));
    } else {
      assert Quoted(tag) + [] == Quoted(tag);
    }
  }

  lemma TaggedIsSniffed(kind: LineKind, body: Members, tail: seq<byte>)
    requires ValidMembers(body)
    ensures SniffLine(Tagged(KindWord(kind), body) + tail) == Some(kind)
  {
    TaggedIsObject(KindWord(kind), body);
    SniffIsTopLevelType(Member(TYPE, String(KindWord(kind)), body), tail);
  }

  // ----- the implementation -----

  /** The position of the closing quote, scanning from position i inside a string. */
  function EndAt(bytes: seq<byte>, i: nat): Option<nat>
    requires i <= |bytes|
  {
    match StringEnd(bytes[i..])
    case None => None
    case Some(n) => Some(i + n)
  }

  lemma EndAtStep(bytes: seq<byte>, i: nat)
    requires i < |bytes|
    ensures EndAt(bytes, i) ==
            if bytes[i] == BACKSLASH then (if i + 2 <= |bytes| then EndAt(bytes, i + 2) else None)
            else if bytes[i] == QUOTE then Some(i)
            else EndAt(bytes, i + 1)
  {
    assert bytes[i..][1..] == bytes[i + 1..];
    if i + 2 <= |bytes| { assert bytes[i..][2..] == bytes[i + 2..]; }
  }

  lemma EndAtString(bytes: seq<byte>, start: nat)
    requires start < |bytes|
    ensures var e := EndAt(bytes, start + 1);
            if e.None? then AfterString(bytes[start..]).None?
            else && start < e.value < |bytes|
                 && AfterString(bytes[start..]) == Some(bytes[e.value + 1..])
                 && RawString(bytes[start..]) == Some(bytes[start + 1..e.value])
  {
    var s := bytes[start..];
    assert s[1..] == bytes[start + 1..];
    var e := EndAt(bytes, start + 1);
    if e.Some? {
      assert s[e.value - start + 1..] == bytes[e.value + 1..];
      assert s[1..e.value - start] == bytes[start + 1..e.value];
    }
  }

  /** The raw text of the string opening at start, and the position after its closing quote. */
  method ScanJsonString(bytes: seq<byte>, start: nat) returns (r: Option<(seq<byte>, nat)>)
    requires start < |bytes|
    ensures r.None? <==> AfterString(bytes[start..]).None?
    ensures r.Some? ==> start < r.value.1 <= |bytes|
    ensures r.Some? ==> RawString(bytes[start..]) == Some(r.value.0) && AfterString(bytes[start..]) == Some(bytes[r.value.1..])
  {
    EndAtString(bytes, start);
    var index := start + 1;
    while index < |bytes|
      invariant start + 1 <= index
      invariant EndAt(bytes, start + 1) == if index <= |bytes| then EndAt(bytes, index) else None
    {
      EndAtStep(bytes, index);
      if bytes[index] == BACKSLASH {
        index := index + 2;
      } else if bytes[index] == QUOTE {
        return Some((bytes[start + 1..index], index + 1));
      } else {
        index := index + 1;
      }
    }
    return None;
  }

  method SkipSpaceFrom(bytes: seq<byte>, from: nat) returns (index: nat)
    requires from <= |bytes|
    ensures from <= index <= |bytes| && bytes[index..] == SkipSpace(bytes[from..])
  {
    index := from;
    while index < |bytes| && IsSpace(bytes[index])
      invariant from <= index <= |bytes|
      invariant SkipSpace(bytes[index..]) == SkipSpace(bytes[from..])
    {
      assert bytes[index..][1..] == bytes[index + 1..];
      index := index + 1;
    }
  }

  method ReadTypeValue(bytes: seq<byte>, from: nat) returns (r: Option<LineKind>)
    requires from <= |bytes|
    ensures r == TypeValue(bytes[from..])
  {
    var index := SkipSpaceFrom(bytes, from);
    if index >= |bytes| || bytes[index] != QUOTE {
      return None;
    }
    var value := ScanJsonString(bytes, index);
    if value.None? {
      return None;
    }
    return KindNamed(value.value.0);
  }

  /** After a top-level string that spells "type": a key if a colon follows. */
  method SniffTypeKey(bytes: seq<byte>, from: nat) returns (answer: Option<Option<LineKind>>, next: nat)
    requires from <= |bytes|
    ensures from <= next <= |bytes| && bytes[next..] == SkipSpace(bytes[from..])
    ensures answer.None? <==> next == |bytes| || bytes[next] != COLON
    ensures answer.Some? ==> answer.value == TypeValue(bytes[next..][1..])
  {
    next := SkipSpaceFrom(bytes, from);
    if next >= |bytes| || bytes[next] != COLON {
      return None, next;
    }
    assert bytes[next..][1..] == bytes[next + 1..];
    var kind := ReadTypeValue(bytes, next + 1);
    return Some(kind), next;
  }

  /** A string at position index: either it settles the answer, or the scan goes on at next. */
  method SniffString(bytes: seq<byte>, index: nat, depth: nat) returns (answer: Option<Option<LineKind>>, next: nat)
    requires index < |bytes| && bytes[index] == QUOTE && depth >= 1
    ensures answer.Some? ==> Scan(bytes[index..], depth) == answer.value
    ensures answer.None? ==> index < next <= |bytes| && Scan(bytes[index..], depth) == Scan(bytes[next..], depth)
  {
    ghost var s := bytes[index..];
    var scanned := ScanJsonString(bytes, index);
    if scanned.None? {
      answer, next := Some(None), index;
    } else if depth != 1 || scanned.value.0 != TYPE {
      answer, next := None, scanned.value.1;
      ScanString(s, scanned.value.0, bytes[next..], depth);
    } else {
      ScanTypeString(s, bytes[scanned.value.1..]);
      answer, next := SniffTypeKey(bytes, scanned.value.1);
    }
  }

  method SniffLineKind(bytes: seq<byte>) returns (r: Option<LineKind>)
    ensures r == SniffLine(bytes)
  {
    var index := SkipSpaceFrom(bytes, 0);
    assert bytes[0..] == bytes;
    if index >= |bytes| || bytes[index] != OPEN_BRACE {
      return None;
    }
    assert bytes[index..][1..] == bytes[index + 1..];
    index := index + 1;
    var depth := 1;
    while index < |bytes|
      invariant index <= |bytes| && depth >= 1
      invariant SniffLine(bytes) == Scan(bytes[index..], depth)
    {
      assert bytes[index..][1..] == bytes[index + 1..];
      if bytes[index] == QUOTE {
        var answer, next := SniffString(bytes, index, depth);
        if answer.Some? {
          return answer.value;
        }
        index := next;
      } else if bytes[index] == OPEN_BRACE || bytes[index] == OPEN_BRACKET {
        depth := depth + 1;
        index := index + 1;
      } else if bytes[index] == CLOSE_BRACE || bytes[index] == CLOSE_BRACKET {
        depth := depth - 1;
        index := index + 1;
        if depth == 0 {
          return None;
        }
      } else {
        index := index + 1;
      }
    }
    return None;
  }
}
