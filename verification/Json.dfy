/**
 * JSON values and their compact text, as RFC 8259 sections 4 and 7 define it and
 * serde_json prints it. Strings are UTF-8 byte sequences.
 */
module Json {
  import opened Wrappers
  import opened Bytes

  const QUOTE: byte := 0x22
  const BACKSLASH: byte := 0x5C
  const COMMA: byte := 0x2C
  const COLON: byte := 0x3A
  const OPEN_BRACKET: byte := 0x5B
  const CLOSE_BRACKET: byte := 0x5D
  const OPEN_BRACE: byte := 0x7B
  const CLOSE_BRACE: byte := 0x7D

  datatype Json =
    | Null
    | Bool(value: bool)
    | Number(text: seq<byte>)
    | String(content: seq<byte>)
    | Array(items: Items)
    | Object(members: Members)

  datatype Items = NoItems | Item(head: Json, tail: Items)

  datatype Members = NoMembers | Member(key: seq<byte>, value: Json, rest: Members)

  // ----- printing -----

  predicate IsNumberByte(b: byte) {
    0x30 <= b <= 0x39 || b == 0x2B || b == 0x2D || b == 0x2E || b == 0x45 || b == 0x65
  }

  /** The only demand on a value: numbers are spelled with number characters. */
  predicate Valid(v: Json) {
    match v
    case Number(text) => text != [] && forall k :: 0 <= k < |text| ==> IsNumberByte(text[k])
    case Array(items) => ValidItems(items)
    case Object(members) => ValidMembers(members)
    case _ => true
  }

  predicate ValidItems(items: Items) {
    items.Item? ==> Valid(items.head) && ValidItems(items.tail)
  }

  predicate ValidMembers(members: Members) {
    members.Member? ==> Valid(members.value) && ValidMembers(members.rest)
  }

  function HexDigit(n: byte): byte
    requires n < 16
  {
    if n < 10 then 0x30 + n else 0x57 + n
  }

  function EscapeByte(b: byte): seq<byte> {
    if b == QUOTE then [BACKSLASH, QUOTE]
    else if b == BACKSLASH then [BACKSLASH, BACKSLASH]
    else if b == 0x08 then [BACKSLASH, 0x62]
    else if b == 0x09 then [BACKSLASH, 0x74]
    else if b == 0x0A then [BACKSLASH, 0x6E]
    else if b == 0x0C then [BACKSLASH, 0x66]
    else if b == 0x0D then [BACKSLASH, 0x72]
    else if b < 0x20 then [BACKSLASH, 0x75, 0x30, 0x30, HexDigit(b / 16), HexDigit(b % 16)]
    else [b]
  }

  function Escape(s: seq<byte>): seq<byte> {
    if s == [] then [] else EscapeByte(s[0]) + Escape(s[1..])
  }

  function Quoted(s: seq<byte>): seq<byte> {
    [QUOTE] + Escape(s) + [QUOTE]
  }

  function Print(v: Json): seq<byte> {
    match v
    case Null => [0x6E, 0x75, 0x6C, 0x6C]
    case Bool(value) => if value then [0x74, 0x72, 0x75, 0x65] else [0x66, 0x61, 0x6C, 0x73, 0x65]
    case Number(text) => text
    case String(content) => Quoted(content)
    case Array(items) => [OPEN_BRACKET] + PrintItems(items) + [CLOSE_BRACKET]
    case Object(members) => [OPEN_BRACE] + PrintMembers(members) + [CLOSE_BRACE]
  }

  function PrintItems(items: Items): seq<byte> {
    match items
    case NoItems => []
    case Item(head, tail) => Print(head) + (if tail.NoItems? then [] else [COMMA] + PrintItems(tail))
  }

  function PrintMembers(members: Members): seq<byte> {
    match members
    case NoMembers => []
    case Member(key, value, rest) =>
      Quoted(key) + ([COLON] + (Print(value) + (if rest.NoMembers? then [] else [COMMA] + PrintMembers(rest))))
  }

  // ----- strings can be read back -----

  /** Where the string whose opening quote has been read ends: the offset of its closing quote. */
  function StringEnd(s: seq<byte>): (r: Option<nat>)
    ensures r.Some? ==> r.value < |s|
    decreases |s|
  {
    if s == [] then None
    else if s[0] == BACKSLASH then
      if |s| < 2 then None
      else match StringEnd(s[2..])
        case None => None
        case Some(n) => Some(n + 2)
    else if s[0] == QUOTE then Some(0)
    else match StringEnd(s[1..])
      case None => None
      case Some(n) => Some(n + 1)
  }

  /** No quote in s would be taken for the closing one, and no escape is cut off at its end. */
  predicate Hidden(s: seq<byte>) {
    s == [] ||
    (if s[0] == BACKSLASH then |s| >= 2 && Hidden(s[2..]) else s[0] != QUOTE && Hidden(s[1..]))
  }

  lemma {:induction false} HiddenConcat(a: seq<byte>, b: seq<byte>)
    requires Hidden(a) && Hidden(b)
    ensures Hidden(a + b)
  {
    if a == [] {
      assert a + b == b;
    } else {
      var n := if a[0] == BACKSLASH then 2 else 1;
      HiddenConcat(a[n..], b);
      assert (a + b)[n..] == a[n..] + b;
    }
  }

  lemma {:induction false} HiddenScans(a: seq<byte>, s: seq<byte>)
    requires Hidden(a)
    ensures StringEnd(a + s) == match StringEnd(s) case None => None case Some(n) => Some(|a| + n)
  {
    if a == [] {
      assert a + s == s;
    } else {
      var n := if a[0] == BACKSLASH then 2 else 1;
      HiddenScans(a[n..], s);
      assert (a + s)[n..] == a[n..] + s;
    }
  }

  lemma EscapeByteHidden(b: byte)
    ensures Hidden(EscapeByte(b))
  {
    var e := EscapeByte(b);
    if |e| == 6 {
      HiddenConcat([e[4]], [e[5]]);
      HiddenConcat([e[3]], e[4..]);
      HiddenConcat([e[2]], e[3..]);
      assert e[4..] == [e[4]] + [e[5]] && e[3..] == [e[3]] + e[4..] && e[2..] == [e[2]] + e[3..];
    }
  }

  lemma {:induction false} EscapeHidden(s: seq<byte>)
    ensures Hidden(Escape(s))
  {
    if s != [] {
      EscapeByteHidden(s[0]);
      EscapeHidden(s[1..]);
      HiddenConcat(EscapeByte(s[0]), Escape(s[1..]));
    }
  }

  /** Escaping hides every quote of the content: the scan stops at the closing quote. */
  lemma QuotedScans(content: seq<byte>, rest: seq<byte>)
    ensures StringEnd(Escape(content) + ([QUOTE] + rest)) == Some(|Escape(content)|)
  {
    EscapeHidden(content);
    HiddenScans(Escape(content), [QUOTE] + rest);
  }

  lemma EscapeByteInjective(a: byte, b: byte, r: seq<byte>, s: seq<byte>)
    requires EscapeByte(a) + r == EscapeByte(b) + s
    ensures a == b && r == s
  {
    var x, y := EscapeByte(a) + r, EscapeByte(b) + s;
    assert x[0] == y[0];
    if x[0] == BACKSLASH {
      assert x[1] == y[1];
      if x[1] == 0x75 {
        assert x[4] == y[4] && x[5] == y[5];
        assert x[4] == HexDigit(a / 16) && x[5] == HexDigit(a % 16);
        assert y[4] == HexDigit(b / 16) && y[5] == HexDigit(b % 16);
      }
    }
    assert a == b;
    assert r == x[|EscapeByte(a)|..] && s == y[|EscapeByte(b)|..];
  }

  lemma {:induction false} EscapeInjective(a: seq<byte>, b: seq<byte>)
    requires Escape(a) == Escape(b)
    ensures a == b
  {
    if a != [] && b != [] {
      EscapeByteInjective(a[0], b[0], Escape(a[1..]), Escape(b[1..]));
      EscapeInjective(a[1..], b[1..]);
      assert a == [a[0]] + a[1..] && b == [b[0]] + b[1..];
    }
  }

  /** No byte of s has to be escaped. */
  predicate IsPlain(s: seq<byte>) {
    forall k :: 0 <= k < |s| ==> s[k] >= 0x20 && s[k] != QUOTE && s[k] != BACKSLASH
  }

  lemma {:induction false} EscapePlain(s: seq<byte>)
    requires IsPlain(s)
    ensures Escape(s) == s
  {
    if s != [] {
      EscapePlain(s[1..]);
      assert s == [s[0]] + s[1..];
    }
  }

  lemma {:induction false} EscapeGrows(s: seq<byte>)
    ensures |Escape(s)| >= |s|
    ensures !IsPlain(s) ==> |Escape(s)| > |s|
  {
    if s != [] {
      EscapeGrows(s[1..]);
      assert |EscapeByte(s[0])| > 1 || IsPlain([s[0]]);
    }
  }

  lemma EscapeIsIdentityIff(s: seq<byte>)
    ensures Escape(s) == s <==> IsPlain(s)
  {
    EscapeGrows(s);
    if IsPlain(s) { EscapePlain(s); }
  }

  /** A plain word is compared correctly in its escaped form. */
  lemma EscapeMeets(s: seq<byte>, word: seq<byte>)
    requires IsPlain(word)
    ensures Escape(s) == word <==> s == word
  {
    EscapePlain(word);
    if Escape(s) == word {
      EscapeInjective(s, word);
    }
  }

  // ----- unique reading -----

  /** What can follow a value inside an array or an object. */
  predicate Stops(s: seq<byte>) {
    s == [] || s[0] == COMMA || s[0] == CLOSE_BRACKET || s[0] == CLOSE_BRACE
  }

  lemma CutFront(a: seq<byte>, b: seq<byte>, r: seq<byte>, s: seq<byte>)
    requires a + r == b + s && |a| == |b|
    ensures a == b && r == s
  {
    assert a == (a + r)[..|a|] && b == (b + s)[..|a|];
    assert r == (a + r)[|a|..] && s == (b + s)[|a|..];
  }

  lemma QuotedFront(a: seq<byte>, r: seq<byte>)
    ensures Quoted(a) + r == [QUOTE] + (Escape(a) + ([QUOTE] + r))
  {}

  lemma QuotedUnique(a: seq<byte>, b: seq<byte>, r: seq<byte>, s: seq<byte>)
    requires Quoted(a) + r == Quoted(b) + s
    ensures a == b && r == s
  {
    QuotedFront(a, r);
    QuotedFront(b, s);
    CutFront([QUOTE], [QUOTE], Escape(a) + ([QUOTE] + r), Escape(b) + ([QUOTE] + s));
    QuotedScans(a, r);
    QuotedScans(b, s);
    CutFront(Escape(a), Escape(b), [QUOTE] + r, [QUOTE] + s);
    CutFront([QUOTE], [QUOTE], r, s);
    EscapeInjective(a, b);
  }

  lemma Overhang(a: seq<byte>, b: seq<byte>, r: seq<byte>, s: seq<byte>)
    requires a + r == b + s && |a| < |b|
    ensures r != [] && r[0] == b[|a|]
  {
    assert (a + r)[|a|] == (b + s)[|a|];
  }

  lemma NumberUnique(a: seq<byte>, b: seq<byte>, r: seq<byte>, s: seq<byte>)
    requires Valid(Number(a)) && Valid(Number(b)) && Stops(r) && Stops(s)
    requires a + r == b + s
    ensures a == b && r == s
  {
    if |a| < |b| {
      Overhang(a, b, r, s);
      assert false;
    } else if |b| < |a| {
      Overhang(b, a, s, r);
      assert false;
    }
    CutFront(a, b, r, s);
  }

  lemma PrintNonEmpty(v: Json)
    requires Valid(v)
    ensures Print(v) != [] && !Stops(Print(v))
    ensures Print(v)[0] == OPEN_BRACE <==> v.Object?
    ensures Print(v)[0] == OPEN_BRACKET <==> v.Array?
    ensures Print(v)[0] == QUOTE <==> v.String?
    ensures Print(v)[0] == 0x6E <==> v.Null?
    ensures Print(v)[0] == 0x74 <==> v == Bool(true)
    ensures Print(v)[0] == 0x66 <==> v == Bool(false)
  {}

  lemma ArrayFront(items: Items, r: seq<byte>)
    ensures Print(Array(items)) + r == [OPEN_BRACKET] + (PrintItems(items) + ([CLOSE_BRACKET] + r))
  {}

  lemma ObjectFront(members: Members, r: seq<byte>)
    ensures Print(Object(members)) + r == [OPEN_BRACE] + (PrintMembers(members) + ([CLOSE_BRACE] + r))
  {}

  /** A printed value followed by a separator can be read in one way only. */
  lemma {:induction false} PrintUnique(a: Json, b: Json, r: seq<byte>, s: seq<byte>)
    requires Valid(a) && Valid(b)
    requires Print(a) + r == Print(b) + s
    requires (Stops(r) && Stops(s)) || a.Object?
    ensures a == b && r == s
    decreases a
  {
    PrintNonEmpty(a);
    PrintNonEmpty(b);
    assert Print(a)[0] == (Print(a) + r)[0] == (Print(b) + s)[0] == Print(b)[0];
    match a {
      case Null => CutFront(Print(a), Print(b), r, s);
      case Bool(_) => CutFront(Print(a), Print(b), r, s);
      case Number(text) => NumberUnique(text, b.text, r, s);
      case String(content) => QuotedUnique(content, b.content, r, s);
      case Array(items) =>
        var x, y := PrintItems(items) + ([CLOSE_BRACKET] + r), PrintItems(b.items) + ([CLOSE_BRACKET] + s);
        ArrayFront(items, r);
        ArrayFront(b.items, s);
        CutFront([OPEN_BRACKET], [OPEN_BRACKET], x, y);
        ItemsUnique(items, b.items, r, s);
      case Object(members) =>
        var x, y := PrintMembers(members) + ([CLOSE_BRACE] + r), PrintMembers(b.members) + ([CLOSE_BRACE] + s);
        ObjectFront(members, r);
        ObjectFront(b.members, s);
        CutFront([OPEN_BRACE], [OPEN_BRACE], x, y);
        MembersUnique(members, b.members, r, s);
    }
  }

  /** What follows the first item: a comma and more items, or the end of the array. */
  function AfterItem(tail: Items, r: seq<byte>): seq<byte> {
    if tail.NoItems? then [CLOSE_BRACKET] + r
    else [COMMA] + (PrintItems(tail) + ([CLOSE_BRACKET] + r))
  }

  lemma ItemsFront(items: Items, r: seq<byte>)
    requires ValidItems(items)
    ensures var text := PrintItems(items) + ([CLOSE_BRACKET] + r);
            if items.NoItems? then text == [CLOSE_BRACKET] + r
            else text == Print(items.head) + AfterItem(items.tail, r) && text[0] != CLOSE_BRACKET
  {
    if items.Item? { PrintNonEmpty(items.head); }
  }

  lemma {:induction false} ItemsUnique(a: Items, b: Items, r: seq<byte>, s: seq<byte>)
    requires ValidItems(a) && ValidItems(b)
    requires PrintItems(a) + ([CLOSE_BRACKET] + r) == PrintItems(b) + ([CLOSE_BRACKET] + s)
    ensures a == b && r == s
    decreases a
  {
    ItemsFront(a, r);
    ItemsFront(b, s);
    if a.Item? && b.Item? {
      var x, y := AfterItem(a.tail, r), AfterItem(b.tail, s);
      PrintUnique(a.head, b.head, x, y);
      assert x[0] == y[0];
      CutFront(x[..1], y[..1], x[1..], y[1..]);
      if a.tail.Item? {
        ItemsUnique(a.tail, b.tail, r, s);
      }
    } else if a.NoItems? && b.NoItems? {
      CutFront([CLOSE_BRACKET], [CLOSE_BRACKET], r, s);
    }
  }

  function AfterMember(rest: Members, r: seq<byte>): seq<byte> {
    if rest.NoMembers? then [CLOSE_BRACE] + r
    else [COMMA] + (PrintMembers(rest) + ([CLOSE_BRACE] + r))
  }

  lemma MembersFront(members: Members, r: seq<byte>)
    ensures var text := PrintMembers(members) + ([CLOSE_BRACE] + r);
            if members.NoMembers? then text == [CLOSE_BRACE] + r
            else text == Quoted(members.key) + ([COLON] + (Print(members.value) + AfterMember(members.rest, r))) &&
                 text[0] == QUOTE
  {}

  lemma {:induction false} MembersUnique(a: Members, b: Members, r: seq<byte>, s: seq<byte>)
    requires ValidMembers(a) && ValidMembers(b)
    requires PrintMembers(a) + ([CLOSE_BRACE] + r) == PrintMembers(b) + ([CLOSE_BRACE] + s)
    ensures a == b && r == s
    decreases a
  {
    MembersFront(a, r);
    MembersFront(b, s);
    if a.Member? && b.Member? {
      var x, y := AfterMember(a.rest, r), AfterMember(b.rest, s);
      var v, w := Print(a.value) + x, Print(b.value) + y;
      QuotedUnique(a.key, b.key, [COLON] + v, [COLON] + w);
      CutFront([COLON], [COLON], v, w);
      PrintUnique(a.value, b.value, x, y);
      assert x[0] == y[0];
      CutFront(x[..1], y[..1], x[1..], y[1..]);
      if a.rest.Member? {
        MembersUnique(a.rest, b.rest, r, s);
      }
    } else if a.NoMembers? && b.NoMembers? {
      CutFront([CLOSE_BRACE], [CLOSE_BRACE], r, s);
    }
  }

  ghost predicate IsTextOf(text: seq<byte>, members: Members) {
    ValidMembers(members) && text == Print(Object(members))
  }

  /** text is one complete object, and nothing else. */
  ghost predicate IsObjectText(text: seq<byte>) {
    exists members :: IsTextOf(text, members)
  }

  /** No object text is a proper prefix of another: a torn object is never complete. */
  lemma TornObjectIsIncomplete(text: seq<byte>, k: nat)
    requires IsObjectText(text) && k < |text|
    ensures !IsObjectText(text[..k])
  {
    if IsObjectText(text[..k]) {
      var a :| IsTextOf(text[..k], a);
      var b :| IsTextOf(text, b);
      assert Print(Object(a)) + text[k..] == Print(Object(b)) + [];
      PrintUnique(Object(a), Object(b), text[k..], []);
    }
  }

  /** Objects are determined by their text. */
  lemma ObjectTextInjective(a: Members, b: Members)
    requires ValidMembers(a) && ValidMembers(b) && Print(Object(a)) == Print(Object(b))
    ensures a == b
  {
    PrintUnique(Object(a), Object(b), [], []);
  }
}
