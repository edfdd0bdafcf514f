/** Compact JSON text is UTF-8: escaping never touches a character of more than one byte. */
module JsonUtf8 {
  import opened Bytes
  import opened Json
  import opened Sniff
  import opened Utf8

  /** Every string and key inside is text. */
  predicate TextValue(v: Json) {
    match v
    case String(content) => ValidUtf8(content)
    case Array(items) => TextItems(items)
    case Object(members) => TextMembers(members)
    case _ => true
  }

  predicate TextItems(items: Items) {
    items.Item? ==> TextValue(items.head) && TextItems(items.tail)
  }

  predicate TextMembers(members: Members) {
    members.Member? ==> ValidUtf8(members.key) && TextValue(members.value) && TextMembers(members.rest)
  }

  lemma JoinsValid(a: seq<byte>, b: seq<byte>)
    requires ValidUtf8(a) && ValidUtf8(b)
    ensures ValidUtf8(a + b)
  {
    ValidConcat(a, b);
  }

  lemma EscapedByteAscii(b: byte)
    requires b < 0x80
    ensures ValidUtf8(EscapeByte(b))
  {
    AsciiIsUtf8(EscapeByte(b));
  }

  lemma EscapeFirst(s: seq<byte>)
    requires s != [] && s[0] >= 0x80
    ensures Escape(s) == [s[0]] + Escape(s[1..])
  {}

  lemma {:induction false} EscapeKeeps(s: seq<byte>, n: nat)
    requires n <= |s| && forall k :: 0 <= k < n ==> s[k] >= 0x80
    ensures Escape(s) == s[..n] + Escape(s[n..])
    decreases n
  {
    hide *;
    if n == 0 {
      assert s[..0] == [] && s[0..] == s;
      assert [] + Escape(s) == Escape(s);
    } else {
      EscapeFirst(s);
      EscapeKeeps(s[1..], n - 1);
      assert s[..n] == [s[0]] + s[1..][..n - 1] && s[1..][n - 1..] == s[n..];
    }
  }

  lemma FirstCharacter(s: seq<byte>)
    requires s != [] && ValidUtf8(s)
    ensures var n := LengthFrom(s[0]);
            && 0 < n <= |s| && ValidUtf8(s[n..]) && ValidUtf8(s[..n])
            && (n == 1 ==> s[0] < 0x80) && (n > 1 ==> forall k :: 0 <= k < n ==> s[k] >= 0x80)
  {
    var n := LengthFrom(s[0]);
    assert s[..n][n..] == [];
    assert StartsWithChar(s[..n], n);
  }

  lemma {:induction false} EscapeValid(s: seq<byte>)
    requires ValidUtf8(s)
    ensures ValidUtf8(Escape(s))
    decreases |s|
  {
    if s != [] {
      var n := LengthFrom(s[0]);
      FirstCharacter(s);
      hide ValidUtf8, LengthFrom, EscapeByte;
      EscapeValid(s[n..]);
      if n == 1 {
        EscapedByteAscii(s[0]);
        JoinsValid(EscapeByte(s[0]), Escape(s[1..]));
      } else {
        EscapeKeeps(s, n);
        JoinsValid(s[..n], Escape(s[n..]));
      }
    }
  }

  lemma SinglesValid()
    ensures ValidUtf8([QUOTE]) && ValidUtf8([COLON]) && ValidUtf8([COMMA]) && ValidUtf8([])
    ensures ValidUtf8([OPEN_BRACE]) && ValidUtf8([CLOSE_BRACE]) && ValidUtf8([OPEN_BRACKET]) && ValidUtf8([CLOSE_BRACKET])
  {}

  lemma QuotedValid(s: seq<byte>)
    requires ValidUtf8(s)
    ensures ValidUtf8(Quoted(s))
  {
    EscapeValid(s);
    SinglesValid();
    hide ValidUtf8, Escape;
    JoinsValid([QUOTE], Escape(s));
    JoinsValid([QUOTE] + Escape(s), [QUOTE]);
  }

  lemma EnclosedValid(open: seq<byte>, s: seq<byte>, close: seq<byte>)
    requires ValidUtf8(open) && ValidUtf8(s) && ValidUtf8(close)
    ensures ValidUtf8(open + s + close)
  {
    hide ValidUtf8;
    JoinsValid(open, s);
    JoinsValid(open + s, close);
  }

  lemma WordsValid()
    ensures ValidUtf8(Print(Null)) && ValidUtf8(Print(Bool(true))) && ValidUtf8(Print(Bool(false)))
  {
    AsciiIsUtf8(Print(Null));
    AsciiIsUtf8(Print(Bool(true)));
    AsciiIsUtf8(Print(Bool(false)));
  }

  lemma NumberValid(text: seq<byte>)
    requires Valid(Number(text))
    ensures ValidUtf8(Print(Number(text)))
  {
    AsciiIsUtf8(text);
  }

  /** The text of a value whose strings are text is text. */
  lemma {:induction false} PrintValid(v: Json)
    requires Valid(v) && TextValue(v)
    ensures ValidUtf8(Print(v))
    decreases v
  {
    hide ValidUtf8, Quoted;
    SinglesValid();
    match v {
      case Null => WordsValid();
      case Bool(_) => WordsValid();
      case Number(text) => NumberValid(text);
      case String(content) => QuotedValid(content);
      case Array(items) =>
        ItemsValid(items);
        EnclosedValid([OPEN_BRACKET], PrintItems(items), [CLOSE_BRACKET]);
      case Object(members) =>
        MembersValid(members);
        EnclosedValid([OPEN_BRACE], PrintMembers(members), [CLOSE_BRACE]);
    }
  }

  lemma {:induction false} ItemsValid(items: Items)
    requires ValidItems(items) && TextItems(items)
    ensures ValidUtf8(PrintItems(items))
    decreases items
  {
    hide ValidUtf8, Print;
    SinglesValid();
    if items.Item? {
      PrintValid(items.head);
      ItemsValid(items.tail);
      JoinsValid([COMMA], PrintItems(items.tail));
      JoinsValid(Print(items.head), if items.tail.NoItems? then [] else [COMMA] + PrintItems(items.tail));
    }
  }

  lemma {:induction false} MembersValid(members: Members)
    requires ValidMembers(members) && TextMembers(members)
    ensures ValidUtf8(PrintMembers(members))
    decreases members
  {
    hide ValidUtf8, Print, Quoted;
    SinglesValid();
    if members.Member? {
      QuotedValid(members.key);
      PrintValid(members.value);
      MembersValid(members.rest);
      JoinsValid([COMMA], PrintMembers(members.rest));
      var more := if members.rest.NoMembers? then [] else [COMMA] + PrintMembers(members.rest);
      JoinsValid(Print(members.value), more);
      JoinsValid([COLON], Print(members.value) + more);
      JoinsValid(Quoted(members.key), [COLON] + (Print(members.value) + more));
    }
  }

  lemma KeyWordsValid(kind: LineKind)
    ensures ValidUtf8(TYPE) && ValidUtf8(KindWord(kind))
  {
    AsciiIsUtf8(TYPE);
    AsciiIsUtf8(KindWord(kind));
  }

  /** So a tagged record of text strings is text: what the writer relies on when it appends it. */
  lemma TaggedIsText(kind: LineKind, body: Members)
    requires ValidMembers(body) && TextMembers(body)
    ensures ValidUtf8(Tagged(KindWord(kind), body))
  {
    TaggedIsObject(KindWord(kind), body);
    KeyWordsValid(kind);
    hide ValidUtf8, Tagged, Print, KindWord;
    var word := String(KindWord(kind));
    assert Valid(word) && TextValue(word);
    assert ValidMembers(Member(TYPE, word, body)) && TextMembers(Member(TYPE, word, body));
    PrintValid(Object(Member(TYPE, word, body)));
  }
}
