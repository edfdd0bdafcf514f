/**
 * The byte-wise trim of transcript lines is the trim of their characters:
 * exactly the Unicode white space goes, from both ends.
 */
module Trimming {
  import opened Bytes
  import opened Whitespace
  import opened Transcript
  import Search = SearchExcerpt

  /** The character in UTF-8, section 3 of RFC 3629. */
  function Encoded(c: char): seq<byte> {
    var n := c as int;
    if n < 0x80 then [n as byte]
    else if n < 0x800 then [(0xC0 + n / 64) as byte, (0x80 + n % 64) as byte]
    else if n < 0x1_0000 then [(0xE0 + n / 4096) as byte, (0x80 + n / 64 % 64) as byte, (0x80 + n % 64) as byte]
    else [(0xF0 + n / 262144) as byte, (0x80 + n / 4096 % 64) as byte, (0x80 + n / 64 % 64) as byte, (0x80 + n % 64) as byte]
  }

  lemma SpaceIffWhitespace(c: char)
    ensures IsSpaceChar(Encoded(c)) <==> IsWhitespace(c)
  {}

  function EncodedAll(s: string): seq<byte> {
    if s == [] then [] else Encoded(s[0]) + EncodedAll(s[1..])
  }

  lemma EncodedBytes(c: char)
    ensures var e := Encoded(c);
            && 1 <= |e| <= 4 && (|e| == 1 <==> e[0] < 0x80) && (|e| == 2 <==> 0xC0 <= e[0] < 0xE0)
            && (|e| == 3 <==> 0xE0 <= e[0] < 0xF0) && forall k :: 0 < k < |e| ==> 0x80 <= e[k] < 0xC0
  {}

  lemma SpaceFirst(c: char, rest: seq<byte>)
    ensures SpaceAtStart(Encoded(c) + rest) == if IsWhitespace(c) then |Encoded(c)| else 0
  {
    SpaceIffWhitespace(c);
    EncodedBytes(c);
    hide Encoded, IsWhitespace;
    var e, s := Encoded(c), Encoded(c) + rest;
    assert s[..|e|] == e;
  }

  /** A white-space character of one, two or three bytes, told from its bytes. */
  lemma SpaceBytes(e: seq<byte>)
    ensures |e| == 1 && IsSpaceChar(e) ==> e[0] < 0x80
    ensures |e| == 2 && IsSpaceChar(e) ==> e[0] == 0xC2 && e[1] >= 0x80
    ensures |e| == 3 && IsSpaceChar(e) ==> 0xE1 <= e[0] <= 0xE3 && 0x80 <= e[1] < 0xC0 && e[2] >= 0x80
  {}

  lemma LastBytes(s: seq<byte>, n: nat, t: seq<byte>)
    requires n <= |s| && t == s[|s| - n..]
    ensures |t| == n && forall k :: 0 <= k < n ==> t[k] == s[|s| - n + k]
  {}

  /** No shorter or longer run of bytes at the end of a character is white space but the character itself. */
  lemma OnlyWhole(s: seq<byte>, e: seq<byte>, n: nat)
    requires 1 <= |e| <= 4 && |e| <= |s| && 1 <= n <= 3 && n <= |s| && n != |e|
    requires (|e| == 1 <==> e[0] < 0x80) && (|e| == 2 <==> 0xC0 <= e[0] < 0xE0) && (|e| == 3 <==> 0xE0 <= e[0] < 0xF0)
    requires forall k :: 0 < k < |e| ==> 0x80 <= e[k] < 0xC0
    requires forall k :: 0 <= k < |e| ==> s[|s| - |e| + k] == e[k]
    ensures !IsSpaceChar(s[|s| - n..])
  {
    LastBytes(s, n, s[|s| - n..]);
    SpaceBytes(s[|s| - n..]);
    hide IsSpaceChar;
    var t := s[|s| - n..];
    assert t[n - 1] == e[|e| - 1];
    if n < |e| {
      assert t[0] == e[|e| - n];
    } else {
      assert t[n - |e|] == e[0];
    }
  }

  lemma SpaceShort(e: seq<byte>)
    ensures IsSpaceChar(e) ==> |e| <= 3
  {}

  /** Whether some bytes at the end of s are a white-space character. */
  predicate SpaceOf(s: seq<byte>, n: nat) {
    n <= |s| && IsSpaceChar(s[|s| - n..])
  }

  lemma SpaceAtEndIs(s: seq<byte>)
    ensures SpaceAtEnd(s) == if |s| > 0 && SpaceOf(s, 1) then 1 else if SpaceOf(s, 2) then 2 else if SpaceOf(s, 3) then 3 else 0
  {
    hide IsSpaceChar;
  }

  lemma OnlyOne(front: seq<byte>, c: char, n: nat)
    requires 1 <= n <= 3
    ensures SpaceOf(front + Encoded(c), n) <==> n == |Encoded(c)| && IsWhitespace(c)
  {
    SpaceIffWhitespace(c);
    EncodedBytes(c);
    hide Encoded, IsWhitespace, IsSpaceChar;
    var e, s := Encoded(c), front + Encoded(c);
    assert s[|s| - |e|..] == e;
    if n <= |s| && n != |e| {
      assert forall k :: 0 <= k < |e| ==> s[|s| - |e| + k] == e[k];
      OnlyWhole(s, e, n);
    }
  }

  lemma SpaceLast(front: seq<byte>, c: char)
    ensures SpaceAtEnd(front + Encoded(c)) == if IsWhitespace(c) then |Encoded(c)| else 0
  {
    hide *;
    SpaceAtEndIs(front + Encoded(c));
    OnlyOne(front, c, 1);
    OnlyOne(front, c, 2);
    OnlyOne(front, c, 3);
    EncodedBytes(c);
    SpaceIffWhitespace(c);
    SpaceShort(Encoded(c));
    assert |front + Encoded(c)| > 0;
  }

  lemma {:induction false} EncodedSnoc(s: string, c: char)
    ensures EncodedAll(s + [c]) == EncodedAll(s) + Encoded(c)
  {
    hide Encoded;
    if s == [] {
      assert ([] + [c])[1..] == [];
      assert EncodedAll([c][1..]) == [];
    } else {
      EncodedSnoc(s[1..], c);
      assert (s + [c])[1..] == s[1..] + [c];
    }
  }

  lemma {:induction false} TrimStartEncoded(s: string)
    ensures TrimStart(EncodedAll(s)) == EncodedAll(Search.TrimStart(s))
    decreases |s|
  {
    if s != [] {
      var e, rest := Encoded(s[0]), EncodedAll(s[1..]);
      SpaceFirst(s[0], rest);
      EncodedBytes(s[0]);
      TrimStartEncoded(s[1..]);
      hide Encoded, IsWhitespace, SpaceAtStart;
      assert (e + rest)[|e|..] == rest;
    }
  }

  lemma {:induction false} TrimEndEncoded(s: string)
    ensures TrimEnd(EncodedAll(s)) == EncodedAll(Search.TrimEnd(s))
    decreases |s|
  {
    if s != [] {
      var front, c := s[..|s| - 1], s[|s| - 1];
      assert s == front + [c];
      EncodedSnoc(front, c);
      SpaceLast(EncodedAll(front), c);
      EncodedBytes(c);
      TrimEndEncoded(front);
      hide Encoded, IsWhitespace, SpaceAtEnd, EncodedAll;
      var all, e := EncodedAll(s), Encoded(c);
      assert all[..|all| - |e|] == EncodedAll(front);
    }
  }

  lemma TrimEitherWay(s: string)
    ensures Search.TrimStart(Search.TrimEnd(s)) == Search.Trim(s)
  {
    var x, y := Search.TrimIs(s);
    var b := Search.TrimEndIs(s);
    var t := s[..b];
    var a := Search.TrimStartIs(t);
    hide IsWhitespace, Search.Trim, Search.TrimStart, Search.TrimEnd;
    assert forall k :: 0 <= k < b ==> t[k] == s[k];
    if x < y {
      assert b == y;
      assert a == x;
      assert t[a..] == s[x..y];
    } else {
      assert b == 0;
      assert t[a..] == s[x..y];
    }
  }

  /** Trimming the bytes of a text is trimming its characters. */
  lemma TrimIsOfCharacters(s: string)
    ensures Trim(EncodedAll(s)) == EncodedAll(Search.Trim(s))
  {
    TrimEndEncoded(s);
    TrimStartEncoded(Search.TrimEnd(s));
    TrimEitherWay(s);
    hide Encoded, IsWhitespace;
  }
}
