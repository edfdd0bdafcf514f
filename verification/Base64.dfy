/** Base 64 as section 4 of RFC 4648 defines it, padded; decoding refuses anything encoding would not give. */
module Base64 {
  import opened Wrappers
  import opened Bytes

  const PAD: byte := 0x3D

  type Sextet = v: int | 0 <= v < 64

  function Symbol(v: Sextet): byte {
    if v < 26 then (0x41 + v) as byte
    else if v < 52 then (0x61 + v - 26) as byte
    else if v < 62 then (0x30 + v - 52) as byte
    else if v == 62 then 0x2B
    else 0x2F
  }

  function ValueOf(b: byte): Option<Sextet> {
    if 0x41 <= b <= 0x5A then Some(b as int - 0x41)
    else if 0x61 <= b <= 0x7A then Some(b as int - 0x61 + 26)
    else if 0x30 <= b <= 0x39 then Some(b as int - 0x30 + 52)
    else if b == 0x2B then Some(62)
    else if b == 0x2F then Some(63)
    else None
  }

  lemma SymbolsAndValues(v: Sextet, b: byte)
    ensures ValueOf(b) == Some(v) <==> b == Symbol(v)
  {}

  function Encode(s: seq<byte>): seq<byte> {
    if s == [] then []
    else
      var a := s[0] as int;
      if |s| == 1 then [Symbol(a / 4), Symbol(a % 4 * 16), PAD, PAD]
      else
        var b := s[1] as int;
        if |s| == 2 then [Symbol(a / 4), Symbol(a % 4 * 16 + b / 16), Symbol(b % 16 * 4), PAD]
        else
          var c := s[2] as int;
          [Symbol(a / 4), Symbol(a % 4 * 16 + b / 16), Symbol(b % 16 * 4 + c / 64), Symbol(c % 64)] + Encode(s[3..])
  }

  /** The bytes of one group of four symbols; only the last group may be padded. */
  function DecodeGroup(w: byte, x: byte, y: byte, z: byte, last: bool): Option<seq<byte>> {
    var p, q, r, t := ValueOf(w), ValueOf(x), ValueOf(y), ValueOf(z);
    if p.None? || q.None? then None
    else if last && y == PAD && z == PAD then
      (if q.value % 16 != 0 then None else Some([(p.value * 4 + q.value / 16) as byte]))
    else if r.None? then None
    else if last && z == PAD then
      (if r.value % 4 != 0 then None
       else Some([(p.value * 4 + q.value / 16) as byte, (q.value % 16 * 16 + r.value / 4) as byte]))
    else if t.None? then None
    else Some([(p.value * 4 + q.value / 16) as byte, (q.value % 16 * 16 + r.value / 4) as byte, (r.value % 4 * 64 + t.value) as byte])
  }

  function Decode(s: seq<byte>): Option<seq<byte>> {
    if s == [] then Some([])
    else if |s| < 4 then None
    else
      var group := DecodeGroup(s[0], s[1], s[2], s[3], |s| == 4);
      if group.None? then None
      else
        var rest := Decode(s[4..]);
        if rest.None? then None else Some(group.value + rest.value)
  }

  lemma PadIsNoSymbol(v: Sextet)
    ensures Symbol(v) != PAD && ValueOf(PAD).None?
  {}

  lemma UnpackFirst(a: byte, m: nat)
    requires m < 16
    ensures a as int / 4 * 4 + (a as int % 4 * 16 + m) / 16 == a as int && (a as int % 4 * 16 + m) % 16 == m
  {}

  lemma UnpackSecond(b: byte, m: nat)
    requires m < 4
    ensures b as int / 16 * 16 + (b as int % 16 * 4 + m) / 4 == b as int && (b as int % 16 * 4 + m) % 4 == m
  {}

  lemma UnpackThird(c: byte)
    ensures c as int / 64 * 64 + c as int % 64 == c as int
  {}

  lemma DecodeThree(p: Sextet, q: Sextet, r: Sextet, t: Sextet, last: bool)
    ensures DecodeGroup(Symbol(p), Symbol(q), Symbol(r), Symbol(t), last) ==
            Some([(p * 4 + q / 16) as byte, (q % 16 * 16 + r / 4) as byte, (r % 4 * 64 + t) as byte])
  {
    hide Symbol, ValueOf;
    SymbolsAndValues(p, Symbol(p));
    SymbolsAndValues(q, Symbol(q));
    SymbolsAndValues(r, Symbol(r));
    SymbolsAndValues(t, Symbol(t));
    PadIsNoSymbol(t);
  }

  lemma DecodeTwo(p: Sextet, q: Sextet, r: Sextet)
    requires r % 4 == 0
    ensures DecodeGroup(Symbol(p), Symbol(q), Symbol(r), PAD, true) ==
            Some([(p * 4 + q / 16) as byte, (q % 16 * 16 + r / 4) as byte])
  {
    hide Symbol, ValueOf;
    SymbolsAndValues(p, Symbol(p));
    SymbolsAndValues(q, Symbol(q));
    SymbolsAndValues(r, Symbol(r));
    PadIsNoSymbol(r);
  }

  lemma DecodeOne(p: Sextet, q: Sextet)
    requires q % 16 == 0
    ensures DecodeGroup(Symbol(p), Symbol(q), PAD, PAD, true) == Some([(p * 4 + q / 16) as byte])
  {
    hide Symbol, ValueOf;
    SymbolsAndValues(p, Symbol(p));
    SymbolsAndValues(q, Symbol(q));
  }

  lemma GroupOfThree(s: seq<byte>, last: bool)
    requires |s| == 3
    ensures var e := Encode(s); |e| == 4 && DecodeGroup(e[0], e[1], e[2], e[3], last) == Some(s)
  {
    hide Symbol, DecodeGroup;
    var a, b, c := s[0] as int, s[1] as int, s[2] as int;
    assert s[3..] == [] && s == [s[0], s[1], s[2]];
    DecodeThree(a / 4, a % 4 * 16 + b / 16, b % 16 * 4 + c / 64, c % 64, last);
    UnpackFirst(s[0], b / 16);
    UnpackSecond(s[1], c / 64);
    UnpackThird(s[2]);
  }

  lemma GroupOfTwo(s: seq<byte>)
    requires |s| == 2
    ensures var e := Encode(s); |e| == 4 && DecodeGroup(e[0], e[1], e[2], e[3], true) == Some(s)
  {
    hide Symbol, DecodeGroup;
    var a, b := s[0] as int, s[1] as int;
    assert s == [s[0], s[1]];
    UnpackFirst(s[0], b / 16);
    UnpackSecond(s[1], 0);
    DecodeTwo(a / 4, a % 4 * 16 + b / 16, b % 16 * 4);
  }

  lemma GroupOfOne(s: seq<byte>)
    requires |s| == 1
    ensures var e := Encode(s); |e| == 4 && DecodeGroup(e[0], e[1], e[2], e[3], true) == Some(s)
  {
    hide Symbol, DecodeGroup;
    var a := s[0] as int;
    assert s == [s[0]];
    UnpackFirst(s[0], 0);
    DecodeOne(a / 4, a % 4 * 16);
  }

  lemma EncodeFront(s: seq<byte>)
    requires |s| > 3
    ensures Encode(s) == Encode(s[..3]) + Encode(s[3..])
    ensures |Encode(s[..3])| == 4 && Encode(s[3..]) != []
  {
    hide Symbol;
    assert s[..3][3..] == [];
  }

  lemma EncodeNothing()
    ensures Encode([]) == []
  {}

  /** Decoding undoes encoding. */
  lemma {:induction false} RoundTrip(s: seq<byte>)
    ensures Decode(Encode(s)) == Some(s)
  {
    hide Encode, DecodeGroup;
    if s == [] {
      assert Encode([]) == [] by { EncodeNothing(); }
    } else if |s| <= 3 {
      if |s| == 1 { GroupOfOne(s); } else if |s| == 2 { GroupOfTwo(s); } else { GroupOfThree(s, true); }
      assert Encode(s)[4..] == [] && s + [] == s;
      assert Decode([]) == Some([]);
    } else {
      EncodeFront(s);
      GroupOfThree(s[..3], false);
      RoundTrip(s[3..]);
      assert Encode(s)[4..] == Encode(s[3..]);
      assert s == s[..3] + s[3..];
    }
  }

  lemma PackFirst(p: Sextet, q: Sextet)
    ensures (p * 4 + q / 16) / 4 == p && (p * 4 + q / 16) % 4 * 16 == q - q % 16
  {}

  lemma PackSecond(q: Sextet, r: Sextet)
    ensures var b := q % 16 * 16 + r / 4; b / 16 == q % 16 && b % 16 * 4 == r - r % 4
  {}

  lemma PackThird(r: Sextet, t: Sextet)
    ensures var c := r % 4 * 64 + t; c / 64 == r % 4 && c % 64 == t
  {}

  lemma EncodeOne(p: Sextet, q: Sextet)
    requires q % 16 == 0
    ensures Encode([(p * 4 + q / 16) as byte]) == [Symbol(p), Symbol(q), PAD, PAD]
  {
    PackFirst(p, q);
    hide Symbol;
  }

  lemma EncodeTwo(p: Sextet, q: Sextet, r: Sextet)
    requires r % 4 == 0
    ensures Encode([(p * 4 + q / 16) as byte, (q % 16 * 16 + r / 4) as byte]) == [Symbol(p), Symbol(q), Symbol(r), PAD]
  {
    PackFirst(p, q);
    PackSecond(q, r);
    hide Symbol;
  }

  lemma EncodeThree(p: Sextet, q: Sextet, r: Sextet, t: Sextet)
    ensures Encode([(p * 4 + q / 16) as byte, (q % 16 * 16 + r / 4) as byte, (r % 4 * 64 + t) as byte]) ==
            [Symbol(p), Symbol(q), Symbol(r), Symbol(t)]
  {
    PackFirst(p, q);
    PackSecond(q, r);
    PackThird(r, t);
    hide Symbol;
    var s := [(p * 4 + q / 16) as byte, (q % 16 * 16 + r / 4) as byte, (r % 4 * 64 + t) as byte];
    assert s[3..] == [];
  }

  lemma GroupEncodes(w: byte, x: byte, y: byte, z: byte, last: bool, g: seq<byte>)
    requires DecodeGroup(w, x, y, z, last) == Some(g)
    ensures Encode(g) == [w, x, y, z] && (!last ==> |g| == 3) && 1 <= |g| <= 3
  {
    hide Symbol, ValueOf, Encode;
    var p, q, r, t := ValueOf(w), ValueOf(x), ValueOf(y), ValueOf(z);
    SymbolsAndValues(p.value, w);
    SymbolsAndValues(q.value, x);
    if last && y == PAD && z == PAD {
      EncodeOne(p.value, q.value);
    } else if last && z == PAD {
      SymbolsAndValues(r.value, y);
      EncodeTwo(p.value, q.value, r.value);
    } else {
      SymbolsAndValues(r.value, y);
      SymbolsAndValues(t.value, z);
      EncodeThree(p.value, q.value, r.value, t.value);
    }
  }

  /** Every text that decodes is the encoding of what it decodes to. */
  lemma {:induction false} DecodeIsCanonical(s: seq<byte>)
    requires Decode(s).Some?
    ensures Encode(Decode(s).value) == s
  {
    hide Encode, DecodeGroup;
    if s == [] {
      EncodeNothing();
    } else {
      var g := DecodeGroup(s[0], s[1], s[2], s[3], |s| == 4).value;
      GroupEncodes(s[0], s[1], s[2], s[3], |s| == 4, g);
      DecodeIsCanonical(s[4..]);
      var rest := Decode(s[4..]).value;
      if |s| == 4 {
        assert g + rest == g;
      } else {
        if rest == [] { EncodeNothing(); }
        assert (g + rest)[..3] == g && (g + rest)[3..] == rest;
        EncodeFront(g + rest);
        assert s == s[..4] + s[4..];
      }
    }
  }

  /** Section 10 of RFC 4648: the encodings of f, fo, foo and foob; and AZaz and 09+/, the ends of the ranges of its table 1. */
  lemma Rfc4648Vectors()
    ensures Encode([0x66]) == [0x5A, 0x67, PAD, PAD]
    ensures Encode([0x66, 0x6F]) == [0x5A, 0x6D, 0x38, PAD]
    ensures Encode([0x66, 0x6F, 0x6F]) == [0x5A, 0x6D, 0x39, 0x76]
    ensures Encode([0x01, 0x96, 0xB3]) == [0x41, 0x5A, 0x61, 0x7A]
    ensures Encode([0xD3, 0xDF, 0xBF]) == [0x30, 0x39, 0x2B, 0x2F]
    ensures Encode([0x66, 0x6F, 0x6F, 0x62]) == [0x5A, 0x6D, 0x39, 0x76, 0x59, 0x67, PAD, PAD]
  {
    var foo: seq<byte> := [0x66, 0x6F, 0x6F];
    assert foo[3..] == [] && [0x01, 0x96, 0xB3][3..] == [] && [0xD3, 0xDF, 0xBF][3..] == [];
    assert [0x66, 0x6F, 0x6F, 0x62][3..] == [0x62];
  }
}
