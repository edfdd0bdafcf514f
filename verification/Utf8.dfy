/** UTF-8 as RFC 3629 section 4 defines it: what Rust demands of every String. */
module Utf8 {
  import opened Bytes

  predicate IsContinuation(b: byte) {
    0x80 <= b <= 0xBF
  }

  predicate SecondByteOk(first: byte, second: byte) {
    if first == 0xE0 then 0xA0 <= second <= 0xBF
    else if first == 0xED then 0x80 <= second <= 0x9F
    else if first == 0xF0 then 0x90 <= second <= 0xBF
    else if first == 0xF4 then 0x80 <= second <= 0x8F
    else IsContinuation(second)
  }

  /** How many bytes a character with this first byte takes; 0 if none starts so. */
  function LengthFrom(first: byte): nat {
    if first <= 0x7F then 1
    else if 0xC2 <= first <= 0xDF then 2
    else if 0xE0 <= first <= 0xEF then 3
    else if 0xF0 <= first <= 0xF4 then 4
    else 0
  }

  /** s starts with one well-formed character of n bytes. */
  predicate StartsWithChar(s: seq<byte>, n: nat) {
    && 0 < n <= |s| && n == LengthFrom(s[0])
    && (n >= 2 ==> SecondByteOk(s[0], s[1]))
    && (n >= 3 ==> IsContinuation(s[2]))
    && (n >= 4 ==> IsContinuation(s[3]))
  }

  predicate ValidUtf8(s: seq<byte>)
    decreases |s|
  {
    s == [] || (StartsWithChar(s, LengthFrom(s[0])) && ValidUtf8(s[LengthFrom(s[0])..]))
  }

  /** Position k does not fall inside a character. */
  predicate AtBoundary(s: seq<byte>, k: nat) {
    k >= |s| || !IsContinuation(s[k])
  }

  lemma {:induction false} ValidConcat(a: seq<byte>, b: seq<byte>)
    requires ValidUtf8(a)
    ensures ValidUtf8(a + b) <==> ValidUtf8(b)
    decreases |a|
  {
    if a == [] {
      assert a + b == b;
    } else {
      var n := LengthFrom(a[0]);
      ValidConcat(a[n..], b);
      assert (a + b)[n..] == a[n..] + b;
      assert StartsWithChar(a, n) && StartsWithChar(a + b, n);
    }
  }

  /** A valid text cut at k is valid exactly when k is not inside a character. */
  lemma {:induction false} PrefixValid(s: seq<byte>, k: nat)
    requires ValidUtf8(s) && k <= |s|
    ensures ValidUtf8(s[..k]) <==> AtBoundary(s, k)
    decreases |s|
  {
    if 0 < k {
      var n := LengthFrom(s[0]);
      assert s[..k][0] == s[0];
      if k < n {
        assert IsContinuation(s[k]);
      } else {
        PrefixValid(s[n..], k - n);
        assert |s[..k][n..]| == |s[n..][..k - n]|;
        assert s[..k][n..] == s[n..k] == s[n..][..k - n];
        assert StartsWithChar(s[..k], n);
      }
    }
  }

  lemma {:induction false} AsciiIsUtf8(s: seq<byte>)
    requires forall k :: 0 <= k < |s| ==> s[k] < 0x80
    ensures ValidUtf8(s)
  {
    if s != [] { AsciiIsUtf8(s[1..]); }
  }
}
