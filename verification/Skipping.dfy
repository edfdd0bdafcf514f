/**
 * Stepping over a JSON value byte by byte while counting brackets: what both
 * line scanners do with the members they do not care about
 * (crates/host-core/src/transcripts.rs).
 */
module Skipping {
  import opened Bytes
  import opened Json

  predicate Structural(b: byte) {
    b == QUOTE || b == OPEN_BRACE || b == OPEN_BRACKET || b == CLOSE_BRACE || b == CLOSE_BRACKET
  }

  /** What follows a value inside an array or an object, as opposed to the end of the text. */
  predicate Follows(rest: seq<byte>) {
    rest != [] && Stops(rest)
  }

  /**
   * f, as a function of the text still to be read and the depth, ignores plain
   * bytes, counts brackets, and ignores strings that are nested or stand where
   * a value stands.
   */
  ghost predicate Skips<X(!new)>(f: (seq<byte>, nat) -> X) {
    && (forall b: byte, rest: seq<byte>, d: nat {:trigger f([b] + rest, d)} ::
          d >= 1 && !Structural(b) ==> f([b] + rest, d) == f(rest, d))
    && (forall b: byte, rest: seq<byte>, d: nat {:trigger f([b] + rest, d)} ::
          d >= 1 && (b == OPEN_BRACE || b == OPEN_BRACKET) ==> f([b] + rest, d) == f(rest, d + 1))
    && (forall b: byte, rest: seq<byte>, d: nat {:trigger f([b] + rest, d)} ::
          d >= 2 && (b == CLOSE_BRACE || b == CLOSE_BRACKET) ==> f([b] + rest, d) == f(rest, d - 1))
    && (forall content: seq<byte>, rest: seq<byte>, d: nat {:trigger f(Quoted(content) + rest, d)} ::
          d >= 2 || (d == 1 && Follows(rest)) ==> f(Quoted(content) + rest, d) == f(rest, d))
  }

  lemma {:induction false} SkipPlain<X(!new)>(f: (seq<byte>, nat) -> X, text: seq<byte>, rest: seq<byte>, depth: nat)
    requires Skips(f) && depth >= 1 && forall k :: 0 <= k < |text| ==> !Structural(text[k])
    ensures f(text + rest, depth) == f(rest, depth)
  {
    if text == [] {
      assert text + rest == rest;
    } else {
      SkipPlain(f, text[1..], rest, depth);
      assert text + rest == [text[0]] + (text[1..] + rest);
      assert f([text[0]] + (text[1..] + rest), depth) == f(text[1..] + rest, depth);
    }
  }

  lemma AtomIsPlain(v: Json)
    requires Valid(v) && (v.Null? || v.Bool? || v.Number?)
    ensures forall k :: 0 <= k < |Print(v)| ==> !Structural(Print(v)[k])
  {}

  /** Where a value stands, f passes over the whole of it. */
  lemma {:induction false} SkipValue<X(!new)>(f: (seq<byte>, nat) -> X, v: Json, rest: seq<byte>, depth: nat)
    requires Skips(f) && Valid(v) && depth >= 1 && Follows(rest)
    ensures f(Print(v) + rest, depth) == f(rest, depth)
    decreases v
  {
    match v {
      case String(content) => assert f(Quoted(content) + rest, depth) == f(rest, depth);
      case Array(items) => SkipArray(f, items, rest, depth);
      case Object(members) => SkipObject(f, members, rest, depth);
      case _ =>
        AtomIsPlain(v);
        SkipPlain(f, Print(v), rest, depth);
    }
  }

  lemma SkipArray<X(!new)>(f: (seq<byte>, nat) -> X, items: Items, rest: seq<byte>, depth: nat)
    requires Skips(f) && ValidItems(items) && depth >= 1
    ensures f(Print(Array(items)) + rest, depth) == f(rest, depth)
    decreases items, 1
  {
    hide PrintItems;
    ArrayFront(items, rest);
    var body := PrintItems(items) + ([CLOSE_BRACKET] + rest);
    assert f([OPEN_BRACKET] + body, depth) == f(body, depth + 1);
    SkipItems(f, items, rest, depth + 1);
    assert f([CLOSE_BRACKET] + rest, depth + 1) == f(rest, depth);
  }

  lemma SkipObject<X(!new)>(f: (seq<byte>, nat) -> X, members: Members, rest: seq<byte>, depth: nat)
    requires Skips(f) && ValidMembers(members) && depth >= 1
    ensures f(Print(Object(members)) + rest, depth) == f(rest, depth)
    decreases members, 1
  {
    hide PrintMembers;
    ObjectFront(members, rest);
    var body := PrintMembers(members) + ([CLOSE_BRACE] + rest);
    assert f([OPEN_BRACE] + body, depth) == f(body, depth + 1);
    SkipMembers(f, members, rest, depth + 1);
    assert f([CLOSE_BRACE] + rest, depth + 1) == f(rest, depth);
  }

  lemma {:induction false} SkipItems<X(!new)>(f: (seq<byte>, nat) -> X, items: Items, r: seq<byte>, depth: nat)
    requires Skips(f) && ValidItems(items) && depth >= 2
    ensures f(PrintItems(items) + ([CLOSE_BRACKET] + r), depth) == f([CLOSE_BRACKET] + r, depth)
    decreases items, 0
  {
    ItemsFront(items, r);
    if items.Item? {
      hide Print, PrintItems;
      SkipValue(f, items.head, AfterItem(items.tail, r), depth);
      if items.tail.Item? {
        var more := PrintItems(items.tail) + ([CLOSE_BRACKET] + r);
        assert f([COMMA] + more, depth) == f(more, depth);
        SkipItems(f, items.tail, r, depth);
      }
    }
  }

  /** Below the top level no key counts, whatever it is called. */
  lemma {:induction false} SkipMembers<X(!new)>(f: (seq<byte>, nat) -> X, members: Members, r: seq<byte>, depth: nat)
    requires Skips(f) && ValidMembers(members) && depth >= 2
    ensures f(PrintMembers(members) + ([CLOSE_BRACE] + r), depth) == f([CLOSE_BRACE] + r, depth)
    decreases members, 0
  {
    MembersFront(members, r);
    if members.Member? {
      hide Print, PrintMembers, Quoted;
      var after := AfterMember(members.rest, r);
      var value := Print(members.value) + after;
      assert f(Quoted(members.key) + ([COLON] + value), depth) == f([COLON] + value, depth);
      assert f([COLON] + value, depth) == f(value, depth);
      SkipValue(f, members.value, after, depth);
      if members.rest.Member? {
        var more := PrintMembers(members.rest) + ([CLOSE_BRACE] + r);
        assert f([COMMA] + more, depth) == f(more, depth);
        SkipMembers(f, members.rest, r, depth);
      }
    }
  }
}
