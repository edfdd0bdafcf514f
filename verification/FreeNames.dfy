/**
 * Names for a server that moves to a level where its own may be taken
 * (crates/host-core/src/agent_capabilities.rs, crates/host-core/src/mcp_servers.rs).
 */
module FreeNames {
  import opened Sets
  import opened Wrappers
  import opened Folding
  import opened Naturals
  import Decimal

  const MAX_ID_SUFFIX: nat := 999
  const MAX_SERVERS: nat := 128
  const MAX_VALUE_BYTES: nat := 4096
  const MAX_ID_CHARS: nat := 64

  predicate IsDigit(c: char) {
    '0' <= c <= '9'
  }

  /** Lowercasing leaves the characters of a suffix alone. */
  ghost predicate FoldOk(fold: Fold) {
    forall c: char :: IsDigit(c) || c in {'-', ' ', '(', ')'} ==> fold(c) == [c]
  }

  // ----- numerals -----

  predicate AllDigits(s: string) {
    forall k :: 0 <= k < |s| ==> IsDigit(s[k])
  }

  function Digits(n: nat): string {
    seq(|Decimal.Digits(n)|, k requires 0 <= k < |Decimal.Digits(n)| => Decimal.Digits(n)[k] as int as char)
  }

  lemma DigitsAre(n: nat)
    ensures Digits(n) != [] && AllDigits(Digits(n))
  {
    Decimal.DigitsValue(n);
  }

  lemma DigitsInjective(m: nat, n: nat)
    requires Digits(m) == Digits(n)
    ensures m == n
  {
    Decimal.DigitsValue(m);
    Decimal.DigitsValue(n);
    var a, b := Decimal.Digits(m), Decimal.Digits(n);
    assert |a| == |Digits(m)| == |Digits(n)| == |b|;
    forall k | 0 <= k < |a| ensures a[k] == b[k] {
      assert Digits(m)[k] == Digits(n)[k];
    }
    assert a == b;
  }

  lemma DigitsShort(n: nat)
    requires n <= MAX_ID_SUFFIX
    ensures |Digits(n)| <= 3
  {
    if n >= 10 {
      if n >= 100 { assert |Decimal.Digits(n / 100)| == 1; }
      assert |Decimal.Digits(n)| == |Decimal.Digits(n / 10)| + 1;
    }
  }

  /** A numeral behind a separator is read back from the end of a name. */
  lemma TailNumeral(x: string, y: string, sep: char, m: nat, n: nat)
    requires !IsDigit(sep) && x + [sep] + Digits(m) == y + [sep] + Digits(n)
    ensures m == n
  {
    DigitsAre(m);
    DigitsAre(n);
    var s, p, q := x + [sep] + Digits(m), Digits(m), Digits(n);
    hide Digits;
    assert s == y + [sep] + q;
    assert s[|x|] == sep && s[|y|] == sep;
    assert |x| == |y|;
    assert p == s[|x| + 1..] == q;
    DigitsInjective(m, n);
  }

  // ----- ids -----

  function DropTrailing(s: string, c: char): string {
    if s != [] && s[|s| - 1] == c then DropTrailing(s[..|s| - 1], c) else s
  }

  lemma {:induction false} DropTrailingIs(s: string, c: char)
    ensures DropTrailing(s, c) <= s && (s != [] && s[0] != c ==> DropTrailing(s, c) != [])
  {
    if s != [] && s[|s| - 1] == c { DropTrailingIs(s[..|s| - 1], c); }
  }

  function Take(s: string, n: nat): string {
    if n <= |s| then s[..n] else s
  }

  function IdSuffix(ordinal: nat): string {
    ['-'] + Digits(ordinal)
  }

  function IdBase(preferred: string, ordinal: nat, maxChars: nat): string {
    DropTrailing(Take(preferred, SaturatingSub(maxChars, |IdSuffix(ordinal)|)), '-')
  }

  function IdCandidate(preferred: string, ordinal: nat, maxChars: nat): string {
    IdBase(preferred, ordinal, maxChars) + IdSuffix(ordinal)
  }

  /** The candidates from one ordinal on. */
  function IdFrom(preferred: string, taken: set<string>, maxChars: nat, fold: Fold, ordinal: nat): Option<(string, nat)>
    decreases MAX_ID_SUFFIX + 1 - ordinal
  {
    if ordinal > MAX_ID_SUFFIX || IdBase(preferred, ordinal, maxChars) == [] then None
    else if Folded(IdCandidate(preferred, ordinal, maxChars), fold) !in taken
    then Some((IdCandidate(preferred, ordinal, maxChars), ordinal))
    else IdFrom(preferred, taken, maxChars, fold, ordinal + 1)
  }

  function SuffixedId(preferred: string, taken: set<string>, maxChars: nat, fold: Fold): Option<(string, nat)> {
    if Folded(preferred, fold) !in taken then Some((preferred, 0)) else IdFrom(preferred, taken, maxChars, fold, 2)
  }

  predicate IsAlpha(c: char) {
    'a' <= c <= 'z' || 'A' <= c <= 'Z'
  }

  predicate IdChar(c: char) {
    IsAlpha(c) || IsDigit(c) || c == '_' || c == '-'
  }

  predicate ValidId(id: string) {
    id != [] && IsAlpha(id[0]) && |id| <= MAX_ID_CHARS && forall k :: 0 <= k < |id| ==> IdChar(id[k])
  }

  /** The longest beginning of text with at most room characters that does not end in c. */
  ghost predicate Longest(base: string, text: string, room: int, c: char) {
    && base <= text && (|base| <= room || base == [])
    && (base == [] || base[|base| - 1] != c)
    && forall k :: |base| <= k < |text| && k < room ==> text[k] == c
  }

  lemma {:induction false} DropTrailingLongest(s: string, c: char)
    ensures var base := DropTrailing(s, c);
            base <= s && (base == [] || base[|base| - 1] != c) && forall k :: |base| <= k < |s| ==> s[k] == c
  {
    if s != [] && s[|s| - 1] == c { DropTrailingLongest(s[..|s| - 1], c); }
  }

  lemma BaseIsLongest(text: string, room: nat, c: char)
    ensures Longest(DropTrailing(Take(text, room), c), text, room, c)
  {
    DropTrailingLongest(Take(text, room), c);
    hide DropTrailing;
  }

  /**
   * The suffixed id keeps as much of the id as fits before the suffix, without
   * dashes at its end; so an id with room and no dash at its end is kept whole.
   */
  lemma IdKeepsMost(preferred: string, ordinal: nat, maxChars: nat) returns (base: string)
    requires |Digits(ordinal)| + 1 <= maxChars
    ensures IdCandidate(preferred, ordinal, maxChars) == base + "-" + Digits(ordinal)
    ensures Longest(base, preferred, maxChars - 1 - |Digits(ordinal)|, '-')
    ensures |preferred| + 1 + |Digits(ordinal)| <= maxChars && (preferred == [] || preferred[|preferred| - 1] != '-') ==> base == preferred
  {
    base := IdBase(preferred, ordinal, maxChars);
    BaseIsLongest(preferred, SaturatingSub(maxChars, |IdSuffix(ordinal)|), '-');
    hide DropTrailing, Digits;
  }

  // ----- labels -----

  function NameSuffix(ordinal: nat): string {
    [' ', '('] + Digits(ordinal) + [')']
  }

  function NameBase(name: string, ordinal: nat, maxChars: nat): string {
    DropTrailing(Take(name, SaturatingSub(maxChars, |NameSuffix(ordinal)|)), ' ')
  }

  function NameCandidate(name: string, ordinal: nat, maxChars: nat): string {
    if ordinal <= 1 then Take(name, maxChars)
    else NameBase(name, ordinal, maxChars) + NameSuffix(ordinal)
  }

  /** The suffixed label keeps as much of the label as fits before the suffix, without blanks at its end. */
  lemma NameKeepsMost(name: string, ordinal: nat, maxChars: nat) returns (base: string)
    requires ordinal >= 2 && |Digits(ordinal)| + 3 <= maxChars
    ensures NameCandidate(name, ordinal, maxChars) == base + " (" + Digits(ordinal) + ")"
    ensures Longest(base, name, maxChars - 3 - |Digits(ordinal)|, ' ')
    ensures |name| + 3 + |Digits(ordinal)| <= maxChars && (name == [] || name[|name| - 1] != ' ') ==> base == name
  {
    base := NameBase(name, ordinal, maxChars);
    BaseIsLongest(name, SaturatingSub(maxChars, |NameSuffix(ordinal)|), ' ');
    hide DropTrailing, Digits;
    assert " (" == [' ', '('] && ")" == [')'];
  }

  lemma NameFirst(name: string, ordinal: nat, maxChars: nat)
    requires ordinal <= 1
    ensures NameCandidate(name, ordinal, maxChars) <= name
    ensures |NameCandidate(name, ordinal, maxChars)| == if |name| <= maxChars then |name| else maxChars
  {}

  predicate NameFree(name: string, ordinal: nat, maxChars: nat, taken: set<string>, fold: Fold) {
    var candidate := NameCandidate(name, ordinal, maxChars);
    candidate != [] && Folded(candidate, fold) !in taken
  }

  function NameFrom(preferred: string, taken: set<string>, maxChars: nat, fold: Fold, ordinal: nat): string
    decreases MAX_ID_SUFFIX + 1 - ordinal
  {
    if ordinal > MAX_ID_SUFFIX then preferred
    else if NameFree(preferred, ordinal, maxChars, taken, fold) then NameCandidate(preferred, ordinal, maxChars)
    else NameFrom(preferred, taken, maxChars, fold, ordinal + 1)
  }

  function SuffixedName(preferred: string, taken: set<string>, maxChars: nat, fold: Fold): string {
    NameFrom(preferred, taken, maxChars, fold, 1)
  }

  // ----- distinct ordinals, distinct candidates -----

  lemma {:induction false} FoldedPlain(s: string, fold: Fold)
    requires FoldOk(fold) && forall k :: 0 <= k < |s| ==> IsDigit(s[k]) || s[k] in {'-', ' ', '(', ')'}
    ensures Folded(s, fold) == s
  {
    if s != [] {
      FoldedPlain(s[1..], fold);
      assert s == [s[0]] + s[1..];
    }
  }

  lemma FoldedId(preferred: string, ordinal: nat, maxChars: nat, fold: Fold)
    requires FoldOk(fold)
    ensures Folded(IdCandidate(preferred, ordinal, maxChars), fold) ==
            Folded(IdBase(preferred, ordinal, maxChars), fold) + ['-'] + Digits(ordinal)
  {
    DigitsAre(ordinal);
    hide FoldOk, IdBase, Digits, Folded;
    FoldedConcat(IdBase(preferred, ordinal, maxChars), IdSuffix(ordinal), fold);
    FoldedPlain(IdSuffix(ordinal), fold);
  }

  lemma DistinctIds(preferred: string, maxChars: nat, fold: Fold, m: nat, n: nat)
    requires FoldOk(fold) && m != n
    ensures Folded(IdCandidate(preferred, m, maxChars), fold) != Folded(IdCandidate(preferred, n, maxChars), fold)
  {
    hide FoldOk, IdBase, IdCandidate, Digits, Folded;
    FoldedId(preferred, m, maxChars, fold);
    FoldedId(preferred, n, maxChars, fold);
    if Folded(IdCandidate(preferred, m, maxChars), fold) == Folded(IdCandidate(preferred, n, maxChars), fold) {
      TailNumeral(Folded(IdBase(preferred, m, maxChars), fold), Folded(IdBase(preferred, n, maxChars), fold), '-', m, n);
    }
  }

  lemma FoldedName(name: string, ordinal: nat, maxChars: nat, fold: Fold)
    requires FoldOk(fold) && ordinal >= 2
    ensures Folded(NameCandidate(name, ordinal, maxChars), fold) ==
            Folded(NameBase(name, ordinal, maxChars), fold) + [' '] + ['('] + Digits(ordinal) + [')']
  {
    DigitsAre(ordinal);
    hide FoldOk, Digits, Folded, DropTrailing, Take;
    FoldedConcat(NameBase(name, ordinal, maxChars), NameSuffix(ordinal), fold);
    FoldedPlain(NameSuffix(ordinal), fold);
  }

  lemma DropLast(a: string, b: string, c: char)
    requires a + [c] == b + [c]
    ensures a == b
  {
    assert (a + [c])[..|a|] == a && (b + [c])[..|b|] == b;
  }

  lemma DistinctNames(name: string, maxChars: nat, fold: Fold, m: nat, n: nat)
    requires FoldOk(fold) && m >= 2 && n >= 2 && m != n
    ensures Folded(NameCandidate(name, m, maxChars), fold) != Folded(NameCandidate(name, n, maxChars), fold)
  {
    hide FoldOk, NameBase, NameCandidate, Digits, Folded;
    FoldedName(name, m, maxChars, fold);
    FoldedName(name, n, maxChars, fold);
    var x, y := Folded(NameBase(name, m, maxChars), fold) + [' '], Folded(NameBase(name, n, maxChars), fold) + [' '];
    if Folded(NameCandidate(name, m, maxChars), fold) == Folded(NameCandidate(name, n, maxChars), fold) {
      DropLast(x + ['('] + Digits(m), y + ['('] + Digits(n), ')');
      TailNumeral(x, y, '(', m, n);
    }
  }

  /** The folded candidates of the ordinals from 2 to n. */
  function Tried(f: nat -> string, n: nat): set<string> {
    if n < 2 then {} else Tried(f, n - 1) + {f(n)}
  }

  lemma {:induction false} TriedSize(f: nat -> string, n: nat)
    requires forall i: nat, j: nat :: 2 <= i < j <= n ==> f(i) != f(j)
    ensures n >= 1 ==> |Tried(f, n)| == n - 1
    ensures forall s :: s in Tried(f, n) ==> exists i: nat :: 2 <= i <= n && f(i) == s
  {
    if n >= 2 {
      TriedSize(f, n - 1);
    }
  }

  lemma {:induction false} TriedIn(f: nat -> string, n: nat, taken: set<string>)
    requires forall i: nat :: 2 <= i <= n ==> f(i) in taken
    ensures Tried(f, n) <= taken
  {
    if n >= 2 { TriedIn(f, n - 1, taken); }
  }

  /** Pigeonhole: fewer than 998 taken names cannot hold 998 distinct candidates. */
  lemma SomeOrdinalFree(f: nat -> string, taken: set<string>)
    requires forall i: nat, j: nat :: 2 <= i < j <= MAX_ID_SUFFIX ==> f(i) != f(j)
    requires |taken| < MAX_ID_SUFFIX - 1
    ensures exists n: nat :: 2 <= n <= MAX_ID_SUFFIX && f(n) !in taken
  {
    if forall n: nat :: 2 <= n <= MAX_ID_SUFFIX ==> f(n) in taken {
      TriedSize(f, MAX_ID_SUFFIX);
      TriedIn(f, MAX_ID_SUFFIX, taken);
      SubsetSize(Tried(f, MAX_ID_SUFFIX), taken);
      assert false;
    }
  }

  // ----- free names are found -----

  function FoldedIdOf(preferred: string, maxChars: nat, fold: Fold): nat -> string {
    (n: nat) => Folded(IdCandidate(preferred, n, maxChars), fold)
  }

  function FoldedNameOf(name: string, maxChars: nat, fold: Fold): nat -> string {
    (n: nat) => Folded(NameCandidate(name, n, maxChars), fold)
  }

  lemma IdBaseNotEmpty(preferred: string, ordinal: nat, maxChars: nat)
    requires preferred != [] && preferred[0] != '-' && ordinal <= MAX_ID_SUFFIX && maxChars >= 5
    ensures IdBase(preferred, ordinal, maxChars) != []
    ensures IdBase(preferred, ordinal, maxChars) <= preferred
    ensures |IdCandidate(preferred, ordinal, maxChars)| <= maxChars
  {
    DigitsShort(ordinal);
    var t := Take(preferred, SaturatingSub(maxChars, |IdSuffix(ordinal)|));
    DropTrailingIs(t, '-');
    hide Digits, DropTrailing;
    assert t <= preferred;
  }

  /** The search stops at the first free ordinal. */
  lemma {:induction false} IdFromFinds(preferred: string, taken: set<string>, maxChars: nat, fold: Fold, ordinal: nat, n: nat)
    requires preferred != [] && preferred[0] != '-' && maxChars >= 5
    requires ordinal <= n <= MAX_ID_SUFFIX && FoldedIdOf(preferred, maxChars, fold)(n) !in taken
    ensures var found := IdFrom(preferred, taken, maxChars, fold, ordinal);
            && found.Some? && ordinal <= found.value.1 <= n
            && found.value.0 == IdCandidate(preferred, found.value.1, maxChars)
            && Folded(found.value.0, fold) !in taken
            && forall i: nat :: ordinal <= i < found.value.1 ==> FoldedIdOf(preferred, maxChars, fold)(i) in taken
    decreases MAX_ID_SUFFIX + 1 - ordinal
  {
    hide IdBase, IdCandidate, Folded;
    IdBaseNotEmpty(preferred, ordinal, maxChars);
    if FoldedIdOf(preferred, maxChars, fold)(ordinal) in taken {
      IdFromFinds(preferred, taken, maxChars, fold, ordinal + 1, n);
    }
  }

  lemma {:induction false} IdFromFails(preferred: string, taken: set<string>, maxChars: nat, fold: Fold, ordinal: nat)
    requires forall i: nat :: ordinal <= i <= MAX_ID_SUFFIX ==> Folded(IdCandidate(preferred, i, maxChars), fold) in taken
    ensures IdFrom(preferred, taken, maxChars, fold, ordinal) == None
    decreases MAX_ID_SUFFIX + 1 - ordinal
  {
    hide IdBase, IdCandidate, Folded;
    if ordinal <= MAX_ID_SUFFIX { IdFromFails(preferred, taken, maxChars, fold, ordinal + 1); }
  }

  /** With the id and all its candidates up to 999 taken there is no id. */
  lemma NoIdFree(preferred: string, taken: set<string>, maxChars: nat, fold: Fold)
    requires Folded(preferred, fold) in taken
    requires forall i: nat :: 2 <= i <= 999 ==> Folded(IdCandidate(preferred, i, maxChars), fold) in taken
    ensures SuffixedId(preferred, taken, maxChars, fold) == None
  {
    hide IdBase, IdCandidate, Folded, IdFrom;
    IdFromFails(preferred, taken, maxChars, fold, 2);
  }

  lemma {:induction false} NameFromFails(preferred: string, taken: set<string>, maxChars: nat, fold: Fold, ordinal: nat)
    requires forall i: nat :: ordinal <= i <= MAX_ID_SUFFIX ==>
               NameCandidate(preferred, i, maxChars) == [] || Folded(NameCandidate(preferred, i, maxChars), fold) in taken
    ensures NameFrom(preferred, taken, maxChars, fold, ordinal) == preferred
    decreases MAX_ID_SUFFIX + 1 - ordinal
  {
    hide NameCandidate, Folded;
    if ordinal <= MAX_ID_SUFFIX { NameFromFails(preferred, taken, maxChars, fold, ordinal + 1); }
  }

  /** With all candidates up to 999 taken or empty the label is kept. */
  lemma NoNameFree(preferred: string, taken: set<string>, maxChars: nat, fold: Fold)
    requires forall i: nat :: 1 <= i <= 999 ==>
               NameCandidate(preferred, i, maxChars) == [] || Folded(NameCandidate(preferred, i, maxChars), fold) in taken
    ensures SuffixedName(preferred, taken, maxChars, fold) == preferred
  {
    hide NameCandidate, Folded, NameFrom;
    NameFromFails(preferred, taken, maxChars, fold, 1);
  }

  /** Fewer than 998 taken: a valid id gets a free one, with the smallest free ordinal. */
  lemma FreeIdFound(preferred: string, taken: set<string>, maxChars: nat, fold: Fold)
    requires FoldOk(fold) && ValidId(preferred) && |preferred| <= maxChars && maxChars >= 5 && |taken| < MAX_ID_SUFFIX - 1
    ensures var found := SuffixedId(preferred, taken, maxChars, fold);
            && found.Some? && Folded(found.value.0, fold) !in taken && |found.value.0| <= maxChars
            && (found.value.1 == 0 <==> Folded(preferred, fold) !in taken)
            && (found.value.1 != 0 ==>
                  && 2 <= found.value.1 <= MAX_ID_SUFFIX
                  && found.value.0 == IdCandidate(preferred, found.value.1, maxChars)
                  && forall i: nat :: 2 <= i < found.value.1 ==> FoldedIdOf(preferred, maxChars, fold)(i) in taken)
  {
    hide FoldOk, IdBase, IdCandidate, IdFrom, Folded;
    if Folded(preferred, fold) in taken {
      var f := FoldedIdOf(preferred, maxChars, fold);
      forall i: nat, j: nat | 2 <= i < j <= MAX_ID_SUFFIX ensures f(i) != f(j) {
        DistinctIds(preferred, maxChars, fold, i, j);
      }
      SomeOrdinalFree(f, taken);
      var n: nat :| 2 <= n <= MAX_ID_SUFFIX && f(n) !in taken;
      IdFromFinds(preferred, taken, maxChars, fold, 2, n);
      IdBaseNotEmpty(preferred, IdFrom(preferred, taken, maxChars, fold, 2).value.1, maxChars);
    }
  }

  lemma CandidateIsValid(preferred: string, ordinal: nat)
    requires ValidId(preferred) && ordinal <= MAX_ID_SUFFIX
    ensures ValidId(IdCandidate(preferred, ordinal, MAX_ID_CHARS))
  {
    IdBaseNotEmpty(preferred, ordinal, MAX_ID_CHARS);
    DigitsAre(ordinal);
    hide Digits, IdBase;
  }

  lemma {:induction false} NameFromFinds(name: string, taken: set<string>, maxChars: nat, fold: Fold, ordinal: nat, n: nat)
    requires ordinal <= n <= MAX_ID_SUFFIX && NameFree(name, n, maxChars, taken, fold)
    ensures exists k: nat :: ordinal <= k <= n && NameFree(name, k, maxChars, taken, fold)
              && NameFrom(name, taken, maxChars, fold, ordinal) == NameCandidate(name, k, maxChars)
              && forall i: nat :: ordinal <= i < k ==> !NameFree(name, i, maxChars, taken, fold)
    decreases MAX_ID_SUFFIX + 1 - ordinal
  {
    hide NameFree, NameCandidate;
    if !NameFree(name, ordinal, maxChars, taken, fold) {
      NameFromFinds(name, taken, maxChars, fold, ordinal + 1, n);
    }
  }

  lemma SomeNameFree(name: string, taken: set<string>, maxChars: nat, fold: Fold) returns (n: nat)
    requires FoldOk(fold) && |taken| < MAX_ID_SUFFIX - 1
    ensures 2 <= n <= MAX_ID_SUFFIX && NameFree(name, n, maxChars, taken, fold)
  {
    var f := FoldedNameOf(name, maxChars, fold);
    forall i: nat, j: nat | 2 <= i < j <= MAX_ID_SUFFIX ensures f(i) != f(j) {
      DistinctNames(name, maxChars, fold, i, j);
    }
    SomeOrdinalFree(f, taken);
    n :| 2 <= n <= MAX_ID_SUFFIX && f(n) !in taken;
    hide Folded, DropTrailing, Take, Digits;
  }

  /** Fewer than 998 taken: every name gets a free one, with the smallest free ordinal. */
  lemma FreeNameFound(name: string, taken: set<string>, maxChars: nat, fold: Fold)
    requires FoldOk(fold) && |taken| < MAX_ID_SUFFIX - 1
    ensures exists k: nat :: 1 <= k <= MAX_ID_SUFFIX && NameFree(name, k, maxChars, taken, fold)
              && SuffixedName(name, taken, maxChars, fold) == NameCandidate(name, k, maxChars)
              && forall i: nat :: 1 <= i < k ==> !NameFree(name, i, maxChars, taken, fold)
  {
    var n := SomeNameFree(name, taken, maxChars, fold);
    hide NameFree, NameCandidate, NameFrom;
    NameFromFinds(name, taken, maxChars, fold, 1, n);
  }

  // ----- moving a server -----

  datatype Server = Server(id: string, display: string)

  datatype TransferError = TooManyServers | NoFreeId | LabelTooLong

  function Ids(existing: seq<Server>, fold: Fold): set<string> {
    set s | s in existing :: Folded(s.id, fold)
  }

  function Labels(existing: seq<Server>, fold: Fold): set<string> {
    set s | s in existing :: Folded(s.display, fold)
  }

  /** The names a server gets at a destination that holds the existing ones. */
  function Transfer(source: Server, existing: seq<Server>, fold: Fold): Result<Server, TransferError> {
    if |existing| >= MAX_SERVERS then Err(TooManyServers)
    else
      var id := SuffixedId(source.id, Ids(existing, fold), MAX_ID_CHARS, fold);
      if id.None? then Err(NoFreeId)
      else
        var moved := Server(id.value.0, SuffixedName(source.display, Labels(existing, fold), MAX_VALUE_BYTES, fold));
        if moved != source && Bytes(moved.display) > MAX_VALUE_BYTES then Err(LabelTooLong) else Ok(moved)
  }

  /** A level is full with 128 servers, and only then. */
  lemma TransferFullIff(source: Server, existing: seq<Server>, fold: Fold)
    ensures Transfer(source, existing, fold) == Err(TooManyServers) <==> |existing| >= 128
  {
    hide SuffixedId, SuffixedName, Bytes;
  }

  /** A server whose id and label are free at the destination keeps them. */
  lemma TransferKeepsFree(source: Server, existing: seq<Server>, fold: Fold)
    requires |existing| < 128 && 0 < |source.display| <= MAX_VALUE_BYTES
    requires forall s :: s in existing ==>
               Folded(s.id, fold) != Folded(source.id, fold) && Folded(s.display, fold) != Folded(source.display, fold)
    ensures Transfer(source, existing, fold) == Ok(source)
  {
    hide Folded, IdFrom, Bytes;
    assert Folded(source.id, fold) !in Ids(existing, fold) && Folded(source.display, fold) !in Labels(existing, fold);
    assert source.display[..|source.display|] == source.display;
    assert NameCandidate(source.display, 1, MAX_VALUE_BYTES) == source.display;
  }

  lemma {:induction false} FewIds(existing: seq<Server>, fold: Fold)
    ensures |Ids(existing, fold)| <= |existing|
  {
    hide Folded;
    if existing != [] {
      FewIds(existing[1..], fold);
      assert existing == [existing[0]] + existing[1..];
      assert Ids(existing, fold) == Ids(existing[1..], fold) + {Folded(existing[0].id, fold)};
    }
  }

  lemma {:induction false} FewLabels(existing: seq<Server>, fold: Fold)
    ensures |Labels(existing, fold)| <= |existing|
  {
    hide Folded;
    if existing != [] {
      FewLabels(existing[1..], fold);
      assert existing == [existing[0]] + existing[1..];
      assert Labels(existing, fold) == Labels(existing[1..], fold) + {Folded(existing[0].display, fold)};
    }
  }

  lemma FewNames(existing: seq<Server>, fold: Fold)
    ensures |Ids(existing, fold)| <= |existing| && |Labels(existing, fold)| <= |existing|
  {
    hide *;
    FewIds(existing, fold);
    FewLabels(existing, fold);
  }

  lemma {:induction false} LengthBytes(s: string)
    ensures |s| <= Bytes(s)
  {
    if s != [] { LengthBytes(s[1..]); }
  }

  lemma {:induction false} TakeBytes(s: string, n: nat)
    ensures Bytes(Take(s, n)) <= Bytes(s)
    ensures |s| <= Bytes(s)
  {
    if n <= |s| { BytesConcat(s[..n], s[n..]); assert s == s[..n] + s[n..]; }
    LengthBytes(s);
  }

  lemma {:induction false} AsciiBytes(s: string)
    requires forall k :: 0 <= k < |s| ==> s[k] as int < 0x80
    ensures Bytes(s) == |s|
  {
    if s != [] { AsciiBytes(s[1..]); }
  }

  /** The bytes a renamed label takes: those of its base, and of its suffix. */
  lemma NameBytes(name: string, ordinal: nat)
    requires 2 <= ordinal <= MAX_ID_SUFFIX
    ensures Bytes(NameCandidate(name, ordinal, MAX_VALUE_BYTES)) ==
            Bytes(NameBase(name, ordinal, MAX_VALUE_BYTES)) + |NameSuffix(ordinal)|
    ensures |NameSuffix(ordinal)| <= 6
  {
    DigitsAre(ordinal);
    DigitsShort(ordinal);
    hide Digits, Bytes, DropTrailing, Take;
    BytesConcat(NameBase(name, ordinal, MAX_VALUE_BYTES), NameSuffix(ordinal));
    AsciiBytes(NameSuffix(ordinal));
  }

  /** What the destination holds is never overwritten or shadowed, and nothing but the label's bytes can fail. */
  lemma TransferFindsNames(source: Server, existing: seq<Server>, fold: Fold)
    requires FoldOk(fold) && ValidId(source.id) && |existing| < MAX_SERVERS
    ensures Transfer(source, existing, fold).Err? ==> Transfer(source, existing, fold).error == LabelTooLong
    ensures Transfer(source, existing, fold).Ok? ==>
              var moved := Transfer(source, existing, fold).value;
              && ValidId(moved.id)
              && (forall s :: s in existing ==> Folded(s.id, fold) != Folded(moved.id, fold))
              && (forall s :: s in existing ==> Folded(s.display, fold) != Folded(moved.display, fold))
  {
    FewNames(existing, fold);
    FreeIdFound(source.id, Ids(existing, fold), MAX_ID_CHARS, fold);
    FreeNameFound(source.display, Labels(existing, fold), MAX_VALUE_BYTES, fold);
    var id := SuffixedId(source.id, Ids(existing, fold), MAX_ID_CHARS, fold).value;
    if id.1 != 0 { CandidateIsValid(source.id, id.1); }
    hide FoldOk, SuffixedId, SuffixedName, Folded, NameCandidate, IdCandidate, ValidId;
  }

  lemma {:induction false} NameFromIs(name: string, taken: set<string>, fold: Fold, ordinal: nat, k: nat)
    requires ordinal <= k <= MAX_ID_SUFFIX && NameFree(name, k, MAX_VALUE_BYTES, taken, fold)
    requires forall i: nat :: ordinal <= i < k ==> !NameFree(name, i, MAX_VALUE_BYTES, taken, fold)
    ensures NameFrom(name, taken, MAX_VALUE_BYTES, fold, ordinal) == NameCandidate(name, k, MAX_VALUE_BYTES)
    decreases MAX_ID_SUFFIX + 1 - ordinal
  {
    hide NameFree, NameCandidate;
    if ordinal < k { NameFromIs(name, taken, fold, ordinal + 1, k); }
  }

  /**
   * The label budget counts characters but the check counts bytes: the move of a
   * server whose label is within bounds fails exactly when the first free label
   * is a suffixed one whose base and suffix together take too many bytes.
   */
  lemma LabelFailsIff(source: Server, existing: seq<Server>, fold: Fold, k: nat)
    requires FoldOk(fold) && ValidId(source.id) && |existing| < MAX_SERVERS && Bytes(source.display) <= MAX_VALUE_BYTES
    requires 1 <= k <= MAX_ID_SUFFIX && NameFree(source.display, k, MAX_VALUE_BYTES, Labels(existing, fold), fold)
    requires forall i: nat :: 1 <= i < k ==> !NameFree(source.display, i, MAX_VALUE_BYTES, Labels(existing, fold), fold)
    ensures Transfer(source, existing, fold).Err? <==>
            k >= 2 && Bytes(NameBase(source.display, k, MAX_VALUE_BYTES)) > MAX_VALUE_BYTES - |NameSuffix(k)|
  {
    FewNames(existing, fold);
    FreeIdFound(source.id, Ids(existing, fold), MAX_ID_CHARS, fold);
    NameFromIs(source.display, Labels(existing, fold), fold, 1, k);
    TakeBytes(source.display, MAX_VALUE_BYTES);
    if k >= 2 { NameBytes(source.display, k); }
    assert k == 1 ==> NameCandidate(source.display, k, MAX_VALUE_BYTES) == source.display;
    hide FoldOk, SuffixedId, Folded, NameCandidate, NameFree, ValidId, NameBase, NameSuffix, Bytes, NameFrom;
  }

  lemma BaseBytes(name: string, ordinal: nat)
    requires 2 <= ordinal <= MAX_ID_SUFFIX
    ensures Bytes(NameBase(name, ordinal, MAX_VALUE_BYTES)) <= Bytes(name)
    ensures (forall i :: 0 <= i < |name| ==> name[i] as int < 0x80) ==>
              Bytes(NameBase(name, ordinal, MAX_VALUE_BYTES)) <= MAX_VALUE_BYTES - |NameSuffix(ordinal)|
  {
    DigitsShort(ordinal);
    var t := Take(name, SaturatingSub(MAX_VALUE_BYTES, |NameSuffix(ordinal)|));
    DropTrailingIs(t, ' ');
    var base := DropTrailing(t, ' ');
    assert base == Take(t, |base|);
    TakeBytes(t, |base|);
    TakeBytes(name, SaturatingSub(MAX_VALUE_BYTES, |NameSuffix(ordinal)|));
    hide Digits, DropTrailing, Bytes;
    if forall i :: 0 <= i < |name| ==> name[i] as int < 0x80 { AsciiBytes(base); }
  }

  /** Labels with six bytes to spare, and labels of ASCII characters alone, always move. */
  lemma LabelNeverFails(source: Server, existing: seq<Server>, fold: Fold)
    requires FoldOk(fold) && ValidId(source.id) && |existing| < MAX_SERVERS && Bytes(source.display) <= MAX_VALUE_BYTES
    requires Bytes(source.display) <= MAX_VALUE_BYTES - 6 || forall i :: 0 <= i < |source.display| ==> source.display[i] as int < 0x80
    ensures Transfer(source, existing, fold).Ok?
  {
    FewNames(existing, fold);
    FreeNameFound(source.display, Labels(existing, fold), MAX_VALUE_BYTES, fold);
    hide FoldOk, ValidId, Transfer, SuffixedName, NameCandidate, NameFree, Bytes;
    var k: nat :| 1 <= k <= MAX_ID_SUFFIX && NameFree(source.display, k, MAX_VALUE_BYTES, Labels(existing, fold), fold)
                  && forall i: nat :: 1 <= i < k ==> !NameFree(source.display, i, MAX_VALUE_BYTES, Labels(existing, fold), fold);
    LabelFailsIff(source, existing, fold, k);
    if k >= 2 {
      NameBytes(source.display, k);
      BaseBytes(source.display, k);
    }
  }

  lemma TakenLabel(name: string, taken: set<string>, fold: Fold)
    requires Folded(name, fold) in taken && |name| <= MAX_VALUE_BYTES
    ensures !NameFree(name, 1, MAX_VALUE_BYTES, taken, fold)
  {
    hide Folded;
    assert Take(name, MAX_VALUE_BYTES) == name;
  }

  lemma {:induction false} TwoByteLabel(s: string)
    requires forall i :: 0 <= i < |s| ==> s[i] == '\U{00E9}'
    ensures Bytes(s) == 2 * |s|
  {
    if s != [] { TwoByteLabel(s[1..]); }
  }

  lemma NoSpaces(name: string, ordinal: nat)
    requires 2 <= ordinal <= MAX_ID_SUFFIX && 0 < |name| <= 4000 && name[|name| - 1] != ' '
    ensures NameBase(name, ordinal, MAX_VALUE_BYTES) == name && |NameSuffix(ordinal)| > 0
  {
    DigitsShort(ordinal);
    hide Digits;
  }

  /** 2048 two-byte letters are a legal label of 4096 bytes, and leave no room for a suffix. */
  lemma LongLabelFails(text: string, fold: Fold)
    requires FoldOk(fold) && |text| == 2048 && forall i :: 0 <= i < |text| ==> text[i] == '\U{00E9}'
    ensures Bytes(text) == MAX_VALUE_BYTES
    ensures Transfer(Server("a", text), [Server("b", text)], fold) == Err(LabelTooLong)
  {
    hide FoldOk, Folded, NameFree, NameCandidate, SuffixedName, Transfer, Bytes, NameBase, NameSuffix;
    var existing := [Server("b", text)];
    var taken := Labels(existing, fold);
    FewNames(existing, fold);
    TwoByteLabel(text);
    FreeNameFound(text, taken, MAX_VALUE_BYTES, fold);
    var k: nat :| 1 <= k <= MAX_ID_SUFFIX && NameFree(text, k, MAX_VALUE_BYTES, taken, fold)
                  && forall i: nat :: 1 <= i < k ==> !NameFree(text, i, MAX_VALUE_BYTES, taken, fold);
    assert existing[0] in existing && Folded(text, fold) in taken;
    TakenLabel(text, taken, fold);
    hide Labels;
    LabelFailsIff(Server("a", text), existing, fold, k);
    NoSpaces(text, k);
    TransferFindsNames(Server("a", text), existing, fold);
  }

  // ----- the loops -----

  method PopAll(s: string, c: char) returns (base: string)
    ensures base == DropTrailing(s, c)
  {
    base := s;
    while base != [] && base[|base| - 1] == c
      invariant DropTrailing(base, c) == DropTrailing(s, c)
      decreases |base|
    {
      base := base[..|base| - 1];
    }
  }

  method ChooseId(preferred: string, taken: set<string>, maxChars: nat, fold: Fold) returns (found: Option<(string, nat)>)
    ensures found == SuffixedId(preferred, taken, maxChars, fold)
  {
    hide Folded, Digits, DropTrailing;
    if Folded(preferred, fold) !in taken { return Some((preferred, 0)); }
    for ordinal := 2 to MAX_ID_SUFFIX + 1
      invariant IdFrom(preferred, taken, maxChars, fold, ordinal) == IdFrom(preferred, taken, maxChars, fold, 2)
    {
      var suffix := IdSuffix(ordinal);
      var base := Take(preferred, SaturatingSub(maxChars, |suffix|));
      base := PopAll(base, '-');
      if base == [] { return None; }
      var candidate := base + suffix;
      if Folded(candidate, fold) !in taken { return Some((candidate, ordinal)); }
    }
    found := None;
  }

  method ChooseName(preferred: string, taken: set<string>, maxChars: nat, fold: Fold) returns (name: string)
    ensures name == SuffixedName(preferred, taken, maxChars, fold)
  {
    hide Folded, NameCandidate;
    for ordinal := 1 to MAX_ID_SUFFIX + 1
      invariant NameFrom(preferred, taken, maxChars, fold, ordinal) == NameFrom(preferred, taken, maxChars, fold, 1)
    {
      var candidate := NameCandidate(preferred, ordinal, maxChars);
      if candidate != [] && Folded(candidate, fold) !in taken { return candidate; }
    }
    name := preferred;
  }
}
