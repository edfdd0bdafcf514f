/**
 * The line diff behind review snapshots: an LCS table filled from the end and a
 * greedy walk over it (crates/host-core/src/review.rs).
 */
module Diff {
  import opened Wrappers

  type Line = string

  /** The cells of the table are Rust u32 values; overflow must be ruled out. */
  newtype u32 = x: int | 0 <= x < 0x1_0000_0000

  const MAX_DIFF_CELLS := 2_000_000

  datatype DiffOp = Equal(text: Line) | Add(text: Line) | Del(text: Line)

  // ----- what a script means -----

  /** The lines an edit script consumes: its Equal and Del lines. */
  function OldSide(ops: seq<DiffOp>): seq<Line> {
    if ops == [] then []
    else if ops[0].Add? then OldSide(ops[1..])
    else [ops[0].text] + OldSide(ops[1..])
  }

  /** The lines an edit script produces: its Equal and Add lines. */
  function NewSide(ops: seq<DiffOp>): seq<Line> {
    if ops == [] then []
    else if ops[0].Del? then NewSide(ops[1..])
    else [ops[0].text] + NewSide(ops[1..])
  }

  predicate IsScript(ops: seq<DiffOp>, before: seq<Line>, after: seq<Line>) {
    OldSide(ops) == before && NewSide(ops) == after
  }

  function Kept(ops: seq<DiffOp>): seq<Line> {
    if ops == [] then []
    else if ops[0].Equal? then [ops[0].text] + Kept(ops[1..])
    else Kept(ops[1..])
  }

  function Additions(ops: seq<DiffOp>): nat {
    if ops == [] then 0 else (if ops[0].Add? then 1 else 0) + Additions(ops[1..])
  }

  function Deletions(ops: seq<DiffOp>): nat {
    if ops == [] then 0 else (if ops[0].Del? then 1 else 0) + Deletions(ops[1..])
  }

  lemma {:induction false} OldSideConcat(a: seq<DiffOp>, b: seq<DiffOp>)
    ensures OldSide(a + b) == OldSide(a) + OldSide(b)
  {
    if a == [] {
      assert a + b == b;
    } else {
      assert (a + b)[1..] == a[1..] + b;
      OldSideConcat(a[1..], b);
    }
  }

  lemma {:induction false} NewSideConcat(a: seq<DiffOp>, b: seq<DiffOp>)
    ensures NewSide(a + b) == NewSide(a) + NewSide(b)
  {
    if a == [] {
      assert a + b == b;
    } else {
      assert (a + b)[1..] == a[1..] + b;
      NewSideConcat(a[1..], b);
    }
  }

  lemma {:induction false} CountsConcat(a: seq<DiffOp>, b: seq<DiffOp>)
    ensures Additions(a + b) == Additions(a) + Additions(b)
    ensures Deletions(a + b) == Deletions(a) + Deletions(b)
  {
    if a == [] {
      assert a + b == b;
    } else {
      assert (a + b)[1..] == a[1..] + b;
      CountsConcat(a[1..], b);
    }
  }

  // ----- longest common subsequences -----

  /** s can be read off t from left to right, skipping lines of t. */
  ghost predicate IsSubseq(s: seq<Line>, t: seq<Line>) {
    s == [] ||
    (t != [] && ((s[0] == t[0] && IsSubseq(s[1..], t[1..])) || IsSubseq(s, t[1..])))
  }

  ghost predicate IsCommon(s: seq<Line>, before: seq<Line>, after: seq<Line>) {
    IsSubseq(s, before) && IsSubseq(s, after)
  }

  /** Cell (i, j) of the table: the best common length of the two suffixes. */
  function Lcs(before: seq<Line>, after: seq<Line>, i: nat, j: nat): (n: nat)
    requires i <= |before| && j <= |after|
    ensures n <= |before| - i && n <= |after| - j
    decreases |before| - i + |after| - j
  {
    if i == |before| || j == |after| then 0
    else if before[i] == after[j] then Lcs(before, after, i + 1, j + 1) + 1
    else
      var skipOld, skipNew := Lcs(before, after, i + 1, j), Lcs(before, after, i, j + 1);
      if skipOld >= skipNew then skipOld else skipNew
  }

  lemma {:induction false} SubseqTail(s: seq<Line>, t: seq<Line>)
    requires s != [] && IsSubseq(s, t)
    ensures t != [] && IsSubseq(s[1..], t[1..])
  {
    if IsSubseq(s, t[1..]) {
      SubseqTail(s, t[1..]);
    }
  }

  lemma SubseqCons(s: seq<Line>, x: Line, t: seq<Line>)
    requires IsSubseq(s, t)
    ensures IsSubseq(s, [x] + t) && IsSubseq([x] + s, [x] + t)
  {
    assert ([x] + t)[1..] == t && ([x] + s)[1..] == s;
  }

  /** No common subsequence of the suffixes is longer than the table's cell. */
  lemma {:induction false} LcsBounds(before: seq<Line>, after: seq<Line>, i: nat, j: nat, s: seq<Line>)
    requires i <= |before| && j <= |after|
    requires IsCommon(s, before[i..], after[j..])
    ensures |s| <= Lcs(before, after, i, j)
    decreases |before| - i + |after| - j
  {
    if s != [] {
      assert before[i..][1..] == before[i + 1..] && after[j..][1..] == after[j + 1..];
      if before[i] == after[j] {
        SubseqTail(s, before[i..]);
        SubseqTail(s, after[j..]);
        LcsBounds(before, after, i + 1, j + 1, s[1..]);
      } else if s[0] != before[i] {
        LcsBounds(before, after, i + 1, j, s);
      } else {
        LcsBounds(before, after, i, j + 1, s);
      }
    }
  }

  lemma {:induction false} KeptIsCommon(ops: seq<DiffOp>)
    ensures IsCommon(Kept(ops), OldSide(ops), NewSide(ops))
    ensures Deletions(ops) == |OldSide(ops)| - |Kept(ops)|
    ensures Additions(ops) == |NewSide(ops)| - |Kept(ops)|
  {
    if ops != [] {
      var rest := ops[1..];
      KeptIsCommon(rest);
      SubseqCons(Kept(rest), ops[0].text, OldSide(rest));
      SubseqCons(Kept(rest), ops[0].text, NewSide(rest));
    }
  }

  // ----- the greedy walk -----

  /** The rest of the walk from cursor (i, j). */
  function Walk(before: seq<Line>, after: seq<Line>, i: nat, j: nat): seq<DiffOp>
    requires i <= |before| && j <= |after|
    decreases |before| - i + |after| - j
  {
    if i == |before| && j == |after| then []
    else if i < |before| && j < |after| && before[i] == after[j] then
      [Equal(before[i])] + Walk(before, after, i + 1, j + 1)
    else if j == |after| ||
            (i < |before| && Lcs(before, after, i + 1, j) >= Lcs(before, after, i, j + 1)) then
      [Del(before[i])] + Walk(before, after, i + 1, j)
    else
      [Add(after[j])] + Walk(before, after, i, j + 1)
  }

  lemma {:induction false} WalkIsScript(before: seq<Line>, after: seq<Line>, i: nat, j: nat)
    requires i <= |before| && j <= |after|
    ensures IsScript(Walk(before, after, i, j), before[i..], after[j..])
    ensures |Kept(Walk(before, after, i, j))| == Lcs(before, after, i, j)
    decreases |before| - i + |after| - j
  {
    var ops := Walk(before, after, i, j);
    if i < |before| || j < |after| {
      if ops[0].Equal? {
        WalkIsScript(before, after, i + 1, j + 1);
      } else if ops[0].Del? {
        WalkIsScript(before, after, i + 1, j);
      } else {
        WalkIsScript(before, after, i, j + 1);
      }
    }
  }

  /**
   * The script is right and as short as possible: its kept lines are a longest
   * common subsequence, and no other script adds and deletes fewer lines.
   */
  lemma {:induction false} DiffIsMinimal(before: seq<Line>, after: seq<Line>)
    ensures var ops := Walk(before, after, 0, 0);
            && IsScript(ops, before, after)
            && IsCommon(Kept(ops), before, after)
            && (forall s :: IsCommon(s, before, after) ==> |s| <= |Kept(ops)|)
            && (forall other :: IsScript(other, before, after) ==>
                  Additions(ops) + Deletions(ops) <= Additions(other) + Deletions(other))
  {
    var ops := Walk(before, after, 0, 0);
    WalkIsScript(before, after, 0, 0);
    assert before[0..] == before && after[0..] == after;
    KeptIsCommon(ops);
    forall s | IsCommon(s, before, after) ensures |s| <= |Kept(ops)| {
      LcsBounds(before, after, 0, 0, s);
    }
    forall other | IsScript(other, before, after)
      ensures Additions(ops) + Deletions(ops) <= Additions(other) + Deletions(other)
    {
      KeptIsCommon(other);
    }
  }

  /**
   * Ties go to deletion: whenever the walk adds a line while old lines remain,
   * deleting the next old line first would have cost a common line.
   */
  lemma {:induction false} AddOnlyWhenDeletingLoses(before: seq<Line>, after: seq<Line>, i: nat, j: nat)
    requires i < |before| && j <= |after|
    requires Walk(before, after, i, j)[0].Add?
    ensures j < |after|
    ensures exists s :: IsCommon(s, before[i..], after[j..]) &&
              forall t :: IsCommon(t, before[i + 1..], after[j..]) ==> |t| < |s|
  {
    WalkIsScript(before, after, i, j);
    KeptIsCommon(Walk(before, after, i, j));
    var s := Kept(Walk(before, after, i, j));
    assert IsCommon(s, before[i..], after[j..]);
    forall t | IsCommon(t, before[i + 1..], after[j..]) ensures |t| < |s| {
      LcsBounds(before, after, i + 1, j, t);
    }
  }

  // ----- the implementation -----

  method FillTable(before: seq<Line>, after: seq<Line>) returns (lcs: array2<u32>)
    requires |before| < MAX_DIFF_CELLS
    ensures fresh(lcs)
    ensures lcs.Length0 == |before| + 1 && lcs.Length1 == |after| + 1
    ensures forall i, j {:trigger lcs[i, j]} :: 0 <= i <= |before| && 0 <= j <= |after| ==>
              lcs[i, j] as int == Lcs(before, after, i, j)
  {
    var n, m := |before|, |after|;
    lcs := new u32[n + 1, m + 1]((_, _) => 0);
    var oldAt := n;
    while oldAt > 0
      invariant 0 <= oldAt <= n
      invariant forall i, j {:trigger lcs[i, j]} :: oldAt <= i <= n && 0 <= j <= m ==>
                  lcs[i, j] as int == Lcs(before, after, i, j)
      invariant forall i {:trigger lcs[i, m]} :: 0 <= i < oldAt ==> lcs[i, m] == 0
    {
      oldAt := oldAt - 1;
      var newAt := m;
      while newAt > 0
        invariant 0 <= newAt <= m
        invariant forall i, j {:trigger lcs[i, j]} ::
                    oldAt <= i <= n && 0 <= j <= m && (i == oldAt ==> newAt <= j) ==>
                    lcs[i, j] as int == Lcs(before, after, i, j)
        invariant forall i {:trigger lcs[i, m]} :: 0 <= i < oldAt ==> lcs[i, m] == 0
      {
        newAt := newAt - 1;
        lcs[oldAt, newAt] :=
          if before[oldAt] == after[newAt] then
            lcs[oldAt + 1, newAt + 1] + 1
          else if lcs[oldAt + 1, newAt] >= lcs[oldAt, newAt + 1] then
            lcs[oldAt + 1, newAt]
          else
            lcs[oldAt, newAt + 1];
      }
    }
  }

  /** One more op at the end of the output is one less in the walk still to do. */
  lemma WalkStep(before: seq<Line>, after: seq<Line>, i: nat, j: nat, ops: seq<DiffOp>)
    requires i <= |before| && j <= |after| && (i < |before| || j < |after|)
    ensures var op := Walk(before, after, i, j)[0];
            ops + Walk(before, after, i, j) ==
            ops + [op] + Walk(before, after, if op.Add? then i else i + 1, if op.Del? then j else j + 1)
  {}

  method WalkTable(before: seq<Line>, after: seq<Line>, lcs: array2<u32>) returns (ops: seq<DiffOp>)
    requires lcs.Length0 == |before| + 1 && lcs.Length1 == |after| + 1
    requires forall i, j {:trigger lcs[i, j]} :: 0 <= i <= |before| && 0 <= j <= |after| ==>
               lcs[i, j] as int == Lcs(before, after, i, j)
    ensures ops == Walk(before, after, 0, 0)
  {
    var oldAt, newAt := 0, 0;
    ops := [];
    while oldAt < |before| || newAt < |after|
      invariant 0 <= oldAt <= |before| && 0 <= newAt <= |after|
      invariant ops + Walk(before, after, oldAt, newAt) == Walk(before, after, 0, 0)
      decreases |before| - oldAt + |after| - newAt
    {
      WalkStep(before, after, oldAt, newAt, ops);
      if oldAt < |before| && newAt < |after| && before[oldAt] == after[newAt] {
        ops := ops + [Equal(before[oldAt])];
        oldAt, newAt := oldAt + 1, newAt + 1;
      } else if newAt == |after| ||
                (oldAt < |before| && lcs[oldAt + 1, newAt] >= lcs[oldAt, newAt + 1]) {
        ops := ops + [Del(before[oldAt])];
        oldAt := oldAt + 1;
      } else {
        ops := ops + [Add(after[newAt])];
        newAt := newAt + 1;
      }
    }
  }

  /** No script at all above the cell cap; otherwise the walk over the table. */
  method DiffOps(before: seq<Line>, after: seq<Line>) returns (r: Option<seq<DiffOp>>)
    ensures r.None? <==> (|before| + 1) * (|after| + 1) > MAX_DIFF_CELLS
    ensures r.Some? ==> r.value == Walk(before, after, 0, 0)
  {
    if (|before| + 1) * (|after| + 1) > MAX_DIFF_CELLS {
      return None;
    }
    assert |before| < MAX_DIFF_CELLS by {
      assert (|before| + 1) * 1 <= (|before| + 1) * (|after| + 1);
    }
    var lcs := FillTable(before, after);
    var ops := WalkTable(before, after, lcs);
    return Some(ops);
  }

  /** The two totals shown beside a change. */
  method LineCounts(ops: seq<DiffOp>) returns (additions: nat, deletions: nat)
    ensures additions == Additions(ops) && deletions == Deletions(ops)
    ensures |NewSide(ops)| - |OldSide(ops)| == additions - deletions
  {
    additions, deletions := 0, 0;
    for k := 0 to |ops|
      invariant additions == Additions(ops[..k]) && deletions == Deletions(ops[..k])
    {
      CountsConcat(ops[..k], [ops[k]]);
      assert ops[..k + 1] == ops[..k] + [ops[k]];
      match ops[k] {
        case Add(_) => additions := additions + 1;
        case Del(_) => deletions := deletions + 1;
        case Equal(_) =>
      }
    }
    assert ops[..|ops|] == ops;
    KeptIsCommon(ops);
  }
}
