/**
 * Hunks with three lines of context, and the patch format they form
 * (crates/host-core/src/review.rs).
 */
module Hunks {
  import opened Wrappers
  import opened Diff

  const CONTEXT_LINES := 3

  datatype LineType = Context | Added | Removed

  datatype HunkLine = HunkLine(lineType: LineType, text: Line)

  /** The four numbers of the header, and the lines below it. */
  datatype Hunk = Hunk(oldStart: nat, oldLen: nat, newStart: nat, newLen: nat, lines: seq<HunkLine>)

  /** A half-open range of op indices. */
  datatype Range = Range(start: nat, end: nat)

  // ----- which ops are shown -----

  ghost predicate Changed(ops: seq<DiffOp>, k: int) {
    0 <= k < |ops| && !ops[k].Equal?
  }

  ghost predicate NearChange(ops: seq<DiffOp>, k: int) {
    exists c :: Changed(ops, c) && -CONTEXT_LINES <= k - c <= CONTEXT_LINES
  }

  ghost predicate Covered(ranges: seq<Range>, k: int) {
    exists r :: 0 <= r < |ranges| && ranges[r].start <= k < ranges[r].end
  }

  /** Ranges in order, none empty, with at least one op left out between neighbours. */
  ghost predicate Separated(ranges: seq<Range>, bound: nat) {
    && (forall r :: 0 <= r < |ranges| ==> ranges[r].start < ranges[r].end <= bound)
    && (forall r, q :: 0 <= r < q < |ranges| ==> ranges[r].end < ranges[q].start)
  }

  method ChangedIndices(ops: seq<DiffOp>) returns (changed: seq<nat>)
    ensures forall a :: 0 <= a < |changed| ==> Changed(ops, changed[a])
    ensures forall c :: Changed(ops, c) ==> c in changed
    ensures forall a, b :: 0 <= a < b < |changed| ==> changed[a] < changed[b]
  {
    changed := [];
    for k := 0 to |ops|
      invariant forall a :: 0 <= a < |changed| ==> changed[a] < k && Changed(ops, changed[a])
      invariant forall c :: 0 <= c < k && Changed(ops, c) ==> c in changed
      invariant forall a, b :: 0 <= a < b < |changed| ==> changed[a] < changed[b]
    {
      if !ops[k].Equal? {
        changed := changed + [k];
      }
    }
  }

  /** The op indices within three of one of the first n changes. */
  ghost predicate NearFirst(changed: seq<nat>, n: nat, k: int)
    requires n <= |changed|
  {
    exists a :: 0 <= a < n && -CONTEXT_LINES <= k - changed[a] <= CONTEXT_LINES
  }

  function StartOf(index: nat): nat {
    if index >= CONTEXT_LINES then index - CONTEXT_LINES else 0
  }

  function EndOf(index: nat, bound: nat): nat {
    if index + CONTEXT_LINES + 1 < bound then index + CONTEXT_LINES + 1 else bound
  }

  /** Widening the last range, or opening a new one, adds just [start, end). */
  lemma CoverageStep(changed: seq<nat>, n: nat, bound: nat, was: seq<Range>, now: seq<Range>, start: nat, end: nat)
    requires n < |changed| && changed[n] < bound
    requires start == StartOf(changed[n]) && end == EndOf(changed[n], bound)
    requires forall k :: 0 <= k < bound ==> (Covered(was, k) <==> NearFirst(changed, n, k))
    requires if was != [] && start <= was[|was| - 1].end
             then was[|was| - 1].start <= start && was[|was| - 1].end <= end &&
                  now == was[|was| - 1 := Range(was[|was| - 1].start, end)]
             else now == was + [Range(start, end)]
    ensures forall k :: 0 <= k < bound ==> (Covered(now, k) <==> NearFirst(changed, n + 1, k))
  {
    forall k | 0 <= k < bound ensures Covered(now, k) <==> NearFirst(changed, n + 1, k) {
      assert NearFirst(changed, n + 1, k) <==> NearFirst(changed, n, k) || start <= k < end;
      var last := |now| - 1;
      assert Covered(now, k) <==> Covered(now[..last], k) || now[last].start <= k < now[last].end;
      if |now| == |was| {
        assert Covered(was, k) <==> Covered(was[..last], k) || was[last].start <= k < was[last].end;
        assert now[..last] == was[..last];
      } else {
        assert now[..last] == was;
      }
    }
  }

  method MergeRanges(ops: seq<DiffOp>, changed: seq<nat>) returns (ranges: seq<Range>)
    requires forall a :: 0 <= a < |changed| ==> changed[a] < |ops|
    requires forall a, b :: 0 <= a < b < |changed| ==> changed[a] < changed[b]
    ensures Separated(ranges, |ops|)
    ensures forall k :: 0 <= k < |ops| ==> (Covered(ranges, k) <==> NearFirst(changed, |changed|, k))
  {
    ranges := [];
    for n := 0 to |changed|
      invariant Separated(ranges, |ops|)
      invariant forall k :: 0 <= k < |ops| ==> (Covered(ranges, k) <==> NearFirst(changed, n, k))
      invariant n == 0 <==> ranges == []
      invariant n > 0 ==> ranges[|ranges| - 1].end == EndOf(changed[n - 1], |ops|)
      invariant n > 0 ==> ranges[|ranges| - 1].start <= StartOf(changed[n - 1])
    {
      var index := changed[n];
      var start := StartOf(index);
      var end := EndOf(index, |ops|);
      ghost var was := ranges;
      if ranges != [] && start <= ranges[|ranges| - 1].end {
        var last := ranges[|ranges| - 1];
        ranges := ranges[|ranges| - 1 := Range(last.start, if last.end > end then last.end else end)];
      } else {
        ranges := ranges + [Range(start, end)];
      }
      CoverageStep(changed, n, |ops|, was, ranges, start, end);
    }
  }

  // ----- hunks -----

  function LineOf(op: DiffOp): HunkLine {
    match op
    case Equal(text) => HunkLine(Context, text)
    case Add(text) => HunkLine(Added, text)
    case Del(text) => HunkLine(Removed, text)
  }

  function OpOf(line: HunkLine): DiffOp {
    match line.lineType
    case Context => Equal(line.text)
    case Added => Add(line.text)
    case Removed => Del(line.text)
  }

  function LinesOf(ops: seq<DiffOp>): seq<HunkLine> {
    if ops == [] then [] else [LineOf(ops[0])] + LinesOf(ops[1..])
  }

  /** What a reader of hunk lines recovers. */
  function OpsOf(lines: seq<HunkLine>): seq<DiffOp> {
    if lines == [] then [] else [OpOf(lines[0])] + OpsOf(lines[1..])
  }

  function HunkAt(ops: seq<DiffOp>, range: Range): Hunk
    requires range.start <= range.end <= |ops|
  {
    var shown := ops[range.start..range.end];
    Hunk(|OldSide(ops[..range.start])| + 1, |OldSide(shown)|,
         |NewSide(ops[..range.start])| + 1, |NewSide(shown)|,
         LinesOf(shown))
  }

  function HunksAt(ops: seq<DiffOp>, ranges: seq<Range>): seq<Hunk>
    requires forall r :: 0 <= r < |ranges| ==> ranges[r].start <= ranges[r].end <= |ops|
  {
    if ranges == [] then [] else [HunkAt(ops, ranges[0])] + HunksAt(ops, ranges[1..])
  }

  lemma {:induction false} HunksAtAppend(ops: seq<DiffOp>, ranges: seq<Range>, last: Range)
    requires forall r :: 0 <= r < |ranges| ==> ranges[r].start <= ranges[r].end <= |ops|
    requires last.start <= last.end <= |ops|
    ensures HunksAt(ops, ranges + [last]) == HunksAt(ops, ranges) + [HunkAt(ops, last)]
  {
    if ranges != [] {
      assert (ranges + [last])[1..] == ranges[1..] + [last];
      HunksAtAppend(ops, ranges[1..], last);
    }
  }

  lemma {:induction false} LinesOfAppend(ops: seq<DiffOp>, op: DiffOp)
    ensures LinesOf(ops + [op]) == LinesOf(ops) + [LineOf(op)]
  {
    if ops != [] {
      assert (ops + [op])[1..] == ops[1..] + [op];
      LinesOfAppend(ops[1..], op);
    }
  }

  /** Ranges that show exactly the ops within three of a change, in order, with a gap between them. */
  ghost predicate Shows(ops: seq<DiffOp>, ranges: seq<Range>) {
    && Separated(ranges, |ops|)
    && (forall k :: 0 <= k < |ops| ==> (Covered(ranges, k) <==> NearChange(ops, k)))
  }

  ghost predicate IsHunking(ops: seq<DiffOp>, hunks: seq<Hunk>) {
    exists ranges :: Shows(ops, ranges) && hunks == HunksAt(ops, ranges)
  }

  method CountSides(ops: seq<DiffOp>) returns (oldLines: nat, newLines: nat)
    ensures oldLines == |OldSide(ops)| && newLines == |NewSide(ops)|
  {
    oldLines, newLines := 0, 0;
    for k := 0 to |ops|
      invariant oldLines == |OldSide(ops[..k])| && newLines == |NewSide(ops[..k])|
    {
      assert ops[..k + 1] == ops[..k] + [ops[k]];
      OldSideConcat(ops[..k], [ops[k]]);
      NewSideConcat(ops[..k], [ops[k]]);
      oldLines := oldLines + if ops[k].Add? then 0 else 1;
      newLines := newLines + if ops[k].Del? then 0 else 1;
    }
    assert ops[..|ops|] == ops;
  }

  method ShowLines(ops: seq<DiffOp>) returns (lines: seq<HunkLine>)
    ensures lines == LinesOf(ops)
  {
    lines := [];
    for k := 0 to |ops|
      invariant lines == LinesOf(ops[..k])
    {
      LinesOfAppend(ops[..k], ops[k]);
      assert ops[..k + 1] == ops[..k] + [ops[k]];
      lines := lines + [LineOf(ops[k])];
    }
    assert ops[..|ops|] == ops;
  }

  method MakeHunks(ops: seq<DiffOp>) returns (hunks: seq<Hunk>)
    ensures IsHunking(ops, hunks)
  {
    var changed := ChangedIndices(ops);
    if changed == [] {
      assert Shows(ops, []);
      return [];
    }
    var merged := MergeRanges(ops, changed);
    hunks := [];
    for r := 0 to |merged|
      invariant hunks == HunksAt(ops, merged[..r])
    {
      var start, end := merged[r].start, merged[r].end;
      var oldBefore, newBefore := CountSides(ops[..start]);
      var oldLen, newLen := CountSides(ops[start..end]);
      var lines := ShowLines(ops[start..end]);
      hunks := hunks + [Hunk(oldBefore + 1, oldLen, newBefore + 1, newLen, lines)];
      HunksAtAppend(ops, merged[..r], merged[r]);
      assert merged[..r + 1] == merged[..r] + [merged[r]];
    }
    assert merged[..|merged|] == merged;
    forall k | 0 <= k < |ops| ensures Covered(merged, k) <==> NearChange(ops, k) {
      if NearChange(ops, k) {
        var c :| Changed(ops, c) && -CONTEXT_LINES <= k - c <= CONTEXT_LINES;
        assert c in changed;
      }
    }
    assert Shows(ops, merged);
  }

  lemma FirstCovered(ranges: seq<Range>, bound: nat)
    requires Separated(ranges, bound) && ranges != []
    ensures ranges[0].start < bound && Covered(ranges, ranges[0].start)
  {}

  lemma SameEnd(a: seq<Range>, b: seq<Range>, bound: nat)
    requires Separated(a, bound) && Separated(b, bound) && a != [] && b != []
    requires a[0].start == b[0].start
    requires forall k :: 0 <= k < bound ==> (Covered(a, k) <==> Covered(b, k))
    ensures a[0].end <= b[0].end
  {
    if b[0].end < a[0].end {
      assert Covered(a, b[0].end);
      assert false;
    }
  }

  lemma CoveredTail(a: seq<Range>, bound: nat, k: nat)
    requires Separated(a, bound) && a != []
    ensures Covered(a[1..], k) <==> Covered(a, k) && k >= a[0].end
  {
    if Covered(a[1..], k) {
      var r :| 0 <= r < |a[1..]| && a[1..][r].start <= k < a[1..][r].end;
      assert a[r + 1].start <= k < a[r + 1].end;
    }
    if Covered(a, k) && k >= a[0].end {
      var r :| 0 <= r < |a| && a[r].start <= k < a[r].end;
      assert a[1..][r - 1] == a[r];
    }
  }

  /** The ranges are determined by the script: two lists that show the same ops are equal. */
  lemma {:induction false} RangesUnique(a: seq<Range>, b: seq<Range>, bound: nat)
    requires Separated(a, bound) && Separated(b, bound)
    requires forall k :: 0 <= k < bound ==> (Covered(a, k) <==> Covered(b, k))
    ensures a == b
  {
    if a == [] {
      if b != [] { FirstCovered(b, bound); }
    } else {
      assert Covered(a, a[0].start) && Covered(b, a[0].start);
      assert Covered(b, b[0].start) && Covered(a, b[0].start);
      assert a[0].start == b[0].start;
      SameEnd(a, b, bound);
      SameEnd(b, a, bound);
      forall k | 0 <= k < bound ensures Covered(a[1..], k) <==> Covered(b[1..], k) {
        CoveredTail(a, bound, k);
        CoveredTail(b, bound, k);
      }
      RangesUnique(a[1..], b[1..], bound);
    }
  }

  // ----- applying a patch -----

  /**
   * A strict patch tool: every hunk must sit at the old position its header
   * names, after the previous one, and its context and removed lines must be
   * there. Lines between hunks are copied.
   */
  function ApplyFrom(lines: seq<Line>, cursor: nat, hunks: seq<Hunk>): Option<seq<Line>>
    requires cursor <= |lines|
    decreases |hunks|
  {
    if hunks == [] then Some(lines[cursor..])
    else
      var h := hunks[0];
      var start := h.oldStart - 1;
      if start < cursor || start + h.oldLen > |lines| ||
         lines[start..start + h.oldLen] != OldSide(OpsOf(h.lines)) ||
         |NewSide(OpsOf(h.lines))| != h.newLen then None
      else
        match ApplyFrom(lines, start + h.oldLen, hunks[1..])
        case None => None
        case Some(rest) => Some(lines[cursor..start] + NewSide(OpsOf(h.lines)) + rest)
  }

  function Apply(lines: seq<Line>, hunks: seq<Hunk>): Option<seq<Line>> {
    ApplyFrom(lines, 0, hunks)
  }

  function FlipOp(op: DiffOp): DiffOp {
    match op
    case Equal(text) => Equal(text)
    case Add(text) => Del(text)
    case Del(text) => Add(text)
  }

  function Flip(ops: seq<DiffOp>): seq<DiffOp> {
    if ops == [] then [] else [FlipOp(ops[0])] + Flip(ops[1..])
  }

  /** A hunk read from its new side: positions swapped, additions and removals swapped. */
  function FlipHunk(h: Hunk): Hunk {
    Hunk(h.newStart, h.newLen, h.oldStart, h.oldLen, LinesOf(Flip(OpsOf(h.lines))))
  }

  function FlipHunks(hunks: seq<Hunk>): seq<Hunk> {
    if hunks == [] then [] else [FlipHunk(hunks[0])] + FlipHunks(hunks[1..])
  }

  /** Undo a patch: apply it backwards at its new-side positions. */
  function Unapply(lines: seq<Line>, hunks: seq<Hunk>): Option<seq<Line>> {
    Apply(lines, FlipHunks(hunks))
  }

  lemma {:induction false} OpsOfLines(ops: seq<DiffOp>)
    ensures OpsOf(LinesOf(ops)) == ops
  {
    if ops != [] { OpsOfLines(ops[1..]); }
  }

  lemma {:induction false} EqualSides(ops: seq<DiffOp>)
    requires forall k :: 0 <= k < |ops| ==> ops[k].Equal?
    ensures OldSide(ops) == NewSide(ops)
    ensures Additions(ops) == 0 && Deletions(ops) == 0
  {
    if ops != [] { EqualSides(ops[1..]); }
  }

  /** Ops outside every range carry the same line on both sides. */
  ghost predicate CoversChanges(ops: seq<DiffOp>, ranges: seq<Range>, from: nat) {
    forall k :: from <= k < |ops| && !ops[k].Equal? ==> Covered(ranges, k)
  }

  lemma SidesSplit(ops: seq<DiffOp>, k: nat)
    requires k <= |ops|
    ensures OldSide(ops) == OldSide(ops[..k]) + OldSide(ops[k..])
    ensures NewSide(ops) == NewSide(ops[..k]) + NewSide(ops[k..])
  {
    assert ops == ops[..k] + ops[k..];
    OldSideConcat(ops[..k], ops[k..]);
    NewSideConcat(ops[..k], ops[k..]);
  }

  lemma CountsSplit(ops: seq<DiffOp>, k: nat)
    requires k <= |ops|
    ensures Additions(ops) == Additions(ops[..k]) + Additions(ops[k..])
    ensures Deletions(ops) == Deletions(ops[..k]) + Deletions(ops[k..])
  {
    assert ops == ops[..k] + ops[k..];
    CountsConcat(ops[..k], ops[k..]);
  }

  /** The old lines of ops[a..b] sit between the old lines before a and before b. */
  lemma OldSlice(ops: seq<DiffOp>, a: nat, b: nat)
    requires a <= b <= |ops|
    ensures |OldSide(ops[..a])| <= |OldSide(ops[..b])| <= |OldSide(ops)|
    ensures OldSide(ops)[|OldSide(ops[..a])|..|OldSide(ops[..b])|] == OldSide(ops[a..b])
  {
    SidesSplit(ops, b);
    SidesSplit(ops[..b], a);
    assert ops[..b][..a] == ops[..a] && ops[..b][a..] == ops[a..b];
  }

  /** The part between two ranges and the range itself, cut off the front of what remains. */
  lemma RestSplit(ops: seq<DiffOp>, p: nat, s: nat, e: nat)
    requires p <= s <= e <= |ops|
    ensures NewSide(ops[p..]) == NewSide(ops[p..s]) + NewSide(ops[s..e]) + NewSide(ops[e..])
  {
    SidesSplit(ops[p..], e - p);
    SidesSplit(ops[p..e], s - p);
    assert ops[p..][..e - p] == ops[p..e] && ops[p..][e - p..] == ops[e..];
    assert ops[p..e][..s - p] == ops[p..s] && ops[p..e][s - p..] == ops[s..e];
  }

  lemma RestCounts(ops: seq<DiffOp>, p: nat, s: nat, e: nat)
    requires p <= s <= e <= |ops|
    ensures Additions(ops[p..]) == Additions(ops[p..s]) + Additions(ops[s..e]) + Additions(ops[e..])
    ensures Deletions(ops[p..]) == Deletions(ops[p..s]) + Deletions(ops[s..e]) + Deletions(ops[e..])
  {
    CountsSplit(ops[p..], e - p);
    CountsSplit(ops[p..e], s - p);
    assert ops[p..][..e - p] == ops[p..e] && ops[p..][e - p..] == ops[e..];
    assert ops[p..e][..s - p] == ops[p..s] && ops[p..e][s - p..] == ops[s..e];
  }

  /** Whatever lies before the first remaining range changes nothing. */
  lemma GapIsEqual(ops: seq<DiffOp>, p: nat, ranges: seq<Range>)
    requires p <= |ops| && Separated(ranges, |ops|) && CoversChanges(ops, ranges, p)
    requires ranges != [] ==> p <= ranges[0].start
    ensures var s := if ranges == [] then |ops| else ranges[0].start;
            && OldSide(ops[p..s]) == NewSide(ops[p..s])
            && Additions(ops[p..s]) == 0 && Deletions(ops[p..s]) == 0
    ensures ranges != [] ==> CoversChanges(ops, ranges[1..], ranges[0].end)
  {
    var gap := ops[p..if ranges == [] then |ops| else ranges[0].start];
    forall k | 0 <= k < |gap| ensures gap[k].Equal? {
      assert !Covered(ranges, p + k);
    }
    EqualSides(gap);
    if ranges != [] {
      forall k | ranges[0].end <= k < |ops| && !ops[k].Equal? ensures Covered(ranges[1..], k) {
        CoveredTail(ranges, |ops|, k);
      }
    }
  }

  /** The header and the lines of a hunk agree with the old side. */
  ghost predicate Fits(lines: seq<Line>, h: Hunk) {
    && 1 <= h.oldStart && h.oldStart - 1 + h.oldLen <= |lines|
    && lines[h.oldStart - 1..h.oldStart - 1 + h.oldLen] == OldSide(OpsOf(h.lines))
    && |NewSide(OpsOf(h.lines))| == h.newLen
  }

  lemma HunkFits(ops: seq<DiffOp>, range: Range)
    requires range.start <= range.end <= |ops|
    ensures var h := HunkAt(ops, range);
            && Fits(OldSide(ops), h)
            && h.oldStart - 1 + h.oldLen == |OldSide(ops[..range.end])|
            && NewSide(OpsOf(h.lines)) == NewSide(ops[range.start..range.end])
  {
    OldSlice(ops, range.start, range.end);
    OpsOfLines(ops[range.start..range.end]);
  }

  lemma ApplyHunk(lines: seq<Line>, cursor: nat, h: Hunk, later: seq<Hunk>, rest: seq<Line>)
    requires Fits(lines, h) && cursor <= h.oldStart - 1
    requires ApplyFrom(lines, h.oldStart - 1 + h.oldLen, later) == Some(rest)
    ensures ApplyFrom(lines, cursor, [h] + later) ==
              Some(lines[cursor..h.oldStart - 1] + NewSide(OpsOf(h.lines)) + rest)
  {
    assert ([h] + later)[1..] == later;
  }

  /** Applying one hunk copies the gap before it and writes the shown new lines. */
  lemma ApplyOne(ops: seq<DiffOp>, p: nat, range: Range, later: seq<Hunk>, rest: seq<Line>)
    requires p <= range.start <= range.end <= |ops|
    requires |OldSide(ops[..range.end])| <= |OldSide(ops)|
    requires ApplyFrom(OldSide(ops), |OldSide(ops[..range.end])|, later) == Some(rest)
    ensures |OldSide(ops[..p])| <= |OldSide(ops)|
    ensures ApplyFrom(OldSide(ops), |OldSide(ops[..p])|, [HunkAt(ops, range)] + later) ==
              Some(OldSide(ops[p..range.start]) + NewSide(ops[range.start..range.end]) + rest)
  {
    OldSlice(ops, p, range.start);
    HunkFits(ops, range);
    ApplyHunk(OldSide(ops), |OldSide(ops[..p])|, HunkAt(ops, range), later, rest);
  }

  /** From the end of one range, the remaining hunks rewrite the remaining lines. */
  lemma {:induction false} ApplyRest(ops: seq<DiffOp>, p: nat, ranges: seq<Range>)
    requires p <= |ops| && Separated(ranges, |ops|) && CoversChanges(ops, ranges, p)
    requires ranges != [] ==> p <= ranges[0].start
    ensures |OldSide(ops[..p])| <= |OldSide(ops)|
    ensures ApplyFrom(OldSide(ops), |OldSide(ops[..p])|, HunksAt(ops, ranges)) == Some(NewSide(ops[p..]))
    decreases |ranges|
  {
    GapIsEqual(ops, p, ranges);
    if ranges == [] {
      SidesSplit(ops, p);
      assert ops[p..|ops|] == ops[p..];
    } else {
      ApplyRest(ops, ranges[0].end, ranges[1..]);
      ApplyOne(ops, p, ranges[0], HunksAt(ops, ranges[1..]), NewSide(ops[ranges[0].end..]));
      RestSplit(ops, p, ranges[0].start, ranges[0].end);
    }
  }

  lemma {:induction false} FlipSides(ops: seq<DiffOp>)
    ensures OldSide(Flip(ops)) == NewSide(ops) && NewSide(Flip(ops)) == OldSide(ops)
  {
    if ops != [] { FlipSides(ops[1..]); }
  }

  lemma {:induction false} FlipConcat(a: seq<DiffOp>, b: seq<DiffOp>)
    ensures Flip(a + b) == Flip(a) + Flip(b)
    ensures |Flip(a)| == |a|
  {
    if a == [] {
      assert a + b == b;
    } else {
      assert (a + b)[1..] == a[1..] + b;
      FlipConcat(a[1..], b);
    }
  }

  lemma FlipSlice(ops: seq<DiffOp>, s: nat, e: nat)
    requires s <= e <= |ops|
    ensures |Flip(ops)| == |ops|
    ensures Flip(ops)[..s] == Flip(ops[..s]) && Flip(ops)[s..e] == Flip(ops[s..e])
  {
    assert ops == ops[..e] + ops[e..] && ops[..e] == ops[..s] + ops[s..e];
    FlipConcat(ops[..e], ops[e..]);
    FlipConcat(ops[..s], ops[s..e]);
  }

  lemma FlipHunkAt(ops: seq<DiffOp>, range: Range)
    requires range.start <= range.end <= |ops|
    ensures |Flip(ops)| == |ops|
    ensures FlipHunk(HunkAt(ops, range)) == HunkAt(Flip(ops), range)
  {
    FlipSlice(ops, range.start, range.end);
    FlipSides(ops[..range.start]);
    FlipSides(ops[range.start..range.end]);
    OpsOfLines(ops[range.start..range.end]);
  }

  lemma {:induction false} FlipHunksAt(ops: seq<DiffOp>, ranges: seq<Range>)
    requires forall r :: 0 <= r < |ranges| ==> ranges[r].start <= ranges[r].end <= |ops|
    ensures |Flip(ops)| == |ops|
    ensures FlipHunks(HunksAt(ops, ranges)) == HunksAt(Flip(ops), ranges)
  {
    FlipConcat(ops, []);
    if ranges != [] {
      FlipHunkAt(ops, ranges[0]);
      FlipHunksAt(ops, ranges[1..]);
    }
  }

  lemma {:induction false} FlipCovers(ops: seq<DiffOp>, k: nat)
    requires k < |ops|
    ensures |Flip(ops)| == |ops| && Flip(ops)[k] == FlipOp(ops[k])
  {
    if k == 0 { FlipConcat(ops, []); } else { FlipCovers(ops[1..], k - 1); }
  }

  lemma ShowsCoversChanges(ops: seq<DiffOp>, ranges: seq<Range>)
    requires Shows(ops, ranges)
    ensures CoversChanges(ops, ranges, 0)
  {
    forall k | 0 <= k < |ops| && !ops[k].Equal? ensures Covered(ranges, k) {
      assert Changed(ops, k);
      assert NearChange(ops, k);
    }
  }

  lemma UnapplyAll(ops: seq<DiffOp>, ranges: seq<Range>)
    requires Separated(ranges, |ops|) && CoversChanges(ops, ranges, 0)
    ensures Unapply(NewSide(ops), HunksAt(ops, ranges)) == Some(OldSide(ops))
  {
    var flipped := Flip(ops);
    FlipHunksAt(ops, ranges);
    forall k | 0 <= k < |flipped| && !flipped[k].Equal? ensures Covered(ranges, k) {
      FlipCovers(ops, k);
    }
    assert flipped[..0] == [] && flipped[0..] == flipped;
    ApplyRest(flipped, 0, ranges);
    FlipSides(ops);
  }

  /** The hunks of any script are a patch from its old side to its new side, and back. */
  lemma PatchRoundTrip(ops: seq<DiffOp>, hunks: seq<Hunk>)
    requires IsHunking(ops, hunks)
    ensures Apply(OldSide(ops), hunks) == Some(NewSide(ops))
    ensures Unapply(NewSide(ops), hunks) == Some(OldSide(ops))
  {
    var ranges :| Shows(ops, ranges) && hunks == HunksAt(ops, ranges);
    ShowsCoversChanges(ops, ranges);
    assert ops[..0] == [] && ops[0..] == ops;
    ApplyRest(ops, 0, ranges);
    UnapplyAll(ops, ranges);
  }

  /** diff_ops and make_hunks together: the shown hunks turn before into after, and after into before. */
  lemma DiffPatches(before: seq<Line>, after: seq<Line>, hunks: seq<Hunk>)
    requires IsHunking(Walk(before, after, 0, 0), hunks)
    ensures Apply(before, hunks) == Some(after)
    ensures Unapply(after, hunks) == Some(before)
  {
    DiffIsMinimal(before, after);
    PatchRoundTrip(Walk(before, after, 0, 0), hunks);
  }

  /** Nothing is left to choice: a script has one hunking. */
  lemma HunkingUnique(ops: seq<DiffOp>, a: seq<Hunk>, b: seq<Hunk>)
    requires IsHunking(ops, a) && IsHunking(ops, b)
    ensures a == b
  {
    var p :| Shows(ops, p) && a == HunksAt(ops, p);
    var q :| Shows(ops, q) && b == HunksAt(ops, q);
    RangesUnique(p, q, |ops|);
  }

  // ----- the totals -----

  function AddedIn(lines: seq<HunkLine>): nat {
    if lines == [] then 0 else (if lines[0].lineType.Added? then 1 else 0) + AddedIn(lines[1..])
  }

  function RemovedIn(lines: seq<HunkLine>): nat {
    if lines == [] then 0 else (if lines[0].lineType.Removed? then 1 else 0) + RemovedIn(lines[1..])
  }

  function AddedInAll(hunks: seq<Hunk>): nat {
    if hunks == [] then 0 else AddedIn(hunks[0].lines) + AddedInAll(hunks[1..])
  }

  function RemovedInAll(hunks: seq<Hunk>): nat {
    if hunks == [] then 0 else RemovedIn(hunks[0].lines) + RemovedInAll(hunks[1..])
  }

  lemma {:induction false} LineTotals(ops: seq<DiffOp>)
    ensures AddedIn(LinesOf(ops)) == Additions(ops) && RemovedIn(LinesOf(ops)) == Deletions(ops)
  {
    if ops != [] { LineTotals(ops[1..]); }
  }

  lemma {:induction false} HunkTotalsFrom(ops: seq<DiffOp>, p: nat, ranges: seq<Range>)
    requires p <= |ops| && Separated(ranges, |ops|) && CoversChanges(ops, ranges, p)
    requires ranges != [] ==> p <= ranges[0].start
    ensures AddedInAll(HunksAt(ops, ranges)) == Additions(ops[p..])
    ensures RemovedInAll(HunksAt(ops, ranges)) == Deletions(ops[p..])
    decreases |ranges|
  {
    GapIsEqual(ops, p, ranges);
    if ranges == [] {
      assert ops[p..|ops|] == ops[p..];
    } else {
      var s, e := ranges[0].start, ranges[0].end;
      RestCounts(ops, p, s, e);
      HunkTotalsFrom(ops, e, ranges[1..]);
      LineTotals(ops[s..e]);
    }
  }

  /** The add and del lines of all hunks together are the totals of line_counts. */
  lemma HunkTotals(ops: seq<DiffOp>, hunks: seq<Hunk>)
    requires IsHunking(ops, hunks)
    ensures AddedInAll(hunks) == Additions(ops) && RemovedInAll(hunks) == Deletions(ops)
  {
    var ranges :| Shows(ops, ranges) && hunks == HunksAt(ops, ranges);
    ShowsCoversChanges(ops, ranges);
    assert ops[0..] == ops;
    HunkTotalsFrom(ops, 0, ranges);
  }
}
