/**
 * Search snippets: the match of a lowercased query mapped back to the original
 * text, the sentence around it, and a window of bounded length
 * (crates/host-core/src/session_search.rs). Lowercasing one character may give
 * several; it is a parameter here.
 */
module SearchExcerpt {
  import opened Wrappers
  import opened Naturals
  import opened Folding
  import opened Whitespace

  const ELLIPSIS: char := '\U{2026}'

  /** What lowercasing is assumed to do: never to vanish, and to keep white space apart from the rest. */
  ghost predicate FoldOk(fold: Fold) {
    forall c: char ::
      && fold(c) != []
      && (IsWhitespace(c) ==> fold(c) == [c])
      && (!IsWhitespace(c) ==> forall k :: 0 <= k < |fold(c)| ==> !IsWhitespace(fold(c)[k]))
  }

  function TrimStart(s: string): string {
    if s != [] && IsWhitespace(s[0]) then TrimStart(s[1..]) else s
  }

  function TrimEnd(s: string): string {
    if s != [] && IsWhitespace(s[|s| - 1]) then TrimEnd(s[..|s| - 1]) else s
  }

  function Trim(s: string): string {
    TrimEnd(TrimStart(s))
  }

  function Needle(query: string, fold: Fold): string {
    Folded(Trim(query), fold)
  }

  // ----- finding -----

  predicate OccursAt(hay: string, needle: string, k: nat) {
    k + |needle| <= |hay| && hay[k..k + |needle|] == needle
  }

  ghost predicate Contains(hay: string, needle: string) {
    exists k: nat :: OccursAt(hay, needle, k)
  }

  /** str::find: the first occurrence from k on. */
  function FindFrom(hay: string, needle: string, k: nat): (found: Option<nat>)
    ensures found.Some? ==> OccursAt(hay, needle, found.value) && forall j: nat :: k <= j < found.value ==> !OccursAt(hay, needle, j)
    ensures found.None? ==> forall j: nat :: k <= j ==> !OccursAt(hay, needle, j)
    decreases |hay| - k
  {
    if k + |needle| > |hay| then None
    else if OccursAt(hay, needle, k) then Some(k)
    else FindFrom(hay, needle, k + 1)
  }

  lemma OccursShift(front: string, mid: string, back: string, needle: string, j: nat)
    requires OccursAt(mid, needle, j)
    ensures OccursAt(front + mid + back, needle, |front| + j)
  {
    assert (front + mid + back)[|front| + j..|front| + j + |needle|] == mid[j..j + |needle|];
  }

  lemma ContainsInside(front: string, hay: string, back: string, needle: string)
    requires Contains(hay, needle)
    ensures Contains(front + hay + back, needle)
  {
    hide OccursAt;
    var k: nat :| OccursAt(hay, needle, k);
    OccursShift(front, hay, back, needle, k);
  }

  lemma FirstOccurrence(hay: string, needle: string, k: nat)
    requires OccursAt(hay, needle, k) && forall j: nat :: j < k ==> !OccursAt(hay, needle, j)
    ensures FindFrom(hay, needle, 0) == Some(k)
  {
    hide OccursAt, FindFrom;
  }

  // ----- offsets -----

  /** Where the fold of character i starts. */
  function Offset(s: string, fold: Fold, i: nat): nat
    requires i <= |s|
  {
    |Folded(s[..i], fold)|
  }

  /** The character whose fold holds place k of the folded text. */
  function IndexAt(s: string, fold: Fold, k: nat): nat {
    if s == [] || k < |fold(s[0])| then 0 else 1 + IndexAt(s[1..], fold, k - |fold(s[0])|)
  }

  lemma OffsetNext(s: string, fold: Fold, i: nat)
    requires i < |s|
    ensures Offset(s, fold, i + 1) == Offset(s, fold, i) + |fold(s[i])|
    ensures Folded(s[..i + 1], fold) == Folded(s[..i], fold) + fold(s[i])
  {
    assert s[..i + 1] == s[..i] + [s[i]];
    FoldedConcat(s[..i], [s[i]], fold);
    assert [s[i]][1..] == [];
  }

  lemma OffsetCons(s: string, fold: Fold, i: nat)
    requires 0 < i <= |s|
    ensures Offset(s, fold, i) == |fold(s[0])| + Offset(s[1..], fold, i - 1)
  {
    assert s[..i][1..] == s[1..][..i - 1];
  }

  lemma {:induction false} IndexAtIs(s: string, fold: Fold, k: nat)
    requires k < |Folded(s, fold)|
    ensures var i := IndexAt(s, fold, k); i < |s| && Offset(s, fold, i) <= k < Offset(s, fold, i + 1)
  {
    if k >= |fold(s[0])| {
      IndexAtIs(s[1..], fold, k - |fold(s[0])|);
      var i := IndexAt(s, fold, k);
      OffsetCons(s, fold, i);
      OffsetCons(s, fold, i + 1);
    } else {
      OffsetNext(s, fold, 0);
    }
  }

  lemma {:induction false} OffsetMonotone(s: string, fold: Fold, i: nat, j: nat)
    requires i <= j <= |s|
    ensures Offset(s, fold, i) <= Offset(s, fold, j)
    ensures FoldOk(fold) ==> Offset(s, fold, i) + (j - i) <= Offset(s, fold, j)
    decreases j - i
  {
    if i < j {
      hide Offset;
      OffsetMonotone(s, fold, i, j - 1);
      OffsetNext(s, fold, j - 1);
    }
  }

  // ----- the match -----

  /** The characters that hold the first occurrence of the needle. */
  function RangeOf(text: string, query: string, fold: Fold): Option<(nat, nat)> {
    var needle := Needle(query, fold);
    if needle == [] then None
    else
      var hit := FindFrom(Folded(text, fold), needle, 0);
      if hit.None? then None
      else Some((IndexAt(text, fold, hit.value), IndexAt(text, fold, hit.value + |needle| - 1) + 1))
  }

  /** The folds of characters p to e hold the needle; the outer two are needed for it. */
  ghost predicate Covers(text: string, fold: Fold, needle: string, p: nat, e: nat, hit: nat) {
    && p < e <= |text| && needle != [] && OccursAt(Folded(text, fold), needle, hit)
    && Offset(text, fold, p) <= hit < Offset(text, fold, p + 1)
    && Offset(text, fold, e - 1) < hit + |needle| <= Offset(text, fold, e)
  }

  lemma RangeCovers(text: string, query: string, fold: Fold) returns (hit: nat)
    requires RangeOf(text, query, fold).Some?
    ensures var (p, e) := RangeOf(text, query, fold).value; Covers(text, fold, Needle(query, fold), p, e, hit)
    ensures forall j: nat :: j < hit ==> !OccursAt(Folded(text, fold), Needle(query, fold), j)
  {
    var needle, folded := Needle(query, fold), Folded(text, fold);
    hit := FindFrom(folded, needle, 0).value;
    hide Needle, FindFrom, Folded;
    IndexAtIs(text, fold, hit);
    IndexAtIs(text, fold, hit + |needle| - 1);
    var (p, e) := RangeOf(text, query, fold).value;
    if e <= p { OffsetMonotone(text, fold, e, p); }
  }

  /** Nothing is found exactly when there is nothing to find. */
  lemma RangeNoneIff(text: string, query: string, fold: Fold)
    ensures RangeOf(text, query, fold).None? <==>
            Needle(query, fold) == [] || !Contains(Folded(text, fold), Needle(query, fold))
  {
    hide Folded, Needle;
    if RangeOf(text, query, fold).None? {
      assert forall j: nat :: Needle(query, fold) != [] ==> !OccursAt(Folded(text, fold), Needle(query, fold), j);
    }
  }

  lemma FoldedSplit(text: string, fold: Fold, p: nat, e: nat)
    requires p <= e <= |text|
    ensures Folded(text, fold) == Folded(text[..p], fold) + Folded(text[p..e], fold) + Folded(text[e..], fold)
    ensures |Folded(text[p..e], fold)| == Offset(text, fold, e) - Offset(text, fold, p)
  {
    assert text == text[..p] + text[p..e] + text[e..];
    assert text[..e] == text[..p] + text[p..e];
    FoldedConcat(text[..p], text[p..e], fold);
    FoldedConcat(text[..e], text[e..], fold);
  }

  lemma OccursInMiddle(front: string, mid: string, back: string, needle: string, hit: nat)
    requires OccursAt(front + mid + back, needle, hit) && |front| <= hit && hit + |needle| <= |front| + |mid|
    ensures OccursAt(mid, needle, hit - |front|)
  {
    var all := front + mid + back;
    forall j | 0 <= j < |needle| ensures mid[hit - |front| + j] == needle[j] {
      assert all[hit + j] == mid[hit - |front| + j];
      assert all[hit..hit + |needle|][j] == needle[j];
    }
    assert mid[hit - |front|..hit - |front| + |needle|] == needle;
  }

  lemma CoveredContains(text: string, fold: Fold, needle: string, p: nat, e: nat, hit: nat)
    requires Covers(text, fold, needle, p, e, hit)
    ensures Contains(Folded(text[p..e], fold), needle)
  {
    hide Folded, OccursAt;
    FoldedSplit(text, fold, p, e);
    OccursInMiddle(Folded(text[..p], fold), Folded(text[p..e], fold), Folded(text[e..], fold), needle, hit);
  }

  /** Each character folds to one at least, so no more are matched than the needle has. */
  lemma MatchedLength(text: string, fold: Fold, needle: string, p: nat, e: nat, hit: nat)
    requires FoldOk(fold) && Covers(text, fold, needle, p, e, hit)
    ensures e - p <= |needle|
  {
    hide FoldOk, Offset;
    if p + 1 <= e - 1 { OffsetMonotone(text, fold, p + 1, e - 1); }
  }

  // ----- white space -----

  lemma {:induction false} TrimStartIs(s: string) returns (n: nat)
    ensures n <= |s| && TrimStart(s) == s[n..] && (forall k :: 0 <= k < n ==> IsWhitespace(s[k]))
    ensures n < |s| ==> !IsWhitespace(s[n])
  {
    hide IsWhitespace;
    if s != [] && IsWhitespace(s[0]) {
      n := TrimStartIs(s[1..]);
      n := n + 1;
    } else {
      n := 0;
    }
  }

  lemma {:induction false} TrimEndIs(s: string) returns (n: nat)
    ensures n <= |s| && TrimEnd(s) == s[..n] && (forall k :: n <= k < |s| ==> IsWhitespace(s[k]))
    ensures n > 0 ==> !IsWhitespace(s[n - 1])
  {
    hide IsWhitespace;
    if s != [] && IsWhitespace(s[|s| - 1]) {
      n := TrimEndIs(s[..|s| - 1]);
    } else {
      n := |s|;
    }
  }

  lemma TrimIs(s: string) returns (a: nat, b: nat)
    ensures a <= b <= |s| && Trim(s) == s[a..b]
    ensures forall k :: 0 <= k < |s| && !(a <= k < b) ==> IsWhitespace(s[k])
    ensures a < b ==> !IsWhitespace(s[a]) && !IsWhitespace(s[b - 1])
  {
    hide IsWhitespace;
    a := TrimStartIs(s);
    var rest := s[a..];
    var n := TrimEndIs(rest);
    b := a + n;
    forall k | 0 <= k < |s| && !(a <= k < b) ensures IsWhitespace(s[k]) {
      if k >= b { assert rest[k - a] == s[k]; }
    }
    if a < b { assert rest[n - 1] == s[b - 1]; }
  }

  lemma FoldFacts(fold: Fold, c: char)
    requires FoldOk(fold)
    ensures fold(c) != []
    ensures IsWhitespace(c) ==> fold(c) == [c]
    ensures !IsWhitespace(c) ==> forall k :: 0 <= k < |fold(c)| ==> !IsWhitespace(fold(c)[k])
  {}

  /** A needle begins and ends with something visible. */
  lemma NeedleEnds(query: string, fold: Fold)
    requires FoldOk(fold)
    ensures var needle := Needle(query, fold); needle != [] ==> !IsWhitespace(needle[0]) && !IsWhitespace(needle[|needle| - 1])
  {
    var a, b := TrimIs(query);
    hide IsWhitespace, Trim;
    if a < b {
      var t := Trim(query);
      FoldFacts(fold, t[0]);
      FoldFacts(fold, t[|t| - 1]);
      var front := t[..|t| - 1];
      assert t == front + [t[|t| - 1]];
      FoldedConcat(front, [t[|t| - 1]], fold);
      assert [t[|t| - 1]][1..] == [];
    }
  }

  lemma FoldedAt(text: string, fold: Fold, i: nat, k: nat)
    requires i < |text| && Offset(text, fold, i) <= k < Offset(text, fold, i + 1)
    ensures k < |Folded(text, fold)| && k - Offset(text, fold, i) < |fold(text[i])|
    ensures Folded(text, fold)[k] == fold(text[i])[k - Offset(text, fold, i)]
  {
    OffsetNext(text, fold, i);
    assert text == text[..i + 1] + text[i + 1..];
    FoldedConcat(text[..i + 1], text[i + 1..], fold);
  }

  lemma VisibleFold(fold: Fold, c: char, k: nat)
    requires FoldOk(fold) && k < |fold(c)| && !IsWhitespace(fold(c)[k])
    ensures !IsWhitespace(c)
  {
    FoldFacts(fold, c);
  }

  /** The two ends of a match are visible, so trimming cannot cut into it. */
  lemma MatchEndsVisible(text: string, fold: Fold, query: string, p: nat, e: nat, hit: nat)
    requires FoldOk(fold) && Covers(text, fold, Needle(query, fold), p, e, hit)
    ensures !IsWhitespace(text[p]) && !IsWhitespace(text[e - 1])
  {
    hide IsWhitespace, Folded, Offset, FoldOk;
    var needle, folded := Needle(query, fold), Folded(text, fold);
    NeedleEnds(query, fold);
    var last := hit + |needle| - 1;
    assert folded[hit] == folded[hit..hit + |needle|][0] == needle[0];
    assert folded[last] == folded[hit..hit + |needle|][|needle| - 1] == needle[|needle| - 1];
    OffsetNext(text, fold, p);
    OffsetNext(text, fold, e - 1);
    FoldedAt(text, fold, p, hit);
    FoldedAt(text, fold, e - 1, last);
    VisibleFold(fold, text[p], hit - Offset(text, fold, p));
    VisibleFold(fold, text[e - 1], last - Offset(text, fold, e - 1));
  }

  // ----- the window -----

  /** skip and take. */
  function Window(text: string, start: nat, end: nat): string {
    if start <= end <= |text| then text[start..end] else []
  }

  function Excerpt(text: string, query: string, budget: nat, fold: Fold): string {
    var range := RangeOf(text, query, fold);
    var (position, matchEnd) := if range.Some? then range.value else (0, 0);
    var start := SaturatingSub(position, budget / 3);
    var end := Min(Max(start + budget, matchEnd), |text|);
    (if start > 0 then [ELLIPSIS] else []) + Window(text, start, end) + (if end < |text| then [ELLIPSIS] else [])
  }

  /** How many characters of the text are matched. */
  function Matched(text: string, query: string, fold: Fold): nat
    requires RangeOf(text, query, fold).Some?
  {
    SaturatingSub(RangeOf(text, query, fold).value.1, RangeOf(text, query, fold).value.0)
  }

  lemma RangeBounds(text: string, query: string, fold: Fold)
    requires RangeOf(text, query, fold).Some?
    ensures RangeOf(text, query, fold).value.0 < RangeOf(text, query, fold).value.1 <= |text|
  {
    var hit := RangeCovers(text, query, fold);
  }

  lemma ExcerptLength(text: string, query: string, budget: nat, fold: Fold)
    requires RangeOf(text, query, fold).Some?
    ensures |Excerpt(text, query, budget, fold)| <= Max(budget, Matched(text, query, fold) + budget / 3) + 2
  {
    RangeBounds(text, query, fold);
    hide RangeOf;
  }

  /** The window of an excerpt holds the whole match. */
  lemma ExcerptIs(text: string, query: string, budget: nat, fold: Fold) returns (start: nat, end: nat, front: string, back: string)
    requires RangeOf(text, query, fold).Some?
    requires RangeOf(text, query, fold).value.0 < RangeOf(text, query, fold).value.1 <= |text|
    ensures start <= RangeOf(text, query, fold).value.0 && RangeOf(text, query, fold).value.1 <= end <= |text|
    ensures Excerpt(text, query, budget, fold) == front + text[start..end] + back
  {
    hide RangeOf;
    var (p, e) := RangeOf(text, query, fold).value;
    start := SaturatingSub(p, budget / 3);
    end := Min(Max(start + budget, e), |text|);
    front := if start > 0 then [ELLIPSIS] else [];
    back := if end < |text| then [ELLIPSIS] else [];
  }

  lemma SliceOfSlice(text: string, start: nat, end: nat, p: nat, e: nat)
    requires start <= p <= e <= end <= |text|
    ensures text[start..end][p - start..e - start] == text[p..e]
  {
    var a, b := text[start..end][p - start..e - start], text[p..e];
    forall k | 0 <= k < e - p ensures a[k] == b[k] {
      assert text[start..end][p - start + k] == text[p + k];
    }
    assert |a| == |b|;
  }

  lemma WindowContains(text: string, fold: Fold, needle: string, p: nat, e: nat, start: nat, end: nat)
    requires start <= p <= e <= end <= |text| && Contains(Folded(text[p..e], fold), needle)
    ensures Contains(Folded(text[start..end], fold), needle)
  {
    hide Contains, Folded;
    var t := text[start..end];
    SliceOfSlice(text, start, end, p, e);
    FoldedSplit(t, fold, p - start, e - start);
    ContainsInside(Folded(t[..p - start], fold), Folded(text[p..e], fold), Folded(t[e - start..], fold), needle);
  }

  /** An excerpt of a text that matches still matches. */
  lemma ExcerptKeepsMatch(text: string, query: string, budget: nat, fold: Fold)
    requires RangeOf(text, query, fold).Some?
    ensures Contains(Folded(Excerpt(text, query, budget, fold), fold), Needle(query, fold))
  {
    hide *;
    var (p, e) := RangeOf(text, query, fold).value;
    var hit := RangeCovers(text, query, fold);
    var needle := Needle(query, fold);
    RangeBounds(text, query, fold);
    CoveredContains(text, fold, needle, p, e, hit);
    var start, end, front, back := ExcerptIs(text, query, budget, fold);
    WindowContains(text, fold, needle, p, e, start, end);
    FoldedConcat(front + text[start..end], back, fold);
    FoldedConcat(front, text[start..end], fold);
    ContainsInside(Folded(front, fold), Folded(text[start..end], fold), Folded(back, fold), needle);
  }

  // ----- the sentence -----

  predicate IsClosing(c: char) {
    c in {'"', '\'', '\U{201D}', '\U{2019}', '\U{300D}', '\U{300F}', ')', '\U{FF09}'}
  }

  predicate IsNewline(c: char) {
    c in {'\n', '\r', '\U{2028}', '\U{2029}'}
  }

  predicate IsStop(c: char) {
    c in {'\U{3002}', '\U{FF01}', '\U{FF1F}', '!', '?'}
  }

  /** A full stop ends a sentence only before white space, a closing mark, or the end. */
  predicate IsBoundary(chars: string, i: nat)
    requires i < |chars|
  {
    || IsNewline(chars[i]) || IsStop(chars[i])
    || (chars[i] == '.' && (i + 1 >= |chars| || IsWhitespace(chars[i + 1]) || IsClosing(chars[i + 1])))
  }

  predicate IsTail(c: char) {
    IsClosing(c) || c == '.' || IsStop(c)
  }

  function SkipTail(chars: string, i: nat): (n: nat)
    requires i <= |chars|
    ensures i <= n <= |chars|
    decreases |chars| - i
  {
    if i < |chars| && IsTail(chars[i]) then SkipTail(chars, i + 1) else i
  }

  /** Where the sentence that has a boundary at i is over. */
  function AfterBoundary(chars: string, i: nat): (n: nat)
    requires i < |chars|
    ensures i < n <= |chars|
  {
    if IsNewline(chars[i]) then i + 1 else SkipTail(chars, i + 1)
  }

  /** The ends of sentences from index i on. */
  function Breaks(chars: string, i: nat): (breaks: seq<nat>)
    requires i <= |chars|
    ensures forall k :: 0 <= k < |breaks| ==> i < breaks[k] <= |chars|
    ensures forall j, k :: 0 <= j < k < |breaks| ==> breaks[j] < breaks[k]
    decreases |chars| - i
  {
    if i == |chars| then []
    else if IsBoundary(chars, i) then [AfterBoundary(chars, i)] + Breaks(chars, AfterBoundary(chars, i))
    else Breaks(chars, i + 1)
  }

  /** The last break that is not after the position. */
  function StartOf(breaks: seq<nat>, position: nat, start: nat): nat {
    if breaks == [] || breaks[0] > position then start else StartOf(breaks[1..], position, breaks[0])
  }

  /** The first break that is not inside the match. */
  function EndOf(breaks: seq<nat>, matchEnd: nat, end: nat): nat {
    if breaks == [] then end else if breaks[0] >= matchEnd then breaks[0] else EndOf(breaks[1..], matchEnd, end)
  }

  function Sentence(text: string, position: nat, matchEnd: nat): string {
    Window(text, StartOf(Breaks(text, 0), position, 0), EndOf(Breaks(text, 0), matchEnd, |text|))
  }

  function SentenceExcerpt(text: string, query: string, budget: nat, fold: Fold): string {
    var range := RangeOf(text, query, fold);
    if range.None? then Excerpt(text, query, budget, fold)
    else
      var sentence := Trim(Sentence(text, range.value.0, range.value.1));
      if |sentence| <= budget then sentence else Excerpt(sentence, query, budget, fold)
  }

  /** The start is the latest break before the match, if there is one. */
  lemma {:induction false} StartIsLatest(breaks: seq<nat>, position: nat, start: nat)
    requires start <= position && forall j, k :: 0 <= j < k < |breaks| ==> breaks[j] < breaks[k]
    requires forall k :: 0 <= k < |breaks| ==> start < breaks[k]
    ensures var s := StartOf(breaks, position, start);
            && start <= s <= position && (s == start || s in breaks)
            && forall k :: 0 <= k < |breaks| ==> breaks[k] <= s || breaks[k] > position
  {
    if breaks != [] && breaks[0] <= position {
      assert forall k :: 0 <= k < |breaks[1..]| ==> breaks[1..][k] == breaks[k + 1];
      StartIsLatest(breaks[1..], position, breaks[0]);
    }
  }

  /** The end is the first break after the match, or the end of the text. */
  lemma {:induction false} EndIsFirst(breaks: seq<nat>, matchEnd: nat, end: nat)
    requires matchEnd <= end && forall k :: 0 <= k < |breaks| ==> breaks[k] <= end
    requires forall j, k :: 0 <= j < k < |breaks| ==> breaks[j] < breaks[k]
    ensures var e := EndOf(breaks, matchEnd, end);
            && matchEnd <= e <= end && (e == end || e in breaks)
            && forall k :: 0 <= k < |breaks| ==> breaks[k] < matchEnd || breaks[k] >= e
  {
    if breaks != [] && breaks[0] < matchEnd {
      assert forall k :: 0 <= k < |breaks[1..]| ==> breaks[1..][k] == breaks[k + 1];
      EndIsFirst(breaks[1..], matchEnd, end);
    }
  }

  lemma SentenceIs(text: string, p: nat, e: nat)
    requires p < e <= |text|
    ensures var start, end := StartOf(Breaks(text, 0), p, 0), EndOf(Breaks(text, 0), e, |text|);
            start <= p && e <= end <= |text| && Sentence(text, p, e) == text[start..end]
  {
    StartIsLatest(Breaks(text, 0), p, 0);
    EndIsFirst(Breaks(text, 0), e, |text|);
    hide Breaks, StartOf, EndOf;
  }

  /** Trimming stops at anything visible. */
  lemma TrimAround(t: string, p: nat, e: nat) returns (a: nat, b: nat)
    requires p < e <= |t| && !IsWhitespace(t[p]) && !IsWhitespace(t[e - 1])
    ensures a <= p && e <= b <= |t| && Trim(t) == t[a..b]
  {
    hide *;
    a, b := TrimIs(t);
  }

  lemma SliceEnds(text: string, from: nat, to: nat, p: nat, e: nat)
    requires from <= p < e <= to <= |text|
    ensures text[from..to][p - from] == text[p] && text[from..to][e - 1 - from] == text[e - 1]
  {}

  /** The sentence is a piece of the text around the whole match, trimmed or not. */
  lemma TrimmedSentenceIs(text: string, query: string, fold: Fold) returns (start: nat, end: nat)
    requires FoldOk(fold) && RangeOf(text, query, fold).Some?
    ensures var (p, e) := RangeOf(text, query, fold).value;
            && start <= p < e <= end <= |text| && Trim(Sentence(text, p, e)) == text[start..end]
  {
    hide *;
    var (p, e) := RangeOf(text, query, fold).value;
    var hit := RangeCovers(text, query, fold);
    RangeBounds(text, query, fold);
    MatchEndsVisible(text, fold, query, p, e, hit);
    SentenceIs(text, p, e);
    var from, to := StartOf(Breaks(text, 0), p, 0), EndOf(Breaks(text, 0), e, |text|);
    SliceEnds(text, from, to, p, e);
    var a, b := TrimAround(text[from..to], p - from, e - from);
    start, end := from + a, from + b;
    SliceOfSlice(text, from, to, start, end);
  }

  const NEWLINES := {'\n', '\r', '\U{2028}', '\U{2029}'}
  const STOPS := {'!', '?', '\U{3002}', '\U{FF01}', '\U{FF1F}'}
  const CLOSING_MARKS := {'"', '\'', ')', '\U{FF09}', '\U{201D}', '\U{2019}', '\U{300D}', '\U{300F}'}

  /** A stop, or a full stop before white space, a closing mark, or the end. */
  predicate IsStopAt(chars: string, i: nat)
    requires i < |chars|
  {
    || chars[i] in STOPS
    || (chars[i] == '.' && (i == |chars| - 1 || IsWhitespace(chars[i + 1]) || chars[i + 1] in CLOSING_MARKS))
  }

  /** The stop at i is followed by nothing but stops and closing marks up to b. */
  ghost predicate StopsAt(chars: string, from: nat, i: nat, b: nat) {
    && from <= i < b <= |chars| && IsStopAt(chars, i)
    && forall k :: i < k < b ==> chars[k] in STOPS + CLOSING_MARKS + {'.'}
  }

  /**
   * A sentence ends at b, told without the scan: after a newline, or after a
   * stop and all the stops and closing marks that follow it.
   */
  ghost predicate EndsAt(chars: string, from: nat, b: nat) {
    && from < b <= |chars|
    && (chars[b - 1] in NEWLINES ||
        ((b == |chars| || chars[b] !in STOPS + CLOSING_MARKS + {'.'}) && exists i: nat :: StopsAt(chars, from, i, b)))
  }

  lemma CharsAre(c: char)
    ensures IsNewline(c) <==> c in NEWLINES
    ensures IsTail(c) <==> c in STOPS + CLOSING_MARKS + {'.'}
    ensures IsStop(c) <==> c in STOPS
    ensures IsClosing(c) <==> c in CLOSING_MARKS
    ensures IsNewline(c) ==> !IsTail(c)
  {}

  lemma BoundaryIs(chars: string, i: nat)
    requires i < |chars|
    ensures IsBoundary(chars, i) <==> IsNewline(chars[i]) || IsStopAt(chars, i)
    ensures IsNewline(chars[i]) ==> !IsStopAt(chars, i)
  {
    CharsAre(chars[i]);
    if i + 1 < |chars| { CharsAre(chars[i + 1]); }
    hide IsClosing, IsWhitespace, IsStop, IsNewline;
  }

  lemma {:induction false} SkipTailIs(chars: string, i: nat)
    requires i <= |chars|
    ensures var n := SkipTail(chars, i);
            i <= n <= |chars| && (forall k :: i <= k < n ==> IsTail(chars[k])) && (n < |chars| ==> !IsTail(chars[n]))
    decreases |chars| - i
  {
    hide IsTail;
    if i < |chars| && IsTail(chars[i]) { SkipTailIs(chars, i + 1); }
  }

  /** What ends a sentence at b does so from another place too, if the stops before b are the same. */
  lemma SameEnds(chars: string, from: nat, to: nat, b: nat)
    requires from < b && to < b
    requires forall i: nat :: StopsAt(chars, from, i, b) ==> StopsAt(chars, to, i, b)
    ensures EndsAt(chars, from, b) ==> EndsAt(chars, to, b)
  {
    hide StopsAt;
    if EndsAt(chars, from, b) && chars[b - 1] !in NEWLINES {
      var i: nat :| StopsAt(chars, from, i, b);
      assert StopsAt(chars, to, i, b);
    }
  }

  lemma StopsLater(chars: string, i: nat, b: nat, j: nat)
    requires i < |chars| && !IsStopAt(chars, i)
    ensures StopsAt(chars, i, j, b) <==> StopsAt(chars, i + 1, j, b)
  {
    hide IsStopAt;
  }

  lemma EndsLater(chars: string, i: nat, b: nat)
    requires i < |chars| && !IsStopAt(chars, i) && b != i + 1
    ensures EndsAt(chars, i, b) <==> EndsAt(chars, i + 1, b)
  {
    hide IsStopAt, StopsAt;
    if b > i + 1 {
      forall j: nat ensures StopsAt(chars, i, j, b) <==> StopsAt(chars, i + 1, j, b) { StopsLater(chars, i, b, j); }
      SameEnds(chars, i, i + 1, b);
      SameEnds(chars, i + 1, i, b);
    }
  }

  lemma EndsHere(chars: string, i: nat)
    requires i < |chars|
    ensures EndsAt(chars, i, i + 1) ==> chars[i] in NEWLINES || IsStopAt(chars, i)
    ensures chars[i] in NEWLINES ==> EndsAt(chars, i, i + 1)
    ensures !EndsAt(chars, i + 1, i + 1)
  {
    hide IsStopAt;
  }

  predicate TailAt(chars: string, k: nat) {
    k < |chars| && chars[k] in STOPS + CLOSING_MARKS + {'.'}
  }

  lemma RunsThrough(chars: string, i: nat, j: nat, b: nat, k: nat)
    requires StopsAt(chars, i, j, b) && j < k < b
    ensures TailAt(chars, k)
  {
    hide IsStopAt;
  }

  lemma StopsFrom(chars: string, i: nat, n: nat, b: nat, j: nat)
    requires i < n < b && (n < |chars| ==> !TailAt(chars, n))
    ensures StopsAt(chars, i, j, b) <==> StopsAt(chars, n, j, b)
  {
    hide IsStopAt;
    if StopsAt(chars, i, j, b) && j < n { RunsThrough(chars, i, j, b, n); }
  }

  lemma NothingInside(chars: string, i: nat, n: nat, b: nat)
    requires i + 1 <= b < n <= |chars| && chars[i] !in NEWLINES && forall k :: i < k < n ==> TailAt(chars, k)
    ensures !EndsAt(chars, i, b)
  {
    hide StopsAt;
    assert TailAt(chars, b);
    if b > i + 1 {
      assert TailAt(chars, b - 1);
      CharsAre(chars[b - 1]);
    }
  }

  /** After a stop nothing ends before its run does, and what ends later starts later. */
  lemma EndsAfterStop(chars: string, i: nat, n: nat, b: nat)
    requires i < n <= |chars| && IsStopAt(chars, i) && chars[i] !in NEWLINES
    requires (forall k :: i < k < n ==> TailAt(chars, k)) && (n < |chars| ==> !TailAt(chars, n))
    ensures EndsAt(chars, i, b) <==> b == n || EndsAt(chars, n, b)
  {
    if b > n {
      forall j: nat ensures StopsAt(chars, i, j, b) <==> StopsAt(chars, n, j, b) { StopsFrom(chars, i, n, b, j); }
      SameEnds(chars, i, n, b);
      SameEnds(chars, n, i, b);
    } else if b == n {
      hide IsStopAt;
      assert StopsAt(chars, i, i, n) by {
        forall k | i < k < n ensures chars[k] in STOPS + CLOSING_MARKS + {'.'} { assert TailAt(chars, k); }
      }
    } else if i < b {
      NothingInside(chars, i, n, b);
    }
  }

  lemma RunIs(chars: string, i: nat)
    requires i < |chars|
    ensures var n := SkipTail(chars, i + 1);
            && i < n <= |chars| && (forall k :: i < k < n ==> TailAt(chars, k)) && (n < |chars| ==> !TailAt(chars, n))
  {
    var n := SkipTail(chars, i + 1);
    SkipTailIs(chars, i + 1);
    hide IsTail, SkipTail;
    forall k | i < k < n ensures TailAt(chars, k) { CharsAre(chars[k]); }
    if n < |chars| { CharsAre(chars[n]); }
  }

  lemma EndsAfter(chars: string, i: nat, b: nat)
    requires i < |chars| && IsBoundary(chars, i)
    ensures EndsAt(chars, i, b) <==> b == AfterBoundary(chars, i) || EndsAt(chars, AfterBoundary(chars, i), b)
  {
    BoundaryIs(chars, i);
    CharsAre(chars[i]);
    hide IsTail, IsNewline, IsBoundary, SkipTail, EndsAt, IsStopAt;
    if IsNewline(chars[i]) {
      EndsHere(chars, i);
      if b != i + 1 { EndsLater(chars, i, b); }
    } else {
      RunIs(chars, i);
      EndsAfterStop(chars, i, SkipTail(chars, i + 1), b);
    }
  }

  lemma EndsPast(chars: string, i: nat, b: nat)
    requires i < |chars| && !IsBoundary(chars, i)
    ensures EndsAt(chars, i, b) <==> EndsAt(chars, i + 1, b)
  {
    BoundaryIs(chars, i);
    CharsAre(chars[i]);
    hide IsTail, IsNewline, IsBoundary, EndsAt, IsStopAt;
    EndsHere(chars, i);
    if b != i + 1 { EndsLater(chars, i, b); }
  }

  lemma NoBreaks(chars: string, b: nat)
    ensures b !in Breaks(chars, |chars|) && !EndsAt(chars, |chars|, b)
  {}

  lemma BreaksUnfold(chars: string, i: nat, b: nat)
    requires i < |chars|
    ensures b in Breaks(chars, i) <==>
            if IsBoundary(chars, i) then b == AfterBoundary(chars, i) || b in Breaks(chars, AfterBoundary(chars, i))
            else b in Breaks(chars, i + 1)
  {
    hide IsBoundary, AfterBoundary;
  }

  /** The scan finds exactly the ends of sentences. */
  lemma {:induction false} BreaksAre(chars: string, i: nat, b: nat)
    requires i <= |chars|
    ensures b in Breaks(chars, i) <==> EndsAt(chars, i, b)
    decreases |chars| - i
  {
    hide *;
    if i == |chars| {
      NoBreaks(chars, b);
    } else {
      BreaksUnfold(chars, i, b);
      if IsBoundary(chars, i) {
        BreaksAre(chars, AfterBoundary(chars, i), b);
        EndsAfter(chars, i, b);
      } else {
        BreaksAre(chars, i + 1, b);
        EndsPast(chars, i, b);
      }
    }
  }

  /** From the last end of a sentence before the match, or the beginning, to the first after it, or the end. */
  ghost predicate IsSentence(text: string, from: nat, to: nat, p: nat, e: nat) {
    && from <= p < e <= to <= |text|
    && (from == 0 || EndsAt(text, 0, from)) && (forall b :: from < b <= p ==> !EndsAt(text, 0, b))
    && (to == |text| || EndsAt(text, 0, to)) && (forall b :: e <= b < to ==> !EndsAt(text, 0, b))
  }

  /** The scanned breaks are the ends of sentences. */
  ghost predicate Lists(breaks: seq<nat>, text: string) {
    forall x: nat :: EndsAt(text, 0, x) <==> x in breaks
  }

  lemma NoneBetween(breaks: seq<nat>, text: string, lo: int, hi: int)
    requires Lists(breaks, text) && forall k :: 0 <= k < |breaks| ==> breaks[k] <= lo || breaks[k] >= hi
    ensures forall b: nat :: lo < b < hi ==> !EndsAt(text, 0, b)
  {
    hide EndsAt;
  }

  lemma ListsAll(text: string)
    ensures Lists(Breaks(text, 0), text)
  {
    hide Breaks, EndsAt;
    forall b: nat ensures EndsAt(text, 0, b) <==> b in Breaks(text, 0) { BreaksAre(text, 0, b); }
  }

  lemma SentenceBounds(text: string, p: nat, e: nat)
    requires p < e <= |text|
    ensures var from, to := StartOf(Breaks(text, 0), p, 0), EndOf(Breaks(text, 0), e, |text|);
            IsSentence(text, from, to, p, e) && Sentence(text, p, e) == text[from..to]
  {
    var breaks := Breaks(text, 0);
    SentenceIs(text, p, e);
    StartIsLatest(breaks, p, 0);
    EndIsFirst(breaks, e, |text|);
    hide Breaks, StartOf, EndOf, EndsAt, Sentence;
    var from, to := StartOf(breaks, p, 0), EndOf(breaks, e, |text|);
    ListsAll(text);
    NoneBetween(breaks, text, from, p + 1);
    NoneBetween(breaks, text, e - 1, to);
  }

  ghost predicate Blank(text: string, from: nat, to: nat) {
    forall k :: from <= k < to && k < |text| ==> IsWhitespace(text[k])
  }

  lemma BlankShift(text: string, from: nat, to: nat, a: nat, b: nat)
    requires from <= to <= |text| && a <= b <= to - from && a < b
    requires forall k :: 0 <= k < to - from && !(a <= k < b) ==> IsWhitespace(text[from..to][k])
    requires !IsWhitespace(text[from..to][a]) && !IsWhitespace(text[from..to][b - 1])
    ensures Blank(text, from, from + a) && Blank(text, from + b, to)
    ensures !IsWhitespace(text[from + a]) && !IsWhitespace(text[from + b - 1])
  {
    hide IsWhitespace;
    forall k | from <= k < to ensures text[k] == text[from..to][k - from] {}
  }

  /** The snippet of a sentence text[a..b] around a match text[p..e], a third of the budget before it. */
  predicate ShowsMatch(snippet: string, text: string, a: nat, b: nat, p: nat, e: nat, budget: nat, from: nat, to: nat) {
    && a <= from <= p < e <= to <= b <= |text|
    && snippet == (if from > a then [ELLIPSIS] else []) + text[from..to] + (if to < b then [ELLIPSIS] else [])
    && if b - a <= budget then from == a && to == b
       else
         && from == (if p - a > budget / 3 then p - budget / 3 else a)
         && (to - from >= budget || to == b) && (to - from <= budget || to == e)
  }

  lemma LongExcerpt(text: string, query: string, budget: nat, fold: Fold) returns (from: nat, to: nat)
    requires RangeOf(text, query, fold).Some? && |text| > budget
    requires RangeOf(text, query, fold).value.0 < RangeOf(text, query, fold).value.1 <= |text|
    ensures var (p, e) := RangeOf(text, query, fold).value;
            ShowsMatch(Excerpt(text, query, budget, fold), text, 0, |text|, p, e, budget, from, to)
  {
    hide RangeOf;
    var (p, e) := RangeOf(text, query, fold).value;
    from := SaturatingSub(p, budget / 3);
    to := Min(Max(from + budget, e), |text|);
  }

  lemma ShowsInside(snippet: string, text: string, a: nat, b: nat, p: nat, e: nat, budget: nat, from: nat, to: nat)
    requires a <= p < e <= b <= |text| && b - a > budget
    requires ShowsMatch(snippet, text[a..b], 0, b - a, p - a, e - a, budget, from, to)
    ensures ShowsMatch(snippet, text, a, b, p, e, budget, a + from, a + to)
  {
    SliceOfSlice(text, a, b, a + from, a + to);
  }

  /** A sentence that fits is shown whole. */
  lemma ShowsWhole(text: string, a: nat, b: nat, p: nat, e: nat, budget: nat)
    requires a <= p < e <= b <= |text| && b - a <= budget
    ensures ShowsMatch(text[a..b], text, a, b, p, e, budget, a, b)
  {
    assert [] + text[a..b] + [] == text[a..b];
  }

  lemma TrimmedBounds(text: string, query: string, fold: Fold) returns (s: nat, t: nat, a: nat, b: nat)
    requires FoldOk(fold) && RangeOf(text, query, fold).Some?
    ensures var (p, e) := RangeOf(text, query, fold).value;
            && IsSentence(text, s, t, p, e) && s <= a <= p < e <= b <= t <= |text|
            && Trim(Sentence(text, p, e)) == text[a..b]
            && Blank(text, s, a) && Blank(text, b, t) && !IsWhitespace(text[a]) && !IsWhitespace(text[b - 1])
  {
    hide *;
    var (p, e) := RangeOf(text, query, fold).value;
    var hit := RangeCovers(text, query, fold);
    RangeBounds(text, query, fold);
    MatchEndsVisible(text, fold, query, p, e, hit);
    SentenceBounds(text, p, e);
    s, t := StartOf(Breaks(text, 0), p, 0), EndOf(Breaks(text, 0), e, |text|);
    SentenceIs(text, p, e);
    SliceEnds(text, s, t, p, e);
    var x, y := TrimIs(text[s..t]);
    BlankShift(text, s, t, x, y);
    a, b := s + x, s + y;
    SliceOfSlice(text, s, t, a, b);
  }

  lemma SubOffset(text: string, fold: Fold, start: nat, end: nat, i: nat)
    requires start <= start + i <= end <= |text|
    ensures Offset(text[start..end], fold, i) == Offset(text, fold, start + i) - Offset(text, fold, start)
  {
    assert text[start..end][..i] == text[start..start + i];
    FoldedSplit(text, fold, start, start + i);
  }

  lemma CoverFacts(text: string, fold: Fold, needle: string, p: nat, e: nat, hit: nat)
    requires Covers(text, fold, needle, p, e, hit)
    ensures p < e <= |text| && needle != [] && OccursAt(Folded(text, fold), needle, hit)
    ensures Offset(text, fold, p) <= hit < Offset(text, fold, p + 1)
    ensures Offset(text, fold, e - 1) <= hit + |needle| - 1 < Offset(text, fold, e)
  {
    hide OccursAt, Folded, Offset;
  }

  lemma {:induction false} IndexAtUnique(s: string, fold: Fold, k: nat, i: nat)
    requires i < |s| && Offset(s, fold, i) <= k < Offset(s, fold, i + 1)
    ensures k < |Folded(s, fold)| && IndexAt(s, fold, k) == i
  {
    FoldedAt(s, fold, i, k);
    IndexAtIs(s, fold, k);
    hide Offset, Folded;
    var j := IndexAt(s, fold, k);
    if j < i { OffsetMonotone(s, fold, j + 1, i); }
    if i < j { OffsetMonotone(s, fold, i + 1, j); }
  }

  lemma ShiftedIndex(text: string, fold: Fold, start: nat, end: nat, k: nat, i: nat)
    requires start <= i < end <= |text| && Offset(text, fold, start) <= k
    requires Offset(text, fold, i) <= k < Offset(text, fold, i + 1)
    ensures IndexAt(text[start..end], fold, k - Offset(text, fold, start)) == i - start
  {
    hide *;
    SubOffset(text, fold, start, end, i - start);
    SubOffset(text, fold, start, end, i - start + 1);
    IndexAtUnique(text[start..end], fold, k - Offset(text, fold, start), i - start);
  }

  lemma ShiftedHit(text: string, fold: Fold, needle: string, start: nat, end: nat, hit: nat)
    requires start <= end <= |text| && OccursAt(Folded(text, fold), needle, hit)
    requires forall j: nat :: j < hit ==> !OccursAt(Folded(text, fold), needle, j)
    requires Offset(text, fold, start) <= hit && hit + |needle| <= Offset(text, fold, end)
    ensures FindFrom(Folded(text[start..end], fold), needle, 0) == Some(hit - Offset(text, fold, start))
  {
    hide Folded, OccursAt, FindFrom;
    FoldedSplit(text, fold, start, end);
    FoldedSplit(text, fold, 0, start);
    var front, mid, back := Folded(text[..start], fold), Folded(text[start..end], fold), Folded(text[end..], fold);
    assert |front| == Offset(text, fold, start);
    OccursInMiddle(front, mid, back, needle, hit);
    forall j: nat | j < hit - |front| ensures !OccursAt(mid, needle, j) {
      if OccursAt(mid, needle, j) { OccursShift(front, mid, back, needle, j); }
    }
    FirstOccurrence(mid, needle, hit - |front|);
  }

  lemma RangeOfHit(text: string, query: string, fold: Fold)
    requires Needle(query, fold) != [] && FindFrom(Folded(text, fold), Needle(query, fold), 0).Some?
    ensures var hit := FindFrom(Folded(text, fold), Needle(query, fold), 0).value;
            && hit + |Needle(query, fold)| <= |Folded(text, fold)|
            && RangeOf(text, query, fold) == Some((IndexAt(text, fold, hit), IndexAt(text, fold, hit + |Needle(query, fold)| - 1) + 1))
  {}

  /** A piece of the text around the match has the same match, at the shifted place. */
  lemma RangeShift(text: string, query: string, fold: Fold, start: nat, end: nat)
    requires RangeOf(text, query, fold).Some?
    requires start <= RangeOf(text, query, fold).value.0 && RangeOf(text, query, fold).value.1 <= end <= |text|
    ensures var (p, e) := RangeOf(text, query, fold).value;
            start <= p < e && RangeOf(text[start..end], query, fold) == Some((p - start, e - start))
  {
    hide *;
    var (p, e) := RangeOf(text, query, fold).value;
    var hit := RangeCovers(text, query, fold);
    var needle := Needle(query, fold);
    CoverFacts(text, fold, needle, p, e, hit);
    OffsetMonotone(text, fold, start, p);
    OffsetMonotone(text, fold, e, end);
    ShiftedHit(text, fold, needle, start, end, hit);
    ShiftedIndex(text, fold, start, end, hit, p);
    ShiftedIndex(text, fold, start, end, hit + |needle| - 1, e - 1);
    RangeOfHit(text[start..end], query, fold);
  }

  lemma MatchedIs(text: string, query: string, fold: Fold)
    requires RangeOf(text, query, fold).Some?
    ensures var (p, e) := RangeOf(text, query, fold).value; p < e <= |text| && Matched(text, query, fold) == e - p
  {
    RangeBounds(text, query, fold);
    hide RangeOf;
  }

  lemma MaxIs(a: nat, b: nat)
    ensures Max(a, b) >= a
  {}

  lemma SnippetIs(text: string, query: string, budget: nat, fold: Fold)
    requires RangeOf(text, query, fold).Some?
    ensures var range := RangeOf(text, query, fold).value;
            var sentence := Trim(Sentence(text, range.0, range.1));
            SentenceExcerpt(text, query, budget, fold) ==
              if |sentence| <= budget then sentence else Excerpt(sentence, query, budget, fold)
  {}

  /**
   * Whenever the text matches, the snippet matches too, whatever was trimmed
   * or cut off around the match and however folding changes lengths; it is no
   * longer than the budget, or the matched characters and a third of the
   * budget, plus two marks; and no more are matched than the needle has.
   */
  lemma SnippetKeepsMatch(text: string, query: string, budget: nat, fold: Fold)
    requires FoldOk(fold) && RangeOf(text, query, fold).Some?
    ensures Contains(Folded(SentenceExcerpt(text, query, budget, fold), fold), Needle(query, fold))
    ensures |SentenceExcerpt(text, query, budget, fold)| <= Max(budget, Matched(text, query, fold) + budget / 3) + 2
    ensures Matched(text, query, fold) <= |Needle(query, fold)|
  {
    hide *;
    var (p, e) := RangeOf(text, query, fold).value;
    var needle := Needle(query, fold);
    var start, end := TrimmedSentenceIs(text, query, fold);
    var sentence := text[start..end];
    RangeShift(text, query, fold, start, end);
    MatchedIs(text, query, fold);
    MatchedIs(sentence, query, fold);
    var hit := RangeCovers(text, query, fold);
    MatchedLength(text, fold, needle, p, e, hit);
    SnippetIs(text, query, budget, fold);
    MaxIs(budget, Matched(text, query, fold) + budget / 3);
    if |sentence| > budget {
      ExcerptKeepsMatch(sentence, query, budget, fold);
      ExcerptLength(sentence, query, budget, fold);
    } else {
      CoveredContains(text, fold, needle, p, e, hit);
      WindowContains(text, fold, needle, p, e, start, end);
    }
  }

  /**
   * What the snippet of a matching text shows: the sentence of the match,
   * trimmed, whole if it fits the budget; otherwise the part of it that begins
   * a third of the budget before the match, fills the budget or reaches the
   * end of the sentence, and has a mark where something is cut off.
   */
  lemma SnippetShows(text: string, query: string, budget: nat, fold: Fold)
    returns (s: nat, t: nat, a: nat, b: nat, from: nat, to: nat)
    requires FoldOk(fold) && RangeOf(text, query, fold).Some?
    ensures var (p, e) := RangeOf(text, query, fold).value;
            && IsSentence(text, s, t, p, e) && s <= a <= p < e <= b <= t <= |text|
            && Blank(text, s, a) && Blank(text, b, t) && !IsWhitespace(text[a]) && !IsWhitespace(text[b - 1])
            && ShowsMatch(SentenceExcerpt(text, query, budget, fold), text, a, b, p, e, budget, from, to)
  {
    hide *;
    s, t, a, b := TrimmedBounds(text, query, fold);
    var (p, e) := RangeOf(text, query, fold).value;
    SnippetIs(text, query, budget, fold);
    if b - a <= budget {
      ShowsWhole(text, a, b, p, e, budget);
      from, to := a, b;
    } else {
      RangeShift(text, query, fold, a, b);
      RangeBounds(text[a..b], query, fold);
      from, to := LongExcerpt(text[a..b], query, budget, fold);
      ShowsInside(SentenceExcerpt(text, query, budget, fold), text, a, b, p, e, budget, from, to);
      from, to := a + from, a + to;
    }
  }

  /** Without a match the snippet is the beginning of the text. */
  lemma NoMatchShows(text: string, query: string, budget: nat, fold: Fold)
    requires RangeOf(text, query, fold).None?
    ensures SentenceExcerpt(text, query, budget, fold) == if |text| <= budget then text else text[..budget] + [ELLIPSIS]
  {
    hide RangeOf;
    assert [] + text[..|text|] + [] == text;
    if |text| > budget { assert [] + text[0..budget] == text[..budget]; }
  }

  // ----- the loops -----

  lemma BytesPositive(s: string)
    requires s != []
    ensures Bytes(s) > 0
  {}

  /** Byte offsets are ordered as the places they stand for. */
  lemma ByteOrder(s: string, i: nat, j: nat)
    requires i <= |s| && j <= |s|
    ensures Bytes(s[..i]) < Bytes(s[..j]) <==> i < j
  {
    hide Width;
    if i < j {
      assert s[..j] == s[..i] + s[i..j];
      BytesConcat(s[..i], s[i..j]);
      BytesPositive(s[i..j]);
    } else {
      assert s[..i] == s[..j] + s[j..i];
      BytesConcat(s[..j], s[j..i]);
    }
  }

  lemma OffsetBytes(text: string, fold: Fold, i: nat)
    requires i < |text|
    ensures Offset(text, fold, i) <= Offset(text, fold, i + 1) <= |Folded(text, fold)|
    ensures Bytes(Folded(text, fold)[..Offset(text, fold, i + 1)]) ==
            Bytes(Folded(text, fold)[..Offset(text, fold, i)]) + Bytes(fold(text[i]))
  {
    OffsetNext(text, fold, i);
    FoldedSplit(text, fold, i, i + 1);
    FoldedSplit(text, fold, 0, i);
    assert text[0..i] == text[..i] && text[i..i + 1] == [text[i]] && [text[i]][1..] == [];
    var folded := Folded(text, fold);
    hide Bytes;
    assert folded[..Offset(text, fold, i)] == Folded(text[..i], fold);
    assert folded[..Offset(text, fold, i + 1)] == Folded(text[..i], fold) + fold(text[i]);
    BytesConcat(Folded(text[..i], fold), fold(text[i]));
  }

  lemma OffsetEnd(text: string, fold: Fold)
    ensures Offset(text, fold, |text|) == |Folded(text, fold)| && Offset(text, fold, 0) == 0
  {
    assert text[..|text|] == text && text[..0] == [];
  }

  /** Counting bytes or characters, a position lies past the same ends of the match. */
  lemma EndsAgree(folded: string, needle: string, hit: nat, at: nat)
    requires OccursAt(folded, needle, hit) && at <= |folded|
    ensures Bytes(folded[..at]) > Bytes(folded[..hit]) <==> at > hit
    ensures Bytes(folded[..at]) >= Bytes(folded[..hit]) + Bytes(needle) <==> at >= hit + |needle|
  {
    hide Bytes;
    ByteOrder(folded, hit, at);
    ByteOrder(folded, at, hit + |needle|);
    assert folded[..hit + |needle|] == folded[..hit] + needle;
    BytesConcat(folded[..hit], needle);
  }

  /** One turn of the loop of MatchRange, at character i: byte comparisons decide as places do. */
  lemma MatchTurn(text: string, fold: Fold, needle: string, hit: nat, i: nat)
    requires i < |text| && OccursAt(Folded(text, fold), needle, hit)
    ensures Offset(text, fold, i) <= Offset(text, fold, i + 1) <= |Folded(text, fold)|
    ensures var folded := Folded(text, fold);
            var next := Bytes(folded[..Offset(text, fold, i)]) + Bytes(fold(text[i]));
            && next == Bytes(folded[..Offset(text, fold, i + 1)])
            && (next > Bytes(folded[..hit]) <==> Offset(text, fold, i + 1) > hit)
            && (next >= Bytes(folded[..hit]) + Bytes(needle) <==> Offset(text, fold, i + 1) >= hit + |needle|)
  {
    hide Bytes, Folded, Offset;
    OffsetBytes(text, fold, i);
    EndsAgree(Folded(text, fold), needle, hit, Offset(text, fold, i + 1));
  }

  lemma BytesEmpty()
    ensures Bytes([]) == 0
  {}

  /** The loop of MatchRange: byte offsets of the lowercased text are mapped back to characters. */
  method MapBack(text: string, fold: Fold, needleLength: nat, hit: nat, ghost needle: string, ghost k: nat) returns (range: (nat, nat))
    requires needle != [] && OccursAt(Folded(text, fold), needle, k)
    requires hit == Bytes(Folded(text, fold)[..k]) && needleLength == Bytes(needle)
    ensures range == (IndexAt(text, fold, k), IndexAt(text, fold, k + |needle| - 1) + 1)
  {
    ghost var folded := Folded(text, fold);
    var foldedOffset, position, foundStart := 0, 0, false;
    OffsetEnd(text, fold);
    assert folded[..0] == [];
    assert k + |needle| <= |folded|;
    hide *;
    assert foldedOffset == Bytes(folded[..0]) by { BytesEmpty(); }
    for index := 0 to |text|
      invariant Offset(text, fold, index) < k + |needle|
      invariant Offset(text, fold, index) <= |folded| && foldedOffset == Bytes(folded[..Offset(text, fold, index)])
      invariant foundStart == (Offset(text, fold, index) > k)
      invariant foundStart ==> position == IndexAt(text, fold, k)
    {
      MatchTurn(text, fold, needle, k, index);
      var next := foldedOffset + Bytes(fold(text[index]));
      if !foundStart && next > hit {
        position := index;
        foundStart := true;
        IndexAtUnique(text, fold, k, index);
      }
      if next >= hit + needleLength {
        IndexAtUnique(text, fold, k + |needle| - 1, index);
        return (position, index + 1);
      }
      foldedOffset := next;
    }
    assert false;
  }

  method MatchRange(text: string, query: string, fold: Fold) returns (range: Option<(nat, nat)>)
    ensures range == RangeOf(text, query, fold)
  {
    hide Bytes, Folded, Needle, IndexAt, FindFrom, OccursAt;
    var needle := Needle(query, fold);
    if needle == [] { return None; }
    var folded := Folded(text, fold);
    var found := FindFrom(folded, needle, 0);
    if found.None? { return None; }
    RangeOfHit(text, query, fold);
    var mapped := MapBack(text, fold, Bytes(needle), Bytes(folded[..found.value]), needle, found.value);
    range := Some(mapped);
  }

  lemma BreakTurn(chars: string, i: nat)
    requires i < |chars| && IsBoundary(chars, i)
    ensures Breaks(chars, i) != [] && Breaks(chars, i)[0] == AfterBoundary(chars, i)
    ensures Breaks(chars, i)[1..] == Breaks(chars, AfterBoundary(chars, i))
  {}

  method FindSentence(chars: string, position: nat, matchEnd: nat) returns (start: nat, end: nat)
    requires position < matchEnd <= |chars|
    ensures start == StartOf(Breaks(chars, 0), position, 0)
    ensures end == EndOf(Breaks(chars, 0), matchEnd, |chars|)
  {
    start, end := 0, |chars|;
    var index := 0;
    while index < |chars|
      invariant index <= |chars| && end == |chars|
      invariant StartOf(Breaks(chars, index), position, start) == StartOf(Breaks(chars, 0), position, 0)
      invariant EndOf(Breaks(chars, index), matchEnd, |chars|) == EndOf(Breaks(chars, 0), matchEnd, |chars|)
    {
      hide IsNewline, IsStop, IsClosing, IsTail;
      ghost var here := index;
      var newline, boundary := IsNewline(chars[index]), IsBoundary(chars, index);
      index := index + 1;
      if boundary {
        if !newline {
          while index < |chars| && IsTail(chars[index])
            invariant here < index <= |chars| && SkipTail(chars, index) == AfterBoundary(chars, here)
          {
            index := index + 1;
          }
        }
        assert index == AfterBoundary(chars, here);
        BreakTurn(chars, here);
        if index <= position {
          start := index;
        } else if index >= matchEnd {
          end := index;
          return;
        }
      }
    }
  }

  method BuildSnippet(text: string, query: string, budget: nat, fold: Fold) returns (snippet: string)
    ensures snippet == SentenceExcerpt(text, query, budget, fold)
  {
    hide RangeOf, Excerpt, Breaks, StartOf, EndOf, Trim;
    var range := MatchRange(text, query, fold);
    if range.None? { return Excerpt(text, query, budget, fold); }
    RangeBounds(text, query, fold);
    var start, end := FindSentence(text, range.value.0, range.value.1);
    SentenceIs(text, range.value.0, range.value.1);
    var sentence := Trim(text[start..end]);
    snippet := if |sentence| <= budget then sentence else Excerpt(sentence, query, budget, fold);
  }
}
