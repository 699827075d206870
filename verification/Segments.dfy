/** Memory segments: a canonical normal form and an exact intersection. */
module Segments {

  import opened Outcomes

  /** The largest address; sums beyond it saturate, so no segment covers it. */
  const TOP: nat := 0xFFFF_FFFF_FFFF_FFFF

  type Word = n: nat | n <= TOP

  datatype Segment = Segment(start: Word, size: Word) {
    function End(): Word {
      if start + size <= TOP then start + size else TOP
    }
  }

  /** A segment whose end does not saturate. */
  predicate Sane(s: Segment) {
    s.start + s.size <= TOP
  }

  ghost predicate AllSane(segs: seq<Segment>) {
    forall i :: 0 <= i < |segs| ==> Sane(segs[i])
  }

  predicate In(s: Segment, a: nat) {
    s.start <= a < s.End()
  }

  ghost predicate Covers(segs: seq<Segment>, a: nat) {
    exists i :: 0 <= i < |segs| && In(segs[i], a)
  }

  /** At least one address lies between neighbours. */
  ghost predicate Spaced(segs: seq<Segment>) {
    forall i, j :: 0 <= i < j < |segs| ==> segs[i].End() < segs[j].start
  }

  ghost predicate Positive(segs: seq<Segment>) {
    forall i :: 0 <= i < |segs| ==> segs[i].size > 0
  }

  /** Spaced segments each of which covers an address. */
  ghost predicate Normal(segs: seq<Segment>) {
    Spaced(segs) && forall i :: 0 <= i < |segs| ==> segs[i].start < segs[i].End()
  }

  ghost predicate Same(x: seq<Segment>, y: seq<Segment>) {
    forall a {:trigger Covers(x, a)} {:trigger Covers(y, a)} :: Covers(x, a) <==> Covers(y, a)
  }

  lemma {:induction false} CoversSplit(segs: seq<Segment>, a: nat)
    requires |segs| > 0
    ensures Covers(segs, a) <==> In(segs[0], a) || Covers(segs[1..], a)
  {
    if Covers(segs, a) {
      var i :| 0 <= i < |segs| && In(segs[i], a);
      if i > 0 {
        assert In(segs[1..][i - 1], a);
      }
    }
    if Covers(segs[1..], a) {
      var i :| 0 <= i < |segs[1..]| && In(segs[1..][i], a);
      assert In(segs[i + 1], a);
    }
  }

  lemma {:induction false} CoversSnoc(segs: seq<Segment>, s: Segment, a: nat)
    ensures Covers(segs + [s], a) <==> Covers(segs, a) || In(s, a)
  {
    var all := segs + [s];
    if Covers(segs, a) {
      var i :| 0 <= i < |segs| && In(segs[i], a);
      assert In(all[i], a);
    }
    if In(s, a) {
      assert In(all[|segs|], a);
    }
  }

  // ---------------------------------------------------------------------------
  // The normal form is canonical
  // ---------------------------------------------------------------------------

  lemma {:induction false} FirstStart(x: seq<Segment>, y: seq<Segment>)
    requires Normal(x) && Normal(y) && Same(x, y) && |x| > 0
    ensures |y| > 0 && y[0].start <= x[0].start
  {
    var a := x[0].start;
    assert In(x[0], a);
    assert Covers(x, a);
    assert Covers(y, a);
  }

  lemma {:induction false} FirstEnd(x: seq<Segment>, y: seq<Segment>)
    requires Normal(x) && Normal(y) && Same(x, y)
    requires |x| > 0 && |y| > 0 && x[0].start == y[0].start
    ensures x[0].End() <= y[0].End()
  {
    var a := y[0].End();
    assert !Covers(y, a);
    assert !Covers(x, a);
    assert !In(x[0], a);
  }

  lemma {:induction false} TailCovers(x: seq<Segment>, a: nat)
    requires Normal(x) && |x| > 0
    ensures Covers(x[1..], a) <==> Covers(x, a) && a >= x[0].End()
  {
    CoversSplit(x, a);
    if Covers(x[1..], a) {
      var i :| 0 <= i < |x[1..]| && In(x[1..][i], a);
      assert x[1..][i] == x[i + 1];
    }
  }

  lemma {:induction false} TailSame(x: seq<Segment>, y: seq<Segment>)
    requires Normal(x) && Normal(y) && Same(x, y) && |x| > 0 && |y| > 0 && x[0].End() == y[0].End()
    ensures Normal(x[1..]) && Normal(y[1..]) && Same(x[1..], y[1..])
  {
    forall a
      ensures Covers(x[1..], a) <==> Covers(y[1..], a)
    {
      TailCovers(x, a);
      TailCovers(y, a);
    }
  }

  /** Two normal lists that cover the same addresses have the same starts and the same ends. */
  lemma {:induction false} SameShape(x: seq<Segment>, y: seq<Segment>)
    requires Normal(x) && Normal(y) && Same(x, y)
    ensures |x| == |y| && forall i :: 0 <= i < |x| ==> x[i].start == y[i].start && x[i].End() == y[i].End()
  {
    if |x| == 0 {
      if |y| > 0 {
        FirstStart(y, x);
      }
    } else {
      FirstStart(x, y);
      FirstStart(y, x);
      FirstEnd(x, y);
      FirstEnd(y, x);
      TailSame(x, y);
      SameShape(x[1..], y[1..]);
      forall i | 0 <= i < |x|
        ensures x[i].start == y[i].start && x[i].End() == y[i].End()
      {
        assert i > 0 ==> x[i] == x[1..][i - 1] && y[i] == y[1..][i - 1];
      }
    }
  }

  /** Two normal lists that cover the same addresses are equal, unless an end saturates. */
  lemma {:induction false} NormalUnique(x: seq<Segment>, y: seq<Segment>)
    requires Normal(x) && Normal(y) && AllSane(x) && AllSane(y) && Same(x, y)
    ensures x == y
  {
    SameShape(x, y);
    assert forall i :: 0 <= i < |x| ==> x[i] == y[i];
  }

  /** No other normal list covers the same addresses. */
  ghost predicate Canonical(x: seq<Segment>) {
    forall y :: Normal(y) && Same(x, y) ==> y == x
  }

  /** Another size for a last segment that reaches the top: sums of both kinds end there. */
  function OtherSize(s: Segment): Segment
    requires 0 < s.start
  {
    Segment(s.start, if s.size == TOP - s.start then s.size + 1 else TOP - s.start)
  }

  lemma {:induction false} OtherSizeSame(x: seq<Segment>)
    requires Normal(x) && |x| > 0 && x[|x| - 1].End() == TOP && x[|x| - 1].start > 0
    ensures var y := x[|x| - 1 := OtherSize(x[|x| - 1])];
      Normal(y) && Same(x, y) && x != y
  {
    var n := |x| - 1;
    var y := x[n := OtherSize(x[n])];
    assert x == x[..n] + [x[n]] && y == x[..n] + [y[n]];
    forall a
      ensures Covers(x, a) <==> Covers(y, a)
    {
      CoversSnoc(x[..n], x[n], a);
      CoversSnoc(x[..n], y[n], a);
    }
    assert x[n] != y[n];
  }

  /** A normal list is the only one for its addresses exactly when it stays below the top or is the whole space. */
  lemma {:induction false} CanonicalExact(x: seq<Segment>)
    requires Normal(x)
    ensures Canonical(x) <==> |x| == 0 || x[|x| - 1].End() < TOP || x[|x| - 1].start == 0
  {
    if |x| > 0 && x[|x| - 1].End() == TOP && x[|x| - 1].start > 0 {
      OtherSizeSame(x);
    } else {
      forall y | Normal(y) && Same(x, y)
        ensures y == x
      {
        SameShape(x, y);
        assert forall i :: 0 <= i < |x| ==> x[i] == y[i];
      }
    }
  }

  // ---------------------------------------------------------------------------
  // Normalisation
  // ---------------------------------------------------------------------------

  ghost predicate ByStart(segs: seq<Segment>) {
    forall i, j :: 0 <= i < j < |segs| ==> segs[i].start <= segs[j].start
  }

  method InsertByStart(segs: seq<Segment>, s: Segment) returns (out: seq<Segment>)
    requires ByStart(segs)
    ensures ByStart(out) && multiset(out) == multiset(segs) + multiset{s}
  {
    var p: nat := |segs|;
    while p > 0 && segs[p - 1].start > s.start
      invariant p <= |segs|
      invariant forall j :: p <= j < |segs| ==> segs[j].start > s.start
    {
      p := p - 1;
    }
    InsertedByStart(segs, s, p);
    InsertedOnce(segs, s, p);
    out := segs[..p] + [s] + segs[p..];
  }

  lemma {:induction false} InsertedByStart(segs: seq<Segment>, s: Segment, p: nat)
    requires ByStart(segs) && p <= |segs| && (p > 0 ==> segs[p - 1].start <= s.start)
    requires forall j :: p <= j < |segs| ==> segs[j].start > s.start
    ensures ByStart(segs[..p] + [s] + segs[p..])
  {
    assert forall j :: 0 <= j < p ==> segs[j].start <= s.start;
  }

  lemma {:induction false} InsertedOnce(segs: seq<Segment>, s: Segment, p: nat)
    requires p <= |segs|
    ensures multiset(segs[..p] + [s] + segs[p..]) == multiset(segs) + multiset{s}
  {
    assert segs == segs[..p] + segs[p..];
  }

  method SortByStart(segs: seq<Segment>) returns (out: seq<Segment>)
    ensures ByStart(out) && multiset(out) == multiset(segs)
  {
    out := [];
    var i := 0;
    while i < |segs|
      invariant i <= |segs| && ByStart(out) && multiset(out) == multiset(segs[..i])
    {
      out := InsertByStart(out, segs[i]);
      assert segs[..i + 1] == segs[..i] + [segs[i]];
      i := i + 1;
    }
    assert segs[..i] == segs;
  }

  lemma {:induction false} Reordered(x: seq<Segment>, y: seq<Segment>)
    requires multiset(x) == multiset(y)
    ensures Same(x, y) && (AllSane(x) <==> AllSane(y)) && (AllEmpty(x) <==> AllEmpty(y))
  {
    forall s
      ensures s in x <==> s in y
    {
      assert s in x <==> s in multiset(x);
      assert s in y <==> s in multiset(y);
    }
    forall a
      ensures Covers(x, a) <==> Covers(y, a)
    {
      OneWay(x, y, a);
      OneWay(y, x, a);
    }
    EachIn(x, y);
    EachIn(y, x);
  }

  lemma {:induction false} EachIn(x: seq<Segment>, y: seq<Segment>)
    requires forall s :: s in x ==> s in y
    ensures (AllSane(y) ==> AllSane(x)) && (AllEmpty(y) ==> AllEmpty(x))
  {
    assert forall i :: 0 <= i < |x| ==> x[i] in y;
  }

  /** Sorting leaves a spaced list alone, however it treats equal starts. */
  lemma {:induction false} SortedAlready(x: seq<Segment>, y: seq<Segment>)
    requires Spaced(x) && ByStart(y) && multiset(x) == multiset(y)
    ensures x == y
  {
    SameLength(x, y);
    if |x| > 0 {
      SameFirst(x, y);
      var first, x', y' := x[0], x[1..], y[1..];
      assert x == [first] + x' && y == [first] + y';
      SameRest(first, x', y');
      SortedAlready(x', y');
    }
  }

  lemma {:induction false} SameLength(x: seq<Segment>, y: seq<Segment>)
    requires multiset(x) == multiset(y)
    ensures |x| == |y|
  {
    assert |multiset(x)| == |x| && |multiset(y)| == |y|;
  }

  lemma {:induction false} SameRest(first: Segment, x: seq<Segment>, y: seq<Segment>)
    requires multiset([first] + x) == multiset([first] + y)
    ensures multiset(x) == multiset(y)
  {
    assert multiset([first] + x) == multiset{first} + multiset(x);
    assert multiset([first] + y) == multiset{first} + multiset(y);
    assert forall s :: multiset(x)[s] == multiset([first] + x)[s] - multiset{first}[s];
  }

  lemma {:induction false} SameFirst(x: seq<Segment>, y: seq<Segment>)
    requires Spaced(x) && ByStart(y) && multiset(x) == multiset(y) && |x| > 0 && |y| > 0
    ensures x[0] == y[0]
  {
    assert x[0] in multiset(y) && y[0] in multiset(x);
    var i :| 0 <= i < |y| && y[i] == x[0];
    var k :| 0 <= k < |x| && x[k] == y[0];
    assert y[0].start <= y[i].start;
  }

  lemma {:induction false} OneWay(x: seq<Segment>, y: seq<Segment>, a: nat)
    requires forall s :: s in x ==> s in y
    ensures Covers(x, a) ==> Covers(y, a)
  {
    if Covers(x, a) {
      var i :| 0 <= i < |x| && In(x[i], a);
      assert x[i] in y;
      var j :| 0 <= j < |y| && y[j] == x[i];
    }
  }

  /** What merging the next segment, in order of start, does to a normal list. */
  function Merged(merged: seq<Segment>, s: Segment): seq<Segment> {
    if s.size == 0 then merged
    else if |merged| > 0 && merged[|merged| - 1].End() >= s.start then
      var last := merged[|merged| - 1];
      var end := if last.End() >= s.End() then last.End() else s.End();
      merged[|merged| - 1 := Segment(last.start, if end >= last.start then end - last.start else 0)]
    else merged + [s]
  }

  ghost predicate AllEmpty(segs: seq<Segment>) {
    forall i :: 0 <= i < |segs| ==> segs[i].size == 0
  }

  // What can go wrong at the last address: a segment that starts there covers nothing.

  predicate AtTop(s: Segment) {
    s.start == TOP && s.size > 0
  }

  predicate ReachesTop(s: Segment) {
    s.start < TOP && s.End() == TOP
  }

  ghost predicate SomeAtTop(m: multiset<Segment>) {
    exists s :: s in m && AtTop(s)
  }

  ghost predicate TwoAtTop(m: multiset<Segment>) {
    exists s, t :: AtTop(s) && AtTop(t) && Pair(m, s, t)
  }

  ghost predicate Pair(m: multiset<Segment>, s: Segment, t: Segment) {
    s in m && t in m && (s == t ==> m[s] >= 2)
  }

  ghost predicate TopReached(m: multiset<Segment>) {
    exists s :: s in m && ReachesTop(s)
  }

  lemma {:induction false} OneMore(m: multiset<Segment>, s: Segment, m': multiset<Segment>)
    requires m' == m + multiset{s}
    ensures SomeAtTop(m') <==> SomeAtTop(m) || AtTop(s)
    ensures TopReached(m') <==> TopReached(m) || ReachesTop(s)
  {
    assert forall t :: t in m' <==> t in m || t == s;
  }

  lemma {:induction false} SecondMore(m: multiset<Segment>, s: Segment, m': multiset<Segment>)
    requires m' == m + multiset{s}
    ensures TwoAtTop(m') <==> TwoAtTop(m) || (SomeAtTop(m) && AtTop(s))
  {
    if SomeAtTop(m) && AtTop(s) {
      var t :| t in m && AtTop(t);
      assert Pair(m', t, s);
    }
    if TwoAtTop(m) {
      var t, u :| AtTop(t) && AtTop(u) && Pair(m, t, u);
      assert Pair(m', t, u);
    }
    if TwoAtTop(m') {
      var t, u :| AtTop(t) && AtTop(u) && Pair(m', t, u);
      assert Pair(m, t, u) || (s == t && u in m) || (s == u && t in m);
    }
  }

  /**
    * What merging has made of the segments met so far: whether one of them starts at the top, whether two
    * do, and whether one from below reaches it decide the last one.
    */
  ghost predicate MergedTo(merged: seq<Segment>, some: bool, two: bool, reached: bool) {
    && Spaced(merged) && (two ==> some) && (merged == [] ==> !some && !reached)
    && (|merged| > 0 ==> LastTo(merged[|merged| - 1], some, two, reached))
    && (forall i :: 0 <= i < |merged| - 1 ==> merged[i].size > 0)
  }

  predicate LastTo(last: Segment, some: bool, two: bool, reached: bool) {
    && (ReachesTop(last) <==> reached)
    && (last.start == TOP <==> some && !reached)
    && (last.size == 0 <==> two && !reached)
  }

  lemma {:induction false} MergedOne(merged: seq<Segment>, s: Segment, some: bool, two: bool, reached: bool)
    requires MergedTo(merged, some, two, reached) && (|merged| > 0 ==> merged[|merged| - 1].start <= s.start)
    ensures MergedTo(Merged(merged, s), some || AtTop(s), two || (some && AtTop(s)), reached || ReachesTop(s))
    ensures |Merged(merged, s)| > 0 && s.size > 0 ==> Merged(merged, s)[|Merged(merged, s)| - 1].start <= s.start
  {
    var now := Merged(merged, s);
    if s.size > 0 && |merged| > 0 {
      var last := merged[|merged| - 1];
      if last.End() >= s.start {
        assert LastTo(now[|now| - 1], some || AtTop(s), two || (some && AtTop(s)), reached || ReachesTop(s));
      }
    }
  }

  ghost predicate MergedSoFar(merged: seq<Segment>, m: multiset<Segment>) {
    MergedTo(merged, SomeAtTop(m), TwoAtTop(m), TopReached(m))
  }

  lemma {:induction false} MergedMore(merged: seq<Segment>, m: multiset<Segment>, s: Segment, m': multiset<Segment>)
    requires MergedSoFar(merged, m) && (|merged| > 0 ==> merged[|merged| - 1].start <= s.start) && m' == m + multiset{s}
    ensures MergedSoFar(Merged(merged, s), m')
    ensures |Merged(merged, s)| > 0 && s.size > 0 ==> Merged(merged, s)[|Merged(merged, s)| - 1].start <= s.start
  {
    OneMore(m, s, m');
    SecondMore(m, s, m');
    MergedOne(merged, s, SomeAtTop(m), TwoAtTop(m), TopReached(m));
  }

  /** What the end of merging means for the result. */
  lemma {:induction false} MergedMeans(merged: seq<Segment>, m: multiset<Segment>)
    requires MergedSoFar(merged, m)
    ensures Normal(merged) <==> TopReached(m) || !SomeAtTop(m)
    ensures Positive(merged) <==> TopReached(m) || !TwoAtTop(m)
  {
    if |merged| > 0 {
      var n := |merged| - 1;
      assert forall i :: 0 <= i < n ==> merged[i].End() < merged[n].start;
      assert Normal(merged) <==> merged[n].start < merged[n].End();
    }
  }

  lemma {:induction false} MergedCovers(merged: seq<Segment>, s: Segment, a: nat)
    requires |merged| > 0 ==> merged[|merged| - 1].start <= s.start
    ensures Covers(Merged(merged, s), a) <==> Covers(merged, a) || In(s, a)
  {
    var n := |merged|;
    if s.size > 0 {
      if n > 0 && merged[n - 1].End() >= s.start {
        var front, last := merged[..n - 1], merged[n - 1];
        var now := Merged(merged, s);
        assert merged == front + [last] && now == front + [now[n - 1]];
        CoversSnoc(front, last, a);
        CoversSnoc(front, now[n - 1], a);
      } else {
        CoversSnoc(merged, s, a);
      }
    }
  }

  method MergeOne(before: seq<Segment>, seg: Segment) returns (merged: seq<Segment>)
    ensures merged == Merged(before, seg)
  {
    merged := before;
    if seg.size == 0 {
      return;
    }
    if |merged| > 0 {
      var last := merged[|merged| - 1];
      if last.End() >= seg.start {
        var end := if last.End() >= seg.End() then last.End() else seg.End();
        merged := merged[|merged| - 1 := Segment(last.start, if end >= last.start then end - last.start else 0)];
        return;
      }
    }
    merged := merged + [seg];
  }

  /** What merging has made of the first `i` segments in order of start. */
  ghost predicate MergedUpTo(sorted: seq<Segment>, i: nat, merged: seq<Segment>)
    requires i <= |sorted|
  {
    && Same(merged, sorted[..i]) && MergedSoFar(merged, multiset(sorted[..i]))
    && (AllSane(sorted) ==> AllSane(merged))
    && (merged == [] <==> AllEmpty(sorted[..i]))
    && (|merged| > 0 && i < |sorted| ==> merged[|merged| - 1].start <= sorted[i].start)
    && (Spaced(sorted) && Positive(sorted) ==> merged == sorted[..i])
  }

  method MergeAll(sorted: seq<Segment>) returns (merged: seq<Segment>)
    requires ByStart(sorted)
    ensures Same(merged, sorted) && MergedSoFar(merged, multiset(sorted))
    ensures AllSane(sorted) ==> AllSane(merged)
    ensures merged == [] <==> AllEmpty(sorted)
    ensures Spaced(sorted) && Positive(sorted) ==> merged == sorted
  {
    merged := [];
    var i := 0;
    MergeStart(sorted);
    while i < |sorted|
      invariant i <= |sorted| && MergedUpTo(sorted, i, merged)
    {
      MergeStep(sorted, i, merged);
      merged := MergeOne(merged, sorted[i]);
      i := i + 1;
    }
    MergeEnd(sorted, merged);
  }

  lemma {:induction false} MergeStart(sorted: seq<Segment>)
    ensures MergedUpTo(sorted, 0, [])
  {
  }

  lemma {:induction false} MergeEnd(sorted: seq<Segment>, merged: seq<Segment>)
    requires MergedUpTo(sorted, |sorted|, merged)
    ensures Same(merged, sorted) && MergedSoFar(merged, multiset(sorted))
    ensures AllSane(sorted) ==> AllSane(merged)
    ensures merged == [] <==> AllEmpty(sorted)
    ensures Spaced(sorted) && Positive(sorted) ==> merged == sorted
  {
    assert sorted[..|sorted|] == sorted;
  }

  lemma {:induction false} MergeStep(sorted: seq<Segment>, i: nat, merged: seq<Segment>)
    requires ByStart(sorted) && i < |sorted| && MergedUpTo(sorted, i, merged)
    ensures MergedUpTo(sorted, i + 1, Merged(merged, sorted[i]))
  {
    var s, before, after := sorted[i], sorted[..i], sorted[..i + 1];
    assert after == before + [s];
    MergedMore(merged, multiset(before), s, multiset(after));
    MergedSame(merged, before, s);
    MergedEmpty(merged, before, s);
    MergedSane(merged, s);
    if Spaced(sorted) && Positive(sorted) {
      SpacedPushed(sorted, i);
    }
  }

  lemma {:induction false} MergedEmpty(merged: seq<Segment>, before: seq<Segment>, s: Segment)
    requires merged == [] <==> AllEmpty(before)
    ensures Merged(merged, s) == [] <==> AllEmpty(before + [s])
  {
    var after := before + [s];
    assert after[|before|] == s;
    assert forall k :: 0 <= k < |before| ==> before[k] == after[k];
  }

  lemma {:induction false} MergedSane(merged: seq<Segment>, s: Segment)
    requires |merged| > 0 ==> merged[|merged| - 1].start <= s.start
    ensures AllSane(merged) && Sane(s) ==> AllSane(Merged(merged, s))
  {
  }

  lemma {:induction false} MergedSame(merged: seq<Segment>, before: seq<Segment>, s: Segment)
    requires Same(merged, before) && (|merged| > 0 ==> merged[|merged| - 1].start <= s.start)
    ensures Same(Merged(merged, s), before + [s])
  {
    forall a
      ensures Covers(Merged(merged, s), a) <==> Covers(before + [s], a)
    {
      MergedCovers(merged, s, a);
      CoversSnoc(before, s, a);
    }
  }

  lemma {:induction false} SpacedPushed(sorted: seq<Segment>, i: nat)
    requires Spaced(sorted) && Positive(sorted) && i < |sorted|
    ensures Merged(sorted[..i], sorted[i]) == sorted[..i + 1]
  {
    assert sorted[..i + 1] == sorted[..i] + [sorted[i]];
  }

  /**
    * The result covers the same addresses, and there is none exactly when every segment is empty. It is
    * normal unless a segment starts at the last address and none from below reaches it; two of those even
    * leave an empty segment. A spaced list of non-empty segments is its own result.
    */
  method NormalizeSegments(segs: seq<Segment>) returns (r: Option<seq<Segment>>)
    ensures r.None? <==> AllEmpty(segs)
    ensures r.Some? ==> r.value != [] && Spaced(r.value) && Same(r.value, segs)
    ensures r.Some? ==> (Normal(r.value) <==> TopReached(multiset(segs)) || !SomeAtTop(multiset(segs)))
    ensures r.Some? ==> (Positive(r.value) <==> TopReached(multiset(segs)) || !TwoAtTop(multiset(segs)))
    ensures r.Some? && AllSane(segs) ==> AllSane(r.value) && Normal(r.value)
    ensures Spaced(segs) && Positive(segs) && segs != [] ==> r == Some(segs)
  {
    if |segs| == 0 {
      return None;
    }
    var sorted := SortByStart(segs);
    Reordered(segs, sorted);
    if Spaced(segs) {
      SortedAlready(segs, sorted);
    }
    var merged := MergeAll(sorted);
    MergedMeans(merged, multiset(sorted));
    if AllSane(segs) {
      SaneBelowTop(segs);
    }
    return if merged == [] then None else Some(merged);
  }

  lemma {:induction false} SaneBelowTop(segs: seq<Segment>)
    requires AllSane(segs)
    ensures !SomeAtTop(multiset(segs))
  {
    forall s | s in multiset(segs)
      ensures !AtTop(s)
    {
      assert s in segs;
    }
  }

  /** Two segments at the last address merge into an empty one. */
  method MergedToNothing() returns (r: Option<seq<Segment>>)
    ensures r.Some? && !Positive(r.value) && forall a :: !Covers(r.value, a)
  {
    var segs := [Segment(TOP, 1), Segment(TOP, 1)];
    r := NormalizeSegments(segs);
    ghost var m := multiset(segs);
    assert segs[0].size > 0;
    assert Pair(m, segs[0], segs[1]);
    forall s | s in m
      ensures !ReachesTop(s)
    {
      assert s in segs;
    }
  }

  lemma {:induction false} EmptyOrCovers(segs: seq<Segment>)
    requires AllSane(segs)
    ensures AllEmpty(segs) <==> forall a :: !Covers(segs, a)
  {
    if !AllEmpty(segs) {
      var i :| 0 <= i < |segs| && segs[i].size > 0;
      assert In(segs[i], segs[i].start);
      assert Covers(segs, segs[i].start);
    }
  }

  /**
    * Two inputs whose ends do not saturate have equal normal forms if and only if they cover the same
    * addresses. Two normal lists are their own normal forms, so where one is not canonical the comparison
    * tells it from another with the same addresses.
    */
  method CompareNormalForms(x: seq<Segment>, y: seq<Segment>) returns (same: bool)
    ensures AllSane(x) && AllSane(y) ==> (same <==> Same(x, y))
    ensures Normal(x) && Normal(y) ==> (same <==> x == y)
  {
    var nx := NormalizeSegments(x);
    var ny := NormalizeSegments(y);
    same := nx == ny;
    if AllSane(x) && AllSane(y) {
      SaneForms(x, y, nx, ny);
    }
    NormalKept(x, nx);
    NormalKept(y, ny);
  }

  /** Every normal list that reaches the top has a partner: the same addresses, another normal form. */
  method SaturationNotCanonical(x: seq<Segment>) returns (same: bool)
    requires Normal(x) && |x| > 0 && x[|x| - 1].End() == TOP && x[|x| - 1].start > 0
    ensures Same(x, x[|x| - 1 := OtherSize(x[|x| - 1])]) && !same
  {
    OtherSizeSame(x);
    same := CompareNormalForms(x, x[|x| - 1 := OtherSize(x[|x| - 1])]);
  }

  lemma {:induction false} NormalKept(x: seq<Segment>, nx: Option<seq<Segment>>)
    requires Spaced(x) && Positive(x) && x != [] ==> nx == Some(x)
    requires nx.None? <==> AllEmpty(x)
    ensures Normal(x) ==> nx == if x == [] then None else Some(x)
  {
    assert Normal(x) && x != [] ==> x[0].size > 0;
  }

  lemma {:induction false} SaneForms(x: seq<Segment>, y: seq<Segment>, nx: Option<seq<Segment>>, ny: Option<seq<Segment>>)
    requires AllSane(x) && AllSane(y) && (nx.None? <==> AllEmpty(x)) && (ny.None? <==> AllEmpty(y))
    requires nx.Some? ==> Same(nx.value, x) && Normal(nx.value) && AllSane(nx.value)
    requires ny.Some? ==> Same(ny.value, y) && Normal(ny.value) && AllSane(ny.value)
    ensures nx == ny <==> Same(x, y)
  {
    EmptyOrCovers(x);
    EmptyOrCovers(y);
    if nx.Some? && ny.Some? {
      if Same(x, y) {
        SameTrans(nx.value, x, y);
        SameTrans(nx.value, y, ny.value);
        NormalUnique(nx.value, ny.value);
      }
      if nx == ny {
        SameTrans(x, nx.value, y);
      }
    }
  }

  lemma {:induction false} SameTrans(x: seq<Segment>, y: seq<Segment>, z: seq<Segment>)
    requires Same(x, y) && Same(y, z)
    ensures Same(x, z)
  {
    forall a
      ensures Covers(x, a) <==> Covers(z, a)
    {
      assert Covers(x, a) <==> Covers(y, a);
    }
  }

  // ---------------------------------------------------------------------------
  // Intersection
  // ---------------------------------------------------------------------------

  predicate Overlap(x: Segment, y: Segment, a: nat) {
    In(x, a) && In(y, a)
  }

  /** What the two remaining tails still have in common. */
  ghost predicate Both(l: seq<Segment>, i: nat, r: seq<Segment>, j: nat, a: nat)
    requires i <= |l| && j <= |r|
  {
    Covers(l[i..], a) && Covers(r[j..], a)
  }

  /** The segment that ends first meets nothing but the other current one. */
  lemma {:induction false} Advance(l: seq<Segment>, i: nat, r: seq<Segment>, j: nat, a: nat)
    requires Spaced(l) && Spaced(r) && i < |l| && j < |r| && l[i].End() <= r[j].End()
    ensures Both(l, i, r, j, a) <==> Overlap(l[i], r[j], a) || Both(l, i + 1, r, j, a)
    ensures Both(r, j, l, i, a) <==> Overlap(l[i], r[j], a) || Both(r, j, l, i + 1, a)
  {
    assert l[i..][1..] == l[i + 1..] && r[j..][1..] == r[j + 1..];
    CoversSplit(l[i..], a);
    CoversSplit(r[j..], a);
    if Covers(r[j + 1..], a) {
      var k :| 0 <= k < |r[j + 1..]| && In(r[j + 1..][k], a);
      assert r[j + 1..][k] == r[j + 1 + k];
      assert !In(l[i], a);
    }
  }

  /** The result so far is normal, lies below what is still to come, and is exactly what has been passed. */
  ghost predicate Below(result: seq<Segment>, l: seq<Segment>, i: nat, r: seq<Segment>, j: nat) {
    && Normal(result) && AllSane(result)
    && (|result| > 0 && i < |l| && j < |r| ==>
          var last := result[|result| - 1];
          last.End() < l[i].start || last.End() < r[j].start)
  }

  ghost predicate Passed(result: seq<Segment>, l: seq<Segment>, i: nat, r: seq<Segment>, j: nat)
    requires i <= |l| && j <= |r|
  {
    forall a {:trigger Covers(result, a)} ::
      (Covers(l, a) && Covers(r, a)) <==> Covers(result, a) || Both(l, i, r, j, a)
  }

  /** The common part of the current pair, if there is one. */
  function Meet(x: Segment, y: Segment): seq<Segment> {
    var start := if x.start >= y.start then x.start else y.start;
    var end := if x.End() <= y.End() then x.End() else y.End();
    if start < end then [Segment(start, end - start)] else []
  }

  lemma {:induction false} MeetCovers(x: Segment, y: Segment, result: seq<Segment>, a: nat)
    ensures Covers(result + Meet(x, y), a) <==> Covers(result, a) || Overlap(x, y, a)
  {
    if Meet(x, y) == [] {
      assert result + Meet(x, y) == result;
    } else {
      CoversSnoc(result, Meet(x, y)[0], a);
    }
  }

  lemma {:induction false} AdvanceBelow(result: seq<Segment>, l: seq<Segment>, i: nat, r: seq<Segment>, j: nat)
    requires Spaced(l) && Spaced(r) && i < |l| && j < |r| && Below(result, l, i, r, j)
    ensures l[i].End() <= r[j].End() ==> Below(result + Meet(l[i], r[j]), l, i + 1, r, j)
    ensures r[j].End() < l[i].End() ==> Below(result + Meet(l[i], r[j]), l, i, r, j + 1)
  {
    MetNormal(result, l[i], r[j]);
  }

  lemma {:induction false} MetNormal(result: seq<Segment>, x: Segment, y: Segment)
    requires Normal(result) && AllSane(result)
    requires |result| > 0 ==> result[|result| - 1].End() < x.start || result[|result| - 1].End() < y.start
    ensures Normal(result + Meet(x, y)) && AllSane(result + Meet(x, y))
  {
    if Meet(x, y) == [] {
      assert result + Meet(x, y) == result;
    }
  }

  lemma {:induction false} AdvancePassed(result: seq<Segment>, l: seq<Segment>, i: nat, r: seq<Segment>, j: nat)
    requires Spaced(l) && Spaced(r) && i < |l| && j < |r| && Passed(result, l, i, r, j)
    ensures l[i].End() <= r[j].End() ==> Passed(result + Meet(l[i], r[j]), l, i + 1, r, j)
    ensures r[j].End() < l[i].End() ==> Passed(result + Meet(l[i], r[j]), l, i, r, j + 1)
  {
    var now := result + Meet(l[i], r[j]);
    forall a
      ensures l[i].End() <= r[j].End() ==>
        ((Covers(l, a) && Covers(r, a)) <==> Covers(now, a) || Both(l, i + 1, r, j, a))
      ensures r[j].End() < l[i].End() ==>
        ((Covers(l, a) && Covers(r, a)) <==> Covers(now, a) || Both(l, i, r, j + 1, a))
    {
      assert Covers(result, a) || !Covers(result, a);
      MeetCovers(l[i], r[j], result, a);
      if l[i].End() <= r[j].End() {
        Advance(l, i, r, j, a);
      } else {
        Advance(r, j, l, i, a);
      }
    }
  }

  /** The two-pointer sweep over normal lists: normal again, and exactly the common addresses. */
  method Sweep(l: seq<Segment>, r: seq<Segment>) returns (result: seq<Segment>)
    requires Spaced(l) && Spaced(r)
    ensures Normal(result) && AllSane(result)
    ensures forall a {:trigger Covers(result, a)} {:trigger Covers(l, a)} ::
      Covers(result, a) <==> Covers(l, a) && Covers(r, a)
  {
    result := [];
    var i, j := 0, 0;
    assert l[0..] == l && r[0..] == r;
    while i < |l| && j < |r|
      invariant i <= |l| && j <= |r|
      invariant Below(result, l, i, r, j) && Passed(result, l, i, r, j)
      decreases |l| - i + |r| - j
    {
      AdvanceBelow(result, l, i, r, j);
      AdvancePassed(result, l, i, r, j);
      result := result + Meet(l[i], r[j]);
      if l[i].End() <= r[j].End() {
        i := i + 1;
      } else {
        j := j + 1;
      }
    }
    forall a
      ensures !Both(l, i, r, j, a)
    {
      assert |l[i..]| == 0 || |r[j..]| == 0;
    }
  }

  /** Normalising what the sweep produced changes nothing. */
  method IntersectSpaced(l: seq<Segment>, r: seq<Segment>) returns (out: Option<seq<Segment>>, ghost swept: seq<Segment>)
    requires Spaced(l) && Spaced(r)
    ensures Normal(swept) && AllSane(swept)
    ensures forall a {:trigger Covers(swept, a)} {:trigger Covers(l, a)} ::
      Covers(swept, a) <==> Covers(l, a) && Covers(r, a)
    ensures out == if swept == [] then None else Some(swept)
  {
    var result := Sweep(l, r);
    swept := result;
    out := NormalizeSegments(result);
  }

  lemma {:induction false} EmptyCoversNothing(segs: seq<Segment>)
    requires AllEmpty(segs)
    ensures forall a :: !Covers(segs, a)
  {
  }

  /** The set intersection in normal form, or nothing exactly when it is empty, whatever the segments. */
  method IntersectSegments(lhs: seq<Segment>, rhs: seq<Segment>) returns (out: Option<seq<Segment>>)
    ensures out.Some? ==> Normal(out.value) && AllSane(out.value)
    ensures forall a :: (Covers(lhs, a) && Covers(rhs, a)) <==> out.Some? && Covers(out.value, a)
    ensures out.None? <==> forall a :: !(Covers(lhs, a) && Covers(rhs, a))
  {
    var l := NormalizeSegments(lhs);
    if l.None? {
      EmptyCoversNothing(lhs);
      return None;
    }
    var r := NormalizeSegments(rhs);
    if r.None? {
      EmptyCoversNothing(rhs);
      return None;
    }
    ghost var swept;
    out, swept := IntersectSpaced(l.value, r.value);
    if out.Some? {
      ghost var a := out.value[0].start;
      assert In(out.value[0], a);
      assert Covers(out.value, a);
      assert Covers(lhs, a) && Covers(rhs, a);
    }
  }
}
