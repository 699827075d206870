/** Unmapping a range: the dry run predicts the real run as long as the range does not wrap
    around the translated space, and unmapping undoes mapping. */
module PageUnmap {
  import opened Outcomes
  import opened Arithmetic
  import opened PagingArch
  import opened PageWalk
  import opened PageMap

  ghost predicate Tree(a: Arch, mem: Memory, root: nat) {
    exists seats :: Placed(a, mem, root, seats)
  }

  /** One round of the loop of `unmap_range_entries`: the leaf that covers `cur`, if it starts
      there and ends inside the range. */
  function LeafStep(a: Arch, mem: Memory, root: nat, cur: nat, end: nat): (r: Result<Hit, MapError>)
    requires Lawful(a)
    ensures r.Ok? ==> r == Find(mem, root, 0, PathOf(a, cur)) && StepFits(a, r.value.level, cur, end)
  {
    match Find(mem, root, 0, PathOf(a, cur))
    case Err(e) => Err(e)
    case Ok(h) =>
      if !a.leafLevel(h.level) then Err(UnsupportedLevel)
      else if !StepFits(a, h.level, cur, end) then Err(Misaligned)
      else Ok(h)
  }

  predicate StepFits(a: Arch, level: nat, cur: nat, end: nat)
    requires Lawful(a)
  {
    var size := Reach(a, level + 1);
    size > 0 && cur + size < WORD && Rem(cur, size) == 0 && cur + size <= end
  }

  /** The loop of `unmap_range_entries` from `cur` without `clear`: its error, if any. */
  function DryRun(a: Arch, mem: Memory, root: nat, cur: nat, end: nat): Option<MapError>
    requires Lawful(a)
    decreases end - cur
  {
    if cur >= end then None
    else
      match LeafStep(a, mem, root, cur, end)
      case Err(e) => Some(e)
      case Ok(h) => DryRun(a, mem, root, cur + Reach(a, h.level + 1), end)
  }

  /** The same loop with `clear`: also the memory it leaves. */
  function ClearRun(a: Arch, mem: Memory, root: nat, cur: nat, end: nat): (Memory, Option<MapError>)
    requires Lawful(a)
    decreases end - cur
  {
    if cur >= end then (mem, None)
    else
      match LeafStep(a, mem, root, cur, end)
      case Err(e) => (mem, Some(e))
      case Ok(h) => ClearRun(a, Clear(mem, h), root, cur + Reach(a, h.level + 1), end)
  }

  function Clear(mem: Memory, h: Hit): Memory {
    Write(mem, h.table, h.index, Invalid)
  }

  lemma {:induction false} ClearRunStep(a: Arch, mem: Memory, root: nat, cur: nat, end: nat, h: Hit, mem': Memory, next: nat)
    requires Lawful(a) && cur < end && LeafStep(a, mem, root, cur, end) == Ok(h)
    requires mem' == Clear(mem, h) && next == cur + Reach(a, h.level + 1)
    ensures ClearRun(a, mem, root, cur, end) == ClearRun(a, mem', root, next, end) && cur < next <= end
  {
  }

  lemma {:induction false} DryRunStep(a: Arch, mem: Memory, root: nat, cur: nat, end: nat, h: Hit, next: nat)
    requires Lawful(a) && cur < end && LeafStep(a, mem, root, cur, end) == Ok(h) && next == cur + Reach(a, h.level + 1)
    ensures DryRun(a, mem, root, cur, end) == DryRun(a, mem, root, next, end) && cur < next <= end
  {
  }

  /** `unmap_range_entries`. */
  function UnmapRange(a: Arch, mem: Memory, root: nat, v: nat, size: nat, clear: bool): (Memory, Option<MapError>)
    requires Lawful(a)
  {
    if size == 0 || Rem(v, a.pageSize) != 0 || Rem(size, a.pageSize) != 0 then (mem, Some(Misaligned))
    else if v + size >= WORD then (mem, Some(Misaligned))
    else if clear then ClearRun(a, mem, root, v, v + size)
    else (mem, DryRun(a, mem, root, v, v + size))
  }

  /** Some address of `lo..hi` translates through the same entries as `w`. */
  ghost predicate Covers(a: Arch, lo: nat, hi: nat, w: nat)
    requires Lawful(a)
  {
    exists x :: lo <= x < hi && Alias(a, x, w)
  }

  /** A leaf found by a walk sits in a seated table on the path. */
  lemma {:induction false} FoundSeated(a: Arch, mem: Memory, root: nat, seats: Seats, t: nat, path: Path)
    requires Placed(a, mem, root, seats) && OnPath(seats, t, path) && IsPath(a, path)
    requires Find(mem, t, |seats[t].prefix|, path).Ok?
    ensures var h := Find(mem, t, |seats[t].prefix|, path).value;
      && h.table in seats && seats[h.table].prefix == path[..h.level]
      && Entry(mem, h.table, h.index) == h.pte
    decreases |path| - |seats[t].prefix|
  {
    var l := |seats[t].prefix|;
    assert path[l] in path;
    if Entry(mem, t, path[l]).Table? {
      assert Links(a, mem, root, seats, t, path[l]);
      FoundSeated(a, mem, root, seats, Entry(mem, t, path[l]).addr, path);
    }
  }

  lemma {:induction false} ClearKeepsTree(a: Arch, mem: Memory, root: nat, seats: Seats, cur: nat)
    requires Lawful(a) && Placed(a, mem, root, seats)
    requires Find(mem, root, 0, PathOf(a, cur)).Ok?
    ensures var h := Find(mem, root, 0, PathOf(a, cur)).value;
      Placed(a, Clear(mem, h), root, seats)
  {
    ClearEffect(a, mem, root, seats, cur, cur);
  }

  /** Clearing the leaf that covers `cur` unmaps exactly that page. */
  lemma {:induction false} ClearEffect(a: Arch, mem: Memory, root: nat, seats: Seats, cur: nat, w: nat)
    requires Lawful(a) && Placed(a, mem, root, seats)
    requires Find(mem, root, 0, PathOf(a, cur)).Ok?
    ensures var h := Find(mem, root, 0, PathOf(a, cur)).value;
      var mem' := Clear(mem, h);
      && Placed(a, mem', root, seats)
      && Translate(a, mem', root, w) ==
           if SamePage(a, cur, w, h.level) then None else Translate(a, mem, root, w)
  {
    var path := PathOf(a, cur);
    var h := Find(mem, root, 0, path).value;
    FoundSeated(a, mem, root, seats, root, path);
    assert h.index in path;
    WriteKeepsTree(a, mem, root, seats, h.table, h.index, Invalid);
    WriteEffect(a, mem, root, seats, h.table, h.index, Invalid, PathOf(a, w));
    assert seats[h.table].prefix + [h.index] == path[..h.level + 1];
  }

  /** Addresses of one leaf page share the leaf. */
  lemma {:induction false} SameLeaf(mem: Memory, t: nat, level: nat, p: Path, q: Path)
    requires |p| == |q| && Find(mem, t, level, p).Ok?
    requires p[..Find(mem, t, level, p).value.level + 1] == q[..Find(mem, t, level, p).value.level + 1]
    ensures Find(mem, t, level, q) == Find(mem, t, level, p)
    decreases |p| - level
  {
    var h := Find(mem, t, level, p).value;
    assert p[level] == p[..h.level + 1][level] == q[level];
    if Entry(mem, t, p[level]).Table? {
      SameLeaf(mem, Entry(mem, t, p[level]).addr, level + 1, p, q);
    }
  }

  /** The page of an aligned address is what its byte range covers. */
  lemma {:induction false} SpanCovers(a: Arch, cur: nat, level: nat, w: nat)
    requires Lawful(a) && level < a.levels
    requires Rem(cur, Reach(a, level + 1)) == 0
    ensures SamePage(a, cur, w, level) <==> Covers(a, cur, cur + Reach(a, level + 1), w)
  {
    var r, s := Reach(a, 0), Reach(a, level + 1);
    SpanPrefix(a, cur, level + 1, w);
    if SamePage(a, cur, w, level) {
      var d := Rem(w, r) - Rem(cur, r);
      RemAdd(cur, d, r);
      assert Alias(a, cur + d, w);
    }
    if Covers(a, cur, cur + s, w) {
      var x :| cur <= x < cur + s && Alias(a, x, w);
      RemAdd(cur, x - cur, r);
    }
  }

  lemma {:induction false} CoversJoin(a: Arch, lo: nat, mid: nat, hi: nat, w: nat)
    requires Lawful(a) && lo <= mid <= hi
    ensures Covers(a, lo, hi, w) <==> Covers(a, lo, mid, w) || Covers(a, mid, hi, w)
  {
    if Covers(a, lo, mid, w) {
      var x :| lo <= x < mid && Alias(a, x, w);
      assert lo <= x < hi && Alias(a, x, w);
    }
    if Covers(a, mid, hi, w) {
      var x :| mid <= x < hi && Alias(a, x, w);
      assert lo <= x < hi && Alias(a, x, w);
    }
  }

  lemma {:induction false} NotYetCovered(a: Arch, v: nat, cur: nat)
    requires Lawful(a) && v <= cur < v + Reach(a, 0)
    ensures !Covers(a, v, cur, cur)
  {
    forall x | v <= x < cur ensures !Alias(a, x, cur) {
      RemApart(x, cur, Reach(a, 0));
    }
  }

  /** `mem` is `mem0` with exactly the range `lo..hi` unmapped. */
  ghost predicate Cleared(a: Arch, mem0: Memory, mem: Memory, root: nat, lo: nat, hi: nat)
    requires Lawful(a)
  {
    forall w :: Translate(a, mem, root, w) == if Covers(a, lo, hi, w) then None else Translate(a, mem0, root, w)
  }

  lemma {:induction false} ClearStep(a: Arch, mem0: Memory, mem: Memory, root: nat, seats: Seats, v: nat, cur: nat)
    requires Lawful(a) && Placed(a, mem, root, seats) && v <= cur
    requires Cleared(a, mem0, mem, root, v, cur)
    requires Find(mem, root, 0, PathOf(a, cur)).Ok?
    requires var s := Reach(a, Find(mem, root, 0, PathOf(a, cur)).value.level + 1); Rem(cur, s) == 0
    ensures var h := Find(mem, root, 0, PathOf(a, cur)).value;
      var mem' := Clear(mem, h);
      && Placed(a, mem', root, seats)
      && Cleared(a, mem0, mem', root, v, cur + Reach(a, h.level + 1))
  {
    var h := Find(mem, root, 0, PathOf(a, cur)).value;
    var mem', next := Clear(mem, h), cur + Reach(a, h.level + 1);
    ClearKeepsTree(a, mem, root, seats, cur);
    forall w: nat
      ensures Translate(a, mem', root, w) == if Covers(a, v, next, w) then None else Translate(a, mem0, root, w)
    {
      ClearStepAt(a, mem0, mem, root, seats, v, cur, h, mem', next, w);
    }
  }

  lemma {:induction false} ClearStepAt(
    a: Arch, mem0: Memory, mem: Memory, root: nat, seats: Seats, v: nat, cur: nat, h: Hit, mem': Memory, next: nat, w: nat)
    requires Lawful(a) && Placed(a, mem, root, seats) && v <= cur && Cleared(a, mem0, mem, root, v, cur)
    requires Find(mem, root, 0, PathOf(a, cur)) == Ok(h) && mem' == Clear(mem, h)
    requires Rem(cur, Reach(a, h.level + 1)) == 0 && next == cur + Reach(a, h.level + 1)
    ensures Translate(a, mem', root, w) == if Covers(a, v, next, w) then None else Translate(a, mem0, root, w)
  {
    ClearEffect(a, mem, root, seats, cur, w);
    SpanCovers(a, cur, h.level, w);
    CoversJoin(a, v, cur, next, w);
  }

  /** Before wrapping around, the memory being cleared still shows the original leaf at `cur`. */
  lemma {:induction false} SameStep(a: Arch, mem0: Memory, mem: Memory, root: nat, v: nat, cur: nat, end: nat)
    requires Lawful(a) && v <= cur < v + Reach(a, 0) && Cleared(a, mem0, mem, root, v, cur)
    ensures match (LeafStep(a, mem, root, cur, end), LeafStep(a, mem0, root, cur, end))
            case (Err(e), Err(e0)) => e == e0
            case (Ok(h), Ok(h0)) => h.level == h0.level
            case _ => false
  {
    NotYetCovered(a, v, cur);
    assert Translate(a, mem, root, cur) == Translate(a, mem0, root, cur);
  }

  /** A range no longer than the translated space: the real run returns what the dry run
      returns, and on success unmaps exactly the range. */
  lemma {:induction false} RealRun(a: Arch, mem0: Memory, mem: Memory, root: nat, seats: Seats, v: nat, cur: nat, end: nat)
    requires Lawful(a) && Placed(a, mem, root, seats)
    requires v <= cur <= end <= v + Reach(a, 0) && Cleared(a, mem0, mem, root, v, cur)
    ensures var (m, e) := ClearRun(a, mem, root, cur, end);
      && e == DryRun(a, mem0, root, cur, end)
      && (e.None? ==> Cleared(a, mem0, m, root, v, end))
    decreases end - cur
  {
    if cur < end {
      SameStep(a, mem0, mem, root, v, cur, end);
      match LeafStep(a, mem, root, cur, end) {
        case Err(_) =>
        case Ok(h) =>
          var mem', next := Clear(mem, h), cur + Reach(a, h.level + 1);
          ClearRunStep(a, mem, root, cur, end, h, mem', next);
          DryRunStep(a, mem0, root, cur, end, LeafStep(a, mem0, root, cur, end).value, next);
          ClearStep(a, mem0, mem, root, seats, v, cur);
          RealRun(a, mem0, mem', root, seats, v, next, end);
      }
    }
  }

  /** Any unmap, of any range, keeps the tree. */
  lemma {:induction false} ClearRunKeepsTree(a: Arch, mem: Memory, root: nat, seats: Seats, cur: nat, end: nat)
    requires Lawful(a) && Placed(a, mem, root, seats)
    ensures Placed(a, ClearRun(a, mem, root, cur, end).0, root, seats)
    decreases end - cur
  {
    if cur < end {
      match LeafStep(a, mem, root, cur, end) {
        case Err(_) =>
        case Ok(h) =>
          var mem', next := Clear(mem, h), cur + Reach(a, h.level + 1);
          ClearKeepsTree(a, mem, root, seats, cur);
          ClearRunStep(a, mem, root, cur, end, h, mem', next);
          ClearRunKeepsTree(a, mem', root, seats, next, end);
      }
    }
  }

  /** If the dry run accepts a range no longer than the translated space, so does the real run,
      which then unmaps every address of the range and leaves every other address its leaf;
      and if the dry run rejects the range, the real run returns the same error. */
  lemma {:induction false} DryRunPredicts(a: Arch, mem: Memory, root: nat, v: nat, size: nat, w: nat)
    requires Lawful(a) && Tree(a, mem, root) && size <= Reach(a, 0)
    ensures var (m, e) := UnmapRange(a, mem, root, v, size, true);
      && Tree(a, m, root)
      && UnmapRange(a, mem, root, v, size, false) == (mem, e)
      && (e.None? ==>
            Translate(a, m, root, w) == if Covers(a, v, v + size, w) then None else Translate(a, mem, root, w))
  {
    var seats :| Placed(a, mem, root, seats);
    NothingCovered(a, v);
    RealRun(a, mem, mem, root, seats, v, v, v + size);
    ClearRunKeepsTree(a, mem, root, seats, v, v + size);
  }

  /** A page boundary of the dry run falls on the point where the range starts over. */
  lemma {:induction false} WrapBoundary(a: Arch, mem0: Memory, root: nat, v: nat, cur: nat, level: nat)
    requires Lawful(a) && v <= cur < v + Reach(a, 0)
    requires Find(mem0, root, 0, PathOf(a, cur)).Ok? && level == Find(mem0, root, 0, PathOf(a, cur)).value.level
    requires Find(mem0, root, 0, PathOf(a, v)).Ok?
    requires var s := Reach(a, Find(mem0, root, 0, PathOf(a, v)).value.level + 1); Rem(v, s) == 0
    requires Rem(cur, Reach(a, level + 1)) == 0
    ensures cur + Reach(a, level + 1) <= v + Reach(a, 0)
  {
    var r, s := Reach(a, 0), Reach(a, level + 1);
    if cur + s > v + r {
      assert Alias(a, v + r, v);
      SpanCovers(a, cur, level, v);
      SameLeaf(mem0, root, 0, PathOf(a, cur), PathOf(a, v));
      ReachMultiple(a, level + 1);
      RemMultiple(Blocks(a, level + 1), s);
      RemSum(v, r, s);
      NextMultiple(cur, v + r, s);
    }
  }

  /** A step accepted for one range is accepted for any other range its page fits in. */
  lemma {:induction false} LeafStepFits(a: Arch, mem: Memory, root: nat, cur: nat, end: nat, end': nat, h: Hit)
    requires Lawful(a) && LeafStep(a, mem, root, cur, end) == Ok(h) && cur + Reach(a, h.level + 1) <= end'
    ensures LeafStep(a, mem, root, cur, end') == Ok(h)
  {
  }

  lemma {:induction false} TurnStep(a: Arch, mem: Memory, root: nat, v: nat, cur: nat, mid: nat, end: nat) returns (next: nat)
    requires Lawful(a) && v <= cur < mid < end && mid == v + Reach(a, 0)
    requires LeafStep(a, mem, root, v, end).Ok? && LeafStep(a, mem, root, cur, end).Ok?
    ensures cur < next <= mid && DryRun(a, mem, root, cur, end) == DryRun(a, mem, root, next, end)
    ensures DryRun(a, mem, root, cur, mid) == DryRun(a, mem, root, next, mid)
  {
    var h := LeafStep(a, mem, root, cur, end).value;
    next := cur + Reach(a, h.level + 1);
    WrapBoundary(a, mem, root, v, cur, h.level);
    LeafStepFits(a, mem, root, cur, end, mid, h);
    DryRunStep(a, mem, root, cur, end, h, next);
    DryRunStep(a, mem, root, cur, mid, h, next);
  }

  /** The dry run of a range that wraps around accepts its first turn on its own. */
  lemma {:induction false} FirstTurn(a: Arch, mem: Memory, root: nat, v: nat, cur: nat, mid: nat, end: nat)
    requires Lawful(a) && v <= cur <= mid < end && mid == v + Reach(a, 0)
    requires LeafStep(a, mem, root, v, end).Ok? && DryRun(a, mem, root, cur, end).None?
    ensures DryRun(a, mem, root, cur, mid).None?
    decreases end - cur
  {
    if cur < mid {
      var next := TurnStep(a, mem, root, v, cur, mid, end);
      FirstTurn(a, mem, root, v, next, mid, end);
    }
  }

  /** A real run goes through the end of any range it would have cleared on its own. */
  lemma {:induction false} ClearRunSplits(a: Arch, mem: Memory, root: nat, cur: nat, mid: nat, end: nat, half: Memory)
    requires Lawful(a) && cur <= mid <= end && ClearRun(a, mem, root, cur, mid) == (half, None)
    ensures ClearRun(a, mem, root, cur, end) == ClearRun(a, half, root, mid, end)
    decreases mid - cur
  {
    if cur < mid {
      var h := LeafStep(a, mem, root, cur, mid).value;
      LeafStepFits(a, mem, root, cur, mid, end, h);
      var mem', next := Clear(mem, h), cur + Reach(a, h.level + 1);
      ClearRunStep(a, mem, root, cur, mid, h, mem', next);
      ClearRunStep(a, mem, root, cur, end, h, mem', next);
      ClearRunSplits(a, mem', root, next, mid, end, half);
    }
  }

  /** Back at the start of the range, the page is gone. */
  lemma {:induction false} WrapEnd(a: Arch, mem0: Memory, mem: Memory, root: nat, v: nat, mid: nat, end: nat)
    requires Lawful(a) && mid == v + Reach(a, 0) < end && Cleared(a, mem0, mem, root, v, mid)
    ensures ClearRun(a, mem, root, mid, end) == (mem, Some(NotMapped))
  {
    assert Alias(a, v, mid);
    assert Covers(a, v, mid, mid);
    assert Translate(a, mem, root, mid) == None;
  }

  /** The first turn succeeds and leaves nothing of the whole space, so the second one fails at once. */
  lemma {:induction false} TurnedBack(a: Arch, mem: Memory, root: nat, seats: Seats, v: nat, mid: nat, end: nat) returns (turned: Memory)
    requires Lawful(a) && Placed(a, mem, root, seats) && mid == v + Reach(a, 0) < end && DryRun(a, mem, root, v, mid).None?
    ensures ClearRun(a, mem, root, v, mid) == (turned, None) && ClearRun(a, turned, root, mid, end) == (turned, Some(NotMapped))
  {
    NothingCovered(a, v);
    RealRun(a, mem, mem, root, seats, v, v, mid);
    turned := ClearRun(a, mem, root, v, mid).0;
    WrapEnd(a, mem, turned, root, v, mid, end);
  }

  lemma {:induction false} FirstLeaf(a: Arch, mem: Memory, root: nat, v: nat, end: nat)
    requires Lawful(a) && v < end && DryRun(a, mem, root, v, end).None?
    ensures LeafStep(a, mem, root, v, end).Ok?
  {
  }

  lemma {:induction false} WrapRun(a: Arch, mem: Memory, root: nat, seats: Seats, v: nat, end: nat)
    requires Lawful(a) && Placed(a, mem, root, seats) && v + Reach(a, 0) < end && DryRun(a, mem, root, v, end).None?
    ensures ClearRun(a, mem, root, v, end).1 == Some(NotMapped)
  {
    var mid := v + Reach(a, 0);
    FirstLeaf(a, mem, root, v, end);
    FirstTurn(a, mem, root, v, v, mid, end);
    var turned := TurnedBack(a, mem, root, seats, v, mid, end);
    ClearRunSplits(a, mem, root, v, mid, end, turned);
  }

  lemma {:induction false} NothingCovered(a: Arch, v: nat)
    requires Lawful(a)
    ensures forall x :: !Covers(a, v, v, x)
  {
  }

  /** The exact condition: an accepted dry run is followed by a successful real run if and only
      if the range is no longer than the translated space. A longer range comes back to pages
      it has already cleared. */
  lemma {:induction false} DryRunExact(a: Arch, mem: Memory, root: nat, v: nat, size: nat)
    requires Lawful(a) && Tree(a, mem, root)
    requires UnmapRange(a, mem, root, v, size, false).1.None?
    ensures UnmapRange(a, mem, root, v, size, true).1.None? <==> size <= Reach(a, 0)
  {
    if size <= Reach(a, 0) {
      DryRunPredicts(a, mem, root, v, size, 0);
    } else {
      var seats :| Placed(a, mem, root, seats);
      WrapRun(a, mem, root, seats, v, v + size);
    }
  }

  lemma {:induction false} UnmapOne(a: Arch, mem: Memory, root: nat, v: nat, level: nat)
    requires Lawful(a) && level < a.levels && a.leafLevel(level)
    requires Rem(v, Reach(a, level + 1)) == 0 && v + Reach(a, level + 1) < WORD
    requires Find(mem, root, 0, PathOf(a, v)).Ok? && Find(mem, root, 0, PathOf(a, v)).value.level == level
    ensures var h := Find(mem, root, 0, PathOf(a, v)).value;
      UnmapRange(a, mem, root, v, Reach(a, level + 1), true) == (Clear(mem, h), None)
  {
    var h := Find(mem, root, 0, PathOf(a, v)).value;
    var next := v + Reach(a, level + 1);
    ReachPositive(a, level + 1);
    PageAligned(a, v, level + 1);
    PageAligned(a, Reach(a, level + 1), level + 1);
    assert ClearRun(a, Clear(mem, h), root, next, next) == (Clear(mem, h), None);
  }

  lemma {:induction false} UnmapKeepsSound(a: Arch, st: Store, root: nat, v: nat, size: nat, clear: bool)
    requires Lawful(a) && Sound(a, st, root)
    ensures Sound(a, st.(tables := UnmapRange(a, st.tables, root, v, size, clear).0), root)
  {
    var seats: Seats :| Seated(a, st, root, seats);
    ClearRunKeepsTree(a, st.tables, root, seats, v, v + size);
    assert Seated(a, st.(tables := UnmapRange(a, st.tables, root, v, size, clear).0), root, seats);
  }

  /** Mapping an aligned page and unmapping it again restores every translation. */
  lemma {:induction false} MapUnmap(a: Arch, st: Store, root: nat, v: nat, target: nat, paddr: nat, perm: Perm, w: nat)
    requires Lawful(a) && Sound(a, st, root) && target < a.levels
    requires Rem(v, Reach(a, target + 1)) == 0 && v + Reach(a, target + 1) < WORD
    requires WalkMap(a, st, root, PathOf(a, v), target, paddr, perm).1.None?
    ensures var s := WalkMap(a, st, root, PathOf(a, v), target, paddr, perm).0;
      var (m, e) := UnmapRange(a, s.tables, root, v, Reach(a, target + 1), true);
      e == None && Translate(a, m, root, w) == Translate(a, st.tables, root, w)
  {
    var s := WalkMap(a, st, root, PathOf(a, v), target, paddr, perm).0;
    MapEffect(a, st, root, v, target, paddr, perm, w);
    MapEffect(a, st, root, v, target, paddr, perm, v);
    var seats :| Seated(a, s, root, seats);
    ClearEffect(a, s.tables, root, seats, v, w);
    UnmapOne(a, s.tables, root, v, target);
  }
}
