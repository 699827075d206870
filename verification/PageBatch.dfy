/** The batch mapper against page-by-page mapping. */
module PageBatch {
  import opened Outcomes
  import opened Arithmetic
  import opened PagingArch
  import opened PageWalk
  import opened PageMap

  datatype BatchResult = BatchResult(store: Store, mapped: nat, error: Option<MapError>)

  /** The reference: `walk_and_map` on consecutive pages, in order, until one fails. */
  function MapEach(a: Arch, st: Store, root: nat, v: nat, paddrs: seq<nat>, target: nat, perm: Perm): BatchResult
    requires Lawful(a) && target < a.levels
    decreases |paddrs|
  {
    if paddrs == [] then BatchResult(st, 0, None)
    else
      var (s, e) := WalkMap(a, st, root, PathOf(a, v), target, paddrs[0], perm);
      if e.Some? then BatchResult(s, 0, e)
      else Counted(MapEach(a, s, root, v + a.pageSize, paddrs[1..], target, perm))
  }

  function Counted(r: BatchResult): BatchResult {
    r.(mapped := r.mapped + 1)
  }

  /** First address of the last leaf table of the 64-bit space. */
  function TopTable(a: Arch): int {
    if a.levels == 0 then WORD else WORD - Reach(a, a.levels - 1)
  }

  /** What the batch does with a single page: as `walk_and_map`, except that in the last leaf
      table the end of the table does not fit a word, which it reports after the walk. */
  function OnePage(a: Arch, st: Store, root: nat, v: nat, paddr: nat, target: nat, perm: Perm): (Store, Option<MapError>)
    requires Lawful(a) && target < a.levels
  {
    if v >= TopTable(a) then
      var (s, r) := Descend(a, st, root, 0, target, PathOf(a, v));
      (s, Some(if r.Err? then r.error else Misaligned))
    else WalkMap(a, st, root, PathOf(a, v), target, paddr, perm)
  }

  /** What the batch loop computes. */
  function Batch(a: Arch, st: Store, root: nat, v: nat, paddrs: seq<nat>, target: nat, perm: Perm): BatchResult
    requires Lawful(a) && target < a.levels
    decreases |paddrs|
  {
    if paddrs == [] then BatchResult(st, 0, None)
    else
      var (s, e) := OnePage(a, st, root, v, paddrs[0], target, perm);
      if e.Some? then BatchResult(s, 0, e)
      else Counted(Batch(a, s, root, v + a.pageSize, paddrs[1..], target, perm))
  }

  /** The checks `walk_and_map_pages` makes before touching the tables. */
  function Refused(a: Arch, v: nat, paddrs: seq<nat>, target: nat, perm: Perm): Option<MapError>
    requires Lawful(a)
  {
    if target >= a.levels || !a.leafLevel(target) || Reach(a, target + 1) != a.pageSize then Some(UnsupportedLevel)
    else if !a.validPerm(perm) then Some(InvalidPermission)
    else if Rem(v, a.pageSize) != 0 then Some(Misaligned)
    else if Times(|paddrs|, a.pageSize) >= WORD || v + Times(|paddrs|, a.pageSize) >= WORD then Some(Misaligned)
    else if !a.canonical(v) || (v + Times(|paddrs|, a.pageSize) > 0 && !a.canonical(v + Times(|paddrs|, a.pageSize) - 1))
         || exists p :: p in paddrs && Rem(p, a.pageSize) != 0 then Some(Misaligned)
    else None
  }

  /** `walk_and_map_pages`. */
  function MapPages(a: Arch, st: Store, root: nat, v: nat, paddrs: seq<nat>, target: nat, perm: Perm): BatchResult
    requires Lawful(a)
  {
    if paddrs == [] then BatchResult(st, 0, None)
    else if Refused(a, v, paddrs, target, perm).Some? then BatchResult(st, 0, Refused(a, v, paddrs, target, perm))
    else Batch(a, st, root, v, paddrs, target, perm)
  }

  /** The run reaches the last leaf table with every page before it mapped, and walks to it. */
  predicate EntersTop(a: Arch, st: Store, root: nat, v: nat, paddrs: seq<nat>, target: nat, perm: Perm)
    requires Lawful(a) && target < a.levels
    decreases |paddrs|
  {
    paddrs != [] &&
    if v >= TopTable(a) then Descend(a, st, root, 0, target, PathOf(a, v)).1.Ok?
    else
      var (s, e) := WalkMap(a, st, root, PathOf(a, v), target, paddrs[0], perm);
      e.None? && EntersTop(a, s, root, v + a.pageSize, paddrs[1..], target, perm)
  }

  /** The batch ends in the same store, count and error as mapping page by page, if and only
      if it does not enter the last leaf table. */
  lemma {:induction false} BatchExact(a: Arch, st: Store, root: nat, v: nat, paddrs: seq<nat>, target: nat, perm: Perm)
    requires Lawful(a) && target < a.levels
    ensures Batch(a, st, root, v, paddrs, target, perm) == MapEach(a, st, root, v, paddrs, target, perm)
      <==> !EntersTop(a, st, root, v, paddrs, target, perm)
    decreases |paddrs|
  {
    if paddrs != [] && v < TopTable(a) {
      var (s, e) := WalkMap(a, st, root, PathOf(a, v), target, paddrs[0], perm);
      if e.None? { BatchExact(a, s, root, v + a.pageSize, paddrs[1..], target, perm); }
    }
  }

  /** Page number `k` of the run is the first in the last leaf table. */
  predicate FirstAtTop(a: Arch, v: nat, k: nat) {
    v + Times(k, a.pageSize) >= TopTable(a) && (k > 0 ==> v + Times(k - 1, a.pageSize) < TopTable(a))
  }

  /** The batch has mapped the first `k` pages as page by page, walked on for the next and given up. */
  ghost predicate Stopped(a: Arch, root: nat, next: nat, target: nat, below: BatchResult, r: BatchResult, k: nat)
    requires Lawful(a) && target < a.levels
  {
    && below.mapped == k && below.error == None
    && r == BatchResult(Descend(a, below.store, root, 0, target, PathOf(a, next)).0, k, Some(Misaligned))
  }

  /** A batch that enters the last leaf table has mapped exactly the pages below it, as page by page;
      it walks to that table, and then reports it as misaligned. */
  lemma {:induction false} StopsAtTop(a: Arch, st: Store, root: nat, v: nat, paddrs: seq<nat>, target: nat, perm: Perm) returns (k: nat)
    requires Lawful(a) && target < a.levels && EntersTop(a, st, root, v, paddrs, target, perm)
    ensures k < |paddrs| && FirstAtTop(a, v, k)
    ensures Stopped(a, root, v + Times(k, a.pageSize), target,
                    MapEach(a, st, root, v, paddrs[..k], target, perm), Batch(a, st, root, v, paddrs, target, perm), k)
    decreases |paddrs|
  {
    if v >= TopTable(a) {
      k := 0;
      StopsNow(a, st, root, v, paddrs, target, perm);
    } else {
      var s := EntersNext(a, st, root, v, paddrs, target, perm);
      var n := StopsAtTop(a, s, root, v + a.pageSize, paddrs[1..], target, perm);
      k := n + 1;
      NextAtTop(a, v, n);
      FirstMapped(a, st, root, v, paddrs, target, perm, n, s);
    }
  }

  lemma {:induction false} StopsNow(a: Arch, st: Store, root: nat, v: nat, paddrs: seq<nat>, target: nat, perm: Perm)
    requires Lawful(a) && target < a.levels && EntersTop(a, st, root, v, paddrs, target, perm) && v >= TopTable(a)
    ensures Stopped(a, root, v + Times(0, a.pageSize), target,
                    MapEach(a, st, root, v, paddrs[..0], target, perm), Batch(a, st, root, v, paddrs, target, perm), 0)
  {
    assert paddrs[..0] == [];
  }

  lemma {:induction false} EntersNext(a: Arch, st: Store, root: nat, v: nat, paddrs: seq<nat>, target: nat, perm: Perm) returns (s: Store)
    requires Lawful(a) && target < a.levels && EntersTop(a, st, root, v, paddrs, target, perm) && v < TopTable(a)
    ensures paddrs != [] && WalkMap(a, st, root, PathOf(a, v), target, paddrs[0], perm) == (s, None)
    ensures EntersTop(a, s, root, v + a.pageSize, paddrs[1..], target, perm)
  {
    s := WalkMap(a, st, root, PathOf(a, v), target, paddrs[0], perm).0;
  }

  lemma {:induction false} NextAtTop(a: Arch, v: nat, n: nat)
    requires v < TopTable(a) && FirstAtTop(a, v + a.pageSize, n)
    ensures FirstAtTop(a, v, n + 1) && v + Times(n + 1, a.pageSize) == v + a.pageSize + Times(n, a.pageSize)
  {
    assert n > 0 ==> Times(n, a.pageSize) == a.pageSize + Times(n - 1, a.pageSize);
  }

  lemma {:induction false} FirstMapped(
    a: Arch, st: Store, root: nat, v: nat, paddrs: seq<nat>, target: nat, perm: Perm, n: nat, s: Store)
    requires Lawful(a) && target < a.levels && n < |paddrs| && v < TopTable(a)
    requires WalkMap(a, st, root, PathOf(a, v), target, paddrs[0], perm) == (s, None)
    ensures MapEach(a, st, root, v, paddrs[..n + 1], target, perm) ==
      Counted(MapEach(a, s, root, v + a.pageSize, paddrs[1..][..n], target, perm))
    ensures Batch(a, st, root, v, paddrs, target, perm) ==
      Counted(Batch(a, s, root, v + a.pageSize, paddrs[1..], target, perm))
  {
    assert paddrs[..n + 1][0] == paddrs[0] && paddrs[..n + 1][1..] == paddrs[1..][..n];
  }

  lemma {:induction false} BelowTop(a: Arch, st: Store, root: nat, v: nat, paddrs: seq<nat>, target: nat, perm: Perm)
    requires Lawful(a) && target < a.levels && v + Times(|paddrs|, a.pageSize) <= TopTable(a)
    ensures !EntersTop(a, st, root, v, paddrs, target, perm)
    decreases |paddrs|
  {
    if paddrs != [] {
      var n := |paddrs| - 1;
      assert Times(n + 1, a.pageSize) == Times(n, a.pageSize) + a.pageSize;
      var (s, e) := WalkMap(a, st, root, PathOf(a, v), target, paddrs[0], perm);
      if e.None? { BelowTop(a, s, root, v + a.pageSize, paddrs[1..], target, perm); }
    }
  }

  /** Where mapping page by page succeeds, the batch differs from it exactly when its last page lies in
      the last leaf table of the 64-bit space. */
  lemma {:induction false} BatchStatic(a: Arch, st: Store, root: nat, v: nat, paddrs: seq<nat>, target: nat, perm: Perm)
    requires Lawful(a) && target < a.levels && paddrs != []
    requires MapEach(a, st, root, v, paddrs, target, perm).error.None?
    ensures Batch(a, st, root, v, paddrs, target, perm) == MapEach(a, st, root, v, paddrs, target, perm)
      <==> v + Times(|paddrs| - 1, a.pageSize) < TopTable(a)
  {
    BatchExact(a, st, root, v, paddrs, target, perm);
    EntersStatic(a, st, root, v, paddrs, target, perm);
  }

  lemma {:induction false} EntersStatic(a: Arch, st: Store, root: nat, v: nat, paddrs: seq<nat>, target: nat, perm: Perm)
    requires Lawful(a) && target < a.levels && paddrs != []
    requires MapEach(a, st, root, v, paddrs, target, perm).error.None?
    ensures EntersTop(a, st, root, v, paddrs, target, perm) <==> v + Times(|paddrs| - 1, a.pageSize) >= TopTable(a)
    decreases |paddrs|
  {
    if v < TopTable(a) && |paddrs| > 1 {
      Shift(v, |paddrs| - 2, a.pageSize);
      var (s, e) := WalkMap(a, st, root, PathOf(a, v), target, paddrs[0], perm);
      EntersStatic(a, s, root, v + a.pageSize, paddrs[1..], target, perm);
    } else if v < TopTable(a) {
      assert paddrs[1..] == [];
    }
  }

  /** Batch mapping refines page-by-page mapping: once its checks pass and the range stays
      below the last leaf table of the 64-bit space, it leaves the same tables and allocator,
      maps the same number of pages and returns the same first error. */
  lemma {:induction false} BatchRefines(a: Arch, st: Store, root: nat, v: nat, paddrs: seq<nat>, target: nat, perm: Perm)
    requires Lawful(a) && Refused(a, v, paddrs, target, perm).None?
    requires v + Times(|paddrs|, a.pageSize) <= TopTable(a)
    ensures MapPages(a, st, root, v, paddrs, target, perm) == MapEach(a, st, root, v, paddrs, target, perm)
  {
    BelowTop(a, st, root, v, paddrs, target, perm);
    BatchExact(a, st, root, v, paddrs, target, perm);
  }

  /** A base page size belongs to the last level only. */
  lemma {:induction false} OnlyLastLevel(a: Arch, level: nat)
    requires Lawful(a) && level < a.levels
    ensures Reach(a, level + 1) == a.pageSize <==> level == a.levels - 1
    ensures Reach(a, level + 1) >= a.pageSize
    decreases a.levels - level
  {
    if level + 1 < a.levels {
      OnlyLastLevel(a, level + 1);
      TimesLe(2, a.entries, Reach(a, level + 2));
    }
  }

  /** What `Refused` lets through: pages of the smallest size with valid rights, aligned and
      canonical throughout, ending below the top of the address space. */
  lemma {:induction false} RefusedMeans(a: Arch, v: nat, paddrs: seq<nat>, target: nat, perm: Perm)
    requires Lawful(a) && paddrs != []
    ensures Refused(a, v, paddrs, target, perm).None? <==>
      && target == a.levels - 1 && a.leafLevel(target) && a.validPerm(perm)
      && v + |paddrs| * a.pageSize < WORD && a.canonical(v) && a.canonical(v + |paddrs| * a.pageSize - 1)
      && v % a.pageSize == 0 && forall i :: 0 <= i < |paddrs| ==> paddrs[i] % a.pageSize == 0
    ensures Refused(a, v, paddrs, target, perm) == Some(UnsupportedLevel) <==> !(target == a.levels - 1 && a.leafLevel(target))
    ensures Refused(a, v, paddrs, target, perm) == Some(InvalidPermission) <==>
      target == a.levels - 1 && a.leafLevel(target) && !a.validPerm(perm)
  {
    if target < a.levels { OnlyLastLevel(a, target); }
    TimesIsMul(|paddrs|, a.pageSize);
    RemIsMod(v, a.pageSize);
    assert |paddrs| * a.pageSize >= 1;
    RefusedAligned(a, paddrs);
  }

  lemma {:induction false} RefusedAligned(a: Arch, paddrs: seq<nat>)
    requires Lawful(a)
    ensures (exists p :: p in paddrs && Rem(p, a.pageSize) != 0) <==> !forall i :: 0 <= i < |paddrs| ==> paddrs[i] % a.pageSize == 0
  {
    forall p | p in paddrs ensures Rem(p, a.pageSize) == p % a.pageSize { RemIsMod(p, a.pageSize); }
    forall i | 0 <= i < |paddrs| ensures paddrs[i] in paddrs { }
  }

  /** A walk to a table already seated on the path allocates nothing. */
  lemma {:induction false} DescendSeated(a: Arch, st: Store, root: nat, seats: Seats, t: nat, target: nat, path: Path)
    requires Placed(a, st.tables, root, seats) && OnPath(seats, t, path) && |seats[t].prefix| <= target <= |path|
    ensures Descend(a, st, root, 0, target, path) == Descend(a, st, t, |seats[t].prefix|, target, path)
    decreases |seats[t].prefix|
  {
    if t != root {
      assert Hung(st.tables, seats, t);
      DescendSeated(a, st, root, seats, seats[t].parent, target, path);
    }
  }

  /** `t` is the leaf table of the region that starts at `base`. */
  ghost predicate LeafTableAt(a: Arch, st: Store, root: nat, base: nat, target: nat, t: nat)
    requires Lawful(a) && target < a.levels
  {
    exists seats :: SeatedAt(a, st, root, seats, t, PathOf(a, base)[..target])
  }

  ghost predicate SeatedAt(a: Arch, st: Store, root: nat, seats: Seats, t: nat, prefix: Path) {
    Seated(a, st, root, seats) && t in seats && seats[t].prefix == prefix
  }

  ghost predicate InRegion(a: Arch, base: nat, cur: nat, target: nat)
    requires Lawful(a) && target < a.levels
  {
    Rem(base, Reach(a, target)) == 0 && base <= cur < base + Reach(a, target)
  }

  /** The table walked to is the leaf table of the region around `cur`. */
  lemma {:induction false} WalkedToLeafTable(a: Arch, st: Store, root: nat, base: nat, cur: nat, target: nat)
    requires Lawful(a) && target < a.levels && Sound(a, st, root) && InRegion(a, base, cur, target)
    requires Descend(a, st, root, 0, target, PathOf(a, cur)).1.Ok?
    ensures var (s, r) := Descend(a, st, root, 0, target, PathOf(a, cur));
      LeafTableAt(a, s, root, base, target, r.value)
  {
    var seats: Seats :| Seated(a, st, root, seats);
    var path := PathOf(a, cur);
    var (s, r) := Descend(a, st, root, 0, target, path);
    var seats' := Descended(a, st, root, seats, root, target, path);
    RegionPrefix(a, target, base, cur);
    assert seats'[r.value].prefix == path[..target];
    assert SeatedAt(a, s, root, seats', r.value, PathOf(a, base)[..target]);
  }

  /** Anywhere in that region the walk ends at the same table and changes nothing. */
  lemma {:induction false} LeafTableReused(a: Arch, st: Store, root: nat, base: nat, cur: nat, target: nat, t: nat)
    requires Lawful(a) && target < a.levels && InRegion(a, base, cur, target) && LeafTableAt(a, st, root, base, target, t)
    ensures Descend(a, st, root, 0, target, PathOf(a, cur)) == (st, Ok(t))
  {
    var seats: Seats :| SeatedAt(a, st, root, seats, t, PathOf(a, base)[..target]);
    RegionPrefix(a, target, base, cur);
    DescendSeated(a, st, root, seats, t, target, PathOf(a, cur));
  }

  /** Placing a leaf in the table leaves it where it is. */
  lemma {:induction false} LeafTableKept(a: Arch, st: Store, root: nat, base: nat, cur: nat, target: nat, t: nat, paddr: nat, perm: Perm)
    requires Lawful(a) && target < a.levels && InRegion(a, base, cur, target) && LeafTableAt(a, st, root, base, target, t)
    ensures var (s, e) := PlaceLeaf(a, st, t, target, PathOf(a, cur), paddr, perm);
      LeafTableAt(a, s, root, base, target, t) && Sound(a, s, root)
  {
    var seats: Seats :| SeatedAt(a, st, root, seats, t, PathOf(a, base)[..target]);
    RegionPrefix(a, target, base, cur);
    LeafPlaced(a, st, root, seats, t, PathOf(a, cur), paddr, perm, PathOf(a, cur));
    assert SeatedAt(a, PlaceLeaf(a, st, t, target, PathOf(a, cur), paddr, perm).0, root, seats, t, PathOf(a, base)[..target]);
  }

  /** The end of the leaf table of `cur`, as the batch loop computes it. */
  lemma {:induction false} TableEnd(a: Arch, cur: nat, target: nat)
    requires Lawful(a) && DividesWord(a) && target == a.levels - 1 && Rem(cur, a.pageSize) == 0
    ensures var end := LeafTableEnd(a, cur, target);
      var base := end - Reach(a, target);
      base >= 0 && InRegion(a, base, cur, target) && (end >= WORD <==> cur >= TopTable(a)) && (end < WORD ==> end <= TopTable(a))
  {
    var r := Reach(a, target);
    LeafOffset(a, cur);
    RoundDown(cur, r);
    var base := cur - Rem(cur, r);
    assert LeafTableEnd(a, cur, target) == base + r by {
      Euclid(Block(a, cur, target + 1), a.entries);
      TimesSplit(a.entries - Index(a, cur, target), Index(a, cur, target), a.pageSize);
    }
    WordMultiple(a, target);
    RemMultiple(1, r);
    RemSum(base, r, r);
    if base + r < WORD { NextMultiple(base + r, WORD, r); }
  }

  /** Where the leaf table of a page-aligned address ends: the entries left, in pages. */
  function LeafTableEnd(a: Arch, cur: nat, target: nat): (end: nat)
    requires Lawful(a)
    ensures Index(a, cur, target) < a.entries
    ensures end == cur + Times(a.entries - Index(a, cur, target), a.pageSize)
  {
    Euclid(Block(a, cur, target + 1), a.entries);
    cur + Times(a.entries - Index(a, cur, target), a.pageSize)
  }

  lemma {:induction false} PageAt(v: nat, cur: nat, m: nat, n: nat, p: nat)
    requires p > 0 && m < n && cur == v + Times(m, p) && Rem(v, p) == 0
    ensures cur < v + Times(n, p) && cur + p == v + Times(m + 1, p) && Rem(cur, p) == 0
  {
    TimesLe(m + 1, n, p);
    RemMultiple(m, p);
    RemSum(v, Times(m, p), p);
  }

  /** Step `i` of a run maps one page, below the top, as `walk_and_map` does. */
  ghost predicate StepOf(a: Arch, root: nat, v: nat, paddrs: seq<nat>, target: nat, perm: Perm, run: seq<Store>, i: nat)
    requires Lawful(a) && target < a.levels && i + 1 < |run| <= |paddrs| + 1
  {
    OnePage(a, run[i], root, v + Times(i, a.pageSize), paddrs[i], target, perm) == (run[i + 1], None)
  }

  /** The stores of a run that has mapped its first pages one by one. */
  ghost predicate IsRun(a: Arch, root: nat, v: nat, paddrs: seq<nat>, target: nat, perm: Perm, run: seq<Store>)
    requires Lawful(a) && target < a.levels
  {
    && 1 <= |run| <= |paddrs| + 1
    && forall i {:trigger StepOf(a, root, v, paddrs, target, perm, run, i)} ::
         0 <= i < |run| - 1 ==> StepOf(a, root, v, paddrs, target, perm, run, i)
  }

  function Skip(n: nat, r: BatchResult): BatchResult {
    BatchResult(r.store, n + r.mapped, r.error)
  }

  /** After such a run, what is left of the batch starts from its last store. */
  lemma {:induction false} RunOfBatch(a: Arch, root: nat, v: nat, paddrs: seq<nat>, target: nat, perm: Perm, run: seq<Store>, cur: nat)
    requires Lawful(a) && target < a.levels && IsRun(a, root, v, paddrs, target, perm, run)
    requires cur == v + Times(|run| - 1, a.pageSize)
    ensures var k := |run| - 1;
      Batch(a, run[0], root, v, paddrs, target, perm) == Skip(k, Batch(a, run[k], root, cur, paddrs[k..], target, perm))
    decreases |run|
  {
    var k := |run| - 1;
    if k == 0 {
      assert paddrs[0..] == paddrs;
    } else {
      var before := v + Times(k - 1, a.pageSize);
      ShorterRun(a, root, v, paddrs, target, perm, run, run[..k]);
      RunOfBatch(a, root, v, paddrs, target, perm, run[..k], before);
      Shift(v, k - 1, a.pageSize);
      LastOfRun(a, root, v, paddrs, target, perm, run, before, cur);
    }
  }

  lemma {:induction false} ShorterRun(
    a: Arch, root: nat, v: nat, paddrs: seq<nat>, target: nat, perm: Perm, run: seq<Store>, less: seq<Store>)
    requires Lawful(a) && target < a.levels && IsRun(a, root, v, paddrs, target, perm, run)
    requires 1 <= |less| <= |run| && less == run[..|less|]
    ensures IsRun(a, root, v, paddrs, target, perm, less)
  {
    forall i | 0 <= i < |less| - 1
      ensures StepOf(a, root, v, paddrs, target, perm, less, i)
    {
      assert StepOf(a, root, v, paddrs, target, perm, run, i);
    }
  }

  lemma {:induction false} LastOfRun(
    a: Arch, root: nat, v: nat, paddrs: seq<nat>, target: nat, perm: Perm, run: seq<Store>, before: nat, cur: nat)
    requires Lawful(a) && target < a.levels && IsRun(a, root, v, paddrs, target, perm, run) && |run| > 1
    requires before == v + Times(|run| - 2, a.pageSize) && cur == before + a.pageSize
    ensures var k := |run| - 1;
      Batch(a, run[k - 1], root, before, paddrs[k - 1..], target, perm) == Skip(1, Batch(a, run[k], root, cur, paddrs[k..], target, perm))
  {
    var k := |run| - 1;
    assert StepOf(a, root, v, paddrs, target, perm, run, k - 1);
    assert paddrs[k - 1..][1..] == paddrs[k..];
    BatchOnce(a, run[k - 1], root, before, paddrs[k - 1..], target, perm, run[k], cur, paddrs[k..]);
  }

  lemma {:induction false} BatchOnce(a: Arch, st: Store, root: nat, v: nat, paddrs: seq<nat>, target: nat, perm: Perm, next: Store, v': nat, rest: seq<nat>)
    requires Lawful(a) && target < a.levels && paddrs != [] && v' == v + a.pageSize && rest == paddrs[1..]
    requires OnePage(a, st, root, v, paddrs[0], target, perm) == (next, None)
    ensures Batch(a, st, root, v, paddrs, target, perm) == Skip(1, Batch(a, next, root, v', rest, target, perm))
  {
  }

  lemma {:induction false} Shift(v: nat, i: nat, p: nat)
    ensures v + p + Times(i, p) == v + Times(i + 1, p)
  {
  }

  lemma {:induction false} ExtendRun(a: Arch, root: nat, v: nat, paddrs: seq<nat>, target: nat, perm: Perm, run: seq<Store>, cur: nat, next: Store)
    requires Lawful(a) && target < a.levels && IsRun(a, root, v, paddrs, target, perm, run) && |run| <= |paddrs|
    requires cur == v + Times(|run| - 1, a.pageSize)
    requires OnePage(a, run[|run| - 1], root, cur, paddrs[|run| - 1], target, perm) == (next, None)
    ensures IsRun(a, root, v, paddrs, target, perm, run + [next])
  {
    forall i | 0 <= i < |run + [next]| - 1 ensures StepOf(a, root, v, paddrs, target, perm, run + [next], i) {
      if i < |run| - 1 { assert StepOf(a, root, v, paddrs, target, perm, run, i); }
    }
  }

  /** How a run ends: with all pages mapped, with the error of the next page, or at the top. */
  lemma {:induction false} RunEnds(a: Arch, root: nat, v: nat, paddrs: seq<nat>, target: nat, perm: Perm, run: seq<Store>, cur: nat, st: Store, error: Option<MapError>)
    requires Lawful(a) && target < a.levels && IsRun(a, root, v, paddrs, target, perm, run)
    requires cur == v + Times(|run| - 1, a.pageSize)
    requires if |run| == |paddrs| + 1 then error == None && st == run[|run| - 1]
             else error.Some? && OnePage(a, run[|run| - 1], root, cur, paddrs[|run| - 1], target, perm) == (st, error)
    ensures Batch(a, run[0], root, v, paddrs, target, perm) == BatchResult(st, |run| - 1, error)
  {
    var k := |run| - 1;
    RunOfBatch(a, root, v, paddrs, target, perm, run, cur);
    if k < |paddrs| { assert paddrs[k..][0] == paddrs[k]; }
  }

  /** A run from `st` that has mapped `mapped` pages and stands at `cur` with `now`. */
  ghost predicate RunAt(
    a: Arch, root: nat, v: nat, paddrs: seq<nat>, target: nat, perm: Perm, run: seq<Store>, st: Store, now: Store, mapped: nat, cur: nat)
    requires Lawful(a) && target < a.levels
  {
    && mapped <= |paddrs| && |run| == mapped + 1 && run[0] == st && run[mapped] == now
    && cur == v + Times(mapped, a.pageSize) && IsRun(a, root, v, paddrs, target, perm, run)
  }

  lemma {:induction false} RunGrows(
    a: Arch, root: nat, v: nat, paddrs: seq<nat>, target: nat, perm: Perm, run: seq<Store>, st: Store, now: Store, mapped: nat, cur: nat,
    next: Store)
    requires Lawful(a) && target < a.levels && RunAt(a, root, v, paddrs, target, perm, run, st, now, mapped, cur)
    requires mapped < |paddrs| && OnePage(a, now, root, cur, paddrs[mapped], target, perm) == (next, None)
    ensures RunAt(a, root, v, paddrs, target, perm, run + [next], st, next, mapped + 1, cur + a.pageSize)
  {
    ExtendRun(a, root, v, paddrs, target, perm, run, cur, next);
    Shift(v, mapped, a.pageSize);
  }

  lemma {:induction false} RunStops(
    a: Arch, root: nat, v: nat, paddrs: seq<nat>, target: nat, perm: Perm, run: seq<Store>, st: Store, now: Store, mapped: nat, cur: nat,
    next: Store, error: Option<MapError>)
    requires Lawful(a) && target < a.levels && RunAt(a, root, v, paddrs, target, perm, run, st, now, mapped, cur)
    requires if mapped == |paddrs| then error == None && next == now
             else error.Some? && OnePage(a, now, root, cur, paddrs[mapped], target, perm) == (next, error)
    ensures Batch(a, st, root, v, paddrs, target, perm) == BatchResult(next, mapped, error)
  {
    RunEnds(a, root, v, paddrs, target, perm, run, cur, next, error);
  }

  /** The cached leaf table `t` serves every address from `cur` to `leafEnd`. */
  ghost predicate Serves(a: Arch, st: Store, root: nat, base: nat, cur: nat, leafEnd: nat, target: nat, t: nat)
    requires Lawful(a) && target < a.levels
  {
    && InRegion(a, base, cur, target) && leafEnd <= base + Reach(a, target) && cur < leafEnd <= TopTable(a)
    && LeafTableAt(a, st, root, base, target, t)
  }

  /** One page with a serving table: placing the leaf is all `walk_and_map` would do, and the
      table goes on serving the rest of its region. */
  lemma {:induction false} ServedPage(a: Arch, st: Store, root: nat, base: nat, cur: nat, leafEnd: nat, target: nat, t: nat, paddr: nat, perm: Perm)
    requires Lawful(a) && target < a.levels && Serves(a, st, root, base, cur, leafEnd, target, t)
    ensures var (s, e) := PlaceLeaf(a, st, t, target, PathOf(a, cur), paddr, perm);
      && Sound(a, s, root)
      && (cur + a.pageSize < leafEnd ==> Serves(a, s, root, base, cur + a.pageSize, leafEnd, target, t))
      && OnePage(a, st, root, cur, paddr, target, perm) == (s, e)
  {
    LeafTableReused(a, st, root, base, cur, target, t);
    LeafTableKept(a, st, root, base, cur, target, t, paddr, perm);
  }

  /** Entering a new leaf table: the walk fails, or the table is the top one, or it serves. */
  lemma {:induction false} EnteredTable(
    a: Arch, st: Store, root: nat, cur: nat, end: nat, target: nat, paddr: nat, perm: Perm, s: Store, r: Result<nat, MapError>)
    requires Lawful(a) && DividesWord(a) && target == a.levels - 1 && Sound(a, st, root) && Rem(cur, a.pageSize) == 0 && cur < end
    requires Descend(a, st, root, 0, target, PathOf(a, cur)) == (s, r)
    ensures LeafTableEnd(a, cur, target) >= Reach(a, target)
    ensures r.Err? ==> OnePage(a, st, root, cur, paddr, target, perm) == (s, Some(r.error))
    ensures r.Ok? && LeafTableEnd(a, cur, target) >= WORD ==>
      OnePage(a, st, root, cur, paddr, target, perm) == (s, Some(Misaligned))
    ensures r.Ok? && LeafTableEnd(a, cur, target) < WORD ==>
      var tableEnd := LeafTableEnd(a, cur, target);
      && OnePage(a, st, root, cur, paddr, target, perm) == OnePage(a, s, root, cur, paddr, target, perm)
      && Serves(a, s, root, tableEnd - Reach(a, target), cur, if tableEnd < end then tableEnd else end, target, r.value)
  {
    TableEnd(a, cur, target);
    if r.Ok? && LeafTableEnd(a, cur, target) < WORD {
      var base := LeafTableEnd(a, cur, target) - Reach(a, target);
      WalkedToLeafTable(a, st, root, base, cur, target);
      LeafTableReused(a, s, root, base, cur, target, r.value);
    }
  }
}
