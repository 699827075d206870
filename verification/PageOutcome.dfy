/** When `walk_and_map` succeeds, and with which error it fails, read off the memory, the path
    and the allocator's answers before the call. */
module PageOutcome {
  import opened Outcomes
  import opened PagingArch
  import opened PageWalk
  import opened PageMap
  import opened PagePromote
  import opened PageUnmap
  import opened PageCheck
  import opened Arithmetic

  /** The walk of the path meets a leaf at level `l`. */
  predicate LeafOn(mem: Memory, root: nat, path: Path, l: nat)
    requires l < |path|
  {
    var t := TableAt(mem, root, path[..l]);
    t.Some? && Entry(mem, t.value, path[l]).Leaf?
  }

  /** A larger page already covers the path. */
  ghost predicate LeafAbove(mem: Memory, root: nat, path: Path, target: nat)
    requires target <= |path|
  {
    exists l: nat :: l < target && LeafOn(mem, root, path, l)
  }

  /** How many of the tables on the path down to level `target` do not exist yet. */
  function Missing(mem: Memory, root: nat, path: Path, target: nat): nat
    requires target <= |path|
  {
    if target == 0 then 0
    else Missing(mem, root, path, target - 1) + if TableAt(mem, root, path[..target]).None? then 1 else 0
  }

  /** The slot the new leaf is meant for holds no valid entry, or does not exist yet. */
  predicate Free(mem: Memory, root: nat, path: Path, target: nat)
    requires target < |path|
  {
    var t := TableAt(mem, root, path[..target]);
    t.None? || Entry(mem, t.value, path[target]).Invalid?
  }

  /** The allocator grants the next `n` pages. */
  predicate Supplied(supply: seq<Result<nat, MapError>>, n: nat) {
    n <= |supply| && forall i :: 0 <= i < n ==> supply[i].Ok?
  }

  /** Of the next `n` pages the allocator grants the first `i` and answers `x` to the next call. */
  predicate FailsAt(supply: seq<Result<nat, MapError>>, n: nat, i: nat, x: MapError) {
    i < n && Supplied(supply, i) && if i < |supply| then supply[i] == Err(x) else x == OutOfMemory
  }

  function After(supply: seq<Result<nat, MapError>>, calls: nat): seq<Result<nat, MapError>> {
    if calls <= |supply| then supply[calls..] else []
  }

  /** An allocator that does not grant all pages fails at one call. */
  lemma {:induction false} SuppliedOrFails(supply: seq<Result<nat, MapError>>, n: nat)
    ensures Supplied(supply, n) <==> forall i: nat, x :: !FailsAt(supply, n, i, x)
  {
    if n > 0 && !Supplied(supply, n) {
      SuppliedOrFails(supply, n - 1);
      if Supplied(supply, n - 1) {
        var x := if n - 1 < |supply| then supply[n - 1].error else OutOfMemory;
        assert FailsAt(supply, n, n - 1, x);
      } else {
        var i: nat, x :| FailsAt(supply, n - 1, i, x);
        assert FailsAt(supply, n, i, x);
      }
    }
  }

  /** The walk to the target level ends as the memory and the allocator say. */
  ghost predicate Descends(st: Store, root: nat, path: Path, target: nat, s: Store, r: Result<nat, MapError>)
    requires target < |path|
  {
    var n := Missing(st.tables, root, path, target);
    && (LeafAbove(st.tables, root, path, target) ==> s == st && r == Err(AlreadyMapped))
    && (!LeafAbove(st.tables, root, path, target) ==>
          && (Supplied(st.supply, n) ==>
                && r.Ok? && s.supply == st.supply[n..]
                && (Entry(s.tables, r.value, path[target]).Invalid? <==> Free(st.tables, root, path, target)))
          && (forall i: nat, x :: FailsAt(st.supply, n, i, x) ==> r == Err(x) && s.supply == After(st.supply, i + 1)))
  }

  /** Mapping succeeds if and only if no larger page is in the way, the slot is free, every
      missing table can be allocated and the architecture encodes the leaf. The errors follow
      the same order, and the allocator is asked for missing tables only. */
  ghost predicate Outcome(st: Store, root: nat, path: Path, target: nat, flags: Option<Perm>, s: Store, e: Option<MapError>)
    requires target < |path|
  {
    var n := Missing(st.tables, root, path, target);
    && (LeafAbove(st.tables, root, path, target) ==> s == st && e == Some(AlreadyMapped))
    && (!LeafAbove(st.tables, root, path, target) ==>
          && (Supplied(st.supply, n) ==>
                && s.supply == st.supply[n..]
                && e == if !Free(st.tables, root, path, target) then Some(AlreadyMapped)
                        else if flags.None? then Some(InvalidPermission) else None)
          && (forall i: nat, x :: FailsAt(st.supply, n, i, x) ==> e == Some(x) && s.supply == After(st.supply, i + 1)))
  }

  /** Below an entry that is no table there are no tables. */
  lemma {:induction false} NothingBelow(mem: Memory, root: nat, path: Path, l: nat, m: nat)
    requires l < m <= |path| && TableAt(mem, root, path[..l + 1]).None?
    ensures TableAt(mem, root, path[..m]).None?
    decreases m
  {
    if l + 1 < m {
      NothingBelow(mem, root, path, l, m - 1);
      assert path[..m][..m - 1] == path[..m - 1];
    }
  }

  /** The tables of the path exist down to level `l` and no further. */
  lemma {:induction false} MissingBelow(mem: Memory, root: nat, path: Path, l: nat, target: nat)
    requires l < target <= |path| && Missing(mem, root, path, l) == 0 && TableAt(mem, root, path[..l + 1]).None?
    ensures Missing(mem, root, path, target) == target - l
    decreases target
  {
    NothingBelow(mem, root, path, l, target);
    if l + 1 < target { MissingBelow(mem, root, path, l, target - 1); }
  }

  lemma {:induction false} TableBelow(mem: Memory, root: nat, path: Path, l: nat, t: nat)
    requires l < |path| && TableAt(mem, root, path[..l]) == Some(t)
    ensures TableAt(mem, root, path[..l + 1]) ==
      if Entry(mem, t, path[l]).Table? then Some(Entry(mem, t, path[l]).addr) else None
  {
    assert path[..l + 1][..l] == path[..l];
  }

  /** From an invalid entry down every table is newly allocated, so the walk ends at an empty
      table or at the first page the allocator does not grant. */
  lemma {:induction false} AllNew(a: Arch, st: Store, t: nat, l: nat, target: nat, path: Path, n: nat)
    requires l < target < |path| && n == target - l && Entry(st.tables, t, path[l]).Invalid?
    requires Fresh(map[t := Seat([], t)], st.supply)
    ensures var (s, r) := Descend(a, st, t, l, target, path);
      && (Supplied(st.supply, n) ==>
            r.Ok? && s.supply == st.supply[n..] && Entry(s.tables, r.value, path[target]).Invalid?)
      && (forall i: nat, x :: FailsAt(st.supply, n, i, x) ==> r == Err(x) && s.supply == After(st.supply, i + 1))
    decreases target - l
  {
    if st.supply != [] && st.supply[0].Ok? {
      var p := st.supply[0].value;
      var st1 := Store(Link(a, st.tables, t, path[l], p), st.supply[1..]);
      assert forall j :: Entry(st1.tables, p, j).Invalid?;
      assert forall i :: 0 < i < |st.supply| ==> st.supply[i] == st1.supply[i - 1];
      if l + 1 < target { AllNew(a, st1, p, l + 1, target, path, n - 1); }
      var (s, r) := Descend(a, st1, p, l + 1, target, path);
      forall i: nat, x | FailsAt(st.supply, n, i, x) ensures r == Err(x) && s.supply == After(st.supply, i + 1) {
        assert i > 0;
        assert FailsAt(st1.supply, n - 1, i - 1, x);
      }
    } else {
      assert forall i: nat, x :: FailsAt(st.supply, n, i, x) ==> i == 0;
    }
  }

  lemma {:induction false} DescendOutcome(a: Arch, st: Store, root: nat, seats: Seats, t: nat, l: nat, target: nat, path: Path)
    requires Seated(a, st, root, seats) && IsPath(a, path) && l <= target < |path|
    requires TableAt(st.tables, root, path[..l]) == Some(t) && Missing(st.tables, root, path, l) == 0
    requires forall k: nat :: k < l ==> !LeafOn(st.tables, root, path, k)
    ensures var (s, r) := Descend(a, st, t, l, target, path); Descends(st, root, path, target, s, r)
    decreases target - l
  {
    if l < target {
      TableBelow(st.tables, root, path, l, t);
      match Entry(st.tables, t, path[l]) {
        case Leaf(_, _) => assert LeafOn(st.tables, root, path, l);
        case Table(p) => DescendOutcome(a, st, root, seats, p, l + 1, target, path);
        case Invalid => StopsHere(a, st, root, seats, t, l, target, path);
      }
    }
  }

  lemma {:induction false} StopsHere(a: Arch, st: Store, root: nat, seats: Seats, t: nat, l: nat, target: nat, path: Path)
    requires Seated(a, st, root, seats) && IsPath(a, path) && l < target < |path|
    requires TableAt(st.tables, root, path[..l]) == Some(t) && Missing(st.tables, root, path, l) == 0
    requires forall k: nat :: k < l ==> !LeafOn(st.tables, root, path, k)
    requires Entry(st.tables, t, path[l]).Invalid?
    ensures var (s, r) := Descend(a, st, t, l, target, path); Descends(st, root, path, target, s, r)
  {
    TableBelow(st.tables, root, path, l, t);
    MissingBelow(st.tables, root, path, l, target);
    NothingBelow(st.tables, root, path, l, target);
    forall k: nat | k < target ensures !LeafOn(st.tables, root, path, k) {
      if k > l { NothingBelow(st.tables, root, path, l, k); }
    }
    forall d | d in path[..l] ensures d in path { }
    TableAtSeated(a, st.tables, root, seats, path[..l]);
    AllNew(a, st, t, l, target, path, target - l);
  }

  /** `walk_and_map` succeeds and fails exactly as `Outcome` says. */
  lemma {:induction false} MapOutcome(a: Arch, st: Store, root: nat, v: nat, target: nat, paddr: nat, perm: Perm)
    requires Lawful(a) && Sound(a, st, root) && target < a.levels
    ensures var (s, e) := WalkMap(a, st, root, PathOf(a, v), target, paddr, perm);
      Outcome(st, root, PathOf(a, v), target, a.leafFlags(target, paddr, perm), s, e)
  {
    var seats :| Seated(a, st, root, seats);
    var path := PathOf(a, v);
    assert path[..0] == [];
    DescendOutcome(a, st, root, seats, root, 0, target, path);
    SuppliedOrFails(st.supply, Missing(st.tables, root, path, target));
  }

  // ---------------------------------------------------------------------------
  // Promotion
  // ---------------------------------------------------------------------------

  /** The walk through existing tables ends at the table of the path, or reports what stops it. */
  lemma {:induction false} WalkDownOutcome(mem: Memory, root: nat, path: Path, t: nat, l: nat, target: nat)
    requires l <= target <= |path| && TableAt(mem, root, path[..l]) == Some(t)
    requires forall k: nat :: k < l ==> !LeafOn(mem, root, path, k)
    ensures WalkDown(mem, t, l, target, path) ==
      match TableAt(mem, root, path[..target])
      case Some(u) => Ok(u)
      case None => Err(if LeafAbove(mem, root, path, target) then AlreadyMapped else NotMapped)
    ensures TableAt(mem, root, path[..target]).Some? ==> !LeafAbove(mem, root, path, target)
    decreases target - l
  {
    if l < target {
      TableBelow(mem, root, path, l, t);
      if Entry(mem, t, path[l]).Table? {
        WalkDownOutcome(mem, root, path, Entry(mem, t, path[l]).addr, l + 1, target);
      } else {
        NothingBelow(mem, root, path, l, target);
        StopsAt(mem, root, path, t, l, target);
      }
    }
  }

  lemma {:induction false} StopsAt(mem: Memory, root: nat, path: Path, t: nat, l: nat, target: nat)
    requires l < target <= |path| && TableAt(mem, root, path[..l]) == Some(t) && !Entry(mem, t, path[l]).Table?
    requires forall k: nat :: k < l ==> !LeafOn(mem, root, path, k)
    ensures LeafAbove(mem, root, path, target) <==> Entry(mem, t, path[l]).Leaf?
  {
    TableBelow(mem, root, path, l, t);
    if Entry(mem, t, path[l]).Leaf? {
      assert LeafOn(mem, root, path, l);
    } else {
      forall k: nat | k < target ensures !LeafOn(mem, root, path, k) {
        if k > l { NothingBelow(mem, root, path, l, k); }
      }
    }
  }

  /** Nothing is mapped through the slot, and no entry of the last level poses as a table. */
  ghost predicate Vacant(a: Arch, mem: Memory, root: nat, slot: Path) {
    forall w :: IsPath(a, w) && slot <= w ==> Find(mem, root, 0, w).Err? && TableAt(mem, root, w).None?
  }

  /** A walk goes through the table its prefix leads to. */
  lemma {:induction false} FindFrom(mem: Memory, root: nat, path: Path, l: nat)
    requires l <= |path| && TableAt(mem, root, path[..l]).Some?
    ensures Find(mem, root, 0, path) == Find(mem, TableAt(mem, root, path[..l]).value, l, path)
    decreases l
  {
    assert path[..0] == [];
    if l > 0 {
      assert path[..l][..l - 1] == path[..l - 1];
      FindFrom(mem, root, path, l - 1);
    }
  }

  lemma {:induction false} EmptyIsVacant(a: Arch, mem: Memory, root: nat, t: nat, l: nat, path: Path)
    requires SubtreeEmpty(a, mem, t, l) && IsPath(a, path) && TableAt(mem, root, path[..l]) == Some(t)
    ensures TableAt(mem, root, path).None?
    decreases a.levels - l
  {
    assert path[l] in path;
    assert path[..|path|] == path;
    TableBelow(mem, root, path, l, t);
    if Entry(mem, t, path[l]).Table? {
      EmptyIsVacant(a, mem, root, Entry(mem, t, path[l]).addr, l + 1, path);
    } else {
      NothingBelow(mem, root, path, l, |path|);
    }
  }

  /** A subtree that is not empty shows it on some path. */
  lemma {:induction false} Occupied(a: Arch, mem: Memory, root: nat, t: nat, l: nat, slot: Path) returns (w: Path)
    requires 0 < a.entries && |slot| == l <= a.levels && TableAt(mem, root, slot) == Some(t) && !SubtreeEmpty(a, mem, t, l)
    requires forall d :: d in slot ==> d < a.entries
    ensures IsPath(a, w) && slot <= w && (Find(mem, root, 0, w).Ok? || TableAt(mem, root, w).Some?)
    decreases a.levels - l
  {
    if l == a.levels {
      w := slot;
    } else {
      var i :| 0 <= i < a.entries && !(match Entry(mem, t, i)
        case Invalid => true
        case Leaf(_, _) => false
        case Table(p) => l + 1 < a.levels && SubtreeEmpty(a, mem, p, l + 1));
      var below := slot + [i];
      assert below[..l] == slot;
      if Entry(mem, t, i).Table? {
        w := Occupied(a, mem, root, Entry(mem, t, i).addr, l + 1, below);
        assert slot <= below <= w;
      } else {
        w := below + seq(a.levels - l - 1, k => 0);
        assert w[..l] == slot && w[l] == i;
        FindFrom(mem, root, w, l);
      }
    }
  }

  lemma {:induction false} EmptyMeans(a: Arch, mem: Memory, root: nat, t: nat, slot: Path)
    requires 0 < a.entries && |slot| <= a.levels && TableAt(mem, root, slot) == Some(t) && forall d :: d in slot ==> d < a.entries
    ensures SubtreeEmpty(a, mem, t, |slot|) <==> Vacant(a, mem, root, slot)
  {
    if SubtreeEmpty(a, mem, t, |slot|) {
      forall w | IsPath(a, w) && slot <= w ensures Find(mem, root, 0, w).Err? && TableAt(mem, root, w).None? {
        assert w[..|slot|] == slot;
        FindFrom(mem, root, w, |slot|);
        EmptyFindsNothing(a, mem, t, |slot|, w);
        EmptyIsVacant(a, mem, root, t, |slot|, w);
      }
    } else {
      var w := Occupied(a, mem, root, t, |slot|, slot);
    }
  }

  /** The entry checks of a promotion. */
  predicate Promotable(a: Arch, v: nat, target: nat, paddr: nat, perm: Perm) {
    && target < a.levels && a.leafLevel(target) && a.validPerm(perm)
    && Rem(v, Reach(a, target + 1)) == 0 && Rem(paddr, Reach(a, target + 1)) == 0
  }

  /** What a promotion does at the slot the walk has led to. */
  ghost predicate SlotDecides(a: Arch, mem: Memory, root: nat, path: Path, target: nat, encodes: bool, r: Result<nat, MapError>)
    requires target < |path|
  {
    var slot := path[..target + 1];
    if TableAt(mem, root, slot).None? then
      r == Err(if LeafAbove(mem, root, path, target + 1) then AlreadyMapped else NotMapped)
    else if !Vacant(a, mem, root, slot) then r == Err(AlreadyMapped)
    else if !encodes then r == Err(InvalidPermission)
    else r.Ok?
  }

  lemma {:induction false} SlotOutcome(
    a: Arch, mem: Memory, root: nat, path: Path, target: nat, slot: Path, paddr: nat, perm: Perm, accepts: nat -> bool,
    walk: Result<nat, MapError>, r: Result<nat, MapError>)
    requires IsPath(a, path) && target < |path| && slot == path[..target + 1]
    requires walk == match TableAt(mem, root, path[..target])
                     case Some(u) => Ok(u)
                     case None => Err(if LeafAbove(mem, root, path, target) then AlreadyMapped else NotMapped)
    requires walk.Ok? ==> !LeafAbove(mem, root, path, target)
    requires r == PromoteAt(a, mem, walk, path[target], target, paddr, perm, accepts).result
    ensures SlotDecides(a, mem, root, path, target, a.leafFlags(target, paddr, perm).Some?, r)
  {
    assert slot[..target] == path[..target] && slot[target] == path[target];
    if LeafAbove(mem, root, path, target) {
      var l: nat :| l < target && LeafOn(mem, root, path, l);
      assert l < target + 1;
    }
    if walk.Ok? {
      var e := Entry(mem, walk.value, path[target]);
      if e.Leaf? { assert LeafOn(mem, root, path, target); }
      if e.Table? {
        assert path[target] in path;
        forall d | d in slot ensures d < a.entries { assert d in path; }
        EmptyMeans(a, mem, root, e.addr, slot);
      }
    }
  }

  /** A promotion that passes its entry checks succeeds if and only if a table hangs in the slot,
      nothing is mapped through it and the architecture encodes the leaf; otherwise it reports
      the first of these that is missing. */
  lemma {:induction false} PromoteExact(a: Arch, mem: Memory, root: nat, v: nat, target: nat, paddr: nat, perm: Perm, accepts: nat -> bool)
    requires Lawful(a)
    ensures var path := PathOf(a, v);
      var r := Promote(a, mem, root, v, target, paddr, perm, accepts).result;
      && (!Promotable(a, v, target, paddr, perm) ==>
            r == Err(if !(target < a.levels && a.leafLevel(target)) then UnsupportedLevel
                     else if Rem(v, Reach(a, target + 1)) != 0 || Rem(paddr, Reach(a, target + 1)) != 0 then Misaligned
                     else InvalidPermission))
      && (Promotable(a, v, target, paddr, perm) ==>
            SlotDecides(a, mem, root, path, target, a.leafFlags(target, paddr, perm).Some?, r))
  {
    if Promotable(a, v, target, paddr, perm) {
      var path := PathOf(a, v);
      assert path[..0] == [];
      WalkDownOutcome(mem, root, path, root, 0, target);
      SlotOutcome(a, mem, root, path, target, path[..target + 1], paddr, perm, accepts,
                  WalkDown(mem, root, 0, target, path), Promote(a, mem, root, v, target, paddr, perm, accepts).result);
    }
  }

  // ---------------------------------------------------------------------------
  // Unmapping a range
  // ---------------------------------------------------------------------------

  /** `x` is mapped by a page of a supported size that lies inside the range. */
  ghost predicate Within(a: Arch, mem: Memory, root: nat, lo: nat, hi: nat, x: nat)
    requires Lawful(a)
  {
    var m := Translate(a, mem, root, x);
    && m.Some? && a.leafLevel(m.value.level)
    && lo + Reach(a, m.value.level + 1) <= PageEnd(a, x, m.value.level) <= hi
  }

  ghost predicate AllWithin(a: Arch, mem: Memory, root: nat, lo: nat, hi: nat)
    requires Lawful(a)
  {
    forall x :: lo <= x < hi ==> Within(a, mem, root, lo, hi, x)
  }

  function UnmapFault(a: Arch, mem: Memory, root: nat, x: nat): MapError
    requires Lawful(a)
  {
    match Translate(a, mem, root, x)
    case None => NotMapped
    case Some(m) => if !a.leafLevel(m.level) then UnsupportedLevel else Misaligned
  }

  /** `x` is the first address of the rest of the range that is not mapped by a page inside it. */
  ghost predicate FirstOutside(a: Arch, mem: Memory, root: nat, lo: nat, cur: nat, hi: nat, x: nat)
    requires Lawful(a)
  {
    cur <= x < hi && !Within(a, mem, root, lo, hi, x) && forall y :: cur <= y < x ==> Within(a, mem, root, lo, hi, y)
  }

  /** No page of `lo..cur` reaches past `cur`. */
  ghost predicate Boundary(a: Arch, mem: Memory, root: nat, lo: nat, cur: nat)
    requires Lawful(a)
  {
    forall y :: lo <= y < cur && Translate(a, mem, root, y).Some? ==>
      PageEnd(a, y, Translate(a, mem, root, y).value.level) <= cur
  }

  /** At a boundary, the loop accepts a page if and only if it lies inside the range. */
  lemma {:induction false} AtBoundary(a: Arch, mem: Memory, root: nat, lo: nat, cur: nat, end: nat)
    requires Lawful(a) && lo <= cur < end < WORD && Boundary(a, mem, root, lo, cur)
    ensures LeafStep(a, mem, root, cur, end).Ok? <==> Within(a, mem, root, lo, end, cur)
    ensures LeafStep(a, mem, root, cur, end).Err? ==> LeafStep(a, mem, root, cur, end) == Err(UnmapFault(a, mem, root, cur))
  {
    if Find(mem, root, 0, PathOf(a, cur)).Ok? {
      var h := Find(mem, root, 0, PathOf(a, cur)).value;
      var base := PageStart(a, cur, h.level);
      SharedLeaf(a, mem, root, base, cur, base, h);
      SharedEnd(a, base, base, h.level);
      assert Translate(a, mem, root, base) == Translate(a, mem, root, cur);
      assert base < lo || base == cur;
    }
  }

  /** Past an accepted page the loop is at a boundary again. */
  lemma {:induction false} NextBoundary(a: Arch, mem: Memory, root: nat, lo: nat, cur: nat, end: nat, h: Hit, next: nat)
    requires Lawful(a) && lo <= cur < end < WORD && Boundary(a, mem, root, lo, cur)
    requires LeafStep(a, mem, root, cur, end) == Ok(h) && next == cur + Reach(a, h.level + 1)
    ensures Boundary(a, mem, root, lo, next) && forall y :: cur <= y < next ==> Within(a, mem, root, lo, end, y)
  {
    assert PageEnd(a, cur, h.level) == next;
    forall y | cur <= y < next ensures Within(a, mem, root, lo, end, y) && PageEnd(a, y, h.level) == next && Translate(a, mem, root, y) == Translate(a, mem, root, cur) {
      PageShared(a, mem, root, cur, y, h);
    }
  }

  lemma {:induction false} DryRunOutcome(a: Arch, mem: Memory, root: nat, lo: nat, cur: nat, end: nat)
    requires Lawful(a) && lo <= cur <= end < WORD && Boundary(a, mem, root, lo, cur)
    ensures DryRun(a, mem, root, cur, end).None? <==> forall x :: cur <= x < end ==> Within(a, mem, root, lo, end, x)
    ensures forall x :: FirstOutside(a, mem, root, lo, cur, end, x) ==>
      DryRun(a, mem, root, cur, end) == Some(UnmapFault(a, mem, root, x))
    decreases end - cur
  {
    if cur < end {
      AtBoundary(a, mem, root, lo, cur, end);
      if LeafStep(a, mem, root, cur, end).Ok? {
        var h := LeafStep(a, mem, root, cur, end).value;
        var next := cur + Reach(a, h.level + 1);
        DryRunStep(a, mem, root, cur, end, h, next);
        NextBoundary(a, mem, root, lo, cur, end, h, next);
        DryRunOutcome(a, mem, root, lo, next, end);
        forall x | FirstOutside(a, mem, root, lo, cur, end, x) ensures FirstOutside(a, mem, root, lo, next, end, x) { }
      }
    }
  }

  /** A page that holds the point where the range starts over is a page already cleared. */
  lemma {:induction false} NoPageAcross(a: Arch, mem0: Memory, mem: Memory, root: nat, v: nat, cur: nat, h: Hit)
    requires Lawful(a) && v <= cur < v + Reach(a, 0) && Cleared(a, mem0, mem, root, v, cur)
    requires Find(mem, root, 0, PathOf(a, cur)) == Ok(h) && Rem(cur, Reach(a, h.level + 1)) == 0
    ensures cur + Reach(a, h.level + 1) <= v + Reach(a, 0)
  {
    var r, s := Reach(a, 0), Reach(a, h.level + 1);
    if v == cur {
      ReachWithin(a, h.level + 1);
    } else {
      assert Alias(a, v + r, v) && Alias(a, v, v);
      assert Covers(a, v, cur, v) && Translate(a, mem, root, v) == None;
      SpanCovers(a, cur, h.level, v);
      if SamePage(a, cur, v, h.level) { SameLeaf(mem, root, 0, PathOf(a, cur), PathOf(a, v)); }
    }
  }

  lemma {:induction false} ReachWithin(a: Arch, l: nat)
    requires Lawful(a) && l <= a.levels
    ensures Reach(a, l) <= Reach(a, 0)
  {
    if l > 0 {
      ReachWithin(a, l - 1);
      TimesLe(1, a.entries, Reach(a, l));
    }
  }

  /** Clearing a range longer than the translated space always fails. */
  lemma {:induction false} LongRun(a: Arch, mem0: Memory, mem: Memory, root: nat, seats: Seats, v: nat, cur: nat, end: nat)
    requires Lawful(a) && Placed(a, mem, root, seats) && v <= cur <= v + Reach(a, 0) < end && Cleared(a, mem0, mem, root, v, cur)
    ensures ClearRun(a, mem, root, cur, end).1.Some?
    decreases end - cur
  {
    if cur == v + Reach(a, 0) {
      WrapEnd(a, mem0, mem, root, v, cur, end);
    } else if LeafStep(a, mem, root, cur, end).Ok? {
      var h := LeafStep(a, mem, root, cur, end).value;
      var mem', next := Clear(mem, h), cur + Reach(a, h.level + 1);
      NoPageAcross(a, mem0, mem, root, v, cur, h);
      ClearRunStep(a, mem, root, cur, end, h, mem', next);
      ClearStep(a, mem0, mem, root, seats, v, cur);
      LongRun(a, mem0, mem', root, seats, v, next, end);
    }
  }

  /** An unmap that passes its entry checks is accepted if and only if every address of the range
      is mapped by a page of a supported size inside the range; the error is what is wrong with
      the first address that is not. */
  lemma {:induction false} UnmapExact(a: Arch, mem: Memory, root: nat, v: nat, size: nat)
    requires Lawful(a)
    ensures var e := UnmapRange(a, mem, root, v, size, false).1;
      if size == 0 || Rem(v, a.pageSize) != 0 || Rem(size, a.pageSize) != 0 || v + size >= WORD then e == Some(Misaligned)
      else
        && (e.None? <==> AllWithin(a, mem, root, v, v + size))
        && forall x :: FirstOutside(a, mem, root, v, v, v + size, x) ==> e == Some(UnmapFault(a, mem, root, x))
  {
    if v + size < WORD { DryRunOutcome(a, mem, root, v, v, v + size); }
  }

  /** Clearing as it goes, the loop accepts what the dry run accepts, but for ranges longer than
      the translated space, which it never accepts. */
  lemma {:induction false} ClearExact(a: Arch, mem: Memory, root: nat, v: nat, size: nat)
    requires Lawful(a) && Tree(a, mem, root)
    ensures UnmapRange(a, mem, root, v, size, true).1.None? <==>
      UnmapRange(a, mem, root, v, size, false).1.None? && size <= Reach(a, 0)
  {
    if size <= Reach(a, 0) {
      DryRunPredicts(a, mem, root, v, size, 0);
    } else {
      var seats :| Placed(a, mem, root, seats);
      NothingCovered(a, v);
      LongRun(a, mem, mem, root, seats, v, v, v + size);
    }
  }
}
