/** The page-table operations as they run: loops over the levels that read and write entries
    in place. Each method is proved against the function of the same operation. */
module PageEngine {
  import opened Outcomes
  import opened Arithmetic
  import opened PagingArch
  import opened PageWalk
  import opened PageMap
  import opened PageBatch
  import opened PageUnmap
  import opened PageCheck
  import opened PagePromote
  import opened PageOutcome

  class PageTables {
    const arch: Arch
    const root: nat
    var tables: Memory
    var supply: seq<Result<nat, MapError>>
    var freed: seq<nat>

    ghost predicate Valid()
      reads this
    {
      Lawful(arch) && Sound(arch, Snapshot(), root)
    }

    function Snapshot(): Store
      reads this
    {
      Store(tables, supply)
    }

    constructor (arch: Arch, root: nat, supply: seq<Result<nat, MapError>>)
      requires Lawful(arch)
      requires Fresh(map[root := Seat([], root)], supply)
      ensures Valid() && freed == [] && this.arch == arch && this.root == root && this.supply == supply
      ensures forall v :: Translate(arch, tables, root, v) == None
    {
      this.arch, this.root, this.supply := arch, root, supply;
      this.tables := map[root := ZeroTable(arch.entries)];
      this.freed := [];
      new;
      assert Seated(arch, Snapshot(), root, map[root := Seat([], root)]);
      forall v: nat ensures Translate(arch, tables, root, v) == None {
        assert PathOf(arch, v)[0] in PathOf(arch, v);
      }
    }

    /** The next call brings its own allocator; it may hand out whatever is not reachable. */
    method Restock(supply: seq<Result<nat, MapError>>)
      requires Valid()
      requires forall i :: 0 <= i < |supply| && supply[i].Ok? ==> !Reachable(arch, tables, root, supply[i].value)
      requires forall i, j :: 0 <= i < j < |supply| && supply[i].Ok? && supply[j].Ok? ==> supply[i].value != supply[j].value
      modifies this`supply
      ensures Valid() && this.supply == supply
    {
      UnreachableIsFresh(arch, Snapshot(), root, supply);
      this.supply := supply;
    }

    /** `find_leaf`. */
    method FindLeaf(v: nat) returns (r: Result<Hit, MapError>)
      requires Lawful(arch)
      ensures r == Find(tables, root, 0, PathOf(arch, v))
    {
      var t := root;
      ghost var path := PathOf(arch, v);
      for level := 0 to arch.levels
        invariant Find(tables, root, 0, path) == Find(tables, t, level, path)
      {
        var i := Index(arch, v, level);
        PathAt(arch, v, level);
        match Entry(tables, t, i) {
          case Invalid => return Err(NotMapped);
          case Leaf(p, f) => return Ok(Hit(level, t, i, Leaf(p, f)));
          case Table(p) => t := p;
        }
      }
      return Err(NotMapped);
    }

    /** The shared walk of the two mappers: down to the target level, allocating on the way. */
    method DescendTo(v: nat, target: nat) returns (r: Result<nat, MapError>)
      requires Valid() && target < arch.levels
      modifies this`tables, this`supply
      ensures (Snapshot(), r) == Descend(arch, old(Snapshot()), root, 0, target, PathOf(arch, v))
      ensures Valid()
    {
      var t := root;
      ghost var path := PathOf(arch, v);
      ghost var before := Snapshot();
      ghost var whole := Descend(arch, before, root, 0, target, path);
      for level := 0 to target
        invariant whole == Descend(arch, Snapshot(), t, level, target, path)
      {
        var i := Index(arch, v, level);
        PathAt(arch, v, level);
        match Entry(tables, t, i) {
          case Leaf(_, _) =>
            Kept(before, target, path);
            return Err(AlreadyMapped);
          case Table(p) => t := p;
          case Invalid =>
            if supply == [] {
              Kept(before, target, path);
              return Err(OutOfMemory);
            }
            var page := supply[0];
            supply := supply[1..];
            if page.Err? {
              Kept(before, target, path);
              return Err(page.error);
            }
            tables := tables[page.value := ZeroTable(arch.entries)];
            tables := Write(tables, t, i, Table(page.value));
            t := page.value;
        }
      }
      Kept(before, target, path);
      return Ok(t);
    }

    lemma {:induction false} Kept(before: Store, target: nat, path: Path)
      requires Lawful(arch) && Sound(arch, before, root) && target < arch.levels && IsPath(arch, path)
      ensures Sound(arch, Descend(arch, before, root, 0, target, path).0, root)
    {
      var seats :| Seated(arch, before, root, seats);
      var _ := Descended(arch, before, root, seats, root, target, path);
    }

    /** The shared last step of the two mappers: write the leaf into an empty slot. */
    method WriteLeaf(t: nat, v: nat, paddr: nat, target: nat, perm: Perm) returns (error: Option<MapError>)
      requires Lawful(arch) && target < arch.levels
      modifies this`tables
      ensures (Snapshot(), error) == PlaceLeaf(arch, old(Snapshot()), t, target, PathOf(arch, v), paddr, perm)
    {
      var i := Index(arch, v, target);
      PathAt(arch, v, target);
      if !Entry(tables, t, i).Invalid? { return Some(AlreadyMapped); }
      var flags := arch.leafFlags(target, paddr, perm);
      if flags.None? { return Some(InvalidPermission); }
      tables := Write(tables, t, i, Leaf(paddr, flags.value));
      return None;
    }

    /** `walk_and_map`. */
    method WalkAndMap(v: nat, paddr: nat, target: nat, perm: Perm) returns (error: Option<MapError>)
      requires Valid() && target < arch.levels
      modifies this`tables, this`supply
      ensures (Snapshot(), error) == WalkMap(arch, old(Snapshot()), root, PathOf(arch, v), target, paddr, perm)
      ensures Outcome(old(Snapshot()), root, PathOf(arch, v), target, arch.leafFlags(target, paddr, perm), Snapshot(), error)
      ensures Valid()
    {
      MapEffect(arch, Snapshot(), root, v, target, paddr, perm, v);
      MapOutcome(arch, Snapshot(), root, v, target, paddr, perm);
      var walk := DescendTo(v, target);
      if walk.Err? { return Some(walk.error); }
      error := WriteLeaf(walk.value, v, paddr, target, perm);
    }

    /** `walk_and_map_pages`. */
    method WalkAndMapPages(v: nat, paddrs: seq<nat>, target: nat, perm: Perm) returns (mapped: nat, error: Option<MapError>)
      requires Valid() && DividesWord(arch)
      modifies this`tables, this`supply
      ensures BatchResult(Snapshot(), mapped, error) == MapPages(arch, old(Snapshot()), root, v, paddrs, target, perm)
      ensures Valid()
    {
      if paddrs == [] { return 0, None; }
      var refused := Refused(arch, v, paddrs, target, perm);
      if refused.Some? { return 0, refused; }
      OnlyLastLevel(arch, target);
      mapped, error := MapRun(v, paddrs, target, perm);
    }

    /** Its loop: the upper levels are walked once per leaf table, and the table found is
        reused for every page it still holds. */
    method MapRun(v: nat, paddrs: seq<nat>, target: nat, perm: Perm) returns (mapped: nat, error: Option<MapError>)
      requires Valid() && DividesWord(arch) && target == arch.levels - 1 && Rem(v, arch.pageSize) == 0
      modifies this`tables, this`supply
      ensures BatchResult(Snapshot(), mapped, error) == Batch(arch, old(Snapshot()), root, v, paddrs, target, perm)
      ensures Valid()
    {
      var end := v + Times(|paddrs|, arch.pageSize);
      var cur: nat, leafTable: nat, leafEnd: nat := v, 0, v;
      ghost var base: nat, run, st := 0, [Snapshot()], Snapshot();
      mapped := 0;
      while mapped < |paddrs|
        invariant Valid() && RunAt(arch, root, v, paddrs, target, perm, run, st, Snapshot(), mapped, cur)
        invariant cur < leafEnd ==> Serves(arch, Snapshot(), root, base, cur, leafEnd, target, leafTable)
        decreases |paddrs| - mapped
      {
        ghost var now := Snapshot();
        PageAt(v, cur, mapped, |paddrs|, arch.pageSize);
        error, leafTable, leafEnd, base := MapOne(cur, end, paddrs[mapped], target, perm, leafTable, leafEnd, base);
        if error.Some? {
          RunStops(arch, root, v, paddrs, target, perm, run, st, now, mapped, cur, Snapshot(), error);
          return;
        }
        RunGrows(arch, root, v, paddrs, target, perm, run, st, now, mapped, cur, Snapshot());
        run := run + [Snapshot()];
        mapped := mapped + 1;
        cur := cur + arch.pageSize;
      }
      error := None;
      RunStops(arch, root, v, paddrs, target, perm, run, st, Snapshot(), mapped, cur, Snapshot(), error);
    }

    /** One round of the loop. */
    method MapOne(cur: nat, end: nat, paddr: nat, target: nat, perm: Perm, leafTable: nat, leafEnd: nat, ghost base: nat)
      returns (error: Option<MapError>, leafTable': nat, leafEnd': nat, ghost base': nat)
      requires Valid() && DividesWord(arch) && target == arch.levels - 1 && Rem(cur, arch.pageSize) == 0 && cur < end
      requires cur < leafEnd ==> Serves(arch, Snapshot(), root, base, cur, leafEnd, target, leafTable)
      modifies this`tables, this`supply
      ensures Valid()
      ensures (Snapshot(), error) == OnePage(arch, old(Snapshot()), root, cur, paddr, target, perm)
      ensures cur + arch.pageSize < leafEnd' ==> Serves(arch, Snapshot(), root, base', cur + arch.pageSize, leafEnd', target, leafTable')
    {
      error, leafTable', leafEnd', base' := None, leafTable, leafEnd, base;
      if cur >= leafEnd {
        error, leafTable', leafEnd', base' := EnterTable(cur, end, paddr, target, perm);
        if error.Some? { return; }
      }
      ServedPage(arch, Snapshot(), root, base', cur, leafEnd', target, leafTable', paddr, perm);
      error := WriteLeaf(leafTable', cur, paddr, target, perm);
    }

    /** Walking to the next leaf table. */
    method EnterTable(cur: nat, end: nat, ghost paddr: nat, target: nat, ghost perm: Perm)
      returns (error: Option<MapError>, leafTable: nat, leafEnd: nat, ghost base: nat)
      requires Valid() && DividesWord(arch) && target == arch.levels - 1 && Rem(cur, arch.pageSize) == 0 && cur < end
      modifies this`tables, this`supply
      ensures Valid()
      ensures error.Some? ==>
        (Snapshot(), error) == OnePage(arch, old(Snapshot()), root, cur, paddr, target, perm) && leafEnd == 0
      ensures error.None? ==>
        && OnePage(arch, Snapshot(), root, cur, paddr, target, perm) == OnePage(arch, old(Snapshot()), root, cur, paddr, target, perm)
        && Serves(arch, Snapshot(), root, base, cur, leafEnd, target, leafTable)
    {
      ghost var before := Snapshot();
      var walk := DescendTo(cur, target);
      EnteredTable(arch, before, root, cur, end, target, paddr, perm, Snapshot(), walk);
      if walk.Err? { return Some(walk.error), 0, 0, 0; }
      var tableEnd := LeafTableEnd(arch, cur, target);
      if tableEnd >= WORD { return Some(Misaligned), 0, 0, 0; }
      return None, walk.value, if tableEnd < end then tableEnd else end, tableEnd - Reach(arch, target);
    }

    /** `unmap_range_entries`. */
    method UnmapRangeEntries(v: nat, size: nat, clear: bool) returns (error: Option<MapError>)
      requires Valid()
      modifies this`tables
      ensures (tables, error) == UnmapRange(arch, old(tables), root, v, size, clear)
      ensures Valid()
    {
      UnmapKeepsSound(arch, Snapshot(), root, v, size, clear);
      if size == 0 || Rem(v, arch.pageSize) != 0 || Rem(size, arch.pageSize) != 0 || v + size >= WORD {
        return Some(Misaligned);
      }
      error := UnmapLeaves(v, v + size, clear);
    }

    /** Its loop, leaf by leaf. */
    method UnmapLeaves(v: nat, end: nat, clear: bool) returns (error: Option<MapError>)
      requires Lawful(arch)
      modifies this`tables
      ensures clear ==> (tables, error) == ClearRun(arch, old(tables), root, v, end)
      ensures !clear ==> tables == old(tables) && error == DryRun(arch, old(tables), root, v, end)
    {
      var cur := v;
      while cur < end
        invariant clear ==> ClearRun(arch, old(tables), root, v, end) == ClearRun(arch, tables, root, cur, end)
        invariant !clear ==> tables == old(tables) && DryRun(arch, tables, root, v, end) == DryRun(arch, tables, root, cur, end)
        decreases end - cur
      {
        var leaf := FindLeaf(cur);
        if leaf.Err? { return Some(leaf.error); }
        var h := leaf.value;
        if !arch.leafLevel(h.level) { return Some(UnsupportedLevel); }
        if !StepFits(arch, h.level, cur, end) { return Some(Misaligned); }
        var next := cur + Reach(arch, h.level + 1);
        assert LeafStep(arch, tables, root, cur, end) == Ok(h);
        if clear {
          var cleared := Clear(tables, h);
          ClearRunStep(arch, tables, root, cur, end, h, cleared, next);
          tables := cleared;
        } else {
          DryRunStep(arch, tables, root, cur, end, h, next);
        }
        cur := next;
      }
      return None;
    }

    /** `validate_range_permissions`. */
    method ValidateRangePermissions(v: nat, size: nat, need: Need) returns (error: Option<MapError>)
      requires Lawful(arch)
      ensures error == ValidateRange(arch, tables, root, v, size, need)
    {
      if size == 0 || !arch.canonical(v) { return Some(Misaligned); }
      var end := v + size;
      if end >= WORD || !arch.canonical(end - 1) { return Some(Misaligned); }
      var cur := v;
      while cur < end
        invariant v <= cur <= end
        invariant Check(arch, tables, root, v, end, need) == Check(arch, tables, root, cur, end, need)
        decreases end - cur
      {
        var leaf := FindLeaf(cur);
        if leaf.Err? { return Some(leaf.error); }
        var h := leaf.value;
        if !Grants(h.pte.flags, need) { return Some(InvalidPermission); }
        if !arch.leafLevel(h.level) { return Some(UnsupportedLevel); }
        var next := PageEnd(arch, cur, h.level);
        if next >= WORD { return Some(Misaligned); }
        ReachPositive(arch, h.level + 1);
        RoundDown(cur, Reach(arch, h.level + 1));
        cur := if next < end then next else end;
      }
      return None;
    }

    /** `page_table_subtree_is_empty`. */
    method SubtreeIsEmpty(t: nat, level: nat) returns (empty: bool)
      ensures empty == SubtreeEmpty(arch, tables, t, level)
      decreases arch.levels - level
    {
      if level >= arch.levels { return false; }
      for i := 0 to arch.entries
        invariant forall j :: 0 <= j < i ==>
          match Entry(tables, t, j)
          case Invalid => true
          case Leaf(_, _) => false
          case Table(p) => level + 1 < arch.levels && SubtreeEmpty(arch, tables, p, level + 1)
      {
        match Entry(tables, t, i) {
          case Invalid =>
          case Leaf(_, _) => return false;
          case Table(p) =>
            if level + 1 >= arch.levels { return false; }
            var below := SubtreeIsEmpty(p, level + 1);
            if !below { return false; }
        }
      }
      return true;
    }

    /** `reclaim_empty_page_table_subtree`; `accepts` answers `free_page`. */
    method Reclaim(t: nat, level: nat, accepts: nat -> bool) returns (failures: nat)
      modifies this`freed
      ensures freed == old(freed) + Subtree(arch, tables, t, level)
      ensures failures == Saturate(Refusals(Subtree(arch, tables, t, level), accepts))
      decreases arch.levels - level
    {
      ghost var done: seq<nat> := [];
      failures := 0;
      if level + 1 < arch.levels {
        ghost var all := Children(arch, tables, t, level, 0);
        for i := 0 to arch.entries
          invariant done + Children(arch, tables, t, level, i) == all
          invariant freed == old(freed) + done && failures == Saturate(Refusals(done, accepts))
        {
          ChildrenFrom(arch, tables, t, level, i, done, all);
          var e := Entry(tables, t, i);
          if e.Table? {
            ghost var below := Subtree(arch, tables, e.addr, level + 1);
            var more := Reclaim(e.addr, level + 1, accepts);
            RefusalsAdd(done, below, accepts);
            failures := Saturate(failures + more);
            Assoc(old(freed), done, below);
            done := done + below;
          }
        }
      }
      assert Subtree(arch, tables, t, level) == done + [t];
      RefusalsOne(done, t, accepts);
      Assoc(old(freed), done, [t]);
      freed := freed + [t];
      if !accepts(t) { failures := Saturate(failures + 1); }
    }

    /** `replace_empty_table_with_leaf`. */
    method ReplaceEmptyTableWithLeaf(v: nat, paddr: nat, target: nat, perm: Perm, accepts: nat -> bool) returns (r: Result<nat, MapError>)
      requires Valid()
      modifies this`tables, this`freed
      ensures Valid()
      ensures var p := Promote(arch, old(tables), root, v, target, paddr, perm, accepts);
        tables == p.mem && freed == old(freed) + p.freed && r == p.result
    {
      PromoteKeepsSound(arch, Snapshot(), root, v, target, paddr, perm, accepts);
      if target >= arch.levels || !arch.leafLevel(target) { return Err(UnsupportedLevel); }
      var pageSize := Reach(arch, target + 1);
      if Rem(v, pageSize) != 0 || Rem(paddr, pageSize) != 0 { return Err(Misaligned); }
      if !arch.validPerm(perm) { return Err(InvalidPermission); }
      var walk := WalkDownTo(v, target);
      if walk.Err? { return Err(walk.error); }
      PathAt(arch, v, target);
      r := PromoteSlotAt(walk.value, Index(arch, v, target), paddr, target, perm, accepts);
    }

    /** Its walk to the slot. */
    method WalkDownTo(v: nat, target: nat) returns (r: Result<nat, MapError>)
      requires Lawful(arch) && target < arch.levels
      ensures r == WalkDown(tables, root, 0, target, PathOf(arch, v))
    {
      var t := root;
      ghost var path := PathOf(arch, v);
      for level := 0 to target
        invariant WalkDown(tables, root, 0, target, path) == WalkDown(tables, t, level, target, path)
      {
        PathAt(arch, v, level);
        match Entry(tables, t, Index(arch, v, level)) {
          case Invalid => return Err(NotMapped);
          case Leaf(_, _) => return Err(AlreadyMapped);
          case Table(p) => t := p;
        }
      }
      return Ok(t);
    }

    /** Its work on the slot: cut the empty subtree off, free its pages, write the leaf. */
    method PromoteSlotAt(t: nat, i: nat, paddr: nat, target: nat, perm: Perm, accepts: nat -> bool) returns (r: Result<nat, MapError>)
      modifies this`tables, this`freed
      ensures var p := PromoteAt(arch, old(tables), Ok(t), i, target, paddr, perm, accepts);
        tables == p.mem && freed == old(freed) + p.freed && r == p.result
    {
      var e := Entry(tables, t, i);
      if e.Invalid? { return Err(NotMapped); }
      if e.Leaf? { return Err(AlreadyMapped); }
      var empty := SubtreeIsEmpty(e.addr, target + 1);
      if !empty { return Err(AlreadyMapped); }
      tables := Write(tables, t, i, Invalid);
      var failures := Reclaim(e.addr, target + 1, accepts);
      var flags := arch.leafFlags(target, paddr, perm);
      if flags.None? { return Err(InvalidPermission); }
      tables := Write(tables, t, i, Leaf(paddr, flags.value));
      return Ok(failures);
    }
  }
}
