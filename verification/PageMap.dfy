/** Mapping: `walk_and_map` as a function of the store, and what a successful or failed map
    does to every translation. */
module PageMap {
  import opened Outcomes
  import opened PagingArch
  import opened PageWalk

  /** Page-table memory and the results the next `alloc_page` calls will give; once the list
      is used up every call reports OutOfMemory. */
  datatype Store = Store(tables: Memory, supply: seq<Result<nat, MapError>>)

  /** The pages still to be handed out are distinct and not part of the tree. */
  ghost predicate Fresh(seats: Seats, supply: seq<Result<nat, MapError>>) {
    && (forall i :: 0 <= i < |supply| && supply[i].Ok? ==> supply[i].value !in seats)
    && (forall i, j :: 0 <= i < j < |supply| && supply[i].Ok? && supply[j].Ok? ==> supply[i].value != supply[j].value)
  }

  ghost predicate Seated(a: Arch, st: Store, root: nat, seats: Seats) {
    Placed(a, st.tables, root, seats) && Fresh(seats, st.supply)
  }

  /** The reachable tables form a tree, disjoint from the pages still to be allocated. */
  ghost predicate Sound(a: Arch, st: Store, root: nat) {
    exists seats :: Seated(a, st, root, seats)
  }

  function MappingOf(r: Result<Hit, MapError>): Option<Mapping> {
    match r
    case Err(_) => None
    case Ok(h) => if h.pte.Leaf? then Some(Mapping(h.level, h.pte.addr, h.pte.flags)) else None
  }

  /** The abstraction: the translation of every virtual address. */
  function Translate(a: Arch, mem: Memory, root: nat, v: nat): Option<Mapping>
    requires Lawful(a)
  {
    MappingOf(Find(mem, root, 0, PathOf(a, v)))
  }

  function Link(a: Arch, mem: Memory, t: nat, i: nat, p: nat): Memory {
    Write(mem[p := ZeroTable(a.entries)], t, i, Table(p))
  }

  /** The walk to the target level, allocating the tables it misses. */
  function Descend(a: Arch, st: Store, t: nat, level: nat, target: nat, path: Path): (Store, Result<nat, MapError>)
    requires target <= |path|
    decreases target - level
  {
    if level >= target then (st, Ok(t))
    else
      match Entry(st.tables, t, path[level])
      case Leaf(_, _) => (st, Err(AlreadyMapped))
      case Table(p) => Descend(a, st, p, level + 1, target, path)
      case Invalid =>
        if st.supply == [] then (st, Err(OutOfMemory))
        else if st.supply[0].Err? then (st.(supply := st.supply[1..]), Err(st.supply[0].error))
        else
          var p := st.supply[0].value;
          Descend(a, Store(Link(a, st.tables, t, path[level], p), st.supply[1..]), p, level + 1, target, path)
  }

  function PlaceLeaf(a: Arch, st: Store, t: nat, target: nat, path: Path, paddr: nat, perm: Perm): (Store, Option<MapError>)
    requires target < |path|
  {
    if !Entry(st.tables, t, path[target]).Invalid? then (st, Some(AlreadyMapped))
    else
      match a.leafFlags(target, paddr, perm)
      case None => (st, Some(InvalidPermission))
      case Some(flags) => (st.(tables := Write(st.tables, t, path[target], Leaf(paddr, flags))), None)
  }

  /** `walk_and_map`: the store it leaves and the error it returns, if any. */
  function WalkMap(a: Arch, st: Store, root: nat, path: Path, target: nat, paddr: nat, perm: Perm): (Store, Option<MapError>)
    requires target < |path|
  {
    var (s, r) := Descend(a, st, root, 0, target, path);
    match r
    case Err(e) => (s, Some(e))
    case Ok(t) => PlaceLeaf(a, s, t, target, path, paddr, perm)
  }

  /** Descending keeps the tree and every walk, and ends at the table seated on the path. */
  lemma {:induction false} Descended(a: Arch, st: Store, root: nat, seats: Seats, t: nat, target: nat, path: Path)
    returns (seats': Seats)
    requires Seated(a, st, root, seats) && IsPath(a, path) && OnPath(seats, t, path)
    requires |seats[t].prefix| <= target < a.levels
    ensures var (s, r) := Descend(a, st, t, |seats[t].prefix|, target, path);
      && Seated(a, s, root, seats')
      && (forall p :: IsPath(a, p) ==> Find(s.tables, root, 0, p) == Find(st.tables, root, 0, p))
      && (r.Ok? ==> OnPath(seats', r.value, path) && |seats'[r.value].prefix| == target)
    decreases target - |seats[t].prefix|
  {
    var l := |seats[t].prefix|;
    seats' := seats;
    if l < target {
      var i := path[l];
      assert i in path;
      match Entry(st.tables, t, i) {
        case Leaf(_, _) =>
        case Table(p) =>
          assert Links(a, st.tables, root, seats, t, i);
          seats' := Descended(a, st, root, seats, p, target, path);
        case Invalid =>
          if st.supply != [] && st.supply[0].Ok? {
            var p := st.supply[0].value;
            var st1 := Store(Link(a, st.tables, t, i, p), st.supply[1..]);
            var seats1 := seats[p := Seat(seats[t].prefix + [i], t)];
            LinkKeepsTree(a, st.tables, root, seats, t, i, p);
            forall q | IsPath(a, q) ensures Find(st1.tables, root, 0, q) == Find(st.tables, root, 0, q) {
              LinkEffect(a, st.tables, root, seats, t, i, p, q);
            }
            seats' := Descended(a, st1, root, seats1, p, target, path);
          }
      }
    }
  }

  /** Placing the leaf changes exactly the walks that share the target slot. */
  lemma {:induction false} LeafPlaced(a: Arch, st: Store, root: nat, seats: Seats, t: nat, path: Path, paddr: nat, perm: Perm, w: Path)
    requires Seated(a, st, root, seats) && IsPath(a, path) && IsPath(a, w) && OnPath(seats, t, path)
    ensures var target := |seats[t].prefix|;
      var (s, e) := PlaceLeaf(a, st, t, target, path, paddr, perm);
      && Seated(a, s, root, seats)
      && (e.Some? ==> s == st)
      && (e.None? <==> Entry(st.tables, t, path[target]).Invalid? && a.leafFlags(target, paddr, perm).Some?)
      && (e.None? ==>
            && a.leafFlags(target, paddr, perm).Some?
            && Find(s.tables, root, 0, w) ==
                 (if path[..target + 1] == w[..target + 1]
                  then Ok(Hit(target, t, path[target], Leaf(paddr, a.leafFlags(target, paddr, perm).value)))
                  else Find(st.tables, root, 0, w))
            && (path[..target + 1] == w[..target + 1] ==> Find(st.tables, root, 0, w) == Err(NotMapped)))
  {
    var target := |seats[t].prefix|;
    var (s, e) := PlaceLeaf(a, st, t, target, path, paddr, perm);
    assert path[target] in path;
    if e.None? {
      var leaf := Leaf(paddr, a.leafFlags(target, paddr, perm).value);
      WriteKeepsTree(a, st.tables, root, seats, t, path[target], leaf);
      WriteEffect(a, st.tables, root, seats, t, path[target], leaf, w);
      assert seats[t].prefix + [path[target]] == path[..target + 1];
      if path[..target + 1] == w[..target + 1] {
        assert w[target] == w[..target + 1][target];
        Reached(a, st.tables, root, seats, t, w);
      }
    }
  }

  /** A successful map adds exactly one leaf's worth of translation, where there was none; a
      failed one changes no translation, whatever tables it allocated on the way. */
  lemma {:induction false} MapEffect(a: Arch, st: Store, root: nat, v: nat, target: nat, paddr: nat, perm: Perm, w: nat)
    requires Lawful(a) && Sound(a, st, root) && target < a.levels
    ensures var (s, e) := WalkMap(a, st, root, PathOf(a, v), target, paddr, perm);
      && Sound(a, s, root)
      && (e.None? ==> a.leafFlags(target, paddr, perm).Some?)
      && (e.None? && SamePage(a, v, w, target) ==>
            && Translate(a, st.tables, root, w) == None
            && Translate(a, s.tables, root, w) == Some(Mapping(target, paddr, a.leafFlags(target, paddr, perm).value)))
      && (e.Some? || !SamePage(a, v, w, target) ==>
            Translate(a, s.tables, root, w) == Translate(a, st.tables, root, w))
  {
    var seats :| Seated(a, st, root, seats);
    var path := PathOf(a, v);
    var seats' := Descended(a, st, root, seats, root, target, path);
    var (s1, r) := Descend(a, st, root, 0, target, path);
    if r.Ok? {
      LeafPlaced(a, s1, root, seats', r.value, path, paddr, perm, PathOf(a, w));
    }
  }
}
