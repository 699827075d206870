/** The differences between the page-table code and its promise occur in the shape every port has. */
module PageWitness {
  import opened Outcomes
  import opened Arithmetic
  import opened PagingArch
  import opened PageWalk
  import opened PageMap
  import opened PageOutcome
  import opened PageUnmap
  import opened PageCheck
  import opened PageBatch

  // ---------------------------------------------------------------------------
  // A space whose every address is mapped, by leaves of the second level
  // ---------------------------------------------------------------------------

  /** Page number `k`, as an address. */
  function PageAddr(a: Arch, k: nat): nat {
    Times(k, a.pageSize)
  }

  lemma {:induction false} PageNumber(a: Arch, k: nat)
    requires a.pageSize >= 1
    ensures Quot(PageAddr(a, k), a.pageSize) == k && Rem(PageAddr(a, k), a.pageSize) == 0
  {
    EuclidUnique(PageAddr(a, k), a.pageSize, k, 0);
  }

  lemma {:induction false} FirstPage(a: Arch)
    ensures PageAddr(a, 1) == a.pageSize
  {
    assert Times(0, a.pageSize) == 0;
  }

  /** `t` is the address of one of the pages 1 to n. */
  predicate IsTable(a: Arch, n: nat, t: nat) {
    Rem(t, a.pageSize) == 0 && 1 <= Quot(t, a.pageSize) <= n
  }

  function TableAddrs(a: Arch, n: nat): (s: set<nat>)
    requires a.pageSize >= 1
    ensures forall t :: t in s <==> IsTable(a, n, t)
  {
    if n == 0 then {}
    else
      NextTable(a, n);
      TableAddrs(a, n - 1) + {PageAddr(a, n)}
  }

  lemma {:induction false} NextTable(a: Arch, n: nat)
    requires a.pageSize >= 1 && n >= 1
    ensures forall t :: IsTable(a, n, t) <==> IsTable(a, n - 1, t) || t == PageAddr(a, n)
  {
    forall t
      ensures IsTable(a, n, t) <==> IsTable(a, n - 1, t) || t == PageAddr(a, n)
    {
      PageNumber(a, n);
      Euclid(t, a.pageSize);
    }
  }

  /** The addresses of the tables of a full space. */
  function Tables(a: Arch): set<nat>
    requires a.pageSize >= 1
  {
    TableAddrs(a, a.entries + 1)
  }

  function TopEntries(a: Arch): (s: seq<Pte>)
    ensures |s| == a.entries && forall i :: 0 <= i < a.entries ==> s[i] == Table(PageAddr(a, i + 2))
  {
    seq(a.entries, i requires 0 <= i => Table(PageAddr(a, i + 2)))
  }

  function LeafEntries(n: nat, flags: Perm): (s: seq<Pte>)
    ensures |s| == n && forall i :: 0 <= i < n ==> s[i] == Leaf(0, flags)
  {
    seq(n, i => Leaf(0, flags))
  }

  /** The root is page 1; its entries lead to pages 2, 3, ... full of leaves. */
  function FullSpace(a: Arch, flags: Perm): Memory
    requires a.pageSize >= 1
  {
    map t | t in Tables(a) :: if t == a.pageSize then TopEntries(a) else LeafEntries(a.entries, flags)
  }

  function FullSeats(a: Arch): Seats
    requires a.pageSize >= 1
  {
    map t | t in Tables(a) ::
      if t == a.pageSize then Seat([], t)
      else if Quot(t, a.pageSize) >= 2 then Seat([Quot(t, a.pageSize) - 2], a.pageSize) else Seat([], 0)
  }

  /** The table behind entry `i` of the root. */
  lemma {:induction false} FullTable(a: Arch, flags: Perm, i: nat)
    requires a.pageSize >= 1 && i < a.entries
    ensures var t := PageAddr(a, i + 2);
      && t in FullSpace(a, flags) && t != a.pageSize && FullSpace(a, flags)[t] == LeafEntries(a.entries, flags)
      && FullSeats(a)[t] == Seat([i], a.pageSize)
  {
    PageNumber(a, i + 2);
    PageNumber(a, 1);
    FirstPage(a);
    assert IsTable(a, a.entries + 1, PageAddr(a, i + 2));
  }

  lemma {:induction false} FullRoot(a: Arch, flags: Perm)
    requires a.pageSize >= 1
    ensures var t := a.pageSize;
      t in FullSpace(a, flags) && FullSpace(a, flags)[t] == TopEntries(a) && FullSeats(a)[t] == Seat([], t)
  {
    PageNumber(a, 1);
    FirstPage(a);
    assert IsTable(a, a.entries + 1, a.pageSize);
  }

  /** Every other table is behind an entry of the root. */
  lemma {:induction false} FullNumber(a: Arch, t: nat) returns (i: nat)
    requires a.pageSize >= 1 && t in FullSeats(a) && t != a.pageSize
    ensures i < a.entries && t == PageAddr(a, i + 2)
  {
    Euclid(t, a.pageSize);
    FirstPage(a);
    i := Quot(t, a.pageSize) - 2;
  }

  lemma {:induction false} FullHung(a: Arch, flags: Perm, t: nat)
    requires Lawful(a) && t in FullSeats(a) && t != a.pageSize
    ensures Hung(FullSpace(a, flags), FullSeats(a), t)
  {
    var i := FullNumber(a, t);
    FullTable(a, flags, i);
    FullRoot(a, flags);
    assert [i][..0] == [];
  }

  lemma {:induction false} FullLinks(a: Arch, flags: Perm, t: nat, i: nat)
    requires Lawful(a) && t in FullSeats(a) && i < a.entries && Entry(FullSpace(a, flags), t, i).Table?
    ensures Links(a, FullSpace(a, flags), a.pageSize, FullSeats(a), t, i)
  {
    FullRoot(a, flags);
    if t != a.pageSize {
      var k := FullNumber(a, t);
      FullTable(a, flags, k);
    } else {
      FullTable(a, flags, i);
      assert [] + [i] == [i];
    }
  }

  lemma {:induction false} FullApart(a: Arch, flags: Perm, t: nat, u: nat)
    requires Lawful(a) && t in FullSeats(a) && u in FullSeats(a)
    ensures Apart(FullSeats(a), t, u)
  {
    FullRoot(a, flags);
    if t != a.pageSize {
      var i := FullNumber(a, t);
      FullTable(a, flags, i);
      assert FullSeats(a)[t].prefix[0] == i;
    }
    if u != a.pageSize {
      var j := FullNumber(a, u);
      FullTable(a, flags, j);
      assert FullSeats(a)[u].prefix[0] == j;
    }
  }

  lemma {:induction false} FullShape(a: Arch, flags: Perm, t: nat)
    requires Lawful(a) && a.levels >= 2 && t in FullSeats(a)
    ensures t in FullSpace(a, flags) && |FullSpace(a, flags)[t]| == a.entries && |FullSeats(a)[t].prefix| < a.levels
  {
    FullRoot(a, flags);
    if t != a.pageSize {
      var i := FullNumber(a, t);
      FullTable(a, flags, i);
    }
  }

  lemma {:induction false} FullTree(a: Arch, flags: Perm)
    requires Lawful(a) && a.levels >= 2
    ensures Tree(a, FullSpace(a, flags), a.pageSize)
  {
    var mem, seats := FullSpace(a, flags), FullSeats(a);
    FullRoot(a, flags);
    forall t | t in seats
      ensures t in mem && |mem[t]| == a.entries && |seats[t].prefix| < a.levels
    {
      FullShape(a, flags, t);
    }
    forall t | t in seats && t != a.pageSize
      ensures Hung(mem, seats, t)
    {
      FullHung(a, flags, t);
    }
    forall t, i | t in seats && 0 <= i < a.entries && Entry(mem, t, i).Table?
      ensures Links(a, mem, a.pageSize, seats, t, i)
    {
      FullLinks(a, flags, t, i);
    }
    forall t, u | t in seats && u in seats
      ensures Apart(seats, t, u)
    {
      FullApart(a, flags, t, u);
    }
    assert Placed(a, mem, a.pageSize, seats);
  }

  lemma {:induction false} FullFind(a: Arch, flags: Perm, path: Path)
    requires Lawful(a) && a.levels >= 2 && IsPath(a, path)
    ensures Find(FullSpace(a, flags), a.pageSize, 0, path) == Ok(Hit(1, PageAddr(a, path[0] + 2), path[1], Leaf(0, flags)))
  {
    var mem, t := FullSpace(a, flags), PageAddr(a, path[0] + 2);
    assert path[0] in path && path[1] in path;
    FullRoot(a, flags);
    FullTable(a, flags, path[0]);
    assert Entry(mem, a.pageSize, path[0]) == Table(t);
    assert Entry(mem, t, path[1]) == Leaf(0, flags);
  }

  lemma {:induction false} FullDryRun(a: Arch, flags: Perm, cur: nat, end: nat)
    requires Lawful(a) && a.levels >= 2 && a.leafLevel(1) && cur <= end < WORD
    requires Rem(cur, Reach(a, 2)) == 0 && Rem(end, Reach(a, 2)) == 0
    ensures DryRun(a, FullSpace(a, flags), a.pageSize, cur, end).None?
    decreases end - cur
  {
    if cur < end {
      var h, next := FullStep(a, flags, cur, end);
      FullDryRun(a, flags, next, end);
      DryRunStep(a, FullSpace(a, flags), a.pageSize, cur, end, h, next);
    }
  }

  lemma {:induction false} FullStep(a: Arch, flags: Perm, cur: nat, end: nat) returns (h: Hit, next: nat)
    requires Lawful(a) && a.levels >= 2 && a.leafLevel(1) && cur < end < WORD
    requires Rem(cur, Reach(a, 2)) == 0 && Rem(end, Reach(a, 2)) == 0
    ensures LeafStep(a, FullSpace(a, flags), a.pageSize, cur, end) == Ok(h) && next == cur + Reach(a, h.level + 1)
    ensures cur < next <= end && Rem(next, Reach(a, 2)) == 0
  {
    var s := Reach(a, 2);
    ReachPositive(a, 2);
    FullFind(a, flags, PathOf(a, cur));
    NextMultiple(cur, end, s);
    RemMultiple(1, s);
    RemSum(cur, s, s);
    h, next := Find(FullSpace(a, flags), a.pageSize, 0, PathOf(a, cur)).value, cur + s;
  }

  /** In a fully mapped space a range longer than the space passes the dry run and fails the real one. */
  lemma {:induction false} DryRunCanMislead(a: Arch, flags: Perm, v: nat, size: nat)
    requires Lawful(a) && a.levels >= 2 && a.leafLevel(1)
    requires Rem(v, Reach(a, 2)) == 0 && Rem(size, Reach(a, 2)) == 0 && Reach(a, 0) < size && v + size < WORD
    ensures UnmapRange(a, FullSpace(a, flags), a.pageSize, v, size, false).1 == None
    ensures UnmapRange(a, FullSpace(a, flags), a.pageSize, v, size, true).1.Some?
  {
    ReachPositive(a, 2);
    PageAligned(a, v, 2);
    PageAligned(a, size, 2);
    RemSum(v, size, Reach(a, 2));
    FullDryRun(a, flags, v, v + size);
    FullTree(a, flags);
    DryRunExact(a, FullSpace(a, flags), a.pageSize, v, size);
  }

  /** So it does in the four-level shape, for the whole space and one gigabyte more. */
  lemma {:induction false} FourLevelsMislead(a: Arch, flags: Perm)
    requires FourLevels(a) && a.leafLevel(1)
    ensures Lawful(a) && UnmapRange(a, FullSpace(a, flags), a.pageSize, 0, 0x1_0000_4000_0000, false).1 == None
    ensures UnmapRange(a, FullSpace(a, flags), a.pageSize, 0, 0x1_0000_4000_0000, true).1.Some?
  {
    FourLevelsLawful(a);
    FourLevelReach(a);
    RemIsMod(0x1_0000_4000_0000, 0x4000_0000);
    DryRunCanMislead(a, flags, 0, 0x1_0000_4000_0000);
  }

  /** Every byte below the top is mapped with all rights, yet the check refuses the last ones. */
  lemma {:induction false} TopLeafRefused(a: Arch, flags: Perm, v: nat, size: nat, need: Need)
    requires Lawful(a) && DividesWord(a) && a.levels >= 2 && a.leafLevel(1) && Grants(flags, need)
    requires size > 0 && a.canonical(v) && a.canonical(v + size - 1) && WORD - Reach(a, 2) <= v && v + size < WORD
    ensures forall x :: Translate(a, FullSpace(a, flags), a.pageSize, x) == Some(Mapping(1, 0, flags))
    ensures ValidateRange(a, FullSpace(a, flags), a.pageSize, v, size, need) == Some(Misaligned)
  {
    forall x
      ensures Translate(a, FullSpace(a, flags), a.pageSize, x) == Some(Mapping(1, 0, flags))
    {
      FullFind(a, flags, PathOf(a, x));
    }
    FullFind(a, flags, PathOf(a, v));
    TopPage(a, v);
  }

  lemma {:induction false} TopPage(a: Arch, v: nat)
    requires Lawful(a) && DividesWord(a) && a.levels >= 2 && WORD - Reach(a, 2) <= v < WORD
    ensures PageEnd(a, v, 1) == WORD
  {
    var s := Reach(a, 2);
    ReachPositive(a, 2);
    WordMultiple(a, 2);
    var base := v - Rem(v, s);
    RoundDown(v, s);
    NextMultiple(base, WORD, s);
    RemMultiple(1, s);
    RemSum(base, s, s);
    if base + s < WORD {
      NextMultiple(base + s, WORD, s);
    }
  }

  // ---------------------------------------------------------------------------
  // The batch at the last leaf table
  // ---------------------------------------------------------------------------

  /** An empty four-level space with three fresh pages. */
  function EmptySpace(): Store {
    Store(map[0x1000 := ZeroTable(0x200)], [Ok(0x2000), Ok(0x3000), Ok(0x4000)])
  }

  /** A walk there reaches an empty table at the last level. */
  lemma {:induction false} EmptyWalk(a: Arch, st: Store, path: Path, target: nat)
    requires st == EmptySpace() && target == 3 < |path|
    ensures var (s, r) := Descend(a, st, 0x1000, 0, target, path);
      r.Ok? && Entry(s.tables, r.value, path[target]).Invalid?
  {
    AllNew(a, st, 0x1000, 0, target, path, target);
  }

  /** The first page of the last leaf table: page by page it is mapped, the batch refuses it. */
  lemma {:induction false} TopTableRefused(a: Arch, perm: Perm)
    requires FourLevels(a) && a.leafLevel(3) && a.validPerm(perm) && a.leafFlags(3, 0, perm).Some?
    requires a.canonical(0xFFFF_FFFF_FFE0_0000) && a.canonical(0xFFFF_FFFF_FFE0_0FFF)
    ensures Lawful(a) && Refused(a, 0xFFFF_FFFF_FFE0_0000, [0], 3, perm) == None
    ensures MapEach(a, EmptySpace(), 0x1000, 0xFFFF_FFFF_FFE0_0000, [0], 3, perm).error == None
    ensures MapPages(a, EmptySpace(), 0x1000, 0xFFFF_FFFF_FFE0_0000, [0], 3, perm).error == Some(Misaligned)
  {
    var v := 0xFFFF_FFFF_FFE0_0000;
    var path := PathOf(a, v);
    FourLevelsLawful(a);
    FourLevelReach(a);
    RemIsMod(v, 0x1000);
    RemIsMod(0, 0x1000);
    TimesIsMul(1, 0x1000);
    EmptyWalk(a, EmptySpace(), path, 3);
    var (s, r) := Descend(a, EmptySpace(), 0x1000, 0, 3, path);
    assert Entry(s.tables, r.value, path[3]) == Invalid;
  }
}
