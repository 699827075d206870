/** Page-table memory, the tree invariant, and the effect of one write on every translation.

    Memory holds decoded entries: what `pte_from_usize` gives for the stored word. An address
    is seen here only through its path, the entry index at each level. The tree invariant
    `Placed` is local: it seats every reachable table at a path prefix and names its parent,
    so that no table is shared and every seated table is reachable. */
module PageWalk {
  import opened Outcomes
  import opened PagingArch

  datatype MapError =
    | OutOfMemory | Misaligned | AlreadyMapped | NotMapped
    | UnsupportedLevel | UnsupportedHugePage | InvalidPermission

  datatype Pte = Invalid | Table(addr: nat) | Leaf(addr: nat, flags: Perm)

  type Memory = map<nat, seq<Pte>>

  type Path = seq<nat>

  datatype Hit = Hit(level: nat, table: nat, index: nat, pte: Pte)

  /** What an address translates to: the leaf's level, frame and rights. */
  datatype Mapping = Mapping(level: nat, addr: nat, flags: Perm)

  datatype Seat = Seat(prefix: Path, parent: nat)

  type Seats = map<nat, Seat>

  function Entry(mem: Memory, t: nat, i: nat): Pte {
    if t in mem && i < |mem[t]| then mem[t][i] else Invalid
  }

  function Write(mem: Memory, t: nat, i: nat, e: Pte): Memory {
    if t in mem && i < |mem[t]| then mem[t := mem[t][i := e]] else mem
  }

  function ZeroTable(entries: nat): (s: seq<Pte>)
    ensures |s| == entries && forall i :: 0 <= i < |s| ==> s[i] == Invalid
  {
    seq(entries, i => Invalid)
  }

  /** The walk of `find_leaf`, from table `t` at `level` down. */
  function Find(mem: Memory, t: nat, level: nat, path: Path): (r: Result<Hit, MapError>)
    ensures r.Err? ==> r.error == NotMapped
    ensures r.Ok? ==> level <= r.value.level < |path| && r.value.index == path[r.value.level] && r.value.pte.Leaf?
    decreases |path| - level
  {
    if level >= |path| then Err(NotMapped)
    else
      match Entry(mem, t, path[level])
      case Invalid => Err(NotMapped)
      case Leaf(p, f) => Ok(Hit(level, t, path[level], Leaf(p, f)))
      case Table(p) => Find(mem, p, level + 1, path)
  }

  ghost predicate Placed(a: Arch, mem: Memory, root: nat, seats: Seats) {
    && root in seats && seats[root] == Seat([], root)
    && (forall t :: t in seats ==> t in mem && |mem[t]| == a.entries && |seats[t].prefix| < a.levels)
    && (forall t {:trigger Hung(mem, seats, t)} :: t in seats && t != root ==> Hung(mem, seats, t))
    && (forall t, i {:trigger Links(a, mem, root, seats, t, i)} ::
          t in seats && 0 <= i < a.entries && Entry(mem, t, i).Table? ==> Links(a, mem, root, seats, t, i))
    && (forall t, u {:trigger Apart(seats, t, u)} :: t in seats && u in seats ==> Apart(seats, t, u))
  }

  /** No two tables share a seat. */
  ghost predicate Apart(seats: Seats, t: nat, u: nat)
    requires t in seats && u in seats
  {
    seats[t].prefix == seats[u].prefix ==> t == u
  }

  /** A seated table hangs from the slot its seat names. */
  ghost predicate Hung(mem: Memory, seats: Seats, t: nat)
    requires t in seats
  {
    var s := seats[t];
    && s.prefix != [] && s.parent in seats
    && seats[s.parent].prefix == s.prefix[..|s.prefix| - 1]
    && Entry(mem, s.parent, s.prefix[|s.prefix| - 1]) == Table(t)
  }

  /** A table entry above the last level leads to the table seated just below it. */
  ghost predicate Links(a: Arch, mem: Memory, root: nat, seats: Seats, t: nat, i: nat)
    requires t in seats && Entry(mem, t, i).Table?
  {
    |seats[t].prefix| + 1 < a.levels ==>
      var p := Entry(mem, t, i).addr;
      p in seats && p != root && seats[p] == Seat(seats[t].prefix + [i], t)
  }

  /** `t` is seated on this path. */
  ghost predicate OnPath(seats: Seats, t: nat, path: Path) {
    t in seats && seats[t].prefix <= path
  }

  /** Every seated table on a path is reached by the walk of that path. */
  lemma {:induction false} Reached(a: Arch, mem: Memory, root: nat, seats: Seats, t: nat, path: Path)
    requires Placed(a, mem, root, seats) && OnPath(seats, t, path)
    ensures Find(mem, root, 0, path) == Find(mem, t, |seats[t].prefix|, path)
    decreases |seats[t].prefix|
  {
    if t != root {
      assert Hung(mem, seats, t);
      Reached(a, mem, root, seats, seats[t].parent, path);
    }
  }

  /** A walk reads only the slots of its path in tables seated on the path. */
  lemma {:induction false} FindAgree(a: Arch, mem: Memory, mem': Memory, root: nat, seats: Seats, t: nat, path: Path)
    requires Placed(a, mem, root, seats) && OnPath(seats, t, path)
    requires |path| == a.levels && forall d :: d in path ==> d < a.entries
    requires forall u :: OnPath(seats, u, path) && |seats[u].prefix| < |path| ==>
      Entry(mem, u, path[|seats[u].prefix|]) == Entry(mem', u, path[|seats[u].prefix|])
    ensures Find(mem, t, |seats[t].prefix|, path) == Find(mem', t, |seats[t].prefix|, path)
    decreases |path| - |seats[t].prefix|
  {
    var l := |seats[t].prefix|;
    var e := Entry(mem, t, path[l]);
    if e.Table? {
      assert path[l] in path;
      assert Links(a, mem, root, seats, t, path[l]);
      if l + 1 < a.levels {
        FindAgree(a, mem, mem', root, seats, e.addr, path);
      }
    }
  }

  /** Replacing a non-table entry by a non-table entry keeps the tree. */
  lemma {:induction false} WriteKeepsTree(a: Arch, mem: Memory, root: nat, seats: Seats, t: nat, i: nat, e: Pte)
    requires Placed(a, mem, root, seats) && t in seats && i < a.entries
    requires !Entry(mem, t, i).Table? && !e.Table?
    ensures Placed(a, Write(mem, t, i, e), root, seats)
  {
    var mem' := Write(mem, t, i, e);
    forall u | u in seats && u != root ensures Hung(mem', seats, u) {
      assert Hung(mem, seats, u);
    }
    forall u, j | u in seats && 0 <= j < a.entries && Entry(mem', u, j).Table?
      ensures Links(a, mem', root, seats, u, j)
    {
      assert Links(a, mem, root, seats, u, j);
    }
  }

  ghost predicate IsPath(a: Arch, path: Path) {
    |path| == a.levels && forall d :: d in path ==> d < a.entries
  }

  /** Writing such an entry changes the walks through exactly that slot. */
  lemma {:induction false} WriteEffect(a: Arch, mem: Memory, root: nat, seats: Seats, t: nat, i: nat, e: Pte, path: Path)
    requires Placed(a, mem, root, seats) && t in seats && i < a.entries && IsPath(a, path)
    requires !Entry(mem, t, i).Table? && !e.Table?
    ensures Find(Write(mem, t, i, e), root, 0, path) ==
      if !(seats[t].prefix + [i] <= path) then Find(mem, root, 0, path)
      else if e.Leaf? then Ok(Hit(|seats[t].prefix|, t, i, e)) else Err(NotMapped)
  {
    var mem' := Write(mem, t, i, e);
    WriteKeepsTree(a, mem, root, seats, t, i, e);
    if seats[t].prefix + [i] <= path {
      Reached(a, mem', root, seats, t, path);
    } else {
      forall u | OnPath(seats, u, path) && |seats[u].prefix| < |path|
        ensures Entry(mem, u, path[|seats[u].prefix|]) == Entry(mem', u, path[|seats[u].prefix|])
      {
      }
      FindAgree(a, mem, mem', root, seats, root, path);
    }
  }

  /** No table sits behind an invalid slot. */
  lemma {:induction false} SeatFree(a: Arch, mem: Memory, root: nat, seats: Seats, t: nat, i: nat, u: nat)
    requires Placed(a, mem, root, seats) && t in seats && u in seats && Entry(mem, t, i).Invalid?
    ensures seats[u].prefix != seats[t].prefix + [i]
  {
    if u != root {
      assert Hung(mem, seats, u);
      assert Apart(seats, seats[u].parent, t);
    }
    assert (seats[t].prefix + [i])[..|seats[t].prefix|] == seats[t].prefix;
  }

  /** Hanging a fresh zeroed table in an invalid slot keeps the tree. */
  lemma {:induction false} LinkKeepsTree(a: Arch, mem: Memory, root: nat, seats: Seats, t: nat, i: nat, p: nat)
    requires Placed(a, mem, root, seats) && t in seats && i < a.entries
    requires Entry(mem, t, i).Invalid? && |seats[t].prefix| + 1 < a.levels && p !in seats
    ensures Placed(a, Write(mem[p := ZeroTable(a.entries)], t, i, Table(p)), root,
              seats[p := Seat(seats[t].prefix + [i], t)])
  {
    var mem' := Write(mem[p := ZeroTable(a.entries)], t, i, Table(p));
    var seats' := seats[p := Seat(seats[t].prefix + [i], t)];
    forall u | u in seats' && u != root ensures Hung(mem', seats', u) {
      if u != p { assert Hung(mem, seats, u); }
    }
    forall u, j | u in seats' && 0 <= j < a.entries && Entry(mem', u, j).Table?
      ensures Links(a, mem', root, seats', u, j)
    {
      if u != t || j != i { assert Links(a, mem, root, seats, u, j); }
    }
    forall u | u in seats ensures seats[u].prefix != seats[t].prefix + [i] {
      SeatFree(a, mem, root, seats, t, i, u);
    }
    forall u, x | u in seats' && x in seats' ensures Apart(seats', u, x) {
      if u in seats && x in seats { assert Apart(seats, u, x); }
    }
  }

  /** ... and every walk ends as before. */
  lemma {:induction false} LinkEffect(a: Arch, mem: Memory, root: nat, seats: Seats, t: nat, i: nat, p: nat, path: Path)
    requires Placed(a, mem, root, seats) && t in seats && i < a.entries && IsPath(a, path)
    requires Entry(mem, t, i).Invalid? && |seats[t].prefix| + 1 < a.levels && p !in seats
    ensures Find(Write(mem[p := ZeroTable(a.entries)], t, i, Table(p)), root, 0, path) == Find(mem, root, 0, path)
  {
    var mem' := Write(mem[p := ZeroTable(a.entries)], t, i, Table(p));
    if seats[t].prefix + [i] <= path {
      LinkKeepsTree(a, mem, root, seats, t, i, p);
      Reached(a, mem, root, seats, t, path);
      Reached(a, mem', root, seats[p := Seat(seats[t].prefix + [i], t)], t, path);
    } else {
      forall u | OnPath(seats, u, path) && |seats[u].prefix| < |path|
        ensures Entry(mem, u, path[|seats[u].prefix|]) == Entry(mem', u, path[|seats[u].prefix|])
      {
      }
      FindAgree(a, mem, mem', root, seats, root, path);
    }
  }
}
