/** Promotion of an empty page-table subtree to a single large leaf. */
module PagePromote {
  import opened Outcomes
  import opened Arithmetic
  import opened PagingArch
  import opened PageWalk
  import opened PageMap
  import opened PageUnmap

  /** `page_table_subtree_is_empty`. */
  predicate SubtreeEmpty(a: Arch, mem: Memory, t: nat, level: nat)
    decreases a.levels - level
  {
    level < a.levels &&
    forall i :: 0 <= i < a.entries ==>
      match Entry(mem, t, i)
      case Invalid => true
      case Leaf(_, _) => false
      case Table(p) => level + 1 < a.levels && SubtreeEmpty(a, mem, p, level + 1)
  }

  /** The pages `reclaim_empty_page_table_subtree` frees, in its order: children first. */
  function Subtree(a: Arch, mem: Memory, t: nat, level: nat): seq<nat>
    decreases a.levels - level, a.entries + 1
  {
    (if level + 1 < a.levels then Children(a, mem, t, level, 0) else []) + [t]
  }

  function Children(a: Arch, mem: Memory, t: nat, level: nat, i: nat): seq<nat>
    requires level + 1 < a.levels
    decreases a.levels - level, a.entries - i
  {
    if i >= a.entries then []
    else
      match Entry(mem, t, i)
      case Table(p) => Subtree(a, mem, p, level + 1) + Children(a, mem, t, level, i + 1)
      case _ => Children(a, mem, t, level, i + 1)
  }

  /** The table reached by following a path prefix from the root. */
  function TableAt(mem: Memory, root: nat, prefix: Path): Option<nat> {
    if prefix == [] then Some(root)
    else
      match TableAt(mem, root, prefix[..|prefix| - 1])
      case None => None
      case Some(q) =>
        match Entry(mem, q, prefix[|prefix| - 1])
        case Table(p) => Some(p)
        case _ => None
  }

  ghost predicate IsPrefix(a: Arch, prefix: Path) {
    |prefix| < a.levels && forall d :: d in prefix ==> d < a.entries
  }

  ghost predicate Reachable(a: Arch, mem: Memory, root: nat, t: nat) {
    exists prefix :: IsPrefix(a, prefix) && TableAt(mem, root, prefix) == Some(t)
  }

  /** Following table entries stays among the seated tables. */
  lemma {:induction false} TableAtSeated(a: Arch, mem: Memory, root: nat, seats: Seats, prefix: Path)
    requires Placed(a, mem, root, seats) && IsPrefix(a, prefix) && TableAt(mem, root, prefix).Some?
    ensures TableAt(mem, root, prefix).value in seats
    ensures seats[TableAt(mem, root, prefix).value].prefix == prefix
    decreases |prefix|
  {
    if prefix != [] {
      var up, d := prefix[..|prefix| - 1], prefix[|prefix| - 1];
      forall e | e in up ensures e < a.entries { assert e in prefix; }
      TableAtSeated(a, mem, root, seats, up);
      var q := TableAt(mem, root, up).value;
      assert Links(a, mem, root, seats, q, d);
    }
  }

  lemma {:induction false} SeatedTableAt(a: Arch, mem: Memory, root: nat, seats: Seats, t: nat)
    requires Placed(a, mem, root, seats) && t in seats
    ensures IsPrefix(a, seats[t].prefix) && TableAt(mem, root, seats[t].prefix) == Some(t)
    decreases |seats[t].prefix|
  {
    if t != root {
      assert Hung(mem, seats, t);
      var up := seats[t].prefix[..|seats[t].prefix| - 1];
      SeatedTableAt(a, mem, root, seats, seats[t].parent);
      assert up + [seats[t].prefix[|up|]] == seats[t].prefix;
    }
  }

  /** The seats are exactly the reachable tables. */
  lemma {:induction false} SeatedIsReachable(a: Arch, mem: Memory, root: nat, seats: Seats, t: nat)
    requires Placed(a, mem, root, seats)
    ensures t in seats <==> Reachable(a, mem, root, t)
  {
    if t in seats { SeatedTableAt(a, mem, root, seats, t); }
    if Reachable(a, mem, root, t) {
      var prefix :| IsPrefix(a, prefix) && TableAt(mem, root, prefix) == Some(t);
      TableAtSeated(a, mem, root, seats, prefix);
    }
  }

  /** Walks into an empty subtree find nothing. */
  lemma {:induction false} EmptyFindsNothing(a: Arch, mem: Memory, t: nat, level: nat, path: Path)
    requires SubtreeEmpty(a, mem, t, level) && IsPath(a, path)
    ensures Find(mem, t, level, path) == Err(NotMapped)
    decreases a.levels - level
  {
    assert path[level] in path;
    if Entry(mem, t, path[level]).Table? {
      EmptyFindsNothing(a, mem, Entry(mem, t, path[level]).addr, level + 1, path);
    }
  }

  /** The seats left when everything below a slot is cut off. */
  function Cut(seats: Seats, slot: Path): Seats {
    map u | u in seats && !(slot <= seats[u].prefix) :: seats[u]
  }

  lemma {:induction false} CutKeepsTree(a: Arch, mem: Memory, root: nat, seats: Seats, t: nat, i: nat)
    requires Placed(a, mem, root, seats) && t in seats && i < a.entries
    requires Entry(mem, t, i).Table?
    ensures Placed(a, Write(mem, t, i, Invalid), root, Cut(seats, seats[t].prefix + [i]))
  {
    var mem' := Write(mem, t, i, Invalid);
    var slot := seats[t].prefix + [i];
    var seats' := Cut(seats, slot);
    forall u, x | u in seats' && x in seats' ensures Apart(seats', u, x) {
      assert Apart(seats, u, x);
    }
    forall u | u in seats' && u != root ensures Hung(mem', seats', u) {
      assert Hung(mem, seats, u);
      var s := seats[u];
      assert s.prefix == s.prefix[..|s.prefix| - 1] + [s.prefix[|s.prefix| - 1]];
    }
    forall u, j | u in seats' && 0 <= j < a.entries && Entry(mem', u, j).Table?
      ensures Links(a, mem', root, seats', u, j)
    {
      assert Links(a, mem, root, seats, u, j);
      assert Apart(seats, t, u);
      if slot <= seats[u].prefix + [j] && |slot| > |seats[u].prefix| {
        SnocIff(seats[t].prefix, i, seats[u].prefix, j);
      }
    }
  }

  /** Cutting an empty subtree off changes no walk. */
  lemma {:induction false} CutEffect(a: Arch, mem: Memory, root: nat, seats: Seats, t: nat, i: nat, path: Path)
    requires Placed(a, mem, root, seats) && t in seats && i < a.entries && IsPath(a, path)
    requires Entry(mem, t, i).Table? && SubtreeEmpty(a, mem, Entry(mem, t, i).addr, |seats[t].prefix| + 1)
    ensures Find(Write(mem, t, i, Invalid), root, 0, path) == Find(mem, root, 0, path)
    ensures seats[t].prefix + [i] <= path ==> Find(mem, root, 0, path) == Err(NotMapped)
  {
    var mem' := Write(mem, t, i, Invalid);
    var slot := seats[t].prefix + [i];
    if slot <= path {
      CutKeepsTree(a, mem, root, seats, t, i);
      Reached(a, mem, root, seats, t, path);
      EmptyFindsNothing(a, mem, Entry(mem, t, i).addr, |seats[t].prefix| + 1, path);
      Reached(a, mem', root, Cut(seats, slot), t, path);
    } else {
      FindAgree(a, mem, mem', root, seats, root, path);
    }
  }

  predicate NoDup(s: seq<nat>) {
    forall i, j :: 0 <= i < j < |s| ==> s[i] != s[j]
  }

  lemma {:induction false} NoDupJoin(s: seq<nat>, t: seq<nat>)
    requires NoDup(s) && NoDup(t) && forall x :: x in s ==> x !in t
    ensures NoDup(s + t)
  {
    forall i, j | 0 <= i < j < |s + t| ensures (s + t)[i] != (s + t)[j] {
      if i < |s| <= j { assert (s + t)[i] in s; }
    }
  }

  /** Each page of a subtree is listed once, and sits below the subtree's seat. */
  lemma {:induction false} SubtreeSeated(a: Arch, mem: Memory, root: nat, seats: Seats, t: nat)
    requires Placed(a, mem, root, seats) && t in seats
    ensures var s := Subtree(a, mem, t, |seats[t].prefix|);
      NoDup(s) && forall x :: x in s ==> x in seats && seats[t].prefix <= seats[x].prefix
    decreases a.levels - |seats[t].prefix|, a.entries + 1
  {
    var l := |seats[t].prefix|;
    if l + 1 < a.levels {
      ChildrenSeated(a, mem, root, seats, t, 0);
      NoDupJoin(Children(a, mem, t, l, 0), [t]);
    }
  }

  lemma {:induction false} ChildrenSeated(a: Arch, mem: Memory, root: nat, seats: Seats, t: nat, i: nat)
    requires Placed(a, mem, root, seats) && t in seats && |seats[t].prefix| + 1 < a.levels
    ensures var s := Children(a, mem, t, |seats[t].prefix|, i);
      && NoDup(s)
      && forall x :: x in s ==> && x in seats && seats[t].prefix < seats[x].prefix
                                && i <= seats[x].prefix[|seats[t].prefix|]
    decreases a.levels - |seats[t].prefix|, a.entries - i
  {
    var l := |seats[t].prefix|;
    if i < a.entries {
      ChildrenSeated(a, mem, root, seats, t, i + 1);
      if Entry(mem, t, i).Table? {
        var p := Entry(mem, t, i).addr;
        assert Links(a, mem, root, seats, t, i);
        SubtreeSeated(a, mem, root, seats, p);
        forall x | x in Subtree(a, mem, p, l + 1) ensures seats[x].prefix[l] == i {
          assert seats[p].prefix[l] == i;
        }
        NoDupJoin(Subtree(a, mem, p, l + 1), Children(a, mem, t, l, i + 1));
      }
    }
  }

  /** The seated table at any shorter prefix of a seat. */
  lemma {:induction false} Ancestor(a: Arch, mem: Memory, root: nat, seats: Seats, x: nat, n: nat) returns (y: nat)
    requires Placed(a, mem, root, seats) && x in seats && n <= |seats[x].prefix|
    ensures y in seats && seats[y].prefix == seats[x].prefix[..n]
    decreases |seats[x].prefix|
  {
    if n == |seats[x].prefix| {
      y := x;
    } else {
      assert Hung(mem, seats, x);
      y := Ancestor(a, mem, root, seats, seats[x].parent, n);
    }
  }

  lemma {:induction false} ChildListed(a: Arch, mem: Memory, t: nat, level: nat, i: nat, j: nat, x: nat)
    requires level + 1 < a.levels && i <= j < a.entries && Entry(mem, t, j).Table?
    requires x in Subtree(a, mem, Entry(mem, t, j).addr, level + 1)
    ensures x in Children(a, mem, t, level, i)
    decreases j - i
  {
    if i < j { ChildListed(a, mem, t, level, i + 1, j, x); }
  }

  /** Every page seated below is listed. */
  lemma {:induction false} SubtreeComplete(a: Arch, mem: Memory, root: nat, seats: Seats, t: nat, x: nat)
    requires Placed(a, mem, root, seats) && t in seats && x in seats && seats[t].prefix <= seats[x].prefix
    ensures x in Subtree(a, mem, t, |seats[t].prefix|)
    decreases a.levels - |seats[t].prefix|
  {
    assert Apart(seats, t, x);
    if x != t {
      var l := |seats[t].prefix|;
      assert seats[x].prefix[..l] == seats[t].prefix;
      var y := Ancestor(a, mem, root, seats, x, l + 1);
      assert Hung(mem, seats, y);
      assert seats[y].prefix[..l] == seats[t].prefix;
      assert Apart(seats, t, seats[y].parent);
      var j := seats[y].prefix[l];
      SeatedTableAt(a, mem, root, seats, y);
      assert j in seats[y].prefix;
      SubtreeComplete(a, mem, root, seats, y, x);
      ChildListed(a, mem, t, l, 0, j, x);
    }
  }

  /** The tables seated at or below a prefix are the same in both memories. */
  ghost predicate SameBelow(mem: Memory, mem': Memory, seats: Seats, prefix: Path) {
    forall u :: u in seats && prefix <= seats[u].prefix ==> u in mem && u in mem' && mem'[u] == mem[u]
  }

  lemma {:induction false} SameFurtherBelow(mem: Memory, mem': Memory, seats: Seats, prefix: Path, below: Path)
    requires SameBelow(mem, mem', seats, prefix) && prefix <= below
    ensures SameBelow(mem, mem', seats, below)
  {
    forall u | u in seats && below <= seats[u].prefix
      ensures u in mem && u in mem' && mem'[u] == mem[u]
    {
      assert prefix <= seats[u].prefix;
    }
  }

  /** The listing reads only the subtree itself. */
  lemma {:induction false} SubtreeSame(a: Arch, mem: Memory, mem': Memory, root: nat, seats: Seats, t: nat)
    requires Placed(a, mem, root, seats) && t in seats && SameBelow(mem, mem', seats, seats[t].prefix)
    ensures Subtree(a, mem', t, |seats[t].prefix|) == Subtree(a, mem, t, |seats[t].prefix|)
    decreases a.levels - |seats[t].prefix|, a.entries + 1
  {
    if |seats[t].prefix| + 1 < a.levels { ChildrenSame(a, mem, mem', root, seats, t, 0); }
  }

  lemma {:induction false} ChildrenSame(a: Arch, mem: Memory, mem': Memory, root: nat, seats: Seats, t: nat, i: nat)
    requires Placed(a, mem, root, seats) && t in seats && |seats[t].prefix| + 1 < a.levels
    requires SameBelow(mem, mem', seats, seats[t].prefix)
    ensures Children(a, mem', t, |seats[t].prefix|, i) == Children(a, mem, t, |seats[t].prefix|, i)
    decreases a.levels - |seats[t].prefix|, a.entries - i
  {
    if i < a.entries {
      ChildrenSame(a, mem, mem', root, seats, t, i + 1);
      assert seats[t].prefix <= seats[t].prefix;
      assert Entry(mem', t, i) == Entry(mem, t, i);
      if Entry(mem, t, i).Table? {
        var p := Entry(mem, t, i).addr;
        assert Links(a, mem, root, seats, t, i);
        SameFurtherBelow(mem, mem', seats, seats[t].prefix, seats[p].prefix);
        SubtreeSame(a, mem, mem', root, seats, p);
      }
    }
  }

  /** The walk to the target level through existing tables only. */
  function WalkDown(mem: Memory, t: nat, level: nat, target: nat, path: Path): Result<nat, MapError>
    requires target <= |path|
    decreases target - level
  {
    if level >= target then Ok(t)
    else
      match Entry(mem, t, path[level])
      case Invalid => Err(NotMapped)
      case Leaf(_, _) => Err(AlreadyMapped)
      case Table(p) => WalkDown(mem, p, level + 1, target, path)
  }

  /** How many of the pages `free_page` turned down. */
  function Refusals(freed: seq<nat>, accepts: nat -> bool): nat {
    if freed == [] then 0
    else Refusals(freed[..|freed| - 1], accepts) + (if accepts(freed[|freed| - 1]) then 0 else 1)
  }

  function Saturate(n: nat): nat {
    if n < WORD then n else WORD - 1
  }

  lemma {:induction false} RefusalsJoin(s: seq<nat>, t: seq<nat>, accepts: nat -> bool)
    ensures Refusals(s + t, accepts) == Refusals(s, accepts) + Refusals(t, accepts)
  {
    if t == [] {
      assert s + t == s;
    } else {
      assert (s + t)[..|s + t| - 1] == s + t[..|t| - 1];
      RefusalsJoin(s, t[..|t| - 1], accepts);
    }
  }

  /** Saturating sums of refusal counts are the refusal count of the joined lists. */
  lemma {:induction false} RefusalsAdd(s: seq<nat>, t: seq<nat>, accepts: nat -> bool)
    ensures Saturate(Saturate(Refusals(s, accepts)) + Saturate(Refusals(t, accepts))) == Saturate(Refusals(s + t, accepts))
  {
    RefusalsJoin(s, t, accepts);
  }

  lemma {:induction false} RefusalsOne(s: seq<nat>, x: nat, accepts: nat -> bool)
    ensures Saturate(Refusals(s + [x], accepts)) ==
      if accepts(x) then Saturate(Refusals(s, accepts)) else Saturate(Saturate(Refusals(s, accepts)) + 1)
  {
    assert (s + [x])[..|s + [x]| - 1] == s;
  }

  lemma {:induction false} Assoc<T>(s: seq<T>, t: seq<T>, u: seq<T>)
    ensures s + (t + u) == s + t + u
  {
  }

  lemma {:induction false} ChildrenFrom(a: Arch, mem: Memory, t: nat, level: nat, i: nat, done: seq<nat>, all: seq<nat>)
    requires level + 1 < a.levels && i < a.entries && done + Children(a, mem, t, level, i) == all
    ensures Entry(mem, t, i).Table? ==>
      done + Subtree(a, mem, Entry(mem, t, i).addr, level + 1) + Children(a, mem, t, level, i + 1) == all
    ensures !Entry(mem, t, i).Table? ==> done + Children(a, mem, t, level, i + 1) == all
  {
    if Entry(mem, t, i).Table? {
      var below := Subtree(a, mem, Entry(mem, t, i).addr, level + 1);
      assert done + (below + Children(a, mem, t, level, i + 1)) == done + below + Children(a, mem, t, level, i + 1);
    }
  }

  /** The memory left, the pages handed to `free_page` in order, and the value returned. */
  datatype Promotion = Promotion(mem: Memory, freed: seq<nat>, result: Result<nat, MapError>)

  /** `replace_empty_table_with_leaf`. */
  function Promote(a: Arch, mem: Memory, root: nat, v: nat, target: nat, paddr: nat, perm: Perm, accepts: nat -> bool): Promotion
    requires Lawful(a)
  {
    if target >= a.levels || !a.leafLevel(target) then Promotion(mem, [], Err(UnsupportedLevel))
    else
      var size := Reach(a, target + 1);
      if Rem(v, size) != 0 || Rem(paddr, size) != 0 then Promotion(mem, [], Err(Misaligned))
      else if !a.validPerm(perm) then Promotion(mem, [], Err(InvalidPermission))
      else PromoteAt(a, mem, WalkDown(mem, root, 0, target, PathOf(a, v)), PathOf(a, v)[target], target, paddr, perm, accepts)
  }

  /** ... once the walk has ended. */
  function PromoteAt(a: Arch, mem: Memory, walk: Result<nat, MapError>, i: nat, target: nat, paddr: nat, perm: Perm, accepts: nat -> bool): Promotion {
    if walk.Err? then Promotion(mem, [], Err(walk.error))
    else
      match Entry(mem, walk.value, i)
      case Invalid => Promotion(mem, [], Err(NotMapped))
      case Leaf(_, _) => Promotion(mem, [], Err(AlreadyMapped))
      case Table(p) =>
        if !SubtreeEmpty(a, mem, p, target + 1) then Promotion(mem, [], Err(AlreadyMapped))
        else
          var cut := Write(mem, walk.value, i, Invalid);
          var freed := Subtree(a, cut, p, target + 1);
          match a.leafFlags(target, paddr, perm)
          case None => Promotion(cut, freed, Err(InvalidPermission))
          case Some(flags) =>
            Promotion(Write(cut, walk.value, i, Leaf(paddr, flags)), freed, Ok(Saturate(Refusals(freed, accepts))))
  }

  lemma {:induction false} WalkedDown(a: Arch, mem: Memory, root: nat, seats: Seats, t: nat, target: nat, path: Path)
    requires Placed(a, mem, root, seats) && IsPath(a, path) && OnPath(seats, t, path)
    requires |seats[t].prefix| <= target < a.levels && WalkDown(mem, t, |seats[t].prefix|, target, path).Ok?
    ensures var u := WalkDown(mem, t, |seats[t].prefix|, target, path).value;
      u in seats && seats[u].prefix == path[..target]
    decreases target - |seats[t].prefix|
  {
    var l := |seats[t].prefix|;
    if l < target {
      assert path[l] in path;
      assert Links(a, mem, root, seats, t, path[l]);
      WalkedDown(a, mem, root, seats, Entry(mem, t, path[l]).addr, target, path);
    }
  }

  /** What cutting the subtree off does to the tree: the pages handed to `free_page` are
      exactly those seated below the slot, each once. */
  lemma {:induction false} CutFrees(a: Arch, mem: Memory, root: nat, seats: Seats, t: nat, i: nat, x: nat)
    requires Placed(a, mem, root, seats) && t in seats && i < a.entries && |seats[t].prefix| + 1 < a.levels
    requires Entry(mem, t, i).Table?
    ensures var freed := Subtree(a, Write(mem, t, i, Invalid), Entry(mem, t, i).addr, |seats[t].prefix| + 1);
      NoDup(freed) && (x in freed <==> x in seats && x !in Cut(seats, seats[t].prefix + [i]))
  {
    var p := Entry(mem, t, i).addr;
    assert Links(a, mem, root, seats, t, i);
    SubtreeSame(a, mem, Write(mem, t, i, Invalid), root, seats, p);
    SubtreeSeated(a, mem, root, seats, p);
    if x in seats && seats[p].prefix <= seats[x].prefix { SubtreeComplete(a, mem, root, seats, p, x); }
  }

  lemma {:induction false} PromotedWalks(a: Arch, mem: Memory, root: nat, seats: Seats, t: nat, i: nat, paddr: nat, perm: Perm, accepts: nat -> bool, path: Path)
    requires Placed(a, mem, root, seats) && t in seats && i < a.entries && IsPath(a, path)
    ensures var target := |seats[t].prefix|;
      var r := PromoteAt(a, mem, Ok(t), i, target, paddr, perm, accepts);
      && (r.result.Ok? ==> a.leafFlags(target, paddr, perm).Some?)
      && (r.result.Ok? && seats[t].prefix + [i] <= path ==>
            && Find(mem, root, 0, path) == Err(NotMapped)
            && Find(r.mem, root, 0, path) == Ok(Hit(target, t, i, Leaf(paddr, a.leafFlags(target, paddr, perm).value))))
      && (r.result.Err? || !(seats[t].prefix + [i] <= path) ==> Find(r.mem, root, 0, path) == Find(mem, root, 0, path))
  {
    var target := |seats[t].prefix|;
    if Entry(mem, t, i).Table? && SubtreeEmpty(a, mem, Entry(mem, t, i).addr, target + 1) {
      CutEffect(a, mem, root, seats, t, i, path);
      if a.leafFlags(target, paddr, perm).Some? {
        CutKeepsTree(a, mem, root, seats, t, i);
        var leaf := Leaf(paddr, a.leafFlags(target, paddr, perm).value);
        WriteEffect(a, Write(mem, t, i, Invalid), root, Cut(seats, seats[t].prefix + [i]), t, i, leaf, path);
      }
    }
  }

  lemma {:induction false} PromotedTree(a: Arch, mem: Memory, root: nat, seats: Seats, t: nat, i: nat, paddr: nat, perm: Perm, accepts: nat -> bool, x: nat)
    returns (seats': Seats)
    requires Placed(a, mem, root, seats) && t in seats && i < a.entries
    ensures var r := PromoteAt(a, mem, Ok(t), i, |seats[t].prefix|, paddr, perm, accepts);
      && Placed(a, r.mem, root, seats') && NoDup(r.freed)
      && (x in r.freed <==> x in seats && x !in seats') && (forall y :: y in seats' ==> y in seats)
      && (r.result.Ok? ==> r.freed != [] && r.result.value == Saturate(Refusals(r.freed, accepts)))
  {
    var target := |seats[t].prefix|;
    seats' := seats;
    if Entry(mem, t, i).Table? && SubtreeEmpty(a, mem, Entry(mem, t, i).addr, target + 1) {
      CutFrees(a, mem, root, seats, t, i, x);
      CutKeepsTree(a, mem, root, seats, t, i);
      seats' := Cut(seats, seats[t].prefix + [i]);
      if a.leafFlags(target, paddr, perm).Some? {
        WriteKeepsTree(a, Write(mem, t, i, Invalid), root, seats', t, i, Leaf(paddr, a.leafFlags(target, paddr, perm).value));
      }
    }
  }

  /** A promotion that gets past its entry checks works on the slot of `v` at the target level. */
  lemma {:induction false} PromoteSlot(a: Arch, mem: Memory, root: nat, seats: Seats, v: nat, target: nat, paddr: nat, perm: Perm, accepts: nat -> bool)
    returns (t: nat, i: nat, worked: bool)
    requires Lawful(a) && Placed(a, mem, root, seats)
    ensures var r := Promote(a, mem, root, v, target, paddr, perm, accepts);
      && (!worked ==> r.mem == mem && r.freed == [] && r.result.Err?)
      && (worked ==>
            && target < a.levels && t in seats && i < a.entries && |seats[t].prefix| == target
            && seats[t].prefix + [i] == PathOf(a, v)[..target + 1]
            && r == PromoteAt(a, mem, Ok(t), i, target, paddr, perm, accepts))
  {
    var path := PathOf(a, v);
    t, i, worked := 0, 0, false;
    if target < a.levels && a.leafLevel(target) && Rem(v, Reach(a, target + 1)) == 0 && Rem(paddr, Reach(a, target + 1)) == 0
      && a.validPerm(perm) && WalkDown(mem, root, 0, target, path).Ok?
    {
      t, i, worked := WalkDown(mem, root, 0, target, path).value, path[target], true;
      assert i in path;
      WalkedDown(a, mem, root, seats, root, target, path);
    }
  }

  /** Success changes translation only inside the target page, which held none before; any
      error, even the one raised after the subtree was reclaimed, changes no translation. */
  lemma {:induction false} PromoteEffect(a: Arch, mem: Memory, root: nat, v: nat, target: nat, paddr: nat, perm: Perm, accepts: nat -> bool, w: nat)
    requires Lawful(a) && Tree(a, mem, root)
    ensures var r := Promote(a, mem, root, v, target, paddr, perm, accepts);
      && (r.result.Ok? ==> target < a.levels && a.leafFlags(target, paddr, perm).Some?)
      && (r.result.Ok? && SamePage(a, v, w, target) ==>
            && Translate(a, mem, root, w) == None
            && Translate(a, r.mem, root, w) == Some(Mapping(target, paddr, a.leafFlags(target, paddr, perm).value)))
      && (r.result.Err? || !SamePage(a, v, w, target) ==>
            Translate(a, r.mem, root, w) == Translate(a, mem, root, w))
  {
    var seats: Seats :| Placed(a, mem, root, seats);
    var t, i, worked := PromoteSlot(a, mem, root, seats, v, target, paddr, perm, accepts);
    if worked {
      PromoteEffectAt(a, mem, root, seats, t, i, v, target, paddr, perm, accepts, w,
                      Promote(a, mem, root, v, target, paddr, perm, accepts));
    }
  }

  /** The same for the slot the walk has led to. */
  lemma {:induction false} PromoteEffectAt(
    a: Arch, mem: Memory, root: nat, seats: Seats, t: nat, i: nat, v: nat, target: nat, paddr: nat, perm: Perm,
    accepts: nat -> bool, w: nat, r: Promotion)
    requires Lawful(a) && Placed(a, mem, root, seats) && target < a.levels && t in seats && i < a.entries
    requires |seats[t].prefix| == target && seats[t].prefix + [i] == PathOf(a, v)[..target + 1]
    requires r == PromoteAt(a, mem, Ok(t), i, target, paddr, perm, accepts)
    ensures r.result.Ok? ==> a.leafFlags(target, paddr, perm).Some?
    ensures r.result.Ok? && SamePage(a, v, w, target) ==>
      && Translate(a, mem, root, w) == None
      && Translate(a, r.mem, root, w) == Some(Mapping(target, paddr, a.leafFlags(target, paddr, perm).value))
    ensures r.result.Err? || !SamePage(a, v, w, target) ==> Translate(a, r.mem, root, w) == Translate(a, mem, root, w)
  {
    var pv, pw := PathOf(a, v), PathOf(a, w);
    PromotedWalks(a, mem, root, seats, t, i, paddr, perm, accepts, pw);
    PrefixMeans(pv, pw, target + 1);
  }

  lemma {:induction false} PrefixMeans(p: Path, q: Path, n: nat)
    requires n <= |p| == |q|
    ensures p[..n] <= q <==> p[..n] == q[..n]
  {
  }

  /** The pages handed to `free_page` are exactly the tables that were reachable and no longer
      are, each once; nothing becomes reachable; the tree stays a tree; and success returns
      how many of them `free_page` refused. */
  lemma {:induction false} PromoteReclaims(a: Arch, mem: Memory, root: nat, v: nat, target: nat, paddr: nat, perm: Perm, accepts: nat -> bool, x: nat)
    requires Lawful(a) && Tree(a, mem, root)
    ensures var r := Promote(a, mem, root, v, target, paddr, perm, accepts);
      && Tree(a, r.mem, root)
      && NoDup(r.freed)
      && (x in r.freed <==> Reachable(a, mem, root, x) && !Reachable(a, r.mem, root, x))
      && (Reachable(a, r.mem, root, x) ==> Reachable(a, mem, root, x))
      && (r.result.Ok? ==> r.freed != [] && r.result.value == Saturate(Refusals(r.freed, accepts)))
  {
    var seats: Seats :| Placed(a, mem, root, seats);
    var t, i, worked := PromoteSlot(a, mem, root, seats, v, target, paddr, perm, accepts);
    SeatedIsReachable(a, mem, root, seats, x);
    if worked {
      var seats' := PromotedTree(a, mem, root, seats, t, i, paddr, perm, accepts, x);
      SeatedIsReachable(a, Promote(a, mem, root, v, target, paddr, perm, accepts).mem, root, seats', x);
    }
  }

  /** Promotion keeps the invariant every other operation relies on. */
  lemma {:induction false} PromoteKeepsSound(a: Arch, st: Store, root: nat, v: nat, target: nat, paddr: nat, perm: Perm, accepts: nat -> bool)
    requires Lawful(a) && Sound(a, st, root)
    ensures Sound(a, st.(tables := Promote(a, st.tables, root, v, target, paddr, perm, accepts).mem), root)
  {
    var seats: Seats :| Seated(a, st, root, seats);
    var t, i, worked := PromoteSlot(a, st.tables, root, seats, v, target, paddr, perm, accepts);
    if worked {
      var seats' := PromotedTree(a, st.tables, root, seats, t, i, paddr, perm, accepts, root);
      assert Seated(a, st.(tables := Promote(a, st.tables, root, v, target, paddr, perm, accepts).mem), root, seats');
    }
  }

  /** Pages that are not reachable may be handed out next, those just freed among them. */
  lemma {:induction false} UnreachableIsFresh(a: Arch, st: Store, root: nat, supply: seq<Result<nat, MapError>>)
    requires Lawful(a) && Sound(a, st, root)
    requires forall i :: 0 <= i < |supply| && supply[i].Ok? ==> !Reachable(a, st.tables, root, supply[i].value)
    requires forall i, j :: 0 <= i < j < |supply| && supply[i].Ok? && supply[j].Ok? ==> supply[i].value != supply[j].value
    ensures Sound(a, Store(st.tables, supply), root)
  {
    var seats: Seats :| Seated(a, st, root, seats);
    forall i | 0 <= i < |supply| && supply[i].Ok?
      ensures supply[i].value !in seats
    {
      SeatedIsReachable(a, st.tables, root, seats, supply[i].value);
    }
    assert Seated(a, Store(st.tables, supply), root, seats);
  }
}
