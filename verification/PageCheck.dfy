/** The permission check steps leaf by leaf, yet decides a byte-by-byte property. */
module PageCheck {
  import opened Outcomes
  import opened Arithmetic
  import opened PagingArch
  import opened PageWalk
  import opened PageMap
  import opened PageUnmap

  datatype Need = Need(read: bool, write: bool, execute: bool)

  predicate Grants(flags: Perm, need: Need) {
    (need.read ==> flags.read) && (need.write ==> flags.write) && (need.execute ==> flags.execute)
  }

  /** First byte past the leaf page of the given level that holds `x`. */
  function PageEnd(a: Arch, x: nat, level: nat): nat
    requires Lawful(a)
  {
    ReachPositive(a, level + 1);
    RoundDown(x, Reach(a, level + 1));
    x - Rem(x, Reach(a, level + 1)) + Reach(a, level + 1)
  }

  /** The loop of `validate_range_permissions` from `cur`. */
  function Check(a: Arch, mem: Memory, root: nat, cur: nat, end: nat, need: Need): Option<MapError>
    requires Lawful(a)
    decreases end - cur
  {
    if cur >= end then None
    else
      match Find(mem, root, 0, PathOf(a, cur))
      case Err(e) => Some(e)
      case Ok(h) =>
        if !Grants(h.pte.flags, need) then Some(InvalidPermission)
        else if !a.leafLevel(h.level) then Some(UnsupportedLevel)
        else if PageEnd(a, cur, h.level) >= WORD then Some(Misaligned)
        else
          ReachPositive(a, h.level + 1);
          RoundDown(cur, Reach(a, h.level + 1));
          var next := PageEnd(a, cur, h.level);
          Check(a, mem, root, if next < end then next else end, end, need)
  }

  /** `validate_range_permissions`. */
  function ValidateRange(a: Arch, mem: Memory, root: nat, v: nat, size: nat, need: Need): Option<MapError>
    requires Lawful(a)
  {
    if size == 0 || !a.canonical(v) then Some(Misaligned)
    else if v + size >= WORD || !a.canonical(v + size - 1) then Some(Misaligned)
    else Check(a, mem, root, v, v + size, need)
  }

  /** Byte `x` is covered by a leaf of a supported size that grants the rights and does not
      end at the very top of the address space. */
  ghost predicate ByteOk(a: Arch, mem: Memory, root: nat, x: nat, need: Need)
    requires Lawful(a)
  {
    var m := Translate(a, mem, root, x);
    m.Some? && Rights(m.value.flags, need) && a.leafLevel(m.value.level) && PageEnd(a, x, m.value.level) < WORD
  }

  /** No right that is asked for is missing. */
  predicate Rights(flags: Perm, need: Need) {
    && !(need.read && !flags.read)
    && !(need.write && !flags.write)
    && !(need.execute && !flags.execute)
  }

  /** What is wrong with a byte that is not in order. */
  function ByteFault(a: Arch, mem: Memory, root: nat, x: nat, need: Need): MapError
    requires Lawful(a)
  {
    match Translate(a, mem, root, x)
    case None => NotMapped
    case Some(m) =>
      if !Rights(m.flags, need) then InvalidPermission else if !a.leafLevel(m.level) then UnsupportedLevel else Misaligned
  }

  /** `x` is the first byte of the range that is not in order. */
  ghost predicate FirstFault(a: Arch, mem: Memory, root: nat, lo: nat, hi: nat, need: Need, x: nat)
    requires Lawful(a)
  {
    lo <= x < hi && !ByteOk(a, mem, root, x, need) && forall y :: lo <= y < x ==> ByteOk(a, mem, root, y, need)
  }

  /** Bytes of one page share its leaf. */
  lemma {:induction false} SharedLeaf(a: Arch, mem: Memory, root: nat, base: nat, x: nat, y: nat, h: Hit)
    requires Lawful(a) && Find(mem, root, 0, PathOf(a, x)) == Ok(h) && Rem(base, Reach(a, h.level + 1)) == 0
    requires base <= x < base + Reach(a, h.level + 1) && base <= y < base + Reach(a, h.level + 1)
    ensures Find(mem, root, 0, PathOf(a, y)) == Ok(h)
  {
    assert Alias(a, x, x) && Alias(a, y, y);
    SpanCovers(a, base, h.level, x);
    SpanCovers(a, base, h.level, y);
    SameLeaf(mem, root, 0, PathOf(a, x), PathOf(a, y));
  }

  /** ... and its end. */
  lemma {:induction false} SharedEnd(a: Arch, base: nat, x: nat, level: nat)
    requires Lawful(a) && Rem(base, Reach(a, level + 1)) == 0 && base <= x < base + Reach(a, level + 1)
    ensures PageEnd(a, x, level) == base + Reach(a, level + 1)
  {
    RoundDownSame(base, x, Reach(a, level + 1));
  }

  /** The first byte of the page that holds `x`. */
  lemma {:induction false} PageStart(a: Arch, x: nat, level: nat) returns (base: nat)
    requires Lawful(a)
    ensures base <= x < base + Reach(a, level + 1) == PageEnd(a, x, level)
    ensures Rem(base, Reach(a, level + 1)) == 0 && base == x - Rem(x, Reach(a, level + 1))
  {
    ReachPositive(a, level + 1);
    RoundDown(x, Reach(a, level + 1));
    base := x - Rem(x, Reach(a, level + 1));
  }

  lemma {:induction false} PageShared(a: Arch, mem: Memory, root: nat, cur: nat, x: nat, h: Hit)
    requires Lawful(a) && Find(mem, root, 0, PathOf(a, cur)) == Ok(h) && cur <= x < PageEnd(a, cur, h.level)
    ensures Find(mem, root, 0, PathOf(a, x)) == Ok(h) && PageEnd(a, x, h.level) == PageEnd(a, cur, h.level)
  {
    var base := PageStart(a, cur, h.level);
    SharedLeaf(a, mem, root, base, cur, x, h);
    SharedEnd(a, base, x, h.level);
  }

  /** All bytes of a leaf page pass or fail together. */
  lemma {:induction false} PageAlike(a: Arch, mem: Memory, root: nat, cur: nat, x: nat, need: Need)
    requires Lawful(a) && Find(mem, root, 0, PathOf(a, cur)).Ok?
    requires cur <= x < PageEnd(a, cur, Find(mem, root, 0, PathOf(a, cur)).value.level)
    ensures ByteOk(a, mem, root, x, need) == ByteOk(a, mem, root, cur, need)
  {
    PageShared(a, mem, root, cur, x, Find(mem, root, 0, PathOf(a, cur)).value);
  }

  /** The loop finds the first byte that is not in order and says what is wrong with it. */
  lemma {:induction false} CheckExact(a: Arch, mem: Memory, root: nat, cur: nat, end: nat, need: Need)
    requires Lawful(a)
    ensures Check(a, mem, root, cur, end, need).None? <==> forall x :: cur <= x < end ==> ByteOk(a, mem, root, x, need)
    ensures forall x :: FirstFault(a, mem, root, cur, end, need, x) ==>
      Check(a, mem, root, cur, end, need) == Some(ByteFault(a, mem, root, x, need))
    decreases end - cur
  {
    if cur < end {
      if ByteOk(a, mem, root, cur, need) {
        var h := Find(mem, root, 0, PathOf(a, cur)).value;
        ReachPositive(a, h.level + 1);
        RoundDown(cur, Reach(a, h.level + 1));
        var next := PageEnd(a, cur, h.level);
        forall x | cur <= x < next ensures ByteOk(a, mem, root, x, need) {
          PageAlike(a, mem, root, cur, x, need);
        }
        var next' := if next < end then next else end;
        CheckExact(a, mem, root, next', end, need);
        forall x | FirstFault(a, mem, root, cur, end, need, x) ensures FirstFault(a, mem, root, next', end, need, x) { }
      } else {
        assert Check(a, mem, root, cur, end, need) == Some(ByteFault(a, mem, root, cur, need));
      }
    }
  }

  /** The check accepts a range if and only if the range passes the entry checks and every one
      of its bytes is covered by a leaf granting all requested rights. Past the entry checks
      it reports what is wrong with the first byte that is not in order. */
  lemma {:induction false} ValidateExact(a: Arch, mem: Memory, root: nat, v: nat, size: nat, need: Need)
    requires Lawful(a)
    ensures ValidateRange(a, mem, root, v, size, need).None? <==>
      && size > 0 && v + size < WORD && a.canonical(v) && a.canonical(v + size - 1)
      && forall x :: v <= x < v + size ==> ByteOk(a, mem, root, x, need)
    ensures !(size > 0 && v + size < WORD && a.canonical(v) && a.canonical(v + size - 1)) ==>
      ValidateRange(a, mem, root, v, size, need) == Some(Misaligned)
    ensures size > 0 && v + size < WORD && a.canonical(v) && a.canonical(v + size - 1) ==>
      forall x :: FirstFault(a, mem, root, v, v + size, need, x) ==>
        ValidateRange(a, mem, root, v, size, need) == Some(ByteFault(a, mem, root, x, need))
  {
    CheckExact(a, mem, root, v, v + size, need);
  }
}
