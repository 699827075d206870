/** Address arithmetic of a multi-level page table, for every architecture that meets `Lawful`.

    A table at level `l` covers `Reach(a, l)` bytes and each of its entries `Reach(a, l + 1)`.
    `Block(a, v, l)` numbers the level-`l` region that holds `v` inside the translated address
    space; the entry index at a level is the last base-`entries` digit of the next block number. */
module PagingArch {
  import opened Outcomes
  import opened Arithmetic

  /** One past the largest `usize`. */
  const WORD: nat := 0x1_0000_0000_0000_0000

  datatype Perm = Perm(read: bool, write: bool, execute: bool, user: bool, global: bool)

  /** The constants and the architecture-defined decisions of the `PagingArch` trait.
      `leafFlags` is `make_leaf_pte_for_level`: the flags the new leaf carries, or None. */
  datatype Arch = Arch(
    pageSize: nat,
    levels: nat,
    entries: nat,
    canonical: nat -> bool,
    leafLevel: nat -> bool,
    validPerm: Perm -> bool,
    leafFlags: (nat, nat, Perm) -> Option<Perm>)

  function Reach(a: Arch, level: nat): nat
    decreases a.levels - level
  {
    if level >= a.levels then a.pageSize else Times(a.entries, Reach(a, level + 1))
  }

  ghost predicate Lawful(a: Arch) {
    && 1 <= a.pageSize && 2 <= a.entries && 1 <= a.levels
    && 0 < Reach(a, 0) <= WORD
    && (forall l: nat :: a.leafLevel(l) ==> l < a.levels)
    && (forall l: nat, p: nat, m :: a.leafFlags(l, p, m).Some? ==> a.leafLevel(l))
  }

  /** The translated space fits the 64-bit space a whole number of times. */
  predicate DividesWord(a: Arch) {
    Rem(WORD, Reach(a, 0)) == 0
  }

  function Block(a: Arch, v: nat, level: nat): nat {
    Quot(Rem(v, Reach(a, 0)), Reach(a, level))
  }

  /** `level_index`. */
  function Index(a: Arch, v: nat, level: nat): nat {
    Rem(Block(a, v, level + 1), a.entries)
  }

  /** The entry indices of an address at the first `n` levels. */
  function Digits(a: Arch, v: nat, n: nat): (path: seq<nat>)
    ensures |path| == n
    ensures a.entries > 0 ==> forall d :: d in path ==> d < a.entries
  {
    assert a.entries > 0 && n > 0 ==> Index(a, v, n - 1) < a.entries by {
      if a.entries > 0 && n > 0 { Euclid(Block(a, v, n), a.entries); }
    }
    if n == 0 then [] else Digits(a, v, n - 1) + [Index(a, v, n - 1)]
  }

  /** The path of an address: its entry index at every level. */
  function PathOf(a: Arch, v: nat): (path: seq<nat>) {
    Digits(a, v, a.levels)
  }

  lemma {:induction false} DigitsPrefix(a: Arch, v: nat, n: nat, k: nat)
    requires k <= n
    ensures Digits(a, v, n)[..k] == Digits(a, v, k)
    decreases n
  {
    if k < n { DigitsPrefix(a, v, n - 1, k); }
  }

  lemma {:induction false} PathAt(a: Arch, v: nat, level: nat)
    requires level < a.levels
    ensures PathOf(a, v)[level] == Index(a, v, level)
  {
    DigitsPrefix(a, v, a.levels, level + 1);
  }

  /** `v` and `w` lie in the same page of the given level (or in aliases of it). */
  predicate SamePage(a: Arch, v: nat, w: nat, level: nat)
    requires level < a.levels
  {
    PathOf(a, v)[..level + 1] == PathOf(a, w)[..level + 1]
  }

  /** `x` and `w` translate through the same entries: equal modulo the translated space. */
  predicate Alias(a: Arch, x: nat, w: nat) {
    Rem(x, Reach(a, 0)) == Rem(w, Reach(a, 0))
  }

  lemma {:induction false} AliasDigits(a: Arch, x: nat, w: nat, n: nat)
    requires Alias(a, x, w)
    ensures Digits(a, x, n) == Digits(a, w, n)
  {
    if n > 0 { AliasDigits(a, x, w, n - 1); }
  }

  lemma {:induction false} ReachPositive(a: Arch, level: nat)
    requires 1 <= a.pageSize && 1 <= a.entries
    ensures Reach(a, level) >= 1
    decreases a.levels - level
  {
    if level < a.levels { ReachPositive(a, level + 1); }
  }

  /** A block number extends its parent's by one digit, the index. */
  lemma {:induction false} BlockStep(a: Arch, v: nat, level: nat)
    requires Lawful(a) && level < a.levels
    ensures Block(a, v, level + 1) == Times(Block(a, v, level), a.entries) + Index(a, v, level)
    ensures Index(a, v, level) < a.entries
  {
    ReachPositive(a, level + 1);
    QuotQuot(Rem(v, Reach(a, 0)), Reach(a, level + 1), a.entries, Reach(a, level));
    Euclid(Block(a, v, level + 1), a.entries);
  }

  lemma {:induction false} BlockIff(a: Arch, v: nat, w: nat, level: nat)
    requires Lawful(a) && level < a.levels
    ensures Block(a, v, level + 1) == Block(a, w, level + 1) <==>
      Block(a, v, level) == Block(a, w, level) && Index(a, v, level) == Index(a, w, level)
  {
    BlockStep(a, v, level);
    BlockStep(a, w, level);
    EuclidUnique(Block(a, v, level + 1), a.entries, Block(a, v, level), Index(a, v, level));
    EuclidUnique(Block(a, w, level + 1), a.entries, Block(a, w, level), Index(a, w, level));
  }

  lemma {:induction false} BlockRoot(a: Arch, v: nat)
    requires Lawful(a)
    ensures Block(a, v, 0) == 0
  {
    Euclid(v, Reach(a, 0));
  }

  lemma {:induction false} SnocIff<T>(s: seq<T>, x: T, t: seq<T>, y: T)
    requires |s| == |t|
    ensures s + [x] == t + [y] <==> s == t && x == y
  {
    assert (s + [x])[..|s|] == s && (s + [x])[|s|] == x;
    assert (t + [y])[..|t|] == t && (t + [y])[|t|] == y;
  }

  /** Sharing a path prefix is the same as lying in the same block. */
  lemma {:induction false} DigitsAreBlock(a: Arch, v: nat, w: nat, level: nat)
    requires Lawful(a) && level <= a.levels
    ensures Digits(a, v, level) == Digits(a, w, level) <==> Block(a, v, level) == Block(a, w, level)
  {
    if level == 0 {
      BlockRoot(a, v);
      BlockRoot(a, w);
    } else {
      var l := level - 1;
      DigitsAreBlock(a, v, w, l);
      BlockIff(a, v, w, l);
      SnocIff(Digits(a, v, l), Index(a, v, l), Digits(a, w, l), Index(a, w, l));
    }
  }

  /** The number of level-`level` blocks. */
  function Blocks(a: Arch, level: nat): nat {
    if level == 0 then 1 else Times(Blocks(a, level - 1), a.entries)
  }

  lemma {:induction false} ReachMultiple(a: Arch, level: nat)
    requires Lawful(a) && level <= a.levels
    ensures Reach(a, 0) == Times(Blocks(a, level), Reach(a, level))
    ensures Blocks(a, level) > 0 && Reach(a, level) > 0
  {
    ReachPositive(a, level);
    if level > 0 {
      ReachMultiple(a, level - 1);
      TimesAssoc(Blocks(a, level - 1), a.entries, Reach(a, level));
    }
  }

  /** The addresses of an aligned region of one level, and no others up to aliasing, share
      its path prefix. */
  lemma {:induction false} SpanPrefix(a: Arch, cur: nat, n: nat, w: nat)
    requires Lawful(a) && n <= a.levels && Rem(cur, Reach(a, n)) == 0
    ensures PathOf(a, cur)[..n] == PathOf(a, w)[..n] <==>
      Rem(cur, Reach(a, 0)) <= Rem(w, Reach(a, 0)) < Rem(cur, Reach(a, 0)) + Reach(a, n)
    ensures Rem(cur, Reach(a, 0)) + Reach(a, n) <= Reach(a, 0)
  {
    DigitsAreBlock(a, cur, w, n);
    DigitsPrefix(a, cur, a.levels, n);
    DigitsPrefix(a, w, a.levels, n);
    ReachMultiple(a, n);
    BlockSpan(cur, w, Reach(a, n), Blocks(a, n), Reach(a, 0));
  }

  /** An aligned block of `s` bytes stays contiguous modulo a multiple of `s`. */
  lemma {:induction false} BlockSpan(cur: nat, w: nat, s: nat, k: nat, r: nat)
    requires s > 0 && k > 0 && r == Times(k, s) && Rem(cur, s) == 0
    ensures
      && (Quot(Rem(cur, r), s) == Quot(Rem(w, r), s) <==> Rem(cur, r) <= Rem(w, r) < Rem(cur, r) + s)
      && Rem(cur, r) + s <= r
  {
    RemRem(cur, s, k, r);
    var c, x := Rem(cur, r), Rem(w, r);
    Euclid(cur, r);
    RemMultiple(k, s);
    NextMultiple(c, r, s);
    Euclid(c, s);
    Euclid(x, s);
    if c <= x < c + s { RoundDownSame(c, x, s); }
  }

  /** Addresses of one aligned region share the path prefix. */
  lemma {:induction false} RegionPrefix(a: Arch, n: nat, base: nat, x: nat)
    requires Lawful(a) && n <= a.levels && Rem(base, Reach(a, n)) == 0
    requires base <= x < base + Reach(a, n)
    ensures PathOf(a, base)[..n] == PathOf(a, x)[..n]
  {
    SpanPrefix(a, base, n, x);
    RemAdd(base, x - base, Reach(a, 0));
  }

  /** The last index of a page-aligned address gives its offset in its leaf table. */
  lemma {:induction false} LeafOffset(a: Arch, v: nat)
    requires Lawful(a) && Rem(v, a.pageSize) == 0
    ensures Reach(a, a.levels - 1) == Times(a.entries, a.pageSize) > 0
    ensures Times(Index(a, v, a.levels - 1), a.pageSize) == Rem(v, Reach(a, a.levels - 1))
  {
    var p, e := a.pageSize, a.entries;
    assert Reach(a, a.levels) == p;
    ReachMultiple(a, a.levels - 1);
    ReachMultiple(a, a.levels);
    RemRem(v, p, Blocks(a, a.levels), Reach(a, 0));
    RemRem(v, Times(e, p), Blocks(a, a.levels - 1), Reach(a, 0));
    DigitOffset(Rem(v, Reach(a, 0)), p, e, Reach(a, a.levels - 1));
  }

  lemma {:induction false} WordMultiple(a: Arch, level: nat)
    requires Lawful(a) && DividesWord(a) && level <= a.levels
    ensures Rem(WORD, Reach(a, level)) == 0
  {
    ReachMultiple(a, level);
    RemRem(WORD, Reach(a, level), Blocks(a, level), Reach(a, 0));
  }

  /** Page sizes of every level are multiples of the base page. */
  lemma {:induction false} PageAligned(a: Arch, v: nat, level: nat)
    requires Lawful(a) && level <= a.levels && Rem(v, Reach(a, level)) == 0
    ensures Rem(v, a.pageSize) == 0
    decreases a.levels - level
  {
    if level < a.levels {
      ReachPositive(a, level + 1);
      RemRem(v, Reach(a, level + 1), a.entries, Reach(a, level));
      PageAligned(a, v, level + 1);
    }
  }

  /** The shape shared by x86_64, Sv48 and LoongArch: four levels of 512 entries over 4 KiB pages. */
  ghost predicate FourLevels(a: Arch) {
    && a.pageSize == 0x1000 && a.entries == 0x200 && a.levels == 4
    && (forall l: nat :: a.leafLevel(l) ==> l < 4)
    && (forall l: nat, p: nat, m :: a.leafFlags(l, p, m).Some? ==> a.leafLevel(l))
  }

  lemma {:induction false} FourLevelReach(a: Arch)
    requires FourLevels(a)
    ensures Reach(a, 4) == 0x1000 && Reach(a, 3) == 0x20_0000 && Reach(a, 2) == 0x4000_0000
    ensures Reach(a, 1) == 0x80_0000_0000 && Reach(a, 0) == 0x1_0000_0000_0000
  {
    TimesIsMul(0x200, 0x1000);
    TimesIsMul(0x200, 0x20_0000);
    TimesIsMul(0x200, 0x4000_0000);
    TimesIsMul(0x200, 0x80_0000_0000);
  }

  /** That shape is lawful, and the 64-bit space holds its 48-bit space a whole number of times. */
  lemma {:induction false} FourLevelsLawful(a: Arch)
    requires FourLevels(a)
    ensures Lawful(a) && DividesWord(a)
  {
    FourLevelReach(a);
    RemIsMod(WORD, 0x1_0000_0000_0000);
  }

  lemma {:induction false} IndexDigit(a: Arch, v: nat, level: nat, unit: nat, k: nat)
    requires FourLevels(a) && level < 4 && Reach(a, level + 1) == unit > 0
    requires 0x200 * k * unit == 0x1_0000_0000_0000
    ensures Index(a, v, level) == v / unit % 0x200
  {
    FourLevelReach(a);
    TimesIsMul(k, 0x200);
    TimesIsMul(k * 0x200, unit);
    DigitOfLow(v, unit, 0x200, k, 0x1_0000_0000_0000);
    RemIsMod(v, unit);
    RemIsMod(v / unit, 0x200);
  }

  /** Its entry indices are the nine-bit groups above the page offset. */
  lemma {:induction false} FourLevelIndex(a: Arch, v: nat)
    requires FourLevels(a)
    ensures Index(a, v, 3) == v / 0x1000 % 0x200 && Index(a, v, 2) == v / 0x20_0000 % 0x200
    ensures Index(a, v, 1) == v / 0x4000_0000 % 0x200 && Index(a, v, 0) == v / 0x80_0000_0000 % 0x200
  {
    FourLevelReach(a);
    IndexDigit(a, v, 3, 0x1000, 0x800_0000);
    IndexDigit(a, v, 2, 0x20_0000, 0x4_0000);
    IndexDigit(a, v, 1, 0x4000_0000, 0x200);
    IndexDigit(a, v, 0, 0x80_0000_0000, 1);
  }
}
