/** Laying out the initial user stack: the same cursor arithmetic first plans and then writes. */
module UserStack {
  import opened Outcomes
  import opened Bytes
  import opened StackImage
  import opened StackRoundTrip

  datatype Mode = Plan | Write

  const MAX_STACK_ARG_BYTES: nat := 0x2_0000

  class UserMemory {
    var bytes: Memory

    constructor (bytes: Memory)
      ensures this.bytes == bytes
    {
      this.bytes := bytes;
    }
  }

  ghost predicate Mapped(m: Memory, lo: nat, hi: nat) {
    forall a :: lo <= a < hi ==> a in m
  }

  /** A layout in progress: memory as it was, the lowest address planned, and the top. */
  datatype Pass = Pass(mode: Mode, base: Memory, lo: nat, top: nat)

  /** Planning leaves memory alone; writing has put exactly `image` between the cursor and the top. */
  ghost predicate Wrote(g: Pass, now: Memory, image: seq<Byte>) {
    && g.lo + |image| <= g.top
    && now == (if g.mode == Write then Patch(g.base, g.top - |image|, image) else g.base)
    && (g.mode == Write ==> Mapped(now, g.lo, g.top))
  }

  lemma {:induction false} PatchMapped(m: Memory, at: nat, data: seq<Byte>, lo: nat, hi: nat)
    requires Mapped(m, lo, hi)
    ensures Mapped(Patch(m, at, data), lo, hi)
  {
    forall a: nat | lo <= a < hi
      ensures a in Patch(m, at, data)
    {
      PatchAt(m, at, data, a);
    }
  }

  /** Moves the cursor down over `data`; what is written has been mapped. */
  method Push(mode: Mode, mem: UserMemory, sp: nat, data: seq<Byte>, ghost g: Pass, ghost image: seq<Byte>)
    returns (sp': nat)
    requires mode == g.mode && Wrote(g, mem.bytes, image) && sp == g.top - |image| && g.lo + |data| <= sp
    modifies mem
    ensures sp' == sp - |data| && Wrote(g, mem.bytes, data + image)
  {
    sp' := sp - |data|;
    if mode == Write {
      assert forall a :: sp' <= a < sp' + |data| ==> a in mem.bytes;
      PatchBelow(g.base, sp, image, data);
      PatchMapped(mem.bytes, sp', data, g.lo, g.top);
      mem.bytes := Patch(mem.bytes, sp', data);
    }
  }

  method PushString(mode: Mode, mem: UserMemory, sp: nat, s: seq<Byte>, ghost g: Pass, ghost image: seq<Byte>)
    returns (ptr: nat)
    requires mode == g.mode && Wrote(g, mem.bytes, image) && sp == g.top - |image| && g.lo + |s| + 1 <= sp
    modifies mem
    ensures ptr == sp - (|s| + 1) && Wrote(g, mem.bytes, CString(s) + image)
  {
    ptr := Push(mode, mem, sp, CString(s), g, image);
  }

  lemma {:induction false} FlatStep(list: seq<seq<Byte>>, i: nat)
    requires 0 < i <= |list|
    ensures Flat(list[i - 1..]) == CString(list[i - 1]) + Flat(list[i..])
  {
    assert list[i - 1..][1..] == list[i..];
  }

  lemma {:induction false} PointersStep(list: seq<seq<Byte>>, i: nat, end: nat)
    requires 0 < i <= |list| && |Flat(list[i - 1..])| <= end && |Flat(list[i..])| <= end
    ensures Pointers(list[i - 1..], end) == [end - |Flat(list[i - 1..])|] + Pointers(list[i..], end)
  {
    assert list[i - 1..][1..] == list[i..];
  }

  lemma {:induction false} FlatShrinks(list: seq<seq<Byte>>, i: nat)
    requires i <= |list|
    ensures |Flat(list[i..])| <= |Flat(list)|
  {
    if i == 0 {
      assert list[i..] == list;
    } else {
      FlatShrinks(list, i - 1);
      FlatStep(list, i);
    }
  }

  /** What pushing string `i - 1` onto those behind it gives. */
  lemma {:induction false} StringStep(list: seq<seq<Byte>>, i: nat, sp: nat, image: seq<Byte>, now: seq<Byte>)
    requires 0 < i <= |list| && |Flat(list)| <= sp && now == Flat(list[i..]) + image
    ensures |Flat(list[i - 1..])| == |Flat(list[i..])| + |list[i - 1]| + 1 <= |Flat(list)|
    ensures CString(list[i - 1]) + now == Flat(list[i - 1..]) + image
    ensures Pointers(list[i - 1..], sp) == [sp - |Flat(list[i - 1..])|] + Pointers(list[i..], sp)
  {
    FlatShrinks(list, i - 1);
    FlatStep(list, i);
    PointersStep(list, i, sp);
  }

  /** Pushes strings from the last to the first and returns where each one starts. */
  method PushStrings(mode: Mode, mem: UserMemory, sp: nat, list: seq<seq<Byte>>, ghost g: Pass, ghost image: seq<Byte>)
    returns (sp': nat, ptrs: seq<nat>)
    requires mode == g.mode && Wrote(g, mem.bytes, image) && sp == g.top - |image| && g.lo + |Flat(list)| <= sp
    modifies mem
    ensures sp' == sp - |Flat(list)| && Wrote(g, mem.bytes, Flat(list) + image)
    ensures ptrs == Pointers(list, sp)
  {
    sp', ptrs := sp, [];
    var i := |list|;
    ghost var now := image;
    assert Flat(list[i..]) + image == image;
    while i > 0
      invariant i <= |list| && |Flat(list[i..])| <= |Flat(list)| && now == Flat(list[i..]) + image
      invariant sp' == sp - |Flat(list[i..])| && ptrs == Pointers(list[i..], sp)
      invariant Wrote(g, mem.bytes, now)
    {
      StringStep(list, i, sp, image, now);
      sp' := PushString(mode, mem, sp', list[i - 1], g, now);
      now := CString(list[i - 1]) + now;
      ptrs := [sp'] + ptrs;
      i := i - 1;
    }
    assert list[0..] == list;
  }

  lemma {:induction false} WordBytesStep(ws: seq<nat>, i: nat, image: seq<Byte>, now: seq<Byte>)
    requires 0 < i <= |ws| && now == WordBytes(ws[i..]) + image
    ensures ToLittle(ws[i - 1], 8) + now == WordBytes(ws[i - 1..]) + image
  {
    assert ws[i - 1..][1..] == ws[i..];
  }

  method PushWord(mode: Mode, mem: UserMemory, sp: nat, w: nat, ghost g: Pass, ghost image: seq<Byte>)
    returns (sp': nat)
    requires mode == g.mode && Wrote(g, mem.bytes, image) && sp == g.top - |image| && g.lo + 8 <= sp
    modifies mem
    ensures sp' == sp - 8 && Wrote(g, mem.bytes, ToLittle(w, 8) + image)
  {
    sp' := Push(mode, mem, sp, ToLittle(w, 8), g, image);
  }

  /** Pushes words from the last to the first. */
  method PushWords(mode: Mode, mem: UserMemory, sp: nat, ws: seq<nat>, ghost g: Pass, ghost image: seq<Byte>)
    returns (sp': nat)
    requires mode == g.mode && Wrote(g, mem.bytes, image) && sp == g.top - |image| && g.lo + 8 * |ws| <= sp
    modifies mem
    ensures sp' == sp - 8 * |ws| && Wrote(g, mem.bytes, WordBytes(ws) + image)
  {
    sp' := sp;
    var i := |ws|;
    ghost var now := image;
    assert WordBytes(ws[i..]) + image == image;
    while i > 0
      invariant i <= |ws| && now == WordBytes(ws[i..]) + image
      invariant sp' == sp - 8 * (|ws| - i) && Wrote(g, mem.bytes, now)
    {
      WordBytesStep(ws, i, image, now);
      sp' := PushWord(mode, mem, sp', ws[i - 1], g, now);
      now := ToLittle(ws[i - 1], 8) + now;
      i := i - 1;
    }
    assert ws[0..] == ws;
  }

  lemma {:induction false} PairedStep(pairs: seq<(nat, nat)>, i: nat, image: seq<Byte>)
    requires 0 < i <= |pairs|
    ensures WordBytes([pairs[i - 1].0, pairs[i - 1].1]) + (WordBytes(Paired(pairs[i..])) + image)
         == WordBytes(Paired(pairs[i - 1..])) + image
  {
    assert pairs[i - 1..][1..] == pairs[i..];
    WordBytesJoin([pairs[i - 1].0, pairs[i - 1].1], Paired(pairs[i..]));
  }

  method PushPair(mode: Mode, mem: UserMemory, sp: nat, pair: (nat, nat), ghost g: Pass, ghost image: seq<Byte>)
    returns (sp': nat)
    requires mode == g.mode && Wrote(g, mem.bytes, image) && sp == g.top - |image| && g.lo + 16 <= sp
    modifies mem
    ensures sp' == sp - 16 && Wrote(g, mem.bytes, WordBytes([pair.0, pair.1]) + image)
  {
    sp' := PushWords(mode, mem, sp, [pair.0, pair.1], g, image);
  }

  lemma {:induction false} WordBytesJoin(a: seq<nat>, b: seq<nat>)
    ensures WordBytes(a + b) == WordBytes(a) + WordBytes(b)
  {
    if |a| == 0 {
      assert a + b == b;
    } else {
      assert (a + b)[1..] == a[1..] + b;
      WordBytesJoin(a[1..], b);
    }
  }

  /** Pushes the auxiliary vector pair by pair, its terminator first. */
  method PushPairs(mode: Mode, mem: UserMemory, sp: nat, pairs: seq<(nat, nat)>, ghost g: Pass, ghost image: seq<Byte>)
    returns (sp': nat)
    requires mode == g.mode && Wrote(g, mem.bytes, image) && sp == g.top - |image| && g.lo + 16 * |pairs| <= sp
    modifies mem
    ensures sp' == sp - 16 * |pairs| && Wrote(g, mem.bytes, WordBytes(Paired(pairs)) + image)
  {
    sp' := sp;
    var i := |pairs|;
    ghost var now := image;
    assert WordBytes(Paired(pairs[i..])) + image == image;
    while i > 0
      invariant i <= |pairs| && now == WordBytes(Paired(pairs[i..])) + image
      invariant sp' == sp - 16 * (|pairs| - i) && Wrote(g, mem.bytes, now)
    {
      PairedStep(pairs, i, image);
      sp' := PushPair(mode, mem, sp', pairs[i - 1], g, now);
      now := WordBytes(Paired(pairs[i - 1..])) + image;
      i := i - 1;
    }
    assert pairs[0..] == pairs;
  }

  /** Moves the cursor down without writing; fresh pages are zero there. */
  lemma {:induction false} Skip(g: Pass, now: Memory, image: seq<Byte>, n: nat)
    requires Wrote(g, now, image) && g.lo + n + |image| <= g.top
    requires g.mode == Write ==> forall a :: g.lo <= a < g.top ==> a in g.base && g.base[a] == 0
    ensures Wrote(g, now, Zeros(n) + image)
  {
    if g.mode == Write {
      PatchSkip(g.base, g.top - |image|, image, n);
    }
  }

  // ---------------------------------------------------------------------------
  // The whole layout
  // ---------------------------------------------------------------------------

  /** The size estimate the layout is admitted by. */
  function Budget(inp: Input): nat {
    |Strings(inp)| + 16 + 8 * (ArgCount(inp) + |inp.envp| + 36)
  }

  function StackBudget(stackSize: nat): nat {
    if stackSize / 2 < MAX_STACK_ARG_BYTES then stackSize / 2 else MAX_STACK_ARG_BYTES
  }

  /** The estimate is at most 128 KiB and at most half the stack. */
  predicate Admitted(inp: Input, stackSize: nat) {
    Budget(inp) <= 0x2_0000 && 2 * Budget(inp) <= stackSize
  }

  /** The estimate always falls short of what is laid out: by one word and the padding, 8 to 31 bytes. */
  lemma {:induction false} BudgetShort(inp: Input, top: nat)
    requires Roomy(inp, top)
    ensures Length(inp, top) == Budget(inp) + 8 + Padding(inp, top) && 0 <= Padding(inp, top) <= 23
  {
  }

  /** Below a top this high every admitted layout fits. */
  lemma {:induction false} AdmittedFits(inp: Input, top: nat, stackSize: nat)
    requires 0x2_0000 + 31 <= top && Admitted(inp, stackSize)
    ensures Fits(inp, top)
  {
    assert Roomy(inp, top);
    BudgetShort(inp, top);
  }

  method TotalBytes(list: seq<seq<Byte>>) returns (n: nat)
    ensures n == |Flat(list)|
  {
    n := 0;
    var i: nat := |list|;
    while i > 0
      invariant i <= |list| && n == |Flat(list[i..])|
    {
      FlatStep(list, i);
      n := n + |list[i - 1]| + 1;
      i := i - 1;
    }
    assert list[0..] == list;
  }

  /** The strings, the random bytes and the padding, and where each of them is. */
  method LayStrings(mode: Mode, mem: UserMemory, top: nat, inp: Input, ghost g: Pass)
    returns (sp: nat, args: seq<nat>, envs: seq<nat>)
    requires Roomy(inp, top) && g == Pass(mode, mem.bytes, g.lo, top) && g.lo + |Strings(inp)| + 16 <= top
    requires mode == Write ==> Mapped(mem.bytes, g.lo, top)
    modifies mem
    ensures sp == RandomAt(inp, top) && args == ArgPointers(inp, top) && envs == EnvPointers(inp, top)
    ensures Wrote(g, mem.bytes, Random() + Strings(inp))
  {
    sp := PushString(mode, mem, top, inp.path, g, []);
    assert CString(inp.path) + [] == CString(inp.path);
    if inp.argv == [] {
      args := [sp];
      assert Flat(inp.argv) + CString(inp.path) == CString(inp.path);
    } else {
      sp, args := PushStrings(mode, mem, sp, inp.argv, g, CString(inp.path));
    }
    sp, envs := PushStrings(mode, mem, sp, inp.envp, g, Flat(inp.argv) + CString(inp.path));
    sp := Push(mode, mem, sp, Random(), g, Strings(inp));
  }

  lemma {:induction false} WordsJoin(args: seq<nat>, envs: seq<nat>, pairs: seq<(nat, nat)>, image: seq<Byte>)
    ensures WordBytes([|args|]) + (WordBytes(args) + (WordBytes([0]) + (WordBytes(envs) + (WordBytes([0])
              + (WordBytes(Paired(pairs)) + (WordBytes([0, 0]) + image))))))
         == WordBytes(WordsOf(args, envs, pairs)) + image
  {
    var vector := Paired(pairs) + [0, 0];
    WordBytesJoin(Paired(pairs), [0, 0]);
    WordBytesJoin(envs + [0], vector);
    WordBytesJoin(envs, [0]);
    WordBytesJoin(args + [0], envs + [0] + vector);
    WordBytesJoin(args, [0]);
    WordBytesJoin([|args|], args + [0] + (envs + [0] + vector));
    Regroup(WordBytes([|args|]), WordBytes(args), WordBytes([0]), WordBytes(envs), WordBytes([0]),
            WordBytes(Paired(pairs)), WordBytes([0, 0]), image);
  }

  lemma {:induction false} Regroup(a: seq<Byte>, b: seq<Byte>, c: seq<Byte>, d: seq<Byte>, e: seq<Byte>,
                                   f: seq<Byte>, g: seq<Byte>, h: seq<Byte>)
    ensures a + (b + (c + (d + (e + (f + (g + h)))))) == (a + ((b + c) + ((d + e) + (f + g)))) + h
  {
  }

  /** The words, from the auxiliary vector down to the argument count. */
  method LayWords(mode: Mode, mem: UserMemory, from: nat, args: seq<nat>, envs: seq<nat>, pairs: seq<(nat, nat)>,
                  ghost g: Pass, ghost image: seq<Byte>)
    returns (sp: nat)
    requires g.mode == mode && from == g.top - |image| && Wrote(g, mem.bytes, image)
    requires g.lo + 8 * (|args| + |envs| + 2 * |pairs| + 5) <= from
    modifies mem
    ensures sp == from - 8 * (|args| + |envs| + 2 * |pairs| + 5)
    ensures Wrote(g, mem.bytes, WordBytes(WordsOf(args, envs, pairs)) + image)
  {
    ghost var now := image;
    sp := PushWords(mode, mem, from, [0, 0], g, now);
    now := WordBytes([0, 0]) + now;
    sp := PushPairs(mode, mem, sp, pairs, g, now);
    now := WordBytes(Paired(pairs)) + now;
    sp := PushWords(mode, mem, sp, [0], g, now);
    now := WordBytes([0]) + now;
    sp := PushWords(mode, mem, sp, envs, g, now);
    now := WordBytes(envs) + now;
    sp := PushWords(mode, mem, sp, [0], g, now);
    now := WordBytes([0]) + now;
    sp := PushWords(mode, mem, sp, args, g, now);
    now := WordBytes(args) + now;
    sp := PushWords(mode, mem, sp, [|args|], g, now);
    now := WordBytes([|args|]) + now;
    WordsJoin(args, envs, pairs, image);
  }

  /**
    * Plans or writes the whole stack. Both modes give the same pointer; planning changes nothing, and
    * writing puts the image between that pointer and the top and nothing anywhere else.
    */
  method LayoutUserStack(mode: Mode, mem: UserMemory, top: nat, stackSize: nat, inp: Input) returns (r: Result<nat, Errno>)
    requires Admitted(inp, stackSize) ==> Fits(inp, top)
    requires mode == Write && Admitted(inp, stackSize) ==>
      forall a :: FinalSp(inp, top) <= a < top ==> a in mem.bytes && mem.bytes[a] == 0
    modifies mem
    ensures r == if Admitted(inp, stackSize) then Ok(FinalSp(inp, top)) else Err(EINVAL)
    ensures mode == Plan || r.Err? ==> mem.bytes == old(mem.bytes)
    ensures mode == Write && r.Ok? ==> mem.bytes == Patch(old(mem.bytes), FinalSp(inp, top), Image(inp, top))
  {
    var argBytes := TotalBytes(inp.argv);
    var envBytes := TotalBytes(inp.envp);
    var argc := ArgCount(inp);
    var budget := |inp.path| + 1 + argBytes + envBytes + 16 + 8 * (argc + |inp.envp| + 36);
    if budget > StackBudget(stackSize) {
      return Err(EINVAL);
    }
    ghost var g := Pass(mode, mem.bytes, FinalSp(inp, top), top);
    var sp, args, envs := Laid(mode, mem, top, inp, g);
    return Ok(sp);
  }

  method Laid(mode: Mode, mem: UserMemory, top: nat, inp: Input, ghost g: Pass)
    returns (sp: nat, args: seq<nat>, envs: seq<nat>)
    requires Fits(inp, top) && g == Pass(mode, mem.bytes, FinalSp(inp, top), top)
    requires mode == Write ==> forall a :: FinalSp(inp, top) <= a < top ==> a in mem.bytes && mem.bytes[a] == 0
    modifies mem
    ensures sp == FinalSp(inp, top) && Wrote(g, mem.bytes, Image(inp, top))
  {
    ImageSize(inp, top);
    sp, args, envs := LayStrings(mode, mem, top, inp, g);
    var pairs := AuxPairs(inp, top);
    sp := sp - sp % 16;
    if (|args| + |envs| + 2 * |pairs| + 5) % 2 != 0 {
      sp := sp - 8;
    }
    Skip(g, mem.bytes, Random() + Strings(inp), Padding(inp, top));
    sp := LayWords(mode, mem, sp, args, envs, pairs, g, Zeros(Padding(inp, top)) + (Random() + Strings(inp)));
  }

  lemma {:induction false} HoldsBytes(m: Memory, at: nat, data: seq<Byte>)
    requires forall a {:trigger a in m} :: at <= a < at + |data| ==> a in m && m[a] == data[a - at]
    ensures Holds(m, at, data)
    decreases |data|
  {
    if |data| > 0 {
      assert at in m;
      var rest := data[1..];
      forall a | at + 1 <= a < at + 1 + |rest|
        ensures a in m && m[a] == rest[a - (at + 1)]
      {
        assert a in m;
      }
      HoldsBytes(m, at + 1, rest);
    }
  }

  lemma {:induction false} PatchHolds(m: Memory, at: nat, data: seq<Byte>)
    ensures Holds(Patch(m, at, data), at, data)
  {
    forall a | at <= a < at + |data|
      ensures a in Patch(m, at, data) && Patch(m, at, data)[a] == data[a - at]
    {
      PatchAt(m, at, data, a);
    }
    HoldsBytes(Patch(m, at, data), at, data);
  }

  /** Anonymous memory reads as zero until it is written. */
  function FreshPages(lo: nat, hi: nat): Memory
    requires lo <= hi
  {
    Patch(map[], lo, Zeros(hi - lo))
  }

  lemma {:induction false} FreshPagesAt(lo: nat, hi: nat)
    requires lo <= hi
    ensures forall a :: a in FreshPages(lo, hi) <==> lo <= a < hi
    ensures forall a :: a in FreshPages(lo, hi) ==> FreshPages(lo, hi)[a] == 0
  {
    forall a: nat
      ensures a in FreshPages(lo, hi) <==> lo <= a < hi
      ensures a in FreshPages(lo, hi) ==> FreshPages(lo, hi)[a] == 0
    {
      PatchAt(map[], lo, Zeros(hi - lo), a);
    }
  }

  /**
    * Plans, maps exactly the planned range with zero pages, and writes. The plan and the write always
    * agree; what has been written yields the auxiliary vector, the count, and for every argument and
    * every environment string a pointer to it, in order, both lists closed by a zero, and the auxiliary
    * vector with each key once, leading to the value or the place it stands for.
    */
  method PrepareStack(bottom: nat, top: nat, stackSize: nat, inp: Input) returns (r: Result<nat, Errno>, mem: UserMemory)
    requires (Admitted(inp, stackSize) ==> Fits(inp, top)) && top < SPACE && Aux64(inp.aux)
    ensures r.Ok? <==> Admitted(inp, stackSize) && bottom <= FinalSp(inp, top)
    ensures r.Err? ==> r.error == EINVAL
    ensures r.Ok? ==> r.value == FinalSp(inp, top) && r.value % 16 == 0 && bottom <= r.value < top
    ensures r.Ok? ==> forall a :: a in mem.bytes <==> r.value <= a < top
    ensures r.Ok? ==> Readable(mem.bytes, r.value, inp)
  {
    mem := new UserMemory(map[]);
    var plan := LayoutUserStack(Plan, mem, top, stackSize, inp);
    if plan.Err? {
      r := Err(plan.error);
      return;
    }
    var sp := plan.value;
    if sp < bottom || sp >= top {
      ImageSize(inp, top);
      r := Err(EINVAL);
      return;
    }
    r, mem := WritePlanned(sp, top, stackSize, inp);
  }

  /** Maps the planned range and writes; the pointer cannot differ from the planned one. */
  method WritePlanned(sp: nat, top: nat, stackSize: nat, inp: Input) returns (r: Result<nat, Errno>, mem: UserMemory)
    requires Admitted(inp, stackSize) && Fits(inp, top) && top < SPACE && Aux64(inp.aux)
    requires sp == FinalSp(inp, top)
    ensures r == Ok(sp) && sp % 16 == 0 && (forall a :: a in mem.bytes <==> sp <= a < top)
    ensures Readable(mem.bytes, sp, inp)
  {
    FreshPagesAt(sp, top);
    ghost var zeros := FreshPages(sp, top);
    mem := new UserMemory(FreshPages(sp, top));
    r := LayoutUserStack(Write, mem, top, stackSize, inp);
    if r.Ok? && r.value != sp {
      r := Err(EIO);
      return;
    }
    Prepared(zeros, mem.bytes, sp, top, inp);
  }

  lemma {:induction false} PatchDomain(base: Memory, m: Memory, lo: nat, data: seq<Byte>)
    requires m == Patch(base, lo, data) && forall a :: a in base <==> lo <= a < lo + |data|
    ensures forall a :: a in m <==> lo <= a < lo + |data|
  {
    forall a: nat
      ensures a in m <==> lo <= a < lo + |data|
    {
      PatchAt(base, lo, data, a);
    }
  }

  lemma {:induction false} Prepared(base: Memory, m: Memory, sp: nat, top: nat, inp: Input)
    requires Fits(inp, top) && top < SPACE && Aux64(inp.aux) && sp == FinalSp(inp, top)
    requires (forall a :: a in base <==> sp <= a < top) && m == Patch(base, sp, Image(inp, top))
    ensures sp % 16 == 0 && (forall a :: a in m <==> sp <= a < top)
    ensures Readable(m, sp, inp)
  {
    ImageSize(inp, top);
    SpAligned(inp, top);
    PatchDomain(base, m, sp, Image(inp, top));
    PatchHolds(base, sp, Image(inp, top));
    StackRoundTrips(inp, top, m);
  }

  /** Walks the environment to the zero word that ends it. */
  method FindEnd(m: Memory, start: nat) returns (end: Option<nat>)
    ensures end == SkipEnv(m, start)
  {
    var env := start;
    while true
      invariant SkipEnv(m, env) == SkipEnv(m, start)
      decreases SPACE - env
    {
      var w := ReadWord(m, env);
      if w.None? {
        return None;
      }
      if w.value == 0 {
        return Some(env);
      }
      LastWordUnreadable(m, env);
      env := Later(env, 8);
    }
  }

  /** Collects keys and values up to a zero key or the first word that cannot be read. */
  method CollectPairs(m: Memory, begin: nat) returns (auxv: seq<nat>)
    ensures auxv == ReadAux(m, begin)
  {
    auxv := [];
    var at := begin;
    while true
      invariant ReadAux(m, begin) == auxv + ReadAux(m, at)
      decreases SPACE - at
    {
      var key := ReadWord(m, at);
      if key.None? || key.value == 0 {
        return;
      }
      LastWordUnreadable(m, at);
      var value := ReadWord(m, Later(at, 8));
      if value.None? {
        return;
      }
      LastWordUnreadable(m, Later(at, 8));
      auxv := auxv + [key.value, value.value];
      at := Later(Later(at, 8), 8);
    }
  }

  /** Reads the auxiliary vector back from a stack, whatever is there. */
  method CaptureAuxv(m: Memory, sp: nat) returns (auxv: seq<nat>)
    ensures auxv == Capture(m, sp)
  {
    var count := ReadWord(m, sp);
    if count.None? || count.value * 8 >= SPACE || sp + 8 + count.value * 8 >= SPACE {
      return [];
    }
    var end := FindEnd(m, Later(sp + 8 + count.value * 8, 8));
    if end.None? {
      return [];
    }
    auxv := CollectPairs(m, Later(end.value, 8));
  }
}
