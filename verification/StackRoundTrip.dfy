/** What a program, or the kernel itself, reads back from the initial stack. */
module StackRoundTrip {
  import opened Outcomes
  import opened Bytes
  import opened StackImage

  ghost predicate Holds(m: Memory, at: nat, data: seq<Byte>)
    decreases |data|
  {
    |data| == 0 || (at in m && m[at] == data[0] && Holds(m, at + 1, data[1..]))
  }

  lemma {:induction false} HoldsPart(m: Memory, at: nat, head: seq<Byte>, tail: seq<Byte>)
    requires Holds(m, at, head + tail)
    ensures Holds(m, at, head) && Holds(m, at + |head|, tail)
    decreases |head|
  {
    if |head| == 0 {
      assert head + tail == tail;
    } else {
      assert (head + tail)[1..] == head[1..] + tail;
      HoldsPart(m, at + 1, head[1..], tail);
    }
  }

  /** Every number on the stack fits a word. */
  predicate Words64(ws: seq<nat>) {
    forall i :: 0 <= i < |ws| ==> ws[i] < SPACE
  }

  lemma {:induction false} HeldWord(m: Memory, at: nat, w: nat, n: nat)
    requires Holds(m, at, ToLittle(w, n)) && w < Power256(n) && at + n <= SPACE
    ensures ReadLittle(m, at, n) == Some(w)
    decreases n
  {
    if n > 0 {
      HeldWord(m, at + 1, w / 0x100, n - 1);
    }
  }

  /** The words from `at` on are `ws`. */
  ghost predicate Reads(m: Memory, at: nat, ws: seq<nat>)
    decreases |ws|
  {
    |ws| == 0 || (ReadWord(m, at) == Some(ws[0]) && Reads(m, at + 8, ws[1..]))
  }

  lemma {:induction false} ReadsPart(m: Memory, at: nat, head: seq<nat>, tail: seq<nat>)
    requires Reads(m, at, head + tail)
    ensures Reads(m, at, head) && Reads(m, at + 8 * |head|, tail)
    decreases |head|
  {
    if |head| == 0 {
      assert head + tail == tail;
    } else {
      assert (head + tail)[1..] == head[1..] + tail;
      ReadsPart(m, at + 8, head[1..], tail);
    }
  }

  lemma {:induction false} HeldWords(m: Memory, at: nat, ws: seq<nat>)
    requires Holds(m, at, WordBytes(ws)) && Words64(ws) && at + 8 * |ws| <= SPACE
    ensures Reads(m, at, ws)
    decreases |ws|
  {
    if |ws| > 0 {
      HoldsPart(m, at, ToLittle(ws[0], 8), WordBytes(ws[1..]));
      assert Power256(8) == SPACE;
      HeldWord(m, at, ws[0], 8);
      HeldWords(m, at + 8, ws[1..]);
    }
  }

  lemma {:induction false} SkipsEnv(m: Memory, at: nat, ps: seq<nat>)
    requires Reads(m, at, ps + [0]) && (forall i :: 0 <= i < |ps| ==> ps[i] != 0)
    requires at + 8 * |ps| + 8 < SPACE
    ensures SkipEnv(m, at) == Some(at + 8 * |ps|)
    decreases |ps|
  {
    if |ps| > 0 {
      assert (ps + [0])[1..] == ps[1..] + [0];
      SkipsEnv(m, at + 8, ps[1..]);
    }
  }

  lemma {:induction false} ReadsPairs(m: Memory, at: nat, pairs: seq<(nat, nat)>)
    requires Reads(m, at, Paired(pairs) + [0, 0]) && (forall i :: 0 <= i < |pairs| ==> pairs[i].0 != 0)
    requires at + 16 * |pairs| + 16 < SPACE
    ensures ReadAux(m, at) == Paired(pairs)
    decreases |pairs|
  {
    var ws := Paired(pairs) + [0, 0];
    if |pairs| > 0 {
      var rest := Paired(pairs[1..]) + [0, 0];
      assert ws[1..] == [pairs[0].1] + rest;
      assert ws[1..][1..] == rest;
      assert ReadWord(m, at + 8) == Some(pairs[0].1);
      ReadsPairs(m, at + 16, pairs[1..]);
    }
  }

  lemma {:induction false} BehindList(m: Memory, at: nat, list: seq<nat>, behind: seq<nat>)
    requires Reads(m, at, list + [0] + behind)
    ensures Reads(m, at, list + [0]) && Reads(m, at + 8 * |list| + 8, behind)
  {
    ReadsPart(m, at, list + [0], behind);
  }

  lemma {:induction false} BehindCount(m: Memory, at: nat, n: nat, behind: seq<nat>)
    requires Reads(m, at, [n] + behind)
    ensures ReadWord(m, at) == Some(n) && Reads(m, at + 8, behind)
  {
    assert ([n] + behind)[1..] == behind;
  }

  lemma {:induction false} SplitWords(m: Memory, sp: nat, args: seq<nat>, envs: seq<nat>, vector: seq<nat>)
    requires Reads(m, sp, [|args|] + (args + [0] + (envs + [0] + vector)))
    ensures ReadWord(m, sp) == Some(|args|) && Reads(m, sp + 8, args + [0])
    ensures Reads(m, sp + 16 + 8 * |args|, envs + [0])
    ensures Reads(m, sp + 24 + 8 * |args| + 8 * |envs|, vector)
  {
    var behind := envs + [0] + vector;
    BehindCount(m, sp, |args|, args + [0] + behind);
    BehindList(m, sp + 8, args, behind);
    BehindList(m, sp + 16 + 8 * |args|, envs, vector);
  }

  lemma {:induction false} CaptureParts(m: Memory, sp: nat, argc: nat, env: nat, end: nat, aux: nat)
    requires ReadWord(m, sp) == Some(argc) && env == sp + 16 + 8 * argc && SkipEnv(m, env) == Some(end)
    requires aux == end + 8 && end < SPACE - 8 && env <= end
    ensures Capture(m, sp) == ReadAux(m, aux)
  {
  }

  lemma {:induction false} CaptureTo(m: Memory, sp: nat, argc: nat, env: nat, envs: seq<nat>, end: nat)
    requires ReadWord(m, sp) == Some(argc) && env == sp + 16 + 8 * argc && end == env + 8 * |envs|
    requires Reads(m, env, envs + [0]) && (forall i :: 0 <= i < |envs| ==> envs[i] != 0)
    requires end + 8 < SPACE
    ensures Capture(m, sp) == ReadAux(m, end + 8)
  {
    SkipsEnv(m, env, envs);
    CaptureParts(m, sp, argc, env, end, end + 8);
  }

  /** The reader finds the pairs behind any two pointer lists whose second has no zero in it. */
  lemma {:induction false} CaptureWords(m: Memory, sp: nat, args: seq<nat>, envs: seq<nat>, pairs: seq<(nat, nat)>)
    requires Reads(m, sp, WordsOf(args, envs, pairs))
    requires forall i :: 0 <= i < |envs| ==> envs[i] != 0
    requires forall i :: 0 <= i < |pairs| ==> pairs[i].0 != 0
    requires sp + 8 * (|args| + |envs| + 2 * |pairs| + 5) < SPACE
    ensures Capture(m, sp) == Paired(pairs)
  {
    SplitWords(m, sp, args, envs, Paired(pairs) + [0, 0]);
    var env := sp + 16 + 8 * |args|;
    var end := env + 8 * |envs|;
    CaptureTo(m, sp, |args|, env, envs, end);
    ReadsPairs(m, end + 8, pairs);
  }

  // ---------------------------------------------------------------------------
  // The laid-out stack
  // ---------------------------------------------------------------------------

  lemma {:induction false} PointersBetween(list: seq<seq<Byte>>, end: nat, i: nat)
    requires |Flat(list)| <= end && i < |list|
    ensures end - |Flat(list)| <= Pointers(list, end)[i] < end
  {
    if i > 0 {
      PointersBetween(list[1..], end, i - 1);
    }
  }

  /** The auxiliary values fit a word. */
  predicate Aux64(x: Aux) {
    && x.phdr < SPACE && x.phent < SPACE && x.phnum < SPACE && x.pageSize < SPACE && x.base < SPACE
    && x.entry < SPACE && x.hwcap < SPACE && x.uid < SPACE && x.euid < SPACE && x.gid < SPACE
    && x.egid < SPACE && x.vdso < SPACE
  }

  lemma {:induction false} PairedFit(pairs: seq<(nat, nat)>)
    requires forall i :: 0 <= i < |pairs| ==> pairs[i].0 < SPACE && pairs[i].1 < SPACE
    ensures Words64(Paired(pairs))
  {
    if |pairs| > 0 {
      PairedFit(pairs[1..]);
    }
  }

  lemma {:induction false} WordsOfFit(args: seq<nat>, envs: seq<nat>, pairs: seq<(nat, nat)>)
    requires |args| < SPACE && Words64(args) && Words64(envs) && Words64(Paired(pairs))
    ensures Words64(WordsOf(args, envs, pairs))
  {
    var vector := Paired(pairs) + [0, 0];
    assert Words64(vector);
    assert Words64(envs + [0] + vector);
    assert Words64(args + [0] + (envs + [0] + vector));
  }

  lemma {:induction false} ArgsFit(inp: Input, top: nat)
    requires Roomy(inp, top) && top < SPACE
    ensures Words64(ArgPointers(inp, top))
  {
    forall i | 0 <= i < |inp.argv|
      ensures Pointers(inp.argv, ExecFn(inp, top))[i] < SPACE
    {
      PointersBetween(inp.argv, ExecFn(inp, top), i);
    }
  }

  lemma {:induction false} EnvsFit(inp: Input, top: nat)
    requires Roomy(inp, top) && top < SPACE
    ensures Words64(EnvPointers(inp, top))
    ensures forall i :: 0 <= i < |EnvPointers(inp, top)| ==> EnvPointers(inp, top)[i] != 0
  {
    forall i | 0 <= i < |inp.envp|
      ensures 0 < EnvPointers(inp, top)[i] < SPACE
    {
      PointersBetween(inp.envp, ExecFn(inp, top) - |Flat(inp.argv)|, i);
    }
  }

  lemma {:induction false} PairsFit(inp: Input, top: nat)
    requires Roomy(inp, top) && top < SPACE && Aux64(inp.aux)
    ensures Words64(Paired(AuxPairs(inp, top)))
    ensures |AuxPairs(inp, top)| == 16
    ensures forall i :: 0 <= i < 16 ==> AuxPairs(inp, top)[i].0 != 0
  {
    PairedFit(AuxPairs(inp, top));
  }

  /** The words of the image are what memory reads from the stack pointer on. */
  lemma {:induction false} ReadsWords(inp: Input, top: nat, m: Memory)
    requires Fits(inp, top) && top < SPACE && Aux64(inp.aux)
    requires Holds(m, FinalSp(inp, top), Image(inp, top))
    ensures Reads(m, FinalSp(inp, top), Words(inp, top))
  {
    var sp, ws := FinalSp(inp, top), Words(inp, top);
    ImageSize(inp, top);
    ArgsFit(inp, top);
    EnvsFit(inp, top);
    PairsFit(inp, top);
    WordsOfFit(ArgPointers(inp, top), EnvPointers(inp, top), AuxPairs(inp, top));
    HoldsPart(m, sp, WordBytes(ws), Zeros(Padding(inp, top)) + (Random() + Strings(inp)));
    HeldWords(m, sp, ws);
  }

  /** For every argument and environment list, the reader returns exactly the pairs before the terminator. */
  lemma {:induction false} CaptureRoundTrip(inp: Input, top: nat, m: Memory)
    requires Fits(inp, top) && top < SPACE && Aux64(inp.aux)
    requires Holds(m, FinalSp(inp, top), Image(inp, top))
    ensures Capture(m, FinalSp(inp, top)) == Paired(AuxPairs(inp, top))
  {
    var sp, args, envs, pairs := FinalSp(inp, top), ArgPointers(inp, top), EnvPointers(inp, top), AuxPairs(inp, top);
    ReadsWords(inp, top, m);
    ImageSize(inp, top);
    EnvsFit(inp, top);
    PairsFit(inp, top);
    CaptureWords(m, sp, args, envs, pairs);
  }

  // ---------------------------------------------------------------------------
  // Strings
  // ---------------------------------------------------------------------------

  function ReadCString(m: Memory, at: nat): Option<seq<Byte>>
    decreases SPACE - at
  {
    if at >= SPACE || at !in m then None
    else if m[at] == 0 then Some([])
    else
      match ReadCString(m, at + 1)
      case None => None
      case Some(rest) => Some([m[at]] + rest)
  }

  function UpToNul(s: seq<Byte>): (r: seq<Byte>)
    ensures r == s <==> 0 !in s
  {
    if |s| == 0 || s[0] == 0 then []
    else
      assert s == [s[0]] + s[1..];
      [s[0]] + UpToNul(s[1..])
  }

  lemma {:induction false} ReadsString(m: Memory, at: nat, s: seq<Byte>)
    requires Holds(m, at, CString(s)) && at + |s| < SPACE
    ensures ReadCString(m, at) == Some(UpToNul(s))
    decreases |s|
  {
    if |s| > 0 {
      assert CString(s)[1..] == CString(s[1..]);
      ReadsString(m, at + 1, s[1..]);
    }
  }

  lemma {:induction false} PointsAt(m: Memory, list: seq<seq<Byte>>, end: nat, i: nat)
    requires |Flat(list)| <= end <= SPACE && i < |list| && Holds(m, end - |Flat(list)|, Flat(list))
    ensures ReadCString(m, Pointers(list, end)[i]) == Some(UpToNul(list[i]))
  {
    HoldsPart(m, end - |Flat(list)|, CString(list[0]), Flat(list[1..]));
    if i == 0 {
      ReadsString(m, end - |Flat(list)|, list[0]);
    } else {
      PointsAt(m, list[1..], end, i - 1);
    }
  }

  /** What ends at `top` ends there part by part. */
  lemma {:induction false} HoldsDown(m: Memory, top: nat, head: seq<Byte>, tail: seq<Byte>)
    requires |head| + |tail| <= top && Holds(m, top - (|head| + |tail|), head + tail)
    ensures Holds(m, top - |tail|, tail) && Holds(m, top - |tail| - |head|, head)
  {
    HoldsPart(m, top - (|head| + |tail|), head, tail);
  }

  lemma {:induction false} HoldsLast(m: Memory, top: nat, a: seq<Byte>, b: seq<Byte>, c: seq<Byte>, d: seq<Byte>)
    requires |a| + |b| + |c| + |d| <= top && Holds(m, top - (|a| + |b| + |c| + |d|), a + (b + (c + d)))
    ensures Holds(m, top - |d|, d)
  {
    HoldsDown(m, top, a, b + (c + d));
    HoldsDown(m, top, b, c + d);
    HoldsDown(m, top, c, d);
  }

  lemma {:induction false} HeldStrings(inp: Input, top: nat, m: Memory)
    requires Fits(inp, top) && Holds(m, FinalSp(inp, top), Image(inp, top))
    ensures Holds(m, top - |Strings(inp)|, Strings(inp))
  {
    ImageSize(inp, top);
    HoldsLast(m, top, WordBytes(Words(inp, top)), Zeros(Padding(inp, top)), Random(), Strings(inp));
  }

  /** The three groups of strings are where the pointers expect them. */
  lemma {:induction false} HeldGroups(m: Memory, top: nat, envs: seq<Byte>, args: seq<Byte>, path: seq<Byte>)
    requires |envs| + |args| + |path| <= top
    requires Holds(m, top - (|envs| + |args| + |path|), envs + (args + path))
    ensures Holds(m, top - |path|, path) && Holds(m, top - |path| - |args|, args)
    ensures Holds(m, top - |path| - |args| - |envs|, envs)
  {
    HoldsDown(m, top, envs, args + path);
    HoldsDown(m, top, args, path);
  }

  lemma {:induction false} ArgumentAt(inp: Input, top: nat, m: Memory, i: nat)
    requires Roomy(inp, top) && top < SPACE && Holds(m, top - |Strings(inp)|, Strings(inp))
    requires i < |Args(inp)|
    ensures 0 < ArgPointers(inp, top)[i] && ReadCString(m, ArgPointers(inp, top)[i]) == Some(UpToNul(Args(inp)[i]))
  {
    HeldGroups(m, top, Flat(inp.envp), Flat(inp.argv), CString(inp.path));
    if inp.argv == [] {
      ReadsString(m, ExecFn(inp, top), inp.path);
    } else {
      PointersBetween(inp.argv, ExecFn(inp, top), i);
      PointsAt(m, inp.argv, ExecFn(inp, top), i);
    }
  }

  lemma {:induction false} EnvironmentAt(inp: Input, top: nat, m: Memory, i: nat)
    requires Roomy(inp, top) && top < SPACE && Holds(m, top - |Strings(inp)|, Strings(inp))
    requires i < |inp.envp|
    ensures 0 < EnvPointers(inp, top)[i] && ReadCString(m, EnvPointers(inp, top)[i]) == Some(UpToNul(inp.envp[i]))
  {
    HeldGroups(m, top, Flat(inp.envp), Flat(inp.argv), CString(inp.path));
    PointersBetween(inp.envp, ExecFn(inp, top) - |Flat(inp.argv)|, i);
    PointsAt(m, inp.envp, ExecFn(inp, top) - |Flat(inp.argv)|, i);
  }

  /** The word at `at` is a pointer that leads to `s`, up to its first NUL. */
  ghost predicate LeadsTo(m: Memory, at: nat, s: seq<Byte>) {
    var p := ReadWord(m, at);
    p.Some? && p.value != 0 && ReadCString(m, p.value) == Some(UpToNul(s))
  }

  /** The words from `at` on are one pointer for each string, in order, and then a zero. */
  ghost predicate ListAt(m: Memory, at: nat, strings: seq<seq<Byte>>) {
    && (forall i :: 0 <= i < |strings| ==> LeadsTo(m, at + 8 * i, strings[i]))
    && ReadWord(m, at + 8 * |strings|) == Some(0)
  }

  lemma {:induction false} ReadsAt(m: Memory, at: nat, ws: seq<nat>, i: nat)
    requires Reads(m, at, ws) && i < |ws|
    ensures ReadWord(m, at + 8 * i) == Some(ws[i])
    decreases |ws|
  {
    if i > 0 {
      ReadsAt(m, at + 8, ws[1..], i - 1);
    }
  }

  lemma {:induction false} PointersListed(m: Memory, at: nat, ps: seq<nat>, strings: seq<seq<Byte>>)
    requires Reads(m, at, ps + [0]) && |ps| == |strings|
    requires forall i :: 0 <= i < |ps| ==> 0 < ps[i] && ReadCString(m, ps[i]) == Some(UpToNul(strings[i]))
    ensures ListAt(m, at, strings)
  {
    ReadsAt(m, at, ps + [0], |ps|);
    forall i | 0 <= i < |strings|
      ensures LeadsTo(m, at + 8 * i, strings[i])
    {
      ReadsAt(m, at, ps + [0], i);
    }
  }

  /** The count and both pointer lists, as words in memory. */
  lemma {:induction false} ReadsLists(inp: Input, top: nat, m: Memory)
    requires Fits(inp, top) && top < SPACE && Aux64(inp.aux) && Holds(m, FinalSp(inp, top), Image(inp, top))
    ensures |ArgPointers(inp, top)| == |Args(inp)| && ReadWord(m, FinalSp(inp, top)) == Some(|Args(inp)|)
    ensures Reads(m, FinalSp(inp, top) + 8, ArgPointers(inp, top) + [0])
    ensures Reads(m, FinalSp(inp, top) + 16 + 8 * |Args(inp)|, EnvPointers(inp, top) + [0])
  {
    ImageSize(inp, top);
    ReadsWords(inp, top, m);
    SplitWords(m, FinalSp(inp, top), ArgPointers(inp, top), EnvPointers(inp, top), Paired(AuxPairs(inp, top)) + [0, 0]);
  }

  /** Behind the count, memory holds a pointer to every argument, in order, and then a zero. */
  lemma {:induction false} ArgumentRoundTrip(inp: Input, top: nat, m: Memory)
    requires Fits(inp, top) && top < SPACE && Aux64(inp.aux) && Holds(m, FinalSp(inp, top), Image(inp, top))
    ensures ReadWord(m, FinalSp(inp, top)) == Some(|Args(inp)|) && ListAt(m, FinalSp(inp, top) + 8, Args(inp))
  {
    var args := ArgPointers(inp, top);
    ReadsLists(inp, top, m);
    HeldStrings(inp, top, m);
    forall i | 0 <= i < |args|
      ensures 0 < args[i] && ReadCString(m, args[i]) == Some(UpToNul(Args(inp)[i]))
    {
      ArgumentAt(inp, top, m, i);
    }
    PointersListed(m, FinalSp(inp, top) + 8, args, Args(inp));
  }

  /** Behind the arguments, memory holds a pointer to every environment string, in order, and then a zero. */
  lemma {:induction false} EnvironmentRoundTrip(inp: Input, top: nat, m: Memory)
    requires Fits(inp, top) && top < SPACE && Aux64(inp.aux) && Holds(m, FinalSp(inp, top), Image(inp, top))
    ensures ListAt(m, FinalSp(inp, top) + 16 + 8 * |Args(inp)|, inp.envp)
  {
    var envs := EnvPointers(inp, top);
    ReadsLists(inp, top, m);
    HeldStrings(inp, top, m);
    forall i | 0 <= i < |envs|
      ensures 0 < envs[i] && ReadCString(m, envs[i]) == Some(UpToNul(inp.envp[i]))
    {
      EnvironmentAt(inp, top, m, i);
    }
    PointersListed(m, FinalSp(inp, top) + 16 + 8 * |Args(inp)|, envs, inp.envp);
  }

  lemma {:induction false} PathAt(inp: Input, top: nat, m: Memory)
    requires Roomy(inp, top) && top < SPACE && Holds(m, top - |Strings(inp)|, Strings(inp))
    ensures ReadCString(m, ExecFn(inp, top)) == Some(UpToNul(inp.path))
  {
    HeldGroups(m, top, Flat(inp.envp), Flat(inp.argv), CString(inp.path));
    ReadsString(m, ExecFn(inp, top), inp.path);
  }

  // ---------------------------------------------------------------------------
  // The auxiliary vector by its keys
  // ---------------------------------------------------------------------------

  /** The value behind the first occurrence of a key among alternating keys and values. */
  function Lookup(ws: seq<nat>, key: nat): Option<nat> {
    if |ws| < 2 then None else if ws[0] == key then Some(ws[1]) else Lookup(ws[2..], key)
  }

  lemma {:induction false} LookupAt(pairs: seq<(nat, nat)>, i: nat)
    requires i < |pairs| && forall j :: 0 <= j < i ==> pairs[j].0 != pairs[i].0
    ensures Lookup(Paired(pairs), pairs[i].0) == Some(pairs[i].1)
  {
    var ws := Paired(pairs);
    assert ws[2..] == Paired(pairs[1..]);
    if i > 0 {
      assert pairs[0].0 != pairs[i].0;
      LookupAt(pairs[1..], i - 1);
    }
  }

  /** No key stands twice. */
  ghost predicate KeysDiffer(ws: seq<nat>) {
    forall i, j :: 0 <= i < j && 2 * j < |ws| ==> ws[2 * i] != ws[2 * j]
  }

  lemma {:induction false} PairedKey(pairs: seq<(nat, nat)>, i: nat)
    requires i < |pairs|
    ensures Paired(pairs)[2 * i] == pairs[i].0
  {
    if i > 0 {
      PairedKey(pairs[1..], i - 1);
      assert Paired(pairs)[2 * i] == Paired(pairs[1..])[2 * (i - 1)];
    }
  }

  /** What the vector tells the program: each key once, with the number or the place it stands for. */
  ghost predicate VectorTells(m: Memory, ws: seq<nat>, inp: Input) {
    && |ws| == 32 && KeysDiffer(ws) && NumbersTold(ws, inp.aux)
    && (var p := Lookup(ws, 25);
        p.Some? && ReadWord(m, p.value) == Some(0x6d79_676f_5f72_6e64) && ReadWord(m, p.value + 8) == Some(0xfedc_ba98_7654_3210))
    && (var p := Lookup(ws, 31); p.Some? && ReadCString(m, p.value) == Some(UpToNul(inp.path)))
  }

  predicate NumbersTold(ws: seq<nat>, x: Aux) {
    && Lookup(ws, 3) == Some(x.phdr) && Lookup(ws, 4) == Some(x.phent) && Lookup(ws, 5) == Some(x.phnum)
    && Lookup(ws, 6) == Some(x.pageSize) && Lookup(ws, 7) == Some(x.base) && Lookup(ws, 9) == Some(x.entry)
    && Lookup(ws, 11) == Some(x.uid) && Lookup(ws, 12) == Some(x.euid)
    && Lookup(ws, 13) == Some(x.gid) && Lookup(ws, 14) == Some(x.egid)
    && Lookup(ws, 16) == Some(x.hwcap) && Lookup(ws, 17) == Some(100)
    && Lookup(ws, 23) == Some(0) && Lookup(ws, 33) == Some(x.vdso)
  }

  lemma {:induction false} KeysOfVector(inp: Input, top: nat, pairs: seq<(nat, nat)>)
    requires Roomy(inp, top) && pairs == AuxPairs(inp, top)
    ensures |pairs| == 16 && forall i, j :: 0 <= i < j < 16 ==> pairs[i].0 != pairs[j].0
  {
  }

  lemma {:induction false} VectorLookups(inp: Input, top: nat, pairs: seq<(nat, nat)>)
    requires Roomy(inp, top) && pairs == AuxPairs(inp, top)
    ensures NumbersTold(Paired(pairs), inp.aux)
    ensures Lookup(Paired(pairs), 25) == Some(RandomAt(inp, top)) && Lookup(Paired(pairs), 31) == Some(ExecFn(inp, top))
  {
    KeysOfVector(inp, top, pairs);
    forall i | 0 <= i < 16
      ensures Lookup(Paired(pairs), pairs[i].0) == Some(pairs[i].1)
    {
      LookupAt(pairs, i);
    }
    assert pairs[0].0 == 3 && pairs[1].0 == 4 && pairs[2].0 == 5 && pairs[3].0 == 6 && pairs[4].0 == 7;
    assert pairs[5].0 == 9 && pairs[6].0 == 16 && pairs[7].0 == 17 && pairs[8].0 == 11 && pairs[9].0 == 12;
    assert pairs[10].0 == 13 && pairs[11].0 == 14 && pairs[12].0 == 23 && pairs[13].0 == 25 && pairs[14].0 == 31;
    assert pairs[15].0 == 33;
  }

  lemma {:induction false} VectorKeysDiffer(pairs: seq<(nat, nat)>)
    requires forall i, j :: 0 <= i < j < |pairs| ==> pairs[i].0 != pairs[j].0
    ensures KeysDiffer(Paired(pairs))
  {
    var ws := Paired(pairs);
    forall i, j | 0 <= i < j && 2 * j < |ws|
      ensures ws[2 * i] != ws[2 * j]
    {
      PairedKey(pairs, i);
      PairedKey(pairs, j);
    }
  }

  lemma {:induction false} LittleAt(v: nat, n: nat, i: nat)
    requires i < n
    ensures ToLittle(v, n)[i] == ByteOf(v, i)
    decreases n, v
  {
    if i > 0 {
      LittleAt(v / 0x100, n - 1, i - 1);
    }
  }

  /** The sixteen bytes are the two words. */
  lemma {:induction false} RandomWords(v: nat, w: nat)
    requires v == FIRST_RANDOM && w == SECOND_RANDOM
    ensures Random() == ToLittle(v, 8) + ToLittle(w, 8)
  {
    var b, c := ToLittle(v, 8), ToLittle(w, 8);
    forall i | 0 <= i < 16
      ensures Random()[i] == (b + c)[i]
    {
      if i < 8 {
        LittleAt(v, 8, i);
      } else {
        LittleAt(w, 8, i - 8);
      }
    }
  }

  lemma {:induction false} RandomRead(inp: Input, top: nat, m: Memory, v: nat, w: nat)
    requires Fits(inp, top) && top < SPACE && Holds(m, FinalSp(inp, top), Image(inp, top))
    requires v == FIRST_RANDOM && w == SECOND_RANDOM
    ensures ReadWord(m, RandomAt(inp, top)) == Some(v) && ReadWord(m, RandomAt(inp, top) + 8) == Some(w)
  {
    RandomWords(v, w);
    var b, c := ToLittle(v, 8), ToLittle(w, 8);
    HeldRandom(inp, top, m, b + c);
    TwoWords(m, RandomAt(inp, top), v, w, b, c);
  }

  lemma {:induction false} HeldRandom(inp: Input, top: nat, m: Memory, r: seq<Byte>)
    requires Fits(inp, top) && Holds(m, FinalSp(inp, top), Image(inp, top)) && r == Random()
    ensures Holds(m, RandomAt(inp, top), r)
  {
    ImageSize(inp, top);
    HoldsThird(m, top, WordBytes(Words(inp, top)), Zeros(Padding(inp, top)), r, Strings(inp));
  }

  lemma {:induction false} HoldsThird(m: Memory, top: nat, a: seq<Byte>, b: seq<Byte>, c: seq<Byte>, d: seq<Byte>)
    requires |a| + |b| + |c| + |d| <= top && Holds(m, top - (|a| + |b| + |c| + |d|), a + (b + (c + d)))
    ensures Holds(m, top - |d| - |c|, c)
  {
    HoldsDown(m, top, a, b + (c + d));
    HoldsDown(m, top, b, c + d);
    HoldsDown(m, top, c, d);
  }

  lemma {:induction false} TwoWords(m: Memory, at: nat, v: nat, w: nat, b: seq<Byte>, c: seq<Byte>)
    requires ToLittle(v, 8) == b && ToLittle(w, 8) == c && Holds(m, at, b + c)
    requires v < SPACE && w < SPACE && at + 16 <= SPACE
    ensures ReadWord(m, at) == Some(v) && ReadWord(m, at + 8) == Some(w)
  {
    HoldsPart(m, at, b, c);
    assert Power256(8) == SPACE;
    HeldWord(m, at, v, 8);
    HeldWord(m, at + 8, w, 8);
  }

  /** Read from memory alone, the vector tells all of that. */
  lemma {:induction false} VectorRoundTrip(inp: Input, top: nat, m: Memory)
    requires Fits(inp, top) && top < SPACE && Aux64(inp.aux) && Holds(m, FinalSp(inp, top), Image(inp, top))
    ensures VectorTells(m, Capture(m, FinalSp(inp, top)), inp)
  {
    var pairs := AuxPairs(inp, top);
    CaptureRoundTrip(inp, top, m);
    KeysOfVector(inp, top, pairs);
    VectorKeysDiffer(pairs);
    VectorLookups(inp, top, pairs);
    RandomRead(inp, top, m, 0x6d79_676f_5f72_6e64, 0xfedc_ba98_7654_3210);
    HeldStrings(inp, top, m);
    PathAt(inp, top, m);
  }

  /**
    * What a program finds at its stack pointer: the argument count, a pointer to every argument and a
    * zero, a pointer to every environment string and a zero, and the auxiliary vector.
    */
  ghost predicate Readable(m: Memory, sp: nat, inp: Input) {
    && ReadWord(m, sp) == Some(|Args(inp)|) && ListAt(m, sp + 8, Args(inp)) && ListAt(m, sp + 16 + 8 * |Args(inp)|, inp.envp)
    && VectorTells(m, Capture(m, sp), inp)
  }

  /** The laid-out stack reads back as what went in. */
  lemma {:induction false} StackRoundTrips(inp: Input, top: nat, m: Memory)
    requires Fits(inp, top) && top < SPACE && Aux64(inp.aux) && Holds(m, FinalSp(inp, top), Image(inp, top))
    ensures Readable(m, FinalSp(inp, top), inp)
  {
    ArgumentRoundTrip(inp, top, m);
    EnvironmentRoundTrip(inp, top, m);
    VectorRoundTrip(inp, top, m);
  }
}
