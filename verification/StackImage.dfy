/** The initial user stack as a value, and the reader that finds the auxiliary vector in it. */
module StackImage {
  import opened Outcomes
  import opened Bytes

  /** The bytes of user memory that can be accessed. */
  type Memory = map<nat, Byte>

  /** One past the highest address. */
  const SPACE: nat := 0x1_0000_0000_0000_0000

  datatype Aux = Aux(
    phdr: nat, phent: nat, phnum: nat, pageSize: nat, base: nat, entry: nat, hwcap: nat,
    uid: nat, euid: nat, gid: nat, egid: nat, vdso: nat)

  datatype Input = Input(path: seq<Byte>, argv: seq<seq<Byte>>, envp: seq<seq<Byte>>, aux: Aux)

  // ---------------------------------------------------------------------------
  // Layout
  // ---------------------------------------------------------------------------

  function CString(s: seq<Byte>): seq<Byte> {
    s + [0]
  }

  /** Strings with their terminators, the first one lowest. */
  function Flat(list: seq<seq<Byte>>): seq<Byte> {
    if |list| == 0 then [] else CString(list[0]) + Flat(list[1..])
  }

  /** Where each string of `Flat(list)` starts when the last one ends at `end`. */
  function Pointers(list: seq<seq<Byte>>, end: nat): (ps: seq<nat>)
    requires |Flat(list)| <= end
    ensures |ps| == |list|
  {
    if |list| == 0 then [] else [end - |Flat(list)|] + Pointers(list[1..], end)
  }

  const FIRST_RANDOM: nat := 0x6d79_676f_5f72_6e64
  const SECOND_RANDOM: nat := 0xfedc_ba98_7654_3210

  function ByteOf(word: nat, i: nat): Byte
    decreases i, word
  {
    if i == 0 then word % 0x100 else ByteOf(word / 0x100, i - 1)
  }

  /** The two words, lowest byte first. */
  function Random(): (r: seq<Byte>)
    ensures |r| == 16
  {
    seq(16, i requires 0 <= i < 16 => if i < 8 then ByteOf(FIRST_RANDOM, i) else ByteOf(SECOND_RANDOM, i - 8))
  }

  function Strings(inp: Input): seq<Byte> {
    Flat(inp.envp) + (Flat(inp.argv) + CString(inp.path))
  }

  function ExecFn(inp: Input, top: nat): nat
    requires |inp.path| + 1 <= top
  {
    top - (|inp.path| + 1)
  }

  /** Room for the strings and the random bytes. */
  predicate Roomy(inp: Input, top: nat) {
    |Strings(inp)| + 16 <= top
  }

  function ArgPointers(inp: Input, top: nat): seq<nat>
    requires Roomy(inp, top)
  {
    if inp.argv == [] then [ExecFn(inp, top)] else Pointers(inp.argv, ExecFn(inp, top))
  }

  function EnvPointers(inp: Input, top: nat): seq<nat>
    requires Roomy(inp, top)
  {
    Pointers(inp.envp, ExecFn(inp, top) - |Flat(inp.argv)|)
  }

  function RandomAt(inp: Input, top: nat): nat
    requires Roomy(inp, top)
  {
    top - |Strings(inp)| - 16
  }

  /** The auxiliary vector without its terminator. */
  function AuxPairs(inp: Input, top: nat): seq<(nat, nat)>
    requires Roomy(inp, top)
  {
    [(3, inp.aux.phdr), (4, inp.aux.phent), (5, inp.aux.phnum), (6, inp.aux.pageSize), (7, inp.aux.base),
     (9, inp.aux.entry), (16, inp.aux.hwcap), (17, 100), (11, inp.aux.uid), (12, inp.aux.euid),
     (13, inp.aux.gid), (14, inp.aux.egid), (23, 0), (25, RandomAt(inp, top)), (31, ExecFn(inp, top)),
     (33, inp.aux.vdso)]
  }

  function Paired(pairs: seq<(nat, nat)>): (ws: seq<nat>)
    ensures |ws| == 2 * |pairs|
  {
    if |pairs| == 0 then [] else [pairs[0].0, pairs[0].1] + Paired(pairs[1..])
  }

  /** The words of the stack, lowest first: the count, two closed pointer lists, the closed vector. */
  function WordsOf(args: seq<nat>, envs: seq<nat>, pairs: seq<(nat, nat)>): (ws: seq<nat>)
    ensures |ws| == |args| + |envs| + 2 * |pairs| + 5
  {
    [|args|] + (args + [0] + (envs + [0] + (Paired(pairs) + [0, 0])))
  }

  function Words(inp: Input, top: nat): seq<nat>
    requires Roomy(inp, top)
  {
    WordsOf(ArgPointers(inp, top), EnvPointers(inp, top), AuxPairs(inp, top))
  }

  function WordBytes(ws: seq<nat>): (b: seq<Byte>)
    ensures |b| == 8 * |ws|
  {
    if |ws| == 0 then [] else ToLittle(ws[0], 8) + WordBytes(ws[1..])
  }

  function Zeros(n: nat): (z: seq<Byte>)
    ensures |z| == n && forall i :: 0 <= i < n ==> z[i] == 0
  {
    if n == 0 then [] else Zeros(n - 1) + [0]
  }

  /** The arguments the program sees: the path stands in for an empty list. */
  function Args(inp: Input): (args: seq<seq<Byte>>)
    ensures args != []
  {
    if inp.argv == [] then [inp.path] else inp.argv
  }

  function ArgCount(inp: Input): nat {
    |Args(inp)|
  }

  /** How many words there are: the count, the pointers and their ends, and seventeen pairs. */
  function WordCount(inp: Input): nat {
    ArgCount(inp) + |inp.envp| + 37
  }

  /** The bytes skipped to align the words. */
  function Padding(inp: Input, top: nat): nat
    requires Roomy(inp, top)
  {
    RandomAt(inp, top) % 16 + (if WordCount(inp) % 2 != 0 then 8 else 0)
  }

  function Length(inp: Input, top: nat): nat
    requires Roomy(inp, top)
  {
    8 * WordCount(inp) + Padding(inp, top) + 16 + |Strings(inp)|
  }

  predicate Fits(inp: Input, top: nat) {
    Roomy(inp, top) && Length(inp, top) <= top
  }

  function FinalSp(inp: Input, top: nat): (sp: nat)
    requires Fits(inp, top)
  {
    top - Length(inp, top)
  }

  /** Everything between the final stack pointer and the top. */
  function Image(inp: Input, top: nat): seq<Byte>
    requires Roomy(inp, top)
  {
    WordBytes(Words(inp, top)) + (Zeros(Padding(inp, top)) + (Random() + Strings(inp)))
  }

  lemma {:induction false} ImageSize(inp: Input, top: nat)
    requires Roomy(inp, top)
    ensures |Image(inp, top)| == Length(inp, top)
    ensures |Words(inp, top)| == WordCount(inp) && |ArgPointers(inp, top)| == ArgCount(inp)
  {
    assert |AuxPairs(inp, top)| == 16;
  }

  lemma {:induction false} AlignedDown(random: int, n: nat, pad: nat)
    requires pad == if n % 2 != 0 then 8 else 0
    ensures (random - random % 16 - pad - 8 * n) % 16 == 0
  {
    var k := (n + 1) / 2;
    assert pad + 8 * n == 16 * k;
    assert random - random % 16 == 16 * (random / 16);
    assert random - random % 16 - pad - 8 * n == 16 * (random / 16 - k);
  }

  /** The stack pointer handed to the program is a multiple of sixteen. */
  lemma {:induction false} SpAligned(inp: Input, top: nat)
    requires Fits(inp, top)
    ensures FinalSp(inp, top) % 16 == 0
  {
    var n := WordCount(inp);
    AlignedDown(RandomAt(inp, top), n, if n % 2 != 0 then 8 else 0);
  }

  // ---------------------------------------------------------------------------
  // Memory
  // ---------------------------------------------------------------------------

  function Patch(m: Memory, at: nat, data: seq<Byte>): Memory
    decreases |data|
  {
    if |data| == 0 then m else Patch(m[at := data[0]], at + 1, data[1..])
  }

  lemma {:induction false} PatchAt(m: Memory, at: nat, data: seq<Byte>, a: nat)
    ensures a in Patch(m, at, data) <==> a in m || at <= a < at + |data|
    ensures at <= a < at + |data| ==> Patch(m, at, data)[a] == data[a - at]
    ensures a in m && !(at <= a < at + |data|) ==> Patch(m, at, data)[a] == m[a]
    decreases |data|
  {
    if |data| > 0 {
      PatchAt(m[at := data[0]], at + 1, data[1..], a);
    }
  }

  /** Two patches, the second just below the first, are one. */
  lemma {:induction false} PatchBelow(m: Memory, at: nat, data: seq<Byte>, more: seq<Byte>)
    requires |more| <= at
    ensures Patch(Patch(m, at, data), at - |more|, more) == Patch(m, at - |more|, more + data)
  {
    var p := Patch(m, at, data);
    var l, r := Patch(p, at - |more|, more), Patch(m, at - |more|, more + data);
    forall a: nat
      ensures a in l <==> a in r
      ensures a in l ==> l[a] == r[a]
    {
      PatchAt(m, at, data, a);
      PatchAt(p, at - |more|, more, a);
      PatchAt(m, at - |more|, more + data, a);
    }
    assert l.Keys == r.Keys;
  }

  /** Skipping over bytes that are zero already is writing zeros. */
  lemma {:induction false} PatchSkip(m: Memory, at: nat, data: seq<Byte>, n: nat)
    requires n <= at && forall a :: at - n <= a < at ==> a in m && m[a] == 0
    ensures Patch(m, at, data) == Patch(m, at - n, Zeros(n) + data)
  {
    var l, r := Patch(m, at, data), Patch(m, at - n, Zeros(n) + data);
    forall a: nat
      ensures a in l <==> a in r
      ensures a in l ==> l[a] == r[a]
    {
      PatchAt(m, at, data, a);
      PatchAt(m, at - n, Zeros(n) + data, a);
    }
    assert l.Keys == r.Keys;
  }

  // ---------------------------------------------------------------------------
  // Reading the auxiliary vector
  // ---------------------------------------------------------------------------

  /** The number in `n` bytes, lowest first, if they can all be read. */
  function ReadLittle(m: Memory, at: nat, n: nat): Option<nat>
    decreases n, at
  {
    if n == 0 then Some(0)
    else if at >= SPACE || at !in m then None
    else
      match ReadLittle(m, at + 1, n - 1)
      case None => None
      case Some(high) => Some(m[at] + 0x100 * high)
  }

  function ReadWord(m: Memory, at: nat): (w: Option<nat>)
    ensures w.Some? ==> at < SPACE
  {
    ReadLittle(m, at, 8)
  }

  function Later(at: nat, n: nat): nat {
    if at + n < SPACE then at + n else SPACE - 1
  }

  /** The address of the zero word that ends the environment. */
  function SkipEnv(m: Memory, at: nat): Option<nat>
    decreases SPACE - at
  {
    match ReadWord(m, at)
    case None => None
    case Some(w) =>
      if w == 0 then Some(at)
      else LastWordUnreadable(m, at); SkipEnv(m, Later(at, 8))
  }

  /** A word that starts in the last seven bytes of the space cannot be read. */
  lemma {:induction false} LastWordUnreadable(m: Memory, at: nat)
    requires ReadWord(m, at).Some?
    ensures at + 8 <= SPACE && at < Later(at, 8)
  {
    assert ReadLittle(m, at + 7, 1).Some? by {
      assert ReadLittle(m, at + 1, 7).Some?;
      assert ReadLittle(m, at + 2, 6).Some?;
      assert ReadLittle(m, at + 3, 5).Some?;
      assert ReadLittle(m, at + 4, 4).Some?;
      assert ReadLittle(m, at + 5, 3).Some?;
      assert ReadLittle(m, at + 6, 2).Some?;
    }
  }

  function ReadAux(m: Memory, at: nat): seq<nat>
    decreases SPACE - at
  {
    match ReadWord(m, at)
    case None => []
    case Some(key) =>
      if key == 0 then []
      else
        LastWordUnreadable(m, at);
        match ReadWord(m, Later(at, 8))
        case None => []
        case Some(value) => LastWordUnreadable(m, Later(at, 8)); [key, value] + ReadAux(m, Later(Later(at, 8), 8))
  }

  /** What is kept of the new image's auxiliary vector; an unreadable stack yields less. */
  function Capture(m: Memory, sp: nat): seq<nat> {
    match ReadWord(m, sp)
    case None => []
    case Some(argc) =>
      if argc * 8 >= SPACE || sp + 8 + argc * 8 >= SPACE then []
      else
        match SkipEnv(m, Later(sp + 8 + argc * 8, 8))
        case None => []
        case Some(end) => ReadAux(m, Later(end, 8))
  }
}
