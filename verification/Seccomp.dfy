/** Classic BPF as system-call filters use it: the static check, the interpreter and the filter chain. */
module Seccomp {
  import opened Bits
  import opened Bytes
  import opened Outcomes

  type Half = n: nat | n < 0x1_0000

  datatype Insn = Insn(code: Half, jt: Byte, jf: Byte, k: Word)

  const DATA_SIZE: nat := 64
  const MEM_SIZE: nat := 16
  const MAX_INSNS: nat := 4096

  const LD: nat := 0x00
  const LDX: nat := 0x01
  const ST: nat := 0x02
  const STX: nat := 0x03
  const ALU: nat := 0x04
  const JMP: nat := 0x05
  const RET: nat := 0x06
  const MISC: nat := 0x07

  const W: nat := 0x00
  const H: nat := 0x08
  const B: nat := 0x10

  const IMM: nat := 0x00
  const ABS: nat := 0x20
  const IND: nat := 0x40
  const MEM: nat := 0x60
  const LEN: nat := 0x80
  const MSH: nat := 0xa0

  const ADD: nat := 0x00
  const SUB: nat := 0x10
  const MUL: nat := 0x20
  const DIV: nat := 0x30
  const OR: nat := 0x40
  const AND: nat := 0x50
  const LSH: nat := 0x60
  const RSH: nat := 0x70
  const NEG: nat := 0x80
  const MOD: nat := 0x90
  const XOR: nat := 0xa0

  const JA: nat := 0x00
  const JEQ: nat := 0x10
  const JGT: nat := 0x20
  const JGE: nat := 0x30
  const JSET: nat := 0x40

  const TAX: nat := 0x00
  const TXA: nat := 0x80

  const KILL_THREAD: Word := 0x0000_0000

  /** The fields of an instruction code, taken apart once. */
  datatype Code = Code(cls: nat, size: nat, mode: nat, op: nat, misc: nat, bySource: bool)

  /** The bits 0x07, 0x18, 0xe0, 0xf0, 0xf8 and 0x08, each where it stands. */
  function Decode(code: Half): Code {
    Code(code % 8, code / 8 % 4 * 8, code / 0x20 % 8 * 0x20, code / 0x10 % 0x10 * 0x10, code / 8 % 0x20 * 8, code / 8 % 2 == 1)
  }

  // ---------------------------------------------------------------------------
  // The static check
  // ---------------------------------------------------------------------------

  function Width(size: nat): nat {
    if size == W then 4 else if size == H then 2 else 1
  }

  /** Whether instruction `i` of a program of `n` instructions may be run. */
  predicate ValidInsn(insn: Insn, i: nat, n: nat) {
    ValidCode(Decode(insn.code), insn, i, n)
  }

  predicate ValidLoad(c: Code, k: nat) {
    || c.mode == IMM || c.mode == LEN
    || (c.mode == MEM && k < MEM_SIZE)
    || ((c.mode == ABS || c.mode == IND) && k <= DATA_SIZE - Width(c.size))
  }

  predicate ValidCode(c: Code, insn: Insn, i: nat, n: nat) {
    if c.cls == LD || c.cls == LDX then ValidLoad(c, insn.k)
    else if c.cls == ST || c.cls == STX then insn.k < MEM_SIZE
    else if c.cls == ALU then !(c.op == NEG && c.bySource)
    else if c.cls == JMP then
      if c.op == JA then i + 1 + insn.k < n
      else i + 1 + insn.jt < n && i + 1 + insn.jf < n
    else if c.cls == RET then c.size == 0
    else c.misc == TAX || c.misc == TXA
  }

  predicate Valid(insns: seq<Insn>) {
    forall i :: 0 <= i < |insns| ==> ValidInsn(insns[i], i, |insns|)
  }

  method ValidateLoad(c: Code, k: nat) returns (r: Result<(), Errno>)
    ensures r == if ValidLoad(c, k) then Ok(()) else Err(EINVAL)
  {
    if c.mode == IMM || c.mode == LEN {
      return Ok(());
    } else if c.mode == MEM {
      return if k >= MEM_SIZE then Err(EINVAL) else Ok(());
    } else if c.mode == ABS || c.mode == IND {
      var max := if c.size == W then 4 else if c.size == H then 2 else 1;
      return if k > DATA_SIZE - max then Err(EINVAL) else Ok(());
    }
    return Err(EINVAL);
  }

  method ValidateInsn(c: Code, insn: Insn, index: nat, count: nat) returns (r: Result<(), Errno>)
    ensures r == if ValidCode(c, insn, index, count) then Ok(()) else Err(EINVAL)
  {
    if c.cls == LD || c.cls == LDX {
      r := ValidateLoad(c, insn.k);
    } else if c.cls == ST || c.cls == STX {
      return if insn.k >= MEM_SIZE then Err(EINVAL) else Ok(());
    } else if c.cls == ALU {
      return if c.op == NEG && c.bySource then Err(EINVAL) else Ok(());
    } else if c.cls == JMP {
      if c.op == JA {
        return if index + 1 + insn.k >= count then Err(EINVAL) else Ok(());
      }
      return if index + 1 + insn.jt >= count || index + 1 + insn.jf >= count then Err(EINVAL) else Ok(());
    } else if c.cls == RET {
      return if c.size != 0 then Err(EINVAL) else Ok(());
    } else {
      return if c.misc == TAX || c.misc == TXA then Ok(()) else Err(EINVAL);
    }
  }

  method ValidateProgram(insns: seq<Insn>) returns (r: Result<(), Errno>)
    ensures r == if Valid(insns) then Ok(()) else Err(EINVAL)
  {
    var i := 0;
    while i < |insns|
      invariant i <= |insns|
      invariant forall j :: 0 <= j < i ==> ValidInsn(insns[j], j, |insns|)
    {
      r := ValidateInsn(Decode(insns[i].code), insns[i], i, |insns|);
      if r.Err? {
        return;
      }
      i := i + 1;
    }
    return Ok(());
  }

  // ---------------------------------------------------------------------------
  // Loads
  // ---------------------------------------------------------------------------

  predicate KnownSize(size: nat) {
    size == W || size == H || size == B
  }

  /** A load that runs past the data, or has no known size, reads zero. */
  predicate Short(offset: nat, size: nat) {
    !KnownSize(size) || offset + Width(size) > DATA_SIZE
  }

  function LoadWord(data: seq<Byte>, offset: nat, size: nat): (word: nat)
    requires |data| == DATA_SIZE
    ensures word < 0x1_0000_0000
  {
    if Short(offset, size) then 0
    else if size == W then LittleBound(data, offset, 4); assert Power256(4) == 0x1_0000_0000; Little(data, offset, 4)
    else if size == H then LittleBound(data, offset, 2); assert Power256(2) == 0x1_0000; Little(data, offset, 2)
    else data[offset]
  }

  // ---------------------------------------------------------------------------
  // The interpreter
  // ---------------------------------------------------------------------------

  datatype Machine = Machine(a: Word, x: Word, mem: seq<Word>, pc: nat)

  /** Why a run stopped; `Wild` is an access outside the scratch memory. */
  datatype Why = Returned | BadCode | ByZero | JumpRange | FellOff | Wild

  datatype Outcome = Next(m: Machine) | Stop(value: Word, why: Why)

  /** A wrapping 32-bit sum. */
  function Sum(x: Word, k: Word): Word {
    (x + k) % MODULUS
  }

  function Load(m: Machine, c: Code, k: Word, data: seq<Byte>): Outcome
    requires |data| == DATA_SIZE && |m.mem| == MEM_SIZE
  {
    var next := m.pc + 1;
    if c.mode == IMM then Next(m.(a := k, pc := next))
    else if c.mode == MEM then
      if k < MEM_SIZE then Next(m.(a := m.mem[k], pc := next)) else Stop(KILL_THREAD, Wild)
    else if c.mode == ABS then Next(m.(a := LoadWord(data, k, c.size), pc := next))
    else if c.mode == IND then Next(m.(a := LoadWord(data, Sum(m.x, k), c.size), pc := next))
    else if c.mode == LEN then Next(m.(a := 64, pc := next))
    else Stop(KILL_THREAD, BadCode)
  }

  function LoadIndex(m: Machine, c: Code, k: Word, data: seq<Byte>): Outcome
    requires |data| == DATA_SIZE && |m.mem| == MEM_SIZE
  {
    var next := m.pc + 1;
    if c.mode == IMM then Next(m.(x := k, pc := next))
    else if c.mode == MEM then
      if k < MEM_SIZE then Next(m.(x := m.mem[k], pc := next)) else Stop(KILL_THREAD, Wild)
    else if c.mode == LEN then Next(m.(x := 64, pc := next))
    else if c.mode == MSH then
      Next(m.(x := LowFourCleared(data, k), pc := next))
    else Stop(KILL_THREAD, BadCode)
  }

  /** Four times a byte, with its four lowest bits cleared. */
  function LowFourCleared(data: seq<Byte>, k: Word): Word
    requires |data| == DATA_SIZE
  {
    var byte: nat := if k < DATA_SIZE then data[k] else 0;
    4 * byte - 4 * byte % 16
  }

  function Store(m: Machine, k: Word, value: Word): Outcome
    requires |m.mem| == MEM_SIZE
  {
    if k < MEM_SIZE then Next(m.(mem := m.mem[k := value], pc := m.pc + 1))
    else Stop(KILL_THREAD, Wild)
  }

  /** The accumulator after a known operation. */
  function Arith(op: nat, a: Word, src: Word): Word
    requires src != 0 || (op != DIV && op != MOD)
  {
    if op == ADD then (a + src) % MODULUS
    else if op == SUB then (a - src) % MODULUS
    else if op == MUL then (a * src) % MODULUS
    else if op == DIV then Quotient(a, src)
    else if op == OR then WordOr(a, src)
    else if op == AND then BitAnd(a, src)
    else if op == LSH then ShiftLeft(a, src % 32)
    else if op == RSH then ShiftRight(a, src % 32)
    else if op == NEG then (0 - a) % MODULUS
    else if op == MOD then Remainder(a, src)
    else WordXor(a, src)
  }

  function Quotient(a: Word, d: Word): (q: Word)
    requires d != 0
    ensures q * d <= a < (q + 1) * d
  {
    Divided(a, d);
    a / d
  }

  function Remainder(a: Word, d: Word): (r: Word)
    requires d != 0
    ensures r < d && exists q: nat {:trigger q * d} :: a == q * d + r
  {
    Divided(a, d);
    a % d
  }

  predicate KnownArith(op: nat) {
    op == ADD || op == SUB || op == MUL || op == DIV || op == OR || op == AND
    || op == LSH || op == RSH || op == NEG || op == MOD || op == XOR
  }

  function Compute(m: Machine, c: Code, k: Word): Outcome {
    var src := if c.bySource then m.x else k;
    if !KnownArith(c.op) then Stop(KILL_THREAD, BadCode)
    else if (c.op == DIV || c.op == MOD) && src == 0 then Stop(KILL_THREAD, ByZero)
    else Next(m.(a := Arith(c.op, m.a, src), pc := m.pc + 1))
  }

  /** A 32-bit number read as a signed one. */
  function Signed(k: Word): int {
    if k < 0x8000_0000 then k else k - MODULUS
  }

  predicate Known(op: nat) {
    op == JA || op == JEQ || op == JGT || op == JGE || op == JSET
  }

  predicate Holds(op: nat, a: Word, src: Word) {
    if op == JEQ then a == src
    else if op == JGT then a > src
    else if op == JGE then a >= src
    else BitAnd(a, src) != 0
  }

  function Jump(m: Machine, c: Code, insn: Insn, n: nat): Outcome {
    if !Known(c.op) then Stop(KILL_THREAD, BadCode)
    else
      var src := if c.bySource then m.x else insn.k;
      var offset := if c.op == JA then Signed(insn.k) else if Holds(c.op, m.a, src) then insn.jt else insn.jf;
      var next := m.pc + 1 + offset;
      if next < 0 || next >= n then Stop(KILL_THREAD, JumpRange) else Next(m.(pc := next))
  }

  /** One instruction. */
  function Step(insns: seq<Insn>, data: seq<Byte>, m: Machine): Outcome
    requires |data| == DATA_SIZE && |m.mem| == MEM_SIZE
  {
    if m.pc >= |insns| then Stop(KILL_THREAD, FellOff)
    else
      Execute(insns[m.pc], Decode(insns[m.pc].code), |insns|, data, m)
  }

  function Execute(insn: Insn, c: Code, n: nat, data: seq<Byte>, m: Machine): Outcome
    requires |data| == DATA_SIZE && |m.mem| == MEM_SIZE
  {
    if c.cls == LD then Load(m, c, insn.k, data)
    else if c.cls == LDX then LoadIndex(m, c, insn.k, data)
    else if c.cls == ST then Store(m, insn.k, m.a)
    else if c.cls == STX then Store(m, insn.k, m.x)
    else if c.cls == ALU then Compute(m, c, insn.k)
    else if c.cls == JMP then Jump(m, c, insn, n)
    else if c.cls == RET then Stop(insn.k, Returned)
    else if c.misc == TAX then Next(m.(x := m.a, pc := m.pc + 1))
    else if c.misc == TXA then Next(m.(a := m.x, pc := m.pc + 1))
    else Stop(KILL_THREAD, BadCode)
  }

  /** The longest program whose unconditional jumps the interpreter reads as the check did. */
  const LONGEST: nat := 0x8000_0001

  /** An instruction that passed the check moves forward, returns its own value, or kills the thread. */
  ghost predicate Fine(insn: Insn, c: Code, n: nat, m: Machine, out: Outcome) {
    match out
    case Next(m') => m.pc < m'.pc <= n && |m'.mem| == MEM_SIZE
    case Stop(value, why) =>
      match why
      case Returned => c.cls == RET && value == insn.k
      case BadCode => value == KILL_THREAD
      case ByZero => value == KILL_THREAD
      case _ => false
  }

  lemma {:induction false} LoadFine(insn: Insn, c: Code, n: nat, data: seq<Byte>, m: Machine)
    requires |data| == DATA_SIZE && |m.mem| == MEM_SIZE && m.pc < n
    requires ValidCode(c, insn, m.pc, n) && (c.cls == LD || c.cls == LDX)
    ensures Fine(insn, c, n, m, Load(m, c, insn.k, data)) && Fine(insn, c, n, m, LoadIndex(m, c, insn.k, data))
  {
  }

  lemma {:induction false} ComputeFine(insn: Insn, c: Code, n: nat, m: Machine)
    requires |m.mem| == MEM_SIZE && m.pc < n
    ensures Fine(insn, c, n, m, Compute(m, c, insn.k))
  {
  }

  lemma {:induction false} JumpFine(insn: Insn, c: Code, n: nat, m: Machine)
    requires |m.mem| == MEM_SIZE && m.pc < n <= LONGEST
    requires ValidCode(c, insn, m.pc, n) && c.cls == JMP
    ensures Fine(insn, c, n, m, Jump(m, c, insn, n))
  {
  }

  lemma {:induction false} ExecuteFine(insn: Insn, c: Code, n: nat, data: seq<Byte>, m: Machine)
    requires |data| == DATA_SIZE && |m.mem| == MEM_SIZE && m.pc < n <= LONGEST
    requires ValidCode(c, insn, m.pc, n)
    ensures Fine(insn, c, n, m, Execute(insn, c, n, data, m))
  {
    if c.cls == LD || c.cls == LDX {
      LoadFine(insn, c, n, data, m);
    } else if c.cls == ALU {
      ComputeFine(insn, c, n, m);
    } else if c.cls == JMP {
      JumpFine(insn, c, n, m);
    }
  }

  lemma {:induction false} StepFine(insns: seq<Insn>, data: seq<Byte>, m: Machine)
    requires |data| == DATA_SIZE && |m.mem| == MEM_SIZE && Valid(insns) && m.pc < |insns| <= LONGEST
    ensures Fine(insns[m.pc], Decode(insns[m.pc].code), |insns|, m, Step(insns, data, m))
  {
    var insn := insns[m.pc];
    assert ValidInsn(insn, m.pc, |insns|);
    ExecuteFine(insn, Decode(insn.code), |insns|, data, m);
  }

  /** A finished run: what it returned, why, and how many instructions it took. */
  datatype Report = Report(value: Word, why: Why, steps: nat)

  function Run(insns: seq<Insn>, data: seq<Byte>, m: Machine): Report
    requires |data| == DATA_SIZE && |m.mem| == MEM_SIZE && Valid(insns) && m.pc <= |insns| <= LONGEST
    decreases |insns| - m.pc
  {
    if m.pc == |insns| then Report(KILL_THREAD, FellOff, 0)
    else
      StepFine(insns, data, m);
      match Step(insns, data, m)
      case Stop(value, why) => Report(value, why, 1)
      case Next(m') => var r := Run(insns, data, m'); r.(steps := r.steps + 1)
  }

  function Start(): Machine {
    Machine(0, 0, seq(MEM_SIZE, _ => 0), 0)
  }

  ghost predicate SomeReturn(insns: seq<Insn>, value: Word) {
    exists i :: 0 <= i < |insns| && Decode(insns[i].code).cls == RET && insns[i].k == value
  }

  /**
    * A checked program ends after at most as many instructions as it has, never through a jump out of
    * range or a scratch access out of bounds, and answers with a value it names or by killing the thread.
    */
  lemma {:induction false} RunSafe(insns: seq<Insn>, data: seq<Byte>, m: Machine)
    requires |data| == DATA_SIZE && |m.mem| == MEM_SIZE && Valid(insns) && m.pc <= |insns| <= LONGEST
    ensures var r := Run(insns, data, m);
      && r.steps <= |insns| - m.pc
      && r.why != JumpRange && r.why != Wild
      && (if r.why == Returned then SomeReturn(insns, r.value) else r.value == KILL_THREAD)
    decreases |insns| - m.pc
  {
    if m.pc < |insns| {
      StepFine(insns, data, m);
      var out := Step(insns, data, m);
      if out.Next? {
        RunSafe(insns, data, out.m);
      }
    }
  }

  /** An absolute load of a known size that passed the check reads the data and not the fallback. */
  lemma {:induction false} AbsoluteLoadsFit(insns: seq<Insn>, i: nat)
    requires Valid(insns) && i < |insns|
    requires var c := Decode(insns[i].code); c.cls == LD && c.mode == ABS && KnownSize(c.size)
    ensures !Short(insns[i].k, Decode(insns[i].code).size)
  {
    assert ValidInsn(insns[i], i, |insns|);
  }

  /** Beyond that length the check admits an unconditional jump that the interpreter takes out of range. */
  lemma {:induction false} LongProgramsJumpOut(n: nat, data: seq<Byte>) returns (insns: seq<Insn>)
    requires n > LONGEST && |data| == DATA_SIZE
    ensures |insns| == n && Valid(insns) && Step(insns, data, Start()) == Stop(KILL_THREAD, JumpRange)
  {
    var jump := Insn(0x05, 0, 0, 0x8000_0000);
    var ret := Insn(0x06, 0, 0, 0);
    insns := [jump] + seq(n - 1, _ => ret);
    assert Decode(0x05) == Code(JMP, 0, 0, JA, 0, false);
    assert Decode(0x06) == Code(RET, 0, 0, 0, 0, false);
    assert forall i :: 1 <= i < n ==> insns[i] == ret;
    assert jump.k == 0x8000_0000;
  }

  /** Load the system-call number, compare, answer one way or the other. */
  function NumberFilter(k: Word, matched: Word, otherwise: Word): seq<Insn> {
    [Insn(0x20, 0, 0, 0), Insn(0x15, 0, 1, k), Insn(0x06, 0, 0, matched), Insn(0x06, 0, 0, otherwise)]
  }

  /** A worked example: the usual filter is accepted and tells its number from every other, whatever the data. */
  lemma {:induction false} NumberFilterDecides(k: Word, matched: Word, otherwise: Word, data: seq<Byte>)
    requires |data| == DATA_SIZE
    ensures Valid(NumberFilter(k, matched, otherwise))
    ensures var r := Run(NumberFilter(k, matched, otherwise), data, Start());
      r == Report(if LoadWord(data, 0, W) == k then matched else otherwise, Returned, 3)
  {
    var p := NumberFilter(k, matched, otherwise);
    FilterCodes();
    assert forall i :: 0 <= i < 4 ==> ValidInsn(p[i], i, 4);
    var m0 := Start();
    var m1 := m0.(a := LoadWord(data, 0, W), pc := 1);
    var m2 := m1.(pc := if m1.a == k then 2 else 3);
    assert Step(p, data, m0) == Next(m1);
    assert Step(p, data, m1) == Next(m2);
    assert Step(p, data, m2) == Stop(p[m2.pc].k, Returned);
    assert Run(p, data, m2) == Report(p[m2.pc].k, Returned, 1);
    assert Run(p, data, m1) == Report(p[m2.pc].k, Returned, 2);
  }

  lemma {:induction false} FilterCodes()
    ensures Decode(0x20) == Code(LD, W, ABS, 0x20, 0x20, false)
    ensures Decode(0x15) == Code(JMP, B, 0x00, JEQ, 0x10, false)
    ensures Decode(0x06) == Code(RET, 0, 0, 0, 0, false)
  {
  }
}
