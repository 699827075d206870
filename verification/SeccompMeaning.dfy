/**
  * What each instruction of a checked filter does, as the numbers in its code, the registers and the data
  * say it: an account of classic BPF that stands on its own, and the proof that the interpreter follows it.
  */
module SeccompMeaning {
  import opened Bits
  import opened Bytes
  import opened Outcomes
  import opened Seccomp

  // ---------------------------------------------------------------------------
  // The fields of a code
  // ---------------------------------------------------------------------------

  function Class(i: Insn): nat { i.code % 8 }

  /** 0, 1 and 2 for words, half words and bytes. */
  function SizeOf(i: Insn): nat { i.code / 8 % 4 }

  /** 0 to 5 for immediate, absolute, indexed, scratch, length and header. */
  function ModeOf(i: Insn): nat { i.code / 32 % 8 }

  function OpOf(i: Insn): nat { i.code / 16 % 16 }

  function MiscOf(i: Insn): nat { i.code / 8 % 32 }

  function Operand(i: Insn, x: Word): Word {
    if i.code / 8 % 2 == 1 then x else i.k
  }

  function BytesRead(size: nat): nat {
    if size == 0 then 4 else if size == 1 then 2 else 1
  }

  // ---------------------------------------------------------------------------
  // Which instructions are admitted
  // ---------------------------------------------------------------------------

  /** Instruction `at` of `n`, by the numbers. */
  predicate Admissible(i: Insn, at: nat, n: nat) {
    match Class(i)
    case 0 => AdmissibleLoad(i)
    case 1 => AdmissibleLoad(i)
    case 2 => i.k <= 15
    case 3 => i.k <= 15
    case 4 => OpOf(i) == 8 ==> i.code / 8 % 2 == 0
    case 5 =>
      if OpOf(i) == 0 then at + i.k + 2 <= n else at + i.jt + 2 <= n && at + i.jf + 2 <= n
    case 6 => SizeOf(i) == 0
    case _ => MiscOf(i) == 0 || MiscOf(i) == 16
  }

  predicate AdmissibleLoad(i: Insn) {
    match ModeOf(i)
    case 0 => true
    case 1 => i.k + BytesRead(SizeOf(i)) <= 64
    case 2 => i.k + BytesRead(SizeOf(i)) <= 64
    case 3 => i.k <= 15
    case 4 => true
    case _ => false
  }

  /** The check admits exactly these. */
  lemma {:induction false} ValidMeans(i: Insn, at: nat, n: nat)
    ensures ValidInsn(i, at, n) <==> Admissible(i, at, n)
  {
    assert Class(i) < 8;
  }

  // ---------------------------------------------------------------------------
  // What a checked instruction does
  // ---------------------------------------------------------------------------

  function At(data: seq<Byte>, i: nat): nat
    requires i < |data|
  {
    data[i]
  }

  /** `v` is the little-endian number at `offset`, or zero where it would pass the 64 bytes or has no size. */
  predicate Reads(data: seq<Byte>, offset: nat, size: nat, v: nat)
    requires |data| == 64
  {
    match size
    case 0 =>
      v == if offset + 4 <= 64
           then At(data, offset) + 0x100 * At(data, offset + 1) + 0x1_0000 * At(data, offset + 2) + 0x100_0000 * At(data, offset + 3)
           else 0
    case 1 => v == if offset + 2 <= 64 then At(data, offset) + 0x100 * At(data, offset + 1) else 0
    case 2 => v == if offset + 1 <= 64 then At(data, offset) else 0
    case _ => v == 0
  }

  /** What becomes of the accumulator. */
  ghost predicate Computes(op: nat, a: Word, src: Word, r: Word) {
    match op
    case 0 => Congruent(r, a + src)
    case 1 => Congruent(r + src, a)
    case 2 => Congruent(r, a * src)
    case 3 => src != 0 && r * src <= a < (r + 1) * src
    case 4 => forall i :: 0 <= i < 32 ==> (Bit(r, i) <==> Bit(a, i) || Bit(src, i))
    case 5 => forall i :: 0 <= i < 32 ==> (Bit(r, i) <==> Bit(a, i) && Bit(src, i))
    case 6 => Congruent(r, Doubled(a, src % 32))
    case 7 => Doubled(r, src % 32) <= a < Doubled(r + 1, src % 32)
    case 8 => Congruent(r + a, 0)
    case 9 => src != 0 && r < src && exists q: nat {:trigger q * src} :: a == q * src + r
    case 10 => forall i :: 0 <= i < 32 ==> (Bit(r, i) <==> Bit(a, i) != Bit(src, i))
    case _ => false
  }

  /** Whether a conditional jump is taken. */
  ghost predicate Taken(op: nat, a: Word, src: Word) {
    match op
    case 1 => a == src
    case 2 => a > src
    case 3 => a >= src
    case 4 => exists i :: 0 <= i < 32 && Bit(a, i) && Bit(src, i)
    case _ => false
  }

  ghost predicate LoadsTo(i: Insn, data: seq<Byte>, s: Machine, v: Word)
    requires |data| == 64
  {
    match ModeOf(i)
    case 0 => v == i.k
    case 1 => Reads(data, i.k, SizeOf(i), v)
    case 2 => Reads(data, (s.x + i.k) % MODULUS, SizeOf(i), v)
    case 3 => i.k < |s.mem| && v == s.mem[i.k]
    case 4 => v == 64
    case _ => false
  }

  ghost predicate LoadsIndexTo(i: Insn, s: Machine, v: Word) {
    match ModeOf(i)
    case 0 => v == i.k
    case 3 => i.k < |s.mem| && v == s.mem[i.k]
    case 4 => v == 64
    case _ => false
  }

  /** Only slot `k` of the scratch memory changes. */
  ghost predicate Stores(mem: seq<Word>, mem': seq<Word>, k: nat, v: Word) {
    && |mem'| == |mem| && k < |mem| && mem'[k] == v
    && forall j :: 0 <= j < |mem| && j != k ==> mem'[j] == mem[j]
  }

  /** The instruction turns one state into the other. */
  ghost predicate Does(i: Insn, data: seq<Byte>, s: Machine, t: Machine)
    requires |data| == 64
  {
    match Class(i)
    case 0 => LoadsTo(i, data, s, t.a) && t.x == s.x && t.mem == s.mem && t.pc == s.pc + 1
    case 1 => LoadsIndexTo(i, s, t.x) && t.a == s.a && t.mem == s.mem && t.pc == s.pc + 1
    case 2 => Stores(s.mem, t.mem, i.k, s.a) && t.a == s.a && t.x == s.x && t.pc == s.pc + 1
    case 3 => Stores(s.mem, t.mem, i.k, s.x) && t.a == s.a && t.x == s.x && t.pc == s.pc + 1
    case 4 => Computes(OpOf(i), s.a, Operand(i, s.x), t.a) && t.x == s.x && t.mem == s.mem && t.pc == s.pc + 1
    case 5 =>
      && t.a == s.a && t.x == s.x && t.mem == s.mem && OpOf(i) <= 4
      && t.pc == s.pc + 1 + (if OpOf(i) == 0 then i.k else if Taken(OpOf(i), s.a, Operand(i, s.x)) then i.jt else i.jf)
    case 6 => false
    case _ =>
      && t.mem == s.mem && t.pc == s.pc + 1
      && (if MiscOf(i) == 0 then t.x == s.a && t.a == s.a else MiscOf(i) == 16 && t.a == s.x && t.x == s.x)
  }

  /** The instruction ends the run with this answer: its own value, or zero, which kills the thread. */
  predicate Ends(i: Insn, s: Machine, value: Word) {
    match Class(i)
    case 1 => ModeOf(i) != 0 && ModeOf(i) != 3 && ModeOf(i) != 4 && value == 0
    case 4 => (OpOf(i) > 10 || ((OpOf(i) == 3 || OpOf(i) == 9) && Operand(i, s.x) == 0)) && value == 0
    case 5 => OpOf(i) > 4 && value == 0
    case 6 => value == i.k
    case _ => false
  }

  // ---------------------------------------------------------------------------
  // The interpreter does it
  // ---------------------------------------------------------------------------

  lemma {:induction false} LoadWordReads(data: seq<Byte>, offset: nat, i: Insn)
    requires |data| == 64
    ensures Reads(data, offset, SizeOf(i), LoadWord(data, offset, Decode(i.code).size))
  {
    if SizeOf(i) == 0 && offset + 4 <= 64 {
      assert Little(data, offset + 3, 1) == At(data, offset + 3);
      assert Little(data, offset + 2, 2) == At(data, offset + 2) + 0x100 * Little(data, offset + 3, 1);
      assert Little(data, offset + 1, 3) == At(data, offset + 1) + 0x100 * Little(data, offset + 2, 2);
    } else if SizeOf(i) == 1 && offset + 2 <= 64 {
      assert Little(data, offset + 1, 1) == At(data, offset + 1);
    }
  }

  lemma {:induction false} LoadDoes(i: Insn, data: seq<Byte>, s: Machine, out: Outcome)
    requires |data| == 64 && |s.mem| == MEM_SIZE && Class(i) == 0 && AdmissibleLoad(i)
    requires out == Load(s, Decode(i.code), i.k, data)
    ensures out.Next? && Does(i, data, s, out.m)
  {
    LoadWordReads(data, i.k, i);
    LoadWordReads(data, Sum(s.x, i.k), i);
  }

  lemma {:induction false} LoadIndexDoes(i: Insn, data: seq<Byte>, s: Machine, out: Outcome)
    requires |data| == 64 && |s.mem| == MEM_SIZE && Class(i) == 1 && AdmissibleLoad(i)
    requires out == LoadIndex(s, Decode(i.code), i.k, data)
    ensures if out.Next? then Does(i, data, s, out.m) else Ends(i, s, out.value)
  {
  }

  lemma {:induction false} BitwiseComputes(op: nat, a: Word, src: Word, r: Word)
    requires (op == 4 && r == WordOr(a, src)) || (op == 5 && r == BitAnd(a, src)) || (op == 10 && r == WordXor(a, src))
    ensures Computes(op, a, src, r)
  {
    forall i | 0 <= i < 32
      ensures op == 4 ==> (Bit(r, i) <==> Bit(a, i) || Bit(src, i))
      ensures op == 5 ==> (Bit(r, i) <==> Bit(a, i) && Bit(src, i))
      ensures op == 10 ==> (Bit(r, i) <==> Bit(a, i) != Bit(src, i))
    {
      OrBit(a, src, i);
      AndBit(a, src, i);
      XorBit(a, src, i);
    }
  }

  lemma {:induction false} ArithComputes(op: nat, a: Word, src: Word)
    requires op <= 10 && ((op == 3 || op == 9) ==> src != 0)
    ensures Computes(op, a, src, Arith(op * 16, a, src))
  {
    var r := Arith(op * 16, a, src);
    if op == 4 || op == 5 || op == 10 {
      BitwiseComputes(op, a, src, r);
    } else if op == 6 || op == 7 {
      ShiftComputes(op, a, src, r);
    } else if op == 2 {
      Kept32(a * src);
    } else if op != 3 && op != 9 {
      SumComputes(op, a, src, r);
    }
  }

  lemma {:induction false} Kept32(n: int)
    ensures Congruent(n % MODULUS, n)
  {
  }

  lemma {:induction false} SumComputes(op: nat, a: Word, src: Word, r: Word)
    requires (op == 0 && r == (a + src) % MODULUS) || (op == 1 && r == (a - src) % MODULUS) || (op == 8 && r == (0 - a) % MODULUS)
    ensures Computes(op, a, src, r)
  {
    if op == 0 {
      Kept32(a + src);
    } else if op == 1 {
      Kept32(a - src);
      Shifted(r, a - src, src);
    } else {
      Kept32(0 - a);
      Shifted(r, 0 - a, a);
    }
  }

  lemma {:induction false} Shifted(x: int, y: int, d: int)
    requires Congruent(x, y)
    ensures Congruent(x + d, y + d)
  {
    assert x + d - (y + d) == x - y;
  }

  lemma {:induction false} ShiftComputes(op: nat, a: Word, src: Word, r: Word)
    requires (op == 6 && r == ShiftLeft(a, src % 32)) || (op == 7 && r == ShiftRight(a, src % 32))
    ensures Computes(op, a, src, r)
  {
    ShiftLeftIs(a, src % 32);
    ShiftRightIs(a, src % 32);
  }

  lemma {:induction false} ComputeDoes(i: Insn, data: seq<Byte>, s: Machine, out: Outcome)
    requires |data| == 64 && Class(i) == 4 && out == Compute(s, Decode(i.code), i.k)
    ensures if out.Next? then Does(i, data, s, out.m) else Ends(i, s, out.value)
  {
    var op, src := OpOf(i), Operand(i, s.x);
    assert Decode(i.code).op == op * 16;
    if op <= 10 && ((op == 3 || op == 9) ==> src != 0) {
      ArithComputes(op, s.a, src);
    }
  }

  lemma {:induction false} HoldsMeans(op: nat, a: Word, src: Word)
    requires 1 <= op <= 4
    ensures Holds(op * 16, a, src) <==> Taken(op, a, src)
  {
    if op == 4 {
      var both := BitAnd(a, src);
      forall i: nat
        ensures Bit(both, i) <==> Bit(a, i) && Bit(src, i)
      {
        AndBit(a, src, i);
      }
      if both != 0 {
        ThirtyTwo();
        var i := SomeBit(both, 32);
      } else {
        forall i: nat
          ensures !Bit(both, i)
        {
          ZeroBits(i);
        }
      }
    }
  }

  lemma {:induction false} JumpDoes(i: Insn, n: nat, data: seq<Byte>, s: Machine, out: Outcome)
    requires |data| == 64 && Class(i) == 5 && s.pc < n <= LONGEST && Admissible(i, s.pc, n)
    requires out == Jump(s, Decode(i.code), i, n)
    ensures if out.Next? then Does(i, data, s, out.m) else Ends(i, s, out.value)
  {
    var op, src := OpOf(i), Operand(i, s.x);
    assert Decode(i.code).op == op * 16;
    if 1 <= op <= 4 {
      HoldsMeans(op, s.a, src);
    }
  }

  /** Every instruction of a checked program does what its code says, or ends the run as it says. */
  lemma {:induction false} StepMeans(insns: seq<Insn>, data: seq<Byte>, s: Machine)
    requires |data| == 64 && |s.mem| == MEM_SIZE && Valid(insns) && s.pc < |insns| <= LONGEST
    ensures match Step(insns, data, s)
            case Next(t) => Does(insns[s.pc], data, s, t)
            case Stop(value, _) => Ends(insns[s.pc], s, value)
  {
    var i, n := insns[s.pc], |insns|;
    assert ValidInsn(i, s.pc, n);
    ValidMeans(i, s.pc, n);
    var out := Step(insns, data, s);
    match Class(i) {
      case 0 => LoadDoes(i, data, s, out);
      case 1 => LoadIndexDoes(i, data, s, out);
      case 4 => ComputeDoes(i, data, s, out);
      case 5 => JumpDoes(i, n, data, s, out);
      case _ =>
    }
  }

  // ---------------------------------------------------------------------------
  // Whole runs
  // ---------------------------------------------------------------------------

  /** Registers and scratch memory zero, at the first instruction. */
  predicate Fresh(s: Machine) {
    s.a == 0 && s.x == 0 && |s.mem| == 16 && (forall j :: 0 <= j < 16 ==> s.mem[j] == 0) && s.pc == 0
  }

  ghost predicate Follows(insns: seq<Insn>, data: seq<Byte>, trace: seq<Machine>)
    requires |data| == 64
  {
    && |trace| >= 1
    && forall k :: 0 <= k < |trace| - 1 ==> trace[k].pc < |insns| && Does(insns[trace[k].pc], data, trace[k], trace[k + 1])
  }

  predicate Concludes(insns: seq<Insn>, s: Machine, value: Word) {
    if s.pc < |insns| then Ends(insns[s.pc], s, value) else value == 0
  }

  /** A run by these rules from a fresh machine gives this answer. */
  ghost predicate Answers(insns: seq<Insn>, data: seq<Byte>, value: Word)
    requires |data| == 64
  {
    exists trace :: Follows(insns, data, trace) && Fresh(trace[0]) && Concludes(insns, trace[|trace| - 1], value)
  }

  lemma {:induction false} RunFollows(insns: seq<Insn>, data: seq<Byte>, s: Machine) returns (trace: seq<Machine>)
    requires |data| == 64 && |s.mem| == MEM_SIZE && Valid(insns) && s.pc <= |insns| <= LONGEST
    ensures Follows(insns, data, trace) && trace[0] == s
    ensures Concludes(insns, trace[|trace| - 1], Run(insns, data, s).value)
    decreases |insns| - s.pc
  {
    if s.pc == |insns| {
      trace := [s];
    } else {
      StepMeans(insns, data, s);
      StepFine(insns, data, s);
      match Step(insns, data, s) {
        case Stop(value, _) => trace := [s];
        case Next(t) =>
          var rest := RunFollows(insns, data, t);
          trace := [s] + rest;
          Prepended(insns, data, s, rest);
      }
    }
  }

  lemma {:induction false} Prepended(insns: seq<Insn>, data: seq<Byte>, s: Machine, rest: seq<Machine>)
    requires |data| == 64 && Follows(insns, data, rest) && s.pc < |insns| && Does(insns[s.pc], data, s, rest[0])
    ensures Follows(insns, data, [s] + rest)
  {
    var trace := [s] + rest;
    forall k | 0 <= k < |trace| - 1
      ensures trace[k].pc < |insns| && Does(insns[trace[k].pc], data, trace[k], trace[k + 1])
    {
      if k > 0 {
        assert trace[k] == rest[k - 1] && trace[k + 1] == rest[k];
      }
    }
  }

  /** What the interpreter answers is the answer of a run by these rules. */
  lemma {:induction false} RunAnswers(insns: seq<Insn>, data: seq<Byte>)
    requires |data| == 64 && Valid(insns) && |insns| <= LONGEST
    ensures Answers(insns, data, Run(insns, data, Start()).value)
  {
    var trace := RunFollows(insns, data, Start());
  }
}
