/** The interpreter as it runs: registers in variables, scratch memory in an array, one instruction a round. */
module SeccompInterpreter {
  import opened Bits
  import opened Bytes
  import opened Seccomp
  import opened SeccompMeaning

  method ExecuteLoad(c: Code, k: Word, data: seq<Byte>, mem: array<Word>, x: Word) returns (word: Word)
    requires |data| == DATA_SIZE && mem.Length == MEM_SIZE && ValidLoad(c, k)
    ensures forall a, pc: nat :: Load(Machine(a, x, mem[..], pc), c, k, data) == Next(Machine(word, x, mem[..], pc + 1))
  {
    if c.mode == IMM {
      word := k;
    } else if c.mode == MEM {
      word := mem[k];
    } else if c.mode == ABS {
      word := LoadWord(data, k, c.size);
    } else if c.mode == IND {
      word := LoadWord(data, Sum(x, k), c.size);
    } else {
      word := 64;
    }
  }

  method ExecuteJump(c: Code, insn: Insn, n: nat, a: Word, x: Word, pc: nat) returns (stop: bool, pc': nat)
    ensures forall mem :: Jump(Machine(a, x, mem, pc), c, insn, n).Stop? <==> stop
    ensures !stop ==> forall mem :: Jump(Machine(a, x, mem, pc), c, insn, n) == Next(Machine(a, x, mem, pc'))
    ensures stop ==> forall mem :: Jump(Machine(a, x, mem, pc), c, insn, n).value == KILL_THREAD
  {
    var src := if c.bySource then x else insn.k;
    stop, pc' := true, pc;
    if Known(c.op) {
      var offset := if c.op == JA then Signed(insn.k) else if Holds(c.op, a, src) then insn.jt else insn.jf;
      var next := pc + 1 + offset;
      if 0 <= next < n {
        stop, pc' := false, next;
      }
    }
  }

  predicate MovesData(cls: nat) {
    cls == LD || cls == LDX || cls == ST || cls == STX
  }

  method ExecuteOne(insn: Insn, c: Code, n: nat, data: seq<Byte>, a: Word, x: Word, mem: array<Word>, pc: nat)
    returns (stop: bool, value: Word, a': Word, x': Word, pc': nat)
    requires |data| == DATA_SIZE && mem.Length == MEM_SIZE && ValidCode(c, insn, pc, n)
    modifies mem
    ensures var out := Execute(insn, c, n, data, Machine(a, x, old(mem[..]), pc));
      if stop then out.Stop? && out.value == value else out == Next(Machine(a', x', mem[..], pc'))
  {
    if MovesData(c.cls) {
      stop, value, a', x', pc' := ExecuteMove(insn, c, n, data, a, x, mem, pc);
    } else {
      stop, value, a', x', pc' := ExecuteOther(insn, c, n, data, a, x, mem, pc);
    }
  }

  method ExecuteMove(insn: Insn, c: Code, n: nat, data: seq<Byte>, a: Word, x: Word, mem: array<Word>, pc: nat)
    returns (stop: bool, value: Word, a': Word, x': Word, pc': nat)
    requires |data| == DATA_SIZE && mem.Length == MEM_SIZE && ValidCode(c, insn, pc, n) && MovesData(c.cls)
    modifies mem
    ensures var out := Execute(insn, c, n, data, Machine(a, x, old(mem[..]), pc));
      if stop then out.Stop? && out.value == value else out == Next(Machine(a', x', mem[..], pc'))
  {
    stop, value, a', x', pc' := false, KILL_THREAD, a, x, pc + 1;
    if c.cls == LD {
      a' := ExecuteLoad(c, insn.k, data, mem, x);
    } else if c.cls == LDX {
      if c.mode == IMM {
        x' := insn.k;
      } else if c.mode == MEM {
        x' := mem[insn.k];
      } else if c.mode == LEN {
        x' := 64;
      } else {
        stop := true;
      }
    } else if c.cls == ST {
      mem[insn.k] := a;
    } else {
      mem[insn.k] := x;
    }
  }

  method ExecuteOther(insn: Insn, c: Code, n: nat, data: seq<Byte>, a: Word, x: Word, mem: array<Word>, pc: nat)
    returns (stop: bool, value: Word, a': Word, x': Word, pc': nat)
    requires |data| == DATA_SIZE && mem.Length == MEM_SIZE && ValidCode(c, insn, pc, n) && !MovesData(c.cls)
    modifies mem
    ensures var out := Execute(insn, c, n, data, Machine(a, x, old(mem[..]), pc));
      if stop then out.Stop? && out.value == value else out == Next(Machine(a', x', mem[..], pc'))
  {
    stop, value, a', x', pc' := false, KILL_THREAD, a, x, pc + 1;
    if c.cls == ALU {
      var src := if c.bySource then x else insn.k;
      if !KnownArith(c.op) || ((c.op == DIV || c.op == MOD) && src == 0) {
        stop := true;
      } else {
        a' := Arith(c.op, a, src);
      }
    } else if c.cls == JMP {
      stop, pc' := ExecuteJump(c, insn, n, a, x, pc);
    } else if c.cls == RET {
      stop, value := true, insn.k;
    } else if c.misc == TAX {
      x' := a;
    } else {
      a' := x;
    }
  }

  method RunBpf(insns: seq<Insn>, data: seq<Byte>) returns (r: Word)
    requires |data| == DATA_SIZE && Valid(insns) && |insns| <= LONGEST
    ensures r == Run(insns, data, Start()).value && Answers(insns, data, r)
  {
    RunAnswers(insns, data);
    var a: Word, x: Word, pc: nat := 0, 0, 0;
    var mem := new Word[MEM_SIZE](_ => 0);
    assert mem[..] == Start().mem;
    while pc < |insns|
      invariant pc <= |insns| && mem.Length == MEM_SIZE
      invariant Run(insns, data, Start()).value == Run(insns, data, Machine(a, x, mem[..], pc)).value
    {
      ghost var m := Machine(a, x, mem[..], pc);
      StepFine(insns, data, m);
      assert ValidInsn(insns[pc], pc, |insns|);
      var stop, value;
      stop, value, a, x, pc := ExecuteOne(insns[pc], Decode(insns[pc].code), |insns|, data, a, x, mem, pc);
      if stop {
        return value;
      }
    }
    return KILL_THREAD;
  }
}
