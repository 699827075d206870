/** The data block filters read, and the chain of filters a process carries. */
module SeccompState {
  import opened Bits
  import opened Bytes
  import opened Outcomes
  import opened Seccomp
  import opened SeccompInterpreter
  import opened SeccompMeaning

  // ---------------------------------------------------------------------------
  // The data block
  // ---------------------------------------------------------------------------

  const WORD: nat := 0x1_0000_0000

  /** A signed 32-bit number as its two's complement. */
  function Unsigned(nr: int): nat
    requires -0x8000_0000 <= nr < 0x8000_0000
  {
    if nr >= 0 then nr else nr + WORD
  }

  /** What a data block says, field by field. */
  ghost predicate Encodes(data: seq<Byte>, nr: nat, arch: nat, ip: nat, args: seq<nat>) {
    && |data| == DATA_SIZE && |args| == 6
    && Little(data, 0, 4) == nr && Little(data, 4, 4) == arch && Little(data, 8, 8) == ip
    && forall i :: 0 <= i < 6 ==> Little(data, 16 + 8 * i, 8) == args[i]
  }

  lemma {:induction false} Unmoved(a: seq<Byte>, b: seq<Byte>, offset: nat, n: nat)
    requires offset + n <= |a| == |b|
    requires forall j :: offset <= j < offset + n ==> a[j] == b[j]
    ensures Little(a, offset, n) == Little(b, offset, n)
  {
    LittleSame(a, offset, b, offset, n);
  }

  lemma {:induction false} LittleSplit(data: seq<Byte>, offset: nat)
    requires offset + 8 <= |data|
    ensures Little(data, offset, 8) == Little(data, offset, 4) + WORD * Little(data, offset + 4, 4)
  {
    LittleFour(data, offset, Little(data, offset + 4, 4), 8);
    LittleFour(data, offset, 0, 4);
  }

  lemma {:induction false} LittleFour(data: seq<Byte>, offset: nat, rest: nat, n: nat)
    requires 4 <= n && offset + n <= |data| && rest == Little(data, offset + 4, n - 4)
    ensures Little(data, offset, n) == data[offset] + 0x100 * data[offset + 1] + 0x1_0000 * data[offset + 2]
      + 0x100_0000 * data[offset + 3] + WORD * rest
  {
    assert Little(data, offset + 3, n - 3) == data[offset + 3] + 0x100 * rest;
    assert Little(data, offset + 2, n - 2) == data[offset + 2] + 0x100 * Little(data, offset + 3, n - 3);
    assert Little(data, offset + 1, n - 1) == data[offset + 1] + 0x100 * Little(data, offset + 2, n - 2);
  }

  lemma {:induction false} LoadsHalves(data: seq<Byte>, offset: nat, value: nat)
    requires offset + 8 <= |data| == DATA_SIZE && Little(data, offset, 8) == value
    ensures LoadWord(data, offset, W) == value % WORD && LoadWord(data, offset + 4, W) == value / WORD
  {
    LittleSplit(data, offset);
    LittleBound(data, offset, 4);
    assert Power256(4) == WORD;
    Halves(value, Little(data, offset, 4), Little(data, offset + 4, 4));
  }

  lemma {:induction false} Halves(value: nat, low: nat, high: nat)
    requires value == low + WORD * high && low < WORD
    ensures value % WORD == low && value / WORD == high
  {
  }

  /** Word loads give back the fields: whole 32-bit ones, and the two halves of 64-bit ones. */
  lemma {:induction false} LoadsReadFields(data: seq<Byte>, nr: nat, arch: nat, ip: nat, args: seq<nat>, i: nat)
    requires Encodes(data, nr, arch, ip, args) && i < 6
    ensures LoadWord(data, 0, W) == nr && LoadWord(data, 4, W) == arch
    ensures LoadWord(data, 8, W) == ip % WORD && LoadWord(data, 12, W) == ip / WORD
    ensures LoadWord(data, 16 + 8 * i, W) == args[i] % WORD && LoadWord(data, 20 + 8 * i, W) == args[i] / WORD
  {
    LoadsHalves(data, 8, ip);
    var offset := 16 + 8 * i;
    LoadsHalves(data, offset, args[i]);
  }

  /** Writes a number in little-endian order and nothing else. */
  method PutLittle(data: array<Byte>, offset: nat, n: nat, value: nat)
    requires offset + n <= data.Length && value < Power256(n)
    modifies data
    ensures Little(data[..], offset, n) == value
    ensures forall j :: 0 <= j < data.Length && !(offset <= j < offset + n) ==> data[j] == old(data[j])
    decreases n
  {
    if n > 0 {
      data[offset] := value % 0x100;
      PutLittle(data, offset + 1, n - 1, value / 0x100);
    }
  }

  method EncodeHeader(data: array<Byte>, nr: nat, arch: nat, ip: nat)
    requires data.Length == DATA_SIZE && nr < Power256(4) && arch < Power256(4) && ip < Power256(8)
    modifies data
    ensures Little(data[..], 0, 4) == nr && Little(data[..], 4, 4) == arch && Little(data[..], 8, 8) == ip
  {
    PutLittle(data, 0, 4, nr);
    ghost var d0 := data[..];
    PutLittle(data, 4, 4, arch);
    ghost var d1 := data[..];
    Unmoved(d0, d1, 0, 4);
    PutLittle(data, 8, 8, ip);
    Unmoved(d1, data[..], 0, 4);
    Unmoved(d1, data[..], 4, 4);
  }

  method EncodeArgs(data: array<Byte>, args: seq<nat>)
    requires data.Length == DATA_SIZE && |args| == 6 && forall i :: 0 <= i < 6 ==> args[i] < Power256(8)
    modifies data
    ensures forall j :: 0 <= j < 16 ==> data[j] == old(data[j])
    ensures forall i :: 0 <= i < 6 ==> Little(data[..], 16 + 8 * i, 8) == args[i]
  {
    var i := 0;
    while i < 6
      invariant i <= 6
      invariant forall j :: 0 <= j < 16 ==> data[j] == old(data[j])
      invariant forall j :: 0 <= j < i ==> Little(data[..], 16 + 8 * j, 8) == args[j]
    {
      ghost var before := data[..];
      PutLittle(data, 16 + 8 * i, 8, args[i]);
      forall j | 0 <= j < i
        ensures Little(data[..], 16 + 8 * j, 8) == args[j]
      {
        Unmoved(before, data[..], 16 + 8 * j, 8);
      }
      i := i + 1;
    }
  }

  method EncodeData(nr: int, arch: nat, ip: nat, args: seq<nat>) returns (data: array<Byte>)
    requires -0x8000_0000 <= nr < 0x8000_0000 && arch < Power256(4) && ip < Power256(8)
    requires |args| == 6 && forall i :: 0 <= i < 6 ==> args[i] < Power256(8)
    ensures fresh(data) && Encodes(data[..], Unsigned(nr), arch, ip, args)
  {
    data := new Byte[DATA_SIZE](_ => 0);
    assert Power256(4) == WORD;
    EncodeHeader(data, Unsigned(nr), arch, ip);
    ghost var before := data[..];
    EncodeArgs(data, args);
    Unmoved(before, data[..], 0, 4);
    Unmoved(before, data[..], 4, 4);
    Unmoved(before, data[..], 8, 8);
  }

  // ---------------------------------------------------------------------------
  // The filter chain
  // ---------------------------------------------------------------------------

  const ALLOW: Word := 0x7fff_0000
  const LOG: Word := 0x7ffc_0000

  /** The upper half, where it stands. */
  function Action(r: Word): Word {
    r - r % 0x1_0000
  }

  predicate Decisive(r: Word) {
    Action(r) != ALLOW && Action(r) != LOG
  }

  /** Everything is decisive but permission and logging, whatever the lower half says. */
  lemma {:induction false} DecisiveMeans(r: Word)
    ensures Decisive(r) <==> r / 0x1_0000 != 0x7fff && r / 0x1_0000 != 0x7ffc
    ensures Action(r) == LOG <==> r / 0x1_0000 == 0x7ffc
  {
  }

  /** The chain's answer when `action` has been found so far. */
  function Verdict(results: seq<Word>, action: Word): Word {
    if |results| == 0 then action
    else if Decisive(results[0]) then results[0]
    else Verdict(results[1..], if Action(results[0]) == LOG then results[0] else action)
  }

  ghost predicate NoneDecisive(results: seq<Word>) {
    forall j :: 0 <= j < |results| ==> !Decisive(results[j])
  }

  ghost predicate AllAllowed(results: seq<Word>) {
    forall j :: 0 <= j < |results| ==> Action(results[j]) == ALLOW
  }

  ghost predicate FirstDecisive(results: seq<Word>, v: Word) {
    exists d :: 0 <= d < |results| && Decisive(results[d]) && v == results[d] && NoneDecisive(results[..d])
  }

  ghost predicate LastLogged(results: seq<Word>, v: Word) {
    exists l :: 0 <= l < |results| && Action(results[l]) == LOG && v == results[l] && AllAllowed(results[l + 1..])
  }

  /** The first decisive result, failing that the last one to be logged, failing that permission. */
  ghost predicate IsVerdict(results: seq<Word>, action: Word, v: Word) {
    || FirstDecisive(results, v)
    || (NoneDecisive(results) && (LastLogged(results, v) || (AllAllowed(results) && v == action)))
  }

  lemma {:induction false} DecisiveLater(results: seq<Word>, v: Word)
    requires |results| > 0 && !Decisive(results[0]) && FirstDecisive(results[1..], v)
    ensures FirstDecisive(results, v)
  {
    var rest := results[1..];
    var d :| 0 <= d < |rest| && Decisive(rest[d]) && v == rest[d] && NoneDecisive(rest[..d]);
    assert results[..d + 1] == [results[0]] + rest[..d];
    assert Decisive(results[d + 1]) && v == results[d + 1] && NoneDecisive(results[..d + 1]);
  }

  lemma {:induction false} LoggedLater(results: seq<Word>, v: Word)
    requires |results| > 0 && LastLogged(results[1..], v)
    ensures LastLogged(results, v)
  {
    var rest := results[1..];
    var l :| 0 <= l < |rest| && Action(rest[l]) == LOG && v == rest[l] && AllAllowed(rest[l + 1..]);
    assert results[l + 2..] == rest[l + 1..];
    assert Action(results[l + 1]) == LOG && v == results[l + 1];
  }

  lemma {:induction false} VerdictExact(results: seq<Word>, action: Word)
    ensures IsVerdict(results, action, Verdict(results, action))
  {
    if |results| == 0 {
    } else if Decisive(results[0]) {
      assert NoneDecisive(results[..0]);
    } else {
      var rest := results[1..];
      assert results == [results[0]] + rest;
      var next := if Action(results[0]) == LOG then results[0] else action;
      VerdictExact(rest, next);
      var v := Verdict(rest, next);
      if FirstDecisive(rest, v) {
        DecisiveLater(results, v);
      } else if LastLogged(rest, v) {
        LoggedLater(results, v);
      }
    }
  }

  /** Filters installed later cannot undo a decisive answer, nor turn any other into permission. */
  lemma {:induction false} LaterFiltersCannotUndo(results: seq<Word>, more: seq<Word>, action: Word)
    ensures Decisive(Verdict(results, action)) && !Decisive(action) ==>
      Verdict(results + more, action) == Verdict(results, action)
    ensures Action(Verdict(results, action)) != ALLOW ==> Action(Verdict(results + more, action)) != ALLOW
  {
    if |results| == 0 {
      assert results + more == more;
      NeverBackToAllow(more, action);
    } else {
      assert (results + more)[1..] == results[1..] + more;
      if !Decisive(results[0]) {
        LaterFiltersCannotUndo(results[1..], more, if Action(results[0]) == LOG then results[0] else action);
      }
    }
  }

  lemma {:induction false} NeverBackToAllow(results: seq<Word>, action: Word)
    ensures Action(action) != ALLOW ==> Action(Verdict(results, action)) != ALLOW
  {
    if |results| > 0 && !Decisive(results[0]) {
      NeverBackToAllow(results[1..], if Action(results[0]) == LOG then results[0] else action);
    }
  }

  type Program = seq<Insn>

  predicate Accepted(p: Program) {
    0 < |p| <= MAX_INSNS && Valid(p)
  }

  /** Builds a filter, refusing empty, overlong and invalid programs. */
  method NewFilter(p: Program) returns (r: Result<(), Errno>)
    ensures r == if Accepted(p) then Ok(()) else Err(EINVAL)
  {
    if |p| == 0 || |p| > MAX_INSNS {
      return Err(EINVAL);
    }
    r := ValidateProgram(p);
  }

  predicate AllAccepted(filters: seq<Program>) {
    forall i :: 0 <= i < |filters| ==> Accepted(filters[i])
  }

  function Results(filters: seq<Program>, data: seq<Byte>): (rs: seq<Word>)
    requires |data| == DATA_SIZE && AllAccepted(filters)
    ensures |rs| == |filters|
  {
    if |filters| == 0 then []
    else Results(filters[..|filters| - 1], data) + [Run(filters[|filters| - 1], data, Start()).value]
  }

  datatype Mode = Disabled | Strict | Filter

  class FilterChain {
    var mode: Mode
    var filters: seq<Program>

    ghost predicate Good()
      reads this
    {
      AllAccepted(filters) && (mode == Filter <==> filters != [])
    }

    constructor ()
      ensures Good() && mode == Disabled && filters == []
    {
      mode, filters := Disabled, [];
    }

    method PushFilter(p: Program)
      requires Good() && Accepted(p)
      modifies this
      ensures Good() && mode == Filter && filters == old(filters) + [p]
    {
      filters := filters + [p];
      mode := Filter;
    }

    method SetStrict()
      requires Good()
      modifies this
      ensures Good() && mode == Strict && filters == []
    {
      filters := [];
      mode := Strict;
    }

    /** The child starts with the same filters; what it installs later does not reach the parent. */
    method ForkClone() returns (child: FilterChain)
      requires Good()
      ensures fresh(child) && child.Good() && child.mode == mode && child.filters == filters
    {
      child := new FilterChain();
      child.mode, child.filters := mode, filters;
    }

    method RunChain(data: seq<Byte>) returns (action: Word)
      requires Good() && |data| == DATA_SIZE
      ensures action == Verdict(Results(filters, data), ALLOW)
      ensures IsVerdict(Results(filters, data), ALLOW, action)
      ensures forall i :: 0 <= i < |filters| ==> Answers(filters[i], data, Results(filters, data)[i])
    {
      action := ScanChain(data);
      VerdictExact(Results(filters, data), ALLOW);
      forall i | 0 <= i < |filters|
        ensures Answers(filters[i], data, Results(filters, data)[i])
      {
        ResultAt(filters, data, i);
        RunAnswers(filters[i], data);
      }
    }

    /** The loop over the filters in order of installation. */
    method ScanChain(data: seq<Byte>) returns (action: Word)
      requires Good() && |data| == DATA_SIZE
      ensures action == Verdict(Results(filters, data), ALLOW)
    {
      action := ALLOW;
      ghost var rs := Results(filters, data);
      var i := 0;
      assert rs[0..] == rs;
      while i < |filters|
        invariant i <= |filters|
        invariant Verdict(rs, ALLOW) == Verdict(rs[i..], action)
      {
        var result := RunBpf(filters[i], data);
        ResultAt(filters, data, i);
        assert rs[i..][0] == result && rs[i..][1..] == rs[i + 1..];
        if Action(result) != ALLOW {
          action := result;
          if Action(result) != LOG {
            return;
          }
        }
        i := i + 1;
      }
    }
  }

  lemma {:induction false} ResultAt(filters: seq<Program>, data: seq<Byte>, i: nat)
    requires |data| == DATA_SIZE && AllAccepted(filters) && i < |filters|
    ensures Results(filters, data)[i] == Run(filters[i], data, Start()).value
  {
    if i < |filters| - 1 {
      ResultAt(filters[..|filters| - 1], data, i);
    }
  }
}
