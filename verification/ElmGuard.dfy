/** The stack of protected native calls, their execution domains and their one-shot recovery exits. */
module ElmGuard {
  import opened Outcomes

  const MAX_DEPTH: nat := 16
  const MAX_HOST_RANGES: nat := 6

  const ABORT_NONE: nat := 0
  const ABORT_CANCEL: nat := 1
  const ABORT_TIMEOUT: nat := 2
  const ABORT_TRAP: nat := 3
  const ABORT_PANIC: nat := 4

  const RUNTIME: nat := 1
  const ELM_CODE: nat := 2
  const KERNEL_CALL: nat := 3
  const INTERRUPT: nat := 4

  datatype Range = Range(start: nat, end: nat)

  datatype Bounds = Bounds(code: Range, image: Range, stack: Range)

  datatype Frame = Frame(
    cell: nat, phase: nat, deadline: nat, abortReason: nat,
    recoveryPc: nat, recoverySp: nat, domain: nat,
    bounds: Bounds, hostCount: nat, host: seq<Range>)

  const NOWHERE: Range := Range(0, 0)
  const UNBOUND: Bounds := Bounds(NOWHERE, NOWHERE, NOWHERE)
  const CLEAR: Frame :=
    Frame(0, 0, 0, 0, 0, 0, 0, UNBOUND, 0, [NOWHERE, NOWHERE, NOWHERE, NOWHERE, NOWHERE, NOWHERE])

  datatype Recovery = Recovery(cell: nat, phase: nat, reason: nat, pc: nat, sp: nat)

  /** Who entered an execution domain keeps the place and the domain to go back to. */
  datatype DomainToken = DomainToken(guard: nat, previous: nat)

  predicate KnownDomain(raw: nat) {
    RUNTIME <= raw <= INTERRUPT
  }

  /** From the interrupt domain only the interrupt domain can be entered. */
  predicate TransitionAllowed(current: nat, next: nat) {
    current == INTERRUPT ==> next == INTERRUPT
  }

  predicate Recoverable(domain: nat) {
    domain == ELM_CODE || domain == INTERRUPT
  }

  predicate WellBounded(b: Bounds, hostCount: nat) {
    && 0 < b.code.start < b.code.end && 0 < b.image.start < b.image.end
    && b.image.start <= b.code.start && b.code.end <= b.image.end
    && 0 < b.stack.start < b.stack.end && hostCount <= MAX_HOST_RANGES
  }

  predicate GoodRange(r: Range) {
    0 < r.start < r.end
  }

  predicate Spans(r: Range, address: nat) {
    r.start != 0 && r.start <= address && address < r.end
  }

  predicate InCode(f: Frame, pc: nat) {
    0 < f.bounds.code.start <= pc < f.bounds.code.end
  }

  /** A frame in use; an exit is there with both registers or not at all. */
  predicate Live(f: Frame) {
    && f.cell != 0 && f.phase != 0 && |f.host| == MAX_HOST_RANGES && RUNTIME <= f.domain <= INTERRUPT
    && (f.recoveryPc == 0 <==> f.recoverySp == 0) && f.recoverySp % 16 == 0
    && Confined(f.bounds) && HostsNonEmpty(f.hostCount, f.host)
  }

  /** Bounds not set yet, or code inside an image and a stack. */
  predicate Confined(b: Bounds) {
    b == UNBOUND ||
    (0 < b.image.start <= b.code.start < b.code.end <= b.image.end && 0 < b.stack.start < b.stack.end)
  }

  predicate HostsNonEmpty(count: nat, host: seq<Range>) {
    count <= |host| && forall k :: 0 <= k < count ==> 0 < host[k].start < host[k].end
  }

  lemma {:induction false} WrittenNonEmpty(count: nat, host: seq<Range>, ranges: seq<Range>, i: nat)
    requires |host| == MAX_HOST_RANGES && i <= |ranges| <= MAX_HOST_RANGES
    requires HostsNonEmpty(count, host) && HostsNonEmpty(i, host)
    ensures HostsNonEmpty(count, Written(host, ranges, i))
    ensures (forall k :: 0 <= k < |ranges| ==> GoodRange(ranges[k])) ==> HostsNonEmpty(|ranges|, Written(host, ranges, i))
    decreases |ranges| - i
  {
    if i < |ranges| && GoodRange(ranges[i]) {
      WrittenNonEmpty(count, host[i := ranges[i]], ranges, i + 1);
    }
  }

  /** Frames in use below the depth, cleared ones from it on. */
  ghost predicate ValidFrames(depth: nat, frames: seq<Frame>) {
    && |frames| == MAX_DEPTH && depth <= MAX_DEPTH
    && (forall i :: 0 <= i < depth ==> Live(frames[i]))
    && (forall i :: depth <= i < MAX_DEPTH ==> frames[i] == CLEAR)
  }

  /** The host ranges after writing the given ones up to the first bad one. */
  function Written(host: seq<Range>, ranges: seq<Range>, i: nat): (h: seq<Range>)
    requires |host| == MAX_HOST_RANGES && |ranges| <= MAX_HOST_RANGES && i <= |ranges|
    ensures |h| == MAX_HOST_RANGES
    ensures (forall k :: i <= k < |ranges| ==> GoodRange(ranges[k])) && ranges[..i] <= host ==> ranges <= h
    decreases |ranges| - i
  {
    if i == |ranges| || !GoodRange(ranges[i]) then
      assert i == |ranges| ==> ranges[..i] == ranges;
      host
    else
      assert ranges[..i] <= host ==> ranges[..i + 1] <= host[i := ranges[i]];
      Written(host[i := ranges[i]], ranges, i + 1)
  }

  /** The frames of the cell, from the given one up to the depth, with the reason left in them. */
  function Requested(frames: seq<Frame>, from: nat, depth: nat, cell: nat, reason: nat): (r: seq<Frame>)
    ensures |r| == |frames|
    ensures forall i :: 0 <= i < |frames| ==>
      r[i] == if from <= i < depth && frames[i].cell == cell then frames[i].(abortReason := reason) else frames[i]
  {
    seq(|frames|, i requires 0 <= i < |frames| =>
      if from <= i < depth && frames[i].cell == cell then frames[i].(abortReason := reason) else frames[i])
  }

  ghost predicate HasCell(frames: seq<Frame>, from: nat, depth: nat, cell: nat) {
    exists i :: from <= i < depth && i < |frames| && frames[i].cell == cell
  }

  class GuardStack {
    var depth: nat
    const frames: array<Frame>

    ghost predicate Valid()
      reads this, frames
    {
      ValidFrames(depth, frames[..])
    }

    constructor ()
      ensures Valid() && fresh(frames) && depth == 0
    {
      depth := 0;
      frames := new Frame[MAX_DEPTH](_ => CLEAR);
    }

    /** Opens a frame on top; the frame starts clean whatever used it before. */
    method Enter(cell: nat, phase: nat, deadline: nat) returns (guard: Option<nat>)
      requires Valid()
      modifies this`depth, frames
      ensures Valid()
      ensures guard == if cell != 0 && phase != 0 && old(depth) < MAX_DEPTH then Some(old(depth)) else None
      ensures guard.None? ==> depth == old(depth) && frames[..] == old(frames[..])
      ensures guard.Some? ==> depth == old(depth) + 1
      ensures guard.Some? ==>
        frames[..] == old(frames[..])[old(depth) := CLEAR.(cell := cell, phase := phase, deadline := deadline, domain := RUNTIME)]
    {
      if cell == 0 || phase == 0 || depth >= MAX_DEPTH {
        return None;
      }
      frames[depth] := frames[depth].(phase := phase, deadline := deadline, abortReason := 0, domain := RUNTIME, cell := cell);
      guard := Some(depth);
      depth := depth + 1;
    }

    /** Sets the bounds of the top frame; refusing a bad host range leaves the earlier ones written. */
    method Configure(guard: nat, bounds: Bounds, ranges: seq<Range>) returns (ok: bool)
      requires Valid()
      modifies frames
      ensures Valid()
      ensures ok <==>
        && WellBounded(bounds, |ranges|) && depth == guard + 1
        && forall i :: 0 <= i < |ranges| ==> GoodRange(ranges[i])
      ensures !WellBounded(bounds, |ranges|) || depth != guard + 1 ==> frames[..] == old(frames[..])
      ensures WellBounded(bounds, |ranges|) && depth == guard + 1 ==>
        var f := old(frames[guard]).(host := Written(old(frames[guard]).host, ranges, 0));
        frames[..] == old(frames[..])[guard := if ok then f.(hostCount := |ranges|, bounds := bounds) else f]
    {
      if !WellBounded(bounds, |ranges|) || depth != guard + 1 {
        return false;
      }
      assert Live(frames[guard]);
      ghost var host := frames[guard].host;
      var i := 0;
      while i < |ranges|
        invariant i <= |ranges| && Valid() && depth == guard + 1
        invariant forall j :: 0 <= j < i ==> GoodRange(ranges[j])
        invariant |frames[guard].host| == MAX_HOST_RANGES
        invariant Written(host, ranges, 0) == Written(frames[guard].host, ranges, i)
        invariant frames[..] == old(frames[..])[guard := old(frames[guard]).(host := frames[guard].host)]
      {
        if ranges[i].start == 0 || ranges[i].start >= ranges[i].end {
          return false;
        }
        frames[guard] := frames[guard].(host := frames[guard].host[i := ranges[i]]);
        i := i + 1;
      }
      frames[guard] := frames[guard].(hostCount := |ranges|, bounds := bounds);
      return true;
    }

    /** Enters a domain in the top frame, which has to be the caller's own. */
    method EnterDomain(guard: nat, domain: nat) returns (token: Option<DomainToken>)
      requires Valid() && KnownDomain(domain)
      modifies frames
      ensures Valid()
      ensures token.Some? <==> depth == guard + 1 && TransitionAllowed(old(frames[guard]).domain, domain)
      ensures token.None? ==> frames[..] == old(frames[..])
      ensures token.Some? ==>
        && token.value == DomainToken(guard, old(frames[guard]).domain) && KnownDomain(token.value.previous)
        && frames[..] == old(frames[..])[guard := old(frames[guard]).(domain := domain)]
    {
      if depth != guard + 1 {
        return None;
      }
      token := EnterCurrentDomain(domain);
    }

    /** The same for whoever runs in the top frame. */
    method EnterCurrentDomain(domain: nat) returns (token: Option<DomainToken>)
      requires Valid() && KnownDomain(domain)
      modifies frames
      ensures Valid()
      ensures token.Some? <==> depth > 0 && TransitionAllowed(old(frames[depth - 1]).domain, domain)
      ensures token.None? ==> frames[..] == old(frames[..])
      ensures token.Some? ==>
        && token.value == DomainToken(depth - 1, old(frames[depth - 1]).domain) && KnownDomain(token.value.previous)
        && frames[..] == old(frames[..])[depth - 1 := old(frames[depth - 1]).(domain := domain)]
    {
      if depth == 0 {
        return None;
      }
      assert Live(frames[depth - 1]);
      var previous := frames[depth - 1].domain;
      if !KnownDomain(previous) || !TransitionAllowed(previous, domain) {
        return None;
      }
      frames[depth - 1] := frames[depth - 1].(domain := domain);
      return Some(DomainToken(depth - 1, previous));
    }

    /** Goes back to the domain kept in the token, if its frame is on top. */
    method LeaveDomain(token: DomainToken)
      requires Valid() && KnownDomain(token.previous)
      modifies frames
      ensures Valid()
      ensures frames[..] ==
        if depth == token.guard + 1 then old(frames[..])[token.guard := old(frames[token.guard]).(domain := token.previous)]
        else old(frames[..])
    {
      if depth == token.guard + 1 {
        assert Live(frames[token.guard]);
        frames[token.guard] := frames[token.guard].(domain := token.previous);
      }
    }

    /** Registers the exit of the top frame, unless one is already there. */
    method Arm(pc: nat, sp: nat) returns (ok: bool)
      requires Valid()
      modifies frames
      ensures Valid()
      ensures ok <==>
        && pc != 0 && sp != 0 && sp % 16 == 0 && depth > 0 && old(frames[depth - 1]).recoveryPc == 0
        && old(frames[depth - 1]).bounds.code.start != 0 && old(frames[depth - 1]).bounds.stack.end != 0
      ensures frames[..] ==
        if ok then old(frames[..])[depth - 1 := old(frames[depth - 1]).(recoverySp := sp, recoveryPc := pc)]
        else old(frames[..])
    {
      if pc == 0 || sp == 0 || sp % 16 != 0 || depth == 0 {
        return false;
      }
      var frame := frames[depth - 1];
      assert Live(frame);
      if frame.bounds.code.start == 0 || frame.bounds.stack.end == 0 || frame.recoveryPc != 0 {
        return false;
      }
      frames[depth - 1] := frame.(recoverySp := sp, recoveryPc := pc);
      return true;
    }

    /** Withdraws the exit of the top frame and says whether there was one. */
    method Disarm() returns (armed: bool)
      requires Valid()
      modifies frames
      ensures Valid()
      ensures armed <==> depth > 0 && old(frames[depth - 1]).recoveryPc != 0
      ensures frames[..] ==
        if depth > 0 then old(frames[..])[depth - 1 := old(frames[depth - 1]).(recoveryPc := 0, recoverySp := 0)]
        else old(frames[..])
    {
      if depth == 0 {
        return false;
      }
      assert Live(frames[depth - 1]);
      armed := frames[depth - 1].recoveryPc != 0;
      frames[depth - 1] := frames[depth - 1].(recoveryPc := 0, recoverySp := 0);
    }

    /** Takes the exit of the top frame, if there is one, and leaves the reason. */
    method Consume(reason: nat) returns (r: Option<Recovery>)
      requires Valid()
      modifies frames
      ensures Valid()
      ensures r == Exit(depth, old(frames[..]), reason)
      ensures frames[..] ==
        if r.Some?
        then old(frames[..])[depth - 1 := old(frames[depth - 1]).(recoveryPc := 0, recoverySp := 0, abortReason := reason)]
        else old(frames[..])
    {
      if depth == 0 {
        return None;
      }
      var frame := frames[depth - 1];
      assert Live(frame);
      if frame.cell == 0 || frame.phase == 0 {
        return None;
      }
      var pc, sp := frame.recoveryPc, frame.recoverySp;
      frames[depth - 1] := frame.(recoveryPc := 0, recoverySp := 0);
      if pc == 0 || sp == 0 || sp % 16 != 0 {
        assert frames[depth - 1] == frame;
        assert frames[..] == old(frames[..]);
        return None;
      }
      frames[depth - 1] := frames[depth - 1].(abortReason := reason);
      return Some(Recovery(frame.cell, frame.phase, reason, pc, sp));
    }

    /** A kernel fault is recovered only inside the code of the top frame, in code or interrupt domain. */
    method RecoverFault(pc: nat) returns (r: Option<Recovery>)
      requires Valid()
      modifies frames
      ensures Valid()
      ensures r ==
        if depth > 0 && old(frames[depth - 1]).domain in {ELM_CODE, INTERRUPT} && Spans(old(frames[depth - 1]).bounds.code, pc)
        then Exit(depth, old(frames[..]), ABORT_TRAP) else None
      ensures frames[..] ==
        if r.Some?
        then old(frames[..])[depth - 1 := old(frames[depth - 1]).(recoveryPc := 0, recoverySp := 0, abortReason := ABORT_TRAP)]
        else old(frames[..])
    {
      if depth == 0 || !Recoverable(frames[depth - 1].domain) || !InCode(frames[depth - 1], pc) {
        return None;
      }
      r := Consume(ABORT_TRAP);
    }

    /** A cancellation or timeout that was requested takes effect when the code is interrupted. */
    method RecoverRequested(pc: nat) returns (r: Option<Recovery>)
      requires Valid()
      modifies frames
      ensures Valid()
      ensures r ==
        if depth > 0 && old(frames[depth - 1]).abortReason in {ABORT_CANCEL, ABORT_TIMEOUT}
          && old(frames[depth - 1]).domain in {ELM_CODE, INTERRUPT} && Spans(old(frames[depth - 1]).bounds.code, pc)
        then Exit(depth, old(frames[..]), old(frames[depth - 1]).abortReason) else None
      ensures frames[..] ==
        if r.Some? then old(frames[..])[depth - 1 := old(frames[depth - 1]).(recoveryPc := 0, recoverySp := 0)]
        else old(frames[..])
    {
      if depth == 0 {
        return None;
      }
      var frame := frames[depth - 1];
      if !(frame.abortReason == ABORT_CANCEL || frame.abortReason == ABORT_TIMEOUT)
        || !Recoverable(frame.domain) || !InCode(frame, pc)
      {
        return None;
      }
      r := Consume(frame.abortReason);
    }

    /** The running code gives up by itself. */
    method RecoverExplicit(reason: nat) returns (r: Option<Recovery>)
      requires Valid()
      modifies frames
      ensures Valid()
      ensures r ==
        if reason in {ABORT_CANCEL, ABORT_TIMEOUT, ABORT_PANIC} then Exit(depth, old(frames[..]), reason) else None
      ensures frames[..] ==
        if r.Some?
        then old(frames[..])[depth - 1 := old(frames[depth - 1]).(recoveryPc := 0, recoverySp := 0, abortReason := reason)]
        else old(frames[..])
    {
      if !(reason == ABORT_CANCEL || reason == ABORT_TIMEOUT || reason == ABORT_PANIC) {
        return None;
      }
      r := Consume(reason);
    }

    /** Leaves the reason in every frame of the cell. */
    method RequestAbort(cell: nat, reason: nat) returns (requested: bool)
      requires Valid()
      modifies frames
      ensures Valid()
      ensures requested <==> cell != 0 && reason != ABORT_NONE && HasCell(old(frames[..]), 0, depth, cell)
      ensures frames[..] ==
        if cell != 0 && reason != ABORT_NONE then Requested(old(frames[..]), 0, depth, cell, reason) else old(frames[..])
    {
      requested := false;
      if cell == 0 || reason == ABORT_NONE {
        return;
      }
      ghost var was := frames[..];
      var i: nat := depth;
      while i > 0
        invariant i <= depth && Valid() && frames[..] == Requested(was, i, depth, cell, reason)
        invariant requested <==> HasCell(was, i, depth, cell)
      {
        i := i - 1;
        assert Live(frames[i]) && frames[i] == frames[..][i] == was[i];
        if frames[i].cell == cell {
          frames[i] := frames[i].(abortReason := reason);
          requested := true;
        }
        assert frames[..] == Requested(was, i, depth, cell, reason);
      }
    }

    /** The deadline of the top frame has passed. */
    method RequestTimeout(now: nat) returns (expired: bool)
      requires Valid()
      modifies frames
      ensures Valid()
      ensures expired <==> depth > 0 && 0 < old(frames[depth - 1]).deadline <= now
      ensures frames[..] ==
        if expired then old(frames[..])[depth - 1 := old(frames[depth - 1]).(abortReason := ABORT_TIMEOUT)]
        else old(frames[..])
    {
      if depth == 0 {
        return false;
      }
      assert Live(frames[depth - 1]);
      var deadline := frames[depth - 1].deadline;
      if deadline == 0 || now < deadline {
        return false;
      }
      frames[depth - 1] := frames[depth - 1].(abortReason := ABORT_TIMEOUT);
      return true;
    }

    /** Closes the top frame and wipes it; closing out of order changes nothing. */
    method Drop(guard: nat)
      requires Valid()
      modifies this`depth, frames
      ensures Valid()
      ensures if old(depth) == guard + 1
        then depth == guard && frames[..] == old(frames[..])[guard := CLEAR]
        else depth == old(depth) && frames[..] == old(frames[..])
    {
      if depth != guard + 1 {
        return;
      }
      frames[guard] := CLEAR;
      depth := guard;
    }
  }

  /** What a recovery takes from the top frame: the exit registered there, if any. */
  function Exit(depth: nat, frames: seq<Frame>, reason: nat): (r: Option<Recovery>)
    requires depth <= |frames|
    ensures r.Some? ==> depth > 0 && r.value.sp % 16 == 0 && r.value.pc == frames[depth - 1].recoveryPc != 0
  {
    if depth == 0 || frames[depth - 1].recoveryPc == 0 || frames[depth - 1].recoverySp % 16 != 0 then None
    else
      var f := frames[depth - 1];
      Some(Recovery(f.cell, f.phase, reason, f.recoveryPc, f.recoverySp))
  }
}
