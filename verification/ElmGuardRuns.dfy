/** Every run of the guard stack: where recoveries come from, and what the interrupt domain allows. */
module ElmGuardRuns {
  import opened Outcomes
  import opened ElmGuard

  datatype Op =
    | OpEnter(cell: nat, phase: nat, deadline: nat)
    | OpConfigure(guard: nat, bounds: Bounds, ranges: seq<Range>)
    | OpEnterDomain(guard: nat, domain: nat)
    | OpEnterCurrent(domain: nat)
    | OpLeaveDomain(token: nat)
    | OpArm(pc: nat, sp: nat)
    | OpDisarm
    | OpFault(pc: nat)
    | OpInterrupted(pc: nat)
    | OpExplicit(reason: nat)
    | OpRequestAbort(cell: nat, reason: nat)
    | OpTimeout(now: nat)
    | OpDrop(guard: nat)

  /** What the operation answered. */
  datatype Answer = No | Yes | Opened(guard: nat) | Entered(token: nat) | Taken(recovery: Recovery)

  /** The frames and the domain tokens handed out, without those given back. */
  datatype State = State(depth: nat, frames: seq<Frame>, tokens: seq<Option<DomainToken>>)

  ghost predicate Valid(s: State) {
    && ValidFrames(s.depth, s.frames)
    && forall i :: 0 <= i < |s.tokens| && s.tokens[i].Some? ==> KnownDomain(s.tokens[i].value.previous)
  }

  function Top(s: State): Frame
    requires 0 < s.depth <= |s.frames|
  {
    s.frames[s.depth - 1]
  }

  function SetTop(s: State, f: Frame): State
    requires 0 < s.depth <= |s.frames|
  {
    s.(frames := s.frames[s.depth - 1 := f])
  }

  predicate CanOpen(s: State, cell: nat, phase: nat) {
    cell != 0 && phase != 0 && s.depth < MAX_DEPTH
  }

  predicate CanArm(s: State, pc: nat, sp: nat)
    requires s.depth <= |s.frames|
  {
    && pc != 0 && sp != 0 && sp % 16 == 0 && s.depth > 0 && Top(s).recoveryPc == 0
    && Top(s).bounds.code.start != 0 && Top(s).bounds.stack.end != 0
  }

  function EnterTop(s: State, domain: nat): (State, Answer)
    requires s.depth <= |s.frames|
  {
    if s.depth == 0 || !TransitionAllowed(Top(s).domain, domain) then (s, No)
    else (SetTop(s, Top(s).(domain := domain)).(tokens := s.tokens + [Some(DomainToken(s.depth - 1, Top(s).domain))]),
          Entered(|s.tokens|))
  }

  /** A token is given back once; it counts only while its frame is on top. */
  predicate Leaves(s: State, token: nat) {
    token < |s.tokens| && s.tokens[token].Some? && s.tokens[token].value.guard + 1 == s.depth
  }

  function Take(s: State, wanted: bool, reason: nat): (State, Answer)
    requires s.depth <= |s.frames|
  {
    if !wanted || Exit(s.depth, s.frames, reason).None? then (s, No)
    else (SetTop(s, Top(s).(recoveryPc := 0, recoverySp := 0, abortReason := reason)),
          Taken(Exit(s.depth, s.frames, reason).value))
  }

  function Configured(s: State, bounds: Bounds, ranges: seq<Range>): (State, Answer)
    requires 0 < s.depth <= |s.frames| && |Top(s).host| == MAX_HOST_RANGES && |ranges| <= MAX_HOST_RANGES
  {
    var f := Top(s).(host := Written(Top(s).host, ranges, 0));
    if exists i :: 0 <= i < |ranges| && !GoodRange(ranges[i]) then (SetTop(s, f), No)
    else (SetTop(s, f.(hostCount := |ranges|, bounds := bounds)), Yes)
  }

  /** One operation on values. */
  function Apply(s: State, op: Op): (State, Answer)
    requires Valid(s)
  {
    match op
    case OpEnter(cell, phase, deadline) =>
      if !CanOpen(s, cell, phase) then (s, No)
      else (s.(depth := s.depth + 1,
               frames := s.frames[s.depth := CLEAR.(cell := cell, phase := phase, deadline := deadline, domain := RUNTIME)]),
            Opened(s.depth))
    case OpConfigure(guard, bounds, ranges) =>
      if !WellBounded(bounds, |ranges|) || s.depth != guard + 1 then (s, No) else Configured(s, bounds, ranges)
    case OpEnterDomain(guard, domain) =>
      if s.depth != guard + 1 || !KnownDomain(domain) then (s, No) else EnterTop(s, domain)
    case OpEnterCurrent(domain) => if !KnownDomain(domain) then (s, No) else EnterTop(s, domain)
    case OpLeaveDomain(token) =>
      if token >= |s.tokens| || s.tokens[token].None? then (s, No)
      else if !Leaves(s, token) then (s.(tokens := s.tokens[token := None]), Yes)
      else (SetTop(s, Top(s).(domain := s.tokens[token].value.previous)).(tokens := s.tokens[token := None]), Yes)
    case OpArm(pc, sp) =>
      if !CanArm(s, pc, sp) then (s, No) else (SetTop(s, Top(s).(recoverySp := sp, recoveryPc := pc)), Yes)
    case OpDisarm =>
      if s.depth == 0 then (s, No)
      else (SetTop(s, Top(s).(recoveryPc := 0, recoverySp := 0)), if Top(s).recoveryPc != 0 then Yes else No)
    case OpFault(pc) => Take(s, s.depth > 0 && Recoverable(Top(s).domain) && InCode(Top(s), pc), ABORT_TRAP)
    case OpInterrupted(pc) =>
      if s.depth == 0 then (s, No)
      else Take(s, Top(s).abortReason in {ABORT_CANCEL, ABORT_TIMEOUT} && Recoverable(Top(s).domain) && InCode(Top(s), pc),
                Top(s).abortReason)
    case OpExplicit(reason) => Take(s, reason in {ABORT_CANCEL, ABORT_TIMEOUT, ABORT_PANIC}, reason)
    case OpRequestAbort(cell, reason) =>
      if cell == 0 || reason == ABORT_NONE then (s, No)
      else (s.(frames := Requested(s.frames, 0, s.depth, cell, reason)),
            if exists i :: 0 <= i < s.depth && s.frames[i].cell == cell then Yes else No)
    case OpTimeout(now) =>
      if s.depth == 0 || !(0 < Top(s).deadline <= now) then (s, No)
      else (SetTop(s, Top(s).(abortReason := ABORT_TIMEOUT)), Yes)
    case OpDrop(guard) =>
      if s.depth != guard + 1 then (s, No)
      else (s.(depth := guard, frames := s.frames[guard := CLEAR]), Yes)
  }

  /** Replacing the top frame by a live one. */
  lemma {:induction false} SetTopValid(s: State, f: Frame)
    requires Valid(s) && s.depth > 0 && Live(f)
    ensures Valid(SetTop(s, f))
  {
  }

  lemma {:induction false} EnterTopValid(s: State, domain: nat)
    requires Valid(s) && KnownDomain(domain)
    ensures Valid(EnterTop(s, domain).0)
  {
    if s.depth > 0 {
      assert Live(Top(s));
      SetTopValid(s, Top(s).(domain := domain));
    }
  }

  lemma {:induction false} LeaveValid(s: State, token: nat)
    requires Valid(s)
    ensures Valid(Apply(s, OpLeaveDomain(token)).0)
  {
    if Leaves(s, token) {
      assert Live(Top(s));
      SetTopValid(s, Top(s).(domain := s.tokens[token].value.previous));
    }
  }

  lemma {:induction false} TakeValid(s: State, wanted: bool, reason: nat)
    requires Valid(s)
    ensures Valid(Take(s, wanted, reason).0)
  {
    if wanted && Exit(s.depth, s.frames, reason).Some? {
      assert Live(Top(s));
      SetTopValid(s, Top(s).(recoveryPc := 0, recoverySp := 0, abortReason := reason));
    }
  }

  lemma {:induction false} ConfiguredValid(s: State, bounds: Bounds, ranges: seq<Range>)
    requires Valid(s) && s.depth > 0 && |Top(s).host| == MAX_HOST_RANGES && WellBounded(bounds, |ranges|)
    ensures Valid(Configured(s, bounds, ranges).0)
  {
    var f := Top(s).(host := Written(Top(s).host, ranges, 0));
    assert Live(Top(s));
    WrittenNonEmpty(Top(s).hostCount, Top(s).host, ranges, 0);
    SetTopValid(s, f);
    if forall i :: 0 <= i < |ranges| ==> GoodRange(ranges[i]) {
      SetTopValid(s, f.(hostCount := |ranges|, bounds := bounds));
    }
  }

  lemma {:induction false} RequestedValid(s: State, cell: nat, reason: nat)
    requires Valid(s)
    ensures Valid(s.(frames := Requested(s.frames, 0, s.depth, cell, reason)))
  {
    var t := s.(frames := Requested(s.frames, 0, s.depth, cell, reason));
    forall i | 0 <= i < t.depth
      ensures Live(t.frames[i])
    {
      assert Live(s.frames[i]);
    }
  }

  lemma {:induction false} ApplyValid(s: State, op: Op)
    requires Valid(s)
    ensures Valid(Apply(s, op).0)
  {
    assert s.depth > 0 ==> Live(Top(s));
    match op {
      case OpConfigure(guard, bounds, ranges) =>
        if WellBounded(bounds, |ranges|) && s.depth == guard + 1 {
          ConfiguredValid(s, bounds, ranges);
        }
      case OpEnterDomain(_, domain) =>
        if KnownDomain(domain) {
          EnterTopValid(s, domain);
        }
      case OpEnterCurrent(domain) =>
        if KnownDomain(domain) {
          EnterTopValid(s, domain);
        }
      case OpLeaveDomain(token) => LeaveValid(s, token);
      case OpArm(pc, sp) =>
        if CanArm(s, pc, sp) {
          SetTopValid(s, Top(s).(recoverySp := sp, recoveryPc := pc));
        }
      case OpDisarm =>
        if s.depth > 0 {
          SetTopValid(s, Top(s).(recoveryPc := 0, recoverySp := 0));
        }
      case OpFault(pc) => TakeValid(s, s.depth > 0 && Recoverable(Top(s).domain) && InCode(Top(s), pc), ABORT_TRAP);
      case OpInterrupted(pc) =>
        if s.depth > 0 {
          TakeValid(s, Top(s).abortReason in {ABORT_CANCEL, ABORT_TIMEOUT} && Recoverable(Top(s).domain) && InCode(Top(s), pc),
                    Top(s).abortReason);
        }
      case OpExplicit(reason) => TakeValid(s, reason in {ABORT_CANCEL, ABORT_TIMEOUT, ABORT_PANIC}, reason);
      case OpRequestAbort(cell, reason) => RequestedValid(s, cell, reason);
      case OpTimeout(_) =>
        if s.depth > 0 {
          SetTopValid(s, Top(s).(abortReason := ABORT_TIMEOUT));
        }
      case _ =>
    }
  }

  // ---------------------------------------------------------------------------
  // Runs
  // ---------------------------------------------------------------------------

  function Start(): (s: State)
    ensures Valid(s) && s.depth == 0
  {
    State(0, seq(MAX_DEPTH, _ => CLEAR), [])
  }

  /** Operations, the states before, between and after them, and their answers. */
  datatype Run = Run(ops: seq<Op>, states: seq<State>, answers: seq<Answer>) {
    predicate Shaped() {
      |states| == |ops| + 1 && |answers| == |ops|
    }

    ghost predicate Step(n: nat)
      requires Shaped() && n < |ops|
    {
      Valid(states[n]) ==> (states[n + 1], answers[n]) == Apply(states[n], ops[n])
    }
  }

  ghost predicate Genuine(r: Run) {
    && r.Shaped() && r.states[0] == Start()
    && forall n {:trigger r.Step(n)} :: 0 <= n < |r.ops| ==> r.Step(n)
  }

  /** In every state of every run the frames above the depth are clear. */
  lemma {:induction false} AlwaysValid(r: Run, n: nat)
    requires Genuine(r) && n <= |r.ops|
    ensures Valid(r.states[n])
  {
    if n > 0 {
      AlwaysValid(r, n - 1);
      assert r.Step(n - 1);
      ApplyValid(r.states[n - 1], r.ops[n - 1]);
    }
  }

  /** Every list of operations has its run, one longer than that of the list before. */
  lemma {:induction false} Extended(r: Run, op: Op, t: State, answer: Answer)
    requires Genuine(r) && Valid(r.states[|r.ops|]) && (t, answer) == Apply(r.states[|r.ops|], op)
    ensures Genuine(Run(r.ops + [op], r.states + [t], r.answers + [answer])) && Valid(t)
  {
    var r' := Run(r.ops + [op], r.states + [t], r.answers + [answer]);
    ApplyValid(r.states[|r.ops|], op);
    forall n | 0 <= n < |r'.ops|
      ensures r'.Step(n)
    {
      if n < |r.ops| {
        assert r.Step(n);
      }
    }
  }

  // ---------------------------------------------------------------------------
  // One-shot recovery
  // ---------------------------------------------------------------------------

  /** Operation `n` takes or withdraws the exit of frame `d`, or closes that frame. */
  predicate Ends(r: Run, n: nat, d: nat)
    requires r.Shaped() && n < |r.ops|
  {
    || r.states[n + 1].depth <= d
    || (r.states[n].depth == d + 1 && (r.ops[n].OpDisarm? || r.answers[n].Taken?))
  }

  /** Operation `j` armed the exit of frame `d`. */
  predicate Armed(r: Run, j: nat, d: nat)
    requires r.Shaped() && j < |r.ops|
  {
    r.ops[j].OpArm? && r.answers[j].Yes? && r.states[j].depth == d + 1
  }

  /** From its arming at `j` until `i`, frame `d` stayed open and nobody took or withdrew its exit. */
  ghost predicate Stands(r: Run, j: nat, i: nat, d: nat)
    requires r.Shaped() && i <= |r.ops|
  {
    j < i && Armed(r, j, d) && forall k :: j < k < i ==> !Ends(r, k, d)
  }

  predicate Holds(s: State, d: nat, pc: nat, sp: nat) {
    d < s.depth && d < |s.frames| && s.frames[d].recoveryPc == pc && s.frames[d].recoverySp == sp
  }

  /** What one operation does to the recovery registers of a frame. */
  lemma {:induction false} Registers(s: State, op: Op, d: nat, t: State, answer: Answer)
    requires Valid(s) && (t, answer) == Apply(s, op)
    ensures op.OpArm? && answer.Yes? && s.depth == d + 1 ==> op.pc != 0 && Holds(t, d, op.pc, op.sp)
    ensures d < t.depth && !(op.OpArm? && answer.Yes? && s.depth == d + 1) ==>
      if d >= s.depth || (s.depth == d + 1 && (op.OpDisarm? || answer.Taken?)) then Holds(t, d, 0, 0)
      else Holds(t, d, s.frames[d].recoveryPc, s.frames[d].recoverySp)
  {
  }

  lemma {:induction false} RegistersAt(r: Run, n: nat, d: nat)
    requires Genuine(r) && n < |r.ops|
    ensures Armed(r, n, d) ==> r.ops[n].pc != 0 && Holds(r.states[n + 1], d, r.ops[n].pc, r.ops[n].sp)
    ensures d < r.states[n + 1].depth && !Armed(r, n, d) ==>
      if d >= r.states[n].depth || Ends(r, n, d) then Holds(r.states[n + 1], d, 0, 0)
      else d < |r.states[n].frames| && Holds(r.states[n + 1], d, r.states[n].frames[d].recoveryPc, r.states[n].frames[d].recoverySp)
  {
    AlwaysValid(r, n);
    assert r.Step(n);
    Registers(r.states[n], r.ops[n], d, r.states[n + 1], r.answers[n]);
  }

  /** An exit that stands is in the registers, as it was armed. */
  lemma {:induction false} StandingExit(r: Run, j: nat, i: nat, d: nat)
    requires Genuine(r) && i <= |r.ops| && Stands(r, j, i, d)
    ensures Holds(r.states[i], d, r.ops[j].pc, r.ops[j].sp) && r.ops[j].pc != 0
    decreases i
  {
    RegistersAt(r, i - 1, d);
    if i - 1 > j {
      assert !Ends(r, i - 1, d);
      StandingExit(r, j, i - 1, d);
      NotTwice(r, i - 1, d);
    }
  }

  /** A second exit is refused. */
  lemma {:induction false} NotTwice(r: Run, n: nat, d: nat)
    requires Genuine(r) && n < |r.ops| && d < r.states[n].depth && d < |r.states[n].frames|
    ensures r.states[n].frames[d].recoveryPc != 0 ==> !Armed(r, n, d)
  {
    AlwaysValid(r, n);
    assert r.Step(n);
  }

  /** An exit found in the registers stands since some arming. */
  lemma {:induction false} ExitOrigin(r: Run, i: nat, d: nat) returns (j: nat)
    requires Genuine(r) && i <= |r.ops| && d < r.states[i].depth && d < |r.states[i].frames|
    requires r.states[i].frames[d].recoveryPc != 0
    ensures Stands(r, j, i, d)
    decreases i
  {
    RegistersAt(r, i - 1, d);
    if Armed(r, i - 1, d) {
      j := i - 1;
    } else {
      j := ExitOrigin(r, i - 1, d);
    }
  }

  /** Operation `i` recovers through the exit armed at `j`: in the top frame, as armed, still standing. */
  ghost predicate Recovers(r: Run, j: nat, i: nat)
    requires r.Shaped() && i < |r.ops|
  {
    var s, answer := r.states[i], r.answers[i];
    && 0 < s.depth <= |s.frames| && Stands(r, j, i, s.depth - 1) && answer.Taken?
    && answer.recovery.pc == r.ops[j].pc && answer.recovery.sp == r.ops[j].sp
    && answer.recovery.sp % 16 == 0 && answer.recovery.cell == Top(s).cell
  }

  /** The operations that recover, if there is an exit to take. */
  predicate Wants(s: State, op: Op)
    requires s.depth <= |s.frames|
  {
    match op
    case OpFault(pc) => s.depth > 0 && Top(s).domain in {ELM_CODE, INTERRUPT} && Spans(Top(s).bounds.code, pc)
    case OpInterrupted(pc) =>
      && s.depth > 0 && Top(s).abortReason in {ABORT_CANCEL, ABORT_TIMEOUT}
      && Top(s).domain in {ELM_CODE, INTERRUPT} && Spans(Top(s).bounds.code, pc)
    case OpExplicit(reason) => reason in {ABORT_CANCEL, ABORT_TIMEOUT, ABORT_PANIC}
    case _ => false
  }

  /** On one state: an operation takes the exit of the top frame exactly when it wants one and there is one. */
  lemma {:induction false} TakenMeans(s: State, op: Op, answer: Answer)
    requires Valid(s) && answer == Apply(s, op).1
    ensures answer.Taken? <==> Wants(s, op) && s.depth > 0 && Top(s).recoveryPc != 0
    ensures answer.Taken? ==>
      && answer.recovery.cell == Top(s).cell && answer.recovery.sp % 16 == 0
      && Holds(s, s.depth - 1, answer.recovery.pc, answer.recovery.sp)
  {
    assert s.depth > 0 ==> Live(Top(s));
  }

  lemma {:induction false} TakenAt(r: Run, i: nat)
    requires Genuine(r) && i < |r.ops|
    ensures var s, answer := r.states[i], r.answers[i];
      && s.depth <= |s.frames|
      && (answer.Taken? <==> Wants(s, r.ops[i]) && s.depth > 0 && Top(s).recoveryPc != 0)
      && (answer.Taken? ==>
            && answer.recovery.cell == Top(s).cell && answer.recovery.sp % 16 == 0
            && Holds(s, s.depth - 1, answer.recovery.pc, answer.recovery.sp))
  {
    AlwaysValid(r, i);
    assert r.Step(i);
    TakenMeans(r.states[i], r.ops[i], r.answers[i]);
  }

  /** Every recovery of every run takes an exit that was armed earlier in the frame now on top and still stands. */
  lemma {:induction false} RecoveryOrigin(r: Run, i: nat) returns (j: nat)
    requires Genuine(r) && i < |r.ops| && r.answers[i].Taken?
    ensures Recovers(r, j, i)
  {
    TakenAt(r, i);
    var d := r.states[i].depth - 1;
    j := ExitOrigin(r, i, d);
    StandingExit(r, j, i, d);
  }

  /** No arming serves two recoveries. */
  lemma {:induction false} OneShot(r: Run, i: nat, i': nat, j: nat)
    requires Genuine(r) && i < i' < |r.ops| && Recovers(r, j, i)
    ensures !Recovers(r, j, i')
  {
    if Recovers(r, j, i') {
      assert Ends(r, i, r.states[j].depth - 1);
    }
  }

  ghost predicate ExitStands(r: Run, i: nat, d: nat)
    requires r.Shaped() && i <= |r.ops|
  {
    exists j :: Stands(r, j, i, d)
  }

  /** A fault or abort is recovered if and only if it is of the right kind and an exit stands in the top frame. */
  lemma {:induction false} RecoversExactly(r: Run, i: nat)
    requires Genuine(r) && i < |r.ops|
    ensures var s := r.states[i];
      && s.depth <= |s.frames|
      && (r.answers[i].Taken? <==> Wants(s, r.ops[i]) && s.depth > 0 && ExitStands(r, i, s.depth - 1))
  {
    TakenAt(r, i);
    var s := r.states[i];
    if s.depth > 0 {
      var d := s.depth - 1;
      if s.frames[d].recoveryPc != 0 {
        var j := ExitOrigin(r, i, d);
      } else if ExitStands(r, i, d) {
        var j :| Stands(r, j, i, d);
        StandingExit(r, j, i, d);
      }
    }
  }

  // ---------------------------------------------------------------------------
  // The interrupt domain
  // ---------------------------------------------------------------------------

  /** Operation `n` closes frame `d`, or gives back a token of frame `d` that leads out of the interrupt domain. */
  predicate LeavesInterrupt(r: Run, n: nat, d: nat)
    requires r.Shaped() && n < |r.ops|
  {
    r.states[n + 1].depth <= d || GivesBack(r.states[n], r.ops[n], d)
  }

  predicate GivesBack(s: State, op: Op, d: nat) {
    op.OpLeaveDomain? && Leaves(s, op.token) && s.depth == d + 1 && s.tokens[op.token].value.previous != INTERRUPT
  }

  predicate InInterrupt(s: State, d: nat) {
    d < s.depth && d < |s.frames| && s.frames[d].domain == INTERRUPT
  }

  lemma {:induction false} InterruptStep(s: State, op: Op, d: nat, t: State)
    requires Valid(s) && t == Apply(s, op).0 && InInterrupt(s, d) && d < t.depth && !GivesBack(s, op, d)
    ensures InInterrupt(t, d)
  {
  }

  /** Once a frame is in the interrupt domain it stays there until that domain is left or the frame closed. */
  lemma {:induction false} InterruptStays(r: Run, i: nat, n: nat, d: nat)
    requires Genuine(r) && i <= n <= |r.ops| && InInterrupt(r.states[i], d)
    requires forall k :: i <= k < n ==> !LeavesInterrupt(r, k, d)
    ensures InInterrupt(r.states[n], d)
    decreases n
  {
    if n > i {
      InterruptStays(r, i, n - 1, d);
      assert !LeavesInterrupt(r, n - 1, d);
      AlwaysValid(r, n - 1);
      assert r.Step(n - 1);
      InterruptStep(r.states[n - 1], r.ops[n - 1], d, r.states[n]);
    }
  }

  /** Until then, whoever runs in it is refused every other domain. */
  lemma {:induction false} InterruptRefuses(r: Run, i: nat, n: nat, d: nat)
    requires Genuine(r) && i <= n < |r.ops| && InInterrupt(r.states[i], d)
    requires forall k :: i <= k < n ==> !LeavesInterrupt(r, k, d)
    requires r.states[n].depth == d + 1
    ensures (r.ops[n].OpEnterDomain? || r.ops[n].OpEnterCurrent?) && r.ops[n].domain != INTERRUPT ==>
      r.answers[n] == No && r.states[n + 1] == r.states[n]
  {
    InterruptStays(r, i, n, d);
    AlwaysValid(r, n);
    assert r.Step(n);
  }

  // ---------------------------------------------------------------------------
  // A run that recovers
  // ---------------------------------------------------------------------------

  /** An open, configured frame in code domain with an exit armed. */
  predicate Gated(s: State, cell: nat, phase: nat, bounds: Bounds, gate: nat, sp: nat) {
    && s.depth == 1 <= |s.frames| && Top(s).cell == cell && Top(s).phase == phase
    && Top(s).bounds == bounds && Top(s).domain == ELM_CODE && Holds(s, 0, gate, sp)
  }

  function Outcome(s: State, op: Op): (t: State)
    requires Valid(s)
    ensures Valid(t)
  {
    ApplyValid(s, op);
    Apply(s, op).0
  }

  /** Entering, configuring, going to code and arming leads there. */
  lemma {:induction false} GateReached(cell: nat, phase: nat, bounds: Bounds, gate: nat, sp: nat)
    requires cell != 0 && phase != 0 && bounds != UNBOUND && Confined(bounds) && gate != 0 && sp != 0 && sp % 16 == 0
    ensures var s1 := Outcome(Start(), OpEnter(cell, phase, 0));
      var s2 := Outcome(s1, OpConfigure(0, bounds, []));
      var s3 := Outcome(s2, OpEnterDomain(0, ELM_CODE));
      Gated(Outcome(s3, OpArm(gate, sp)), cell, phase, bounds, gate, sp)
  {
    var s1 := Outcome(Start(), OpEnter(cell, phase, 0));
    assert s1.depth == 1 && Top(s1) == CLEAR.(cell := cell, phase := phase, deadline := 0, domain := RUNTIME);
    var s2 := Outcome(s1, OpConfigure(0, bounds, []));
    assert s2.depth == 1 && Top(s2) == Top(s1).(bounds := bounds, host := Top(s2).host, hostCount := 0);
    var s3 := Outcome(s2, OpEnterDomain(0, ELM_CODE));
    assert s3.depth == 1 && Top(s3) == Top(s2).(domain := ELM_CODE);
  }

  /** From there a fault in the code returns to the gate, and the next fault finds no exit. */
  lemma {:induction false} FaultRecovers(s: State, cell: nat, phase: nat, bounds: Bounds, gate: nat, sp: nat, pc: nat)
    requires Valid(s) && Gated(s, cell, phase, bounds, gate, sp) && gate != 0
    requires 0 < bounds.code.start <= pc < bounds.code.end
    ensures Apply(s, OpFault(pc)).1 == Taken(Recovery(cell, phase, ABORT_TRAP, gate, sp))
    ensures Apply(Outcome(s, OpFault(pc)), OpFault(pc)).1 == No
  {
    assert Live(Top(s));
    var t := Outcome(s, OpFault(pc));
    assert t.depth == 1 && Top(t).recoveryPc == 0;
  }

  lemma {:induction false} Continued(r: Run, op: Op) returns (r': Run)
    requires Genuine(r)
    ensures Genuine(r') && r'.ops == r.ops + [op] && Valid(r.states[|r.ops|]) && |r'.answers| == |r.ops| + 1
    ensures r'.states[|r.ops| + 1] == Outcome(r.states[|r.ops|], op)
    ensures r'.answers[|r.ops|] == Apply(r.states[|r.ops|], op).1
  {
    var n := |r.ops|;
    AlwaysValid(r, n);
    var (t, answer) := Apply(r.states[n], op);
    Extended(r, op, t, answer);
    r' := Run(r.ops + [op], r.states + [t], r.answers + [answer]);
  }

  /** A run in which a fault is recovered: a guarded call, from its entry to its gate. */
  lemma {:induction false} RecoveringRun(cell: nat, phase: nat, bounds: Bounds, gate: nat, sp: nat, pc: nat) returns (r: Run)
    requires cell != 0 && phase != 0 && bounds != UNBOUND && Confined(bounds) && gate != 0 && sp != 0 && sp % 16 == 0
    requires bounds.code.start <= pc < bounds.code.end
    ensures Genuine(r)
    ensures r.ops == [OpEnter(cell, phase, 0), OpConfigure(0, bounds, []), OpEnterDomain(0, ELM_CODE), OpArm(gate, sp), OpFault(pc)]
    ensures r.answers[4] == Taken(Recovery(cell, phase, ABORT_TRAP, gate, sp))
  {
    GateReached(cell, phase, bounds, gate, sp);
    var r0 := Run([], [Start()], []);
    var r1 := Continued(r0, OpEnter(cell, phase, 0));
    var r2 := Continued(r1, OpConfigure(0, bounds, []));
    var r3 := Continued(r2, OpEnterDomain(0, ELM_CODE));
    var r4 := Continued(r3, OpArm(gate, sp));
    FaultRecovers(r4.states[4], cell, phase, bounds, gate, sp, pc);
    r := Continued(r4, OpFault(pc));
  }

  // ---------------------------------------------------------------------------
  // Running the stack
  // ---------------------------------------------------------------------------

  ghost function StateOf(g: GuardStack, tokens: seq<Option<DomainToken>>): State
    reads g, g.frames
  {
    State(g.depth, g.frames[..], tokens)
  }

  /** Whatever is done, in whatever order, the stack and its answers are those of a run of the same operations. */
  method RunAll(ops: seq<Op>) returns (g: GuardStack, tokens: seq<Option<DomainToken>>, answers: seq<Answer>, ghost r: Run)
    ensures Genuine(r) && r.ops == ops && r.answers == answers && r.states[|ops|] == StateOf(g, tokens)
  {
    g := new GuardStack();
    tokens, answers := [], [];
    assert g.frames[..] == Start().frames;
    r := Run([], [Start()], []);
    var i := 0;
    while i < |ops|
      invariant i <= |ops| && g.Valid() && fresh(g) && fresh(g.frames)
      invariant Genuine(r) && r.ops == ops[..i] && r.answers == answers
      invariant r.states[i] == StateOf(g, tokens) && Valid(r.states[i])
    {
      var answer;
      ghost var s := r.states[i];
      tokens, answer := Perform(g, tokens, ops[i]);
      Extended(r, ops[i], StateOf(g, tokens), answer);
      r := Run(r.ops + [ops[i]], r.states + [StateOf(g, tokens)], r.answers + [answer]);
      answers := answers + [answer];
      i := i + 1;
    }
  }

  method Perform(g: GuardStack, tokens: seq<Option<DomainToken>>, op: Op) returns (tokens': seq<Option<DomainToken>>, answer: Answer)
    requires g.Valid() && Valid(StateOf(g, tokens))
    modifies g, g.frames
    ensures g.Valid() && (StateOf(g, tokens'), answer) == Apply(old(StateOf(g, tokens)), op)
  {
    if op.OpEnterDomain? || op.OpEnterCurrent? || op.OpLeaveDomain? {
      tokens', answer := PerformDomain(g, tokens, op);
    } else if op.OpFault? || op.OpInterrupted? || op.OpExplicit? {
      tokens' := tokens;
      answer := PerformRecovery(g, tokens, op);
    } else {
      tokens' := tokens;
      answer := PerformOther(g, tokens, op);
    }
  }

  method PerformDomain(g: GuardStack, tokens: seq<Option<DomainToken>>, op: Op) returns (tokens': seq<Option<DomainToken>>, answer: Answer)
    requires g.Valid() && Valid(StateOf(g, tokens)) && (op.OpEnterDomain? || op.OpEnterCurrent? || op.OpLeaveDomain?)
    modifies g, g.frames
    ensures g.Valid() && (StateOf(g, tokens'), answer) == Apply(old(StateOf(g, tokens)), op)
  {
    tokens', answer := tokens, No;
    if op.OpLeaveDomain? {
      if op.token < |tokens| && tokens[op.token].Some? {
        g.LeaveDomain(tokens[op.token].value);
        tokens', answer := tokens[op.token := None], Yes;
      }
    } else if KnownDomain(op.domain) {
      var token;
      if op.OpEnterDomain? {
        token := g.EnterDomain(op.guard, op.domain);
      } else {
        token := g.EnterCurrentDomain(op.domain);
      }
      if token.Some? {
        tokens', answer := tokens + [token], Entered(|tokens|);
      }
    }
  }

  method PerformRecovery(g: GuardStack, tokens: seq<Option<DomainToken>>, op: Op) returns (answer: Answer)
    requires g.Valid() && Valid(StateOf(g, tokens)) && (op.OpFault? || op.OpInterrupted? || op.OpExplicit?)
    modifies g, g.frames
    ensures g.Valid() && (StateOf(g, tokens), answer) == Apply(old(StateOf(g, tokens)), op)
  {
    var r;
    match op {
      case OpFault(pc) => r := g.RecoverFault(pc);
      case OpInterrupted(pc) => r := g.RecoverRequested(pc);
      case OpExplicit(reason) => r := g.RecoverExplicit(reason);
    }
    answer := if r.Some? then Taken(r.value) else No;
  }

  method PerformOther(g: GuardStack, tokens: seq<Option<DomainToken>>, op: Op) returns (answer: Answer)
    requires g.Valid() && Valid(StateOf(g, tokens))
    requires !op.OpEnterDomain? && !op.OpEnterCurrent? && !op.OpLeaveDomain?
    requires !op.OpFault? && !op.OpInterrupted? && !op.OpExplicit?
    modifies g, g.frames
    ensures g.Valid() && (StateOf(g, tokens), answer) == Apply(old(StateOf(g, tokens)), op)
  {
    var ok := false;
    match op {
      case OpEnter(cell, phase, deadline) =>
        var guard := g.Enter(cell, phase, deadline);
        return if guard.Some? then Opened(guard.value) else No;
      case OpConfigure(guard, bounds, ranges) => ok := g.Configure(guard, bounds, ranges);
      case OpArm(pc, sp) => ok := g.Arm(pc, sp);
      case OpDisarm => ok := g.Disarm();
      case OpRequestAbort(cell, reason) => ok := g.RequestAbort(cell, reason);
      case OpTimeout(now) => ok := g.RequestTimeout(now);
      case OpDrop(guard) =>
        ok := g.depth == guard + 1;
        g.Drop(guard);
    }
    answer := if ok then Yes else No;
  }
}
