/**
  * Replacing a process image, as the steps of any number of commits on one thread group.
  * A step is atomic; between steps every other commit and the rest of the kernel may run.
  */
module ExecProtocol {
  import opened Outcomes

  type Tid = nat

  datatype Phase = Running | Transitioning | Terminating

  /** Which of the exec lock and the file-system, descriptor and signal leases are held, or dropped. */
  datatype Leases = Leases(exec: bool, vfs: bool, fd: bool, signal: bool) {
    function Minus(drops: Leases): Leases {
      Leases(exec && !drops.exec, vfs && !drops.vfs, fd && !drops.fd, signal && !drops.signal)
    }
  }

  const NO_LEASE: Leases := Leases(false, false, false, false)
  const ALL_LEASES: Leases := Leases(true, true, true, true)
  const EXEC_ONLY: Leases := Leases(true, false, false, false)

  datatype InstallStep =
    | FileDescriptors | AddressSpace | ExecutableAccess | Credentials | ExecPath
    | Arguments | Environment | Personality | InitialThread | UserContext

  const INSTALL_COUNT: nat := 10

  function InstallStepAt(n: nat): InstallStep {
    if n == 0 then FileDescriptors
    else if n == 1 then AddressSpace
    else if n == 2 then ExecutableAccess
    else if n == 3 then Credentials
    else if n == 4 then ExecPath
    else if n == 5 then Arguments
    else if n == 6 then Environment
    else if n == 7 then Personality
    else if n == 8 then InitialThread
    else UserContext
  }

  /** The first `n` install steps, in order. */
  function InstallSteps(n: nat): (steps: seq<InstallStep>)
    ensures |steps| == n
  {
    if n == 0 then [] else InstallSteps(n - 1) + [InstallStepAt(n - 1)]
  }

  /** What a native-to-native replacement installs. */
  const NATIVE_STEPS: seq<InstallStep> := [AddressSpace, InitialThread, Personality, UserContext]

  const GENERATION_MAX: nat := 0xFFFF_FFFF_FFFF_FFFF

  /** The state of each task's replaceable parts. */
  type Slots = map<(Tid, InstallStep), nat>

  datatype Pc =
    | Entry
    | Checking
    | Requesting(siblings: set<Tid>, oldLeader: Option<Tid>)
    | Waiting(siblings: set<Tid>, oldLeader: Option<Tid>)
    | Failing(error: Errno)
    | Relocking(dethreaded: bool)
    | Rechecking(dethreaded: bool)
    | Leasing(dethreaded: bool, stage: nat)
    | Installing(n: nat)
    | Finishing
    | NativeChecking
    | NativeInstalling
    | Succeeded
    | Failed(error: Errno)
    | Diverging(error: Errno)

  /**
    * One call of the commit. The first line is fixed by the caller: which call, by whom, the generation
    * seen while preparing, whether descriptors and a file-system context were seen, both personalities,
    * and the new parts. `base`, `before` and `crew` record what publication found.
    */
  datatype Attempt = Attempt(
    native: bool, tid: Tid, observed: nat, fd: bool, vfs: bool, linux: bool, prepared: map<InstallStep, nat>,
    pc: Pc, held: Leases, done: seq<InstallStep>, killed: set<Tid>,
    base: nat, before: Slots, crew: set<Tid>)

  /** `publisher` records whose transition is under way; `panicked` that the kernel stopped. */
  datatype State = State(
    phase: Phase, generation: nat, owner: Option<nat>,
    members: set<Tid>, dead: set<Tid>, leader: Option<Tid>, exiting: bool,
    slots: Slots, attempts: seq<Attempt>,
    publisher: Option<nat>, panicked: bool)

  /** The outcome of whatever a step asks of code outside this protocol. */
  datatype Choice = Pass | Fail(error: Errno)

  predicate Published(pc: Pc) {
    pc.Requesting? || pc.Waiting? || pc.Failing? || pc.Relocking? || pc.Rechecking? || pc.Leasing?
    || pc.Installing? || pc.Finishing? || pc.NativeInstalling?
  }

  predicate Locked(pc: Pc) {
    pc.Checking? || pc.Rechecking? || pc.Leasing? || pc.Installing? || pc.Finishing?
    || pc.NativeChecking? || pc.NativeInstalling?
  }

  predicate Finished(pc: Pc) {
    pc.Succeeded? || pc.Failed? || pc.Diverging?
  }

  function Put(s: State, i: nat, a: Attempt): State
    requires i < |s.attempts|
  {
    s.(attempts := s.attempts[i := a])
  }

  /** An early return: every lease goes with the frame. */
  function Return(s: State, i: nat, pc: Pc): State
    requires i < |s.attempts|
  {
    Put(s, i, s.attempts[i].(pc := pc, held := NO_LEASE)).(owner := None)
  }

  /** Before anything irreversible happened the old image goes on. */
  function Abort(s: State, i: nat, error: Errno): State
    requires i < |s.attempts|
  {
    Return(s.(phase := Running, publisher := None), i, Failed(error))
  }

  /** The group is condemned; only the listed leases are dropped before the call that never returns. */
  function Condemn(s: State, i: nat, drops: Leases, error: Errno): State
    requires i < |s.attempts|
  {
    var a := s.attempts[i];
    Put(s, i, a.(pc := Diverging(error), held := a.held.Minus(drops))).(
      phase := Terminating, publisher := None, owner := if drops.exec then None else s.owner)
  }

  function AbortOrCondemn(s: State, i: nat, dethreaded: bool, drops: Leases, error: Errno): State
    requires i < |s.attempts|
  {
    if dethreaded then Condemn(s, i, drops, error) else Abort(s, i, error)
  }

  /** Which threads have to go, and whose identity is taken over. */
  datatype Plan = Refused(error: Errno) | Planned(siblings: set<Tid>, oldLeader: Option<Tid>)

  function PlanTransition(s: State, a: Attempt): Plan {
    if s.exiting then Refused(EBUSY)
    else if !a.linux then (if s.members == {a.tid} then Planned({}, None) else Refused(EBUSY))
    else if a.tid !in s.members || s.leader == None then Refused(EAGAIN)
    else if s.leader.value == a.tid then Planned(s.members - {a.tid}, None)
    else if s.leader.value in s.members then Planned(s.members - {a.tid}, s.leader)
    else Refused(EAGAIN)
  }

  /** The checks made under the lock before anything is published. */
  function Check(s: State, a: Attempt, c: Choice): Plan {
    if s.phase != Running then Refused(EBUSY)
    else if s.generation != a.observed then Refused(EAGAIN)
    else if c.Fail? then Refused(c.error)
    else PlanTransition(s, a)
  }

  function Publish(s: State, i: nat, pc: Pc, held: Leases): State
    requires i < |s.attempts|
  {
    var a := s.attempts[i];
    Put(s, i, a.(pc := pc, held := held, base := s.generation, before := s.slots, crew := s.members)).(
      phase := Transitioning, publisher := Some(i), owner := if held.exec then Some(i) else None)
  }

  function Moved(s: State, i: nat, pc: Pc): State
    requires i < |s.attempts|
  {
    Put(s, i, s.attempts[i].(pc := pc))
  }

  function Took(s: State, i: nat, pc: Pc, held: Leases): State
    requires i < |s.attempts|
  {
    Put(s, i, s.attempts[i].(pc := pc, held := held))
  }

  function LeaseStep(s: State, i: nat, dethreaded: bool, stage: nat, c: Choice): State
    requires i < |s.attempts|
  {
    var a := s.attempts[i];
    if stage == 0 then
      if a.vfs then Took(s, i, Leasing(dethreaded, 1), a.held.(vfs := true)) else Moved(s, i, Leasing(dethreaded, 1))
    else if stage == 1 then
      if c.Fail? then AbortOrCondemn(s, i, dethreaded, Leases(true, true, false, false), c.error)
      else Moved(s, i, Leasing(dethreaded, 2))
    else if stage == 2 then
      if !a.fd then Moved(s, i, Leasing(dethreaded, 3))
      else if c.Fail? then AbortOrCondemn(s, i, dethreaded, Leases(true, true, true, false), EAGAIN)
      else Took(s, i, Leasing(dethreaded, 3), a.held.(fd := true))
    else if stage == 3 then
      Took(s, i, Leasing(dethreaded, 4), a.held.(signal := true))
    else if stage <= 5 then
      if c.Fail? then AbortOrCondemn(s, i, dethreaded, ALL_LEASES, EAGAIN)
      else Moved(s, i, Leasing(dethreaded, stage + 1))
    else
      if c.Fail? then Condemn(s, i, ALL_LEASES, ENOMEM)
      else Moved(s, i, Installing(0))
  }

  predicate CanFail(step: InstallStep) {
    !step.Personality? && !step.UserContext?
  }

  function Installed(slots: Slots, tid: Tid, prepared: map<InstallStep, nat>, step: InstallStep): Slots {
    if step in prepared then slots[(tid, step) := prepared[step]] else slots
  }

  function AllInstalled(slots: Slots, tid: Tid, prepared: map<InstallStep, nat>, steps: seq<InstallStep>): Slots {
    if |steps| == 0 then slots
    else Installed(AllInstalled(slots, tid, prepared, steps[..|steps| - 1]), tid, prepared, steps[|steps| - 1])
  }

  /** The `n`th install step, which is `step`. */
  function InstallOne(s: State, i: nat, n: nat, step: InstallStep, c: Choice): State
    requires i < |s.attempts|
  {
    var a := s.attempts[i];
    if c.Fail? && CanFail(step) then Condemn(s, i, ALL_LEASES, c.error)
    else
      var next := if n + 1 < INSTALL_COUNT then Installing(n + 1) else Finishing;
      var held := if step == FileDescriptors then a.held.(fd := false) else a.held;
      Put(s, i, a.(pc := next, held := held, done := a.done + [step])).(
        slots := Installed(s.slots, a.tid, a.prepared, step))
  }

  function Finish(s: State, i: nat): State
    requires i < |s.attempts|
  {
    if s.generation >= GENERATION_MAX then s.(panicked := true)
    else Return(s.(phase := Running, publisher := None, generation := s.generation + 1), i, Succeeded)
  }

  function NativeInstall(s: State, i: nat, c: Choice): State
    requires i < |s.attempts|
  {
    var a := s.attempts[i];
    if c.Fail? then Abort(s, i, EAGAIN)
    else
      Finish(Put(s, i, a.(done := NATIVE_STEPS)).(
        slots := AllInstalled(s.slots, a.tid, a.prepared, NATIVE_STEPS)), i)
  }

  function Recheck(s: State, i: nat, dethreaded: bool): State
    requires i < |s.attempts|
  {
    var a := s.attempts[i];
    var only := s.members == {a.tid};
    if s.exiting then Condemn(s, i, EXEC_ONLY, EBUSY)
    else if s.phase != Transitioning || s.generation != a.observed || !only then
      if !dethreaded && s.phase == Transitioning && only then Abort(s, i, EAGAIN)
      else Condemn(s, i, EXEC_ONLY, EAGAIN)
    else Moved(s, i, Leasing(dethreaded, 0))
  }

  predicate NeedsLock(pc: Pc) {
    pc.Entry? || pc.Failing? || pc.Relocking?
  }

  /** The old leader still leads, and nobody but it and the thread that takes its place is left. */
  predicate CanTakeOver(s: State, tid: Tid, oldLeader: Tid) {
    s.leader == Some(oldLeader) && s.members == {tid, oldLeader}
  }

  /** The siblings are gone; a new leader takes the place of the old one, which leaves the group. */
  function TakeOver(s: State, i: nat, siblings: set<Tid>, oldLeader: Option<Tid>): State
    requires i < |s.attempts|
  {
    var t := Moved(s, i, Relocking(siblings != {}));
    if oldLeader.None? then t
    else t.(leader := Some(s.attempts[i].tid), members := s.members - {oldLeader.value})
  }

  /** Whether attempt `i` can take its next step. */
  predicate Enabled(s: State, i: nat, c: Choice) {
    && !s.panicked
    && i < |s.attempts|
    && var pc := s.attempts[i].pc;
       && !Finished(pc)
       && (NeedsLock(pc) && !(pc.Entry? && c.Fail?) ==> s.owner == None)
       && (pc.Waiting? ==>
             if c.Fail? then pc.siblings * s.dead != {}
             else pc.siblings <= s.dead && (pc.oldLeader.Some? ==> CanTakeOver(s, s.attempts[i].tid, pc.oldLeader.value)))
  }

  function Act(s: State, i: nat, c: Choice): State
    requires Enabled(s, i, c)
  {
    var a := s.attempts[i];
    match a.pc
    case Entry =>
      if c.Fail? then Put(s, i, a.(pc := Failed(c.error)))
      else Took(s.(owner := Some(i)), i, if a.native then NativeChecking else Checking, a.held.(exec := true))
    case Checking =>
      (match Check(s, a, c)
       case Refused(e) => Return(s, i, Failed(e))
       case Planned(siblings, was) => Publish(s, i, Requesting(siblings, was), NO_LEASE))
    case Requesting(siblings, was) =>
      Put(s, i, a.(pc := Waiting(siblings, was), killed := siblings))
    case Waiting(siblings, was) =>
      if c.Fail? then Moved(s, i, Failing(c.error))
      else TakeOver(s, i, siblings, was)
    case Failing(e) => Condemn(Took(s, i, a.pc, a.held.(exec := true)), i, EXEC_ONLY, e)
    case Relocking(d) => Took(s.(owner := Some(i)), i, Rechecking(d), a.held.(exec := true))
    case Rechecking(d) => Recheck(s, i, d)
    case Leasing(d, stage) => LeaseStep(s, i, d, stage, c)
    case Installing(n) => InstallOne(s, i, n, InstallStepAt(n), c)
    case Finishing => if c.Fail? then Condemn(s, i, ALL_LEASES, ENOMEM) else Finish(s, i)
    case NativeChecking =>
      if s.phase != Running || s.members != {a.tid} || s.exiting then Return(s, i, Failed(EBUSY))
      else Publish(s, i, NativeInstalling, EXEC_ONLY)
    case NativeInstalling => NativeInstall(s, i, c)
    case _ => s
  }

  /** What the rest of the kernel may do to the group between steps. */
  datatype Event =
    | Begin(attempt: Attempt)
    | Step(i: nat, choice: Choice)
    | Join(tid: Tid)
    | Die(tid: Tid)
    | Leave(tid: Tid)
    | GroupExit
    | LeaderGone

  predicate Fresh(a: Attempt) {
    a.pc == Entry && a.held == NO_LEASE && a.done == [] && a.killed == {}
  }

  /** The published commit of a Linux image runs on the leader or keeps a reference to it. */
  predicate LeaderHeld(s: State) {
    && s.publisher.Some? && s.publisher.value < |s.attempts|
    && s.attempts[s.publisher.value].linux && !s.attempts[s.publisher.value].native
  }

  predicate Possible(s: State, e: Event) {
    && !s.panicked
    && match e
       case Begin(a) => Fresh(a)
       case Step(i, c) => Enabled(s, i, c)
       case Join(t) => s.owner == None && s.phase == Running
       case LeaderGone => !LeaderHeld(s)
       case _ => true
  }

  function After(s: State, e: Event): State
    requires Possible(s, e)
  {
    match e
    case Begin(a) => s.(attempts := s.attempts + [a])
    case Step(i, c) => Act(s, i, c)
    case Join(t) => s.(members := s.members + {t})
    case Die(t) => s.(dead := s.dead + {t})
    case Leave(t) => s.(members := s.members - {t})
    case GroupExit => s.(exiting := true)
    case LeaderGone => s.(leader := None)
  }
}
