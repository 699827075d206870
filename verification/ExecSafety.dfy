/** What every run of the commit protocol keeps, and how every commit can end. */
module ExecSafety {
  import opened Outcomes
  import opened ExecProtocol

  /** The leases an attempt holds are determined by where it is. */
  function HeldAt(a: Attempt): Leases {
    match a.pc
    case Checking => EXEC_ONLY
    case Rechecking(_) => EXEC_ONLY
    case NativeChecking => EXEC_ONLY
    case NativeInstalling => EXEC_ONLY
    case Leasing(_, stage) => Leases(true, a.vfs && stage >= 1, a.fd && stage >= 3, stage >= 4)
    case Installing(n) => Leases(true, a.vfs, a.fd && n == 0, true)
    case Finishing => Leases(true, a.vfs, false, true)
    case _ => NO_LEASE
  }

  /** The parts an attempt has replaced so far. */
  function DoneAt(a: Attempt): seq<InstallStep> {
    match a.pc
    case Installing(n) => InstallSteps(n)
    case Finishing => InstallSteps(INSTALL_COUNT)
    case Succeeded => if a.native then NATIVE_STEPS else InstallSteps(INSTALL_COUNT)
    case Diverging(_) => a.done
    case _ => []
  }

  /** The threads an attempt has told to exit: from the request on all of those publication
      found in the group, but for the one that runs the commit. */
  predicate KilledAt(a: Attempt) {
    match a.pc
    case Requesting(siblings, was) => a.killed == {} && siblings == Others(a) && (was.Some? ==> was.value in siblings)
    case Waiting(siblings, was) => a.killed == siblings == Others(a) && (was.Some? ==> was.value in siblings)
    case Relocking(d) => a.killed == Others(a) && (d <==> a.killed != {})
    case Rechecking(d) => a.killed == Others(a) && (d <==> a.killed != {})
    case Leasing(d, _) => a.killed == Others(a) && (d <==> a.killed != {})
    case Installing(_) => a.killed == Others(a)
    case Finishing => a.killed == Others(a)
    case Failing(_) => a.killed == Others(a)
    case Diverging(_) => a.killed == Others(a)
    case Succeeded => a.killed == Others(a)
    case NativeInstalling => a.killed == {} == Others(a)
    case _ => a.killed == {}
  }

  /** The other threads of the group, as publication found it. */
  function Others(a: Attempt): set<Tid> {
    a.crew - {a.tid}
  }

  predicate NativePc(a: Attempt) {
    && (a.pc.NativeChecking? || a.pc.NativeInstalling? ==> a.native)
    && (a.native ==> a.pc.Entry? || a.pc.NativeChecking? || a.pc.NativeInstalling? || a.pc.Succeeded? || a.pc.Failed?)
    && (a.pc.Leasing? ==> a.pc.stage <= 6)
    && (a.pc.Installing? ==> a.pc.n < INSTALL_COUNT)
  }

  /** Only a change from one Linux image to another finds other threads in the group, and the
      thread that runs the commit is always there. */
  predicate CrewAt(a: Attempt) {
    Published(a.pc) || a.pc.Succeeded? || a.pc.Diverging? ==> a.tid in a.crew && (!a.linux || a.native ==> Others(a) == {})
  }

  /** What an attempt by itself keeps. */
  predicate Local(a: Attempt) {
    a.held == HeldAt(a) && a.done == DoneAt(a) && KilledAt(a) && CrewAt(a) && NativePc(a)
  }

  /** An attempt that has published its transition and what it may rely on. */
  predicate Reliant(s: State, a: Attempt) {
    && s.generation == a.base && (!a.native ==> a.base == a.observed)
    && s.slots == AllInstalled(a.before, a.tid, a.prepared, a.done)
    && s.members <= a.crew
    && (a.pc.Relocking? || a.pc.Rechecking? || a.pc.Leasing? || a.pc.Installing? || a.pc.Finishing? ==>
          a.killed <= s.dead)
    && (a.pc.Leasing? || a.pc.Installing? || a.pc.Finishing? || a.pc.NativeInstalling? ==> s.members <= {a.tid})
    && (!a.native && a.linux ==> Led(s.leader, a))
  }

  /** Until the siblings are gone the commit knows who leads the group; then its own thread does. */
  predicate Led(leader: Option<Tid>, a: Attempt) {
    match a.pc
    case Requesting(_, was) => leader == (if was.Some? then was else Some(a.tid)) && was != Some(a.tid)
    case Waiting(_, was) => leader == (if was.Some? then was else Some(a.tid)) && was != Some(a.tid)
    case Failing(_) => true
    case _ => leader == Some(a.tid)
  }

  /** How one attempt and the group fit together. */
  predicate Fits(s: State, i: nat)
    requires i < |s.attempts|
  {
    var a := s.attempts[i];
    && Local(a)
    && (Locked(a.pc) <==> s.owner == Some(i))
    && (Published(a.pc) <==> s.publisher == Some(i))
    && (Published(a.pc) ==> Reliant(s, a))
    && (a.pc.Succeeded? ==> a.base < s.generation && a.killed <= s.dead && (!a.native ==> a.base == a.observed))
    && (a.pc.Diverging? ==> s.phase == Terminating)
  }

  ghost predicate AllFit(s: State) {
    forall i {:trigger Fits(s, i)} :: 0 <= i < |s.attempts| ==> Fits(s, i)
  }

  /** Two commits that went through replaced different generations. */
  predicate Apart(a: Attempt, b: Attempt) {
    a.pc.Succeeded? && b.pc.Succeeded? ==> a.base != b.base
  }

  ghost predicate Serial(s: State) {
    forall i, j {:trigger Apart(s.attempts[i], s.attempts[j])} ::
      0 <= i < j < |s.attempts| ==> Apart(s.attempts[i], s.attempts[j])
  }

  function Successes(attempts: seq<Attempt>): nat {
    if |attempts| == 0 then 0
    else Successes(attempts[..|attempts| - 1]) + (if attempts[|attempts| - 1].pc.Succeeded? then 1 else 0)
  }

  /** How the fields of the group fit together. */
  predicate Whole(s: State) {
    && (s.phase == Transitioning <==> s.publisher.Some?)
    && (s.publisher.Some? ==> s.publisher.value < |s.attempts|)
    && (s.owner.Some? ==> s.owner.value < |s.attempts|)
    && s.generation <= GENERATION_MAX
  }

  ghost predicate Inv(s: State) {
    AllFit(s) && Serial(s) && Whole(s)
  }

  // ---------------------------------------------------------------------------
  // A step of one attempt
  // ---------------------------------------------------------------------------

  /** What a step leaves alone, and how far it may move the group. */
  ghost predicate Gentle(s: State, t: State, i: nat)
    requires i < |s.attempts| == |t.attempts|
  {
    && (forall j :: 0 <= j < |s.attempts| && j != i ==> t.attempts[j] == s.attempts[j])
    && (t.owner == s.owner || (s.owner in {None, Some(i)} && t.owner in {None, Some(i)}))
    && (t.publisher == s.publisher || (s.publisher in {None, Some(i)} && t.publisher in {None, Some(i)}))
    && t.members <= s.members && t.dead == s.dead && t.exiting == s.exiting
    && s.generation <= t.generation
    && (s.publisher != Some(i) ==>
          t.slots == s.slots && t.generation == s.generation && t.leader == s.leader && t.members == s.members)
    && (s.publisher != Some(i) && t.publisher != Some(i) ==> t.phase == s.phase)
    && (s.phase == Terminating ==> t.phase == Terminating)
  }

  lemma {:induction false} OthersFit(s: State, t: State, i: nat, j: nat)
    requires Inv(s) && i < |s.attempts| == |t.attempts| && Gentle(s, t, i)
    requires j < |s.attempts| && j != i
    ensures Fits(t, j)
  {
    assert Fits(s, j) && Fits(s, i);
  }

  /** How many steps an attempt can still take. */
  function Rank(pc: Pc): nat {
    match pc
    case Entry => 24
    case Checking => 23
    case Requesting(_, _) => 22
    case Waiting(_, _) => 21
    case Relocking(_) => 20
    case Rechecking(_) => 19
    case Leasing(_, stage) => if stage <= 6 then 18 - stage else 12
    case Installing(n) => if n < INSTALL_COUNT then 11 - n else 2
    case NativeChecking => 2
    case Failing(_) => 1
    case Finishing => 1
    case NativeInstalling => 1
    case _ => 0
  }

  /** Success: one generation further, every prepared part in place, and no old thread left. */
  predicate Won(s: State, t: State, i: nat)
    requires i < |s.attempts| && i < |t.attempts|
  {
    var a := s.attempts[i];
    && t.attempts[i] == a.(pc := Succeeded, held := NO_LEASE, done := t.attempts[i].done)
    && t.phase == Running && a.base == s.generation && t.generation == s.generation + 1
    && t.slots == AllInstalled(a.before, a.tid, a.prepared, t.attempts[i].done)
    && t.members <= {a.tid} && a.killed == Others(a) && (!a.native ==> a.killed <= t.dead)
    && (!a.native && a.linux ==> t.leader == Some(a.tid))
  }

  /** Failure: the generation, every part and the threads are as they were, and so is the phase. */
  predicate Lost(s: State, t: State, i: nat)
    requires i < |s.attempts| && i < |t.attempts|
  {
    var a := s.attempts[i];
    && t.generation == s.generation && t.slots == s.slots && t.leader == s.leader && t.members == s.members
    && t.attempts[i].killed == {} && t.attempts[i].done == []
    && (if Published(a.pc) then t.phase == Running && t.slots == a.before && t.generation == a.base
        else t.phase == s.phase)
  }

  /** What a step has to establish about the attempt that takes it. */
  ghost predicate Kept(s: State, t: State, i: nat)
    requires i < |s.attempts|
  {
    && |t.attempts| == |s.attempts|
    && Gentle(s, t, i) && Fits(t, i) && Whole(t)
    && Rank(t.attempts[i].pc) < Rank(s.attempts[i].pc)
    && ((t.leader == s.leader && t.members == s.members) || (s.attempts[i].pc.Waiting? && s.attempts[i].pc.siblings != {}))
    && (if t.attempts[i].pc.Succeeded? then Won(s, t, i) else t.generation == s.generation)
    && (t.attempts[i].pc.Failed? ==> Lost(s, t, i))
  }

  /** Exhausting the generation counter stops the kernel; nothing runs after that. */
  ghost predicate Sound(s: State, t: State, i: nat)
    requires i < |s.attempts|
  {
    if t.panicked then s.generation == GENERATION_MAX && s.publisher == Some(i) else Kept(s, t, i)
  }

  /** A published attempt moves on without touching the group's phase, lock or generation. */
  lemma {:induction false} MoveKept(s: State, i: nat, b: Attempt, slots: Slots, leader: Option<Tid>, members: set<Tid>)
    requires Whole(s) && i < |s.attempts| && Fits(s, i) && s.publisher == Some(i) && !s.panicked
    requires Local(b) && Published(b.pc) && (Locked(b.pc) <==> Locked(s.attempts[i].pc))
    requires Reliant(s.(slots := slots, leader := leader, members := members), b) && Rank(b.pc) < Rank(s.attempts[i].pc)
    requires (leader == s.leader && members == s.members) || (s.attempts[i].pc.Waiting? && s.attempts[i].pc.siblings != {})
    requires members <= s.members
    ensures Kept(s, Put(s, i, b).(slots := slots, leader := leader, members := members), i)
  {
  }

  lemma {:induction false} AbortKept(s: State, i: nat, error: Errno)
    requires Whole(s) && i < |s.attempts| && Fits(s, i) && s.publisher == Some(i) && !s.panicked
    requires s.owner == Some(i) && s.attempts[i].done == [] && s.attempts[i].killed == {}
    ensures Kept(s, Abort(s, i, error), i)
  {
  }

  lemma {:induction false} CondemnKept(s: State, i: nat, drops: Leases, error: Errno)
    requires Whole(s) && i < |s.attempts| && Fits(s, i) && s.publisher == Some(i) && !s.panicked
    requires s.owner == Some(i) && drops.exec && s.attempts[i].held.Minus(drops) == NO_LEASE
    requires !s.attempts[i].native
    ensures Kept(s, Condemn(s, i, drops, error), i)
  {
  }

  lemma {:induction false} ReturnKept(s: State, i: nat, error: Errno)
    requires Whole(s) && i < |s.attempts| && Fits(s, i) && s.publisher != Some(i) && !s.panicked
    requires s.owner == Some(i) && s.attempts[i].done == [] && s.attempts[i].killed == {}
    ensures Kept(s, Return(s, i, Failed(error)), i)
  {
  }

  lemma {:induction false} PublishKept(s: State, i: nat, pc: Pc, held: Leases)
    requires Whole(s) && i < |s.attempts| && Fits(s, i) && s.phase == Running && !s.panicked
    requires s.owner == Some(i) && s.attempts[i].done == []
    requires Local(s.attempts[i].(pc := pc, held := held, crew := s.members))
    requires !s.attempts[i].native && s.attempts[i].linux ==> Led(s.leader, s.attempts[i].(pc := pc))
    requires Published(pc) && (Locked(pc) <==> held.exec) && Rank(pc) < Rank(s.attempts[i].pc)
    requires pc.Requesting? ==> s.generation == s.attempts[i].observed
    requires pc.NativeInstalling? ==> s.members == {s.attempts[i].tid}
    requires pc.Requesting? || pc.NativeInstalling?
    requires s.attempts[i].native <==> pc.NativeInstalling?
    ensures Kept(s, Publish(s, i, pc, held), i)
  {
  }

  lemma {:induction false} EntryKept(s: State, i: nat, c: Choice)
    requires Whole(s) && Enabled(s, i, c) && Fits(s, i) && s.attempts[i].pc.Entry?
    ensures Sound(s, Act(s, i, c), i)
  {
  }

  lemma {:induction false} CheckingKept(s: State, i: nat, c: Choice)
    requires Whole(s) && Enabled(s, i, c) && Fits(s, i) && s.attempts[i].pc.Checking?
    ensures Sound(s, Act(s, i, c), i)
  {
    match Check(s, s.attempts[i], c) {
      case Refused(e) => ReturnKept(s, i, e);
      case Planned(siblings, was) =>
        assert was.Some? ==> was.value in siblings;
        PublishKept(s, i, Requesting(siblings, was), NO_LEASE);
    }
  }

  lemma {:induction false} WaitingKept(s: State, i: nat, c: Choice)
    requires Whole(s) && Enabled(s, i, c) && Fits(s, i)
    requires s.attempts[i].pc.Requesting? || s.attempts[i].pc.Waiting?
    ensures Sound(s, Act(s, i, c), i)
  {
    var t := Act(s, i, c);
    if s.attempts[i].pc.Requesting? {
      RequestedOn(s, i, c, t);
    } else if c.Fail? {
      WaitedInVain(s, i, c, t);
    } else {
      WaitedOn(s, i, c, t);
    }
    MoveKept(s, i, t.attempts[i], s.slots, t.leader, t.members);
  }

  /** Telling the siblings and waiting for them changes the attempt, and perhaps who leads the group. */
  ghost predicate Waited(s: State, i: nat, t: State)
    requires i < |s.attempts|
  {
    && i < |t.attempts| && t == Put(s, i, t.attempts[i]).(slots := s.slots, leader := t.leader, members := t.members)
    && ((t.leader == s.leader && t.members == s.members) || (s.attempts[i].pc.Waiting? && s.attempts[i].pc.siblings != {}))
    && t.members <= s.members
    && var b := t.attempts[i];
       && Local(b) && Published(b.pc) && !Locked(b.pc) && Rank(b.pc) < Rank(s.attempts[i].pc)
       && Reliant(s.(slots := s.slots, leader := t.leader, members := t.members), b)
  }

  lemma {:induction false} RequestedOn(s: State, i: nat, c: Choice, t: State)
    requires Enabled(s, i, c) && Fits(s, i) && t == Act(s, i, c) && s.attempts[i].pc.Requesting?
    ensures Waited(s, i, t)
  {
  }

  lemma {:induction false} WaitedInVain(s: State, i: nat, c: Choice, t: State)
    requires Enabled(s, i, c) && Fits(s, i) && t == Act(s, i, c) && s.attempts[i].pc.Waiting? && c.Fail?
    ensures Waited(s, i, t)
  {
  }

  lemma {:induction false} WaitedOn(s: State, i: nat, c: Choice, t: State)
    requires Enabled(s, i, c) && Fits(s, i) && t == Act(s, i, c) && s.attempts[i].pc.Waiting? && c.Pass?
    ensures Waited(s, i, t)
  {
    var a := s.attempts[i];
    var b := a.(pc := Relocking(a.pc.siblings != {}));
    RelockedLocal(a, b);
    RelockedReliant(s, a, b, t.leader, t.members);
    assert t.attempts[i] == b;
  }

  lemma {:induction false} RelockedLocal(a: Attempt, b: Attempt)
    requires Local(a) && a.pc.Waiting? && b == a.(pc := Relocking(a.pc.siblings != {}))
    ensures Local(b)
  {
  }

  lemma {:induction false} RelockedReliant(s: State, a: Attempt, b: Attempt, leader: Option<Tid>, members: set<Tid>)
    requires Local(a) && Reliant(s, a) && a.pc.Waiting? && b == a.(pc := Relocking(a.pc.siblings != {}))
    requires a.pc.siblings <= s.dead && members <= s.members
    requires leader == if a.pc.oldLeader.Some? then Some(a.tid) else s.leader
    ensures Reliant(s.(slots := s.slots, leader := leader, members := members), b)
  {
  }

  lemma {:induction false} LockingKept(s: State, i: nat, c: Choice)
    requires Whole(s) && Enabled(s, i, c) && Fits(s, i)
    requires s.attempts[i].pc.Failing? || s.attempts[i].pc.Relocking?
    ensures Sound(s, Act(s, i, c), i)
  {
  }

  /** After the wait the phase and the generation are always as published. */
  lemma {:induction false} RecheckingKept(s: State, i: nat, c: Choice)
    requires Whole(s) && Enabled(s, i, c) && Fits(s, i) && s.attempts[i].pc.Rechecking?
    ensures Sound(s, Act(s, i, c), i)
    ensures s.phase == Transitioning && s.generation == s.attempts[i].observed
    ensures !Act(s, i, c).attempts[i].pc.Failed?
  {
    if s.exiting {
      CondemnKept(s, i, EXEC_ONLY, EBUSY);
    } else if s.members != {s.attempts[i].tid} {
      CondemnKept(s, i, EXEC_ONLY, EAGAIN);
    } else {
      MoveKept(s, i, s.attempts[i].(pc := Leasing(s.attempts[i].pc.dethreaded, 0)), s.slots, s.leader, s.members);
    }
  }

  lemma {:induction false} AbortOrCondemnKept(s: State, i: nat, drops: Leases, error: Errno)
    requires Whole(s) && i < |s.attempts| && Fits(s, i) && !s.panicked && s.attempts[i].pc.Leasing?
    requires drops.exec && s.attempts[i].held.Minus(drops) == NO_LEASE
    ensures Kept(s, AbortOrCondemn(s, i, s.attempts[i].pc.dethreaded, drops, error), i)
  {
    if s.attempts[i].pc.dethreaded {
      CondemnKept(s, i, drops, error);
    } else {
      AbortKept(s, i, error);
    }
  }

  lemma {:induction false} LeaseMoveKept(s: State, i: nat, pc: Pc, held: Leases)
    requires Whole(s) && i < |s.attempts| && Fits(s, i) && !s.panicked && s.attempts[i].pc.Leasing?
    requires (pc.Leasing? && pc.dethreaded == s.attempts[i].pc.dethreaded && pc.stage <= 6) || pc == Installing(0)
    requires held == HeldAt(s.attempts[i].(pc := pc)) && Rank(pc) < Rank(s.attempts[i].pc)
    ensures Kept(s, Took(s, i, pc, held), i)
  {
    var a := s.attempts[i];
    MoveKept(s, i, a.(pc := pc, held := held), s.slots, s.leader, s.members);
  }

  /** Where a granted lease leads. */
  function AfterLease(d: bool, stage: nat): Pc {
    if stage < 6 then Leasing(d, stage + 1) else Installing(0)
  }

  /** A granted lease changes the attempt only, and leaves it with what it holds from there on. */
  lemma {:induction false} LeaseGranted(s: State, i: nat, d: bool, stage: nat)
    requires i < |s.attempts| && s.attempts[i].pc == Leasing(d, stage) && stage <= 6
    requires s.attempts[i].held == HeldAt(s.attempts[i])
    ensures LeaseStep(s, i, d, stage, Pass) == Took(s, i, AfterLease(d, stage), HeldAt(s.attempts[i].(pc := AfterLease(d, stage))))
  {
  }

  lemma {:induction false} LeasePassKept(s: State, i: nat, d: bool, stage: nat, t: State)
    requires Whole(s) && i < |s.attempts| && Fits(s, i) && !s.panicked && s.attempts[i].pc == Leasing(d, stage)
    requires t == LeaseStep(s, i, d, stage, Pass)
    ensures Kept(s, t, i)
  {
    var pc := AfterLease(d, stage);
    var held := HeldAt(s.attempts[i].(pc := pc));
    LeaseGranted(s, i, d, stage);
    LeaseMoveKept(s, i, pc, held);
  }

  /** Whether a refusal matters at this stage. */
  predicate CanRefuse(a: Attempt, stage: nat) {
    stage == 1 || (stage == 2 && a.fd) || stage >= 4
  }

  lemma {:induction false} LeaseFailKept(s: State, i: nat, d: bool, stage: nat, error: Errno, t: State)
    requires Whole(s) && i < |s.attempts| && Fits(s, i) && !s.panicked && s.attempts[i].pc == Leasing(d, stage)
    requires CanRefuse(s.attempts[i], stage) && t == LeaseStep(s, i, d, stage, Fail(error))
    ensures Kept(s, t, i)
  {
    if stage == 1 {
      AbortOrCondemnKept(s, i, Leases(true, true, false, false), error);
    } else if stage == 2 {
      AbortOrCondemnKept(s, i, Leases(true, true, true, false), EAGAIN);
    } else if stage <= 5 {
      AbortOrCondemnKept(s, i, ALL_LEASES, EAGAIN);
    } else {
      CondemnKept(s, i, ALL_LEASES, ENOMEM);
    }
  }

  lemma {:induction false} LeasingKept(s: State, i: nat, c: Choice)
    requires Whole(s) && Enabled(s, i, c) && Fits(s, i) && s.attempts[i].pc.Leasing?
    ensures Sound(s, Act(s, i, c), i)
  {
    var d, stage := s.attempts[i].pc.dethreaded, s.attempts[i].pc.stage;
    var t := LeaseStep(s, i, d, stage, c);
    if c.Fail? && CanRefuse(s.attempts[i], stage) {
      LeaseFailKept(s, i, d, stage, c.error, t);
    } else {
      LeasePassKept(s, i, d, stage, t);
    }
    LeaseStepRuns(s, i, d, stage, c, t);
  }

  lemma {:induction false} LeaseStepRuns(s: State, i: nat, d: bool, stage: nat, c: Choice, t: State)
    requires Enabled(s, i, c) && s.attempts[i].pc == Leasing(d, stage) && t == LeaseStep(s, i, d, stage, c)
    ensures Act(s, i, c) == t && !t.panicked
  {
  }

  lemma {:induction false} InstallLocal(a: Attempt, b: Attempt, step: InstallStep)
    requires Local(a) && a.pc.Installing? && step == InstallStepAt(a.pc.n)
    requires b == a.(pc := b.pc, held := a.held.(fd := false), done := a.done + [step])
    requires b.pc == if a.pc.n + 1 < INSTALL_COUNT then Installing(a.pc.n + 1) else Finishing
    ensures Local(b) && Rank(b.pc) < Rank(a.pc)
  {
    var n := a.pc.n;
    assert b.done == InstallSteps(n + 1);
    assert b.held == HeldAt(b);
  }

  lemma {:induction false} InstallReliant(s: State, a: Attempt, b: Attempt, step: InstallStep)
    requires Reliant(s, a) && a.pc.Installing? && (b.pc.Installing? || b.pc.Finishing?)
    requires b == a.(pc := b.pc, held := b.held, done := a.done + [step])
    ensures Reliant(s.(slots := Installed(s.slots, b.tid, b.prepared, step)), b)
  {
    assert (a.done + [step])[..|a.done|] == a.done;
  }

  lemma {:induction false} InstallMoveKept(s: State, i: nat, step: InstallStep, b: Attempt)
    requires Whole(s) && i < |s.attempts| && Fits(s, i) && !s.panicked && s.attempts[i].pc.Installing?
    requires step == InstallStepAt(s.attempts[i].pc.n)
    requires b == s.attempts[i].(pc := b.pc, held := b.held, done := s.attempts[i].done + [step])
    requires b.pc == if s.attempts[i].pc.n + 1 < INSTALL_COUNT then Installing(s.attempts[i].pc.n + 1) else Finishing
    requires b.held == s.attempts[i].held.(fd := false)
    ensures Kept(s, Put(s, i, b).(slots := Installed(s.slots, b.tid, b.prepared, step)), i)
  {
    var a := s.attempts[i];
    InstallLocal(a, b, step);
    InstallReliant(s, a, b, step);
    MoveKept(s, i, b, Installed(s.slots, b.tid, b.prepared, step), s.leader, s.members);
  }

  lemma {:induction false} InstallOneKept(s: State, i: nat, n: nat, step: InstallStep, c: Choice)
    requires Whole(s) && i < |s.attempts| && Fits(s, i) && !s.panicked && s.attempts[i].pc == Installing(n)
    requires step == InstallStepAt(n) && (step == FileDescriptors <==> n == 0)
    ensures Kept(s, InstallOne(s, i, n, step, c), i)
  {
    var a := s.attempts[i];
    if c.Fail? && CanFail(step) {
      CondemnKept(s, i, ALL_LEASES, c.error);
    } else {
      InstallMoveKept(s, i, step, InstallOne(s, i, n, step, c).attempts[i]);
    }
  }

  lemma {:induction false} InstallingKept(s: State, i: nat, c: Choice)
    requires Whole(s) && Enabled(s, i, c) && Fits(s, i) && s.attempts[i].pc.Installing?
    ensures Sound(s, Act(s, i, c), i)
  {
    var n := s.attempts[i].pc.n;
    InstallOneKept(s, i, n, InstallStepAt(n), c);
  }

  lemma {:induction false} FinishKept(s: State, i: nat, t: State)
    requires Whole(s) && i < |s.attempts| && Fits(s, i) && !s.panicked && s.attempts[i].pc.Finishing? && t == Finish(s, i)
    ensures Sound(s, t, i)
  {
  }

  lemma {:induction false} FinishingKept(s: State, i: nat, c: Choice)
    requires Whole(s) && Enabled(s, i, c) && Fits(s, i) && s.attempts[i].pc.Finishing?
    ensures Sound(s, Act(s, i, c), i)
  {
    if c.Fail? {
      CondemnKept(s, i, ALL_LEASES, ENOMEM);
    } else {
      FinishKept(s, i, Finish(s, i));
    }
  }

  lemma {:induction false} NativeCheckingKept(s: State, i: nat, c: Choice)
    requires Whole(s) && Enabled(s, i, c) && Fits(s, i) && s.attempts[i].pc.NativeChecking?
    ensures Sound(s, Act(s, i, c), i)
  {
    if s.phase != Running || s.members != {s.attempts[i].tid} || s.exiting {
      ReturnKept(s, i, EBUSY);
    } else {
      PublishKept(s, i, NativeInstalling, EXEC_ONLY);
    }
  }

  lemma {:induction false} NativeInstallingKept(s: State, i: nat, c: Choice)
    requires Whole(s) && Enabled(s, i, c) && Fits(s, i) && s.attempts[i].pc.NativeInstalling?
    ensures Sound(s, Act(s, i, c), i)
  {
    if c.Fail? {
      AbortKept(s, i, EAGAIN);
    }
  }

  lemma {:induction false} StepKept(s: State, i: nat, c: Choice)
    requires Inv(s) && Enabled(s, i, c)
    ensures Sound(s, Act(s, i, c), i)
  {
    assert Fits(s, i);
    match s.attempts[i].pc {
      case Entry => EntryKept(s, i, c);
      case Checking => CheckingKept(s, i, c);
      case Requesting(_, _) => WaitingKept(s, i, c);
      case Waiting(_, _) => WaitingKept(s, i, c);
      case Failing(_) => LockingKept(s, i, c);
      case Relocking(_) => LockingKept(s, i, c);
      case Rechecking(_) => RecheckingKept(s, i, c);
      case Leasing(_, _) => LeasingKept(s, i, c);
      case Installing(_) => InstallingKept(s, i, c);
      case Finishing => FinishingKept(s, i, c);
      case NativeChecking => NativeCheckingKept(s, i, c);
      case NativeInstalling => NativeInstallingKept(s, i, c);
    }
  }
}
