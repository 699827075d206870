/** Single steps of a commit, exactly: whom the first check lets through and with what plan, what a
    step never changes, and when and with which error a commit gives up. */
module ExecSteps {
  import opened Outcomes
  import opened ExecProtocol
  import opened ExecSafety

  /** The order in which a successful commit replaces the parts of the old image. */
  const INSTALL_ORDER: seq<InstallStep> := [
    FileDescriptors, AddressSpace, ExecutableAccess, Credentials, ExecPath,
    Arguments, Environment, Personality, InitialThread, UserContext]

  lemma {:induction false} InstallOrder()
    ensures InstallSteps(INSTALL_COUNT) == INSTALL_ORDER
  {
    assert InstallSteps(2) == INSTALL_ORDER[..2];
    assert InstallSteps(4) == INSTALL_ORDER[..4];
    assert InstallSteps(6) == INSTALL_ORDER[..6];
    assert InstallSteps(8) == INSTALL_ORDER[..8];
  }

  /** What lets a commit publish its transition. */
  predicate Admits(s: State, a: Attempt) {
    && s.phase == Running && s.generation == a.observed && !s.exiting && a.tid in s.members
    && (if a.linux then s.leader.Some? && s.leader.value in s.members else |s.members| == 1)
  }

  lemma {:induction false} OnlyMember(s: set<Tid>, t: Tid)
    ensures s == {t} <==> t in s && |s| == 1
  {
    if t in s && |s| == 1 {
      assert |s - {t}| == 0;
      assert s == s - {t} + {t};
    }
  }

  /** What the first check answers. */
  lemma {:induction false} CheckMeans(s: State, a: Attempt, c: Choice)
    ensures c.Pass? && Admits(s, a) ==>
      && Check(s, a, c).Planned? && Check(s, a, c).siblings == s.members - {a.tid}
      && (a.linux ==> Check(s, a, c).oldLeader == if s.leader == Some(a.tid) then None else s.leader)
    ensures !(c.Pass? && Admits(s, a)) ==>
      Check(s, a, c) == Refused(if s.phase != Running then EBUSY
                                else if s.generation != a.observed then EAGAIN
                                else if c.Fail? then c.error
                                else if s.exiting || !a.linux then EBUSY else EAGAIN)
  {
    OnlyMember(s.members, a.tid);
  }

  /** Only the progress of a commit differs, not what the caller has fixed. */
  predicate SameCall(a: Attempt, b: Attempt) {
    b == a.(pc := b.pc, held := b.held, done := b.done, killed := b.killed, base := b.base, before := b.before, crew := b.crew)
  }

  /** Nor the record publication has made. */
  predicate SameRecord(a: Attempt, b: Attempt) {
    b == a.(pc := b.pc, held := b.held, done := b.done, killed := b.killed)
  }

  /** The first check lets exactly the admissible commits through. It records the group as it
      finds it, and singles out every other thread of it and the leader to be replaced. */
  lemma {:induction false} CheckingExact(s: State, i: nat, c: Choice, t: State)
    requires Enabled(s, i, c) && s.attempts[i].pc.Checking? && t == Act(s, i, c)
    ensures i < |t.attempts| && SameCall(s.attempts[i], t.attempts[i]) && t.owner == None
    ensures var a, b := s.attempts[i], t.attempts[i];
      if c.Pass? && Admits(s, a) then
        && t.phase == Transitioning && b.base == s.generation && b.before == s.slots && b.crew == s.members
        && b.pc.Requesting? && b.pc.siblings == s.members - {a.tid}
        && (a.linux ==> b.pc.oldLeader == if s.leader == Some(a.tid) then None else s.leader)
      else
        && t.phase == s.phase
        && b.pc == Failed(if s.phase != Running then EBUSY
                          else if s.generation != a.observed then EAGAIN
                          else if c.Fail? then c.error
                          else if s.exiting || !a.linux then EBUSY else EAGAIN)
  {
    CheckMeans(s, s.attempts[i], c);
    match Check(s, s.attempts[i], c) {
      case Refused(e) => assert t == Return(s, i, Failed(e));
      case Planned(siblings, was) => assert t == Publish(s, i, Requesting(siblings, was), NO_LEASE);
    }
  }

  lemma {:induction false} Granted(s: State, i: nat, d: bool, stage: nat) returns (held: Leases)
    requires i < |s.attempts| && stage <= 6
    ensures LeaseStep(s, i, d, stage, Pass) == Took(s, i, AfterLease(d, stage), held)
  {
    held := LeaseStep(s, i, d, stage, Pass).attempts[i].held;
  }

  /** A refused lease condemns the group once threads were told to exit or nothing can be undone;
      otherwise the old image goes on. */
  lemma {:induction false} Denied(s: State, i: nat, d: bool, stage: nat, error: Errno) returns (drops: Leases)
    requires i < |s.attempts| && stage <= 6 && CanRefuse(s.attempts[i], stage)
    ensures var e := if stage == 1 then error else if stage == 6 then ENOMEM else EAGAIN;
      LeaseStep(s, i, d, stage, Fail(error)) == AbortOrCondemn(s, i, d || stage == 6, drops, e)
  {
    drops := if stage == 1 then Leases(true, true, false, false) else if stage == 2 then Leases(true, true, true, false) else ALL_LEASES;
  }

  lemma {:induction false} AbortOrCondemnFixes(s: State, i: nat, d: bool, drops: Leases, e: Errno, t: State)
    requires i < |s.attempts| && t == AbortOrCondemn(s, i, d, drops, e)
    ensures i < |t.attempts| && SameRecord(s.attempts[i], t.attempts[i])
    ensures t.attempts[i].pc == if d then Diverging(e) else Failed(e)
  {
  }

  lemma {:induction false} LeaseFixes(s: State, i: nat, d: bool, stage: nat, c: Choice, t: State)
    requires i < |s.attempts| && stage <= 6 && t == LeaseStep(s, i, d, stage, c)
    ensures i < |t.attempts| && SameRecord(s.attempts[i], t.attempts[i])
    ensures t.attempts[i].pc ==
      if c.Pass? || !CanRefuse(s.attempts[i], stage) then AfterLease(d, stage)
      else
        var e := if stage == 1 then c.error else if stage == 6 then ENOMEM else EAGAIN;
        if d || stage == 6 then Diverging(e) else Failed(e)
  {
    if c.Fail? && CanRefuse(s.attempts[i], stage) {
      var drops := Denied(s, i, d, stage, c.error);
      AbortOrCondemnFixes(s, i, d || stage == 6, drops, if stage == 1 then c.error else if stage == 6 then ENOMEM else EAGAIN, t);
    } else {
      var held := Granted(s, i, d, stage);
      assert t == Took(s, i, AfterLease(d, stage), held);
    }
  }

  /** Why and how a commit past its first check gives up: by returning an error while the old
      image can still go on, by never returning once threads were told to exit or installing began. */
  function GivesUp(s: State, a: Attempt, c: Choice): Option<Pc>
    requires a.pc.Installing? ==> a.pc.n < |INSTALL_ORDER|
  {
    match a.pc
    case Failing(e) => Some(Diverging(e))
    case Rechecking(_) =>
      if s.exiting then Some(Diverging(EBUSY)) else if s.members != {a.tid} then Some(Diverging(EAGAIN)) else None
    case Leasing(_, stage) =>
      if c.Pass? || stage == 0 || (stage == 2 && !a.fd) || stage == 3 then None
      else if stage == 6 then Some(Diverging(ENOMEM))
      else
        var e := if stage == 1 then c.error else EAGAIN;
        Some(if a.killed == {} then Failed(e) else Diverging(e))
    case Installing(n) =>
      if c.Pass? || INSTALL_ORDER[n] == Personality || INSTALL_ORDER[n] == UserContext then None
      else Some(Diverging(c.error))
    case Finishing => if c.Pass? then None else Some(Diverging(ENOMEM))
    case NativeInstalling => if c.Pass? then None else Some(Failed(EAGAIN))
    case _ => None
  }

  predicate Ends(pc: Pc, end: Option<Pc>) {
    if end.Some? then pc == end.value else !pc.Failed? && !pc.Diverging?
  }

  lemma {:induction false} InstallAt(n: nat)
    requires n < INSTALL_COUNT
    ensures INSTALL_ORDER[n] == InstallStepAt(n)
  {
  }

  /** A step past the first check keeps what is fixed, and gives up exactly as listed. */
  predicate Goes(s: State, i: nat, c: Choice, t: State) {
    && i < |s.attempts| && i < |t.attempts| && SameRecord(s.attempts[i], t.attempts[i])
    && (s.attempts[i].pc.Installing? ==> s.attempts[i].pc.n < |INSTALL_ORDER|)
    && Ends(t.attempts[i].pc, GivesUp(s, s.attempts[i], c))
  }

  lemma {:induction false} LeaseGoes(s: State, i: nat, c: Choice, t: State)
    requires Enabled(s, i, c) && Fits(s, i) && s.attempts[i].pc.Leasing? && t == Act(s, i, c)
    ensures Goes(s, i, c, t)
  {
    var d, stage := s.attempts[i].pc.dethreaded, s.attempts[i].pc.stage;
    LeaseStepRuns(s, i, d, stage, c, t);
    LeaseFixes(s, i, d, stage, c, t);
  }

  lemma {:induction false} InstallFixes(s: State, i: nat, n: nat, step: InstallStep, c: Choice, t: State)
    requires i < |s.attempts| && t == InstallOne(s, i, n, step, c)
    ensures i < |t.attempts| && SameRecord(s.attempts[i], t.attempts[i])
    ensures Ends(t.attempts[i].pc, if c.Pass? || step == Personality || step == UserContext then None else Some(Diverging(c.error)))
  {
  }

  lemma {:induction false} InstallGoes(s: State, i: nat, c: Choice, t: State)
    requires Enabled(s, i, c) && Fits(s, i) && s.attempts[i].pc.Installing? && t == Act(s, i, c)
    ensures Goes(s, i, c, t)
  {
    var n := s.attempts[i].pc.n;
    InstallAt(n);
    InstallFixes(s, i, n, InstallStepAt(n), c, t);
  }

  lemma {:induction false} FinishGoes(s: State, i: nat, c: Choice, t: State)
    requires Enabled(s, i, c) && s.attempts[i].pc.Finishing? && t == Act(s, i, c)
    ensures Goes(s, i, c, t)
  {
  }

  lemma {:induction false} NativeGoes(s: State, i: nat, c: Choice, t: State)
    requires Enabled(s, i, c) && s.attempts[i].pc.NativeInstalling? && t == Act(s, i, c)
    ensures Goes(s, i, c, t)
  {
    if c.Pass? {
      var u := Put(s, i, s.attempts[i].(done := NATIVE_STEPS)).(
        slots := AllInstalled(s.slots, s.attempts[i].tid, s.attempts[i].prepared, NATIVE_STEPS));
      assert t == Finish(u, i);
    }
  }

  lemma {:induction false} RecheckGoes(s: State, i: nat, c: Choice, t: State)
    requires Enabled(s, i, c) && Whole(s) && Fits(s, i) && s.attempts[i].pc.Rechecking? && t == Act(s, i, c)
    ensures Goes(s, i, c, t)
  {
    if s.exiting {
      assert t == Condemn(s, i, EXEC_ONLY, EBUSY);
    } else if s.members != {s.attempts[i].tid} {
      assert t == Condemn(s, i, EXEC_ONLY, EAGAIN);
    } else {
      assert t == Moved(s, i, Leasing(s.attempts[i].pc.dethreaded, 0));
    }
  }

  lemma {:induction false} WaitGoes(s: State, i: nat, c: Choice, t: State)
    requires Enabled(s, i, c) && t == Act(s, i, c)
    requires var pc := s.attempts[i].pc; pc.Requesting? || pc.Waiting? || pc.Failing? || pc.Relocking?
    ensures Goes(s, i, c, t)
  {
  }

  /** Past the first check a step changes nothing the caller has fixed nor the record of the group,
      and a commit gives up exactly for the listed reasons and with the listed errors. */
  lemma {:induction false} StepGoes(s: State, i: nat, c: Choice, t: State)
    requires Inv(s) && Enabled(s, i, c) && t == Act(s, i, c)
    requires var pc := s.attempts[i].pc; !pc.Entry? && !pc.Checking? && !pc.NativeChecking?
    ensures Goes(s, i, c, t)
  {
    assert Fits(s, i);
    var pc := s.attempts[i].pc;
    if pc.Leasing? {
      LeaseGoes(s, i, c, t);
    } else if pc.Installing? {
      InstallGoes(s, i, c, t);
    } else if pc.Finishing? {
      FinishGoes(s, i, c, t);
    } else if pc.NativeInstalling? {
      NativeGoes(s, i, c, t);
    } else if pc.Rechecking? {
      RecheckGoes(s, i, c, t);
    } else {
      WaitGoes(s, i, c, t);
    }
  }

  /** The check of a native commit: the one thread of a running group, recorded as found. */
  lemma {:induction false} NativeCheckingExact(s: State, i: nat, c: Choice, t: State)
    requires Enabled(s, i, c) && s.attempts[i].pc.NativeChecking? && t == Act(s, i, c)
    ensures i < |t.attempts| && SameCall(s.attempts[i], t.attempts[i])
    ensures var a, b := s.attempts[i], t.attempts[i];
      if s.phase == Running && s.members == {a.tid} && !s.exiting then
        && t.phase == Transitioning && b.pc == NativeInstalling
        && b.base == s.generation && b.before == s.slots && b.crew == s.members
      else t.phase == s.phase && b.pc == Failed(EBUSY)
  {
  }
}
