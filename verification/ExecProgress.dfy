/** Commits end: in at most twenty-four steps, and a commit that is left alone goes through. */
module ExecProgress {
  import opened Outcomes
  import opened ExecProtocol
  import opened ExecSafety
  import opened ExecSteps
  import opened ExecRuns

  // ---------------------------------------------------------------------------
  // How many steps a commit takes
  // ---------------------------------------------------------------------------

  const MOST_STEPS: nat := 24

  function StepsOf(es: seq<Event>, i: nat): nat {
    if |es| == 0 then 0
    else (if es[0].Step? && es[0].i == i then 1 else 0) + StepsOf(es[1..], i)
  }

  /** What commit `i` has left, whether it has begun or not. */
  function Left(s: State, i: nat): nat {
    if i < |s.attempts| then Rank(s.attempts[i].pc) else MOST_STEPS
  }

  lemma {:induction false} EventLeft(s: State, e: Event, i: nat)
    requires Inv(s) && Possible(s, e) && !After(s, e).panicked
    ensures Left(After(s, e), i) + (if e.Step? && e.i == i then 1 else 0) <= Left(s, i)
  {
    match e {
      case Begin(a) =>
      case Step(k, c) => StepKept(s, k, c);
      case _ =>
    }
  }

  lemma {:induction false} StepsLeft(s: State, es: seq<Event>, i: nat)
    requires Inv(s) && !s.panicked && PossibleRun(s, es)
    ensures StepsOf(es, i) <= Left(s, i)
    decreases |es|
  {
    if |es| > 0 {
      var e, rest := es[0], es[1..];
      var t := After(s, e);
      EventInv(s, e);
      if t.panicked {
        LastEvent(s, e, rest, i);
      } else {
        EventLeft(s, e, i);
        StepsLeft(t, rest, i);
      }
    }
  }

  /** The step that stops the kernel is the last event, and its commit was not at its end. */
  lemma {:induction false} LastEvent(s: State, e: Event, rest: seq<Event>, i: nat)
    requires Inv(s) && !s.panicked && Possible(s, e) && After(s, e).panicked && PossibleRun(After(s, e), rest)
    ensures rest == [] && e.Step? && e.i < |s.attempts| && Left(s, e.i) >= 1
  {
  }

  /** In every run every commit takes at most twenty-four steps. */
  lemma {:induction false} StepsBounded(s: State, es: seq<Event>, i: nat)
    requires Initial(s) && PossibleRun(s, es)
    ensures StepsOf(es, i) <= MOST_STEPS
  {
    InitialInv(s);
    StepsLeft(s, es, i);
  }

  // ---------------------------------------------------------------------------
  // A commit that is left alone
  // ---------------------------------------------------------------------------

  /** A thread alone in its group, with every commit but `i` at its end. */
  ghost predicate Alone(s: State, i: nat, tid: Tid) {
    && Inv(s) && !s.panicked && s.phase != Terminating && s.generation < GENERATION_MAX
    && s.members == {tid} && s.leader == Some(tid) && !s.exiting
    && forall j :: 0 <= j < |s.attempts| && j != i ==> Finished(s.attempts[j].pc)
  }

  predicate OnTrack(s: State, i: nat, tid: Tid) {
    && i < |s.attempts|
    && var a := s.attempts[i];
       && !a.native && a.linux && a.tid == tid && a.observed == s.generation
       && !a.pc.Failing? && !a.pc.Failed? && !a.pc.Diverging? && !a.pc.Succeeded?
       && (a.pc.Requesting? || a.pc.Waiting? ==> a.pc.siblings == {} && a.pc.oldLeader == None)
  }

  /** Nobody else holds the lock or has published. */
  lemma {:induction false} NobodyElse(s: State, i: nat, tid: Tid)
    requires Alone(s, i, tid)
    ensures s.owner == None || s.owner == Some(i)
    ensures s.publisher == None || s.publisher == Some(i)
  {
    forall j | 0 <= j < |s.attempts| && j != i
      ensures s.owner != Some(j) && s.publisher != Some(j)
    {
      assert Fits(s, j);
    }
  }

  /** What such a commit finds when it takes its next step. */
  ghost predicate Clear(s: State, i: nat, tid: Tid) {
    && OnTrack(s, i, tid) && !s.panicked && s.generation < GENERATION_MAX
    && s.members == {tid} && s.leader == Some(tid) && !s.exiting
    && var pc := s.attempts[i].pc;
       && (NeedsLock(pc) ==> s.owner == None) && s.phase == (if Published(pc) then Transitioning else Running)
       && (pc.Leasing? ==> pc.stage <= 6) && (pc.Installing? ==> pc.n < INSTALL_COUNT)
       && !pc.NativeChecking? && !pc.NativeInstalling?
  }

  lemma {:induction false} AloneIsClear(s: State, i: nat, tid: Tid)
    requires Alone(s, i, tid) && OnTrack(s, i, tid)
    ensures Clear(s, i, tid)
  {
    NobodyElse(s, i, tid);
    assert Fits(s, i);
  }

  predicate Early(pc: Pc) {
    pc.Entry? || pc.Checking? || pc.Requesting? || pc.Waiting? || pc.Relocking? || pc.Rechecking?
  }

  /** The step leads on, or to success. */
  predicate Onward(s: State, t: State, i: nat, tid: Tid)
    requires i < |s.attempts|
  {
    && i < |t.attempts| && Rank(t.attempts[i].pc) == Rank(s.attempts[i].pc) - 1
    && (if t.attempts[i].pc.Succeeded? then t.generation == s.generation + 1 && t.phase == Running
        else OnTrack(t, i, tid) && t.phase != Terminating && t.generation == s.generation)
    && t.members == s.members && t.leader == s.leader && !t.exiting && !t.panicked
    && t.attempts == s.attempts[i := t.attempts[i]]
  }

  lemma {:induction false} EarlyStep(s: State, i: nat, tid: Tid)
    requires Clear(s, i, tid) && Early(s.attempts[i].pc)
    ensures Enabled(s, i, Pass) && Onward(s, Act(s, i, Pass), i, tid)
  {
    assert s.members - {tid} == {};
  }

  lemma {:induction false} LeaseAlone(s: State, i: nat, tid: Tid)
    requires Clear(s, i, tid) && s.attempts[i].pc.Leasing?
    ensures Enabled(s, i, Pass) && Onward(s, Act(s, i, Pass), i, tid)
  {
    var d, stage := s.attempts[i].pc.dethreaded, s.attempts[i].pc.stage;
    var held := Granted(s, i, d, stage);
    TookOnward(s, Took(s, i, AfterLease(d, stage), held), i, tid, AfterLease(d, stage), held);
  }

  lemma {:induction false} TookOnward(s: State, t: State, i: nat, tid: Tid, pc: Pc, held: Leases)
    requires Clear(s, i, tid) && t == Took(s, i, pc, held) && (pc.Leasing? || pc.Installing?)
    requires Published(s.attempts[i].pc) && Rank(pc) == Rank(s.attempts[i].pc) - 1
    ensures Onward(s, t, i, tid)
  {
  }

  lemma {:induction false} InstallAlone(s: State, i: nat, tid: Tid)
    requires Clear(s, i, tid) && (s.attempts[i].pc.Installing? || s.attempts[i].pc.Finishing?)
    ensures Enabled(s, i, Pass) && Onward(s, Act(s, i, Pass), i, tid)
  {
  }

  lemma {:induction false} StepAlone(s: State, i: nat, tid: Tid) returns (t: State)
    requires Alone(s, i, tid) && OnTrack(s, i, tid)
    ensures Enabled(s, i, Pass) && t == Act(s, i, Pass) && Inv(t) && Onward(s, t, i, tid)
  {
    AloneIsClear(s, i, tid);
    if Early(s.attempts[i].pc) {
      EarlyStep(s, i, tid);
    } else if s.attempts[i].pc.Leasing? {
      LeaseAlone(s, i, tid);
    } else {
      InstallAlone(s, i, tid);
    }
    t := Act(s, i, Pass);
    StepInv(s, i, Pass);
  }

  lemma {:induction false} StaysAlone(s: State, t: State, i: nat, tid: Tid)
    requires Alone(s, i, tid) && i < |s.attempts| && Inv(t) && !t.panicked && t.phase != Terminating
    requires t.generation < GENERATION_MAX && i < |t.attempts| && t.attempts == s.attempts[i := t.attempts[i]]
    requires t.members == s.members && t.leader == s.leader && !t.exiting
    ensures Alone(t, i, tid)
  {
    forall j | 0 <= j < |t.attempts| && j != i
      ensures Finished(t.attempts[j].pc)
    {
      assert Finished(s.attempts[j].pc);
    }
  }

  function Passes(i: nat, n: nat): (es: seq<Event>)
    ensures |es| == n
  {
    if n == 0 then [] else [Step(i, Pass)] + Passes(i, n - 1)
  }

  /** Left alone, with nothing refused, a commit takes all its steps and succeeds. */
  lemma {:induction false} RunAlone(s: State, i: nat, tid: Tid) returns (t: State)
    requires Alone(s, i, tid) && OnTrack(s, i, tid)
    ensures PossibleRun(s, Passes(i, Rank(s.attempts[i].pc))) && t == EndOf(s, Passes(i, Rank(s.attempts[i].pc)))
    ensures Inv(t) && !t.panicked && i < |t.attempts| && t.attempts[i].pc.Succeeded?
    ensures t.generation == s.generation + 1 && t.phase == Running
    ensures t.members == s.members && t.leader == s.leader && !t.exiting && t.attempts == s.attempts[i := t.attempts[i]]
    decreases Rank(s.attempts[i].pc)
  {
    var next := StepAlone(s, i, tid);
    var n := Rank(next.attempts[i].pc);
    if next.attempts[i].pc.Succeeded? {
      t := next;
    } else {
      StaysAlone(s, next, i, tid);
      t := RunAlone(next, i, tid);
    }
    RunCons(s, Step(i, Pass), next, Passes(i, n));
  }

  /** A group with one thread and no commit under way, prepared for one more commit. */
  ghost predicate Idle(s: State, tid: Tid) {
    Alone(s, |s.attempts|, tid) && s.phase == Running
  }

  /** From there a commit prepared now takes exactly twenty-four steps, succeeds, and leaves the group idle again. */
  lemma {:induction false} CommitAlone(s: State, tid: Tid, a: Attempt) returns (t: State)
    requires Idle(s, tid) && Fresh(a) && !a.native && a.linux && a.tid == tid && a.observed == s.generation
    ensures var es := [Begin(a)] + Passes(|s.attempts|, MOST_STEPS);
      PossibleRun(s, es) && t == EndOf(s, es)
    ensures |t.attempts| == |s.attempts| + 1 && t.attempts[..|s.attempts|] == s.attempts
    ensures t.attempts[|s.attempts|].pc.Succeeded? && t.generation == s.generation + 1
    ensures t.generation < GENERATION_MAX ==> Idle(t, tid)
  {
    var i := |s.attempts|;
    var b := After(s, Begin(a));
    BeginInv(s, a);
    assert Alone(b, i, tid);
    t := RunAlone(b, i, tid);
    RunCons(s, Begin(a), b, Passes(i, MOST_STEPS));
    if t.generation < GENERATION_MAX {
      IdleAgain(s, t, tid);
    }
  }

  lemma {:induction false} IdleAgain(s: State, t: State, tid: Tid)
    requires Idle(s, tid) && Inv(t) && !t.panicked && t.phase == Running && t.generation < GENERATION_MAX
    requires t.members == s.members && t.leader == s.leader && !t.exiting
    requires |t.attempts| == |s.attempts| + 1 && t.attempts[..|s.attempts|] == s.attempts
    requires t.attempts[|s.attempts|].pc.Succeeded?
    ensures Idle(t, tid)
  {
    forall j | 0 <= j < |t.attempts|
      ensures Finished(t.attempts[j].pc)
    {
      assert j < |s.attempts| ==> t.attempts[j] == s.attempts[j];
    }
  }

  /** Successful runs exist from every first state of a single thread, twice in a row. */
  lemma {:induction false} TwoCommits(s: State, tid: Tid, a: Attempt, b: Attempt) returns (t: State, u: State)
    requires Initial(s) && s.members == {tid} && s.leader == Some(tid) && !s.exiting && s.generation + 1 < GENERATION_MAX
    requires Fresh(a) && !a.native && a.linux && a.tid == tid && a.observed == s.generation
    requires Fresh(b) && !b.native && b.linux && b.tid == tid && b.observed == s.generation + 1
    ensures PossibleRun(s, [Begin(a)] + Passes(0, MOST_STEPS)) && t == EndOf(s, [Begin(a)] + Passes(0, MOST_STEPS))
    ensures PossibleRun(t, [Begin(b)] + Passes(1, MOST_STEPS)) && u == EndOf(t, [Begin(b)] + Passes(1, MOST_STEPS))
    ensures |u.attempts| == 2 && u.attempts[0].pc.Succeeded? && u.attempts[1].pc.Succeeded?
  {
    InitialInv(s);
    t := CommitAlone(s, tid, a);
    u := CommitAlone(t, tid, b);
    assert u.attempts[0] == t.attempts[0];
  }
}
