/** Whole runs of the commit protocol: any interleaving of any number of commits and kernel events. */
module ExecRuns {
  import opened Outcomes
  import opened ExecProtocol
  import opened ExecSafety
  import opened ExecSteps

  predicate PossibleRun(s: State, es: seq<Event>)
    decreases |es|
  {
    |es| == 0 || (Possible(s, es[0]) && PossibleRun(After(s, es[0]), es[1..]))
  }

  function EndOf(s: State, es: seq<Event>): State
    requires PossibleRun(s, es)
    decreases |es|
  {
    if |es| == 0 then s else EndOf(After(s, es[0]), es[1..])
  }

  lemma {:induction false} RunCons(s: State, e: Event, t: State, rest: seq<Event>)
    requires Possible(s, e) && t == After(s, e) && PossibleRun(t, rest)
    ensures PossibleRun(s, [e] + rest) && EndOf(s, [e] + rest) == EndOf(t, rest)
  {
    assert ([e] + rest)[1..] == rest;
  }

  /** A group before its first commit. */
  predicate Initial(s: State) {
    s.phase == Running && s.owner == None && s.publisher == None && s.attempts == [] && !s.panicked
    && s.generation <= GENERATION_MAX
  }

  lemma {:induction false} SuccessesPut(attempts: seq<Attempt>, i: nat, a: Attempt)
    requires i < |attempts|
    ensures Successes(attempts[i := a]) + (if attempts[i].pc.Succeeded? then 1 else 0)
         == Successes(attempts) + (if a.pc.Succeeded? then 1 else 0)
  {
    var n := |attempts| - 1;
    if i < n {
      SuccessesPut(attempts[..n], i, a);
      assert attempts[i := a][..n] == attempts[..n][i := a];
    } else {
      assert attempts[i := a][..n] == attempts[..n];
    }
  }

  /** Every step keeps the invariant, and each success raises the generation by exactly one. */
  lemma {:induction false} StepInv(s: State, i: nat, c: Choice)
    requires Inv(s) && Enabled(s, i, c)
    ensures var t := Act(s, i, c);
      t.panicked || (Inv(t) && t.generation - s.generation == Successes(t.attempts) - Successes(s.attempts))
  {
    var t := Act(s, i, c);
    StepKept(s, i, c);
    if !t.panicked {
      KeptInv(s, t, i);
    }
  }

  lemma {:induction false} KeptInv(s: State, t: State, i: nat)
    requires Inv(s) && i < |s.attempts| && Kept(s, t, i)
    ensures Inv(t) && t.generation - s.generation == Successes(t.attempts) - Successes(s.attempts)
  {
    KeptAll(s, t, i);
    SuccessesPut(s.attempts, i, t.attempts[i]);
    assert t.attempts == s.attempts[i := t.attempts[i]];
    assert Fits(s, i);
  }

  lemma {:induction false} KeptAll(s: State, t: State, i: nat)
    requires Inv(s) && i < |s.attempts| && Kept(s, t, i)
    ensures AllFit(t) && Serial(t)
  {
    forall j | 0 <= j < |t.attempts|
      ensures Fits(t, j)
    {
      if j != i {
        OthersFit(s, t, i, j);
      }
    }
    forall j, k | 0 <= j < k < |t.attempts|
      ensures Apart(t.attempts[j], t.attempts[k])
    {
      StillApart(s, t, i, j, k);
    }
  }

  lemma {:induction false} StillApart(s: State, t: State, i: nat, j: nat, k: nat)
    requires Inv(s) && i < |s.attempts| && Kept(s, t, i) && j < k < |s.attempts|
    ensures Apart(t.attempts[j], t.attempts[k])
  {
    assert Fits(s, j) && Fits(s, k);
    assert Apart(s.attempts[j], s.attempts[k]);
  }

  lemma {:induction false} BeginInv(s: State, a: Attempt)
    requires Inv(s) && Fresh(a) && !s.panicked
    ensures var t := After(s, Begin(a));
      Inv(t) && t.generation == s.generation && Successes(t.attempts) == Successes(s.attempts)
  {
    var t := After(s, Begin(a));
    forall j | 0 <= j < |t.attempts|
      ensures Fits(t, j)
    {
      assert j < |s.attempts| ==> Fits(s, j);
    }
    forall j, k | 0 <= j < k < |t.attempts|
      ensures Apart(t.attempts[j], t.attempts[k])
    {
      assert k < |s.attempts| ==> Apart(s.attempts[j], s.attempts[k]);
    }
    assert t.attempts[..|s.attempts|] == s.attempts;
  }

  lemma {:induction false} WorldInv(s: State, e: Event)
    requires Inv(s) && Possible(s, e) && !e.Begin? && !e.Step?
    ensures var t := After(s, e);
      Inv(t) && t.generation == s.generation && t.attempts == s.attempts && t.phase == s.phase && !t.panicked
  {
    var t := After(s, e);
    forall j | 0 <= j < |t.attempts|
      ensures Fits(t, j)
    {
      assert Fits(s, j);
    }
    forall j, k | 0 <= j < k < |t.attempts|
      ensures Apart(t.attempts[j], t.attempts[k])
    {
      assert Apart(s.attempts[j], s.attempts[k]);
    }
  }

  lemma {:induction false} EventInv(s: State, e: Event)
    requires Inv(s) && Possible(s, e)
    ensures var t := After(s, e);
      t.panicked || (Inv(t) && t.generation - s.generation == Successes(t.attempts) - Successes(s.attempts))
  {
    match e {
      case Begin(a) => BeginInv(s, a);
      case Step(i, c) => StepInv(s, i, c);
      case _ => WorldInv(s, e);
    }
  }

  /** The invariant holds after every run; the generation counts the commits that went through. */
  lemma {:induction false} RunInv(s: State, es: seq<Event>)
    requires Inv(s) && PossibleRun(s, es)
    ensures var t := EndOf(s, es);
      t.panicked || (Inv(t) && t.generation - s.generation == Successes(t.attempts) - Successes(s.attempts))
    decreases |es|
  {
    if |es| > 0 {
      EventInv(s, es[0]);
      var t := After(s, es[0]);
      if t.panicked {
        assert |es[1..]| > 0 ==> !Possible(t, es[1..][0]);
      } else {
        RunInv(t, es[1..]);
      }
    }
  }

  lemma {:induction false} InitialInv(s: State)
    requires Initial(s)
    ensures Inv(s) && Successes(s.attempts) == 0
  {
  }

  // ---------------------------------------------------------------------------
  // How commits end
  // ---------------------------------------------------------------------------

  /** Everything a finished commit can have left behind. */
  ghost predicate Outcome(t: State, a: Attempt) {
    match a.pc
    case Failed(_) => a.done == [] && a.killed == {}
    case Succeeded =>
      && a.done == (if a.native then NATIVE_STEPS else INSTALL_ORDER)
      && a.base < t.generation && (!a.native ==> a.base == a.observed)
      && a.tid in a.crew && a.killed == a.crew - {a.tid} && a.killed <= t.dead
    case Diverging(_) => t.phase == Terminating && a.killed == a.crew - {a.tid}
    case _ => false
  }

  /** A state some run of commits and kernel events leads to. */
  ghost predicate Reachable(t: State) {
    exists s, es :: Initial(s) && PossibleRun(s, es) && EndOf(s, es) == t
  }

  lemma {:induction false} ReachableInv(t: State)
    requires Reachable(t) && !t.panicked
    ensures Inv(t)
  {
    var s, es :| Initial(s) && PossibleRun(s, es) && EndOf(s, es) == t;
    InitialInv(s);
    RunInv(s, es);
  }

  /** A commit ends in exactly one of three ways, and holds nothing when it does. */
  lemma {:induction false} ThreeOutcomes(t: State, i: nat)
    requires Reachable(t) && !t.panicked && i < |t.attempts| && Finished(t.attempts[i].pc)
    ensures Outcome(t, t.attempts[i]) && t.attempts[i].held == NO_LEASE && t.owner != Some(i)
  {
    ReachableInv(t);
    InstallOrder();
    assert Fits(t, i);
  }

  /** Once every commit has ended, the phase is not Transitioning and the lock is free. */
  lemma {:induction false} NeverStuck(t: State)
    requires Reachable(t) && !t.panicked
    requires forall i :: 0 <= i < |t.attempts| ==> Finished(t.attempts[i].pc)
    ensures t.phase != Transitioning && t.owner == None
  {
    ReachableInv(t);
    forall i | 0 <= i < |t.attempts|
      ensures t.publisher != Some(i) && t.owner != Some(i)
    {
      assert Fits(t, i);
    }
  }

  /** Of the commits prepared against one generation at most one goes through. */
  lemma {:induction false} OnePerGeneration(t: State, i: nat, j: nat)
    requires Reachable(t) && !t.panicked && i < j < |t.attempts|
    requires t.attempts[i].pc.Succeeded? && t.attempts[j].pc.Succeeded?
    requires !t.attempts[i].native && !t.attempts[j].native
    ensures t.attempts[i].observed != t.attempts[j].observed
  {
    ReachableInv(t);
    assert Fits(t, i) && Fits(t, j) && Apart(t.attempts[i], t.attempts[j]);
  }

  /** The generation rises by exactly the number of commits that went through. */
  lemma {:induction false} GenerationCounts(s: State, es: seq<Event>)
    requires Initial(s) && PossibleRun(s, es) && !EndOf(s, es).panicked
    ensures EndOf(s, es).generation == s.generation + Successes(EndOf(s, es).attempts)
  {
    InitialInv(s);
    RunInv(s, es);
  }

  /** Neither the exec lock nor any lease is held while siblings are awaited or at a call that never returns. */
  lemma {:induction false} NothingHeld(t: State, i: nat)
    requires Reachable(t) && !t.panicked && i < |t.attempts|
    requires var pc := t.attempts[i].pc; pc.Requesting? || pc.Waiting? || pc.Diverging?
    ensures t.attempts[i].held == NO_LEASE && t.owner != Some(i)
  {
    ReachableInv(t);
    assert Fits(t, i);
  }

  /** While one commit is between publication and its end, no other is, and nobody joins the group. */
  lemma {:induction false} Exclusive(t: State, i: nat, j: nat)
    requires Reachable(t) && !t.panicked && i < |t.attempts| && j < |t.attempts| && i != j
    requires Published(t.attempts[i].pc)
    ensures !Published(t.attempts[j].pc) && t.members <= t.attempts[i].crew
  {
    ReachableInv(t);
    assert Fits(t, i) && Fits(t, j);
  }

  // ---------------------------------------------------------------------------
  // Which threads have to go, and who leads the group
  // ---------------------------------------------------------------------------

  /** From the wait on, a commit has told exactly the other threads publication found to exit;
      past the wait they are all gone. */
  lemma {:induction false} DethreadsAll(t: State, i: nat)
    requires Reachable(t) && !t.panicked && i < |t.attempts|
    requires var pc := t.attempts[i].pc;
      pc.Succeeded? || pc.Diverging? || (Published(pc) && !pc.Requesting?)
    ensures var a := t.attempts[i];
      && a.tid in a.crew && a.killed == a.crew - {a.tid}
      && (!a.pc.Waiting? && !a.pc.Failing? && !a.pc.Diverging? ==> a.killed <= t.dead)
  {
    ReachableInv(t);
    assert Fits(t, i);
  }

  /** A commit between Linux images that has waited for its siblings leads the group until it ends. */
  lemma {:induction false} LeadsAfterWait(t: State, i: nat)
    requires Reachable(t) && !t.panicked && i < |t.attempts| && !t.attempts[i].native && t.attempts[i].linux
    requires var pc := t.attempts[i].pc; pc.Relocking? || pc.Rechecking? || pc.Leasing? || pc.Installing? || pc.Finishing?
    ensures t.leader == Some(t.attempts[i].tid)
  {
    ReachableInv(t);
    assert Fits(t, i);
  }

  // ---------------------------------------------------------------------------
  // What the last step of a commit does
  // ---------------------------------------------------------------------------

  lemma {:induction false} InstalledAt(
    slots: Slots, tid: Tid, prepared: map<InstallStep, nat>, steps: seq<InstallStep>, key: (Tid, InstallStep))
    ensures var out := AllInstalled(slots, tid, prepared, steps);
      if key.0 == tid && key.1 in steps && key.1 in prepared
      then key in out && out[key] == prepared[key.1]
      else (key in out <==> key in slots) && (key in slots ==> out[key] == slots[key])
  {
    if |steps| > 0 {
      InstalledAt(slots, tid, prepared, steps[..|steps| - 1], key);
      assert key.1 in steps <==> key.1 in steps[..|steps| - 1] || key.1 == steps[|steps| - 1];
    }
  }

  /** Success publishes one new generation with every prepared part in place, no old thread left
      and, between Linux images, the thread that ran the commit as the leader. */
  lemma {:induction false} SuccessEffect(s: State, i: nat, c: Choice)
    requires Inv(s) && Enabled(s, i, c)
    requires !Act(s, i, c).panicked && i < |Act(s, i, c).attempts| && Act(s, i, c).attempts[i].pc.Succeeded?
    ensures Won(s, Act(s, i, c), i)
  {
    StepKept(s, i, c);
  }

  /** A commit that returns an error has changed nothing: not the generation, no part, no thread. */
  lemma {:induction false} FailureEffect(s: State, i: nat, c: Choice)
    requires Inv(s) && Enabled(s, i, c)
    requires !Act(s, i, c).panicked && i < |Act(s, i, c).attempts| && Act(s, i, c).attempts[i].pc.Failed?
    ensures Lost(s, Act(s, i, c), i)
    ensures Act(s, i, c).members == s.members && Act(s, i, c).dead == s.dead
  {
    StepKept(s, i, c);
  }

  /** Only a commit that has told threads to exit takes over the identity of the old leader. */
  lemma {:induction false} LeaderChanges(s: State, i: nat, c: Choice)
    requires Inv(s) && Enabled(s, i, c) && !Act(s, i, c).panicked && Act(s, i, c).leader != s.leader
    ensures s.attempts[i].killed != {}
  {
    StepKept(s, i, c);
    assert Fits(s, i);
  }

  /** The kernel stops exactly where a commit would pass the last generation. */
  lemma {:induction false} PanicOnlyAtTheEnd(s: State, i: nat, c: Choice)
    requires Inv(s) && Enabled(s, i, c)
    ensures Act(s, i, c).panicked <==>
      s.generation == GENERATION_MAX && c.Pass? && (s.attempts[i].pc.Finishing? || s.attempts[i].pc.NativeInstalling?)
  {
    StepKept(s, i, c);
  }

  /** A condemned group stays condemned: no later commit goes through. */
  lemma {:induction false} CondemnedForGood(s: State, es: seq<Event>)
    requires Inv(s) && s.phase == Terminating && !s.panicked && PossibleRun(s, es)
    ensures var t := EndOf(s, es);
      !t.panicked && t.phase == Terminating && t.generation == s.generation && t.slots == s.slots
    decreases |es|
  {
    if |es| > 0 {
      EventInv(s, es[0]);
      match es[0] {
        case Begin(_) =>
        case Step(i, c) =>
          StepKept(s, i, c);
          assert Fits(s, i);
        case _ => WorldInv(s, es[0]);
      }
      CondemnedForGood(After(s, es[0]), es[1..]);
    }
  }

  // ---------------------------------------------------------------------------
  // Progress
  // ---------------------------------------------------------------------------

  /** Every step of a commit brings it closer to its end. */
  lemma {:induction false} RankFalls(s: State, i: nat, c: Choice)
    requires Inv(s) && Enabled(s, i, c) && !Act(s, i, c).panicked
    ensures i < |Act(s, i, c).attempts| && Rank(Act(s, i, c).attempts[i].pc) < Rank(s.attempts[i].pc)
  {
    StepKept(s, i, c);
  }

  /** Unless every commit has ended, some commit can move, or one waits for a sibling that still lives. */
  lemma {:induction false} NoDeadlock(s: State, i: nat) returns (k: nat)
    requires Inv(s) && !s.panicked && i < |s.attempts| && !Finished(s.attempts[i].pc)
    ensures k < |s.attempts|
    ensures Enabled(s, k, Pass)
      || (s.attempts[k].pc.Waiting? && (!(s.attempts[k].pc.siblings <= s.dead) || Stray(s, s.attempts[k])))
  {
    k := if s.owner.Some? then s.owner.value else i;
    assert Fits(s, k);
  }

  /** Taking over from the old leader is refused: not just the two of them are left. */
  predicate Stray(s: State, a: Attempt)
    requires a.pc.Waiting?
  {
    a.pc.oldLeader.Some? && s.members != {a.tid, a.pc.oldLeader.value}
  }
}
