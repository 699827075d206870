/** The operations of a commit that run entirely under the exec lock, on the state that lock protects. */
module ExecGuard {
  import opened Outcomes
  import opened ExecProtocol
  import opened ExecSafety
  import opened ExecSteps
  import opened ExecRuns

  class Guard {
    var phase: Phase
    var generation: nat
    var installed: seq<InstallStep>

    constructor (generation: nat)
      ensures phase == Running && this.generation == generation && installed == []
    {
      phase, this.generation, installed := Running, generation, [];
    }

    /** Decides, without changing anything, whether a commit prepared at `observed` may still go ahead. */
    method RevalidateBeforePonr(observed: nat, resources: Choice) returns (error: Option<Errno>)
      ensures error == None <==> phase == Running && generation == observed && resources.Pass?
      ensures phase != Running ==> error == Some(EBUSY)
      ensures phase == Running && generation != observed ==> error == Some(EAGAIN)
    {
      if phase != Running {
        return Some(EBUSY);
      }
      if generation != observed {
        return Some(EAGAIN);
      }
      return if resources.Pass? then None else Some(resources.error);
    }

    /** Runs the install steps in order; the first failure condemns the group and nothing after it runs. */
    method DriveInstallSteps(outcome: InstallStep -> Choice) returns (error: Option<Errno>, n: nat)
      modifies this
      ensures generation == old(generation) && n <= INSTALL_COUNT
      ensures installed == old(installed) + InstallSteps(n)
      ensures forall k :: 0 <= k < n ==> outcome(InstallStepAt(k)).Pass?
      ensures if n == INSTALL_COUNT
        then error == None && phase == old(phase)
        else error.Some? && outcome(InstallStepAt(n)) == Fail(error.value) && phase == Terminating
    {
      n := 0;
      assert old(installed) + InstallSteps(0) == old(installed);
      while n < INSTALL_COUNT
        invariant n <= INSTALL_COUNT && installed == old(installed) + InstallSteps(n)
        invariant phase == old(phase) && generation == old(generation)
        invariant forall k :: 0 <= k < n ==> outcome(InstallStepAt(k)).Pass?
      {
        var step := InstallStepAt(n);
        if outcome(step).Fail? {
          phase := Terminating;
          error := Some(outcome(step).error);
          return;
        }
        installed := installed + [step];
        n := n + 1;
      }
      error := None;
    }

    /**
      * Publishes the next generation, or condemns the group when the hand-offs were not applied. Past the
      * last generation the kernel stops, with nothing changed.
      */
    method FinishExecCommit(handoffs: bool) returns (error: Option<Errno>, stopped: bool)
      requires generation <= GENERATION_MAX
      modifies this`phase, this`generation
      ensures stopped <==> handoffs && old(generation) == GENERATION_MAX
      ensures error == if handoffs then None else Some(ENOMEM)
      ensures !handoffs ==> phase == Terminating && generation == old(generation)
      ensures stopped ==> phase == old(phase) && generation == old(generation)
      ensures handoffs && !stopped ==> phase == Running && generation == old(generation) + 1
    {
      if !handoffs {
        phase := Terminating;
        return Some(ENOMEM), false;
      }
      if generation == GENERATION_MAX {
        return None, true;
      }
      generation := generation + 1;
      phase := Running;
      return None, false;
    }
  }

  /** The events of an installing attempt from step `n` up to, not including, step `m`. */
  function InstallEvents(i: nat, n: nat, m: nat, outcome: InstallStep -> Choice): (es: seq<Event>)
    requires n <= m
    decreases m - n
  {
    if n == m then [] else [Step(i, outcome(InstallStepAt(n)))] + InstallEvents(i, n + 1, m, outcome)
  }

  /** Where an attempt is once its first `m` install steps have been taken. */
  function PcAt(m: nat): Pc {
    if m < INSTALL_COUNT then Installing(m) else Finishing
  }

  lemma {:induction false} InstallPasses(s: State, i: nat, n: nat, c: Choice) returns (t: State)
    requires Inv(s) && !s.panicked && i < |s.attempts| && s.attempts[i].pc == Installing(n) && n < INSTALL_COUNT && c.Pass?
    ensures Possible(s, Step(i, c)) && t == After(s, Step(i, c))
    ensures Inv(t) && !t.panicked && i < |t.attempts| && t.attempts[i].pc == PcAt(n + 1)
    ensures t.phase == s.phase && t.generation == s.generation
  {
    t := After(s, Step(i, c));
    EventInv(s, Step(i, c));
  }

  lemma {:induction false} InstallFails(s: State, i: nat, n: nat, c: Choice) returns (t: State)
    requires Inv(s) && !s.panicked && i < |s.attempts| && s.attempts[i].pc == Installing(n) && n < INSTALL_COUNT
    requires c.Fail? && CanFail(InstallStepAt(n))
    ensures Possible(s, Step(i, c)) && t == After(s, Step(i, c))
    ensures Inv(t) && !t.panicked && i < |t.attempts| && t.attempts[i].pc == Diverging(c.error)
    ensures t.phase == Terminating && t.generation == s.generation && t.attempts[i].done == InstallSteps(n)
  {
    t := After(s, Step(i, c));
    assert Fits(s, i);
    EventInv(s, Step(i, c));
  }

  /** The steps that are never refused. */
  ghost predicate Plausible(outcome: InstallStep -> Choice) {
    forall step :: !CanFail(step) ==> outcome(step).Pass?
  }

  /** Taking the steps one after the other is a run; its end is after the last step or at the first failure. */
  lemma {:induction false} InstallRun(s: State, i: nat, n: nat, m: nat, outcome: InstallStep -> Choice) returns (t: State)
    requires Inv(s) && !s.panicked && i < |s.attempts| && s.attempts[i].pc == PcAt(n) && n <= m <= INSTALL_COUNT
    requires Plausible(outcome) && forall k :: n <= k < m ==> outcome(InstallStepAt(k)).Pass?
    requires m < INSTALL_COUNT ==> outcome(InstallStepAt(m)).Fail?
    ensures var es := InstallEvents(i, n, if m < INSTALL_COUNT then m + 1 else m, outcome);
      PossibleRun(s, es) && t == EndOf(s, es)
    ensures Inv(t) && !t.panicked && i < |t.attempts| && t.generation == s.generation && t.attempts[i].done == InstallSteps(m)
    ensures if m == INSTALL_COUNT then t.attempts[i].pc == Finishing && t.phase == s.phase
            else t.attempts[i].pc == Diverging(outcome(InstallStepAt(m)).error) && t.phase == Terminating
    decreases m - n
  {
    var end := if m < INSTALL_COUNT then m + 1 else m;
    if n == INSTALL_COUNT {
      t := s;
      assert Fits(s, i);
    } else if n == m {
      var c := outcome(InstallStepAt(n));
      t := InstallFails(s, i, n, c);
      RunCons(s, Step(i, c), t, InstallEvents(i, n + 1, end, outcome));
    } else {
      var c := outcome(InstallStepAt(n));
      var next := InstallPasses(s, i, n, c);
      t := InstallRun(next, i, n + 1, m, outcome);
      RunCons(s, Step(i, c), next, InstallEvents(i, n + 1, end, outcome));
    }
  }

  /**
    * The loop under the lock is a run of the protocol: driven on the state the lock protects, it ends with
    * the phase, generation and replaced parts of the state that run ends in, failure included.
    */
  method DriveRefines(g: Guard, outcome: InstallStep -> Choice, ghost s: State, ghost i: nat)
    returns (error: Option<Errno>, ghost es: seq<Event>)
    requires Inv(s) && !s.panicked && i < |s.attempts| && s.attempts[i].pc == Installing(0) && Plausible(outcome)
    requires g.phase == s.phase && g.generation == s.generation && g.installed == []
    modifies g
    ensures PossibleRun(s, es)
    ensures var t := EndOf(s, es);
      && i < |t.attempts| && g.phase == t.phase && g.generation == t.generation && g.installed == t.attempts[i].done
      && (if error.None? then t.attempts[i].pc == Finishing else t.attempts[i].pc == Diverging(error.value))
  {
    var n;
    error, n := g.DriveInstallSteps(outcome);
    ghost var t := InstallRun(s, i, 0, n, outcome);
    es := InstallEvents(i, 0, if n < INSTALL_COUNT then n + 1 else n, outcome);
  }
}
