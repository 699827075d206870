/** Commits of a thread in a group of many: once the other threads have exited, the commit goes through. */
module ExecDethread {
  import opened Outcomes
  import opened ExecProtocol
  import opened ExecSafety
  import opened ExecSteps
  import opened ExecRuns
  import opened ExecProgress

  lemma {:induction false} RunJoin(s: State, es: seq<Event>, mid: State, rest: seq<Event>)
    requires PossibleRun(s, es) && EndOf(s, es) == mid && PossibleRun(mid, rest)
    ensures PossibleRun(s, es + rest) && EndOf(s, es + rest) == EndOf(mid, rest)
    decreases |es|
  {
    if |es| == 0 {
      assert es + rest == rest;
    } else {
      RunJoin(After(s, es[0]), es[1..], mid, rest);
      assert (es + rest)[1..] == es[1..] + rest;
    }
  }

  function Deaths(xs: seq<Tid>): seq<Event> {
    if |xs| == 0 then [] else [Die(xs[0])] + Deaths(xs[1..])
  }

  function Departures(xs: seq<Tid>): seq<Event> {
    if |xs| == 0 then [] else [Leave(xs[0])] + Departures(xs[1..])
  }

  function Threads(xs: seq<Tid>): set<Tid> {
    set x | x in xs
  }

  lemma {:induction false} DeathsRun(s: State, xs: seq<Tid>)
    requires !s.panicked
    ensures PossibleRun(s, Deaths(xs)) && EndOf(s, Deaths(xs)) == s.(dead := s.dead + Threads(xs))
    decreases |xs|
  {
    if |xs| == 0 {
      assert s.dead + Threads(xs) == s.dead;
    } else {
      var t := s.(dead := s.dead + {xs[0]});
      DeathsRun(t, xs[1..]);
      RunCons(s, Die(xs[0]), t, Deaths(xs[1..]));
      assert Threads(xs) == {xs[0]} + Threads(xs[1..]);
      assert t.dead + Threads(xs[1..]) == s.dead + Threads(xs);
    }
  }

  lemma {:induction false} DeparturesRun(s: State, xs: seq<Tid>)
    requires !s.panicked
    ensures PossibleRun(s, Departures(xs)) && EndOf(s, Departures(xs)) == s.(members := s.members - Threads(xs))
    decreases |xs|
  {
    if |xs| == 0 {
      assert s.members - Threads(xs) == s.members;
    } else {
      var t := s.(members := s.members - {xs[0]});
      DeparturesRun(t, xs[1..]);
      RunCons(s, Leave(xs[0]), t, Departures(xs[1..]));
      assert Threads(xs) == {xs[0]} + Threads(xs[1..]);
      assert t.members - Threads(xs[1..]) == s.members - Threads(xs);
    }
  }

  /** A running group with a leader, no commit under way and room for one more generation. */
  ghost predicate Quiet(s: State, tid: Tid) {
    && Inv(s) && !s.panicked && s.phase == Running && s.generation < GENERATION_MAX && !s.exiting
    && tid in s.members && s.leader.Some? && s.leader.value in s.members
    && forall j :: 0 <= j < |s.attempts| ==> Finished(s.attempts[j].pc)
  }

  predicate Ready(s: State, a: Attempt, tid: Tid) {
    Fresh(a) && !a.native && a.linux && a.tid == tid && a.observed == s.generation
  }

  lemma {:induction false} QuietFree(s: State, tid: Tid)
    requires Quiet(s, tid)
    ensures s.owner == None && s.publisher == None
  {
    forall j | 0 <= j < |s.attempts|
      ensures s.owner != Some(j) && s.publisher != Some(j)
    {
      assert Fits(s, j);
    }
  }

  /** The commit has told the other threads to exit and waits for them. */
  ghost predicate Awaits(s: State, t: State, i: nat, a: Attempt) {
    && Inv(t) && !t.panicked && i == |s.attempts| && |t.attempts| == i + 1 && t.attempts[..i] == s.attempts
    && t.members == s.members && t.leader == s.leader && t.dead == s.dead && !t.exiting && t.generation == s.generation
    && t.phase == Transitioning && t.owner == None && SameCall(a, t.attempts[i])
    && t.attempts[i].pc == Waiting(s.members - {a.tid}, if s.leader == Some(a.tid) then None else s.leader)
  }

  /** From a quiet group the commit gets there in three steps. */
  lemma {:induction false} Asks(s: State, tid: Tid, a: Attempt) returns (t: State)
    requires Quiet(s, tid) && Ready(s, a, tid)
    ensures var es := [Begin(a)] + Passes(|s.attempts|, 3);
      PossibleRun(s, es) && t == EndOf(s, es)
    ensures Awaits(s, t, |s.attempts|, a)
  {
    var i := |s.attempts|;
    QuietFree(s, tid);
    var b := After(s, Begin(a));
    BeginInv(s, a);
    var s1 := Locks(b, i);
    var s2 := Publishes(s1, i);
    t := Tells(s2, i);
    RunCons(s2, Step(i, Pass), t, Passes(i, 0));
    RunCons(s1, Step(i, Pass), s2, Passes(i, 1));
    RunCons(b, Step(i, Pass), s1, Passes(i, 2));
    RunCons(s, Begin(a), b, Passes(i, 3));
  }

  /** The group is as before, and of the commits only `i` has moved. */
  predicate Still(s: State, t: State, i: nat) {
    && t.members == s.members && t.leader == s.leader && t.dead == s.dead && t.exiting == s.exiting
    && t.generation == s.generation && !t.panicked
    && i < |s.attempts| == |t.attempts| && t.attempts == s.attempts[i := t.attempts[i]]
    && SameCall(s.attempts[i], t.attempts[i])
  }

  lemma {:induction false} Locks(s: State, i: nat) returns (t: State)
    requires Inv(s) && !s.panicked && i < |s.attempts| && s.attempts[i].pc.Entry? && !s.attempts[i].native && s.owner == None
    ensures Enabled(s, i, Pass) && t == Act(s, i, Pass) && Inv(t)
    ensures Still(s, t, i) && t.phase == s.phase && t.attempts[i].pc == Checking
  {
    t := Act(s, i, Pass);
    StepInv(s, i, Pass);
  }

  lemma {:induction false} Publishes(s: State, i: nat) returns (t: State)
    requires Inv(s) && !s.panicked && i < |s.attempts| && s.attempts[i].pc.Checking? && Admits(s, s.attempts[i])
    requires s.attempts[i].linux
    ensures Enabled(s, i, Pass) && t == Act(s, i, Pass) && Inv(t)
    ensures Still(s, t, i) && t.phase == Transitioning && t.owner == None
    ensures t.attempts[i].pc ==
      Requesting(s.members - {s.attempts[i].tid}, if s.leader == Some(s.attempts[i].tid) then None else s.leader)
  {
    t := Act(s, i, Pass);
    StepInv(s, i, Pass);
    CheckMeans(s, s.attempts[i], Pass);
    CheckingExact(s, i, Pass, t);
    assert t == Publish(s, i, t.attempts[i].pc, NO_LEASE);
  }

  lemma {:induction false} Tells(s: State, i: nat) returns (t: State)
    requires Inv(s) && !s.panicked && i < |s.attempts| && s.attempts[i].pc.Requesting?
    ensures Enabled(s, i, Pass) && t == Act(s, i, Pass) && Inv(t)
    ensures Still(s, t, i) && t.phase == s.phase && t.owner == s.owner
    ensures t.attempts[i].pc == Waiting(s.attempts[i].pc.siblings, s.attempts[i].pc.oldLeader)
  {
    t := Act(s, i, Pass);
    StepInv(s, i, Pass);
  }

  /** With all siblings dead, and all but the old leader out of the group, the wait ends with the
      thread alone in the group and leading it. */
  lemma {:induction false} TakesOver(s: State, i: nat, tid: Tid) returns (t: State)
    requires Inv(s) && !s.panicked && i < |s.attempts| && s.attempts[i].pc.Waiting? && s.attempts[i].tid == tid
    requires s.attempts[i].linux && !s.attempts[i].native
    requires s.attempts[i].pc.siblings <= s.dead && s.leader.Some? && s.members == {tid, s.leader.value}
    ensures Enabled(s, i, Pass) && t == Act(s, i, Pass) && Inv(t)
    ensures t.members == {tid} && t.leader == Some(tid) && t.attempts[i].pc.Relocking?
    ensures t.phase == s.phase && t.generation == s.generation && t.exiting == s.exiting && !t.panicked
    ensures t.attempts == s.attempts[i := t.attempts[i]] && SameRecord(s.attempts[i], t.attempts[i])
  {
    assert Fits(s, i);
    assert Led(s.leader, s.attempts[i]);
    t := Act(s, i, Pass);
    StepInv(s, i, Pass);
    assert {tid, s.leader.value} - {s.leader.value} == if s.leader.value == tid then {} else {tid};
  }

  /** The other threads exit, and all but the old leader leave the group. */
  lemma {:induction false} OthersExit(s: State, i: nat, deaths: seq<Tid>, departures: seq<Tid>, t: State)
    requires Inv(s) && !s.panicked
    requires t == s.(dead := s.dead + Threads(deaths), members := s.members - Threads(departures))
    ensures var es := Deaths(deaths) + Departures(departures);
      PossibleRun(s, es) && EndOf(s, es) == t && Inv(t)
  {
    var mid := s.(dead := s.dead + Threads(deaths));
    DeathsRun(s, deaths);
    DeparturesRun(mid, departures);
    RunJoin(s, Deaths(deaths), mid, Departures(departures));
    RunInv(s, Deaths(deaths) + Departures(departures));
  }

  /** From the wait on, left alone, the commit goes through. */
  lemma {:induction false} GoesThrough(s: State, i: nat, tid: Tid) returns (t: State)
    requires Inv(s) && !s.panicked && i < |s.attempts| && s.attempts[i].pc.Waiting? && s.attempts[i].tid == tid
    requires s.attempts[i].linux && !s.attempts[i].native && s.attempts[i].observed == s.generation < GENERATION_MAX
    requires s.attempts[i].pc.siblings <= s.dead && s.leader.Some? && s.members == {tid, s.leader.value}
    requires s.phase == Transitioning && !s.exiting
    requires forall j :: 0 <= j < |s.attempts| && j != i ==> Finished(s.attempts[j].pc)
    ensures PossibleRun(s, Passes(i, 21)) && t == EndOf(s, Passes(i, 21))
    ensures Inv(t) && !t.panicked && i < |t.attempts| && t.attempts[i].pc.Succeeded?
    ensures t.members == {tid} && t.leader == Some(tid) && t.phase == Running && t.generation == s.generation + 1
    ensures t.attempts == s.attempts[i := t.attempts[i]]
  {
    var u := TakesOver(s, i, tid);
    forall j | 0 <= j < |u.attempts| && j != i
      ensures Finished(u.attempts[j].pc)
    {
      assert u.attempts[j] == s.attempts[j];
    }
    assert Alone(u, i, tid);
    t := RunAlone(u, i, tid);
    RunCons(s, Step(i, Pass), u, Passes(i, 20));
  }

  /** In a group of any size a prepared commit succeeds once every other thread has exited and every
      one but the leader has left, in whatever order; its thread is then alone and leads the group. */
  lemma {:induction false} CommitDethreads(s: State, tid: Tid, a: Attempt, deaths: seq<Tid>, departures: seq<Tid>)
    returns (t: State)
    requires Quiet(s, tid) && Ready(s, a, tid)
    requires Threads(deaths) == s.members - {tid} && Threads(departures) == s.members - {tid, s.leader.value}
    ensures var i := |s.attempts|;
      var es := ([Begin(a)] + Passes(i, 3)) + ((Deaths(deaths) + Departures(departures)) + Passes(i, 21));
      PossibleRun(s, es) && t == EndOf(s, es)
    ensures |t.attempts| == |s.attempts| + 1 && t.attempts[|s.attempts|].pc.Succeeded?
    ensures t.members == {tid} && t.leader == Some(tid) && t.phase == Running && t.generation == s.generation + 1
    ensures !t.panicked && Inv(t)
  {
    var i := |s.attempts|;
    var w := Asks(s, tid, a);
    var u := w.(dead := w.dead + Threads(deaths), members := w.members - Threads(departures));
    OthersExit(w, i, deaths, departures, u);
    assert u.members == {tid, s.leader.value};
    forall j | 0 <= j < |u.attempts| && j != i
      ensures Finished(u.attempts[j].pc)
    {
      assert u.attempts[j] == w.attempts[..i][j] == s.attempts[j];
    }
    t := GoesThrough(u, i, tid);
    RunJoin(w, Deaths(deaths) + Departures(departures), u, Passes(i, 21));
    RunJoin(s, [Begin(a)] + Passes(i, 3), w, (Deaths(deaths) + Departures(departures)) + Passes(i, 21));
  }
}
