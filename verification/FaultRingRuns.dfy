/** Whole runs of the fault rings: what readers get, what is retained, and what is counted as dropped. */
module FaultRingRuns {
  import opened Outcomes
  import opened FaultRing

  predicate PossibleRun(s: Ring, es: seq<Event>)
    decreases |es|
  {
    |es| == 0 || (Possible(s, es[0]) && PossibleRun(After(s, es[0]), es[1..]))
  }

  function EndOf(s: Ring, es: seq<Event>): Ring
    requires PossibleRun(s, es)
    decreases |es|
  {
    if |es| == 0 then s else EndOf(After(s, es[0]), es[1..])
  }

  const NO_VALUES: Values := [0, 0, 0, 0, 0, 0, 0, 0, 0]

  function EmptyCpu(): Cpu {
    Cpu(0, seq(PER_CPU, _ => 0), seq(PER_CPU, _ => NO_VALUES), Idle, [], 0)
  }

  /** Any number of CPUs, before the first fault. */
  function Empty(cpus: nat): Ring {
    Ring(0, 0, seq(cpus, _ => EmptyCpu()), [], map[], 0, 0)
  }

  lemma {:induction false} EmptySums(cpus: seq<Cpu>)
    requires forall c :: 0 <= c < |cpus| ==> cpus[c] == EmptyCpu()
    ensures SumBegun(cpus) == 0 && SumLost(cpus) == 0
  {
    if |cpus| > 0 {
      EmptySums(cpus[..|cpus| - 1]);
    }
  }

  lemma {:induction false} EmptyInv(cpus: nat)
    ensures Inv(Empty(cpus))
  {
    var s := Empty(cpus);
    assert CpuOk(EmptyCpu(), map[], 0);
    assert forall c :: 0 <= c < |s.cpus| ==> s.cpus[c] == EmptyCpu();
    EmptySums(s.cpus);
  }

  lemma {:induction false} RunInv(s: Ring, es: seq<Event>)
    requires Inv(s) && PossibleRun(s, es)
    ensures Inv(EndOf(s, es))
    decreases |es|
  {
    if |es| > 0 {
      EventInv(s, es[0]);
      RunInv(After(s, es[0]), es[1..]);
    }
  }

  /** A state some interleaving of faults and reads leads to, on any number of CPUs. */
  ghost predicate Reachable(s: Ring) {
    exists cpus, es :: PossibleRun(Empty(cpus), es) && EndOf(Empty(cpus), es) == s
  }

  lemma {:induction false} ReachableInv(s: Ring)
    requires Reachable(s)
    ensures Inv(s)
  {
    var cpus, es :| PossibleRun(Empty(cpus), es) && EndOf(Empty(cpus), es) == s;
    EmptyInv(cpus);
    RunInv(Empty(cpus), es);
  }

  /** However reads and pushes interleave, what a reader returns is one whole push of that CPU. */
  lemma {:induction false} ReadersSeeWholePushes(s: Ring, r: nat)
    requires Reachable(s) && r < |s.readers| && s.readers[r].Found?
    ensures var got := s.readers[r];
      got.c < |s.cpus| && got.q in s.cpus[got.c].done && got.q in s.pushed && got.v == s.pushed[got.q]
  {
    ReachableInv(s);
    assert ReaderOk(s, s.readers[r]);
  }

  // ---------------------------------------------------------------------------
  // Between pushes
  // ---------------------------------------------------------------------------

  predicate Quiet(s: Ring) {
    forall c :: 0 <= c < |s.cpus| ==> s.cpus[c].writer.Idle?
  }

  function Min(a: nat, b: nat): nat {
    if a < b then a else b
  }

  /** Each CPU keeps exactly its last sixteen pushes, or all of them when there are fewer. */
  lemma {:induction false} KeepsLast(s: Ring, c: nat, p: nat)
    requires Reachable(s) && Quiet(s) && c < |s.cpus|
    ensures var u := s.cpus[c];
      && Shaped(u)
      && (p < |u.done| <= p + PER_CPU ==>
            && u.seqs[p % PER_CPU] == u.done[p] && u.done[p] in s.pushed
            && u.fields[p % PER_CPU] == s.pushed[u.done[p]])
      && (|u.done| <= p < PER_CPU ==> u.seqs[p] == 0)
  {
    ReachableInv(s);
    var u := s.cpus[c];
    assert CpuOk(u, s.pushed, s.last);
    if p < |u.done| <= p + PER_CPU {
      assert Retained(u, p);
      assert SlotOk(u, s.pushed, p % PER_CPU);
    }
  }

  function Marked(u: Cpu, n: nat): nat
    requires Shaped(u) && n <= PER_CPU
  {
    if n == 0 then 0 else Marked(u, n - 1) + (if u.seqs[n - 1] != 0 then 1 else 0)
  }

  /** How many snapshots the rings hold. */
  function SnapshotCount(cpus: seq<Cpu>): nat
    requires forall c :: 0 <= c < |cpus| ==> Shaped(cpus[c])
  {
    if |cpus| == 0 then 0 else SnapshotCount(cpus[..|cpus| - 1]) + Marked(cpus[|cpus| - 1], PER_CPU)
  }

  lemma {:induction false} MarkedIs(u: Cpu, pushed: Pushed, last: nat, n: nat)
    requires CpuOk(u, pushed, last) && u.writer.Idle? && n <= PER_CPU
    ensures Marked(u, n) == Min(n, |u.done|)
  {
    if n > 0 {
      MarkedIs(u, pushed, last, n - 1);
      if n - 1 < |u.done| {
        var p := LastIn(|u.done|, n - 1);
        assert Retained(u, p);
      }
    }
  }

  /** The last push before number `n` that went to slot `j`. */
  function LastIn(n: nat, j: nat): (p: nat)
    requires j < n && j < PER_CPU
    ensures p < n <= p + PER_CPU && p % PER_CPU == j
  {
    n - 1 - (n - 1 - j) % PER_CPU
  }

  lemma {:induction false} CountsAdd(cpus: seq<Cpu>, pushed: Pushed, last: nat)
    requires forall c :: 0 <= c < |cpus| ==> Shaped(cpus[c]) && CpuOk(cpus[c], pushed, last) && cpus[c].writer.Idle?
    ensures SnapshotCount(cpus) + SumLost(cpus) == SumBegun(cpus)
  {
    if |cpus| > 0 {
      var n := |cpus| - 1;
      CountsAdd(cpus[..n], pushed, last);
      MarkedIs(cpus[n], pushed, last, PER_CPU);
    }
  }

  /** Snapshots held and snapshots dropped are together all recoveries; until numbers run out, `last` counts them. */
  lemma {:induction false} NothingUncounted(s: Ring)
    requires Reachable(s) && Quiet(s)
    ensures forall c :: 0 <= c < |s.cpus| ==> Shaped(s.cpus[c])
    ensures SnapshotCount(s.cpus) + s.dropped == s.total
    ensures s.last < SEQUENCE_MAX ==> s.total == s.last
  {
    ReachableInv(s);
    forall c | 0 <= c < |s.cpus|
      ensures CpuOk(s.cpus[c], s.pushed, s.last) && Shaped(s.cpus[c])
    {
      assert CpuOk(s.cpus[c], s.pushed, s.last);
    }
    CountsAdd(s.cpus, s.pushed, s.last);
  }

  // ---------------------------------------------------------------------------
  // The newest snapshot
  // ---------------------------------------------------------------------------

  datatype Snapshot = Snapshot(sequence: nat, cpu: nat, values: Values)

  predicate At(s: Ring, c: nat, j: nat, x: Snapshot) {
    c < |s.cpus| && Shaped(s.cpus[c]) && j < PER_CPU && s.cpus[c].seqs[j] != 0
    && x == Snapshot(s.cpus[c].seqs[j], c, s.cpus[c].fields[j])
  }

  /** The newest of the first `m` slots of each of the first `n` CPUs and of CPU `n`. */
  ghost predicate NewestOf(s: Ring, n: nat, m: nat, x: Option<Snapshot>) {
    && (x.Some? ==> exists c: nat, j: nat :: At(s, c, j, x.value))
    && forall c: nat, j: nat, y {:trigger At(s, c, j, y)} ::
         At(s, c, j, y) && (c < n || (c == n && j < m)) ==> x.Some? && y.sequence <= x.value.sequence
  }

  method LastSnapshot(s: Ring) returns (x: Option<Snapshot>)
    requires forall c :: 0 <= c < |s.cpus| ==> Shaped(s.cpus[c])
    ensures NewestOf(s, |s.cpus|, 0, x)
  {
    x := None;
    var c: nat := 0;
    while c < |s.cpus|
      invariant c <= |s.cpus| && NewestOf(s, c, 0, x)
    {
      var j: nat := 0;
      while j < PER_CPU
        invariant j <= PER_CPU && NewestOf(s, c, j, x)
      {
        if s.cpus[c].seqs[j] != 0 {
          var y := Snapshot(s.cpus[c].seqs[j], c, s.cpus[c].fields[j]);
          assert At(s, c, j, y);
          if x.None? || y.sequence > x.value.sequence {
            x := Some(y);
          }
        }
        j := j + 1;
      }
      c := c + 1;
    }
  }

  /** The newest snapshot is the one with the last number handed out; there is none only before the first. */
  lemma {:induction false} NewestIsLast(s: Ring, x: Option<Snapshot>)
    requires Reachable(s) && Quiet(s) && NewestOf(s, |s.cpus|, 0, x)
    ensures x.Some? <==> s.last > 0
    ensures x.Some? ==> x.value.sequence == s.last && s.last in s.pushed && x.value.values == s.pushed[s.last]
  {
    ReachableInv(s);
    if x.Some? {
      var c: nat, j: nat :| At(s, c, j, x.value);
      assert CpuOk(s.cpus[c], s.pushed, s.last) && SlotOk(s.cpus[c], s.pushed, j);
    }
    if s.last > 0 {
      LastIsHeld(s, |s.cpus|, x);
    }
  }

  lemma {:induction false} LastIsHeld(s: Ring, n: nat, x: Option<Snapshot>)
    requires Inv(s) && Quiet(s) && s.last > 0 && n == |s.cpus| && NewestOf(s, n, 0, x)
    ensures x.Some? && s.last <= x.value.sequence
  {
    assert Located(s, s.last);
    var c :| 0 <= c < |s.cpus| && (s.last in s.cpus[c].done || Claims(s.cpus[c].writer, s.last));
    var u := s.cpus[c];
    assert CpuOk(u, s.pushed, s.last);
    var p :| 0 <= p < |u.done| && u.done[p] == s.last;
    var newest := u.done[|u.done| - 1];
    assert newest <= s.last;
    assert Retained(u, p);
    var j := p % PER_CPU;
    assert At(s, c, j, Snapshot(u.seqs[j], c, u.fields[j]));
  }
}
