/** Looking for the newest snapshot, slot by slot, while pushes and other readers go on. */
module FaultRingScan {
  import opened Outcomes
  import opened FaultRing
  import opened FaultRingRuns

  /** Where a scan is: its slot, the reader it has opened there, and the reader with the best snapshot so far. */
  datatype Scan = Scan(c: nat, j: nat, reader: Option<nat>, best: Option<nat>)

  datatype Scene = Scene(ring: Ring, scan: Scan)

  /** A step of anybody else, or of the scan: a load, or taking over what its reader returned. */
  datatype Step = World(e: Event) | Scanner

  const FIRST: Scan := Scan(0, 0, None, None)

  predicate Done(x: Scene) {
    x.scan.c >= |x.ring.cpus|
  }

  function NextPlace(scan: Scan): Scan {
    if scan.j + 1 < PER_CPU then scan.(j := scan.j + 1, reader := None) else scan.(c := scan.c + 1, j := 0, reader := None)
  }

  predicate IsFound(s: Ring, k: nat) {
    k < |s.readers| && s.readers[k].Found?
  }

  /** A snapshot replaces the selected one only if its sequence is larger. */
  function Better(s: Ring, best: Option<nat>, k: nat): Option<nat>
    requires IsFound(s, k) && (best.Some? ==> IsFound(s, best.value))
  {
    if best.None? || s.readers[k].q > s.readers[best.value].q then Some(k) else best
  }

  predicate CanStep(x: Scene, step: Step) {
    match step
    case World(e) => Possible(x.ring, e)
    case Scanner =>
      && !Done(x) && (x.scan.best.Some? ==> IsFound(x.ring, x.scan.best.value))
      && (match x.scan.reader
          case None => Possible(x.ring, Open(x.scan.c, x.scan.j))
          case Some(k) => k < |x.ring.readers| && (x.ring.readers[k].Reading? ==> Possible(x.ring, Read(k))))
  }

  function Go(x: Scene, step: Step): Scene
    requires CanStep(x, step)
  {
    match step
    case World(e) => x.(ring := After(x.ring, e))
    case Scanner =>
      match x.scan.reader
      case None => Scene(After(x.ring, Open(x.scan.c, x.scan.j)), x.scan.(reader := Some(|x.ring.readers|)))
      case Some(k) =>
        match x.ring.readers[k]
        case Reading(_, _, _, _) => x.(ring := After(x.ring, Read(k)))
        case Found(_, _, _, _) => x.(scan := NextPlace(x.scan.(best := Better(x.ring, x.scan.best, k))))
        case Missed => x.(scan := NextPlace(x.scan))
  }

  predicate CanRun(x: Scene, steps: seq<Step>)
    decreases |steps|
  {
    |steps| == 0 || (CanStep(x, steps[0]) && CanRun(Go(x, steps[0]), steps[1..]))
  }

  function RunTo(x: Scene, steps: seq<Step>): Scene
    requires CanRun(x, steps)
    decreases |steps|
  {
    if |steps| == 0 then x else RunTo(Go(x, steps[0]), steps[1..])
  }

  /** Slot `j` of CPU `c` is marked with sequence `q`. */
  predicate Marks(s: Ring, c: nat, j: nat, q: nat) {
    q != 0 && c < |s.cpus| && j < |s.cpus[c].seqs| && s.cpus[c].seqs[j] == q
  }

  /** It is so in every state of the run. */
  ghost predicate Retains(x: Scene, steps: seq<Step>, c: nat, j: nat, q: nat)
    requires CanRun(x, steps)
    decreases |steps|
  {
    Marks(x.ring, c, j, q) && (|steps| > 0 ==> Retains(Go(x, steps[0]), steps[1..], c, j, q))
  }

  // ---------------------------------------------------------------------------
  // What every step keeps
  // ---------------------------------------------------------------------------

  predicate AtPlace(r: Reader, c: nat, j: nat) {
    r.Missed? || (r.c == c && r.j == j)
  }

  ghost predicate SceneOk(x: Scene) {
    && Inv(x.ring) && x.scan.j < PER_CPU
    && (x.scan.best.Some? ==> IsFound(x.ring, x.scan.best.value))
    && (x.scan.reader.Some? ==>
          x.scan.reader.value < |x.ring.readers| && AtPlace(x.ring.readers[x.scan.reader.value], x.scan.c, x.scan.j))
  }

  /** A reader that has ended stays as it is, and none disappears. */
  lemma {:induction false} ReadersStay(s: Ring, e: Event, k: nat)
    requires Possible(s, e) && k < |s.readers|
    ensures var t := After(s, e);
      && k < |t.readers| && |t.cpus| == |s.cpus|
      && (t.readers[k] == s.readers[k] || (e == Read(k) && t.readers[k] == ReadStep(s, s.readers[k])))
  {
  }

  lemma {:induction false} EventKept(x: Scene, e: Event)
    requires SceneOk(x) && Possible(x.ring, e)
    ensures SceneOk(x.(ring := After(x.ring, e))) && |After(x.ring, e).cpus| == |x.ring.cpus|
  {
    EventInv(x.ring, e);
    if x.scan.best.Some? {
      ReadersStay(x.ring, e, x.scan.best.value);
    }
    if x.scan.reader.Some? {
      ReadersStay(x.ring, e, x.scan.reader.value);
    }
  }

  /** The scan is never stuck: until it is done its next step is possible. */
  lemma {:induction false} ScannerCanStep(x: Scene)
    requires SceneOk(x) && !Done(x)
    ensures CanStep(x, Scanner)
  {
    var c, j := x.scan.c, x.scan.j;
    assert CpuOk(x.ring.cpus[c], x.ring.pushed, x.ring.last);
    if x.scan.reader.Some? {
      var k := x.scan.reader.value;
      assert ReaderOk(x.ring, x.ring.readers[k]);
    }
  }

  lemma {:induction false} OpenKept(x: Scene)
    requires SceneOk(x) && !Done(x) && x.scan.reader.None? && CanStep(x, Scanner)
    ensures SceneOk(Go(x, Scanner)) && |Go(x, Scanner).ring.cpus| == |x.ring.cpus|
  {
    EventKept(x, Open(x.scan.c, x.scan.j));
  }

  lemma {:induction false} GoKept(x: Scene, step: Step)
    requires SceneOk(x) && CanStep(x, step)
    ensures SceneOk(Go(x, step)) && |Go(x, step).ring.cpus| == |x.ring.cpus|
  {
    match step {
      case World(e) => EventKept(x, e);
      case Scanner =>
        if x.scan.reader.None? {
          OpenKept(x);
        } else if x.ring.readers[x.scan.reader.value].Reading? {
          EventKept(x, Read(x.scan.reader.value));
        }
    }
  }

  // ---------------------------------------------------------------------------
  // What a finished scan returns
  // ---------------------------------------------------------------------------

  predicate Passed(scan: Scan, c: nat, j: nat) {
    c < scan.c || (c == scan.c && j < scan.j)
  }

  /** The selected snapshot is at least as new as `q`. */
  predicate AtLeast(x: Scene, q: nat) {
    x.scan.best.Some? && IsFound(x.ring, x.scan.best.value) && x.ring.readers[x.scan.best.value].q >= q
  }

  /** A slot that keeps its mark has been seen once it is passed, and is being seen while the scan is there. */
  ghost predicate Seen(x: Scene, c: nat, j: nat, q: nat) {
    && (Passed(x.scan, c, j) ==> AtLeast(x, q))
    && (x.scan.c == c && x.scan.j == j && x.scan.reader.Some? ==>
          && x.scan.reader.value < |x.ring.readers|
          && var r := x.ring.readers[x.scan.reader.value]; !r.Missed? && r.c == c && r.j == j && r.q == q)
  }

  lemma {:induction false} EventSeen(x: Scene, e: Event, c: nat, j: nat, q: nat)
    requires SceneOk(x) && Possible(x.ring, e) && Marks(x.ring, c, j, q) && Seen(x, c, j, q)
    ensures Seen(x.(ring := After(x.ring, e)), c, j, q)
  {
    if x.scan.best.Some? {
      ReadersStay(x.ring, e, x.scan.best.value);
    }
    if x.scan.reader.Some? {
      ReadersStay(x.ring, e, x.scan.reader.value);
    }
  }

  lemma {:induction false} ScannerSeen(x: Scene, c: nat, j: nat, q: nat)
    requires SceneOk(x) && CanStep(x, Scanner) && Marks(x.ring, c, j, q) && j < PER_CPU && Seen(x, c, j, q)
    ensures Seen(Go(x, Scanner), c, j, q)
  {
    match x.scan.reader {
      case None =>
        if x.scan.best.Some? {
          ReadersStay(x.ring, Open(x.scan.c, x.scan.j), x.scan.best.value);
        }
      case Some(k) =>
        if x.ring.readers[k].Reading? {
          EventSeen(x, Read(k), c, j, q);
        }
    }
  }

  lemma {:induction false} RunSeen(x: Scene, steps: seq<Step>, c: nat, j: nat, q: nat)
    requires SceneOk(x) && CanRun(x, steps) && Retains(x, steps, c, j, q) && j < PER_CPU && Seen(x, c, j, q)
    ensures SceneOk(RunTo(x, steps)) && Seen(RunTo(x, steps), c, j, q) && |RunTo(x, steps).ring.cpus| == |x.ring.cpus|
    decreases |steps|
  {
    if |steps| > 0 {
      var step, rest := steps[0], steps[1..];
      GoKept(x, step);
      match step {
        case World(e) => EventSeen(x, e, c, j, q);
        case Scanner => ScannerSeen(x, c, j, q);
      }
      RunSeen(Go(x, step), rest, c, j, q);
    }
  }

  lemma {:induction false} RunKept(x: Scene, steps: seq<Step>)
    requires SceneOk(x) && CanRun(x, steps)
    ensures SceneOk(RunTo(x, steps)) && |RunTo(x, steps).ring.cpus| == |x.ring.cpus|
    decreases |steps|
  {
    if |steps| > 0 {
      GoKept(x, steps[0]);
      RunKept(Go(x, steps[0]), steps[1..]);
    }
  }

  /** Whatever is pushed meanwhile, a scan selects a whole push. */
  lemma {:induction false} ScanSelectsWholePush(s: Ring, steps: seq<Step>)
    requires Reachable(s) && CanRun(Scene(s, FIRST), steps)
    ensures var x := RunTo(Scene(s, FIRST), steps);
      x.scan.best.Some? ==>
        && IsFound(x.ring, x.scan.best.value)
        && var got := x.ring.readers[x.scan.best.value];
           got.c < |x.ring.cpus| && got.q in x.ring.cpus[got.c].done && got.q in x.ring.pushed && got.v == x.ring.pushed[got.q]
  {
    ReachableInv(s);
    RunKept(Scene(s, FIRST), steps);
    var x := RunTo(Scene(s, FIRST), steps);
    if x.scan.best.Some? {
      assert ReaderOk(x.ring, x.ring.readers[x.scan.best.value]);
    }
  }

  /** A finished scan selects a snapshot no older than any that stayed in its slot from beginning to end. */
  lemma {:induction false} ScanMissesNothingRetained(s: Ring, steps: seq<Step>, c: nat, j: nat, q: nat)
    requires Reachable(s) && CanRun(Scene(s, FIRST), steps) && Done(RunTo(Scene(s, FIRST), steps))
    requires Retains(Scene(s, FIRST), steps, c, j, q) && j < PER_CPU
    ensures AtLeast(RunTo(Scene(s, FIRST), steps), q)
  {
    ReachableInv(s);
    RunSeen(Scene(s, FIRST), steps, c, j, q);
  }
}
