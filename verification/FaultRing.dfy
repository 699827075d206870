/**
  * The per-CPU rings of fault snapshots. Every step is one load, store or atomic update, so writers on
  * different CPUs and any number of readers interleave freely; each slot has one writer.
  */
module FaultRing {

  const PER_CPU: nat := 16
  const FIELDS: nat := 9
  const SEQUENCE_MAX: nat := 0xFFFF_FFFF_FFFF_FFFF

  type Values = v: seq<nat> | |v| == 9 witness [0, 0, 0, 0, 0, 0, 0, 0, 0]

  /** Where a push is: claimed a sequence, took slot `j`, found it used, about to mark it, storing. */
  datatype Writer =
    | Idle
    | Claimed(q: nat, v: Values)
    | Placed(q: nat, v: Values, j: nat)
    | Counting(q: nat, v: Values, j: nat)
    | Zeroing(q: nat, v: Values, j: nat)
    | Storing(q: nat, v: Values, j: nat, n: nat)

  /** One CPU's ring. `done` lists the sequences it has published and `lost` what it counted as dropped. */
  datatype Cpu = Cpu(next: nat, seqs: seq<nat>, fields: seq<Values>, writer: Writer, done: seq<nat>, lost: nat)

  type Pushed = map<nat, Values>

  // ---------------------------------------------------------------------------
  // One CPU
  // ---------------------------------------------------------------------------

  function NextSlot(u: Cpu): nat {
    u.next % PER_CPU
  }

  predicate Shaped(u: Cpu) {
    |u.seqs| == PER_CPU && |u.fields| == PER_CPU
  }

  /** The next step of a push. */
  function Advance(u: Cpu): Cpu
    requires Shaped(u) && !u.writer.Idle? && (!u.writer.Claimed? ==> u.writer.j < PER_CPU)
  {
    match u.writer
    case Claimed(q, v) => u.(next := u.next + 1, writer := Placed(q, v, NextSlot(u)))
    case Placed(q, v, j) => u.(writer := if u.seqs[j] != 0 then Counting(q, v, j) else Zeroing(q, v, j))
    case Counting(q, v, j) => u.(lost := u.lost + 1, writer := Zeroing(q, v, j))
    case Zeroing(q, v, j) => u.(seqs := u.seqs[j := 0], writer := Storing(q, v, j, 0))
    case Storing(q, v, j, n) =>
      if n < FIELDS then u.(fields := u.fields[j := u.fields[j][n := v[n]]], writer := Storing(q, v, j, n + 1))
      else u.(seqs := u.seqs[j := q], writer := Idle, done := u.done + [q])
  }

  /** The sequence and values of the push under way. */
  predicate Claims(w: Writer, q: nat) {
    !w.Idle? && w.q == q
  }

  ghost predicate DoneOk(u: Cpu, pushed: Pushed, last: nat) {
    && (forall p :: 0 <= p < |u.done| ==> 1 <= u.done[p] <= last && u.done[p] in pushed)
    && (forall p, r :: 0 <= p < r < |u.done| ==> u.done[p] < u.done[r])
  }

  ghost predicate WriterOk(u: Cpu, pushed: Pushed, last: nat)
    requires Shaped(u)
  {
    var n := |u.done|;
    && u.next == n + (if u.writer.Idle? || u.writer.Claimed? then 0 else 1)
    && (!u.writer.Idle? ==>
          && 1 <= u.writer.q <= last && u.writer.q in pushed && pushed[u.writer.q] == u.writer.v
          && forall p :: 0 <= p < n ==> u.done[p] < u.writer.q)
    && (!u.writer.Idle? && !u.writer.Claimed? ==> u.writer.j == n % PER_CPU)
    && (u.writer.Counting? ==> n >= PER_CPU)
    && (u.writer.Storing? ==>
          && u.writer.n <= FIELDS && u.seqs[u.writer.j] == 0
          && u.fields[u.writer.j][..u.writer.n] == u.writer.v[..u.writer.n])
    && u.lost == (if n >= PER_CPU then n - PER_CPU else 0)
                 + (if n >= PER_CPU && (u.writer.Zeroing? || u.writer.Storing?) then 1 else 0)
  }

  /** A marked slot is complete: it holds the values pushed under its sequence. */
  ghost predicate SlotOk(u: Cpu, pushed: Pushed, j: nat)
    requires Shaped(u) && j < PER_CPU
  {
    u.seqs[j] != 0 ==> u.seqs[j] in u.done && u.seqs[j] in pushed && u.fields[j] == pushed[u.seqs[j]]
  }

  ghost predicate SlotsOk(u: Cpu, pushed: Pushed)
    requires Shaped(u)
  {
    && (forall j {:trigger SlotOk(u, pushed, j)} :: 0 <= j < PER_CPU ==> SlotOk(u, pushed, j))
    && (forall j :: |u.done| <= j < PER_CPU ==> u.seqs[j] == 0)
  }

  /** Push number `p` is still in its slot, unless the one that replaces it is being stored. */
  predicate Retained(u: Cpu, p: nat)
    requires Shaped(u) && p < |u.done|
  {
    (u.writer.Storing? && p + PER_CPU == |u.done|) || u.seqs[p % PER_CPU] == u.done[p]
  }

  ghost predicate RetainsLast(u: Cpu)
    requires Shaped(u)
  {
    forall p {:trigger Retained(u, p)} :: 0 <= p < |u.done| <= p + PER_CPU ==> Retained(u, p)
  }

  ghost predicate CpuOk(u: Cpu, pushed: Pushed, last: nat) {
    Shaped(u) && DoneOk(u, pushed, last) && WriterOk(u, pushed, last) && SlotsOk(u, pushed) && RetainsLast(u)
  }

  lemma {:induction false} AdvanceRetains(u: Cpu, pushed: Pushed, last: nat)
    requires CpuOk(u, pushed, last) && !u.writer.Idle?
    ensures RetainsLast(Advance(u))
  {
    var t := Advance(u);
    forall p | 0 <= p < |t.done| <= p + PER_CPU
      ensures Retained(t, p)
    {
      if p < |u.done| {
        assert Retained(u, p);
      }
    }
  }

  lemma {:induction false} AdvanceSlots(u: Cpu, pushed: Pushed, last: nat)
    requires CpuOk(u, pushed, last) && !u.writer.Idle?
    ensures SlotsOk(Advance(u), pushed)
  {
    var t := Advance(u);
    forall j | 0 <= j < PER_CPU
      ensures SlotOk(t, pushed, j)
    {
      assert SlotOk(u, pushed, j);
      if u.writer.Storing? && u.writer.n == FIELDS && j == u.writer.j {
        assert t.fields[j] == t.fields[j][..FIELDS] == u.writer.v[..FIELDS] == u.writer.v;
        assert t.done[|u.done|] == t.seqs[j];
      } else if t.seqs[j] != 0 {
        assert u.done <= t.done;
      }
    }
  }

  lemma {:induction false} AdvanceField(u: Cpu, pushed: Pushed, last: nat)
    requires CpuOk(u, pushed, last) && u.writer.Storing? && u.writer.n < FIELDS
    ensures DoneOk(Advance(u), pushed, last) && WriterOk(Advance(u), pushed, last)
  {
    var w := u.writer;
    var f := u.fields[w.j][w.n := w.v[w.n]];
    assert f[..w.n + 1] == u.fields[w.j][..w.n] + [w.v[w.n]] == w.v[..w.n + 1];
    assert Advance(u).fields[w.j] == f;
  }

  lemma {:induction false} AdvancePublish(u: Cpu, pushed: Pushed, last: nat)
    requires CpuOk(u, pushed, last) && u.writer.Storing? && u.writer.n == FIELDS
    ensures DoneOk(Advance(u), pushed, last) && WriterOk(Advance(u), pushed, last)
  {
  }

  lemma {:induction false} AdvancePlaced(u: Cpu, pushed: Pushed, last: nat)
    requires CpuOk(u, pushed, last) && u.writer.Placed?
    ensures WriterOk(Advance(u), pushed, last)
  {
    if |u.done| >= PER_CPU {
      assert Retained(u, |u.done| - PER_CPU);
    }
  }

  lemma {:induction false} AdvanceWriter(u: Cpu, pushed: Pushed, last: nat)
    requires CpuOk(u, pushed, last) && !u.writer.Idle? && !u.writer.Storing?
    ensures DoneOk(Advance(u), pushed, last) && WriterOk(Advance(u), pushed, last)
  {
    if u.writer.Placed? {
      AdvancePlaced(u, pushed, last);
    }
  }

  /** A step of a push keeps its CPU in order. */
  lemma {:induction false} AdvanceOk(u: Cpu, pushed: Pushed, last: nat)
    requires CpuOk(u, pushed, last) && !u.writer.Idle?
    ensures CpuOk(Advance(u), pushed, last)
  {
    if !u.writer.Storing? {
      AdvanceWriter(u, pushed, last);
    } else if u.writer.n < FIELDS {
      AdvanceField(u, pushed, last);
    } else {
      AdvancePublish(u, pushed, last);
    }
    AdvanceSlots(u, pushed, last);
    AdvanceRetains(u, pushed, last);
  }

  /** New sequence numbers leave every CPU in order. */
  lemma {:induction false} GrowOk(u: Cpu, pushed: Pushed, last: nat, v: Values)
    requires CpuOk(u, pushed, last) && last + 1 !in pushed
    ensures CpuOk(u, pushed[last + 1 := v], last + 1)
    ensures u.writer.Idle? ==> CpuOk(u.(writer := Claimed(last + 1, v)), pushed[last + 1 := v], last + 1)
  {
    var pushed' := pushed[last + 1 := v];
    forall j | 0 <= j < PER_CPU
      ensures SlotOk(u, pushed', j)
    {
      assert SlotOk(u, pushed, j);
    }
    var t := u.(writer := Claimed(last + 1, v));
    if u.writer.Idle? {
      forall j | 0 <= j < PER_CPU
        ensures SlotOk(t, pushed', j)
      {
        assert SlotOk(u, pushed, j);
      }
      forall p | 0 <= p < |t.done| <= p + PER_CPU
        ensures Retained(t, p)
      {
        assert Retained(u, p);
      }
    }
  }

  // ---------------------------------------------------------------------------
  // All CPUs and readers
  // ---------------------------------------------------------------------------

  /** A reader copies slot `j` of CPU `c` field by field and then looks at the mark again. */
  datatype Reader =
    | Reading(c: nat, j: nat, q: nat, got: seq<nat>)
    | Found(c: nat, j: nat, q: nat, v: seq<nat>)
    | Missed

  /** `pushed`, `total` and `skipped` record what was pushed, how many recoveries there were, and how many got no number. */
  datatype Ring = Ring(
    last: nat, dropped: nat, cpus: seq<Cpu>, readers: seq<Reader>,
    pushed: Pushed, total: nat, skipped: nat)

  datatype Event =
    | Recover(c: nat, v: Values)
    | Write(c: nat)
    | Open(c: nat, j: nat)
    | Read(r: nat)

  predicate Possible(s: Ring, e: Event) {
    match e
    case Recover(c, _) => c < |s.cpus| && s.cpus[c].writer.Idle?
    case Write(c) =>
      && c < |s.cpus| && !s.cpus[c].writer.Idle? && Shaped(s.cpus[c])
      && (!s.cpus[c].writer.Claimed? ==> s.cpus[c].writer.j < PER_CPU)
    case Open(c, j) => c < |s.cpus| && j < PER_CPU && Shaped(s.cpus[c])
    case Read(r) =>
      && r < |s.readers| && s.readers[r].Reading?
      && s.readers[r].c < |s.cpus| && s.readers[r].j < PER_CPU && Shaped(s.cpus[s.readers[r].c])
  }

  function ReadStep(s: Ring, r: Reader): Reader
    requires r.Reading? && r.c < |s.cpus| && r.j < PER_CPU && Shaped(s.cpus[r.c])
  {
    var u := s.cpus[r.c];
    if |r.got| < FIELDS then r.(got := r.got + [u.fields[r.j][|r.got|]])
    else if u.seqs[r.j] == r.q then Found(r.c, r.j, r.q, r.got)
    else Missed
  }

  function After(s: Ring, e: Event): Ring
    requires Possible(s, e)
  {
    match e
    case Recover(c, v) =>
      if s.last == SEQUENCE_MAX then s.(dropped := s.dropped + 1, total := s.total + 1, skipped := s.skipped + 1)
      else
        var u := s.cpus[c].(writer := Claimed(s.last + 1, v));
        s.(last := s.last + 1, pushed := s.pushed[s.last + 1 := v], total := s.total + 1, cpus := s.cpus[c := u])
    case Write(c) =>
      s.(cpus := s.cpus[c := Advance(s.cpus[c])],
         dropped := s.dropped + (if s.cpus[c].writer.Counting? then 1 else 0))
    case Open(c, j) =>
      var q := s.cpus[c].seqs[j];
      s.(readers := s.readers + [if q == 0 then Missed else Reading(c, j, q, [])])
    case Read(r) => s.(readers := s.readers[r := ReadStep(s, s.readers[r])])
  }

  ghost predicate AllCpusOk(s: Ring) {
    forall c {:trigger CpuOk(s.cpus[c], s.pushed, s.last)} ::
      0 <= c < |s.cpus| ==> CpuOk(s.cpus[c], s.pushed, s.last)
  }

  /** As long as the mark has not changed, what was read so far is what was pushed. */
  ghost predicate ReaderOk(s: Ring, r: Reader) {
    match r
    case Reading(c, j, q, got) =>
      && c < |s.cpus| && j < PER_CPU && Shaped(s.cpus[c]) && |got| <= FIELDS
      && q != 0 && q in s.cpus[c].done && q in s.pushed
      && (s.cpus[c].seqs[j] == q ==> got == s.pushed[q][..|got|])
    case Found(c, j, q, v) => c < |s.cpus| && q in s.cpus[c].done && q in s.pushed && v == s.pushed[q]
    case Missed => true
  }

  ghost predicate AllReadersOk(s: Ring) {
    forall r {:trigger ReaderOk(s, s.readers[r])} :: 0 <= r < |s.readers| ==> ReaderOk(s, s.readers[r])
  }

  /** Every number handed out was published or belongs to a push under way. */
  ghost predicate Located(s: Ring, q: nat) {
    exists c :: 0 <= c < |s.cpus| && (q in s.cpus[c].done || Claims(s.cpus[c].writer, q))
  }

  ghost predicate AllLocated(s: Ring) {
    forall q {:trigger Located(s, q)} :: 1 <= q <= s.last ==> Located(s, q)
  }

  function Begun(u: Cpu): nat {
    |u.done| + (if u.writer.Idle? then 0 else 1)
  }

  function SumBegun(cpus: seq<Cpu>): nat {
    if |cpus| == 0 then 0 else SumBegun(cpus[..|cpus| - 1]) + Begun(cpus[|cpus| - 1])
  }

  function SumLost(cpus: seq<Cpu>): nat {
    if |cpus| == 0 then 0 else SumLost(cpus[..|cpus| - 1]) + cpus[|cpus| - 1].lost
  }

  ghost predicate Counted(s: Ring) {
    && s.total == SumBegun(s.cpus) + s.skipped && s.dropped == SumLost(s.cpus) + s.skipped
    && s.total == s.last + s.skipped && (s.skipped > 0 ==> s.last == SEQUENCE_MAX)
    && (forall q :: q in s.pushed ==> q <= s.last)
  }

  ghost predicate Inv(s: Ring) {
    AllCpusOk(s) && AllReadersOk(s) && AllLocated(s) && Counted(s)
  }

  lemma {:induction false} SumsPut(cpus: seq<Cpu>, c: nat, u: Cpu)
    requires c < |cpus|
    ensures SumBegun(cpus[c := u]) + Begun(cpus[c]) == SumBegun(cpus) + Begun(u)
    ensures SumLost(cpus[c := u]) + cpus[c].lost == SumLost(cpus) + u.lost
  {
    var n := |cpus| - 1;
    if c < n {
      SumsPut(cpus[..n], c, u);
      assert cpus[c := u][..n] == cpus[..n][c := u];
    } else {
      assert cpus[c := u][..n] == cpus[..n];
    }
  }

  /** Readers survive a change of one CPU that only adds published sequences and rewrites marks to other values. */
  lemma {:induction false} ReaderKept(s: Ring, t: Ring, r: Reader, c: nat)
    requires ReaderOk(s, r) && c < |s.cpus| == |t.cpus|
    requires forall d :: 0 <= d < |s.cpus| && d != c ==> t.cpus[d] == s.cpus[d]
    requires Shaped(s.cpus[c]) && Shaped(t.cpus[c])
    requires
      forall j :: 0 <= j < PER_CPU ==> t.cpus[c].seqs[j] in {0, s.cpus[c].seqs[j]} || t.cpus[c].seqs[j] !in s.cpus[c].done
    requires s.cpus[c].done <= t.cpus[c].done
    requires forall q :: q in s.pushed ==> q in t.pushed && t.pushed[q] == s.pushed[q]
    ensures ReaderOk(t, r)
  {
    if r.Reading? && r.c == c {
      assert r.q in t.cpus[c].done;
    }
  }

  lemma {:induction false} WriteReaders(s: Ring, c: nat, t: Ring)
    requires Inv(s) && c < |s.cpus| && !s.cpus[c].writer.Idle? && CpuOk(s.cpus[c], s.pushed, s.last)
    requires t.cpus == s.cpus[c := Advance(s.cpus[c])] && t.readers == s.readers && t.pushed == s.pushed
    ensures AllReadersOk(t)
  {
    var u := s.cpus[c];
    if u.writer.Storing? && u.writer.n == FIELDS {
      assert u.writer.q !in u.done;
    }
    forall r | 0 <= r < |t.readers|
      ensures ReaderOk(t, t.readers[r])
    {
      ReaderKept(s, t, s.readers[r], c);
    }
  }

  lemma {:induction false} WriteInv(s: Ring, c: nat)
    requires Inv(s) && Possible(s, Write(c))
    ensures Inv(After(s, Write(c)))
  {
    var t := After(s, Write(c));
    var u := s.cpus[c];
    assert CpuOk(u, s.pushed, s.last);
    AdvanceOk(u, s.pushed, s.last);
    forall d | 0 <= d < |t.cpus|
      ensures CpuOk(t.cpus[d], t.pushed, t.last)
    {
      assert CpuOk(s.cpus[d], s.pushed, s.last);
    }
    WriteReaders(s, c, t);
    forall q | 1 <= q <= t.last
      ensures Located(t, q)
    {
      StillLocated(s, c, t, q);
    }
    SumsPut(s.cpus, c, Advance(u));
  }

  lemma {:induction false} StillLocated(s: Ring, c: nat, t: Ring, q: nat)
    requires Located(s, q) && c < |s.cpus| && !s.cpus[c].writer.Idle? && CpuOk(s.cpus[c], s.pushed, s.last)
    requires t.cpus == s.cpus[c := Advance(s.cpus[c])]
    ensures Located(t, q)
  {
    var d :| 0 <= d < |s.cpus| && (q in s.cpus[d].done || Claims(s.cpus[d].writer, q));
    if d == c {
      var u, v := s.cpus[c], t.cpus[c];
      assert u.done <= v.done;
      if q !in u.done && v.writer.Idle? {
        assert v.done[|u.done|] == q;
      }
    }
    assert q in t.cpus[d].done || Claims(t.cpus[d].writer, q);
  }

  lemma {:induction false} SkippedInv(s: Ring, c: nat, v: Values)
    requires Inv(s) && Possible(s, Recover(c, v)) && s.last == SEQUENCE_MAX
    ensures Inv(After(s, Recover(c, v)))
  {
    var t := After(s, Recover(c, v));
    assert forall d :: 0 <= d < |t.cpus| ==> CpuOk(s.cpus[d], s.pushed, s.last);
    forall r | 0 <= r < |t.readers|
      ensures ReaderOk(t, t.readers[r])
    {
      assert ReaderOk(s, s.readers[r]);
    }
    forall q | 1 <= q <= t.last
      ensures Located(t, q)
    {
      assert Located(s, q);
    }
  }

  lemma {:induction false} ClaimedCpus(s: Ring, c: nat, v: Values, t: Ring)
    requires Inv(s) && Possible(s, Recover(c, v)) && s.last != SEQUENCE_MAX && t == After(s, Recover(c, v))
    ensures AllCpusOk(t) && AllReadersOk(t)
  {
    forall d | 0 <= d < |t.cpus|
      ensures CpuOk(t.cpus[d], t.pushed, t.last)
    {
      assert CpuOk(s.cpus[d], s.pushed, s.last);
      GrowOk(s.cpus[d], s.pushed, s.last, v);
    }
    assert CpuOk(s.cpus[c], s.pushed, s.last);
    forall r | 0 <= r < |t.readers|
      ensures ReaderOk(t, t.readers[r])
    {
      assert ReaderOk(s, s.readers[r]);
      ReaderKept(s, t, s.readers[r], c);
    }
  }

  lemma {:induction false} ClaimedLocated(s: Ring, c: nat, v: Values, t: Ring, q: nat)
    requires AllLocated(s) && Possible(s, Recover(c, v)) && s.last != SEQUENCE_MAX && t == After(s, Recover(c, v))
    requires 1 <= q <= t.last
    ensures Located(t, q)
  {
    if q == t.last {
      assert Claims(t.cpus[c].writer, q);
    } else {
      assert Located(s, q);
      var d :| 0 <= d < |s.cpus| && (q in s.cpus[d].done || Claims(s.cpus[d].writer, q));
      assert q in t.cpus[d].done || Claims(t.cpus[d].writer, q);
    }
  }

  lemma {:induction false} RecoverInv(s: Ring, c: nat, v: Values)
    requires Inv(s) && Possible(s, Recover(c, v))
    ensures Inv(After(s, Recover(c, v)))
  {
    if s.last == SEQUENCE_MAX {
      SkippedInv(s, c, v);
    } else {
      var t := After(s, Recover(c, v));
      ClaimedCpus(s, c, v, t);
      forall q | 1 <= q <= t.last
        ensures Located(t, q)
      {
        ClaimedLocated(s, c, v, t, q);
      }
      SumsPut(s.cpus, c, t.cpus[c]);
    }
  }

  lemma {:induction false} ReadInv(s: Ring, e: Event)
    requires Inv(s) && Possible(s, e) && (e.Open? || e.Read?)
    ensures Inv(After(s, e))
  {
    var t := After(s, e);
    forall d | 0 <= d < |t.cpus|
      ensures CpuOk(t.cpus[d], t.pushed, t.last)
    {
      assert CpuOk(s.cpus[d], s.pushed, s.last);
    }
    forall q | 1 <= q <= t.last
      ensures Located(t, q)
    {
      assert Located(s, q);
    }
    forall r | 0 <= r < |t.readers|
      ensures ReaderOk(t, t.readers[r])
    {
      if r < |s.readers| {
        assert ReaderOk(s, s.readers[r]);
      }
      if e.Read? && r == e.r {
        ReadKept(s, s.readers[r]);
      } else if e.Open? && r == |s.readers| {
        assert SlotOk(s.cpus[e.c], s.pushed, e.j);
      }
    }
  }

  lemma {:induction false} ReadKept(s: Ring, r: Reader)
    requires AllCpusOk(s) && ReaderOk(s, r) && r.Reading?
    ensures ReaderOk(s, ReadStep(s, r))
  {
    assert CpuOk(s.cpus[r.c], s.pushed, s.last);
    assert SlotOk(s.cpus[r.c], s.pushed, r.j);
    var t := ReadStep(s, r);
    if s.cpus[r.c].seqs[r.j] == r.q && |r.got| < FIELDS {
      var v := s.pushed[r.q];
      assert v[..|r.got| + 1] == v[..|r.got|] + [v[|r.got|]];
    }
    assert s.pushed[r.q][..FIELDS] == s.pushed[r.q];
  }

  lemma {:induction false} EventInv(s: Ring, e: Event)
    requires Inv(s) && Possible(s, e)
    ensures Inv(After(s, e))
  {
    match e {
      case Recover(c, v) => RecoverInv(s, c, v);
      case Write(c) => WriteInv(s, c);
      case _ => ReadInv(s, e);
    }
  }
}
