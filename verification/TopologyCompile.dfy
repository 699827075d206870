/** From firmware CPU entries to a topology the scheduler accepts. */
module TopologyCompile {
  import opened Outcomes
  import opened TopologyGroups
  import opened TopologySort
  import opened TopologyDomains
  import opened TopologyTree
  import Laminar

  // ---------------------------------------------------------------------------
  // CPU capacities
  // ---------------------------------------------------------------------------

  predicate Rated(cpu: Cpu) {
    cpu.capacity.Some? && cpu.capacity.value != 0
  }

  predicate AllRated(cpus: seq<Cpu>) {
    forall i :: 0 <= i < |cpus| ==> Rated(cpus[i])
  }

  /** The largest rating, or one when there is none. */
  function Maximum(cpus: seq<Cpu>): (m: nat)
    requires AllRated(cpus)
    ensures m >= 1
    ensures forall i :: 0 <= i < |cpus| ==> cpus[i].capacity.value <= m
    ensures |cpus| > 0 ==> exists i :: 0 <= i < |cpus| && cpus[i].capacity.value == m
  {
    if |cpus| == 0 then 1
    else
      var m := Maximum(cpus[1..]);
      assert |cpus| > 1 ==> exists i :: 0 <= i < |cpus[1..]| && cpus[1..][i].capacity.value == m;
      assert forall i :: 1 <= i < |cpus| ==> cpus[i] == cpus[1..][i - 1];
      if |cpus| == 1 || cpus[0].capacity.value > m then cpus[0].capacity.value else m
  }

  function SaturatingMul(a: nat, b: nat): nat {
    if a * b < U64 then a * b else U64 - 1
  }

  function AtLeastOne(x: nat): nat {
    if x == 0 then 1 else x
  }

  /** A rating relative to the largest, on the scheduler's scale, and never zero. */
  function Scale(rating: nat, maximum: nat): nat
    requires maximum >= 1
  {
    AtLeastOne(SaturatingMul(rating, SCHED_CAPACITY_SCALE) / maximum)
  }

  function CapacityOf(cpus: seq<Cpu>, i: nat): nat
    requires i < |cpus|
  {
    if AllRated(cpus) then Scale(cpus[i].capacity.value, Maximum(cpus)) else SCHED_CAPACITY_SCALE
  }

  function CpuCapacities(cpus: seq<Cpu>, n: nat): Capacities
    requires n <= |cpus|
  {
    if n == 0 then map[] else CpuCapacities(cpus, n - 1)[cpus[n - 1].logicalId := CapacityOf(cpus, n - 1)]
  }

  lemma {:induction false} TimesOrdered(a: nat, b: nat, m: nat)
    requires a <= b
    ensures a * m <= b * m
  {
    assert (b - a) * m >= 0;
  }

  lemma {:induction false} DivideMonotone(a: nat, b: nat, m: nat)
    requires m >= 1 && a <= b
    ensures a / m <= b / m
  {
    var q, r := a / m, b / m;
    assert q * m <= a && b < (r + 1) * m;
    if r < q {
      TimesOrdered(r + 1, q, m);
      assert false;
    }
  }

  lemma {:induction false} DivideWhole(k: nat, m: nat)
    requires m >= 1
    ensures k * m / m == k
  {
    var q := k * m / m;
    assert q * m <= k * m < (q + 1) * m;
    if q < k {
      TimesOrdered(q + 1, k, m);
      assert false;
    } else if q > k {
      TimesOrdered(k + 1, q, m);
      assert false;
    }
  }

  /** Scaling keeps the order of ratings and stays between one and the scale. */
  lemma {:induction false} ScaleOrdered(a: nat, b: nat, maximum: nat)
    requires maximum >= 1 && a <= b <= maximum
    ensures 1 <= Scale(a, maximum) <= Scale(b, maximum) <= SCHED_CAPACITY_SCALE
  {
    DivideMonotone(SaturatingMul(a, SCHED_CAPACITY_SCALE), SaturatingMul(b, SCHED_CAPACITY_SCALE), maximum);
    DivideMonotone(SaturatingMul(b, SCHED_CAPACITY_SCALE), SCHED_CAPACITY_SCALE * maximum, maximum);
    DivideWhole(SCHED_CAPACITY_SCALE, maximum);
  }

  /** The best CPU gets the whole scale, for every rating a 32-bit field can hold. */
  lemma {:induction false} ScaleTop(maximum: nat)
    requires 1 <= maximum < 0x1_0000_0000
    ensures Scale(maximum, maximum) == SCHED_CAPACITY_SCALE
  {
    DivideWhole(SCHED_CAPACITY_SCALE, maximum);
  }

  /** A rating is rounded down to the scale, but never below one. */
  lemma {:induction false} ScaleExact(rating: nat, maximum: nat)
    requires maximum >= 1 && rating * 1024 < U64
    ensures rating * 1024 >= maximum ==> Scale(rating, maximum) * maximum <= rating * 1024 < (Scale(rating, maximum) + 1) * maximum
    ensures rating * 1024 < maximum ==> Scale(rating, maximum) == 1
  {
    FloorBounds(rating * 1024, maximum);
  }

  lemma {:induction false} FloorBounds(n: nat, d: nat)
    requires d >= 1
    ensures var q := n / d; q * d <= n < (q + 1) * d && (n >= d <==> q >= 1)
  {
    var q := n / d;
    assert n == q * d + n % d;
    assert (q + 1) * d == q * d + d;
    if q >= 1 {
      TimesOrdered(1, q, d);
    }
  }

  /** What a CPU is worth: its rating relative to the best one if all are rated, else the whole scale. */
  ghost predicate Fair(cpus: seq<Cpu>, i: nat, worth: nat)
    requires i < |cpus|
  {
    if forall k :: 0 <= k < |cpus| ==> cpus[k].capacity.Some? && cpus[k].capacity.value > 0 then
      exists best :: 0 <= best < |cpus| && Best(cpus, best) && Proportional(cpus[i].capacity.value, cpus[best].capacity.value, worth)
    else worth == 1024
  }

  ghost predicate Best(cpus: seq<Cpu>, best: nat)
    requires best < |cpus| && forall k :: 0 <= k < |cpus| ==> cpus[k].capacity.Some?
  {
    forall k :: 0 <= k < |cpus| ==> cpus[k].capacity.value <= cpus[best].capacity.value
  }

  /** For ratings that fit 32 bits. */
  predicate Proportional(rating: nat, best: nat, worth: nat) {
    best < 0x1_0000_0000 ==>
      if rating * 1024 >= best then worth * best <= rating * 1024 < (worth + 1) * best else worth == 1
  }

  lemma {:induction false} CapacityFair(cpus: seq<Cpu>, i: nat)
    requires i < |cpus|
    ensures Fair(cpus, i, CapacityOf(cpus, i))
  {
    if AllRated(cpus) {
      var m := Maximum(cpus);
      var best :| 0 <= best < |cpus| && cpus[best].capacity.value == m;
      assert Best(cpus, best);
      if m < 0x1_0000_0000 {
        ScaleExact(cpus[i].capacity.value, m);
      }
      assert Proportional(cpus[i].capacity.value, m, CapacityOf(cpus, i));
    }
  }

  lemma {:induction false} CapacityAt(cpus: seq<Cpu>, n: nat, i: nat)
    requires i < n <= |cpus| && Distinct(cpus)
    ensures var caps := CpuCapacities(cpus, n);
      cpus[i].logicalId in caps && caps[cpus[i].logicalId] == CapacityOf(cpus, i)
  {
    if i < n - 1 {
      CapacityAt(cpus, n - 1, i);
    }
  }

  lemma {:induction false} CapacitiesScaled(cpus: seq<Cpu>, n: nat)
    requires n <= |cpus|
    ensures Scaled(CpuCapacities(cpus, n))
    ensures CpuCapacities(cpus, n).Keys == set i | 0 <= i < n :: cpus[i].logicalId
  {
    if n > 0 {
      CapacitiesScaled(cpus, n - 1);
      if AllRated(cpus) {
        assert Rated(cpus[n - 1]);
        ScaleOrdered(cpus[n - 1].capacity.value, cpus[n - 1].capacity.value, Maximum(cpus));
      }
      assert (set i | 0 <= i < n :: cpus[i].logicalId)
          == (set i | 0 <= i < n - 1 :: cpus[i].logicalId) + {cpus[n - 1].logicalId};
    }
  }

  // ---------------------------------------------------------------------------
  // What the scheduler accepts
  // ---------------------------------------------------------------------------

  datatype SchedDomain = SchedDomain(id: nat, span: set<nat>, level: nat, parent: Option<nat>, capacity: nat)

  function FirstCpus(n: nat): (s: set<nat>)
    ensures forall c: nat :: c in s <==> c < n
  {
    if n == 0 then {} else FirstCpus(n - 1) + {n - 1}
  }

  function AllCpus(): set<nat> {
    FirstCpus(MAX_CPUS)
  }

  function RootDomain(): SchedDomain {
    SchedDomain(0, AllCpus(), 0, None, MAX_CPUS * SCHED_CAPACITY_SCALE)
  }

  /** Following parents from `child` reaches `ancestor` within `fuel` turns. */
  predicate IsAncestor(domains: seq<SchedDomain>, ancestor: nat, child: nat, fuel: nat)
    requires child < |domains|
    decreases fuel
  {
    match domains[child].parent
    case None => false
    case Some(p) => p == ancestor || (p < |domains| && fuel > 0 && IsAncestor(domains, ancestor, p, fuel - 1))
  }

  /** Following parents from `at` ends before `fuel` turns, and never at `from`. */
  predicate Unwinds(domains: seq<SchedDomain>, from: nat, at: Option<nat>, fuel: nat)
    decreases fuel
  {
    match at
    case None => true
    case Some(p) => p != from && p < |domains| && fuel > 0 && Unwinds(domains, from, domains[p].parent, fuel - 1)
  }

  predicate GoodDomain(domains: seq<SchedDomain>, i: nat)
    requires i < |domains|
  {
    && domains[i].id == i && domains[i].span != {} && domains[i].span <= AllCpus() && domains[i].capacity != 0
    && (i > 0 ==>
          && domains[i].parent.Some? && domains[i].parent.value < |domains| && domains[i].parent.value != i
          && domains[i].span <= domains[domains[i].parent.value].span
          && domains[domains[i].parent.value].level < domains[i].level
          && Unwinds(domains, i, domains[i].parent, |domains|))
  }

  predicate GoodPair(domains: seq<SchedDomain>, i: nat, j: nat)
    requires i < |domains| && j < |domains|
  {
    domains[i].span !! domains[j].span
    || IsAncestor(domains, i, j, |domains|) || IsAncestor(domains, j, i, |domains|)
  }

  predicate AllGood(domains: seq<SchedDomain>) {
    forall i {:trigger GoodDomain(domains, i)} :: 0 <= i < |domains| ==> GoodDomain(domains, i)
  }

  predicate PairsGood(domains: seq<SchedDomain>) {
    forall i, j {:trigger GoodPair(domains, i, j)} :: 1 <= i < j < |domains| ==> GoodPair(domains, i, j)
  }

  /** The conditions under which a domain list becomes a topology. */
  predicate Accepted(domains: seq<SchedDomain>) {
    && 0 < |domains| <= MAX_SCHED_DOMAINS
    && domains[0].id == 0 && AllCpus() <= domains[0].span && domains[0].parent == None
    && AllGood(domains) && PairsGood(domains)
  }

  function PublishedDomain(domain: Domain, id: nat): SchedDomain {
    SchedDomain(id, domain.span, domain.level,
                Some(if domain.parent.Some? then domain.parent.value + 1 else 0), domain.capacity)
  }

  /** The root, then every built domain one place further on. */
  function Published(built: seq<Domain>): seq<SchedDomain> {
    [RootDomain()] + seq(|built|, i requires 0 <= i < |built| => PublishedDomain(built[i], i + 1))
  }

  /** The scheduler's own root first, then every domain as it was built, one place further on. */
  ghost predicate Mirrors(built: seq<Domain>, ds: seq<SchedDomain>) {
    && |ds| == |built| + 1
    && ds[0].level == 0 && ds[0].parent == None && ds[0].capacity == 12 * 1024
    && (forall c: nat :: c in ds[0].span <==> c < 12)
    && forall d :: 0 <= d < |built| ==>
         && ds[d + 1].id == d + 1 && ds[d + 1].span == built[d].span && ds[d + 1].level == built[d].level
         && ds[d + 1].capacity == built[d].capacity
         && ds[d + 1].parent == Some(if built[d].parent.Some? then built[d].parent.value + 1 else 0)
  }

  lemma {:induction false} PublishedMirrors(built: seq<Domain>)
    ensures Mirrors(built, Published(built))
  {
  }

  lemma {:induction false} PublishedUnwinds(full: set<nat>, built: seq<Domain>, from: nat, at: nat, fuel: nat)
    requires Rooted(full, built) && at <= |built| && at < from && at < fuel
    ensures Unwinds(Published(built), from, Some(at), fuel)
  {
    if at > 0 {
      assert Hangs(full, built, at - 1);
      var p := built[at - 1].parent;
      PublishedUnwinds(full, built, from, if p.Some? then p.value + 1 else 0, fuel - 1);
    }
  }

  lemma {:induction false} PublishedAncestor(full: set<nat>, built: seq<Domain>, d: nat, e: nat, fuel: nat)
    requires DomainTree(full, built) && d < |built| && e < |built| && e <= fuel
    requires built[e].span < built[d].span
    ensures IsAncestor(Published(built), d + 1, e + 1, fuel)
  {
    if built[e].parent != Some(d) {
      ParentBelow(full, built, Some(d), e);
      PublishedAncestor(full, built, d, built[e].parent.value, fuel - 1);
    }
  }

  lemma {:induction false} PublishedGood(full: set<nat>, built: seq<Domain>, caps: Capacities, i: nat)
    requires Rooted(full, built) && Weighed(built, caps) && Supported(full)
    requires Scaled(caps) && caps.Keys == full && i < |built|
    ensures GoodDomain(Published(built), i + 1)
  {
    var ds := Published(built);
    var d := built[i];
    assert Hangs(full, built, i);
    SpanInside(full, built, i);
    assert ds[i + 1] == PublishedDomain(d, i + 1);
    var c :| c in d.span;
    TotalBounds(d.span, caps, MAX_CPUS);
    var up := if d.parent.Some? then d.parent.value + 1 else 0;
    PublishedUnwinds(full, built, i + 1, up, |built| + 1);
    if up > 0 {
      assert ds[up] == PublishedDomain(built[up - 1], up);
    }
  }

  lemma {:induction false} PublishedPair(full: set<nat>, built: seq<Domain>, i: nat, j: nat)
    requires DomainTree(full, built) && i < j < |built|
    ensures GoodPair(Published(built), i + 1, j + 1)
  {
    var ds := Published(built);
    assert Laminar.Compatible(built[i].span, built[j].span);
    assert built[i].span != built[j].span;
    assert ds[i + 1].span == built[i].span && ds[j + 1].span == built[j].span;
    if built[i].span < built[j].span {
      PublishedAncestor(full, built, j, i, |ds|);
    } else if built[j].span < built[i].span {
      PublishedAncestor(full, built, i, j, |ds|);
    }
  }

  lemma {:induction false} PublishedAllGood(full: set<nat>, built: seq<Domain>, caps: Capacities)
    requires Rooted(full, built) && Weighed(built, caps) && Supported(full)
    requires Scaled(caps) && caps.Keys == full
    ensures AllGood(Published(built))
  {
    var ds := Published(built);
    forall i | 0 <= i < |ds|
      ensures GoodDomain(ds, i)
    {
      if i > 0 {
        PublishedGood(full, built, caps, i - 1);
      } else {
        assert 0 in AllCpus();
      }
    }
  }

  lemma {:induction false} PublishedPairsGood(full: set<nat>, built: seq<Domain>)
    requires DomainTree(full, built)
    ensures PairsGood(Published(built))
  {
    var ds := Published(built);
    forall i, j | 1 <= i < j < |ds|
      ensures GoodPair(ds, i, j)
    {
      PublishedPair(full, built, i - 1, j - 1);
    }
  }

  /** Whatever the collapse builds, the scheduler accepts. */
  lemma {:induction false} PublishedAccepted(full: set<nat>, built: seq<Domain>, caps: Capacities)
    requires DomainTree(full, built) && Weighed(built, caps) && full != {} && Supported(full)
    requires Scaled(caps) && caps.Keys == full
    ensures Accepted(Published(built))
  {
    DomainCount(full, built);
    SmallSet(full, MAX_CPUS);
    PublishedAllGood(full, built, caps);
    PublishedPairsGood(full, built);
  }

  // ---------------------------------------------------------------------------
  // The compiler
  // ---------------------------------------------------------------------------

  /** The entries whose id the scheduler can represent, in order. */
  function Usable(entries: seq<Cpu>): seq<Cpu> {
    if |entries| == 0 then []
    else
      var rest := Usable(entries[..|entries| - 1]);
      if entries[|entries| - 1].logicalId < MAX_CPUS then rest + [entries[|entries| - 1]] else rest
  }

  /** Usable are the entries with an id below twelve, and no others. */
  lemma {:induction false} UsableMeans(entries: seq<Cpu>, c: Cpu)
    ensures c in Usable(entries) <==> c in entries && c.logicalId < 12
  {
    if |entries| > 0 {
      var n := |entries| - 1;
      UsableMeans(entries[..n], c);
      assert entries == entries[..n] + [entries[n]];
    }
  }

  /** Two entries with the same id below twelve. */
  ghost predicate Repeats(entries: seq<Cpu>) {
    exists i, j :: 0 <= i < j < |entries| && entries[i].logicalId == entries[j].logicalId < 12
  }

  ghost predicate Listed(entries: seq<Cpu>, id: nat) {
    exists c :: c in entries && c.logicalId == id
  }

  lemma {:induction false} UsableListed(entries: seq<Cpu>, id: nat)
    requires id < 12
    ensures Listed(entries, id) <==> Listed(Usable(entries), id)
  {
    if Listed(entries, id) {
      var c :| c in entries && c.logicalId == id;
      UsableMeans(entries, c);
    }
    if Listed(Usable(entries), id) {
      var c :| c in Usable(entries) && c.logicalId == id;
      UsableMeans(entries, c);
    }
  }

  lemma {:induction false} RepeatsMeans(entries: seq<Cpu>)
    ensures Repeats(entries) <==> !Distinct(Usable(entries))
  {
    if |entries| > 0 {
      var n := |entries| - 1;
      var front, last := entries[..n], entries[n];
      assert entries == front + [last];
      RepeatsMeans(front);
      RepeatsSnoc(front, last);
      if last.logicalId < 12 {
        DistinctSnoc(Usable(front), last);
        UsableListed(front, last.logicalId);
      }
    }
  }

  lemma {:induction false} RepeatsSnoc(front: seq<Cpu>, last: Cpu)
    ensures Repeats(front + [last]) <==>
      Repeats(front) || (last.logicalId < 12 && Listed(front, last.logicalId))
  {
    var all := front + [last];
    assert forall i :: 0 <= i < |front| ==> all[i] == front[i];
    if Repeats(front) {
      var i, j :| 0 <= i < j < |front| && front[i].logicalId == front[j].logicalId < 12;
      assert all[i].logicalId == all[j].logicalId < 12;
    }
    if last.logicalId < 12 && Listed(front, last.logicalId) {
      var c :| c in front && c.logicalId == last.logicalId;
      var i :| 0 <= i < |front| && front[i] == c;
      assert all[i].logicalId == all[|front|].logicalId < 12;
    }
    if Repeats(all) {
      var i, j :| 0 <= i < j < |all| && all[i].logicalId == all[j].logicalId < 12;
      if j == |front| {
        assert front[i] in front;
      } else {
        assert front[i].logicalId == front[j].logicalId < 12;
      }
    }
  }

  lemma {:induction false} DistinctSnoc(front: seq<Cpu>, last: Cpu)
    ensures Distinct(front + [last]) <==> Distinct(front) && !Listed(front, last.logicalId)
  {
    var all := front + [last];
    assert forall i :: 0 <= i < |front| ==> all[i] == front[i];
    if Distinct(all) {
      forall c | c in front
        ensures c.logicalId != last.logicalId
      {
        var i :| 0 <= i < |front| && front[i] == c;
        assert all[i].logicalId != all[|front|].logicalId;
      }
      assert forall i, j :: 0 <= i < j < |front| ==> all[i].logicalId != all[j].logicalId;
    }
    if Distinct(front) && !Listed(front, last.logicalId) {
      forall i, j | 0 <= i < j < |all|
        ensures all[i].logicalId != all[j].logicalId
      {
        assert front[i] in front;
      }
    }
  }

  lemma {:induction false} UsableSupported(entries: seq<Cpu>)
    ensures forall c :: c in Usable(entries) ==> c.logicalId < MAX_CPUS
  {
    if |entries| > 0 {
      UsableSupported(entries[..|entries| - 1]);
    }
  }

  lemma {:induction false} UsableStep(entries: seq<Cpu>, i: nat)
    requires i < |entries|
    ensures Usable(entries[..i + 1]) ==
      Usable(entries[..i]) + (if entries[i].logicalId < MAX_CPUS then [entries[i]] else [])
  {
    assert entries[..i + 1][..i] == entries[..i];
  }

  function Ids(cpus: seq<Cpu>): set<nat> {
    set i | 0 <= i < |cpus| :: cpus[i].logicalId
  }

  predicate Placed(cpu: Cpu) {
    cpu.socket.Some? || |cpu.clusters| > 0 || cpu.core.Some? || cpu.thread.Some?
  }

  predicate AnyPlaced(cpus: seq<Cpu>) {
    exists i :: 0 <= i < |cpus| && Placed(cpus[i])
  }

  predicate NothingSaid(cpus: seq<Cpu>) {
    |cpus| == 0 || (!AnyPlaced(cpus) && !AllRated(cpus))
  }

  /** The entries say nothing: there are none, or no field places a CPU and some rating is missing or zero. */
  ghost predicate SaysNothing(cpus: seq<Cpu>) {
    || cpus == []
    || ((forall i :: 0 <= i < |cpus| ==>
           cpus[i].socket == None && cpus[i].clusters == [] && cpus[i].core == None && cpus[i].thread == None)
        && exists i :: 0 <= i < |cpus| && (cpus[i].capacity == None || cpus[i].capacity == Some(0)))
  }

  lemma {:induction false} NothingMeans(cpus: seq<Cpu>)
    ensures NothingSaid(cpus) <==> SaysNothing(cpus)
  {
  }

  lemma {:induction false} ChainKeys(cpus: seq<Cpu>)
    requires Distinct(cpus)
    ensures ChainsOf(cpus).Keys == Ids(cpus)
  {
    forall c
      ensures c in ChainsOf(cpus) <==> c in Ids(cpus)
    {
      ChainsOfAt(cpus, c);
    }
  }

  lemma {:induction false} Appended(cpus: seq<Cpu>, cpu: Cpu)
    requires Distinct(cpus)
    ensures Ids(cpus + [cpu]) == Ids(cpus) + {cpu.logicalId}
    ensures Distinct(cpus + [cpu]) <==> cpu.logicalId !in Ids(cpus)
  {
    var next := cpus + [cpu];
    forall c | c in Ids(cpus) + {cpu.logicalId}
      ensures c in Ids(next)
    {
      if c in Ids(cpus) {
        var i :| 0 <= i < |cpus| && cpus[i].logicalId == c;
        assert next[i].logicalId == c;
      } else {
        assert next[|cpus|].logicalId == c;
      }
    }
    if cpu.logicalId in Ids(cpus) {
      var i :| 0 <= i < |cpus| && cpus[i].logicalId == cpu.logicalId;
      assert next[i].logicalId == next[|cpus|].logicalId;
    }
  }

  /** Selects the usable entries; a repeated id among them is an error. */
  method SelectCpus(entries: seq<Cpu>) returns (r: Result<seq<Cpu>, Errno>, mask: set<nat>)
    ensures r.Ok? <==> Distinct(Usable(entries))
    ensures r.Ok? ==> r.value == Usable(entries) && mask == Ids(r.value)
    ensures r.Err? ==> r.error == EINVAL
  {
    var cpus: seq<Cpu> := [];
    mask := {};
    var i := 0;
    while i < |entries|
      invariant i <= |entries| && cpus == Usable(entries[..i]) && mask == Ids(cpus) && Distinct(cpus)
    {
      UsableStep(entries, i);
      var cpu := entries[i];
      if cpu.logicalId < MAX_CPUS {
        Appended(cpus, cpu);
        if cpu.logicalId in mask {
          RepeatStays(entries, i + 1);
          r := Err(EINVAL);
          return;
        }
        mask := mask + {cpu.logicalId};
        cpus := cpus + [cpu];
      }
      i := i + 1;
    }
    assert entries[..i] == entries;
    r := Ok(cpus);
  }

  lemma {:induction false} RepeatStays(entries: seq<Cpu>, n: nat)
    requires n <= |entries| && !Distinct(Usable(entries[..n]))
    ensures !Distinct(Usable(entries))
  {
    UsablePrefix(entries, n);
    var part, whole := Usable(entries[..n]), Usable(entries);
    var i, j :| 0 <= i < j < |part| && part[i].logicalId == part[j].logicalId;
    assert whole[i] == part[i] && whole[j] == part[j];
  }

  lemma {:induction false} UsablePrefix(entries: seq<Cpu>, n: nat)
    requires n <= |entries|
    ensures Usable(entries[..n]) <= Usable(entries)
    decreases |entries| - n
  {
    if n < |entries| {
      UsablePrefix(entries, n + 1);
      UsableStep(entries, n);
    } else {
      assert entries[..n] == entries;
    }
  }

  /** The CPUs below a key. */
  ghost function MaskOf(cpus: seq<Cpu>, key: Key): set<nat> {
    set i | 0 <= i < |cpus| && key in Chain(cpus[i]) :: cpus[i].logicalId
  }

  ghost predicate HasSpan(built: seq<Domain>, mask: set<nat>) {
    exists d :: 0 <= d < |built| && built[d].span == mask
  }

  ghost predicate KeySpan(cpus: seq<Cpu>, mask: set<nat>) {
    exists i, j :: 0 <= i < |cpus| && 0 <= j < |Chain(cpus[i])| && MaskOf(cpus, Chain(cpus[i])[j]) == mask
  }

  /** The CPUs of one socket. */
  ghost function SocketSet(cpus: seq<Cpu>, socket: nat): set<nat> {
    set i | 0 <= i < |cpus| && cpus[i].socket == Some(socket) :: cpus[i].logicalId
  }

  /** The CPUs below one cluster: in the given socket or none, with a cluster path that starts like this. */
  ghost function ClusterSet(cpus: seq<Cpu>, socket: Option<nat>, path: seq<nat>): set<nat> {
    set i | 0 <= i < |cpus| && cpus[i].socket == socket && path <= cpus[i].clusters :: cpus[i].logicalId
  }

  /** The threads of one core: same socket, same whole cluster path, same core. */
  ghost function CoreSet(cpus: seq<Cpu>, socket: Option<nat>, path: seq<nat>, core: nat): set<nat> {
    set i | 0 <= i < |cpus| && cpus[i].socket == socket && cpus[i].clusters == path && cpus[i].core == Some(core)
      :: cpus[i].logicalId
  }

  /** A set of CPUs the entries themselves put together: a socket, a cluster, a core or a single CPU. */
  ghost predicate Together(cpus: seq<Cpu>, mask: set<nat>) {
    mask != {} &&
    (|| (exists socket :: mask == SocketSet(cpus, socket))
     || (exists socket, path :: path != [] && mask == ClusterSet(cpus, socket, path))
     || (exists socket, path, core :: mask == CoreSet(cpus, socket, path, core))
     || (exists id :: id in Ids(cpus) && mask == {id}))
  }

  /** The spans are exactly the sets the entries put together, apart from the set of all CPUs. */
  ghost predicate ExactSpans(cpus: seq<Cpu>, built: seq<Domain>) {
    forall mask :: HasSpan(built, mask) <==> Together(cpus, mask) && mask != Ids(cpus)
  }

  /** Which CPUs are below a key, by their fields. */
  predicate Belongs(cpu: Cpu, key: Key) {
    match key
    case SocketKey(s) => cpu.socket == Some(s)
    case ClusterKey(s, p) => cpu.socket == s && p != [] && p <= cpu.clusters
    case CoreKey(s, p, c) => cpu.socket == s && cpu.clusters == p && cpu.core == Some(c)
    case CpuKey(id) => cpu.logicalId == id
  }

  lemma {:induction false} InClusterChain(socket: Option<nat>, path: seq<nat>, n: nat, key: Key)
    requires n <= |path|
    ensures key in ClusterChain(socket, path, n) <==>
      || (key.SocketKey? && socket == Some(key.id))
      || (key.ClusterKey? && key.socket == socket && key.path != [] && key.path <= path[..n])
  {
    if n > 0 {
      InClusterChain(socket, path, n - 1, key);
      var last := ClusterKey(socket, path[..n]);
      assert key in ClusterChain(socket, path, n) <==> key in ClusterChain(socket, path, n - 1) || key == last;
      if key.ClusterKey? {
        PrefixOrWhole(key.path, path, n);
      }
    }
  }

  lemma {:induction false} PrefixOrWhole(p: seq<nat>, path: seq<nat>, n: nat)
    requires 0 < n <= |path|
    ensures p <= path[..n] <==> p <= path[..n - 1] || p == path[..n]
  {
    if p <= path[..n] && |p| < n {
      assert p == path[..|p|] == path[..n - 1][..|p|];
    }
    if p <= path[..n - 1] {
      assert p == path[..n - 1][..|p|] == path[..n][..|p|];
    }
  }

  lemma {:induction false} InChain(cpu: Cpu, key: Key)
    ensures key in Chain(cpu) <==> Belongs(cpu, key)
  {
    var n := |cpu.clusters|;
    InClusterChain(cpu.socket, cpu.clusters, n, key);
    assert cpu.clusters[..n] == cpu.clusters;
  }

  lemma {:induction false} MaskByFields(cpus: seq<Cpu>, key: Key)
    ensures MaskOf(cpus, key) ==
      match key
      case SocketKey(s) => SocketSet(cpus, s)
      case ClusterKey(s, p) => if p == [] then {} else ClusterSet(cpus, s, p)
      case CoreKey(s, p, c) => CoreSet(cpus, s, p, c)
      case CpuKey(id) => if id in Ids(cpus) then {id} else {}
  {
    forall i | 0 <= i < |cpus|
      ensures key in Chain(cpus[i]) <==> Belongs(cpus[i], key)
    {
      InChain(cpus[i], key);
    }
    assert MaskOf(cpus, key) == (set i | 0 <= i < |cpus| && Belongs(cpus[i], key) :: cpus[i].logicalId);
  }

  /** A set below a key that is not empty is one below the key of some CPU. */
  lemma {:induction false} SomeKey(cpus: seq<Cpu>, key: Key)
    requires MaskOf(cpus, key) != {}
    ensures KeySpan(cpus, MaskOf(cpus, key))
  {
    var c :| c in MaskOf(cpus, key);
    var i :| 0 <= i < |cpus| && key in Chain(cpus[i]) && cpus[i].logicalId == c;
    var j :| 0 <= j < |Chain(cpus[i])| && Chain(cpus[i])[j] == key;
  }

  lemma {:induction false} KeyTogether(cpus: seq<Cpu>, mask: set<nat>)
    requires KeySpan(cpus, mask)
    ensures Together(cpus, mask)
  {
    var i, j :| 0 <= i < |cpus| && 0 <= j < |Chain(cpus[i])| && MaskOf(cpus, Chain(cpus[i])[j]) == mask;
    var key := Chain(cpus[i])[j];
    assert cpus[i].logicalId in mask;
    MaskByFields(cpus, key);
    InChain(cpus[i], key);
  }

  lemma {:induction false} TogetherKey(cpus: seq<Cpu>, mask: set<nat>)
    requires Together(cpus, mask)
    ensures KeySpan(cpus, mask)
  {
    if socket :| mask == SocketSet(cpus, socket) {
      MaskByFields(cpus, SocketKey(socket));
      SomeKey(cpus, SocketKey(socket));
    } else if socket, path :| path != [] && mask == ClusterSet(cpus, socket, path) {
      MaskByFields(cpus, ClusterKey(socket, path));
      SomeKey(cpus, ClusterKey(socket, path));
    } else if socket, path, core :| mask == CoreSet(cpus, socket, path, core) {
      MaskByFields(cpus, CoreKey(socket, path, core));
      SomeKey(cpus, CoreKey(socket, path, core));
    } else {
      var id :| id in Ids(cpus) && mask == {id};
      MaskByFields(cpus, CpuKey(id));
      SomeKey(cpus, CpuKey(id));
    }
  }

  lemma {:induction false} GroupInMask(cpus: seq<Cpu>, g: Group, c: nat)
    requires Distinct(cpus) && Coherent(ChainsOf(cpus)) && IsGroup(ChainsOf(cpus), g) && c in g.mask
    ensures c in MaskOf(cpus, g.key)
  {
    ChainsOfAt(cpus, c);
    var i :| 0 <= i < |cpus| && cpus[i].logicalId == c;
    assert Chain(cpus[i])[g.depth - 1] == g.key;
  }

  lemma {:induction false} MaskInGroup(cpus: seq<Cpu>, g: Group, c: nat)
    requires Distinct(cpus) && Coherent(ChainsOf(cpus)) && IsGroup(ChainsOf(cpus), g) && c in MaskOf(cpus, g.key)
    ensures c in g.mask
  {
    var ch := ChainsOf(cpus);
    var i :| 0 <= i < |cpus| && g.key in Chain(cpus[i]) && cpus[i].logicalId == c;
    ChainsOfAt(cpus, c);
    var j :| 0 <= j < |ch[c]| && ch[c][j] == g.key;
    GroupPosition(ch, g, c, j);
  }

  lemma {:induction false} GroupMask(cpus: seq<Cpu>, g: Group)
    requires Distinct(cpus) && Coherent(ChainsOf(cpus)) && IsGroup(ChainsOf(cpus), g)
    ensures g.mask == MaskOf(cpus, g.key) && KeySpan(cpus, g.mask)
  {
    var mask := MaskOf(cpus, g.key);
    forall c
      ensures c in g.mask <==> c in mask
    {
      if c in g.mask {
        GroupInMask(cpus, g, c);
      }
      if c in mask {
        MaskInGroup(cpus, g, c);
      }
    }
    GroupSpan(cpus, g);
  }

  lemma {:induction false} GroupSpan(cpus: seq<Cpu>, g: Group)
    requires Distinct(cpus) && IsGroup(ChainsOf(cpus), g) && g.mask == MaskOf(cpus, g.key)
    ensures KeySpan(cpus, g.mask)
  {
    var c :| c in g.mask;
    ChainsOfAt(cpus, c);
    var i :| 0 <= i < |cpus| && cpus[i].logicalId == c;
    assert Chain(cpus[i])[g.depth - 1] == g.key;
  }

  lemma {:induction false} SpansExact(cpus: seq<Cpu>, groups: seq<Group>, resolved: Resolved, built: seq<Domain>)
    requires Distinct(cpus) && Coherent(ChainsOf(cpus)) && GroupsOf(ChainsOf(cpus), groups)
    requires DomainTree(Ids(cpus), built) && FromGroups(built, groups)
    requires AllStand(Ids(cpus), built, resolved, groups, |groups|)
    ensures ExactSpans(cpus, built)
  {
    forall mask
      ensures HasSpan(built, mask) <==> Together(cpus, mask) && mask != Ids(cpus)
    {
      if HasSpan(built, mask) {
        var d :| 0 <= d < |built| && built[d].span == mask;
        assert SomeMask(groups, built[d].span);
        var n :| 0 <= n < |groups| && groups[n].mask == built[d].span;
        GroupMask(cpus, groups[n]);
        KeyTogether(cpus, mask);
        SpanInside(Ids(cpus), built, d);
      }
      if Together(cpus, mask) && mask != Ids(cpus) {
        TogetherKey(cpus, mask);
        KeyHasSpan(cpus, groups, resolved, built, mask);
      }
    }
  }

  lemma {:induction false} KeyGroup(cpus: seq<Cpu>, groups: seq<Group>, i: nat, j: nat) returns (n: nat)
    requires Distinct(cpus) && Coherent(ChainsOf(cpus)) && GroupsOf(ChainsOf(cpus), groups)
    requires i < |cpus| && j < |Chain(cpus[i])|
    ensures n < |groups| && groups[n].mask == MaskOf(cpus, Chain(cpus[i])[j])
  {
    var c := cpus[i].logicalId;
    ChainsOfAt(cpus, c);
    assert Present(groups, ChainsOf(cpus)[c][j]);
    n :| 0 <= n < |groups| && groups[n].key == Chain(cpus[i])[j];
    assert groups[n] in groups;
    GroupMask(cpus, groups[n]);
  }

  lemma {:induction false} KeyHasSpan(cpus: seq<Cpu>, groups: seq<Group>, resolved: Resolved,
                                      built: seq<Domain>, mask: set<nat>)
    requires Distinct(cpus) && Coherent(ChainsOf(cpus)) && GroupsOf(ChainsOf(cpus), groups)
    requires AllStand(Ids(cpus), built, resolved, groups, |groups|)
    requires KeySpan(cpus, mask) && mask != Ids(cpus)
    ensures HasSpan(built, mask)
  {
    var i, j :| 0 <= i < |cpus| && 0 <= j < |Chain(cpus[i])| && MaskOf(cpus, Chain(cpus[i])[j]) == mask;
    var n := KeyGroup(cpus, groups, i, j);
    assert Stands(Ids(cpus), built, resolved[groups[n].key], groups[n].mask);
  }

  method CompileCpus(cpus: seq<Cpu>, mask: set<nat>) returns (error: Option<Errno>, built: seq<Domain>)
    requires Distinct(cpus) && cpus != [] && mask == Ids(cpus) && Supported(mask)
    ensures error == None && DomainTree(mask, built) && Weighed(built, CpuCapacities(cpus, |cpus|))
    ensures |built| <= 2 * |mask| - 2 && ExactSpans(cpus, built)
  {
    ChainsTipped(cpus);
    ChainKeys(cpus);
    CapacitiesScaled(cpus, |cpus|);
    assert cpus[0].logicalId in mask;
    var groups := BuildGroups(cpus);
    var sorted := SortGroups(groups.value);
    ReorderedGroups(ChainsOf(cpus), groups.value, sorted);
    var resolved;
    error, built, resolved := BuildDomains(ChainsOf(cpus), sorted, mask, CpuCapacities(cpus, |cpus|));
    SpansExact(cpus, sorted, resolved, built);
  }

  /** What the compiler promises about a topology it returns. */
  ghost predicate Compiled(cpus: seq<Cpu>, built: seq<Domain>, ds: seq<SchedDomain>) {
    && Distinct(cpus)
    && DomainTree(Ids(cpus), built) && Weighed(built, CpuCapacities(cpus, |cpus|))
    && |built| <= 2 * |Ids(cpus)| - 2 && ExactSpans(cpus, built)
    && Mirrors(built, ds) && Accepted(ds)
    && (forall i :: 0 <= i < |cpus| ==>
          var caps := CpuCapacities(cpus, |cpus|); cpus[i].logicalId in caps && Fair(cpus, i, caps[cpus[i].logicalId]))
  }

  /**
    * The whole compiler. A repeated usable id is the only error; entries without any placement and
    * without complete ratings give no topology; everything else gives an accepted domain tree.
    */
  method FirmwareTopology(entries: seq<Cpu>) returns (r: Result<Option<seq<SchedDomain>>, Errno>, ghost built: seq<Domain>)
    ensures r.Err? <==> Repeats(entries)
    ensures r.Err? ==> r.error == EINVAL
    ensures r == Ok(None) <==> !Repeats(entries) && SaysNothing(Usable(entries))
    ensures r.Ok? && r.value.Some? ==> Compiled(Usable(entries), built, r.value.value)
  {
    built := [];
    RepeatsMeans(entries);
    NothingMeans(Usable(entries));
    var selected, mask := SelectCpus(entries);
    if selected.Err? {
      r := Err(selected.error);
      return;
    }
    var cpus := selected.value;
    if NothingSaid(cpus) {
      r := Ok(None);
      return;
    }
    UsableSupported(entries);
    var error, domains := CompileCpus(cpus, mask);
    built := domains;
    CapacitiesScaled(cpus, |cpus|);
    PublishedAccepted(mask, domains, CpuCapacities(cpus, |cpus|));
    PublishedMirrors(domains);
    AllFair(cpus);
    r := Ok(Some(Published(domains)));
  }

  lemma {:induction false} AllFair(cpus: seq<Cpu>)
    requires Distinct(cpus)
    ensures forall i :: 0 <= i < |cpus| ==>
      var caps := CpuCapacities(cpus, |cpus|); cpus[i].logicalId in caps && Fair(cpus, i, caps[cpus[i].logicalId])
  {
    forall i | 0 <= i < |cpus|
      ensures var caps := CpuCapacities(cpus, |cpus|); cpus[i].logicalId in caps && Fair(cpus, i, caps[cpus[i].logicalId])
    {
      CapacityAt(cpus, |cpus|, i);
      CapacityFair(cpus, i);
    }
  }
}
