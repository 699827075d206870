/** The finished domain tree: leaves, closest parents, and capacity conservation. */
module TopologyTree {
  import opened Outcomes
  import opened TopologyGroups
  import opened TopologyDomains
  import Laminar

  /** A CPU's own key closes its chain and occurs in no other. */
  ghost predicate Tipped(ch: Chains) {
    forall c {:trigger ch[c]} :: c in ch ==>
      && |ch[c]| > 0 && ch[c][|ch[c]| - 1] == CpuKey(c)
      && forall j :: 0 <= j < |ch[c]| - 1 ==> !ch[c][j].CpuKey?
  }

  lemma {:induction false} ChainsTipped(cpus: seq<Cpu>)
    requires Distinct(cpus)
    ensures Tipped(ChainsOf(cpus)) && Coherent(ChainsOf(cpus))
  {
    var ch := ChainsOf(cpus);
    forall c | c in ch
      ensures |ch[c]| > 0 && ch[c][|ch[c]| - 1] == CpuKey(c)
      ensures forall j :: 0 <= j < |ch[c]| - 1 ==> !ch[c][j].CpuKey?
    {
      ChainsOfAt(cpus, c);
      var m :| 0 <= m < |cpus| && cpus[m].logicalId == c;
      forall j | 0 <= j < |ch[c]| - 1
        ensures !ch[c][j].CpuKey?
      {
        ChainPrefix(cpus[m], j);
      }
    }
    ChainsOfPartial(cpus, |cpus|);
    assert cpus[..|cpus|] == cpus;
    PartialCoherent(cpus, ch);
  }

  /** If `d` lies strictly inside `e`, so does its parent, unless that is `e` itself. */
  ghost predicate Below(built: seq<Domain>, d: nat, e: nat)
    requires d < |built| && e < |built|
  {
    built[d].span < built[e].span ==>
      && built[d].parent.Some? && built[d].parent.value < |built|
      && built[built[d].parent.value].span <= built[e].span
  }

  /** No domain lies strictly between a domain and its parent. */
  ghost predicate Closest(built: seq<Domain>) {
    forall d, e {:trigger Below(built, d, e)} :: 0 <= d < |built| && 0 <= e < |built| ==> Below(built, d, e)
  }

  ghost predicate HasLeaf(built: seq<Domain>, c: nat) {
    exists d :: 0 <= d < |built| && built[d].span == {c}
  }

  /** Unless there is only one CPU, every CPU has a domain of its own. */
  ghost predicate Leaved(full: set<nat>, built: seq<Domain>) {
    forall c :: c in full && full != {c} ==> HasLeaf(built, c)
  }

  /** Parents first, each span strictly inside its parent's, any two spans nested or apart and never equal. */
  ghost predicate DomainTree(full: set<nat>, built: seq<Domain>) {
    Rooted(full, built) && Differ(built) && Nested(built) && Closest(built) && Leaved(full, built)
  }

  lemma {:induction false} OriginsClosest(ch: Chains, groups: seq<Group>, full: set<nat>,
                                          resolved: Resolved, built: seq<Domain>, origin: seq<nat>, d: nat, e: nat)
    requires Ready(ch, groups, full) && Progress(full, groups, |groups|, resolved, built, origin)
    requires d < |built| && e < |built| && built[d].span < built[e].span
    ensures Below(built, d, e)
  {
    assert ComesFrom(built, resolved, groups, origin, d) && ComesFrom(built, resolved, groups, origin, e);
    var g, h := groups[origin[d]], groups[origin[e]];
    assert IsGroup(ch, g) && IsGroup(ch, h);
    var c :| c in g.mask;
    if g.depth <= h.depth {
      Shared(ch, g, h, c);
      assert false;
    }
    var p := ParentInside(ch, groups, g, h);
    var j :| 0 <= j < |groups| && groups[j] == p;
    assert Stands(full, built, resolved[groups[j].key], groups[j].mask);
    SpanInside(full, built, e);
  }

  lemma {:induction false} OwnGroup(ch: Chains, groups: seq<Group>, c: nat) returns (g: Group)
    requires Coherent(ch) && GroupsOf(ch, groups) && Tipped(ch) && c in ch
    ensures g in groups && g.mask == {c}
  {
    var at: nat := |ch[c]| - 1;
    assert Present(groups, ch[c][at]);
    g :| g in groups && g.key == CpuKey(c);
    GroupPosition(ch, g, c, at);
    forall d | d in g.mask
      ensures d == c
    {
      assert Holds(ch[d], g);
      assert ch[d][at].CpuKey?;
    }
    assert g.mask == {c};
  }

  lemma {:induction false} OriginsLeaved(ch: Chains, groups: seq<Group>, full: set<nat>,
                                         resolved: Resolved, built: seq<Domain>, c: nat)
    requires Ready(ch, groups, full) && Tipped(ch) && AllStand(full, built, resolved, groups, |groups|)
    requires c in full && full != {c}
    ensures HasLeaf(built, c)
  {
    var g := OwnGroup(ch, groups, c);
    var j :| 0 <= j < |groups| && groups[j] == g;
    assert Stands(full, built, resolved[groups[j].key], groups[j].mask);
  }

  lemma {:induction false} FinishedTree(ch: Chains, groups: seq<Group>, full: set<nat>,
                                        resolved: Resolved, built: seq<Domain>, origin: seq<nat>)
    requires Ready(ch, groups, full) && Tipped(ch) && Progress(full, groups, |groups|, resolved, built, origin)
    ensures DomainTree(full, built)
  {
    OriginsNested(ch, groups, full, |groups|, resolved, built, origin);
    forall d, e | 0 <= d < |built| && 0 <= e < |built|
      ensures Below(built, d, e)
    {
      if built[d].span < built[e].span {
        OriginsClosest(ch, groups, full, resolved, built, origin, d, e);
      }
    }
    forall c | c in full && full != {c}
      ensures HasLeaf(built, c)
    {
      OriginsLeaved(ch, groups, full, resolved, built, c);
    }
  }

  // ---------------------------------------------------------------------------
  // The collapse
  // ---------------------------------------------------------------------------

  ghost predicate SomeMask(groups: seq<Group>, mask: set<nat>) {
    exists i :: 0 <= i < |groups| && groups[i].mask == mask
  }

  ghost predicate FromGroups(built: seq<Domain>, groups: seq<Group>) {
    forall d {:trigger SomeMask(groups, built[d].span)} :: 0 <= d < |built| ==> SomeMask(groups, built[d].span)
  }

  lemma {:induction false} OriginsFrom(full: set<nat>, groups: seq<Group>, resolved: Resolved,
                                       built: seq<Domain>, origin: seq<nat>)
    requires Progress(full, groups, |groups|, resolved, built, origin)
    ensures FromGroups(built, groups)
  {
    forall d | 0 <= d < |built|
      ensures SomeMask(groups, built[d].span)
    {
      assert ComesFrom(built, resolved, groups, origin, d);
    }
  }

  /** The whole loop: it never fails, and every group resolves to a domain with exactly its CPUs. */
  method BuildDomains(ghost ch: Chains, groups: seq<Group>, full: set<nat>, caps: Capacities)
    returns (error: Option<Errno>, built: seq<Domain>, resolved: Resolved)
    requires Ready(ch, groups, full) && Tipped(ch)
    requires full != {} && Supported(full) && Scaled(caps) && caps.Keys == full
    ensures error == None && DomainTree(full, built) && Weighed(built, caps)
    ensures |built| <= 2 * |full| - 2
    ensures AllStand(full, built, resolved, groups, |groups|) && FromGroups(built, groups)
  {
    error, built, resolved := None, [], map[];
    ghost var origin: seq<nat> := [];
    var i := 0;
    while i < |groups|
      invariant i <= |groups| && Progress(full, groups, i, resolved, built, origin) && Weighed(built, caps)
      invariant error == None
    {
      error, resolved, built, origin := ResolveGroup(ch, groups, i, full, caps, resolved, built, origin);
      if error.Some? {
        return;
      }
      i := i + 1;
    }
    OriginsNested(ch, groups, full, i, resolved, built, origin);
    DomainCount(full, built);
    FinishedTree(ch, groups, full, resolved, built, origin);
    OriginsFrom(full, groups, resolved, built, origin);
  }

  /** One turn of the loop. */
  method ResolveGroup(ghost ch: Chains, groups: seq<Group>, i: nat, full: set<nat>, caps: Capacities,
                      resolved: Resolved, built: seq<Domain>, ghost origin: seq<nat>)
    returns (error: Option<Errno>, resolved': Resolved, built': seq<Domain>, ghost origin': seq<nat>)
    requires Ready(ch, groups, full) && i < |groups| && Progress(full, groups, i, resolved, built, origin)
    requires full != {} && Supported(full) && Scaled(caps) && caps.Keys == full && Weighed(built, caps)
    ensures error == None && Progress(full, groups, i + 1, resolved', built', origin') && Weighed(built', caps)
  {
    resolved', built', origin' := resolved, built, origin;
    var group := groups[i];
    ParentSpan(ch, groups, full, i, resolved, built);
    var parent: Option<nat> := None;
    if group.parent.Some? {
      if group.parent.value !in resolved {
        error := Some(EINVAL);
        return;
      }
      parent := resolved[group.parent.value];
    }
    var duplicate := parent.Some? && built[parent.value].span == group.mask;
    if group.mask == full || duplicate {
      CollapseStep(ch, groups, full, i, resolved, built, origin, parent);
      resolved' := resolved[group.key := parent];
      error := None;
    } else {
      Room(ch, groups, full, i, resolved, built, origin, caps);
      var domain;
      error, domain := NewDomain(group, parent, built, caps);
      if error.Some? {
        return;
      }
      PushStep(ch, groups, full, i, resolved, built, origin, domain);
      resolved' := resolved[group.key := Some(|built|)];
      built' := built + [domain];
      origin' := origin + [i];
    }
  }

  /** The table of domains can take one more, so can every level, and no sum overflows. */
  lemma {:induction false} Room(ch: Chains, groups: seq<Group>, full: set<nat>, n: nat,
                                resolved: Resolved, built: seq<Domain>, origin: seq<nat>, caps: Capacities)
    requires Ready(ch, groups, full) && n < |groups| && Progress(full, groups, n, resolved, built, origin)
    requires full != {} && Supported(full) && Scaled(caps) && caps.Keys == full
    ensures |built| + 1 < MAX_SCHED_DOMAINS
    ensures groups[n].mask <= full && 0 < Total(groups[n].mask, caps, MAX_CPUS) < U64
    ensures forall d :: 0 <= d < |built| ==> built[d].level + 1 < 256
  {
    OriginsNested(ch, groups, full, n, resolved, built, origin);
    DomainCount(full, built);
    SmallSet(full, MAX_CPUS);
    assert IsGroup(ch, groups[n]);
    var c :| c in groups[n].mask;
    TotalBounds(groups[n].mask, caps, MAX_CPUS);
    forall d | 0 <= d < |built|
      ensures built[d].level + 1 < 256
    {
      SpanInside(full, built, d);
    }
  }

  /** A full table, a level beyond a byte, and a refused sum are the only errors. */
  method NewDomain(group: Group, parent: Option<nat>, built: seq<Domain>, caps: Capacities)
    returns (error: Option<Errno>, domain: Domain)
    requires parent.Some? ==> parent.value < |built|
    requires Supported(group.mask)
    ensures error == None ==> domain.span == group.mask && domain.parent == parent
    ensures error == None ==> domain.level == (if parent.Some? then built[parent.value].level else 0) + 1
    ensures error == None ==> domain.capacity == Total(group.mask, caps, MAX_CPUS)
    ensures error == None <==>
      && |built| + 1 < MAX_SCHED_DOMAINS
      && (if parent.Some? then built[parent.value].level else 0) + 1 < 256
      && group.mask <= caps.Keys && 0 < Total(group.mask, caps, MAX_CPUS) < U64
    ensures |built| + 1 >= MAX_SCHED_DOMAINS ==> error == Some(E2BIG)
  {
    var above := if parent.Some? then built[parent.value].level else 0;
    domain := Domain(group.mask, parent, above + 1, 0);
    if |built| + 1 >= MAX_SCHED_DOMAINS || above + 1 >= 256 {
      error := Some(E2BIG);
      return;
    }
    var capacity := DomainCapacity(group.mask, caps);
    if capacity.Err? {
      error := Some(capacity.error);
      return;
    }
    error, domain := None, domain.(capacity := capacity.value);
  }

  // ---------------------------------------------------------------------------
  // Capacity conservation
  // ---------------------------------------------------------------------------

  /** The span of a domain, or of all CPUs above the top domains. */
  ghost function SpanOf(full: set<nat>, built: seq<Domain>, at: Option<nat>): set<nat>
    requires at.Some? ==> at.value < |built|
  {
    if at.Some? then built[at.value].span else full
  }

  function ChildSum(built: seq<Domain>, at: Option<nat>, n: nat): nat
    requires n <= |built|
  {
    if n == 0 then 0
    else ChildSum(built, at, n - 1) + (if built[n - 1].parent == at then built[n - 1].capacity else 0)
  }

  ghost function ChildSpan(built: seq<Domain>, at: Option<nat>, n: nat): set<nat>
    requires n <= |built|
  {
    if n == 0 then {}
    else ChildSpan(built, at, n - 1) + (if built[n - 1].parent == at then built[n - 1].span else {})
  }

  lemma {:induction false} ChildSpanHas(built: seq<Domain>, at: Option<nat>, n: nat, c: nat)
    requires n <= |built|
    ensures c in ChildSpan(built, at, n) <==> exists e :: 0 <= e < n && built[e].parent == at && c in built[e].span
  {
    if n > 0 {
      ChildSpanHas(built, at, n - 1, c);
    }
  }

  lemma {:induction false} SiblingsApart(full: set<nat>, built: seq<Domain>, d: nat, e: nat)
    requires DomainTree(full, built) && d < e < |built| && built[d].parent == built[e].parent
    ensures built[d].span !! built[e].span
  {
    assert Laminar.Compatible(built[d].span, built[e].span);
    assert Hangs(full, built, d) && Hangs(full, built, e);
    assert built[d].span != built[e].span;
    assert Below(built, d, e) && Below(built, e, d);
  }

  lemma {:induction false} NextChildApart(full: set<nat>, built: seq<Domain>, at: Option<nat>, n: nat)
    requires DomainTree(full, built) && n < |built| && built[n].parent == at
    ensures ChildSpan(built, at, n) !! built[n].span
  {
    forall c | c in ChildSpan(built, at, n)
      ensures c !in built[n].span
    {
      ChildSpanHas(built, at, n, c);
      var e :| 0 <= e < n && built[e].parent == at && c in built[e].span;
      SiblingsApart(full, built, e, n);
    }
  }

  lemma {:induction false} SumIsTotal(full: set<nat>, built: seq<Domain>, caps: Capacities, at: Option<nat>, n: nat)
    requires DomainTree(full, built) && Weighed(built, caps) && n <= |built|
    ensures ChildSum(built, at, n) == Total(ChildSpan(built, at, n), caps, MAX_CPUS)
  {
    if n == 0 {
      TotalOfNone(caps, MAX_CPUS);
    } else {
      SumIsTotal(full, built, caps, at, n - 1);
      if built[n - 1].parent == at {
        NextChildApart(full, built, at, n - 1);
        TotalUnion(ChildSpan(built, at, n - 1), built[n - 1].span, caps, MAX_CPUS);
      } else {
        assert ChildSpan(built, at, n) == ChildSpan(built, at, n - 1);
      }
    }
  }

  lemma {:induction false} ParentBelow(full: set<nat>, built: seq<Domain>, at: Option<nat>, e: nat)
    requires DomainTree(full, built) && (at.Some? ==> at.value < |built|)
    requires e < |built| && built[e].span < SpanOf(full, built, at) && built[e].parent != at
    ensures built[e].parent.Some? && built[e].parent.value < e
    ensures built[e].span < built[built[e].parent.value].span < SpanOf(full, built, at)
  {
    assert Hangs(full, built, e);
    if at.Some? {
      assert Below(built, e, at.value);
      var p := built[e].parent.value;
      assert built[p].span != built[at.value].span;
    } else {
      SpanInside(full, built, built[e].parent.value);
    }
  }

  /** From any domain strictly inside, the parents lead up to a child. */
  lemma {:induction false} Climb(full: set<nat>, built: seq<Domain>, at: Option<nat>, e: nat, c: nat)
    requires DomainTree(full, built) && (at.Some? ==> at.value < |built|)
    requires e < |built| && c in built[e].span && built[e].span < SpanOf(full, built, at)
    ensures c in ChildSpan(built, at, |built|)
  {
    if built[e].parent == at {
      ChildSpanHas(built, at, |built|, c);
    } else {
      ParentBelow(full, built, at, e);
      Climb(full, built, at, built[e].parent.value, c);
    }
  }

  lemma {:induction false} ChildrenCover(full: set<nat>, built: seq<Domain>, at: Option<nat>)
    requires DomainTree(full, built) && (at.Some? ==> at.value < |built|)
    requires forall c :: SpanOf(full, built, at) != {c}
    ensures ChildSpan(built, at, |built|) == SpanOf(full, built, at)
  {
    var span := SpanOf(full, built, at);
    if at.Some? {
      SpanInside(full, built, at.value);
    }
    forall c | c in span
      ensures c in ChildSpan(built, at, |built|)
    {
      assert full != {c} by {
        assert span != {c};
      }
      assert HasLeaf(built, c);
      var e :| 0 <= e < |built| && built[e].span == {c};
      Climb(full, built, at, e, c);
    }
    forall c | c in ChildSpan(built, at, |built|)
      ensures c in span
    {
      ChildSpanHas(built, at, |built|, c);
      var e :| 0 <= e < |built| && built[e].parent == at && c in built[e].span;
      assert Hangs(full, built, e);
    }
  }

  /** A domain of more than one CPU has exactly the capacity of its children together. */
  lemma {:induction false} CapacityConserved(full: set<nat>, built: seq<Domain>, caps: Capacities, d: nat)
    requires DomainTree(full, built) && Weighed(built, caps) && d < |built|
    requires |built[d].span| > 1
    ensures built[d].capacity == ChildSum(built, Some(d), |built|)
  {
    SumIsTotal(full, built, caps, Some(d), |built|);
    ChildrenCover(full, built, Some(d));
  }

  /** The top domains together have the capacity of all firmware CPUs. */
  lemma {:induction false} TopCapacity(full: set<nat>, built: seq<Domain>, caps: Capacities)
    requires DomainTree(full, built) && Weighed(built, caps) && |full| > 1
    ensures ChildSum(built, None, |built|) == Total(full, caps, MAX_CPUS)
  {
    SumIsTotal(full, built, caps, None, |built|);
    ChildrenCover(full, built, None);
  }

  lemma {:induction false} AtLeastTwo(s: set<nat>, a: nat, b: nat)
    requires a in s && b in s && a != b
    ensures |s| >= 2
  {
    var rest := s - {a};
    assert b in rest && |s| == |rest| + 1;
  }

  /** A single CPU leaves nothing to divide. */
  lemma {:induction false} NothingToDivide(full: set<nat>, built: seq<Domain>)
    requires DomainTree(full, built) && |full| <= 1
    ensures built == []
  {
    if built != [] {
      var span := built[0].span;
      SpanInside(full, built, 0);
      assert Hangs(full, built, 0);
      var c :| c in span;
      var e :| e in full && e !in span;
      AtLeastTwo(full, c, e);
    }
  }

  /** The fixed root capacity is that sum exactly when all twelve CPUs are present at full scale. */
  lemma {:induction false} RootCapacity(full: set<nat>, built: seq<Domain>, caps: Capacities)
    requires DomainTree(full, built) && Weighed(built, caps) && caps.Keys == full && Scaled(caps)
    ensures ChildSum(built, None, |built|) == MAX_CPUS * SCHED_CAPACITY_SCALE <==>
      forall c :: 0 <= c < MAX_CPUS ==> c in full && caps[c] == SCHED_CAPACITY_SCALE
  {
    if |full| > 1 {
      TopCapacity(full, built, caps);
      FullTotal(full, caps, MAX_CPUS);
    } else {
      NothingToDivide(full, built);
      if 0 in full && 1 in full {
        AtLeastTwo(full, 0, 1);
      }
    }
  }

  lemma {:induction false} FullTotal(full: set<nat>, caps: Capacities, n: nat)
    requires caps.Keys == full && Scaled(caps)
    ensures Total(full, caps, n) <= n * SCHED_CAPACITY_SCALE
    ensures Total(full, caps, n) == n * SCHED_CAPACITY_SCALE <==>
      forall c :: 0 <= c < n ==> c in full && caps[c] == SCHED_CAPACITY_SCALE
  {
    if n > 0 {
      FullTotal(full, caps, n - 1);
      assert (forall c :: 0 <= c < n ==> c in full && caps[c] == SCHED_CAPACITY_SCALE) <==>
        (forall c :: 0 <= c < n - 1 ==> c in full && caps[c] == SCHED_CAPACITY_SCALE)
        && n - 1 in full && caps[n - 1] == SCHED_CAPACITY_SCALE;
    }
  }
}
