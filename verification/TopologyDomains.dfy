/** Collapsing CPU groups into a tree of scheduling domains. */
module TopologyDomains {
  import opened Outcomes
  import opened TopologyGroups
  import opened TopologySort
  import Laminar

  const MAX_CPUS: nat := 12
  const MAX_SCHED_DOMAINS: nat := 24
  const SCHED_CAPACITY_SCALE: nat := 1024
  const U64: nat := 0x1_0000_0000_0000_0000

  datatype Domain = Domain(span: set<nat>, parent: Option<nat>, level: nat, capacity: nat)

  type Capacities = map<nat, nat>

  // ---------------------------------------------------------------------------
  // Capacities
  // ---------------------------------------------------------------------------

  /** The capacity of the CPUs of `span` below `n`. */
  function Total(span: set<nat>, caps: Capacities, n: nat): nat {
    if n == 0 then 0
    else Total(span, caps, n - 1) + (if n - 1 in span && n - 1 in caps then caps[n - 1] else 0)
  }

  predicate Supported(span: set<nat>) {
    forall c :: c in span ==> c < MAX_CPUS
  }

  /** The sum over the span; an unlisted CPU, an overflow or a zero sum is an error. */
  method DomainCapacity(span: set<nat>, caps: Capacities) returns (r: Result<nat, Errno>)
    requires Supported(span)
    ensures r.Ok? <==> span <= caps.Keys && 0 < Total(span, caps, MAX_CPUS) < U64
    ensures r.Ok? ==> r.value == Total(span, caps, MAX_CPUS)
  {
    var total: nat := 0;
    var c: nat := 0;
    while c < MAX_CPUS
      invariant c <= MAX_CPUS
      invariant total == Total(span, caps, c) < U64
      invariant forall d :: d in span && d < c ==> d in caps
    {
      if c in span {
        if c !in caps {
          return Err(EINVAL);
        }
        if total + caps[c] >= U64 {
          TotalGrows(span, caps, c + 1, MAX_CPUS);
          return Err(EOVERFLOW);
        }
        total := total + caps[c];
      }
      c := c + 1;
    }
    return if total != 0 then Ok(total) else Err(EINVAL);
  }

  lemma {:induction false} TotalGrows(span: set<nat>, caps: Capacities, m: nat, n: nat)
    requires m <= n
    ensures Total(span, caps, m) <= Total(span, caps, n)
  {
    if m < n {
      TotalGrows(span, caps, m, n - 1);
    }
  }

  lemma {:induction false} TotalUnion(a: set<nat>, b: set<nat>, caps: Capacities, n: nat)
    requires a !! b
    ensures Total(a + b, caps, n) == Total(a, caps, n) + Total(b, caps, n)
  {
    if n > 0 {
      TotalUnion(a, b, caps, n - 1);
    }
  }

  lemma {:induction false} TotalOfNone(caps: Capacities, n: nat)
    ensures Total({}, caps, n) == 0
  {
    if n > 0 {
      TotalOfNone(caps, n - 1);
    }
  }

  /** Every listed capacity lies between one and the scale. */
  ghost predicate Scaled(caps: Capacities) {
    forall c :: c in caps ==> 1 <= caps[c] <= SCHED_CAPACITY_SCALE
  }

  lemma {:induction false} TotalBounds(span: set<nat>, caps: Capacities, n: nat)
    requires Scaled(caps) && span <= caps.Keys
    ensures Total(span, caps, n) <= n * SCHED_CAPACITY_SCALE
    ensures (exists c :: c in span && c < n) ==> Total(span, caps, n) > 0
  {
    if n > 0 {
      TotalBounds(span, caps, n - 1);
    }
  }

  // ---------------------------------------------------------------------------
  // Groups that share a CPU
  // ---------------------------------------------------------------------------

  lemma {:induction false} Shared(ch: Chains, g: Group, h: Group, c: nat)
    requires Coherent(ch) && IsGroup(ch, g) && IsGroup(ch, h)
    requires c in g.mask && c in h.mask && g.depth <= h.depth
    ensures h.mask <= g.mask
    ensures g.depth == h.depth ==> g.key == h.key
  {
    var at: nat := h.depth - 1;
    forall d | d in h.mask
      ensures d in g.mask
    {
      assert Meet(ch[c], ch[d], at, at);
      assert ch[d][g.depth - 1] == ch[d][..at + 1][g.depth - 1] == ch[c][..at + 1][g.depth - 1];
    }
  }

  lemma {:induction false} GroupsCompatible(ch: Chains, g: Group, h: Group)
    requires Coherent(ch) && IsGroup(ch, g) && IsGroup(ch, h)
    ensures Laminar.Compatible(g.mask, h.mask)
  {
    if !(g.mask !! h.mask) {
      var c :| c in g.mask && c in h.mask;
      if g.depth <= h.depth {
        Shared(ch, g, h, c);
      } else {
        Shared(ch, h, g, c);
      }
    }
  }

  lemma {:induction false} ParentGroup(ch: Chains, groups: seq<Group>, g: Group) returns (p: Group)
    requires Coherent(ch) && GroupsOf(ch, groups) && g in groups && g.parent.Some?
    ensures p in groups && p.key == g.parent.value
    ensures p.depth == g.depth - 1 && g.mask <= p.mask
  {
    var c :| c in g.mask;
    assert g.parent == ParentIn(ch[c], g.depth);
    assert Present(groups, ch[c][g.depth - 2]);
    p :| p in groups && p.key == ch[c][g.depth - 2];
    GroupPosition(ch, p, c, g.depth - 2);
    Shared(ch, p, g, c);
  }

  /** A group strictly inside another hangs below a group that is still inside it. */
  lemma {:induction false} ParentInside(ch: Chains, groups: seq<Group>, g: Group, h: Group) returns (p: Group)
    requires Coherent(ch) && GroupsOf(ch, groups) && g in groups && h in groups
    requires g.mask <= h.mask && h.depth < g.depth
    ensures g.parent.Some? && p in groups && p.key == g.parent.value && p.depth == g.depth - 1
    ensures g.mask <= p.mask <= h.mask
  {
    var c :| c in g.mask;
    assert g.parent == ParentIn(ch[c], g.depth);
    p := ParentGroup(ch, groups, g);
    Shared(ch, h, p, c);
  }

  // ---------------------------------------------------------------------------
  // The tree
  // ---------------------------------------------------------------------------

  type Resolved = map<Key, Option<nat>>

  /** What a group resolves to spans exactly its CPUs; no domain stands for all of them. */
  ghost predicate Stands(full: set<nat>, built: seq<Domain>, to: Option<nat>, mask: set<nat>) {
    match to
    case None => mask == full
    case Some(d) => d < |built| && built[d].span == mask
  }

  ghost predicate AllStand(full: set<nat>, built: seq<Domain>, resolved: Resolved, groups: seq<Group>, n: nat)
    requires n <= |groups|
  {
    forall i {:trigger groups[i]} :: 0 <= i < n ==>
      groups[i].key in resolved && Stands(full, built, resolved[groups[i].key], groups[i].mask)
  }

  /** A domain sits strictly inside its parent, one level below it. */
  ghost predicate Hangs(full: set<nat>, built: seq<Domain>, d: nat)
    requires d < |built|
  {
    && built[d].span != {}
    && match built[d].parent
       case None => built[d].span < full && built[d].level == 1
       case Some(p) => p < d && built[d].span < built[p].span && built[d].level == built[p].level + 1
  }

  ghost predicate Rooted(full: set<nat>, built: seq<Domain>) {
    forall d {:trigger Hangs(full, built, d)} :: 0 <= d < |built| ==> Hangs(full, built, d)
  }

  ghost predicate Differ(built: seq<Domain>) {
    forall d, e :: 0 <= d < e < |built| ==> built[d].span != built[e].span
  }

  /** Each domain comes from one of the first `n` groups and hangs where that group's parent resolved. */
  ghost predicate ComesFrom(built: seq<Domain>, resolved: Resolved, groups: seq<Group>, origin: seq<nat>, d: nat)
    requires d < |built| == |origin|
  {
    && origin[d] < |groups|
    && built[d].span == groups[origin[d]].mask
    && match groups[origin[d]].parent
       case None => built[d].parent == None
       case Some(k) => k in resolved && built[d].parent == resolved[k]
  }

  ghost predicate AllCome(built: seq<Domain>, resolved: Resolved, groups: seq<Group>, origin: seq<nat>, n: nat) {
    && |built| == |origin|
    && forall d {:trigger ComesFrom(built, resolved, groups, origin, d)} :: 0 <= d < |built| ==>
         origin[d] < n && ComesFrom(built, resolved, groups, origin, d)
  }

  ghost predicate Weighed(built: seq<Domain>, caps: Capacities) {
    forall d :: 0 <= d < |built| ==> built[d].capacity == Total(built[d].span, caps, MAX_CPUS)
  }

  ghost predicate Seen(groups: seq<Group>, n: nat, k: Key)
    requires n <= |groups|
  {
    exists i :: 0 <= i < n && groups[i].key == k
  }

  /** What holds after the first `n` groups have been resolved. */
  ghost predicate Progress(full: set<nat>, groups: seq<Group>, n: nat,
                           resolved: Resolved, built: seq<Domain>, origin: seq<nat>)
    requires n <= |groups|
  {
    && AllStand(full, built, resolved, groups, n)
    && AllCome(built, resolved, groups, origin, n)
    && Rooted(full, built) && Differ(built)
    && forall k :: k in resolved ==> Seen(groups, n, k)
  }

  /** The input of the collapse: coherent chains and their groups in order of depth. */
  ghost predicate Ready(ch: Chains, groups: seq<Group>, full: set<nat>) {
    Coherent(ch) && GroupsOf(ch, groups) && Sorted(groups) && full == ch.Keys
  }

  lemma {:induction false} DepthBefore(groups: seq<Group>, i: nat, j: nat)
    requires Sorted(groups) && i < |groups| && j < |groups| && groups[i].depth < groups[j].depth
    ensures i < j
  {
  }

  /** The parent of the next group has already been resolved. */
  lemma {:induction false} ParentKnown(ch: Chains, groups: seq<Group>, full: set<nat>, n: nat,
                                       resolved: Resolved, built: seq<Domain>)
    returns (p: Group)
    requires Ready(ch, groups, full) && n < |groups| && AllStand(full, built, resolved, groups, n)
    requires groups[n].parent.Some?
    ensures p in groups && p.key == groups[n].parent.value && p.key in resolved
    ensures Stands(full, built, resolved[p.key], p.mask)
    ensures p.depth == groups[n].depth - 1 && groups[n].mask <= p.mask
  {
    p := ParentGroup(ch, groups, groups[n]);
    var j :| 0 <= j < |groups| && groups[j] == p;
    DepthBefore(groups, j, n);
  }

  ghost function ParentDomain(g: Group, resolved: Resolved): Option<nat>
    requires g.parent.Some? ==> g.parent.value in resolved
  {
    if g.parent.Some? then resolved[g.parent.value] else None
  }

  /** The parent domain spans at least the group; without one the group may span everything. */
  lemma {:induction false} ParentSpan(ch: Chains, groups: seq<Group>, full: set<nat>, n: nat,
                                      resolved: Resolved, built: seq<Domain>)
    requires Ready(ch, groups, full) && n < |groups| && AllStand(full, built, resolved, groups, n)
    ensures groups[n].mask <= full && groups[n].mask != {}
    ensures groups[n].parent.Some? ==> groups[n].parent.value in resolved
    ensures var d := ParentDomain(groups[n], resolved);
      d.Some? ==> d.value < |built| && groups[n].mask <= built[d.value].span
  {
    assert IsGroup(ch, groups[n]);
    if groups[n].parent.Some? {
      var p := ParentKnown(ch, groups, full, n, resolved, built);
    }
  }

  /** A group with new CPUs has a span no domain has yet. */
  lemma {:induction false} NewSpan(ch: Chains, groups: seq<Group>, full: set<nat>, n: nat,
                                   resolved: Resolved, built: seq<Domain>, i: nat)
    requires Ready(ch, groups, full) && n < |groups| && AllStand(full, built, resolved, groups, n)
    requires groups[n].parent.Some? ==> groups[n].parent.value in resolved
    requires groups[n].mask != full
    requires var d := ParentDomain(groups[n], resolved);
      d.Some? ==> d.value < |built| && groups[n].mask != built[d.value].span
    requires i < n
    ensures groups[i].mask != groups[n].mask
  {
    var g, h := groups[n], groups[i];
    assert IsGroup(ch, g) && IsGroup(ch, h);
    if h.mask == g.mask {
      var c :| c in g.mask;
      assert Leq(h, g);
      Shared(ch, h, g, c);
      var p := ParentInside(ch, groups, g, h);
      var q := ParentKnown(ch, groups, full, n, resolved, built);
      SameKey(groups, p, q);
      assert false;
    }
  }

  lemma {:induction false} SameKey(groups: seq<Group>, g: Group, h: Group)
    requires DistinctKeys(groups) && g in groups && h in groups && g.key == h.key
    ensures g == h
  {
    var i :| 0 <= i < |groups| && groups[i] == g;
    var j :| 0 <= j < |groups| && groups[j] == h;
    assert i == j;
  }

  // ---------------------------------------------------------------------------
  // One step of the collapse
  // ---------------------------------------------------------------------------

  lemma {:induction false} ResolveOne(full: set<nat>, groups: seq<Group>, n: nat, resolved: Resolved,
                                      built: seq<Domain>, origin: seq<nat>, to: Option<nat>)
    requires n < |groups| && DistinctKeys(groups)
    requires AllStand(full, built, resolved, groups, n) && Stands(full, built, to, groups[n].mask)
    requires AllCome(built, resolved, groups, origin, n + 1)
    requires Rooted(full, built) && Differ(built)
    requires forall k :: k in resolved ==> Seen(groups, n, k)
    ensures Progress(full, groups, n + 1, resolved[groups[n].key := to], built, origin)
  {
    var resolved' := resolved[groups[n].key := to];
    assert groups[n].key !in resolved;
    forall d | 0 <= d < |built|
      ensures origin[d] < n + 1 && ComesFrom(built, resolved', groups, origin, d)
    {
      assert ComesFrom(built, resolved, groups, origin, d);
    }
    forall k | k in resolved'
      ensures Seen(groups, n + 1, k)
    {
      var i :| 0 <= i < n + 1 && groups[i].key == k;
    }
    assert AllStand(full, built, resolved', groups, n + 1);
  }

  /** A group that repeats its parent's span, or spans everything, resolves to its parent. */
  lemma {:induction false} CollapseStep(ch: Chains, groups: seq<Group>, full: set<nat>, n: nat,
                                        resolved: Resolved, built: seq<Domain>, origin: seq<nat>, to: Option<nat>)
    requires Ready(ch, groups, full) && n < |groups| && Progress(full, groups, n, resolved, built, origin)
    requires groups[n].parent.Some? ==> groups[n].parent.value in resolved
    requires to == ParentDomain(groups[n], resolved)
    requires groups[n].mask == full || (to.Some? && to.value < |built| && built[to.value].span == groups[n].mask)
    ensures Progress(full, groups, n + 1, resolved[groups[n].key := to], built, origin)
  {
    ParentSpan(ch, groups, full, n, resolved, built);
    if to.Some? {
      assert Hangs(full, built, to.value);
      SpanInside(full, built, to.value);
    }
    assert Stands(full, built, to, groups[n].mask);
    forall d | 0 <= d < |built|
      ensures origin[d] < n + 1 && ComesFrom(built, resolved, groups, origin, d)
    {
      assert origin[d] < n && ComesFrom(built, resolved, groups, origin, d);
    }
    ResolveOne(full, groups, n, resolved, built, origin, to);
  }

  lemma {:induction false} SpanInside(full: set<nat>, built: seq<Domain>, d: nat)
    requires d < |built| && Rooted(full, built)
    ensures built[d].span < full && 1 <= built[d].level <= d + 1
  {
    assert Hangs(full, built, d);
    if built[d].parent.Some? {
      SpanInside(full, built, built[d].parent.value);
    }
  }

  lemma {:induction false} PushStep(ch: Chains, groups: seq<Group>, full: set<nat>, n: nat,
                                    resolved: Resolved, built: seq<Domain>, origin: seq<nat>, domain: Domain)
    requires Ready(ch, groups, full) && n < |groups| && Progress(full, groups, n, resolved, built, origin)
    requires groups[n].parent.Some? ==> groups[n].parent.value in resolved
    requires domain.span == groups[n].mask != full
    requires domain.parent == ParentDomain(groups[n], resolved)
    requires domain.parent.None? ==> domain.level == 1
    requires domain.parent.Some? ==>
      && domain.parent.value < |built|
      && built[domain.parent.value].span != groups[n].mask
      && domain.level == built[domain.parent.value].level + 1
    ensures Progress(full, groups, n + 1, resolved[groups[n].key := Some(|built|)], built + [domain], origin + [n])
  {
    var built', origin' := built + [domain], origin + [n];
    ParentSpan(ch, groups, full, n, resolved, built);
    forall d | 0 <= d < |built|
      ensures built[d].span != domain.span
    {
      assert ComesFrom(built, resolved, groups, origin, d);
      NewSpan(ch, groups, full, n, resolved, built, origin[d]);
    }
    forall d | 0 <= d < |built'|
      ensures Hangs(full, built', d)
    {
      if d < |built| {
        assert Hangs(full, built, d);
      }
    }
    forall d | 0 <= d < |built'|
      ensures origin'[d] < n + 1 && ComesFrom(built', resolved, groups, origin', d)
    {
      if d < |built| {
        assert ComesFrom(built, resolved, groups, origin, d);
      }
    }
    forall i | 0 <= i < n
      ensures groups[i].key in resolved && Stands(full, built', resolved[groups[i].key], groups[i].mask)
    {
      assert Stands(full, built, resolved[groups[i].key], groups[i].mask);
    }
    ResolveOne(full, groups, n, resolved, built', origin', Some(|built|));
  }

  // ---------------------------------------------------------------------------
  // How many domains there can be
  // ---------------------------------------------------------------------------

  ghost predicate Nested(built: seq<Domain>) {
    forall d, e {:trigger Laminar.Compatible(built[d].span, built[e].span)} ::
      0 <= d < |built| && 0 <= e < |built| ==> Laminar.Compatible(built[d].span, built[e].span)
  }

  lemma {:induction false} OriginsNested(ch: Chains, groups: seq<Group>, full: set<nat>, n: nat,
                                         resolved: Resolved, built: seq<Domain>, origin: seq<nat>)
    requires Ready(ch, groups, full) && n <= |groups| && Progress(full, groups, n, resolved, built, origin)
    ensures Nested(built)
  {
    forall d, e | 0 <= d < |built| && 0 <= e < |built|
      ensures Laminar.Compatible(built[d].span, built[e].span)
    {
      assert ComesFrom(built, resolved, groups, origin, d) && ComesFrom(built, resolved, groups, origin, e);
      GroupsCompatible(ch, groups[origin[d]], groups[origin[e]]);
    }
  }

  /** Below the root there are at most 2n - 2 domains for n CPUs. */
  lemma {:induction false} DomainCount(full: set<nat>, built: seq<Domain>)
    requires full != {} && Rooted(full, built) && Differ(built) && Nested(built)
    ensures |built| <= 2 * |full| - 2
  {
    var spans := seq(|built|, d requires 0 <= d < |built| => built[d].span);
    var f := Laminar.Members(spans);
    Laminar.MembersSize(spans);
    forall s | s in f
      ensures s != {} && s < full
    {
      var d :| 0 <= d < |built| && spans[d] == s;
      assert Hangs(full, built, d);
      SpanInside(full, built, d);
    }
    forall s, t | s in f + {full} && t in f + {full}
      ensures Laminar.Compatible(s, t)
    {
      if s != full && t != full {
        var d :| 0 <= d < |built| && spans[d] == s;
        var e :| 0 <= e < |built| && spans[e] == t;
        assert Laminar.Compatible(built[d].span, built[e].span);
      }
    }
    Laminar.Bound(f + {full}, full);
    assert |f + {full}| == |f| + 1;
  }

  lemma {:induction false} SmallSet(s: set<nat>, n: nat)
    requires forall c :: c in s ==> c < n
    ensures |s| <= n
  {
    if n > 0 {
      SmallSet(s - {n - 1}, n - 1);
    } else {
      assert s == {};
    }
  }
}
