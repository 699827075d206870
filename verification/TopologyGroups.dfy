/** Firmware CPU paths and the groups of CPUs they induce. */
module TopologyGroups {
  import opened Outcomes

  /** The fields of a firmware CPU entry that the compiler reads. */
  datatype Cpu = Cpu(
    logicalId: nat,
    socket: Option<nat>,
    clusters: seq<nat>,
    core: Option<nat>,
    thread: Option<nat>,
    capacity: Option<nat>)

  datatype Key =
    | SocketKey(id: nat)
    | ClusterKey(socket: Option<nat>, path: seq<nat>)
    | CoreKey(socket: Option<nat>, path: seq<nat>, core: nat)
    | CpuKey(logicalId: nat)

  datatype Group = Group(key: Key, parent: Option<Key>, mask: set<nat>, depth: nat)

  /** The keys of the first `n` cluster levels, below the socket if there is one. */
  function ClusterChain(socket: Option<nat>, path: seq<nat>, n: nat): (c: seq<Key>)
    requires n <= |path|
    ensures |c| == (if socket.Some? then 1 else 0) + n
  {
    if n > 0 then ClusterChain(socket, path, n - 1) + [ClusterKey(socket, path[..n])]
    else if socket.Some? then [SocketKey(socket.value)]
    else []
  }

  /** The keys a CPU belongs to, outermost first. */
  function Chain(cpu: Cpu): (c: seq<Key>)
    ensures |c| > 0 && c[|c| - 1] == CpuKey(cpu.logicalId)
  {
    ClusterChain(cpu.socket, cpu.clusters, |cpu.clusters|)
    + (if cpu.core.Some? then [CoreKey(cpu.socket, cpu.clusters, cpu.core.value)] else [])
    + [CpuKey(cpu.logicalId)]
  }

  /** What a key other than a CPU's own says about everything above it. */
  function ChainOf(key: Key): seq<Key>
    requires !key.CpuKey?
  {
    match key
    case SocketKey(s) => [key]
    case ClusterKey(s, p) => ClusterChain(s, p, |p|)
    case CoreKey(s, p, _) => ClusterChain(s, p, |p|) + [key]
  }

  lemma {:induction false} ClusterChainPrefix(socket: Option<nat>, path: seq<nat>, n: nat, j: nat)
    requires n <= |path| && j < |ClusterChain(socket, path, n)|
    ensures var k := ClusterChain(socket, path, n)[j];
      !k.CpuKey? && ClusterChain(socket, path, n)[..j + 1] == ChainOf(k)
  {
    if n > 0 {
      var c := ClusterChain(socket, path, n - 1);
      if j < |c| {
        ClusterChainPrefix(socket, path, n - 1, j);
        assert (c + [ClusterKey(socket, path[..n])])[..j + 1] == c[..j + 1];
      } else {
        ClusterChainOfPrefix(socket, path, path[..n], n);
        assert ClusterChain(socket, path, n)[..j + 1] == ClusterChain(socket, path, n);
      }
    }
  }

  lemma {:induction false} ClusterChainOfPrefix(socket: Option<nat>, path: seq<nat>, path': seq<nat>, n: nat)
    requires n <= |path| && n <= |path'| && path[..n] == path'[..n]
    ensures ClusterChain(socket, path, n) == ClusterChain(socket, path', n)
  {
    if n > 0 {
      assert path[..n - 1] == path[..n][..n - 1] == path'[..n][..n - 1] == path'[..n - 1];
      ClusterChainOfPrefix(socket, path, path', n - 1);
    }
  }

  /** Everything above a key, except for a CPU's own key, is determined by the key alone. */
  lemma {:induction false} ChainPrefix(cpu: Cpu, j: nat)
    requires j < |Chain(cpu)| - 1
    ensures !Chain(cpu)[j].CpuKey? && Chain(cpu)[..j + 1] == ChainOf(Chain(cpu)[j])
  {
    var c := ClusterChain(cpu.socket, cpu.clusters, |cpu.clusters|);
    if j < |c| {
      ClusterChainPrefix(cpu.socket, cpu.clusters, |cpu.clusters|, j);
      assert Chain(cpu)[..j + 1] == c[..j + 1];
    } else {
      assert Chain(cpu)[..j + 1] == c + [CoreKey(cpu.socket, cpu.clusters, cpu.core.value)];
    }
  }

  /** The keys above each CPU, outermost first, by logical id. */
  type Chains = map<nat, seq<Key>>

  predicate Distinct(cpus: seq<Cpu>) {
    forall i, j :: 0 <= i < j < |cpus| ==> cpus[i].logicalId != cpus[j].logicalId
  }

  function ChainsOf(cpus: seq<Cpu>): Chains {
    if |cpus| == 0 then map[]
    else ChainsOf(cpus[..|cpus| - 1])[cpus[|cpus| - 1].logicalId := Chain(cpus[|cpus| - 1])]
  }

  /** Where two chains share a key, they share its position and everything above it. */
  predicate Meet(s: seq<Key>, t: seq<Key>, i: nat, j: nat) {
    i < |s| && j < |t| && s[i] == t[j] ==> i == j && s[..i + 1] == t[..j + 1]
  }

  ghost predicate Coherent(ch: Chains) {
    forall c, d, i: nat, j: nat {:trigger Meet(ch[c], ch[d], i, j)} ::
      c in ch && d in ch ==> Meet(ch[c], ch[d], i, j)
  }

  lemma {:induction false} ChainsMeet(c: Cpu, d: Cpu, i: nat, j: nat)
    requires c == d || c.logicalId != d.logicalId
    ensures Meet(Chain(c), Chain(d), i, j)
  {
    var s, t := Chain(c), Chain(d);
    if i < |s| && j < |t| && s[i] == t[j] {
      if i < |s| - 1 {
        ChainPrefix(c, i);
      }
      if j < |t| - 1 {
        ChainPrefix(d, j);
      }
      if i == |s| - 1 && j == |t| - 1 {
        assert c == d;
      } else {
        assert |s[..i + 1]| == i + 1 && |t[..j + 1]| == j + 1;
      }
    }
  }

  /** A leading part of the chain of the CPU with id `c`. */
  ghost predicate LeadsTo(cpus: seq<Cpu>, c: nat, s: seq<Key>) {
    exists m :: 0 <= m < |cpus| && cpus[m].logicalId == c && s <= Chain(cpus[m])
  }

  ghost predicate Partial(cpus: seq<Cpu>, ch: Chains) {
    forall c {:trigger LeadsTo(cpus, c, ch[c])} :: c in ch ==> LeadsTo(cpus, c, ch[c])
  }

  lemma {:induction false} PartsMeet(c: Cpu, d: Cpu, s: seq<Key>, t: seq<Key>, i: nat, j: nat)
    requires c == d || c.logicalId != d.logicalId
    requires s <= Chain(c) && t <= Chain(d)
    ensures Meet(s, t, i, j)
  {
    ChainsMeet(c, d, i, j);
    assert i < |s| ==> s[..i + 1] == Chain(c)[..i + 1];
    assert j < |t| ==> t[..j + 1] == Chain(d)[..j + 1];
  }

  lemma {:induction false} PartialCoherent(cpus: seq<Cpu>, ch: Chains)
    requires Distinct(cpus) && Partial(cpus, ch)
    ensures Coherent(ch)
  {
    forall c, d, i: nat, j: nat | c in ch && d in ch
      ensures Meet(ch[c], ch[d], i, j)
    {
      assert LeadsTo(cpus, c, ch[c]) && LeadsTo(cpus, d, ch[d]);
      var m :| 0 <= m < |cpus| && cpus[m].logicalId == c && ch[c] <= Chain(cpus[m]);
      var n :| 0 <= n < |cpus| && cpus[n].logicalId == d && ch[d] <= Chain(cpus[n]);
      PartsMeet(cpus[m], cpus[n], ch[c], ch[d], i, j);
    }
  }

  lemma {:induction false} ChainsOfAt(cpus: seq<Cpu>, c: nat)
    requires Distinct(cpus)
    ensures c in ChainsOf(cpus) <==> exists m :: 0 <= m < |cpus| && cpus[m].logicalId == c
    ensures forall m :: 0 <= m < |cpus| && cpus[m].logicalId == c ==>
      c in ChainsOf(cpus) && ChainsOf(cpus)[c] == Chain(cpus[m])
  {
    if |cpus| > 0 {
      ChainsOfAt(cpus[..|cpus| - 1], c);
    }
  }

  lemma {:induction false} ChainsOfPartial(cpus: seq<Cpu>, n: nat)
    requires Distinct(cpus) && n <= |cpus|
    ensures Partial(cpus, ChainsOf(cpus[..n]))
    ensures n < |cpus| ==> cpus[n].logicalId !in ChainsOf(cpus[..n])
  {
    var ch := ChainsOf(cpus[..n]);
    forall c | c in ch
      ensures LeadsTo(cpus, c, ch[c])
    {
      ChainsOfAt(cpus[..n], c);
      var m :| 0 <= m < n && cpus[..n][m].logicalId == c;
      assert ch[c] <= Chain(cpus[m]);
    }
    if n < |cpus| {
      ChainsOfAt(cpus[..n], cpus[n].logicalId);
    }
  }

  // ---------------------------------------------------------------------------
  // Groups
  // ---------------------------------------------------------------------------

  predicate Holds(s: seq<Key>, g: Group) {
    1 <= g.depth <= |s| && s[g.depth - 1] == g.key
  }

  function ParentIn(s: seq<Key>, depth: nat): Option<Key>
    requires depth <= |s|
  {
    if depth <= 1 then None else Some(s[depth - 2])
  }

  /** A group stands for one key: its mask is exactly the CPUs below that key. */
  ghost predicate IsGroup(ch: Chains, g: Group) {
    && g.mask == (set c | c in ch && Holds(ch[c], g))
    && g.mask != {}
    && forall c {:trigger ParentIn(ch[c], g.depth)} :: c in g.mask ==> g.parent == ParentIn(ch[c], g.depth)
  }

  /** The first group with this key, or the number of groups. */
  function Find(groups: seq<Group>, key: Key): (i: nat)
    ensures i <= |groups|
    ensures i < |groups| ==> groups[i].key == key
    ensures forall j :: 0 <= j < i ==> groups[j].key != key
  {
    if |groups| == 0 then 0
    else if groups[0].key == key then 0
    else Find(groups[1..], key) + 1
  }

  ghost predicate DistinctKeys(groups: seq<Group>) {
    forall i, j :: 0 <= i < j < |groups| ==> groups[i].key != groups[j].key
  }

  predicate Present(groups: seq<Group>, key: Key) {
    exists g :: g in groups && g.key == key
  }

  /** Exactly one group for each key of each chain, and no others. */
  ghost predicate GroupsOf(ch: Chains, groups: seq<Group>) {
    && DistinctKeys(groups)
    && (forall g :: g in groups ==> IsGroup(ch, g))
    && (forall c, j {:trigger Present(groups, ch[c][j])} ::
          c in ch && 0 <= j < |ch[c]| ==> Present(groups, ch[c][j]))
  }

  function Added(groups: seq<Group>, key: Key, parent: Option<Key>, cpu: nat, depth: nat): Result<seq<Group>, Errno> {
    var i := Find(groups, key);
    if i == |groups| then Ok(groups + [Group(key, parent, {cpu}, depth)])
    else if groups[i].parent != parent || groups[i].depth != depth then Err(EINVAL)
    else Ok(groups[i := groups[i].(mask := groups[i].mask + {cpu})])
  }

  method AddGroup(groups: seq<Group>, key: Key, parent: Option<Key>, cpu: nat, depth: nat)
    returns (r: Result<seq<Group>, Errno>)
    ensures r == Added(groups, key, parent, cpu, depth)
  {
    var i := 0;
    while i < |groups| && groups[i].key != key
      invariant i <= |groups|
      invariant forall j :: 0 <= j < i ==> groups[j].key != key
    {
      i := i + 1;
    }
    if i < |groups| {
      if groups[i].parent != parent || groups[i].depth != depth {
        return Err(EINVAL);
      }
      return Ok(groups[i := groups[i].(mask := groups[i].mask + {cpu})]);
    }
    return Ok(groups + [Group(key, parent, {cpu}, depth)]);
  }

  /** A group whose key sits in a chain sits at that key's position, with that key's parent. */
  lemma {:induction false} GroupPosition(ch: Chains, g: Group, c: nat, j: nat)
    requires Coherent(ch) && IsGroup(ch, g)
    requires c in ch && j < |ch[c]| && ch[c][j] == g.key
    ensures g.depth == j + 1 && c in g.mask && g.parent == ParentIn(ch[c], j + 1)
  {
    var d :| d in g.mask;
    assert Meet(ch[d], ch[c], g.depth - 1, j);
  }

  lemma {:induction false} OtherGroup(ch: Chains, g: Group, c: nat, key: Key, ch': Chains)
    requires c in ch && ch' == ch[c := ch[c] + [key]]
    requires IsGroup(ch, g) && g.key != key
    ensures IsGroup(ch', g)
  {
    assert forall d :: d in ch ==> (Holds(ch[d], g) <==> Holds(ch'[d], g));
    assert g.mask == (set d | d in ch' && Holds(ch'[d], g));
    forall d | d in g.mask
      ensures g.parent == ParentIn(ch'[d], g.depth)
    {
      assert g.parent == ParentIn(ch[d], g.depth);
    }
  }

  lemma {:induction false} StillPresent(groups: seq<Group>, groups': seq<Group>, i: nat, key: Key, k: Key)
    requires i < |groups'| && groups'[i].key == key && |groups| <= |groups'|
    requires forall m :: 0 <= m < |groups| && m != i ==> groups'[m] == groups[m]
    requires i < |groups| ==> groups[i].key == key
    requires k == key || Present(groups, k)
    ensures Present(groups', k)
  {
    if k == key {
      assert groups'[i] in groups';
    } else {
      var g :| g in groups && g.key == k;
      var m :| 0 <= m < |groups| && groups[m] == g;
      assert groups'[m] in groups';
    }
  }

  /** Extending one chain by a key and adding that key keeps groups and chains in step. */
  lemma {:induction false} AddedStep(ch: Chains, groups: seq<Group>, c: nat, key: Key, ch': Chains)
    requires c in ch && ch' == ch[c := ch[c] + [key]]
    requires Coherent(ch') && GroupsOf(ch, groups)
    ensures var r := Added(groups, key, ParentIn(ch'[c], |ch'[c]|), c, |ch'[c]|);
      r.Ok? && GroupsOf(ch', r.value)
  {
    var n := |ch'[c]|;
    var i := Find(groups, key);
    var g: Group;
    var groups';
    if i == |groups| {
      NewGroup(ch, groups, c, key, ch');
      g := Group(key, ParentIn(ch'[c], n), {c}, n);
      groups' := groups + [g];
    } else {
      OldGroup(ch, groups[i], c, key, ch');
      g := groups[i].(mask := groups[i].mask + {c});
      groups' := groups[i := g];
    }
    assert Added(groups, key, ParentIn(ch'[c], n), c, n) == Ok(groups');
    GroupsAfter(ch, groups, c, key, ch', i, g, groups');
  }

  lemma {:induction false} GroupsAfter(
    ch: Chains, groups: seq<Group>, c: nat, key: Key, ch': Chains, i: nat, g: Group, groups': seq<Group>)
    requires c in ch && ch' == ch[c := ch[c] + [key]]
    requires GroupsOf(ch, groups) && i == Find(groups, key)
    requires IsGroup(ch', g) && g.key == key
    requires groups' == if i == |groups| then groups + [g] else groups[i := g]
    ensures GroupsOf(ch', groups')
  {
    forall h | h in groups'
      ensures IsGroup(ch', h)
    {
      if h != g {
        var m :| 0 <= m < |groups'| && groups'[m] == h;
        assert groups[m] == h && h in groups;
        OtherGroup(ch, h, c, key, ch');
      }
    }
    forall d, j | d in ch' && 0 <= j < |ch'[d]|
      ensures Present(groups', ch'[d][j])
    {
      StillPresent(groups, groups', i, key, ch'[d][j]);
    }
  }

  lemma {:induction false} NewGroup(ch: Chains, groups: seq<Group>, c: nat, key: Key, ch': Chains)
    requires c in ch && ch' == ch[c := ch[c] + [key]]
    requires GroupsOf(ch, groups) && Find(groups, key) == |groups|
    ensures IsGroup(ch', Group(key, ParentIn(ch'[c], |ch'[c]|), {c}, |ch'[c]|))
  {
    var n := |ch'[c]|;
    var g := Group(key, ParentIn(ch'[c], n), {c}, n);
    forall d | d in ch && n <= |ch[d]|
      ensures ch[d][n - 1] != key
    {
      assert Present(groups, ch[d][n - 1]);
    }
    assert Holds(ch'[c], g);
    assert g.mask == (set d | d in ch' && Holds(ch'[d], g));
  }

  lemma {:induction false} OldGroup(ch: Chains, g: Group, c: nat, key: Key, ch': Chains)
    requires c in ch && ch' == ch[c := ch[c] + [key]]
    requires Coherent(ch') && IsGroup(ch, g) && g.key == key
    ensures g.depth == |ch'[c]| && g.parent == ParentIn(ch'[c], |ch'[c]|)
    ensures IsGroup(ch', g.(mask := g.mask + {c}))
  {
    var n := |ch'[c]|;
    var d :| d in g.mask;
    var at: nat := g.depth - 1;
    assert ch'[d][at] == key && ch'[c][n - 1] == key;
    assert Meet(ch'[d], ch'[c], at, n - 1);
    assert ch'[d][..n] == ch'[c][..n];
    var g' := g.(mask := g.mask + {c});
    assert g.parent == ParentIn(ch[d], n) by {
      assert g.parent == ParentIn(ch[d], g.depth);
    }
    assert ParentIn(ch'[d], n) == ParentIn(ch'[c], n) by {
      if n > 1 {
        assert ch'[d][n - 2] == ch'[d][..n][n - 2] == ch'[c][..n][n - 2];
      }
    }
    forall e | e in ch'
      ensures Holds(ch'[e], g') <==> e in g'.mask
    {
    }
    assert g'.mask == (set e | e in ch' && Holds(ch'[e], g'));
  }

  /** One group for every key of every chain; the mismatch refusal never happens. */
  method BuildGroups(cpus: seq<Cpu>) returns (r: Result<seq<Group>, Errno>)
    requires Distinct(cpus)
    ensures r.Ok? && GroupsOf(ChainsOf(cpus), r.value)
  {
    var groups: seq<Group> := [];
    var i := 0;
    while i < |cpus|
      invariant i <= |cpus|
      invariant GroupsOf(ChainsOf(cpus[..i]), groups)
    {
      r := AddCpu(cpus, i, groups);
      if r.Err? {
        return;
      }
      groups := r.value;
      i := i + 1;
    }
    assert cpus[..i] == cpus;
    return Ok(groups);
  }

  /** The first `i` CPUs are done, and the next one down to `depth`. */
  ghost predicate Upto(cpus: seq<Cpu>, i: nat, depth: nat, groups: seq<Group>)
    requires i < |cpus| && depth <= |Chain(cpus[i])|
  {
    GroupsOf(PartChains(cpus, i, depth), groups)
  }

  method AddKey(ghost cpus: seq<Cpu>, ghost i: nat, groups: seq<Group>,
                key: Key, parent: Option<Key>, cpu: nat, depth: nat)
    returns (r: Result<seq<Group>, Errno>)
    requires i < |cpus| && Distinct(cpus) && 0 < depth <= |Chain(cpus[i])|
    requires Upto(cpus, i, depth - 1, groups)
    requires key == Chain(cpus[i])[depth - 1] && parent == ParentIn(Chain(cpus[i]), depth)
    requires cpu == cpus[i].logicalId
    ensures r.Ok? && Upto(cpus, i, depth, r.value)
  {
    NextKey(cpus, i, groups, depth);
    r := AddGroup(groups, key, parent, cpu, depth);
  }

  /** The socket and the cluster levels of one CPU. */
  method AddClusters(cpus: seq<Cpu>, i: nat, before: seq<Group>)
    returns (r: Result<seq<Group>, Errno>, parent: Option<Key>, depth: nat)
    requires i < |cpus| && Distinct(cpus) && Upto(cpus, i, 0, before)
    ensures depth == |ClusterChain(cpus[i].socket, cpus[i].clusters, |cpus[i].clusters|)|
    ensures parent == ParentIn(Chain(cpus[i]), depth + 1)
    ensures r.Ok? && Upto(cpus, i, depth, r.value)
  {
    var cpu := cpus[i];
    ghost var full := Chain(cpu);
    ghost var top := if cpu.socket.Some? then 1 else 0;
    r, parent, depth := Ok(before), None, 0;
    if cpu.socket.Some? {
      depth := 1;
      var key := SocketKey(cpu.socket.value);
      ChainHead(cpu);
      r := AddKey(cpus, i, r.value, key, parent, cpu.logicalId, depth);
      parent := Some(key);
    }
    var clusters := 0;
    while clusters < |cpu.clusters|
      invariant clusters <= |cpu.clusters| && depth == top + clusters < |full|
      invariant parent == ParentIn(full, depth + 1)
      invariant r.Ok? && Upto(cpus, i, depth, r.value)
    {
      clusters := clusters + 1;
      depth := depth + 1;
      var key := ClusterKey(cpu.socket, cpu.clusters[..clusters]);
      ChainCluster(cpu, clusters);
      r := AddKey(cpus, i, r.value, key, parent, cpu.logicalId, depth);
      parent := Some(key);
    }
  }

  method AddCpu(cpus: seq<Cpu>, i: nat, before: seq<Group>) returns (r: Result<seq<Group>, Errno>)
    requires i < |cpus| && Distinct(cpus) && GroupsOf(ChainsOf(cpus[..i]), before)
    ensures r.Ok? && GroupsOf(ChainsOf(cpus[..i + 1]), r.value)
  {
    var cpu := cpus[i];
    StartCpu(cpus, i, before);
    var parent, depth;
    r, parent, depth := AddClusters(cpus, i, before);
    if cpu.core.Some? {
      depth := depth + 1;
      var key := CoreKey(cpu.socket, cpu.clusters, cpu.core.value);
      r := AddKey(cpus, i, r.value, key, parent, cpu.logicalId, depth);
      parent := Some(key);
    }
    depth := depth + 1;
    r := AddKey(cpus, i, r.value, CpuKey(cpu.logicalId), parent, cpu.logicalId, depth);
    FinishCpu(cpus, i, r.value);
  }

  lemma {:induction false} ChainHead(cpu: Cpu)
    requires cpu.socket.Some?
    ensures Chain(cpu)[0] == SocketKey(cpu.socket.value)
  {
    ClusterChainAt(cpu.socket, cpu.clusters, |cpu.clusters|, 0);
  }

  lemma {:induction false} ClusterChainAt(socket: Option<nat>, path: seq<nat>, n: nat, m: nat)
    requires m <= n <= |path|
    ensures socket.Some? ==> ClusterChain(socket, path, n)[0] == SocketKey(socket.value)
    ensures m > 0 ==>
      ClusterChain(socket, path, n)[(if socket.Some? then 1 else 0) + m - 1] == ClusterKey(socket, path[..m])
  {
    if m < n {
      ClusterChainAt(socket, path, n - 1, m);
    } else if n > 0 {
      ClusterChainAt(socket, path, n - 1, 0);
    }
  }

  lemma {:induction false} ChainCluster(cpu: Cpu, m: nat)
    requires 0 < m <= |cpu.clusters|
    ensures Chain(cpu)[(if cpu.socket.Some? then 1 else 0) + m - 1] == ClusterKey(cpu.socket, cpu.clusters[..m])
  {
    ClusterChainAt(cpu.socket, cpu.clusters, |cpu.clusters|, m);
  }

  lemma {:induction false} EmptyChain(ch: Chains, c: nat, g: Group)
    requires c !in ch && IsGroup(ch, g)
    ensures IsGroup(ch[c := []], g)
  {
    var ch' := ch[c := []];
    assert forall d :: d in ch' ==> (Holds(ch'[d], g) <==> d in ch && Holds(ch[d], g));
    assert g.mask == (set d | d in ch' && Holds(ch'[d], g));
  }

  lemma {:induction false} StartCpu(cpus: seq<Cpu>, i: nat, groups: seq<Group>)
    requires i < |cpus| && Distinct(cpus) && GroupsOf(ChainsOf(cpus[..i]), groups)
    ensures Upto(cpus, i, 0, groups)
  {
    ChainsOfPartial(cpus, i);
    var ch, c := ChainsOf(cpus[..i]), cpus[i].logicalId;
    var ch' := ch[c := []];
    forall g | g in groups
      ensures IsGroup(ch', g)
    {
      EmptyChain(ch, c, g);
    }
    assert GroupsOf(ch', groups);
    assert Chain(cpus[i])[..0] == [];
  }

  lemma {:induction false} FinishCpu(cpus: seq<Cpu>, i: nat, groups: seq<Group>)
    requires i < |cpus| && Upto(cpus, i, |Chain(cpus[i])|, groups)
    ensures GroupsOf(ChainsOf(cpus[..i + 1]), groups)
  {
    assert Chain(cpus[i])[..|Chain(cpus[i])|] == Chain(cpus[i]);
    assert cpus[..i + 1][..i] == cpus[..i];
  }

  ghost function PartChains(cpus: seq<Cpu>, i: nat, depth: nat): Chains
    requires i < |cpus| && depth <= |Chain(cpus[i])|
  {
    ChainsOf(cpus[..i])[cpus[i].logicalId := Chain(cpus[i])[..depth]]
  }

  lemma {:induction false} PartChainsCoherent(cpus: seq<Cpu>, i: nat, depth: nat)
    requires i < |cpus| && Distinct(cpus) && depth <= |Chain(cpus[i])|
    ensures Coherent(PartChains(cpus, i, depth))
  {
    ChainsOfPartial(cpus, i);
    var c, ch := cpus[i].logicalId, PartChains(cpus, i, depth);
    forall d | d in ch
      ensures LeadsTo(cpus, d, ch[d])
    {
      if d == c {
        assert ch[d] <= Chain(cpus[i]);
      } else {
        assert LeadsTo(cpus, d, ChainsOf(cpus[..i])[d]);
      }
    }
    PartialCoherent(cpus, ch);
  }

  lemma {:induction false} NextKey(cpus: seq<Cpu>, i: nat, groups: seq<Group>, depth: nat)
    requires i < |cpus| && Distinct(cpus) && 0 < depth <= |Chain(cpus[i])|
    requires Upto(cpus, i, depth - 1, groups)
    ensures var full := Chain(cpus[i]);
      var r := Added(groups, full[depth - 1], ParentIn(full, depth), cpus[i].logicalId, depth);
      r.Ok? && Upto(cpus, i, depth, r.value)
  {
    PartChainsCoherent(cpus, i, depth);
    var c := cpus[i].logicalId;
    var full := Chain(cpus[i]);
    var ch, ch' := PartChains(cpus, i, depth - 1), PartChains(cpus, i, depth);
    assert ch[c] + [full[depth - 1]] == ch'[c];
    assert ch' == ch[c := ch[c] + [full[depth - 1]]];
    AddedStep(ch, groups, c, full[depth - 1], ch');
    assert ParentIn(ch'[c], depth) == ParentIn(full, depth);
  }
}
