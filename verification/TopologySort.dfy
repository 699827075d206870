/** Ordering groups by depth and then by key, as a derived ordering compares keys. */
module TopologySort {
  import opened Outcomes
  import opened TopologyGroups

  /** A word whose lexicographic order is the order of keys: the kind first, then the fields. */
  function Code(key: Key): seq<nat> {
    match key
    case SocketKey(s) => [0, s]
    case ClusterKey(s, p) => [1] + Maybe(s) + Path(p)
    case CoreKey(s, p, c) => [2] + Maybe(s) + Path(p) + [c]
    case CpuKey(c) => [3, c]
  }

  function Maybe(s: Option<nat>): seq<nat> {
    if s.Some? then [1, s.value] else [0]
  }

  /** Elements are raised by one, so that the closing zero puts a path before its extensions. */
  function Path(p: seq<nat>): seq<nat> {
    if |p| == 0 then [0] else [p[0] + 1] + Path(p[1..])
  }

  predicate WordLeq(a: seq<nat>, b: seq<nat>) {
    |a| == 0 || (|b| > 0 && (a[0] < b[0] || (a[0] == b[0] && WordLeq(a[1..], b[1..]))))
  }

  lemma {:induction false} WordTotal(a: seq<nat>, b: seq<nat>)
    ensures WordLeq(a, b) || WordLeq(b, a)
  {
    if |a| > 0 && |b| > 0 && a[0] == b[0] {
      WordTotal(a[1..], b[1..]);
    }
  }

  lemma {:induction false} WordTransitive(a: seq<nat>, b: seq<nat>, c: seq<nat>)
    requires WordLeq(a, b) && WordLeq(b, c)
    ensures WordLeq(a, c)
  {
    if |a| > 0 && a[0] == b[0] == c[0] {
      WordTransitive(a[1..], b[1..], c[1..]);
    }
  }

  predicate Leq(g: Group, h: Group) {
    g.depth < h.depth || (g.depth == h.depth && WordLeq(Code(g.key), Code(h.key)))
  }

  lemma {:induction false} LeqTotal(g: Group, h: Group)
    ensures Leq(g, h) || Leq(h, g)
  {
    WordTotal(Code(g.key), Code(h.key));
  }

  lemma {:induction false} LeqTransitive(g: Group, h: Group, k: Group)
    requires Leq(g, h) && Leq(h, k)
    ensures Leq(g, k)
  {
    if g.depth == h.depth == k.depth {
      WordTransitive(Code(g.key), Code(h.key), Code(k.key));
    }
  }

  ghost predicate Sorted(s: seq<Group>) {
    forall i, j :: 0 <= i < j < |s| ==> Leq(s[i], s[j])
  }

  method Insert(s: seq<Group>, g: Group) returns (out: seq<Group>)
    requires Sorted(s)
    ensures Sorted(out) && multiset(out) == multiset(s) + multiset{g}
  {
    var p: nat := |s|;
    while p > 0 && !Leq(s[p - 1], g)
      invariant p <= |s|
      invariant forall j :: p <= j < |s| ==> !Leq(s[j], g)
    {
      p := p - 1;
    }
    InsertSorted(s, g, p);
    assert s == s[..p] + s[p..];
    out := s[..p] + [g] + s[p..];
  }

  method SortGroups(groups: seq<Group>) returns (out: seq<Group>)
    ensures Sorted(out) && multiset(out) == multiset(groups)
  {
    out := [];
    var i := 0;
    while i < |groups|
      invariant i <= |groups| && Sorted(out)
      invariant multiset(out) == multiset(groups[..i])
    {
      out := Insert(out, groups[i]);
      assert groups[..i + 1] == groups[..i] + [groups[i]];
      i := i + 1;
    }
    assert groups[..i] == groups;
  }

  lemma {:induction false} InsertSorted(s: seq<Group>, g: Group, p: nat)
    requires Sorted(s) && p <= |s|
    requires p > 0 ==> Leq(s[p - 1], g)
    requires forall j :: p <= j < |s| ==> !Leq(s[j], g)
    ensures Sorted(s[..p] + [g] + s[p..])
  {
    forall j | 0 <= j < |s|
      ensures j < p ==> Leq(s[j], g)
      ensures j >= p ==> Leq(g, s[j])
    {
      if j >= p {
        LeqTotal(g, s[j]);
      } else if j < p - 1 {
        LeqTransitive(s[j], s[p - 1], g);
      }
    }
  }

  lemma {:induction false} CountKeyed(groups: seq<Group>, g: Group)
    requires DistinctKeys(groups)
    ensures multiset(groups)[g] <= 1
  {
    if |groups| > 0 {
      var rest := groups[..|groups| - 1];
      CountKeyed(rest, g);
      assert groups == rest + [groups[|groups| - 1]];
      if g == groups[|groups| - 1] {
        assert forall j :: 0 <= j < |rest| ==> rest[j] != g;
        assert g !in rest;
      }
    }
  }

  lemma {:induction false} CountTwice(s: seq<Group>, i: nat, j: nat)
    requires i < j < |s| && s[i] == s[j]
    ensures multiset(s)[s[i]] >= 2
  {
    assert s == s[..j] + s[j..];
    assert s[i] in s[..j] && s[j..][0] == s[i];
  }

  /** Reordering keeps one group per key of every chain. */
  lemma {:induction false} ReorderedGroups(ch: Chains, groups: seq<Group>, out: seq<Group>)
    requires GroupsOf(ch, groups) && multiset(out) == multiset(groups)
    ensures GroupsOf(ch, out)
  {
    assert forall g :: g in out <==> g in multiset(out);
    assert forall g :: g in groups <==> g in multiset(groups);
    forall i, j | 0 <= i < j < |out|
      ensures out[i].key != out[j].key
    {
      assert out[i] in groups && out[j] in groups;
      if out[i] == out[j] {
        CountTwice(out, i, j);
        CountKeyed(groups, out[i]);
        assert false;
      } else {
        var a :| 0 <= a < |groups| && groups[a] == out[i];
        var b :| 0 <= b < |groups| && groups[b] == out[j];
        assert a < b || b < a;
      }
    }
    forall c, j | c in ch && 0 <= j < |ch[c]|
      ensures Present(out, ch[c][j])
    {
      assert Present(groups, ch[c][j]);
    }
  }
}
