/** Families of sets in which any two members are nested or disjoint. */
module Laminar {

  ghost predicate Compatible(s: set<nat>, t: set<nat>) {
    s <= t || t <= s || s !! t
  }

  ghost predicate Family(f: set<set<nat>>, x: set<nat>) {
    && (forall s :: s in f ==> s != {} && s <= x)
    && (forall s, t {:trigger Compatible(s, t)} :: s in f && t in f ==> Compatible(s, t))
  }

  ghost function Holding(f: set<set<nat>>, e: nat): set<set<nat>> {
    set s | s in f && e in s
  }

  ghost function Lacking(f: set<set<nat>>, e: nat): set<set<nat>> {
    set s | s in f && e !in s
  }

  ghost function Shrunk(f: set<set<nat>>, e: nat): set<set<nat>> {
    set s | s in f :: s - {e}
  }

  lemma {:induction false} ShrunkSize(f: set<set<nat>>, e: nat)
    requires forall s :: s in f ==> e in s
    ensures |Shrunk(f, e)| == |f|
  {
    if f != {} {
      var s :| s in f;
      var rest := f - {s};
      ShrunkSize(rest, e);
      forall t | t in rest
        ensures t - {e} != s - {e}
      {
        assert t == (t - {e}) + {e} && s == (s - {e}) + {e};
      }
      assert Shrunk(f, e) == Shrunk(rest, e) + {s - {e}};
    }
  }

  /** Shrinking by one element merges at most one pair of members. */
  lemma {:induction false} OneMerge(f: set<set<nat>>, x: set<nat>, e: nat, s: set<nat>, t: set<nat>)
    requires Family(f, x)
    requires s in f && t in f && e !in s && e !in t && s + {e} in f && t + {e} in f
    ensures s == t
  {
    assert Compatible(s, t + {e}) && Compatible(t, s + {e}) && Compatible(s + {e}, t + {e});
    assert e in s + {e} && e in t + {e};
    var a, b :| a in s && b in t;
    assert a in s + {e} && b in t + {e} && a != e && b != e;
  }

  lemma {:induction false} AtMostOne<T>(s: set<T>)
    requires forall a, b :: a in s && b in s ==> a == b
    ensures |s| <= 1
  {
    if s != {} {
      var a :| a in s;
      assert s == {a};
    }
  }

  lemma {:induction false} ShrunkFamily(f: set<set<nat>>, x: set<nat>, e: nat)
    requires Family(f, x)
    ensures Family(Lacking(f, e) + Shrunk(Holding(f, e) - {{e}}, e), x - {e})
  {
    var g := Lacking(f, e) + Shrunk(Holding(f, e) - {{e}}, e);
    forall s | s in g
      ensures s != {} && s <= x - {e} && (s in f || s + {e} in f)
    {
      if s !in Lacking(f, e) {
        var t :| t in Holding(f, e) - {{e}} && s == t - {e};
        assert s + {e} == t;
        assert t != {e};
      }
    }
    forall s, t | s in g && t in g
      ensures Compatible(s, t)
    {
      var s' := if s in f then s else s + {e};
      var t' := if t in f then t else t + {e};
      assert Compatible(s', t');
    }
  }

  lemma {:induction false} FewMerges(f: set<set<nat>>, x: set<nat>, e: nat)
    requires Family(f, x)
    ensures |Lacking(f, e) * Shrunk(Holding(f, e) - {{e}}, e)| <= 1
  {
    var held := Holding(f, e) - {{e}};
    var both := Lacking(f, e) * Shrunk(held, e);
    forall s, t | s in both && t in both
      ensures s == t
    {
      var s' :| s' in held && s == s' - {e};
      var t' :| t' in held && t == t' - {e};
      assert s + {e} == s' && t + {e} == t';
      OneMerge(f, x, e, s, t);
    }
    AtMostOne(both);
  }

  /** A laminar family of non-empty subsets of an n-element set has at most 2n - 1 members. */
  lemma {:induction false} Bound(f: set<set<nat>>, x: set<nat>)
    requires x != {} && Family(f, x)
    ensures |f| <= 2 * |x| - 1
    decreases |x|
  {
    var e :| e in x;
    if x == {e} {
      forall a, b | a in f && b in f ensures a == b {
        assert a == {e} && b == {e};
      }
      AtMostOne(f);
    } else {
      var held, lack := Holding(f, e), Lacking(f, e);
      var shrunk := Shrunk(held - {{e}}, e);
      ShrunkFamily(f, x, e);
      assert |x - {e}| == |x| - 1;
      assert x - {e} != {};
      Bound(lack + shrunk, x - {e});
      ShrunkSize(held - {{e}}, e);
      FewMerges(f, x, e);
      assert f == held + lack && held !! lack;
      assert |lack + shrunk| == |lack| + |shrunk| - |lack * shrunk|;
      assert |held - {{e}}| >= |held| - 1;
    }
  }

  ghost function Members(s: seq<set<nat>>): set<set<nat>> {
    set i | 0 <= i < |s| :: s[i]
  }

  lemma {:induction false} MembersSize(s: seq<set<nat>>)
    requires forall i, j :: 0 <= i < j < |s| ==> s[i] != s[j]
    ensures |Members(s)| == |s|
  {
    if |s| > 0 {
      var rest := s[..|s| - 1];
      MembersSize(rest);
      assert Members(s) == Members(rest) + {s[|s| - 1]};
    }
  }
}
