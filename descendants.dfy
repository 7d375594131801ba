/**
 * The recursive descendant count of queues/processRegistrationQueue.js (`getTotalDescendants`),
 * and why, on a well-formed tree, it agrees with the `$graphLookup` count of the unified queue:
 * both are the size of the subtree less its top.
 */
module Descendants {
  import opened Common
  import opened Tree

  /**
   * `getTotalDescendants(x)`: a missing member counts 0; otherwise the length of its children
   * list plus the count of each listed child, a missing child counting 0.
   */
  function TotalDescendants(t: Forest, x: string): nat
    requires ChildAcyclic(t)
    decreases if x in t then Rk(t)[x] else 0, 1
  {
    if x !in t then 0 else |t[x].children| + ChildrenTotal(t, x, t[x].children)
  }

  /** The sum of the counts of the listed children cs of top. */
  function ChildrenTotal(t: Forest, top: string, cs: seq<string>): nat
    requires ChildAcyclic(t) && top in t && forall c :: c in cs ==> c in t[top].children
    decreases Rk(t)[top], 0, |cs|
  {
    if cs == [] then 0
    else (if cs[0] in t then TotalDescendants(t, cs[0]) else 0) + ChildrenTotal(t, top, cs[1..])
  }

  /**
   * The tree is well formed: every listed child is stored and points back to the member that
   * lists it, and no member lists a child twice.
   */
  predicate Proper(t: Forest)
  {
    (forall x, c :: x in t && c in t[x].children ==> c in t && t[c].parent == Some(x)) &&
    (forall x :: x in t ==> NoDuplicates(t[x].children))
  }

  lemma ProperChildren(t: Forest, x: string)
    requires Proper(t) && x in t
    ensures forall c :: c in t[x].children ==> c in t && t[c].parent == Some(x)
  {
  }

  /** Above a member of a subtree, following parent links, lies the top of that subtree. */
  lemma {:induction false} SubAbove(t: Forest, a: string, z: string)
    requires Acyclic(t) && Proper(t) && a in t && z in Sub(t, a)
    ensures z in t && a in [z] + Chain(t, z)
    decreases Rk(t)[a]
  {
    if z != a {
      var k :| k in Kids(t, a) && z in Sub(t, k);
      SubAbove(t, k, z);
      assert t[k].parent == Some(a);
      ChainClosed(t, z, k);
    }
  }

  /** The ancestors of z include the parent of each of them. */
  lemma {:induction false} ChainClosed(t: Forest, z: string, k: string)
    requires ParentAcyclic(t) && z in t && k in [z] + Chain(t, z) && k in t
    requires t[k].parent.Some? && t[k].parent.value in t
    ensures t[k].parent.value in Chain(t, z)
    decreases Pk(t)[z]
  {
    var p := t[z].parent.value;
    if k != z {
      assert Chain(t, z) == [p] + Chain(t, p);
      ChainClosed(t, p, k);
    }
  }

  /** Two members on the path from z to the root: one is an ancestor of the other. */
  lemma {:induction false} ChainOrdered(t: Forest, z: string, a: string, b: string)
    requires ParentAcyclic(t) && z in t && a in [z] + Chain(t, z) && b in [z] + Chain(t, z) && a != b
    ensures a in t && b in t && (a in Chain(t, b) || b in Chain(t, a))
    decreases Pk(t)[z]
  {
    ChainDescends(t, z);
    if a != z && b != z {
      var p := t[z].parent.value;
      assert Chain(t, z) == [p] + Chain(t, p);
      ChainOrdered(t, p, a, b);
    }
  }

  /** The subtrees of two different children of one member share no member. */
  lemma SiblingsDisjoint(t: Forest, x: string, c1: string, c2: string)
    requires Acyclic(t) && Proper(t) && x in t && c1 in t[x].children && c2 in t[x].children && c1 != c2
    ensures Sub(t, c1) !! Sub(t, c2)
  {
    if z :| z in Sub(t, c1) && z in Sub(t, c2) {
      SubAbove(t, c1, z);
      SubAbove(t, c2, z);
      ChainOrdered(t, z, c1, c2);
      if c1 in Chain(t, c2) {
        SiblingAbove(t, x, c1, c2);
      } else {
        SiblingAbove(t, x, c2, c1);
      }
    }
  }

  /** A child is never an ancestor of a sibling. */
  lemma SiblingAbove(t: Forest, x: string, a: string, b: string)
    requires Acyclic(t) && Proper(t) && x in t && a in t[x].children && b in t[x].children
    ensures a !in Chain(t, b)
  {
    assert Chain(t, b) == [x] + Chain(t, x);
    ChainDescends(t, x);
  }

  /** The members in the subtrees of the listed children. */
  ghost function Union(t: Forest, cs: seq<string>): set<string>
    requires ChildAcyclic(t) && forall c :: c in cs ==> c in t
  {
    if cs == [] then {} else Sub(t, cs[0]) + Union(t, cs[1..])
  }

  lemma {:induction false} UnionMember(t: Forest, cs: seq<string>, y: string)
    requires ChildAcyclic(t) && forall c :: c in cs ==> c in t
    ensures y in Union(t, cs) <==> exists c :: c in cs && y in Sub(t, c)
    decreases |cs|
  {
    if cs != [] {
      UnionMember(t, cs[1..], y);
      if y in Sub(t, cs[0]) {
        assert cs[0] in cs;
      }
      forall c | c in cs[1..] ensures c in cs { }
      forall c | c in cs && c != cs[0] ensures c in cs[1..] {
        var i :| 0 <= i < |cs| && cs[i] == c;
        assert cs[1..][i - 1] == c;
      }
    }
  }

  lemma BelowMember(t: Forest, x: string, y: string)
    requires ChildAcyclic(t) && x in t
    ensures y in Below(t, x) <==> exists c :: c in Kids(t, x) && y in Sub(t, c)
  {
  }

  lemma BelowUnionMember(t: Forest, x: string, y: string)
    requires ChildAcyclic(t) && x in t && forall c :: c in t[x].children ==> c in t
    ensures y in Below(t, x) <==> y in Union(t, t[x].children)
  {
    BelowMember(t, x, y);
    UnionMember(t, t[x].children, y);
    if y in Below(t, x) {
      var c :| c in Kids(t, x) && y in Sub(t, c);
      assert c in t[x].children;
    }
  }

  /** On a well-formed tree the members below x are the subtrees of x's children. */
  lemma BelowIsUnion(t: Forest, x: string)
    requires Acyclic(t) && Proper(t) && x in t
    ensures Below(t, x) == Union(t, t[x].children)
  {
    ProperChildren(t, x);
    forall y ensures y in Below(t, x) <==> y in Union(t, t[x].children) {
      BelowUnionMember(t, x, y);
    }
  }

  /**
   * On a well-formed tree the count of the listed children cs of x is the number of members in
   * their subtrees less one for each listed child.
   */
  lemma {:induction false} ChildrenTotalIsUnion(t: Forest, x: string, cs: seq<string>)
    requires Acyclic(t) && Proper(t) && x in t
    requires forall c :: c in cs ==> c in t[x].children
    requires NoDuplicates(cs)
    ensures forall c :: c in cs ==> c in t
    ensures |Union(t, cs)| == |cs| + ChildrenTotal(t, x, cs)
    decreases Rk(t)[x], 0, |cs|
  {
    ProperChildren(t, x);
    if cs != [] {
      var c := cs[0];
      assert Rk(t)[c] < Rk(t)[x];
      TotalIsBelow(t, c);
      NotBelowItself(t, c);
      assert |Sub(t, c)| == 1 + TotalDescendants(t, c) by {
        assert Sub(t, c) == {c} + Below(t, c);
      }
      assert NoDuplicates(cs[1..]);
      ChildrenTotalIsUnion(t, x, cs[1..]);
      FirstApart(t, x, cs);
      assert Union(t, cs) == Sub(t, c) + Union(t, cs[1..]);
    }
  }

  /** The subtree of the first listed child shares no member with those of the other listed children. */
  lemma FirstApart(t: Forest, x: string, cs: seq<string>)
    requires Acyclic(t) && Proper(t) && x in t && cs != []
    requires forall c :: c in cs ==> c in t[x].children
    requires NoDuplicates(cs)
    ensures forall c :: c in cs ==> c in t
    ensures Sub(t, cs[0]) !! Union(t, cs[1..])
  {
    ProperChildren(t, x);
    var c := cs[0];
    forall y | y in Sub(t, c) ensures y !in Union(t, cs[1..]) {
      UnionMember(t, cs[1..], y);
      if c2 :| c2 in cs[1..] && y in Sub(t, c2) {
        assert c2 != c by {
          var j :| 0 <= j < |cs[1..]| && cs[1..][j] == c2;
          assert cs[j + 1] == c2;
        }
        SiblingsDisjoint(t, x, c, c2);
      }
    }
  }

  /**
   * `getTotalDescendants`, on a well-formed tree, is the `$graphLookup` count: the number of
   * members reachable from x through one or more `children` edges, that is, the size of x's
   * subtree less one.
   */
  lemma {:induction false} TotalIsBelow(t: Forest, x: string)
    requires Acyclic(t) && Proper(t) && x in t
    ensures TotalDescendants(t, x) == DescendantCount(t, x) == |Sub(t, x)| - 1
    decreases Rk(t)[x], 1
  {
    BelowIsUnion(t, x);
    ChildrenTotalIsUnion(t, x, t[x].children);
    NotBelowItself(t, x);
    assert Sub(t, x) == {x} + Below(t, x);
  }

  /** A member that is not stored counts nothing, and neither does a member without children. */
  lemma TotalOfLeaf(t: Forest, x: string)
    requires ChildAcyclic(t)
    ensures x !in t ==> TotalDescendants(t, x) == 0
    ensures x in t && t[x].children == [] ==> TotalDescendants(t, x) == 0
  {
  }

  /** Attaching a new leaf below a stored slot keeps the tree well formed. */
  lemma AddLeafProper(t: Forest, m: string, slot: string)
    requires Proper(t) && Unplaced(t, m) && m in t && slot in t && slot != m
    ensures Proper(AddLeaf(t, m, slot))
  {
    var r := AddLeaf(t, m, slot);
    forall x, c | x in r && c in r[x].children ensures c in r && r[c].parent == Some(x) {
      if x == slot {
        if c != m {
          assert c in t[slot].children;
        }
      } else if x != m {
        assert c in t[x].children && c != m;
      }
    }
    forall x | x in r ensures NoDuplicates(r[x].children) {
      if x == slot {
        assert m !in t[slot].children;
        assert NoDuplicates(t[slot].children);
      }
    }
  }
}
