/**
 * The shape of the referral tree as the queues see it: each member's `parent` link and
 * ordered `children` list, looked up by `userId`. Everything here depends on the shape only,
 * so writes to counters, levels or ranks leave these functions' values unchanged.
 */
module Tree {
  import opened Common
  import opened Users

  datatype Links = Links(parent: Option<string>, children: seq<string>)

  type Forest = map<string, Links>

  /** The tree links of a member collection. */
  function Shape(users: map<string, User>): (t: Forest)
    ensures t.Keys == users.Keys
    ensures forall k :: k in t ==> t[k] == Links(users[k].parent, users[k].children)
  {
    map k | k in users :: Links(users[k].parent, users[k].children)
  }

  /** Replacing a member by a record with the same links keeps the shape. */
  lemma ShapeUpdate(users: map<string, User>, k: string, u: User)
    requires k in users && u.parent == users[k].parent && u.children == users[k].children
    ensures Shape(users[k := u]) == Shape(users)
  {
    assert Shape(users[k := u]).Keys == Shape(users).Keys;
  }

  /** Replacing a member by any record sets its links to the record's. */
  lemma ShapeSet(users: map<string, User>, k: string, u: User)
    ensures Shape(users[k := u]) == Shape(users)[k := Links(u.parent, u.children)]
  {
    assert Shape(users[k := u]).Keys == Shape(users)[k := Links(u.parent, u.children)].Keys;
  }

  /**
   * `find({ userId: { $in: ids } })`: each existing member among ids once. The database
   * promises no order; the model takes the order of first occurrence in ids. `seen` holds the
   * ids already produced.
   */
  function ExistingFrom(t: Forest, ids: seq<string>, seen: set<string>): (r: seq<string>)
    ensures forall c :: c in r <==> c in ids && c in t && c !in seen
    ensures NoDuplicates(r)
    ensures |r| <= |ids|
  {
    if ids == [] then []
    else if ids[0] in t && ids[0] !in seen then [ids[0]] + ExistingFrom(t, ids[1..], seen + {ids[0]})
    else ExistingFrom(t, ids[1..], seen)
  }

  /** The children of x that exist, as the `$in` query returns them. */
  function Kids(t: Forest, x: string): (r: seq<string>)
    requires x in t
    ensures forall c :: c in r <==> c in t[x].children && c in t
    ensures NoDuplicates(r)
  {
    ExistingFrom(t, t[x].children, {})
  }

  // ---------------------------------------------------------------------------------------------
  // Acyclicity: the walks of the source terminate only on stores without cycles.

  /** h ranks every child below its parent: following `children` strictly lowers the rank. */
  ghost predicate ChildRanked(t: Forest, h: map<string, nat>)
  {
    t.Keys <= h.Keys &&
    forall x, c :: x in t && c in t[x].children && c in t ==> h[c] < h[x]
  }

  ghost predicate ChildAcyclic(t: Forest)
  {
    exists h :: ChildRanked(t, h)
  }

  ghost function Rk(t: Forest): (h: map<string, nat>)
    requires ChildAcyclic(t)
    ensures ChildRanked(t, h)
  {
    var h :| ChildRanked(t, h); h
  }

  /** d ranks every parent below its child: following `parent` strictly lowers the rank. */
  ghost predicate ParentRanked(t: Forest, d: map<string, nat>)
  {
    t.Keys <= d.Keys &&
    forall x :: x in t && t[x].parent.Some? && t[x].parent.value in t ==> d[t[x].parent.value] < d[x]
  }

  ghost predicate ParentAcyclic(t: Forest)
  {
    exists d :: ParentRanked(t, d)
  }

  ghost function Pk(t: Forest): (d: map<string, nat>)
    requires ParentAcyclic(t)
    ensures ParentRanked(t, d)
  {
    var d :| ParentRanked(t, d); d
  }

  ghost predicate Acyclic(t: Forest)
  {
    ChildAcyclic(t) && ParentAcyclic(t)
  }

  // ---------------------------------------------------------------------------------------------
  // Subtrees and the `$graphLookup` descendant count

  /** The members reachable from x through `children` edges, x included. */
  function Sub(t: Forest, x: string): (r: set<string>)
    requires ChildAcyclic(t) && x in t
    ensures x in r && forall y :: y in r ==> y in t
    decreases Rk(t)[x], 1
  {
    {x} + Below(t, x)
  }

  /** The members reachable from x through one or more `children` edges: `$graphLookup`'s result. */
  function Below(t: Forest, x: string): (r: set<string>)
    requires ChildAcyclic(t) && x in t
    ensures forall y :: y in r ==> y in t
    decreases Rk(t)[x], 0
  {
    set c, y | c in Kids(t, x) && y in Sub(t, c) :: y
  }

  lemma SubUnfold(t: Forest, x: string, y: string)
    requires ChildAcyclic(t) && x in t
    ensures y in Sub(t, x) <==> y == x || exists c :: c in Kids(t, x) && y in Sub(t, c)
  {
  }

  /** Everything in a subtree exists and ranks no higher than its top. */
  lemma {:induction false} SubRanked(t: Forest, x: string, y: string)
    requires ChildAcyclic(t) && x in t && y in Sub(t, x)
    ensures y in t && Rk(t)[y] <= Rk(t)[x]
    ensures y in Below(t, x) ==> Rk(t)[y] < Rk(t)[x]
    decreases Rk(t)[x]
  {
    if y != x || y in Below(t, x) {
      var c :| c in Kids(t, x) && y in Sub(t, c);
      SubRanked(t, c, y);
    }
  }

  /** On an acyclic store a member is never among its own descendants. */
  lemma NotBelowItself(t: Forest, x: string)
    requires ChildAcyclic(t) && x in t
    ensures x !in Below(t, x)
  {
    if x in Below(t, x) {
      SubRanked(t, x, x);
    }
  }

  /** The descendant count `$graphLookup` produces for x. */
  function DescendantCount(t: Forest, x: string): nat
    requires ChildAcyclic(t) && x in t
  {
    |Below(t, x)|
  }

  // ---------------------------------------------------------------------------------------------
  // The ancestor chain

  /** The ancestors of x, nearest first, up to the root or the first `parent` that does not exist. */
  function Chain(t: Forest, x: string): seq<string>
    requires ParentAcyclic(t) && x in t
    decreases Pk(t)[x]
  {
    match t[x].parent
    case None => []
    case Some(p) => if p in t then [p] + Chain(t, p) else []
  }

  /** The chain consists of existing members, each ranked strictly below the one before, so no member repeats. */
  lemma {:induction false} ChainDescends(t: Forest, x: string)
    requires ParentAcyclic(t) && x in t
    ensures forall a :: a in Chain(t, x) ==> a in t && Pk(t)[a] < Pk(t)[x]
    ensures NoDuplicates(Chain(t, x))
    ensures x !in Chain(t, x)
    decreases Pk(t)[x]
  {
    match t[x].parent
    case None =>
    case Some(p) =>
      if p in t {
        ChainDescends(t, p);
        var c := Chain(t, x);
        assert c == [p] + Chain(t, p);
        forall i, j | 0 <= i < j < |c| ensures c[i] != c[j] {
          if i == 0 {
            assert c[j] in Chain(t, p);
          } else {
            assert c[i] == Chain(t, p)[i - 1] && c[j] == Chain(t, p)[j - 1];
          }
        }
      }
  }

  // ---------------------------------------------------------------------------------------------
  // Breadth-first order

  /** Size of the tree unfolding below x (with repetitions on a shared child): the BFS measure. */
  ghost function Unfolding(t: Forest, x: string): nat
    requires ChildAcyclic(t) && x in t
    decreases Rk(t)[x], 1, 0
  {
    1 + KidsWeight(t, x, Kids(t, x))
  }

  ghost function KidsWeight(t: Forest, x: string, ks: seq<string>): nat
    requires ChildAcyclic(t) && x in t
    requires forall k :: k in ks ==> k in Kids(t, x)
    decreases Rk(t)[x], 0, |ks|
  {
    if ks == [] then 0
    else
      var k := ks[0];
      assert k in ks;
      assert k in Kids(t, x);
      assert k in t && k in t[x].children;
      assert ChildRanked(t, Rk(t));
      assert Rk(t)[k] < Rk(t)[x];
      Unfolding(t, k) + KidsWeight(t, x, ks[1..])
  }

  ghost function Weight(t: Forest, q: seq<string>): nat
    requires ChildAcyclic(t) && forall k :: k in q ==> k in t
  {
    if q == [] then 0 else Unfolding(t, q[0]) + Weight(t, q[1..])
  }

  lemma {:induction false} KidsWeightIsWeight(t: Forest, x: string, ks: seq<string>)
    requires ChildAcyclic(t) && x in t
    requires forall k :: k in ks ==> k in Kids(t, x)
    ensures KidsWeight(t, x, ks) == Weight(t, ks)
    decreases |ks|
  {
    if ks != [] { KidsWeightIsWeight(t, x, ks[1..]); }
  }

  lemma {:induction false} WeightAppend(t: Forest, a: seq<string>, b: seq<string>)
    requires ChildAcyclic(t) && (forall k :: k in a ==> k in t) && (forall k :: k in b ==> k in t)
    ensures Weight(t, a + b) == Weight(t, a) + Weight(t, b)
    decreases |a|
  {
    if a == [] {
      assert a + b == b;
    } else {
      assert (a + b)[1..] == a[1..] + b;
      WeightAppend(t, a[1..], b);
    }
  }

  /** Popping the head of the queue and pushing its children lowers the measure by one. */
  lemma BfsStep(t: Forest, q: seq<string>)
    requires ChildAcyclic(t) && (forall k :: k in q ==> k in t) && q != []
    ensures forall k :: k in q[1..] + Kids(t, q[0]) ==> k in t
    ensures Weight(t, q[1..] + Kids(t, q[0])) < Weight(t, q)
  {
    WeightAppend(t, q[1..], Kids(t, q[0]));
    KidsWeightIsWeight(t, q[0], Kids(t, q[0]));
  }

  /** The order in which the queue loop of the search dequeues members, started with queue q. */
  function Bfs(t: Forest, q: seq<string>): (r: seq<string>)
    requires ChildAcyclic(t) && forall k :: k in q ==> k in t
    ensures forall y :: y in r ==> y in t
    decreases Weight(t, q)
  {
    if q == [] then []
    else
      BfsStep(t, q);
      [q[0]] + Bfs(t, q[1..] + Kids(t, q[0]))
  }

  /** The breadth-first order dequeues exactly the members of the subtrees of the queued members. */
  lemma {:induction false} BfsCovers(t: Forest, q: seq<string>, y: string)
    requires ChildAcyclic(t) && forall k :: k in q ==> k in t
    ensures y in Bfs(t, q) <==> exists x :: x in q && y in Sub(t, x)
    decreases Weight(t, q)
  {
    if q != [] {
      var next := q[1..] + Kids(t, q[0]);
      BfsStep(t, q);
      BfsCovers(t, next, y);
      SubUnfold(t, q[0], y);
      assert Bfs(t, q) == [q[0]] + Bfs(t, next);
      if y in Bfs(t, q) && y != q[0] {
        var x :| x in next && y in Sub(t, x);
        if x in q[1..] { assert x in q; } else { assert y in Sub(t, q[0]); }
      }
      if exists x :: x in q && y in Sub(t, x) {
        var x :| x in q && y in Sub(t, x);
        if x == q[0] {
          if y != q[0] {
            var c :| c in Kids(t, q[0]) && y in Sub(t, c);
            assert c in next;
          }
        } else {
          var i :| 0 <= i < |q| && q[i] == x;
          assert x in q[1..] by { assert q[1..][i - 1] == x; }
          assert x in next;
        }
      }
    }
  }

  // ---------------------------------------------------------------------------------------------
  // Attaching a new leaf

  /** m is not yet in the tree: no parent, no children, nobody's child and nobody's parent. */
  predicate Unplaced(t: Forest, m: string)
  {
    (m in t ==> t[m].parent.None? && t[m].children == []) &&
    forall k :: k in t ==> m !in t[k].children && t[k].parent != Some(m)
  }

  /** The links after m is attached below slot: m's parent is slot, and slot's children gain m. */
  function AddLeaf(t: Forest, m: string, slot: string): (r: Forest)
    requires slot in t
    ensures r.Keys == t.Keys
  {
    var t1 := if m in t then t[m := Links(Some(slot), t[m].children)] else t;
    t1[slot := Links(t1[slot].parent, t1[slot].children + [m])]
  }

  /** A member of a subtree is its top or somebody's child. */
  lemma {:induction false} SubMember(t: Forest, a: string, y: string)
    requires ChildAcyclic(t) && a in t && y in Sub(t, a)
    ensures y == a || exists z :: z in t && y in t[z].children
    decreases Rk(t)[a]
  {
    if y != a {
      var c :| c in Kids(t, a) && y in Sub(t, c);
      assert Rk(t)[c] < Rk(t)[a];
      SubMember(t, c, y);
      if y == c { assert y in t[a].children; }
    }
  }

  /** Every ancestor of x is somebody's parent. */
  lemma {:induction false} ChainMember(t: Forest, x: string, a: string)
    requires ParentAcyclic(t) && x in t && a in Chain(t, x)
    ensures a in t && exists z :: z in t && t[z].parent == Some(a)
    decreases Pk(t)[x]
  {
    var p := t[x].parent.value;
    if a != p {
      ChainMember(t, p, a);
    }
  }

  /** A member nobody links to is not in the subtree of another member, nor its ancestor. */
  lemma UnplacedOutside(t: Forest, m: string, x: string)
    requires Acyclic(t) && Unplaced(t, m) && x in t && x != m
    ensures m !in Sub(t, x) && m !in Chain(t, x)
  {
    if m in Sub(t, x) { SubMember(t, x, m); }
    if m in Chain(t, x) { ChainMember(t, x, m); }
  }

  lemma AddLeafChildRanked(t: Forest, m: string, slot: string, h: map<string, nat>)
    requires ChildRanked(t, h) && Unplaced(t, m) && slot in t && slot != m
    ensures ChildRanked(AddLeaf(t, m, slot), map k | k in t :: if k == m then 0 else h[k] + 1)
  {
    var r := AddLeaf(t, m, slot);
    var h' := map k | k in t :: if k == m then 0 else h[k] + 1;
    forall x, c | x in r && c in r[x].children && c in r
      ensures h'[c] < h'[x]
    {
      if x == slot {
        if c != m {
          assert c in t[slot].children;
        }
      } else if x != m {
        assert r[x] == t[x];
      }
    }
  }

  lemma AddLeafParentRanked(t: Forest, m: string, slot: string, d: map<string, nat>)
    requires ParentRanked(t, d) && Unplaced(t, m) && slot in t && slot != m
    ensures ParentRanked(AddLeaf(t, m, slot), map k | k in t :: if k == m then d[slot] + 1 else d[k])
  {
    var r := AddLeaf(t, m, slot);
    var d' := map k | k in t :: if k == m then d[slot] + 1 else d[k];
    forall x | x in r && r[x].parent.Some? && r[x].parent.value in r
      ensures d'[r[x].parent.value] < d'[x]
    {
      if x != m {
        assert r[x].parent == t[x].parent;
      }
    }
  }

  /** Attaching an unplaced member below another member keeps the tree acyclic. */
  lemma AddLeafAcyclic(t: Forest, m: string, slot: string)
    requires Acyclic(t) && Unplaced(t, m) && slot in t && slot != m
    ensures Acyclic(AddLeaf(t, m, slot))
  {
    AddLeafChildRanked(t, m, slot, Rk(t));
    AddLeafParentRanked(t, m, slot, Pk(t));
  }

  /** Attaching m below slot leaves the ancestors of slot as they were, and gives m the ancestors slot and its own. */
  lemma {:induction false} AddLeafChain(t: Forest, m: string, slot: string, x: string)
    requires Acyclic(t) && Unplaced(t, m) && slot in t && slot != m && x in t && x != m
    ensures ParentAcyclic(AddLeaf(t, m, slot))
    ensures Chain(AddLeaf(t, m, slot), x) == Chain(t, x)
    decreases Pk(t)[x]
  {
    AddLeafAcyclic(t, m, slot);
    var r := AddLeaf(t, m, slot);
    assert r[x].parent == t[x].parent;
    match t[x].parent
    case None =>
    case Some(p) =>
      if p in t {
        assert p != m;
        AddLeafChain(t, m, slot, p);
      }
  }

  lemma AddLeafChainOfLeaf(t: Forest, m: string, slot: string)
    requires Acyclic(t) && Unplaced(t, m) && slot in t && slot != m && m in t
    ensures ParentAcyclic(AddLeaf(t, m, slot))
    ensures Chain(AddLeaf(t, m, slot), m) == [slot] + Chain(t, slot)
  {
    AddLeafAcyclic(t, m, slot);
    AddLeafChain(t, m, slot, slot);
  }

  /**
   * Attaching m below slot adds m to the subtree of every member whose subtree holds the slot,
   * and changes no other subtree; a member that is not stored joins no subtree.
   */
  lemma SubAddLeaf(t: Forest, m: string, slot: string, x: string)
    requires Acyclic(t) && Unplaced(t, m) && slot in t && slot != m && x in t
    ensures ChildAcyclic(AddLeaf(t, m, slot))
    ensures Sub(AddLeaf(t, m, slot), x) == Sub(t, x) + (if m in t && slot in Sub(t, x) then {m} else {})
  {
    AddLeafAcyclic(t, m, slot);
    forall y ensures y in Sub(AddLeaf(t, m, slot), x) <==> y in Sub(t, x) || (y == m && m in t && slot in Sub(t, x)) {
      SubAddLeafMember(t, m, slot, x, y);
    }
  }

  /** The stored children of each member after m is attached below slot: the slot gains m, if m is stored. */
  lemma KidsAddLeaf(t: Forest, m: string, slot: string, x: string, c: string)
    requires Unplaced(t, m) && slot in t && slot != m && x in t
    ensures c in Kids(AddLeaf(t, m, slot), x) <==> c in Kids(t, x) || (x == slot && c == m && m in t)
    ensures x == m ==> Kids(AddLeaf(t, m, slot), x) == [] && Kids(t, x) == []
  {
    var r := AddLeaf(t, m, slot);
    if x == slot {
      assert r[x].children == t[x].children + [m];
    } else if x == m {
      assert r[x].children == [] && t[x].children == [];
    } else {
      assert r[x] == t[x];
    }
  }

  /** The membership form of SubAddLeaf, by induction on the subtree's rank. */
  lemma {:induction false} SubAddLeafMember(t: Forest, m: string, slot: string, x: string, y: string)
    requires Acyclic(t) && Unplaced(t, m) && slot in t && slot != m && x in t
    ensures ChildAcyclic(AddLeaf(t, m, slot))
    ensures y in Sub(AddLeaf(t, m, slot), x) <==> y in Sub(t, x) || (y == m && m in t && slot in Sub(t, x))
    decreases Rk(t)[x]
  {
    AddLeafAcyclic(t, m, slot);
    var r := AddLeaf(t, m, slot);
    if y == x {
    } else if x == m {
      KidsAddLeaf(t, m, slot, m, y);
      SubUnfold(r, m, y);
      SubUnfold(t, m, y);
      SubUnfold(t, m, slot);
    } else {
      SubUnfold(r, x, y);
      SubUnfold(t, x, y);
      SubUnfold(t, x, slot);
      if y in Sub(r, x) {
        var c :| c in Kids(r, x) && y in Sub(r, c);
        KidsAddLeaf(t, m, slot, x, c);
        if c == m {
          KidsAddLeaf(t, m, slot, m, y);
          SubUnfold(r, m, y);
        } else {
          SubAddLeafMember(t, m, slot, c, y);
        }
      }
      if y in Sub(t, x) {
        var c :| c in Kids(t, x) && y in Sub(t, c);
        KidsAddLeaf(t, m, slot, x, c);
        SubAddLeafMember(t, m, slot, c, y);
      }
      if y == m && m in t && slot in Sub(t, x) {
        if x == slot {
          KidsAddLeaf(t, m, slot, x, m);
          SubUnfold(r, m, m);
        } else {
          var c :| c in Kids(t, x) && slot in Sub(t, c);
          KidsAddLeaf(t, m, slot, x, c);
          SubAddLeafMember(t, m, slot, c, m);
        }
      }
    }
  }

  /** The members below x are those of its subtree other than x. */
  lemma BelowIsSubLess(t: Forest, x: string)
    requires ChildAcyclic(t) && x in t
    ensures Below(t, x) == Sub(t, x) - {x}
  {
    NotBelowItself(t, x);
  }

  /**
   * Attaching a stored member m below slot raises by one the `$graphLookup` count of exactly the
   * members whose subtree holds the slot.
   */
  lemma AddLeafCount(t: Forest, m: string, slot: string, a: string)
    requires Acyclic(t) && Unplaced(t, m) && slot in t && slot != m && a in t
    ensures ChildAcyclic(AddLeaf(t, m, slot))
    ensures DescendantCount(AddLeaf(t, m, slot), a) == DescendantCount(t, a) + (if m in t && slot in Sub(t, a) then 1 else 0)
  {
    AddLeafAcyclic(t, m, slot);
    var r := AddLeaf(t, m, slot);
    var bt, br := BelowAddLeaf(t, m, slot, a);
    if m in t && slot in Sub(t, a) {
      assert |br| == |bt| + 1;
    }
  }

  /** The members below a after m is attached below slot: those before, and m when a's subtree holds the slot. */
  lemma BelowAddLeaf(t: Forest, m: string, slot: string, a: string) returns (bt: set<string>, br: set<string>)
    requires Acyclic(t) && Unplaced(t, m) && slot in t && slot != m && a in t
    ensures ChildAcyclic(AddLeaf(t, m, slot))
    ensures bt == Below(t, a) && br == Below(AddLeaf(t, m, slot), a)
    ensures if m in t && slot in Sub(t, a) then br == bt + {m} && m !in bt else br == bt
  {
    SubAddLeaf(t, m, slot, a);
    var r := AddLeaf(t, m, slot);
    BelowIsSubLess(t, a);
    BelowIsSubLess(r, a);
    bt, br := Below(t, a), Below(r, a);
    if m in t && slot in Sub(t, a) {
      if a == m {
        KidsAddLeaf(t, m, slot, m, slot);
        SubUnfold(t, m, slot);
      }
      UnplacedOutside(t, m, a);
    }
  }

}
