/**
 * The slot search of queues/processRegistrationQueue.js (`findNextAvailableSpot` and its
 * `recursiveSearch`): depth first from the sponsor, trying the children of a full member in
 * ascending order of their stored descendant counts, and never looking above the start.
 */
module RegSearch {
  import opened Common
  import opened Users
  import opened Store
  import opened Tree
  import opened Unified

  // ---------------------------------------------------------------------------------------------
  // Ordering the children

  /** The sort key of a child: its stored `totalDescendantsCount`. */
  function Key(users: map<string, User>, c: string): int
    requires c in users
  {
    users[c].totalDescendantsCount
  }

  predicate Sorted(users: map<string, User>, s: seq<string>)
    requires forall c :: c in s ==> c in users
  {
    forall i, j :: 0 <= i < j < |s| ==> Key(users, s[i]) <= Key(users, s[j])
  }

  /** x placed before the first element of s whose key is not smaller than its own. */
  function Insert(users: map<string, User>, x: string, s: seq<string>): (r: seq<string>)
    requires x in users && forall c :: c in s ==> c in users
    ensures multiset(r) == multiset(s) + multiset{x}
    ensures forall c :: c in r <==> c == x || c in s
  {
    if s == [] then [x]
    else if Key(users, x) <= Key(users, s[0]) then [x] + s
    else
      var rest := Insert(users, x, s[1..]);
      assert s == [s[0]] + s[1..];
      [s[0]] + rest
  }

  lemma {:induction false} InsertSorted(users: map<string, User>, x: string, s: seq<string>)
    requires x in users && (forall c :: c in s ==> c in users) && Sorted(users, s)
    ensures Sorted(users, Insert(users, x, s))
    decreases |s|
  {
    if s != [] && Key(users, x) > Key(users, s[0]) {
      assert Sorted(users, s[1..]);
      InsertSorted(users, x, s[1..]);
      var rest := Insert(users, x, s[1..]);
      forall c | c in rest ensures Key(users, s[0]) <= Key(users, c) {
        if c != x {
          var j :| 0 <= j < |s[1..]| && s[1..][j] == c;
          assert s[j + 1] == c;
        }
      }
      ConsSorted(users, s[0], rest);
    } else if s != [] {
      forall c | c in s ensures Key(users, x) <= Key(users, c) {
        var j :| 0 <= j < |s| && s[j] == c;
        assert Key(users, s[0]) <= Key(users, s[j]);
      }
      ConsSorted(users, x, s);
    }
  }

  /** An element no larger than any of a sorted list, put in front, keeps it sorted. */
  lemma ConsSorted(users: map<string, User>, a: string, s: seq<string>)
    requires a in users && (forall c :: c in s ==> c in users) && Sorted(users, s)
    requires forall c :: c in s ==> Key(users, a) <= Key(users, c)
    ensures Sorted(users, [a] + s)
  {
    var r := [a] + s;
    forall i, j | 0 <= i < j < |r| ensures Key(users, r[i]) <= Key(users, r[j]) {
      assert r[j] == s[j - 1] && s[j - 1] in s;
      if i > 0 { assert r[i] == s[i - 1]; }
    }
  }

  /**
   * `sortedChildren.sort((a, b) => a.descendantCount - b.descendantCount)`: an insertion sort,
   * which like JavaScript's sort keeps elements with equal keys in their original order.
   */
  function SortBy(users: map<string, User>, cs: seq<string>): (r: seq<string>)
    requires forall c :: c in cs ==> c in users
    ensures forall c :: c in r <==> c in cs
    ensures forall c :: c in r ==> c in users
  {
    if cs == [] then [] else Insert(users, cs[0], SortBy(users, cs[1..]))
  }

  /** The sort reorders: it yields a permutation of its input, in ascending key order. */
  lemma {:induction false} SortByPermutes(users: map<string, User>, cs: seq<string>)
    requires forall c :: c in cs ==> c in users
    ensures multiset(SortBy(users, cs)) == multiset(cs)
    ensures Sorted(users, SortBy(users, cs))
    decreases |cs|
  {
    if cs != [] {
      SortByPermutes(users, cs[1..]);
      var rest := SortBy(users, cs[1..]);
      InsertSorted(users, cs[0], rest);
      assert multiset(cs) == multiset{cs[0]} + multiset(cs[1..]) by {
        assert cs == [cs[0]] + cs[1..];
      }
    }
  }

  /** The members of s whose key is n, in order. */
  function WithKey(users: map<string, User>, s: seq<string>, n: int): (r: seq<string>)
    requires forall c :: c in s ==> c in users
  {
    if s == [] then [] else (if Key(users, s[0]) == n then [s[0]] else []) + WithKey(users, s[1..], n)
  }

  lemma WithKeyCons(users: map<string, User>, c: string, s: seq<string>, n: int)
    requires c in users && forall d :: d in s ==> d in users
    ensures WithKey(users, [c] + s, n) == (if Key(users, c) == n then [c] else []) + WithKey(users, s, n)
  {
    assert ([c] + s)[0] == c && ([c] + s)[1..] == s;
  }

  lemma {:induction false} InsertWithKey(users: map<string, User>, x: string, s: seq<string>, n: int)
    requires x in users && forall c :: c in s ==> c in users
    ensures WithKey(users, Insert(users, x, s), n) ==
      if Key(users, x) == n then [x] + WithKey(users, s, n) else WithKey(users, s, n)
    decreases |s|
  {
    if s == [] {
      WithKeyCons(users, x, [], n);
    } else if Key(users, x) <= Key(users, s[0]) {
      assert Insert(users, x, s) == [x] + s;
      WithKeyCons(users, x, s, n);
    } else {
      var rest := Insert(users, x, s[1..]);
      assert Insert(users, x, s) == [s[0]] + rest;
      InsertWithKey(users, x, s[1..], n);
      WithKeyCons(users, s[0], rest, n);
      assert s == [s[0]] + s[1..];
      WithKeyCons(users, s[0], s[1..], n);
    }
  }

  /** The sort is stable: the children with any one key come out in the order they were listed. */
  lemma {:induction false} SortByStable(users: map<string, User>, cs: seq<string>, n: int)
    requires forall c :: c in cs ==> c in users
    ensures WithKey(users, SortBy(users, cs), n) == WithKey(users, cs, n)
    decreases |cs|
  {
    if cs != [] {
      assert WithKey(users, cs, n) == (if Key(users, cs[0]) == n then [cs[0]] else []) + WithKey(users, cs[1..], n);
      InsertWithKey(users, cs[0], SortBy(users, cs[1..]), n);
      SortByStable(users, cs[1..], n);
    }
  }

  /** Children already in ascending order are tried in the order they are listed. */
  lemma {:induction false} SortBySorted(users: map<string, User>, cs: seq<string>)
    requires (forall c :: c in cs ==> c in users) && Sorted(users, cs)
    ensures SortBy(users, cs) == cs
    decreases |cs|
  {
    if cs != [] {
      assert Sorted(users, cs[1..]);
      SortBySorted(users, cs[1..]);
      assert SortBy(users, cs) == Insert(users, cs[0], cs[1..]);
      if |cs| > 1 {
        assert Key(users, cs[0]) <= Key(users, cs[1..][0]);
        assert Insert(users, cs[0], cs[1..]) == [cs[0]] + cs[1..];
      }
      assert cs == [cs[0]] + cs[1..];
    }
  }

  // ---------------------------------------------------------------------------------------------
  // The search

  /** Every listed child of a member is stored (the read in `Promise.all` finds each of them). */
  predicate ChildrenStored(users: map<string, User>, x: string)
    requires x in users
  {
    forall c :: c in users[x].children ==> c in users
  }

  /**
   * `recursiveSearch(x)`: a member that is not stored yields null; one with fewer than three
   * children is the slot; otherwise its children are read (a missing one throws a TypeError
   * when its count is read), sorted, and searched in turn.
   */
  function SearchAt(users: map<string, User>, x: string): Spot
    requires ChildAcyclic(Shape(users))
    decreases if x in users then Rk(Shape(users))[x] else 0, 1
  {
    if x !in users then NoSpot
    else if |users[x].children| < 3 then Found(x)
    else if !ChildrenStored(users, x) then Crash
    else SearchIn(users, x, SortBy(users, users[x].children))
  }

  /** The loop over the sorted children cs of top: the first result that is not null, or null. */
  function SearchIn(users: map<string, User>, top: string, cs: seq<string>): Spot
    requires ChildAcyclic(Shape(users)) && top in users
    requires forall c :: c in cs ==> c in users && c in users[top].children
    decreases Rk(Shape(users))[top], 0, |cs|
  {
    if cs == [] then NoSpot
    else
      assert Rk(Shape(users))[cs[0]] < Rk(Shape(users))[top];
      match SearchAt(users, cs[0])
      case NoSpot => SearchIn(users, top, cs[1..])
      case r => r
  }

  /** The loop yields null exactly when every child yields null. */
  lemma {:induction false} SearchInNone(users: map<string, User>, top: string, cs: seq<string>)
    requires ChildAcyclic(Shape(users)) && top in users
    requires forall c :: c in cs ==> c in users && c in users[top].children
    ensures SearchIn(users, top, cs).NoSpot? <==> forall i :: 0 <= i < |cs| ==> SearchAt(users, cs[i]).NoSpot?
    decreases |cs|
  {
    if cs != [] && SearchAt(users, cs[0]).NoSpot? {
      SearchInNone(users, top, cs[1..]);
      assert forall i :: 0 < i < |cs| ==> cs[i] == cs[1..][i - 1];
    }
  }

  /**
   * The loop returns the result of the first child that yields one, all earlier children having
   * yielded null: i is that child's position.
   */
  lemma {:induction false} SearchInFirst(users: map<string, User>, top: string, cs: seq<string>) returns (i: nat)
    requires ChildAcyclic(Shape(users)) && top in users
    requires forall c :: c in cs ==> c in users && c in users[top].children
    ensures !SearchIn(users, top, cs).NoSpot? ==>
      i < |cs| && SearchIn(users, top, cs) == SearchAt(users, cs[i]) &&
      forall j :: 0 <= j < i ==> SearchAt(users, cs[j]).NoSpot?
    decreases |cs|
  {
    i := 0;
    if cs != [] && SearchAt(users, cs[0]).NoSpot? {
      var k := SearchInFirst(users, top, cs[1..]);
      i := k + 1;
      if k < |cs[1..]| {
        assert cs[i] == cs[1..][k];
        forall j | 0 < j < i ensures cs[j] == cs[1..][j - 1] { }
      }
    }
  }

  /** A slot found lies in the start's subtree and has fewer than three children. */
  lemma {:induction false} SearchSound(users: map<string, User>, x: string)
    requires ChildAcyclic(Shape(users))
    ensures SearchAt(users, x).Found? ==>
      x in users && SearchAt(users, x).slot in Sub(Shape(users), x) &&
      SearchAt(users, x).slot in users && |users[SearchAt(users, x).slot].children| < 3
    decreases if x in users then Rk(Shape(users))[x] else 0, 1
  {
    if x in users && |users[x].children| >= 3 && ChildrenStored(users, x) {
      SearchInSound(users, x, SortBy(users, users[x].children));
    }
  }

  lemma {:induction false} SearchInSound(users: map<string, User>, top: string, cs: seq<string>)
    requires ChildAcyclic(Shape(users)) && top in users
    requires forall c :: c in cs ==> c in users && c in users[top].children
    ensures SearchIn(users, top, cs).Found? ==>
      SearchIn(users, top, cs).slot in Sub(Shape(users), top) &&
      SearchIn(users, top, cs).slot in users && |users[SearchIn(users, top, cs).slot].children| < 3
    decreases Rk(Shape(users))[top], 0, |cs|
  {
    if cs != [] {
      var t := Shape(users);
      assert Rk(t)[cs[0]] < Rk(t)[top];
      SearchSound(users, cs[0]);
      SearchInSound(users, top, cs[1..]);
      var r := SearchAt(users, cs[0]);
      if r.Found? {
        assert cs[0] in Kids(t, top);
        SubUnfold(t, top, r.slot);
      }
    }
  }

  /**
   * The search misses no slot: when it yields null from a stored start, every member of the
   * start's subtree has three or more children.
   */
  lemma {:induction false} SearchComplete(users: map<string, User>, x: string, y: string)
    requires ChildAcyclic(Shape(users)) && x in users && SearchAt(users, x).NoSpot?
    requires y in Sub(Shape(users), x)
    ensures y in users && |users[y].children| >= 3
    decreases Rk(Shape(users))[x]
  {
    var t := Shape(users);
    if y != x {
      SubUnfold(t, x, y);
      var c :| c in Kids(t, x) && y in Sub(t, c);
      assert |users[x].children| >= 3 && ChildrenStored(users, x);
      var sorted := SortBy(users, users[x].children);
      assert c in users[x].children && c in sorted;
      SearchInNone(users, x, sorted);
      var i :| 0 <= i < |sorted| && sorted[i] == c;
      assert SearchAt(users, c).NoSpot?;
      assert Rk(t)[c] < Rk(t)[x];
      SearchComplete(users, c, y);
    }
  }

  /** A search that throws has met, in the start's subtree, a full member listing a child that is not stored. */
  lemma {:induction false} SearchCrash(users: map<string, User>, x: string)
    requires ChildAcyclic(Shape(users)) && SearchAt(users, x).Crash?
    ensures x in users && exists y :: y in Sub(Shape(users), x) && !ChildrenStored(users, y)
    decreases Rk(Shape(users))[x], 1
  {
    var t := Shape(users);
    if ChildrenStored(users, x) {
      var sorted := SortBy(users, users[x].children);
      var i := SearchInFirst(users, x, sorted);
      var c := sorted[i];
      assert Rk(t)[c] < Rk(t)[x];
      SearchCrash(users, c);
      var y :| y in Sub(t, c) && !ChildrenStored(users, y);
      assert c in Kids(t, x);
      SubUnfold(t, x, y);
    }
  }

  /** A slot the search finds from the sponsor is never the new member, which is in no subtree. */
  lemma SlotNotMember(users: map<string, User>, start: string, m: string)
    requires Acyclic(Shape(users)) && Unplaced(Shape(users), m) && start in users && start != m
    requires SearchAt(users, start).Found?
    ensures SearchAt(users, start).slot in users && SearchAt(users, start).slot != m
  {
    SearchSound(users, start);
    UnplacedOutside(Shape(users), m, start);
  }

  // ---------------------------------------------------------------------------------------------
  // The search as the source runs it

  /**
   * `recursiveSearch(nodeId)`: the node is read; a full node's children are read and sorted and
   * the loop searches each in turn, returning the first result found.
   */
  method RecursiveSearch(db: Db, nodeId: string) returns (r: Spot)
    requires ChildAcyclic(Shape(db.users))
    ensures r == SearchAt(db.users, nodeId)
    decreases if nodeId in db.users then Rk(Shape(db.users))[nodeId] else 0, 1
  {
    if nodeId !in db.users {
      return NoSpot;
    }
    var node := db.users[nodeId];
    if |node.children| < 3 {
      return Found(nodeId);
    }
    if !ChildrenStored(db.users, nodeId) {
      return Crash;
    }
    var sortedChildren := SortBy(db.users, node.children);
    for i := 0 to |sortedChildren|
      invariant SearchIn(db.users, nodeId, sortedChildren[i..]) == SearchAt(db.users, nodeId)
    {
      assert sortedChildren[i..][1..] == sortedChildren[i + 1..];
      var child := sortedChildren[i];
      assert Rk(Shape(db.users))[child] < Rk(Shape(db.users))[nodeId];
      var result := RecursiveSearch(db, child);
      if !result.NoSpot? {
        return result;
      }
    }
    return NoSpot;
  }

  /**
   * `findNextAvailableSpot(startNodeId)`: an unknown start yields null; otherwise the result of
   * the search from it. Nothing is written.
   */
  method FindNextAvailableSpot(db: Db, startNodeId: string) returns (r: Spot)
    requires ChildAcyclic(Shape(db.users))
    ensures r == SearchAt(db.users, startNodeId)
    ensures startNodeId !in db.users ==> r.NoSpot?
  {
    if startNodeId !in db.users {
      return NoSpot;
    }
    r := RecursiveSearch(db, startNodeId);
  }
}
