/**
 * The job processor of queues/processRegistrationQueue.js: a registration with a sponsor is
 * placed in the slot the depth-first search finds, and `updateAncestors` then walks from the
 * slot to the root, recomputing every visited member's counts and level with no early stop.
 */
module Registration {
  import opened Common
  import opened Users
  import opened Wallets
  import opened Store
  import opened Tree
  import opened Unified
  import opened Descendants
  import opened RegSearch

  // ---------------------------------------------------------------------------------------------
  // getTotalDescendants

  /**
   * `getTotalDescendants(customerId)`: a member that is not stored counts 0; otherwise its
   * children's number plus, child by child, each child's own count.
   */
  method GetTotalDescendants(db: Db, customerId: string) returns (count: nat)
    requires ChildAcyclic(Shape(db.users))
    ensures count == TotalDescendants(Shape(db.users), customerId)
    decreases if customerId in db.users then Rk(Shape(db.users))[customerId] + 1 else 0
  {
    var t := Shape(db.users);
    if customerId !in db.users {
      return 0;
    }
    var customer := db.users[customerId];
    count := |customer.children|;
    for i := 0 to |customer.children|
      invariant count + ChildrenTotal(t, customerId, customer.children[i..]) == TotalDescendants(t, customerId)
    {
      var childId := customer.children[i];
      assert customer.children[i..][1..] == customer.children[i + 1..];
      var sub := GetTotalDescendants(db, childId);
      if childId !in t {
        assert sub == 0;
      }
      count := count + sub;
    }
  }

  // ---------------------------------------------------------------------------------------------
  // One visit of updateAncestors

  /**
   * The level a visit gives a member: 0 unless it has exactly three children, otherwise the
   * smallest child level plus one, capped at 15; a missing child makes the read throw.
   */
  function NewLevel(users: map<string, User>, u: User): (r: Option<int>)
    ensures |u.children| != 3 ==> r == Some(0)
    ensures |u.children| == 3 ==> (r.Some? <==> forall i :: 0 <= i < 3 ==> u.children[i] in users)
    ensures |u.children| == 3 && r.Some? ==>
      var ls := ChildLevels(users, u.children).value;
      r.value <= 15 && r.value == Capped(MinOf(ls) + 1) && forall i :: 0 <= i < 3 ==> r.value <= ls[i] + 1
  {
    if |u.children| == 3 then
      match Rise(users, u.children)
      case None => None
      case Some(v) => Some(Capped(v))
    else Some(0)
  }

  /**
   * The four counters' agreement with the tree at x: the recursive descendant count, the
   * number of children, completeness, and the number of referred members.
   */
  predicate CountsFresh(w: User, t: Forest, x: string)
    requires ChildAcyclic(t)
  {
    w.totalDescendantsCount == TotalDescendants(t, x) && w.childCount == |w.children| &&
    (w.isComplete <==> |w.children| == 3) && w.referredCustomersCount == |w.referredCustomers|
  }

  /** A member's stored level is what the level rule yields from its children's stored levels. */
  predicate LevelRule(users: map<string, User>, k: string)
    requires k in users
  {
    NewLevel(users, users[k]) == Some(users[k].level)
  }

  /** The copy a visit saves: the copy read, with its four counters and its level recomputed. */
  function Recomputed(db: Db, x: string, level: int): (doc: User)
    requires ChildAcyclic(Shape(db.users)) && x in db.users
    ensures SameLinks(doc, db.users[x]) && doc.level == level
    ensures CountsFresh(doc, Shape(db.users), x)
  {
    var u := db.users[x];
    u.(totalDescendantsCount := TotalDescendants(Shape(db.users), x), childCount := |u.children|,
       isComplete := |u.children| == 3, referredCustomersCount := |u.referredCustomers|, level := level)
  }

  /**
   * One pass of the loop at x. A member with three children one of which is missing throws
   * before anything is saved. Otherwise x is saved with fresh counters and its new level (the
   * hooks then set its rank from the new referred count); no other member changes and the links
   * stay as they were.
   */
  function RegVisit(db: Db, x: string, now: Date): (r: Option<Db>)
    requires UsersKeyed(db) && ChildAcyclic(Shape(db.users)) && x in db.users
    ensures r.None? <==> NewLevel(db.users, db.users[x]).None?
    ensures r.Some? ==> Bookkeeping(db, r.value) && Shape(r.value.users) == Shape(db.users) && WalletsGrowAt(db, r.value, x)
    ensures r.Some? ==> forall k :: k in db.users && k != x ==> r.value.users[k] == db.users[k]
    ensures r.Some? ==> CountsFresh(r.value.users[x], Shape(db.users), x)
    ensures r.Some? ==> Some(r.value.users[x].level) == NewLevel(db.users, db.users[x])
  {
    var u := db.users[x];
    match NewLevel(db.users, u)
    case None => None
    case Some(level) =>
      var doc := Recomputed(db, x, level);
      SaveFresh(db, doc, now);
      SaveBookkeeping(db, u, doc, now);
      SaveKeepsShape(db, u, doc, now);
      Some(SaveUser(db, u, doc, now))
  }

  /**
   * `updateAncestors(x)`: visits x and then its parent, and so on, until a visit throws or the
   * parent is unset or not stored; no visit ends the walk early. A visit throws before its save
   * when a child is missing, and in its save, after the write, when x has no wallet reference
   * but a wallet is stored under it. The flag is false when a visit threw.
   */
  function RegWalk(db: Db, x: string, now: Date): (r: (Db, bool))
    requires UsersKeyed(db) && Acyclic(Shape(db.users))
    ensures Bookkeeping(db, r.0) && Shape(r.0.users) == Shape(db.users) && UsersKeyed(r.0)
    decreases if x in db.users then Pk(Shape(db.users))[x] else 0
  {
    if x !in db.users then (db, true)
    else match RegVisit(db, x, now)
      case None => (db, false)
      case Some(d) =>
        var p := db.users[x].parent;
        if SaveThrows(db, db.users[x]) then (d, false)
        else if p.Some? && p.value in d.users then
          var r := RegWalk(d, p.value, now);
          BookkeepingTrans(db, d, r.0);
          r
        else (d, true)
  }

  /** The walk from x writes only x and its ancestors. */
  lemma {:induction false} RegWalkConfined(db: Db, x: string, now: Date, k: string)
    requires UsersKeyed(db) && Acyclic(Shape(db.users))
    requires k in db.users && k !in Climb(Shape(db.users), x)
    ensures RegWalk(db, x, now).0.users[k] == db.users[k]
    decreases if x in db.users then Pk(Shape(db.users))[x] else 0
  {
    var t := Shape(db.users);
    if x in db.users {
      var v := RegVisit(db, x, now);
      assert x in Climb(t, x);
      if v.Some? && !SaveThrows(db, db.users[x]) {
        var p := db.users[x].parent;
        if p.Some? && p.value in v.value.users {
          assert Climb(t, x) == [x] + Climb(t, p.value);
          RegWalkConfined(v.value, p.value, now, k);
        }
      }
    }
  }

  /** Level reads from two stores that agree on the listed children read the same levels. */
  lemma ChildLevelsAgree(a: map<string, User>, b: map<string, User>, cs: seq<string>)
    requires forall c :: c in cs ==> (c in a <==> c in b) && (c in a ==> a[c].level == b[c].level)
    ensures ChildLevels(a, cs) == ChildLevels(b, cs)
  {
    var la, lb := ChildLevels(a, cs), ChildLevels(b, cs);
    if la.Some? {
      assert la.value == lb.value;
    }
  }

  /**
   * On a well-formed tree no child of x lies on the path the walk takes above x, and neither
   * does x itself.
   */
  lemma OffPath(t: Forest, x: string, p: string)
    requires Acyclic(t) && Proper(t) && x in t && t[x].parent == Some(p) && p in t
    ensures x !in Climb(t, p)
    ensures forall c :: c in t[x].children ==> c !in Climb(t, p)
  {
    ChainDescends(t, p);
    ProperChildren(t, x);
  }

  /** x's state right after its visit survives the rest of the walk, and so does each of its children's. */
  lemma VisitSurvives(db: Db, d: Db, x: string, p: string, now: Date)
    requires UsersKeyed(d) && Acyclic(Shape(d.users)) && Proper(Shape(d.users))
    requires x in d.users && d.users[x].parent == Some(p) && p in d.users
    ensures RegWalk(d, p, now).0.users[x] == d.users[x]
    ensures forall c :: c in d.users[x].children && c in d.users ==> RegWalk(d, p, now).0.users[c] == d.users[c]
  {
    var t := Shape(d.users);
    OffPath(t, x, p);
    RegWalkConfined(d, p, now, x);
    forall c | c in d.users[x].children && c in d.users ensures RegWalk(d, p, now).0.users[c] == d.users[c] {
      RegWalkConfined(d, p, now, c);
    }
  }

  /** A visit's level uses its children's levels as they stand after the visit (x is not its own child). */
  lemma VisitRule(db: Db, x: string, now: Date, f: map<string, User>)
    requires UsersKeyed(db) && Acyclic(Shape(db.users)) && x in db.users && RegVisit(db, x, now).Some?
    requires f.Keys == db.users.Keys && f[x] == RegVisit(db, x, now).value.users[x]
    requires forall c :: c in db.users[x].children && c in db.users ==> f[c] == RegVisit(db, x, now).value.users[c]
    ensures LevelRule(f, x) && CountsFresh(f[x], Shape(db.users), x)
  {
    var t := Shape(db.users);
    var d := RegVisit(db, x, now).value;
    assert x !in db.users[x].children by {
      assert ChildRanked(t, Rk(t));
    }
    assert f[x].children == db.users[x].children;
    NewLevelAgree(f, db.users, f[x], db.users[x]);
  }

  /** The level rule gives the same level from two stores that agree on the children's levels. */
  lemma NewLevelAgree(a: map<string, User>, b: map<string, User>, u: User, v: User)
    requires u.children == v.children
    requires forall c :: c in u.children ==> (c in a <==> c in b) && (c in a ==> a[c].level == b[c].level)
    ensures NewLevel(a, u) == NewLevel(b, v)
  {
    ChildLevelsAgree(a, b, u.children);
  }

  /**
   * A walk that completes leaves every member on the path from x to the root with fresh counters
   * and with the level the rule gives from its children's final levels, so the level recurrence
   * holds along the whole path; the descendant count is the number of members below, as the
   * `$graphLookup` count would give it.
   */
  lemma {:induction false} RegWalkRefreshed(db: Db, x: string, now: Date, k: string)
    requires UsersKeyed(db) && Acyclic(Shape(db.users)) && Proper(Shape(db.users))
    requires RegWalk(db, x, now).1 && k in Climb(Shape(db.users), x)
    ensures k in db.users && LevelRule(RegWalk(db, x, now).0.users, k)
    ensures CountsFresh(RegWalk(db, x, now).0.users[k], Shape(db.users), k)
    ensures RegWalk(db, x, now).0.users[k].totalDescendantsCount == DescendantCount(Shape(db.users), k)
    decreases Pk(Shape(db.users))[x]
  {
    var t := Shape(db.users);
    var d := RegVisit(db, x, now).value;
    var p := db.users[x].parent;
    if k != x {
      ClimbStep(t, x, k);
      assert RegWalk(db, x, now).0 == RegWalk(d, p.value, now).0;
      RegWalkRefreshed(d, p.value, now, k);
    } else {
      RefreshedAtStart(db, x, now);
    }
    TotalIsBelow(t, k);
  }

  /** A member of the path other than its start is on the path from the start's parent, which is stored. */
  lemma ClimbStep(t: Forest, x: string, k: string)
    requires ParentAcyclic(t) && k in Climb(t, x) && k != x
    ensures x in t && t[x].parent.Some? && t[x].parent.value in t && k in Climb(t, t[x].parent.value)
  {
  }

  /** The walk's start keeps the state its visit gave it, which follows the level rule with fresh counters. */
  lemma RefreshedAtStart(db: Db, x: string, now: Date)
    requires UsersKeyed(db) && Acyclic(Shape(db.users)) && Proper(Shape(db.users))
    requires RegWalk(db, x, now).1 && x in db.users
    ensures LevelRule(RegWalk(db, x, now).0.users, x)
    ensures CountsFresh(RegWalk(db, x, now).0.users[x], Shape(db.users), x)
  {
    var d := RegVisit(db, x, now).value;
    var f := RegWalk(db, x, now).0;
    var p := db.users[x].parent;
    if p.Some? && p.value in d.users {
      assert f == RegWalk(d, p.value, now).0;
      VisitSurvives(db, d, x, p.value, now);
    } else {
      assert f == d;
    }
    VisitRule(db, x, now, f.users);
  }

  /**
   * On a well-formed tree every listed child is stored, so no visit throws before its save, and
   * the walk completes exactly when no member on the path from x to the root has a stored wallet
   * but no wallet reference.
   */
  lemma {:induction false} RegWalkCompletes(db: Db, x: string, now: Date)
    requires UsersKeyed(db) && Acyclic(Shape(db.users)) && Proper(Shape(db.users))
    ensures RegWalk(db, x, now).1 <==> NoneUnlinked(db, Climb(Shape(db.users), x))
    decreases if x in db.users then Pk(Shape(db.users))[x] else 0
  {
    var t := Shape(db.users);
    if x in db.users {
      ProperChildren(t, x);
      var d := RegVisit(db, x, now).value;
      var p := db.users[x].parent;
      assert x in Climb(t, x);
      if Unlinked(db, x) {
        assert !RegWalk(db, x, now).1;
      } else if p.Some? && p.value in d.users {
        assert RegWalk(db, x, now) == RegWalk(d, p.value, now);
        RegWalkCompletes(d, p.value, now);
        VisitKeepsUnlinked(db, d, x, p.value);
      } else {
        assert RegWalk(db, x, now).1;
        assert Climb(t, x) == [x] by {
          assert Chain(t, x) == [];
        }
      }
    }
  }

  /**
   * The path above x after x's visit: it runs from x's parent as before, and no member of it
   * changed its wallet reference or gained a wallet.
   */
  lemma VisitKeepsUnlinked(db: Db, d: Db, x: string, p: string)
    requires UsersKeyed(db) && Acyclic(Shape(db.users)) && x in db.users && db.users[x].parent == Some(p) && p in db.users
    requires Bookkeeping(db, d) && Shape(d.users) == Shape(db.users) && WalletsGrowAt(db, d, x)
    requires forall k :: k in db.users && k != x ==> d.users[k] == db.users[k]
    ensures NoneUnlinked(d, Climb(Shape(d.users), p)) <==> NoneUnlinked(db, Climb(Shape(d.users), p))
    ensures NoneUnlinked(db, Climb(Shape(db.users), x)) <==> !Unlinked(db, x) && NoneUnlinked(db, Climb(Shape(d.users), p))
  {
    var t := Shape(db.users);
    OffClimb(t, x, p);
    forall k | k in Climb(t, p) ensures Unlinked(d, k) <==> Unlinked(db, k) {
      assert k != x && d.users[k] == db.users[k];
      assert k in d.wallets <==> k in db.wallets;
    }
    assert Climb(t, x) == [x] + Climb(t, p);
  }

  // ---------------------------------------------------------------------------------------------
  // The walk as the source runs it

  /** One pass of the `while (current)` loop: counters and level set on the copy, which is then saved. */
  method Visit(db: Db, current: string, now: Date) returns (r: Option<Db>)
    requires UsersKeyed(db) && ChildAcyclic(Shape(db.users)) && current in db.users
    ensures r == RegVisit(db, current, now)
  {
    var loaded := db.users[current];
    var total := GetTotalDescendants(db, current);
    var doc := loaded.(totalDescendantsCount := total, childCount := |loaded.children|,
                       isComplete := |loaded.children| == 3, referredCustomersCount := |loaded.referredCustomers|);
    if |loaded.children| == 3 {
      var childLevels := ChildLevels(db.users, loaded.children);
      if childLevels.None? {
        return None;
      }
      var level := MinOf(childLevels.value) + 1;
      if level > 15 {
        level := 15;
      }
      doc := doc.(level := level);
    } else {
      doc := doc.(level := 0);
    }
    assert doc == Recomputed(db, current, NewLevel(db.users, loaded).value);
    return Some(SaveUser(db, loaded, doc, now));
  }

  /** `updateAncestors(customerId)`: the loop moves to the member named by the copy's `parent`. */
  method UpdateAncestors(db: Db, customerId: string, now: Date) returns (db': Db, ok: bool)
    requires UsersKeyed(db) && Acyclic(Shape(db.users))
    ensures (db', ok) == RegWalk(db, customerId, now)
  {
    var t := Shape(db.users);
    if customerId !in db.users {
      return db, true;
    }
    db' := db;
    var current := customerId;
    while true
      invariant current in db'.users && Shape(db'.users) == t && UsersKeyed(db')
      invariant RegWalk(db', current, now) == RegWalk(db, customerId, now)
      decreases Pk(t)[current]
    {
      var parent := db'.users[current].parent;
      var saveThrows := SaveThrows(db', db'.users[current]);
      var v := Visit(db', current, now);
      if v.None? {
        return db', false;
      }
      if saveThrows {
        return v.value, false;
      }
      if parent.None? || parent.value !in v.value.users {
        return v.value, true;
      }
      db', current := v.value, parent.value;
    }
  }
}
