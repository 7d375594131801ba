/**
 * queues/unifiedQueue.js: the job that places a registered member in the referral tree and
 * pays the commissions of its first purchase, with the retry loop around it.
 */
module Unified {
  import opened Common
  import opened Users
  import opened Wallets
  import opened Store
  import opened Tree
  import opened WalletDocs
  import opened Credits

  const DirectPlanCommission: real := 0.2
  const LevelPlanCommission: real := 0.05
  const MaxRetries: nat := 3
  const InitialBackoff: nat := 1000

  // ---------------------------------------------------------------------------------------------
  // processWithRetry

  function Pow2(k: nat): (r: nat)
    ensures r >= 1
  {
    if k == 0 then 1 else 2 * Pow2(k - 1)
  }

  /** The backoff waited after the k-th failure: `INITIAL_BACKOFF * 2^k`. */
  function Backoff(k: nat): nat
  {
    InitialBackoff * Pow2(k)
  }

  /**
   * `processWithRetry`, given the outcomes the successive `processJob` calls would have. The job
   * runs at most three times; the first success is returned unchanged (with the number of calls
   * and the backoffs waited before it); after three failures a fresh "Max retries" error replaces
   * the job's own. The else branch of the source, whose guard repeats the loop condition, is
   * unreachable.
   */
  method ProcessWithRetry<T>(jobId: string, outcomes: seq<Result<T>>) returns (r: Result<T>, calls: nat, delays: seq<nat>)
    requires |outcomes| >= MaxRetries
    ensures 1 <= calls <= MaxRetries
    ensures forall i :: 0 <= i < calls - 1 ==> outcomes[i].Err?
    ensures r.Ok? <==> exists i :: 0 <= i < MaxRetries && outcomes[i].Ok?
    ensures r.Ok? ==> r == outcomes[calls - 1]
    ensures r.Err? ==>
      (calls == MaxRetries && outcomes[MaxRetries - 1].Err? && r.error == "Max retries (3) reached for job " + jobId)
    ensures |delays| == if r.Ok? then calls - 1 else calls
    ensures forall k :: 0 <= k < |delays| ==> delays[k] == Backoff(k + 1)
  {
    var retries: nat := 0;
    delays := [];
    calls := 0;
    while retries < MaxRetries
      invariant retries <= MaxRetries && calls == retries && |delays| == retries
      invariant forall i :: 0 <= i < retries ==> outcomes[i].Err?
      invariant forall k :: 0 <= k < |delays| ==> delays[k] == Backoff(k + 1)
    {
      calls := calls + 1;
      var result := outcomes[retries];
      if result.Ok? {
        return result, calls, delays;
      }
      if retries < MaxRetries {
        retries := retries + 1;
        delays := delays + [Backoff(retries)];
      } else {
        assert false;
      }
    }
    r := Err("Max retries (3) reached for job " + jobId);
  }

  /** The three backoffs are 2, 4 and 8 seconds. */
  lemma BackoffSchedule()
    ensures Backoff(1) == 2000 && Backoff(2) == 4000 && Backoff(3) == 8000
  {
    assert Pow2(3) == 8 by { assert Pow2(2) == 4 by { assert Pow2(1) == 2; } }
  }

  // ---------------------------------------------------------------------------------------------
  // findNextAvailableSpot

  /**
   * The slot test `children.length < 3 && depth < 15`; a member without a depth value compares
   * `undefined < 15`, which is false.
   */
  predicate Open(u: User)
  {
    |u.children| < 3 && u.depth.Some? && u.depth.value < 15
  }

  /** The position of the first member of order that passes the slot test. */
  function FirstOpenAt(users: map<string, User>, order: seq<string>): (r: Option<nat>)
    requires forall k :: k in order ==> k in users
    ensures r.Some? ==> r.value < |order| && Open(users[order[r.value]])
    ensures r.Some? ==> forall j :: 0 <= j < r.value ==> !Open(users[order[j]])
    ensures r.None? ==> forall j :: 0 <= j < |order| ==> !Open(users[order[j]])
  {
    if order == [] then None
    else if Open(users[order[0]]) then Some(0)
    else match FirstOpenAt(users, order[1..])
      case None => None
      case Some(i) => Some(i + 1)
  }

  /** The first member of order that passes the slot test, if any. */
  function FirstOpen(users: map<string, User>, order: seq<string>): (r: Option<string>)
    requires forall k :: k in order ==> k in users
    ensures r.Some? ==> r.value in order && Open(users[r.value])
    ensures r.None? <==> forall k :: k in order ==> !Open(users[k])
  {
    match FirstOpenAt(users, order)
    case None => None
    case Some(i) => Some(order[i])
  }

  /** What the search yields: a slot, no slot (`null`), or a TypeError from a missing tree parent. */
  datatype Spot = Found(slot: string) | NoSpot | Crash

  /**
   * The search from the existing member start: its subtree in breadth-first order, then, when no
   * member there passes the slot test, the same from its tree parent. A parent link to a member
   * that does not exist ends the search with a TypeError (the log line reads the null's userId).
   */
  function SpotFrom(users: map<string, User>, start: string): Spot
    requires Acyclic(Shape(users)) && start in users
    decreases Pk(Shape(users))[start]
  {
    var t := Shape(users);
    match FirstOpen(users, Bfs(t, [start]))
    case Some(s) => Found(s)
    case None =>
      match users[start].parent
      case None => NoSpot
      case Some(p) => if p in users then SpotFrom(users, p) else Crash
  }

  /** `findNextAvailableSpot(startNodeId)`: an unknown start yields null. */
  function FindSpot(users: map<string, User>, start: string): Spot
    requires Acyclic(Shape(users))
  {
    if start in users then SpotFrom(users, start) else NoSpot
  }

  /** The members the search starts its breadth-first scans from: start and then its ancestors. */
  function Climb(t: Forest, x: string): (r: seq<string>)
    requires ParentAcyclic(t)
    ensures forall a :: a in r ==> a in t
  {
    if x in t then
      ChainDescends(t, x);
      [x] + Chain(t, x)
    else []
  }

  /** The path from a stored member is that member, then the path from its parent when the parent is stored. */
  lemma ClimbUnfold(t: Forest, x: string)
    requires ParentAcyclic(t) && x in t
    ensures Climb(t, x) ==
      [x] + (if t[x].parent.Some? && t[x].parent.value in t then Climb(t, t[x].parent.value) else [])
  {
  }

  /**
   * A slot is found exactly when some member in the subtree of start or of one of its ancestors
   * passes the slot test; the slot found passes it and lies in such a subtree.
   */
  lemma {:induction false} SpotFound(users: map<string, User>, start: string)
    requires Acyclic(Shape(users))
    ensures FindSpot(users, start).Found? <==>
      exists a, y :: a in Climb(Shape(users), start) && y in Sub(Shape(users), a) && Open(users[y])
    ensures FindSpot(users, start).Found? ==>
      var s := FindSpot(users, start).slot;
      s in users && Open(users[s]) && exists a :: a in Climb(Shape(users), start) && s in Sub(Shape(users), a)
    decreases if start in users then Pk(Shape(users))[start] else 0
  {
    var t := Shape(users);
    if start in users {
      var first := FirstOpen(users, Bfs(t, [start]));
      var climb := Climb(t, start);
      assert climb == [start] + Chain(t, start);
      if first.Some? {
        BfsCovers(t, [start], first.value);
        assert start in climb;
      } else {
        assert forall y :: y in Sub(t, start) ==> !Open(users[y]) by {
          forall y | y in Sub(t, start) ensures !Open(users[y]) {
            BfsCovers(t, [start], y);
          }
        }
        match users[start].parent
        case None =>
          assert Chain(t, start) == [];
        case Some(p) =>
          if p in users {
            assert Pk(t)[p] < Pk(t)[start];
            SpotFound(users, p);
            assert Chain(t, start) == [p] + Chain(t, p);
            assert Climb(t, p) == Chain(t, start);
            assert forall a :: a in climb <==> a == start || a in Climb(t, p);
          } else {
            assert Chain(t, start) == [];
          }
      }
    }
  }

  /**
   * No stored member has a depth value (the schema has no such path), so the slot test never
   * passes and the search never finds a slot.
   */
  lemma {:induction false} NoDepthNoSlot(users: map<string, User>, start: string)
    requires Acyclic(Shape(users))
    requires forall k :: k in users ==> users[k].depth.None?
    ensures !FindSpot(users, start).Found?
  {
    SpotFound(users, start);
  }

  /** One step of the breadth-first scan: the head of the queue is tested, then its children are queued. */
  lemma FirstOpenStep(users: map<string, User>, q: seq<string>)
    requires Acyclic(Shape(users)) && q != [] && forall k :: k in q ==> k in users
    ensures forall k :: k in q[1..] + Kids(Shape(users), q[0]) ==> k in users
    ensures FirstOpen(users, Bfs(Shape(users), q)) ==
      if Open(users[q[0]]) then Some(q[0]) else FirstOpen(users, Bfs(Shape(users), q[1..] + Kids(Shape(users), q[0])))
  {
    var t := Shape(users);
    BfsStep(t, q);
    var next := q[1..] + Kids(t, q[0]);
    var order := Bfs(t, q);
    assert order == [q[0]] + Bfs(t, next);
    assert order[1..] == Bfs(t, next);
  }

  /** The breadth-first scan of one subtree: the queue of the source holds the members' ids. */
  method ScanSubtree(db: Db, t: Forest, start: string) returns (found: Option<string>)
    requires Acyclic(Shape(db.users)) && t == Shape(db.users) && start in db.users
    ensures forall k :: k in Bfs(t, [start]) ==> k in db.users
    ensures found == FirstOpen(db.users, Bfs(t, [start]))
  {
    var queue := [start];
    while queue != []
      invariant forall k :: k in queue ==> k in t
      invariant forall k :: k in Bfs(t, queue) ==> k in t
      invariant FirstOpen(db.users, Bfs(t, [start])) == FirstOpen(db.users, Bfs(t, queue))
      decreases Weight(t, queue)
    {
      FirstOpenStep(db.users, queue);
      BfsStep(t, queue);
      var node := queue[0];
      if |db.users[node].children| < 3 && db.users[node].depth.Some? && db.users[node].depth.value < 15 {
        return Some(node);
      }
      var children := Kids(t, node);
      queue := queue[1..] + children;
    }
    return None;
  }

  /** `findNextAvailableSpot` reads the store and writes nothing. */
  method FindNextAvailableSpot(db: Db, startNodeId: string) returns (r: Spot)
    requires Acyclic(Shape(db.users))
    ensures r == FindSpot(db.users, startNodeId)
  {
    if startNodeId !in db.users {
      return NoSpot;
    }
    var t := Shape(db.users);
    var current := startNodeId;
    while true
      invariant current in db.users
      invariant SpotFrom(db.users, current) == FindSpot(db.users, startNodeId)
      decreases Pk(t)[current]
    {
      var found := ScanSubtree(db, t, current);
      if found.Some? {
        return Found(found.value);
      }
      var parent := db.users[current].parent;
      if parent.None? {
        return NoSpot;
      }
      if parent.value !in db.users {
        return Crash;
      }
      current := parent.value;
    }
  }

  // ---------------------------------------------------------------------------------------------
  // processCommissions

  /** The referrer's userId when `referredBy` is given (non-empty) and names a stored member. */
  function Referrer(db: Db, referredBy: string): Option<string>
  {
    if referredBy != "" && referredBy in db.users then Some(db.users[referredBy].userId) else None
  }

  /** The direct commission, when there is a referrer. */
  function ReferrerCredit(db: Db, referredBy: string, points: real): seq<Credit>
  {
    match Referrer(db, referredBy)
    case Some(r) => [Credit(r, Referral, points * DirectPlanCommission)]
    case None => []
  }

  /**
   * The credits `processCommissions` makes for the member userId: its own purchase, the direct
   * commission of its referrer, and the level commission of every tree ancestor, nearest first.
   */
  function CommissionPlan(db: Db, userId: string, points: real, referredBy: string): seq<Credit>
    requires ParentAcyclic(Shape(db.users)) && userId in db.users
  {
    [Credit(userId, Personal, points)] + ReferrerCredit(db, referredBy, points)
    + Each(Chain(Shape(db.users), userId), Level, points * LevelPlanCommission)
  }

  lemma GainSingle(c: Credit, x: string)
    ensures Gain([c], x) == if c.userId == x then c.amount else 0.0
  {
    assert [c][1..] == [];
  }

  /**
   * What the plan pays each member: the points to the member itself, a fifth of them to the
   * referrer and a twentieth to each ancestor, the referrer included when it is also an ancestor.
   */
  lemma CommissionShares(db: Db, userId: string, points: real, referredBy: string, x: string)
    requires ParentAcyclic(Shape(db.users)) && userId in db.users
    ensures Gain(CommissionPlan(db, userId, points, referredBy), x) ==
      (if x == userId then points else 0.0) +
      (if Referrer(db, referredBy) == Some(x) then points * DirectPlanCommission else 0.0) +
      (if x in Chain(Shape(db.users), userId) then points * LevelPlanCommission else 0.0)
  {
    var t := Shape(db.users);
    ChainDescends(t, userId);
    var own := [Credit(userId, Personal, points)];
    var ref := ReferrerCredit(db, referredBy, points);
    var levels := Each(Chain(t, userId), Level, points * LevelPlanCommission);
    GainAppend(own + ref, levels, x);
    GainAppend(own, ref, x);
    GainEach(Chain(t, userId), Level, points * LevelPlanCommission, x);
    GainSingle(own[0], x);
    assert own == [own[0]];
    if ref != [] {
      GainSingle(ref[0], x);
      assert ref == [ref[0]];
    }
  }

  /** Every credit of the plan goes to a stored member. */
  lemma CommissionPlanToMembers(db: Db, userId: string, points: real, referredBy: string)
    requires UsersKeyed(db) && ParentAcyclic(Shape(db.users)) && userId in db.users
    ensures ToMembers(db, CommissionPlan(db, userId, points, referredBy))
  {
    var t := Shape(db.users);
    ChainDescends(t, userId);
    var plan := CommissionPlan(db, userId, points, referredBy);
    var own := [Credit(userId, Personal, points)];
    var ref := ReferrerCredit(db, referredBy, points);
    var levels := Each(Chain(t, userId), Level, points * LevelPlanCommission);
    assert plan == own + ref + levels;
    forall i | 0 <= i < |plan| ensures plan[i].userId in db.users {
      if i >= |own| + |ref| {
        assert plan[i] == levels[i - |own| - |ref|];
        assert Chain(t, userId)[i - |own| - |ref|] in Chain(t, userId);
      } else if i >= |own| {
        assert plan[i] == ref[i - |own|];
      }
    }
  }

  /**
   * With every wallet stored under its owner, the fan-out completes, and an active member's
   * balance grows by exactly its share of the plan.
   */
  lemma CommissionGain(db: Db, userId: string, points: real, referredBy: string, now: Date, x: string)
    requires UsersKeyed(db) && WalletsKeyed(db) && ParentAcyclic(Shape(db.users)) && userId in db.users
    requires x in db.wallets && x in db.users && db.users[x].isActive
    ensures var r := RunCredits(db, CommissionPlan(db, userId, points, referredBy), now);
      r.1 && r.0.wallets.Keys == db.wallets.Keys &&
      r.0.wallets[x].currentBalance == db.wallets[x].currentBalance +
        (if x == userId then points else 0.0) +
        (if Referrer(db, referredBy) == Some(x) then points * DirectPlanCommission else 0.0) +
        (if x in Chain(Shape(db.users), userId) then points * LevelPlanCommission else 0.0)
  {
    CommissionPlanToMembers(db, userId, points, referredBy);
    RunCreditsGain(db, CommissionPlan(db, userId, points, referredBy), now, x);
    CommissionShares(db, userId, points, referredBy, x);
  }

  /**
   * The same fan-out with the reward check as written: it completes exactly when no credit
   * of the plan reaches a threshold its member holds no reward for, and then every active
   * member gains its share as above.
   */
  lemma CommissionGainAsWritten(db: Db, userId: string, points: real, referredBy: string, now: Date, x: string)
    requires UsersKeyed(db) && WalletsKeyed(db) && ParentAcyclic(Shape(db.users)) && userId in db.users
    requires x in db.wallets && x in db.users && db.users[x].isActive
    ensures var plan := CommissionPlan(db, userId, points, referredBy);
      RunCreditsAsWritten(db, plan, now).1 <==> NoneDue(db, plan, now)
    ensures var plan := CommissionPlan(db, userId, points, referredBy);
      var r := RunCreditsAsWritten(db, plan, now);
      NoneDue(db, plan, now) ==>
        x in r.0.wallets &&
        r.0.wallets[x].currentBalance == db.wallets[x].currentBalance +
          (if x == userId then points else 0.0) +
          (if Referrer(db, referredBy) == Some(x) then points * DirectPlanCommission else 0.0) +
          (if x in Chain(Shape(db.users), userId) then points * LevelPlanCommission else 0.0)
  {
    CommissionPlanToMembers(db, userId, points, referredBy);
    RunCreditsGainAsWritten(db, CommissionPlan(db, userId, points, referredBy), now, x);
    CommissionShares(db, userId, points, referredBy, x);
  }

  /** The ancestors of the member doc u, nearest first, as the `parents` loop collects them. */
  method CollectParents(db: Db, u: User) returns (parents: seq<string>)
    requires UsersKeyed(db) && ParentAcyclic(Shape(db.users))
    requires u.userId in db.users && u.parent == db.users[u.userId].parent
    ensures parents == Chain(Shape(db.users), u.userId)
  {
    var t := Shape(db.users);
    parents := [];
    var current := u;
    while current.parent.Some? && current.parent.value in db.users
      invariant current.userId in t && current.parent == t[current.userId].parent
      invariant parents + Chain(t, current.userId) == Chain(t, u.userId)
      decreases Pk(t)[current.userId]
    {
      var parent := db.users[current.parent.value];
      parents := parents + [parent.userId];
      current := parent;
    }
  }

  /** The level commissions, one ancestor after another. */
  method PayLevels(db: Db, parents: seq<string>, amount: real, now: Date) returns (db': Db, ok: bool)
    requires UsersKeyed(db)
    ensures (db', ok) == RunCredits(db, Each(parents, Level, amount), now)
  {
    db', ok := db, true;
    for i := 0 to |parents|
      invariant UsersKeyed(db')
      invariant RunCredits(db, Each(parents, Level, amount), now) == RunCredits(db', Each(parents[i..], Level, amount), now)
    {
      assert Each(parents[i..], Level, amount) == [Credit(parents[i], Level, amount)] + Each(parents[i + 1..], Level, amount) by {
        assert parents[i..][1..] == parents[i + 1..];
      }
      RunCreditsCons(db', Credit(parents[i], Level, amount), Each(parents[i + 1..], Level, amount), now);
      db', ok := CreditIfWallet(db', Credit(parents[i], Level, amount), now);
      if !ok {
        return;
      }
    }
    assert parents[|parents|..] == [];
  }

  /**
   * `processCommissions(user, points, referredBy)`: a null user throws at `user.userId`; otherwise
   * the credits of the plan are made in order, each through the wallet document's method.
   */
  method ProcessCommissions(db: Db, user: Option<User>, points: real, referredBy: string, now: Date)
    returns (db': Db, ok: bool)
    requires UsersKeyed(db) && ParentAcyclic(Shape(db.users))
    requires user.Some? ==> user.value.userId in db.users && db.users[user.value.userId] == user.value
    ensures user.None? ==> db' == db && !ok
    ensures user.Some? ==> (db', ok) == RunCredits(db, CommissionPlan(db, user.value.userId, points, referredBy), now)
  {
    if user.None? {
      return db, false;
    }
    var u := user.value;
    ghost var t := Shape(db.users);
    ghost var target := RunCredits(db, CommissionPlan(db, u.userId, points, referredBy), now);
    ghost var ref := ReferrerCredit(db, referredBy, points);
    ghost var levels := Each(Chain(t, u.userId), Level, points * LevelPlanCommission);
    assert CommissionPlan(db, u.userId, points, referredBy) == [Credit(u.userId, Personal, points)] + (ref + levels);
    RunCreditsCons(db, Credit(u.userId, Personal, points), ref + levels, now);
    db', ok := CreditIfWallet(db, Credit(u.userId, Personal, points), now);
    if !ok {
      return;
    }
    assert target == RunCredits(db', ref + levels, now);
    StatusOnlyShape(db, db');
    ghost var afterOwn := db';
    if referredBy != "" && referredBy in db'.users {
      var referrer := db'.users[referredBy];
      assert ref == [Credit(referrer.userId, Referral, points * DirectPlanCommission)];
      RunCreditsCons(db', ref[0], levels, now);
      db', ok := CreditIfWallet(db', Credit(referrer.userId, Referral, points * DirectPlanCommission), now);
      if !ok {
        return;
      }
      StatusOnlyTrans(db, afterOwn, db');
    } else {
      assert ref + levels == levels;
    }
    assert target == RunCredits(db', levels, now);
    StatusOnlyShape(db, db');
    var parents := CollectParents(db', u);
    db', ok := PayLevels(db', parents, points * LevelPlanCommission, now);
  }

  // ---------------------------------------------------------------------------------------------
  // The tree statistics

  /** Two versions of a member that agree on identity, tree links, referral links and activity. */
  predicate SameLinks(u: User, v: User)
  {
    u.userId == v.userId && u.parent == v.parent && u.children == v.children &&
    u.referredCustomers == v.referredCustomers && u.referredBy == v.referredBy && u.isActive == v.isActive
  }

  /**
   * b differs from a only in derived member fields (counters, level, rank, limit, club, wallet
   * reference) and in wallets created by the wallet hook: links, activity and existing wallets
   * are as they were.
   */
  predicate Bookkeeping(a: Db, b: Db)
  {
    b.users.Keys == a.users.Keys && (forall k :: k in a.users ==> SameLinks(b.users[k], a.users[k])) &&
    (forall k :: k in a.wallets ==> k in b.wallets && b.wallets[k] == a.wallets[k]) &&
    (WalletsKeyed(a) ==> WalletsKeyed(b)) && (UsersKeyed(a) ==> UsersKeyed(b)) &&
    b.rewards == a.rewards && b.thresholds == a.thresholds && b.pools == a.pools
  }

  lemma BookkeepingTrans(a: Db, b: Db, c: Db)
    requires Bookkeeping(a, b) && Bookkeeping(b, c)
    ensures Bookkeeping(a, c)
  {
  }

  /** Bookkeeping writes leave the tree shape and the referrer lookup as they were. */
  lemma BookkeepingShape(a: Db, b: Db, referredBy: string)
    requires Bookkeeping(a, b)
    ensures Shape(b.users) == Shape(a.users)
    ensures Referrer(b, referredBy) == Referrer(a, referredBy)
  {
    assert Shape(b.users).Keys == Shape(a.users).Keys;
  }

  /** Saving a copy whose links and activity are those it was loaded with is a bookkeeping write. */
  lemma SaveBookkeeping(db: Db, loaded: User, doc: User, now: Date)
    requires doc.userId in db.users
    requires SameLinks(doc, loaded.(userId := doc.userId))
    ensures Bookkeeping(db, SaveUser(db, loaded, doc, now))
  {
  }

  /**
   * `updateTotalDescendantsCount(userId)`: the number of members reachable from userId through
   * `children` edges is written to its count; the write is an `updateOne`, which runs no hook.
   */
  function DescendantsCounted(db: Db, userId: string): (r: Db)
    requires ChildAcyclic(Shape(db.users))
    ensures Bookkeeping(db, r)
    ensures userId in db.users ==>
      r.users == db.users[userId := db.users[userId].(totalDescendantsCount := DescendantCount(Shape(db.users), userId))]
    ensures userId !in db.users ==> r == db
    ensures forall k :: k in db.users && k != userId ==> r.users[k] == db.users[k]
  {
    if userId in db.users then
      db.(users := db.users[userId := db.users[userId].(totalDescendantsCount := DescendantCount(Shape(db.users), userId))])
    else db
  }

  /**
   * `updateReferredCustomerCount(userId)`: the member is read, its count set to the length of its
   * referred list, and saved (with the hooks, so the rank follows the new count).
   */
  function ReferredCounted(db: Db, userId: string, now: Date): (r: Db)
    requires UsersKeyed(db)
    ensures Bookkeeping(db, r)
    ensures userId in db.users ==>
      r.users[userId].referredCustomersCount == |db.users[userId].referredCustomers| &&
      r.users[userId].totalDescendantsCount == db.users[userId].totalDescendantsCount &&
      r.users[userId].level == db.users[userId].level &&
      r.users[userId].childCount == db.users[userId].childCount &&
      r.users[userId].isComplete == db.users[userId].isComplete &&
      r.users[userId].rank == RankHook(db.users[userId].(referredCustomersCount := |db.users[userId].referredCustomers|)).rank
    ensures forall k :: k in db.users && k != userId ==> r.users[k] == db.users[k]
    ensures userId !in db.users ==> r == db
    ensures WalletsGrowAt(db, r, userId)
    ensures userId in db.users ==>
      (r.users[userId].hasWallet <==> db.users[userId].hasWallet || userId !in db.wallets) &&
      (userId in r.wallets <==> userId in db.wallets || !db.users[userId].hasWallet)
  {
    if userId in db.users then
      var u := db.users[userId];
      var doc := u.(referredCustomersCount := |u.referredCustomers|);
      SaveFresh(db, doc, now);
      SaveBookkeeping(db, u, doc, now);
      SaveUser(db, u, doc, now)
    else db
  }

  /** The descendant counts of the members of ks refreshed one after another, first to last. */
  function Recounted(db: Db, ks: seq<string>): (r: Db)
    requires ChildAcyclic(Shape(db.users))
    ensures Bookkeeping(db, r) && Shape(r.users) == Shape(db.users)
    decreases |ks|
  {
    if ks == [] then db
    else
      var d := DescendantsCounted(db, ks[0]);
      BookkeepingShape(db, d, "");
      var r := Recounted(d, ks[1..]);
      BookkeepingTrans(db, d, r);
      r
  }

  /**
   * Recounting along ks writes each listed member's count from the links, which no recount
   * changes, and leaves every other member as it was.
   */
  lemma {:induction false} RecountedEffect(db: Db, ks: seq<string>, k: string)
    requires ChildAcyclic(Shape(db.users)) && k in db.users
    ensures Recounted(db, ks).users[k] ==
      if k in ks then db.users[k].(totalDescendantsCount := DescendantCount(Shape(db.users), k)) else db.users[k]
    decreases |ks|
  {
    if ks != [] {
      var d := DescendantsCounted(db, ks[0]);
      BookkeepingShape(db, d, "");
      RecountedEffect(d, ks[1..], k);
      assert Recounted(db, ks) == Recounted(d, ks[1..]);
      assert k in ks <==> k == ks[0] || k in ks[1..];
      var c := DescendantCount(Shape(db.users), k);
      if k == ks[0] {
        assert d.users[k] == db.users[k].(totalDescendantsCount := c);
      } else {
        assert d.users[k] == db.users[k];
      }
    }
  }

  /**
   * `updateAncestorsDescendantCount(userId)`: the descendant count of userId and of each of its
   * ancestors, nearest first, is refreshed; the walk ends at the root or at a missing parent.
   */
  method UpdateAncestorsDescendantCount(db: Db, userId: string) returns (db': Db)
    requires UsersKeyed(db) && Acyclic(Shape(db.users))
    ensures db' == Recounted(db, Climb(Shape(db.users), userId))
  {
    var t := Shape(db.users);
    if userId !in db.users {
      return db;
    }
    db' := db;
    var current := userId;
    while true
      invariant current in t && Shape(db'.users) == t
      invariant Recounted(db', Climb(t, current)) == Recounted(db, Climb(t, userId))
      decreases Pk(t)[current]
    {
      var parent := db'.users[current].parent;
      assert parent == t[current].parent;
      var next := DescendantsCounted(db', current);
      BookkeepingShape(db', next, "");
      if parent.None? || parent.value !in next.users {
        assert Chain(t, current) == [];
        assert Climb(t, current) == [current];
        return next;
      }
      assert Climb(t, current) == [current] + Climb(t, parent.value);
      db', current := next, parent.value;
    }
  }

  // ---------------------------------------------------------------------------------------------
  // The level walk

  /** The level a complete member takes from the smallest level among its children. */
  function Capped(n: int): (r: int)
    ensures r <= 15 && (n <= 15 ==> r == n) && (n > 15 ==> r == 15)
  {
    if n > 15 then 15 else n
  }

  /** The levels of the members cs, as `Promise.all` reads them; a missing child makes the read throw. */
  function ChildLevels(users: map<string, User>, cs: seq<string>): (r: Option<seq<int>>)
    ensures r.Some? <==> forall i :: 0 <= i < |cs| ==> cs[i] in users
    ensures r.Some? ==> |r.value| == |cs| && forall i :: 0 <= i < |cs| ==> r.value[i] == users[cs[i]].level
  {
    if cs == [] then Some([])
    else if cs[0] !in users then None
    else match ChildLevels(users, cs[1..])
      case None => assert !(forall i :: 1 <= i < |cs| ==> cs[i] in users) by {
          var j :| 0 <= j < |cs[1..]| && cs[1..][j] !in users;
          assert cs[j + 1] !in users;
        }
        None
      case Some(ls) => Some([users[cs[0]].level] + ls)
  }

  /** Child levels read from two stores with the same members and the same levels agree. */
  lemma ChildLevelsSame(a: map<string, User>, b: map<string, User>, cs: seq<string>)
    requires a.Keys == b.Keys && forall k :: k in a ==> a[k].level == b[k].level
    ensures ChildLevels(a, cs) == ChildLevels(b, cs)
    ensures |cs| == 3 ==> Rise(a, cs) == Rise(b, cs)
  {
    var la, lb := ChildLevels(a, cs), ChildLevels(b, cs);
    if la.Some? {
      assert la.value == lb.value;
    }
  }

  /**
   * The two count refreshes a visit starts with: x's descendant count from the links and its
   * referred count from its list; nothing else of x and no other member changes.
   */
  function CountsRefreshed(db: Db, x: string, now: Date): (r: Db)
    requires UsersKeyed(db) && ChildAcyclic(Shape(db.users)) && x in db.users
    ensures Bookkeeping(db, r) && Shape(r.users) == Shape(db.users)
    ensures forall k :: k in db.users && k != x ==> r.users[k] == db.users[k]
    ensures r.users[x].totalDescendantsCount == DescendantCount(Shape(db.users), x)
    ensures r.users[x].referredCustomersCount == |db.users[x].referredCustomers|
    ensures r.users[x].level == db.users[x].level && r.users[x].childCount == db.users[x].childCount
    ensures r.users[x].isComplete == db.users[x].isComplete
    ensures WalletsGrowAt(db, r, x) && r.users[x].hasWallet == (db.users[x].hasWallet || x !in db.wallets)
    ensures x in r.wallets <==> x in db.wallets || !db.users[x].hasWallet
  {
    var d1 := DescendantsCounted(db, x);
    var d2 := ReferredCounted(d1, x, now);
    BookkeepingTrans(db, d1, d2);
    BookkeepingShape(db, d2, "");
    d2
  }

  /**
   * The save at the end of a visit: the copy read before the refreshes, with its child count,
   * completeness and the given level. Only those three paths differ from the copy, so the
   * refreshed counts stay.
   */
  function VisitSave(db: Db, loaded: User, level: int, now: Date): (r: Db)
    requires UsersKeyed(db) && loaded.userId in db.users
    requires SameLinks(db.users[loaded.userId], loaded)
    requires db.users[loaded.userId].level == loaded.level && db.users[loaded.userId].childCount == loaded.childCount
    requires db.users[loaded.userId].isComplete == loaded.isComplete
    ensures Bookkeeping(db, r) && WalletsGrowAt(db, r, loaded.userId)
    ensures forall k :: k in db.users && k != loaded.userId ==> r.users[k] == db.users[k]
    ensures var u, w := db.users[loaded.userId], r.users[loaded.userId];
      w.childCount == |loaded.children| && (w.isComplete <==> |loaded.children| == 3) && w.level == level &&
      w.totalDescendantsCount == u.totalDescendantsCount && w.referredCustomersCount == u.referredCustomersCount
  {
    var doc := loaded.(childCount := |loaded.children|, isComplete := |loaded.children| == 3, level := level);
    SaveBookkeeping(db, loaded, doc, now);
    var r := SaveUser(db, loaded, doc, now);
    assert SameExceptStatus(r.users[loaded.userId], PatchUser(db.users[loaded.userId], loaded, doc));
    r
  }

  /** How one visit of `updateAncestors` ends: the read of a missing child threw, the walk stopped, or the member was saved. */
  datatype VisitEnd = Crashed(db: Db) | Stopped(db: Db) | Saved(db: Db)

  /** The smallest level among three children plus one, when all three are stored. */
  function Rise(users: map<string, User>, cs: seq<string>): (r: Option<int>)
    requires |cs| == 3
    ensures r.Some? <==> ChildLevels(users, cs).Some?
    ensures r.Some? ==> r.value == MinOf(ChildLevels(users, cs).value) + 1
  {
    match ChildLevels(users, cs)
    case None => None
    case Some(ls) => Some(MinOf(ls) + 1)
  }

  /**
   * Whether a visit at x gets as far as its final save: the refresh of the referred count did
   * not throw, and x has fewer than three children, or three stored children whose smallest
   * level plus one is not already its level.
   */
  predicate Reaches(db: Db, x: string)
    requires x in db.users
  {
    var u := db.users[x];
    !SaveThrows(db, u) && (|u.children| == 3 ==> Rise(db.users, u.children).Some? && Rise(db.users, u.children) != Some(u.level))
  }

  /**
   * One visit at x. Its descendant and referred counts are refreshed; the refresh saves a fresh
   * copy, which throws when a wallet is stored under x but x has no wallet reference. Then a
   * member without three children is saved with level 0, and one with three children, all
   * stored, is saved with the smallest child level plus one, capped at 15, unless that is
   * already its level, in which case the walk stops with only the counts written. A missing
   * child throws. The final save is of the copy read before the refresh: when that copy has no
   * wallet reference, the refresh has just created x's wallet, so the save writes and then
   * throws. Either save also writes the child count and completeness; no other member changes.
   */
  function VisitAt(db: Db, x: string, now: Date): (r: VisitEnd)
    requires UsersKeyed(db) && ChildAcyclic(Shape(db.users)) && x in db.users
    ensures Bookkeeping(db, r.db) && WalletsGrowAt(db, r.db, x)
    ensures forall k :: k in db.users && k != x ==> r.db.users[k] == db.users[k]
    ensures r.db.users[x].totalDescendantsCount == DescendantCount(Shape(db.users), x)
    ensures r.db.users[x].referredCustomersCount == |db.users[x].referredCustomers|
    ensures var u := db.users[x];
      (r.Crashed? <==>
        (SaveThrows(db, u) || (|u.children| == 3 && Rise(db.users, u.children).None?) || (!u.hasWallet && Reaches(db, x)))) &&
      (r.Stopped? <==> !SaveThrows(db, u) && |u.children| == 3 && Rise(db.users, u.children) == Some(u.level))
    ensures var u, w := db.users[x], r.db.users[x];
      !Reaches(db, x) ==> w.level == u.level && w.childCount == u.childCount && w.isComplete == u.isComplete
    ensures var u, w := db.users[x], r.db.users[x];
      Reaches(db, x) ==> w.childCount == |u.children| && (w.isComplete <==> |u.children| == 3)
    ensures Reaches(db, x) && |db.users[x].children| != 3 ==> r.db.users[x].level == 0
    ensures var u := db.users[x];
      Reaches(db, x) && |u.children| == 3 ==> r.db.users[x].level == Capped(Rise(db.users, u.children).value)
  {
    var loaded := db.users[x];
    var d := CountsRefreshed(db, x, now);
    RefreshKeepsRise(db, x, now);
    if SaveThrows(db, loaded) then Crashed(d)
    else if |loaded.children| == 3 then
      var rise := Rise(d.users, loaded.children);
      if rise.None? then Crashed(d)
      else if loaded.level == rise.value then Stopped(d)
      else
        var s := RefreshedSave(db, x, Capped(rise.value), now);
        if loaded.hasWallet then Saved(s) else Crashed(s)
    else
      var s := RefreshedSave(db, x, 0, now);
      if loaded.hasWallet then Saved(s) else Crashed(s)
  }

  /** The count refreshes leave every level, so the rise x's children give, as it was. */
  lemma RefreshKeepsRise(db: Db, x: string, now: Date)
    requires UsersKeyed(db) && ChildAcyclic(Shape(db.users)) && x in db.users
    ensures |db.users[x].children| == 3 ==>
      Rise(CountsRefreshed(db, x, now).users, db.users[x].children) == Rise(db.users, db.users[x].children)
  {
    var d := CountsRefreshed(db, x, now);
    ChildLevelsSame(d.users, db.users, db.users[x].children);
  }

  /** The counters of x refreshed and then its document saved with the given level. */
  function RefreshedSave(db: Db, x: string, level: int, now: Date): (r: Db)
    requires UsersKeyed(db) && ChildAcyclic(Shape(db.users)) && x in db.users
    ensures Bookkeeping(db, r) && WalletsGrowAt(db, r, x)
    ensures forall k :: k in db.users && k != x ==> r.users[k] == db.users[k]
    ensures var u, w := db.users[x], r.users[x];
      w.totalDescendantsCount == DescendantCount(Shape(db.users), x) &&
      w.referredCustomersCount == |u.referredCustomers| &&
      w.childCount == |u.children| && (w.isComplete <==> |u.children| == 3) && w.level == level
  {
    var d := CountsRefreshed(db, x, now);
    var saved := VisitSave(d, db.users[x], level, now);
    BookkeepingTrans(db, d, saved);
    saved
  }

  /**
   * `updateAncestors(x)`: visits x and then each ancestor, nearest first, until a visit stops
   * or throws, or the walk passes the root or a missing parent. The flag is false when a
   * visit threw.
   */
  function AncestorsWalk(db: Db, x: string, now: Date): (r: (Db, bool))
    requires UsersKeyed(db) && Acyclic(Shape(db.users))
    ensures Bookkeeping(db, r.0)
    decreases if x in Shape(db.users) then Pk(Shape(db.users))[x] else 0
  {
    if x !in db.users then (db, true)
    else match VisitAt(db, x, now)
      case Crashed(d) => (d, false)
      case Stopped(d) => (d, true)
      case Saved(d) =>
        BookkeepingShape(db, d, "");
        var p := db.users[x].parent;
        if p.Some? && p.value in d.users then
          var r := AncestorsWalk(d, p.value, now);
          BookkeepingTrans(db, d, r.0);
          r
        else (d, true)
  }

  /** The walk from x writes only x and its ancestors: every other member is as it was. */
  lemma {:induction false} WalkConfined(db: Db, x: string, now: Date, k: string)
    requires UsersKeyed(db) && Acyclic(Shape(db.users))
    requires k in db.users && k !in Climb(Shape(db.users), x)
    ensures AncestorsWalk(db, x, now).0.users[k] == db.users[k]
    decreases if x in Shape(db.users) then Pk(Shape(db.users))[x] else 0
  {
    var t := Shape(db.users);
    if x in db.users {
      var v := VisitAt(db, x, now);
      assert x in Climb(t, x);
      if v.Saved? {
        BookkeepingShape(db, v.db, "");
        var p := db.users[x].parent;
        if p.Some? && p.value in v.db.users {
          assert Climb(t, x) == [x] + Climb(t, p.value);
          WalkConfined(v.db, p.value, now, k);
        }
      }
    }
  }

  /** After the store r, member a holds the descendant count of db's tree and the length of its referred list in db. */
  ghost predicate FreshCounts(db: Db, r: Db, a: string)
  {
    ChildAcyclic(Shape(db.users)) && a in db.users && a in r.users &&
    r.users[a].totalDescendantsCount == DescendantCount(Shape(db.users), a) &&
    r.users[a].referredCustomersCount == |db.users[a].referredCustomers|
  }

  /** The first n members of the path c hold fresh counts in w; the rest of c is in w as in db. */
  ghost predicate FreshPrefix(db: Db, w: Db, c: seq<string>, n: nat)
  {
    n <= |c| &&
    (forall i :: 0 <= i < n ==> FreshCounts(db, w, c[i])) &&
    (forall i :: n <= i < |c| ==> c[i] in db.users && c[i] in w.users && w.users[c[i]] == db.users[c[i]])
  }

  /**
   * The walk from x visits the first n members of the path from x to the root: each of them
   * then holds fresh counts, and every member of the path above them is as it was.
   */
  lemma {:induction false} WalkCounts(db: Db, x: string, now: Date) returns (n: nat)
    requires UsersKeyed(db) && Acyclic(Shape(db.users))
    ensures FreshPrefix(db, AncestorsWalk(db, x, now).0, Climb(Shape(db.users), x), n)
    ensures x in db.users ==> n >= 1
    decreases if x in Shape(db.users) then Pk(Shape(db.users))[x] else 0
  {
    var t := Shape(db.users);
    if x !in db.users {
      n := 0;
      return;
    }
    var v := VisitAt(db, x, now);
    var p := db.users[x].parent;
    BookkeepingShape(db, v.db, "");
    ChainDescends(t, x);
    ClimbUnfold(t, x);
    if v.Saved? && p.Some? && p.value in v.db.users {
      var n' := WalkCounts(v.db, p.value, now);
      var w := AncestorsWalk(v.db, p.value, now).0;
      assert AncestorsWalk(db, x, now).0 == w;
      var c' := Climb(t, p.value);
      OffClimb(t, x, p.value);
      WalkConfined(v.db, p.value, now, x);
      WalkStep(db, v.db, w, x, c', n');
      n := n' + 1;
    } else {
      n := 1;
      var w := v.db;
      assert AncestorsWalk(db, x, now).0 == w;
      FreshHead(db, w, x, Chain(t, x));
    }
  }

  /** A member the walk did not visit, on the path above the visited ones or off it, is as it was. */
  lemma WalkUnvisited(db: Db, x: string, now: Date, n: nat, k: string)
    requires UsersKeyed(db) && Acyclic(Shape(db.users))
    requires FreshPrefix(db, AncestorsWalk(db, x, now).0, Climb(Shape(db.users), x), n)
    requires k in db.users && k !in Climb(Shape(db.users), x)[..n]
    ensures AncestorsWalk(db, x, now).0.users[k] == db.users[k]
  {
    var c := Climb(Shape(db.users), x);
    if k in c {
      PastPrefix(db, AncestorsWalk(db, x, now).0, c, n, k);
    } else {
      WalkConfined(db, x, now, k);
    }
  }

  /** A member of c outside its fresh prefix is in w as in db. */
  lemma PastPrefix(db: Db, w: Db, c: seq<string>, n: nat, k: string)
    requires FreshPrefix(db, w, c, n) && k in c && k !in c[..n]
    ensures k in w.users && w.users[k] == db.users[k]
  {
    assert c == c[..n] + c[n..];
    var j :| 0 <= j < |c[n..]| && c[n..][j] == k;
    assert c[n + j] == k;
  }

  /** A visit that ends the walk: a fresh x before a path the visit did not touch. */
  lemma FreshHead(db: Db, w: Db, x: string, c: seq<string>)
    requires FreshCounts(db, w, x) && x !in c
    requires forall a :: a in c ==> a in db.users
    requires forall k :: k in db.users && k != x ==> k in w.users && w.users[k] == db.users[k]
    ensures FreshPrefix(db, w, [x] + c, 1)
  {
    var c1 := [x] + c;
    forall i | 1 <= i < |c1| ensures c1[i] in db.users && c1[i] in w.users && w.users[c1[i]] == db.users[c1[i]] {
      assert c1[i] in c;
    }
  }

  /** One visit in front of a walk: a fresh x before a path from its parent gives a longer fresh prefix. */
  lemma WalkStep(db: Db, v: Db, w: Db, x: string, c': seq<string>, n': nat)
    requires x in db.users && x !in c' && Shape(v.users) == Shape(db.users) && ChildAcyclic(Shape(db.users))
    requires forall k :: k in db.users && k != x ==> k in v.users && v.users[k] == db.users[k]
    requires FreshCounts(db, v, x) && x in w.users && w.users[x] == v.users[x]
    requires FreshPrefix(v, w, c', n')
    ensures FreshPrefix(db, w, [x] + c', n' + 1)
  {
    var c := [x] + c';
    forall i | 0 <= i < n' + 1 ensures FreshCounts(db, w, c[i]) {
      if i > 0 {
        assert c[i] == c'[i - 1];
        assert FreshCounts(v, w, c'[i - 1]);
      }
    }
    forall i | n' + 1 <= i < |c| ensures c[i] in db.users && c[i] in w.users && w.users[c[i]] == db.users[c[i]] {
      assert c[i] == c'[i - 1];
    }
  }

  /** A member is not on the path from its parent to the root. */
  lemma OffClimb(t: Forest, x: string, p: string)
    requires ParentAcyclic(t) && x in t && t[x].parent == Some(p) && p in t
    ensures x !in Climb(t, p)
  {
    ChainDescends(t, p);
  }

  /**
   * The early stop: at a member with three stored children whose level is already the smallest
   * child level plus one, the walk writes only that member's two counts and leaves every other
   * member, and so every higher ancestor, as it was. It reports success unless the refresh of
   * the referred count threw.
   */
  lemma WalkEarlyStop(db: Db, x: string, now: Date)
    requires UsersKeyed(db) && Acyclic(Shape(db.users)) && x in db.users
    requires |db.users[x].children| == 3 && Rise(db.users, db.users[x].children) == Some(db.users[x].level)
    ensures AncestorsWalk(db, x, now).1 <==> !Unlinked(db, x)
    ensures forall k :: k in db.users && k != x ==> AncestorsWalk(db, x, now).0.users[k] == db.users[k]
    ensures AncestorsWalk(db, x, now).0.users[x].level == db.users[x].level
  {
  }

  /**
   * One pass of the loop of `updateAncestors` at the member current: its counts are refreshed,
   * the levels of its children are read, and the copy read first is saved with its new fields.
   */
  method Visit(db: Db, current: string, now: Date) returns (v: VisitEnd)
    requires UsersKeyed(db) && ChildAcyclic(Shape(db.users)) && current in db.users
    ensures v == VisitAt(db, current, now)
  {
    var loaded := db.users[current];
    var d := DescendantsCounted(db, current);
    var refreshThrows := SaveThrows(d, d.users[current]);
    d := ReferredCounted(d, current, now);
    ghost var counted := d;
    assert counted == CountsRefreshed(db, current, now);
    if refreshThrows {
      return Crashed(d);
    }
    var level := 0;
    if |loaded.children| == 3 {
      var rise := Rise(d.users, loaded.children);
      if rise.None? {
        return Crashed(d);
      }
      if loaded.level == rise.value {
        return Stopped(d);
      }
      level := rise.value;
      if level > 15 {
        level := 15;
      }
      assert level == Capped(rise.value);
    }
    var doc := loaded.(childCount := |loaded.children|, isComplete := |loaded.children| == 3, level := level);
    var saveThrows := SaveThrows(d, doc);
    d := SaveUser(d, loaded, doc, now);
    assert d == VisitSave(counted, loaded, level, now);
    if saveThrows {
      return Crashed(d);
    }
    return Saved(d);
  }

  /**
   * `updateAncestors(customerId)`: visits the member and then each ancestor in turn, moving to
   * the parent recorded on the copy it read.
   */
  method UpdateAncestors(db: Db, customerId: string, now: Date) returns (db': Db, ok: bool)
    requires UsersKeyed(db) && Acyclic(Shape(db.users))
    ensures (db', ok) == AncestorsWalk(db, customerId, now)
  {
    var t := Shape(db.users);
    if customerId !in db.users {
      return db, true;
    }
    db' := db;
    var current := customerId;
    while true
      invariant current in db'.users && Shape(db'.users) == t && UsersKeyed(db')
      invariant AncestorsWalk(db', current, now) == AncestorsWalk(db, customerId, now)
      decreases Pk(t)[current]
    {
      var parent := db'.users[current].parent;
      var v := Visit(db', current, now);
      if v.Crashed? {
        return v.db, false;
      }
      if v.Stopped? {
        return v.db, true;
      }
      BookkeepingShape(db', v.db, "");
      if parent.None? || parent.value !in v.db.users {
        return v.db, true;
      }
      db', current := v.db, parent.value;
    }
  }
}
