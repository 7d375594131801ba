/**
 * The job processor of queues/unifiedQueue.js (`processJob`): a registration with a sponsor is
 * placed in the first open slot of the sponsor's tree, the statistics are walked up, and the
 * commissions are paid; a registration without a sponsor only activates the member.
 */
module UnifiedJob {
  import opened Common
  import opened Users
  import opened Wallets
  import opened Store
  import opened Tree
  import opened Credits
  import opened Unified

  /** The data of a queued job; an empty `parentId` is JavaScript's falsy "no sponsor". */
  datatype Job = Job(parentId: string, userId: string, points: real, referredBy: string)

  /** The message thrown for a sponsor that is not stored. */
  function ParentNotFound(parentId: string): string
  {
    "Parent with userId " + parentId + " not found."
  }

  /**
   * What the model assumes of a job: members are stored under their ids, the links form a
   * forest, and a member to be placed is new to the tree and is not its own sponsor.
   */
  ghost predicate JobReady(db: Db, job: Job)
  {
    UsersKeyed(db) && Acyclic(Shape(db.users)) &&
    (job.parentId != "" ==> Unplaced(Shape(db.users), job.userId) && job.parentId != job.userId)
  }

  // ---------------------------------------------------------------------------------------------
  // The writes of the job

  /** No update of the bulk write touches the two counters: every member keeps them. */
  predicate CountsKept(a: map<string, User>, b: map<string, User>)
  {
    forall k :: k in a && k in b ==>
      b[k].totalDescendantsCount == a[k].totalDescendantsCount && b[k].referredCustomersCount == a[k].referredCustomersCount
  }

  /** The first update of the bulk write: the member is activated and linked to the slot. */
  function Linked(users: map<string, User>, m: string, slot: string): (r: map<string, User>)
    ensures r.Keys == users.Keys
    ensures Shape(r) == if m in users then Shape(users)[m := Links(Some(slot), users[m].children)] else Shape(users)
    ensures m in users ==> r[m].isActive
    ensures forall k :: k in users ==> r[k].userId == users[k].userId && r[k].referredCustomers == users[k].referredCustomers
    ensures forall k :: k in users && k != m ==> r[k].isActive == users[k].isActive
    ensures CountsKept(users, r)
  {
    if m in users then
      var u := users[m].(isActive := true, parent := Some(slot));
      ShapeSet(users, m, u);
      users[m := u]
    else users
  }

  /** `$push: { children: m }` on the slot. */
  function ChildPushed(users: map<string, User>, slot: string, m: string): (r: map<string, User>)
    requires slot in users
    ensures r.Keys == users.Keys
    ensures Shape(r) == Shape(users)[slot := Links(users[slot].parent, users[slot].children + [m])]
    ensures forall k :: k in users ==>
      r[k].userId == users[k].userId && r[k].referredCustomers == users[k].referredCustomers && r[k].isActive == users[k].isActive
    ensures CountsKept(users, r)
  {
    var u := users[slot].(children := users[slot].children + [m]);
    ShapeSet(users, slot, u);
    users[slot := u]
  }

  /** `$push: { referredCustomers: m }` on the sponsor. */
  function ReferralPushed(users: map<string, User>, sponsor: string, m: string): (r: map<string, User>)
    requires sponsor in users
    ensures r.Keys == users.Keys && Shape(r) == Shape(users)
    ensures r[sponsor].referredCustomers == users[sponsor].referredCustomers + [m]
    ensures forall k :: k in users ==> r[k].userId == users[k].userId && r[k].isActive == users[k].isActive
    ensures CountsKept(users, r)
  {
    var u := users[sponsor].(referredCustomers := users[sponsor].referredCustomers + [m]);
    ShapeUpdate(users, sponsor, u);
    users[sponsor := u]
  }

  /**
   * The bulk write: the member is activated and linked to the slot (the `depth` path is not in
   * the schema and is dropped), the slot's children gain the member, and the sponsor's referred
   * list gains it; the links are then those of the old tree with the member attached below the
   * slot. A missing member makes the first update match nothing; no hook runs.
   */
  function Placed(db: Db, m: string, slot: string, sponsor: string): (r: Db)
    requires UsersKeyed(db) && slot in db.users && sponsor in db.users
    ensures UsersKeyed(r) && r.users.Keys == db.users.Keys
    ensures r.wallets == db.wallets && r.rewards == db.rewards && r.thresholds == db.thresholds && r.pools == db.pools
    ensures Shape(r.users) == AddLeaf(Shape(db.users), m, slot)
    ensures m in db.users ==> r.users[m].isActive
    ensures r.users[sponsor].referredCustomers == db.users[sponsor].referredCustomers + [m]
    ensures forall k :: k in db.users && k != m ==> r.users[k].isActive == db.users[k].isActive
    ensures CountsKept(db.users, r.users)
  {
    var u1 := Linked(db.users, m, slot);
    var u2 := ChildPushed(u1, slot, m);
    var u3 := ReferralPushed(u2, sponsor, m);
    db.(users := u3)
  }

  /**
   * A slot the search finds is never the new member: the member lies in no subtree the search
   * scans, since it is nobody's child and the scans start at the sponsor and its ancestors.
   */
  lemma SlotNotMember(users: map<string, User>, start: string, m: string)
    requires Acyclic(Shape(users)) && Unplaced(Shape(users), m) && start in users && start != m
    requires FindSpot(users, start).Found?
    ensures FindSpot(users, start).slot in users && FindSpot(users, start).slot != m
  {
    var t := Shape(users);
    SpotFound(users, start);
    var s := FindSpot(users, start).slot;
    var a :| a in Climb(t, start) && s in Sub(t, a);
    UnplacedOutside(t, m, start);
    assert a != m;
    UnplacedOutside(t, m, a);
  }

  /** `findOneAndUpdate({ userId, isActive: false }, { $set: { isActive: true } })`, which runs no hook. */
  function Activated(db: Db, m: string): (r: Db)
    ensures r.users.Keys == db.users.Keys && r.wallets == db.wallets
    ensures Shape(r.users) == Shape(db.users) && (UsersKeyed(db) ==> UsersKeyed(r))
    ensures m in db.users ==> r.users[m] == db.users[m].(isActive := true)
    ensures forall k :: k in db.users && k != m ==> r.users[k] == db.users[k]
    ensures r.rewards == db.rewards && r.thresholds == db.thresholds && r.pools == db.pools
  {
    if m in db.users && !db.users[m].isActive then
      ShapeUpdate(db.users, m, db.users[m].(isActive := true));
      db.(users := db.users[m := db.users[m].(isActive := true)])
    else db
  }

  /** The commission step: a member that cannot be read makes `processCommissions` throw. */
  function Commissioned(db: Db, job: Job, now: Date): (r: (Db, Result<bool>))
    requires UsersKeyed(db) && ParentAcyclic(Shape(db.users))
    ensures UsersKeyed(r.0) && StatusOnly(db, r.0) && Shape(r.0.users) == Shape(db.users)
    ensures forall k :: k in db.users ==> SameLinks(r.0.users[k], db.users[k])
    ensures r.1 != Ok(false)
  {
    if job.userId !in db.users then (db, Err(TypeError))
    else
      var run := RunCredits(db, CommissionPlan(db, job.userId, job.points, job.referredBy), now);
      StatusOnlyShape(db, run.0);
      (run.0, if run.1 then Ok(true) else Err(TypeError))
  }

  /**
   * The store after the writes that precede the bulk write: the sponsor's referred count, then
   * the counts of the slot and its ancestors. Both are taken before the member is attached, so
   * they count the old tree and the old referred list.
   */
  function Counted(db: Db, sponsor: string, slot: string, now: Date): (r: Db)
    requires UsersKeyed(db) && Acyclic(Shape(db.users))
    ensures Bookkeeping(db, r) && Shape(r.users) == Shape(db.users) && UsersKeyed(r)
    ensures forall a :: a in Climb(Shape(db.users), slot) ==> r.users[a].totalDescendantsCount == DescendantCount(Shape(db.users), a)
    ensures sponsor in db.users ==> r.users[sponsor].referredCustomersCount == |db.users[sponsor].referredCustomers|
  {
    var d1 := ReferredCounted(db, sponsor, now);
    BookkeepingShape(db, d1, "");
    var d2 := Recounted(d1, Climb(Shape(d1.users), slot));
    BookkeepingTrans(db, d1, d2);
    CountedCounts(db, d1, d2, sponsor, slot);
    d2
  }

  /** The counts Counted writes, from the effect of each write on one member. */
  lemma CountedCounts(db: Db, d1: Db, d2: Db, sponsor: string, slot: string)
    requires UsersKeyed(db) && Acyclic(Shape(db.users)) && Bookkeeping(db, d1) && Shape(d1.users) == Shape(db.users)
    requires sponsor in db.users ==> d1.users[sponsor].referredCustomersCount == |db.users[sponsor].referredCustomers|
    requires d2 == Recounted(d1, Climb(Shape(d1.users), slot))
    ensures forall a :: a in Climb(Shape(db.users), slot) ==> d2.users[a].totalDescendantsCount == DescendantCount(Shape(db.users), a)
    ensures sponsor in db.users ==> d2.users[sponsor].referredCustomersCount == |db.users[sponsor].referredCustomers|
  {
    forall a | a in Climb(Shape(db.users), slot)
      ensures d2.users[a].totalDescendantsCount == DescendantCount(Shape(db.users), a)
    {
      RecountedEffect(d1, Climb(Shape(d1.users), slot), a);
    }
    if sponsor in db.users {
      RecountedEffect(d1, Climb(Shape(d1.users), slot), sponsor);
    }
  }

  /** The bulk write on a store d whose bookkeeping differs from db's: db's tree with the member attached below the slot. */
  lemma PlacedAfter(db: Db, d: Db, m: string, slot: string, sponsor: string, referredBy: string)
    requires UsersKeyed(db) && Bookkeeping(db, d) && Shape(d.users) == Shape(db.users)
    requires slot in db.users && sponsor in db.users
    ensures var r := Placed(d, m, slot, sponsor);
      r.users.Keys == db.users.Keys && UsersKeyed(r) &&
      Shape(r.users) == AddLeaf(Shape(db.users), m, slot) &&
      (m in db.users ==> r.users[m].isActive) &&
      r.users[sponsor].referredCustomers == db.users[sponsor].referredCustomers + [m] &&
      (forall k :: k in db.users && k != m ==> r.users[k].isActive == db.users[k].isActive) &&
      (WalletsKeyed(db) ==> WalletsKeyed(r)) && (forall k :: k in db.wallets ==> k in r.wallets && r.wallets[k] == db.wallets[k]) &&
      Referrer(r, referredBy) == Referrer(db, referredBy)
  {
    BookkeepingShape(db, d, referredBy);
    var r := Placed(d, m, slot, sponsor);
    assert r.wallets == d.wallets && (WalletsKeyed(d) ==> WalletsKeyed(r));
  }

  /** The store after the counts and the bulk write: the old tree with the member attached below the slot. */
  function Attached(db: Db, job: Job, slot: string, now: Date): (r: Db)
    requires JobReady(db, job) && job.parentId != "" && job.parentId in db.users && slot in db.users && slot != job.userId
    ensures r.users.Keys == db.users.Keys && UsersKeyed(r)
    ensures Shape(r.users) == AddLeaf(Shape(db.users), job.userId, slot) && Acyclic(Shape(r.users))
    ensures job.userId in db.users ==> r.users[job.userId].isActive
    ensures r.users[job.parentId].referredCustomers == db.users[job.parentId].referredCustomers + [job.userId]
    ensures forall k :: k in db.users && k != job.userId ==> r.users[k].isActive == db.users[k].isActive
    ensures (WalletsKeyed(db) ==> WalletsKeyed(r)) && forall k :: k in db.wallets ==> k in r.wallets && r.wallets[k] == db.wallets[k]
    ensures Referrer(r, job.referredBy) == Referrer(db, job.referredBy)
  {
    var d2 := Counted(db, job.parentId, slot, now);
    PlacedAfter(db, d2, job.userId, slot, job.parentId, job.referredBy);
    AddLeafAcyclic(Shape(db.users), job.userId, slot);
    Placed(d2, job.userId, slot, job.parentId)
  }

  /**
   * The counts after the bulk write are those taken before it: a member of the path from the slot
   * to the root counts one descendant fewer than the new tree gives it when its old subtree held
   * the slot and the member is stored.
   */
  lemma AttachedCounts(db: Db, job: Job, slot: string, now: Date, a: string)
    requires JobReady(db, job) && job.parentId != "" && job.parentId in db.users && slot in db.users && slot != job.userId
    requires a in Climb(Shape(db.users), slot)
    ensures ChildAcyclic(AddLeaf(Shape(db.users), job.userId, slot))
    ensures Attached(db, job, slot, now).users[a].totalDescendantsCount +
      (if job.userId in db.users && slot in Sub(Shape(db.users), a) then 1 else 0) ==
      DescendantCount(AddLeaf(Shape(db.users), job.userId, slot), a)
  {
    var d2 := Counted(db, job.parentId, slot, now);
    assert Attached(db, job, slot, now) == Placed(d2, job.userId, slot, job.parentId);
    AddLeafCount(Shape(db.users), job.userId, slot, a);
  }

  /** The sponsor's referred count after the bulk write is the length of its old list: one short of the new one. */
  lemma AttachedReferredCount(db: Db, job: Job, slot: string, now: Date)
    requires JobReady(db, job) && job.parentId != "" && job.parentId in db.users && slot in db.users && slot != job.userId
    ensures var r := Attached(db, job, slot, now).users[job.parentId];
      r.referredCustomersCount + 1 == |r.referredCustomers|
  {
    var d2 := Counted(db, job.parentId, slot, now);
    assert Attached(db, job, slot, now) == Placed(d2, job.userId, slot, job.parentId);
  }

  /**
   * The store and the walk's flag after the counts, the bulk write and the level walk from the
   * member: the old tree with the member attached, the member active, and the wallets, the
   * referrer lookup and every other activity flag as they were.
   */
  function Walked(db: Db, job: Job, slot: string, now: Date): (r: (Db, bool))
    requires JobReady(db, job) && job.parentId != "" && job.parentId in db.users && slot in db.users && slot != job.userId
    ensures r.0.users.Keys == db.users.Keys && UsersKeyed(r.0)
    ensures Shape(r.0.users) == AddLeaf(Shape(db.users), job.userId, slot) && Acyclic(Shape(r.0.users))
    ensures job.userId in db.users ==> r.0.users[job.userId].isActive
    ensures r.0.users[job.parentId].referredCustomers == db.users[job.parentId].referredCustomers + [job.userId]
    ensures forall k :: k in db.users && k != job.userId ==> r.0.users[k].isActive == db.users[k].isActive
    ensures (WalletsKeyed(db) ==> WalletsKeyed(r.0)) && forall k :: k in db.wallets ==> k in r.0.wallets && r.0.wallets[k] == db.wallets[k]
    ensures Referrer(r.0, job.referredBy) == Referrer(db, job.referredBy)
  {
    var d3 := Attached(db, job, slot, now);
    var w := AncestorsWalk(d3, job.userId, now);
    BookkeepingShape(d3, w.0, job.referredBy);
    w
  }

  /**
   * The counts the level walk leaves: it visits the first n members of the path from the member
   * to the root, which then hold the counts of the new tree and the lengths of their referred
   * lists; the members above them keep what the bulk write left (AttachedCounts), and so does
   * the sponsor unless it was visited.
   */
  lemma WalkedCounts(db: Db, job: Job, slot: string, now: Date) returns (n: nat)
    requires JobReady(db, job) && job.parentId != "" && job.parentId in db.users && slot in db.users && slot != job.userId
    ensures ParentAcyclic(AddLeaf(Shape(db.users), job.userId, slot))
    ensures FreshPrefix(Attached(db, job, slot, now), Walked(db, job, slot, now).0, Climb(AddLeaf(Shape(db.users), job.userId, slot), job.userId), n)
    ensures job.userId in db.users ==>
      n >= 1 && Climb(AddLeaf(Shape(db.users), job.userId, slot), job.userId) == [job.userId] + Climb(Shape(db.users), slot)
    ensures job.parentId !in Climb(AddLeaf(Shape(db.users), job.userId, slot), job.userId)[..n] ==>
      Walked(db, job, slot, now).0.users[job.parentId] == Attached(db, job, slot, now).users[job.parentId]
  {
    var t := Shape(db.users);
    var d3 := Attached(db, job, slot, now);
    var c := Climb(Shape(d3.users), job.userId);
    n := WalkCounts(d3, job.userId, now);
    if job.userId in db.users {
      AddLeafChainOfLeaf(t, job.userId, slot);
    }
    if job.parentId !in c[..n] {
      WalkUnvisited(d3, job.userId, now, n, job.parentId);
    }
  }

  /**
   * A job whose search found slot: the sponsor's referred count, the counts, the bulk write, the
   * level walk from the member, and the commissions. The sponsor is read and saved afresh first;
   * a sponsor without a wallet reference whose wallet exists makes that save throw after its
   * write, and the job ends there. A walk that throws ends the job with what it wrote.
   */
  function PlacedRun(db: Db, job: Job, slot: string, now: Date): (r: (Db, Result<bool>))
    requires JobReady(db, job) && job.parentId != "" && job.parentId in db.users && slot in db.users && slot != job.userId
    ensures r.1 != Ok(false)
  {
    if Unlinked(db, job.parentId) then (ReferredCounted(db, job.parentId, now), Err(DuplicateKey))
    else
      var w := Walked(db, job, slot, now);
      if !w.1 then (w.0, Err(TypeError)) else Commissioned(w.0, job, now)
  }

  /**
   * `processJob(job)`: the writes and the outcome, `Ok(true)` for a completed job, `Ok(false)`
   * for `{ success: false }` when no slot is open, and `Err` for a thrown error.
   */
  function JobRun(db: Db, job: Job, now: Date): (r: (Db, Result<bool>))
    requires JobReady(db, job)
  {
    if job.parentId != "" then
      if job.parentId !in db.users then (db, Err(ParentNotFound(job.parentId)))
      else match FindSpot(db.users, job.parentId)
        case NoSpot => (db, Ok(false))
        case Crash => (db, Err(TypeError))
        case Found(slot) =>
          SlotNotMember(db.users, job.parentId, job.userId);
          PlacedRun(db, job, slot, now)
    else
      Commissioned(Activated(db, job.userId), job, now)
  }

  /** The commission step of `processJob`: the member is read afresh and `processCommissions` runs. */
  method PayCommissions(db: Db, job: Job, now: Date) returns (db': Db, r: Result<bool>)
    requires UsersKeyed(db) && ParentAcyclic(Shape(db.users))
    ensures (db', r) == Commissioned(db, job, now)
  {
    var user := if job.userId in db.users then Some(db.users[job.userId]) else None;
    var paid;
    db', paid := ProcessCommissions(db, user, job.points, job.referredBy, now);
    r := if paid then Ok(true) else Err(TypeError);
  }

  /** The placement steps of `processJob` once the search returned slot. */
  method PlaceMember(db: Db, job: Job, slot: string, now: Date) returns (db': Db, r: Result<bool>)
    requires JobReady(db, job) && job.parentId != "" && job.parentId in db.users && slot in db.users && slot != job.userId
    ensures (db', r) == PlacedRun(db, job, slot, now)
  {
    var refreshThrows := SaveThrows(db, db.users[job.parentId]);
    db' := ReferredCounted(db, job.parentId, now);
    if refreshThrows {
      return db', Err(DuplicateKey);
    }
    BookkeepingShape(db, db', "");
    db' := UpdateAncestorsDescendantCount(db', slot);
    assert db' == Counted(db, job.parentId, slot, now);
    db' := Placed(db', job.userId, slot, job.parentId);
    assert db' == Attached(db, job, slot, now);
    var walked;
    db', walked := UpdateAncestors(db', job.userId, now);
    ghost var w := Walked(db, job, slot, now);
    assert (db', walked) == w;
    if !walked {
      return db', Err(TypeError);
    }
    db', r := PayCommissions(db', job, now);
  }

  /**
   * `processJob(job)` step by step: the sponsor is read, the slot searched, the counts written,
   * the bulk write made, the levels walked up from the member, and the member read afresh for
   * the commissions.
   */
  method ProcessJob(db: Db, job: Job, now: Date) returns (db': Db, r: Result<bool>)
    requires JobReady(db, job)
    ensures (db', r) == JobRun(db, job, now)
  {
    if job.parentId != "" {
      if job.parentId !in db.users {
        return db, Err(ParentNotFound(job.parentId));
      }
      var intendedParent := db.users[job.parentId];
      var actualParent := FindNextAvailableSpot(db, job.parentId);
      if actualParent.NoSpot? {
        return db, Ok(false);
      }
      if actualParent.Crash? {
        return db, Err(TypeError);
      }
      var slot := actualParent.slot;
      SpotFound(db.users, job.parentId);
      SlotNotMember(db.users, job.parentId, job.userId);
      if db.users[slot].depth == Some(15) {
        // "15 Levels Reached.": a slot the search returns has a depth below 15
        assert false;
      }
      db', r := PlaceMember(db, job, slot, now);
    } else {
      db' := Activated(db, job.userId);
      db', r := PayCommissions(db', job, now);
    }
  }

  // ---------------------------------------------------------------------------------------------
  // What a job does

  /** The placement facts for a search that returned slot, whether or not the walk or the commissions throw. */
  lemma PlacedRunPlacement(db: Db, job: Job, slot: string, now: Date)
    requires JobReady(db, job) && job.parentId != "" && job.parentId in db.users && slot in db.users && slot != job.userId
    ensures var r := PlacedRun(db, job, slot, now).0;
      !Unlinked(db, job.parentId) ==>
      Shape(r.users) == AddLeaf(Shape(db.users), job.userId, slot) &&
      Acyclic(Shape(r.users)) && r.users.Keys == db.users.Keys &&
      (job.userId in db.users ==> r.users[job.userId].isActive && r.users[job.userId].parent == Some(slot)) &&
      r.users[job.parentId].referredCustomers == db.users[job.parentId].referredCustomers + [job.userId] &&
      (forall k :: k in db.users && k != job.userId ==> r.users[k].isActive == db.users[k].isActive)
  {
    if !Unlinked(db, job.parentId) {
      var w := Walked(db, job, slot, now);
      var r := PlacedRun(db, job, slot, now).0;
      if w.1 {
        assert r == Commissioned(w.0, job, now).0;
        assert forall k :: k in w.0.users ==> SameLinks(r.users[k], w.0.users[k]);
      } else {
        assert r == w.0;
      }
      if job.userId in db.users {
        assert Shape(r.users)[job.userId] == AddLeaf(Shape(db.users), job.userId, slot)[job.userId];
      }
    }
  }

  /**
   * A placement: after a job whose search found slot and whose sponsor's refresh saved, whatever
   * the walks and the commissions then do, the links are those of the old tree with the member
   * attached below slot, which is again a forest; the member is active; the sponsor's referred
   * list has gained the member; and no other member's activity changed. When the refresh
   * throws, nothing is placed: the links are as they were.
   */
  lemma JobPlacement(db: Db, job: Job, now: Date)
    requires JobReady(db, job) && job.parentId != "" && job.parentId in db.users
    requires FindSpot(db.users, job.parentId).Found?
    ensures FindSpot(db.users, job.parentId).slot in db.users
    ensures Unlinked(db, job.parentId) ==>
      JobRun(db, job, now) == (ReferredCounted(db, job.parentId, now), Err(DuplicateKey)) &&
      Shape(JobRun(db, job, now).0.users) == Shape(db.users)
    ensures var slot, r := FindSpot(db.users, job.parentId).slot, JobRun(db, job, now).0;
      !Unlinked(db, job.parentId) ==>
      Shape(r.users) == AddLeaf(Shape(db.users), job.userId, slot) &&
      Acyclic(Shape(r.users)) && r.users.Keys == db.users.Keys &&
      (job.userId in db.users ==> r.users[job.userId].isActive && r.users[job.userId].parent == Some(slot)) &&
      r.users[job.parentId].referredCustomers == db.users[job.parentId].referredCustomers + [job.userId] &&
      (forall k :: k in db.users && k != job.userId ==> r.users[k].isActive == db.users[k].isActive)
  {
    SlotNotMember(db.users, job.parentId, job.userId);
    var slot := FindSpot(db.users, job.parentId).slot;
    assert JobRun(db, job, now) == PlacedRun(db, job, slot, now);
    PlacedRunPlacement(db, job, slot, now);
    BookkeepingShape(db, ReferredCounted(db, job.parentId, now), "");
  }

  /**
   * The outcomes of a job with a sponsor: a missing sponsor throws; the job answers
   * `{ success: false }` exactly when the search finds no open slot; and unless the search
   * finds a slot, nothing is written.
   */
  lemma JobOutcomes(db: Db, job: Job, now: Date)
    requires JobReady(db, job) && job.parentId != ""
    ensures job.parentId !in db.users ==> JobRun(db, job, now) == (db, Err(ParentNotFound(job.parentId)))
    ensures JobRun(db, job, now).1 == Ok(false) <==> job.parentId in db.users && FindSpot(db.users, job.parentId).NoSpot?
    ensures !FindSpot(db.users, job.parentId).Found? ==> JobRun(db, job, now).0 == db
  {
  }

  /**
   * No stored member carries a `depth` (it is not a path of the member schema), so the search
   * never finds a slot: a job with a sponsor then writes nothing and never completes.
   */
  lemma JobNeverPlaces(db: Db, job: Job, now: Date)
    requires JobReady(db, job) && job.parentId != ""
    requires forall k :: k in db.users ==> db.users[k].depth.None?
    ensures JobRun(db, job, now).0 == db && JobRun(db, job, now).1 != Ok(true)
  {
    NoDepthNoSlot(db.users, job.parentId);
  }

  /** What a job pays x: the points to the member, a fifth to its referrer and a twentieth to each member of upline. */
  function JobShare(db: Db, job: Job, upline: seq<string>, x: string): real
  {
    (if x == job.userId then job.points else 0.0) +
    (if Referrer(db, job.referredBy) == Some(x) then job.points * DirectPlanCommission else 0.0) +
    (if x in upline then job.points * LevelPlanCommission else 0.0)
  }

  /** The commission step on the wallets of active members: it completes and pays the plan's shares. */
  lemma CommissionedGain(db: Db, job: Job, now: Date, x: string)
    requires UsersKeyed(db) && WalletsKeyed(db) && ParentAcyclic(Shape(db.users)) && job.userId in db.users
    requires x in db.wallets && x in db.users && db.users[x].isActive
    ensures Commissioned(db, job, now).1 == Ok(true)
    ensures x in Commissioned(db, job, now).0.wallets
    ensures Commissioned(db, job, now).0.wallets[x].currentBalance == db.wallets[x].currentBalance +
      JobShare(db, job, Chain(Shape(db.users), job.userId), x)
  {
    CommissionGain(db, job.userId, job.points, job.referredBy, now, x);
  }

  /** A placement that completes has walked the levels without throwing and then paid the commissions. */
  lemma PlacedRunCompleted(db: Db, job: Job, slot: string, now: Date)
    requires JobReady(db, job) && job.parentId != "" && job.parentId in db.users && slot in db.users && slot != job.userId
    requires PlacedRun(db, job, slot, now).1 == Ok(true)
    ensures !Unlinked(db, job.parentId) && Walked(db, job, slot, now).1
    ensures PlacedRun(db, job, slot, now) == Commissioned(Walked(db, job, slot, now).0, job, now)
  {
  }

  /** The commission step on a store d where the member has been attached below slot in db's tree. */
  lemma AttachedGain(db: Db, d: Db, job: Job, slot: string, now: Date, x: string)
    requires Acyclic(Shape(db.users)) && Unplaced(Shape(db.users), job.userId) && slot in db.users && slot != job.userId
    requires UsersKeyed(d) && WalletsKeyed(d) && job.userId in d.users
    requires Shape(d.users) == AddLeaf(Shape(db.users), job.userId, slot) && Acyclic(Shape(d.users))
    requires x in db.wallets && x in d.wallets && d.wallets[x] == db.wallets[x]
    requires x in d.users && d.users[x].isActive
    requires Referrer(d, job.referredBy) == Referrer(db, job.referredBy)
    ensures x in Commissioned(d, job, now).0.wallets
    ensures Commissioned(d, job, now).0.wallets[x].currentBalance == db.wallets[x].currentBalance +
      JobShare(db, job, [slot] + Chain(Shape(db.users), slot), x)
  {
    AddLeafChainOfLeaf(Shape(db.users), job.userId, slot);
    CommissionedGain(d, job, now, x);
  }

  /**
   * The commissions of a placed member, on the wallets that existed before the job: the member
   * gets the points, its referrer a fifth of them, and the slot and every ancestor of the slot a
   * twentieth, all on top of the old balance, for the member and for every active member.
   */
  lemma PlacedGain(db: Db, job: Job, slot: string, now: Date, x: string)
    requires JobReady(db, job) && job.parentId != "" && job.parentId in db.users && slot in db.users && slot != job.userId
    requires WalletsKeyed(db) && x in db.wallets && x in db.users && (db.users[x].isActive || x == job.userId)
    requires PlacedRun(db, job, slot, now).1 == Ok(true)
    ensures x in PlacedRun(db, job, slot, now).0.wallets
    ensures PlacedRun(db, job, slot, now).0.wallets[x].currentBalance == db.wallets[x].currentBalance +
      JobShare(db, job, [slot] + Chain(Shape(db.users), slot), x)
  {
    PlacedRunCompleted(db, job, slot, now);
    var d := Walked(db, job, slot, now).0;
    assert x in d.wallets && d.wallets[x] == db.wallets[x];
    assert d.users[x].isActive by {
      if x != job.userId {
        assert d.users[x].isActive == db.users[x].isActive;
      }
    }
    AttachedGain(db, d, job, slot, now, x);
  }

  /**
   * The wallet outcome of a completed job with a sponsor whose search found a slot.
   */
  lemma JobGain(db: Db, job: Job, now: Date, x: string)
    requires JobReady(db, job) && job.parentId != "" && job.parentId in db.users
    requires FindSpot(db.users, job.parentId).Found? && JobRun(db, job, now).1 == Ok(true)
    requires WalletsKeyed(db) && x in db.wallets && x in db.users && (db.users[x].isActive || x == job.userId)
    ensures x in JobRun(db, job, now).0.wallets
    ensures var slot := FindSpot(db.users, job.parentId).slot;
      JobRun(db, job, now).0.wallets[x].currentBalance == db.wallets[x].currentBalance +
        JobShare(db, job, [slot] + Chain(Shape(db.users), slot), x)
  {
    SlotNotMember(db.users, job.parentId, job.userId);
    var slot := FindSpot(db.users, job.parentId).slot;
    assert JobRun(db, job, now) == PlacedRun(db, job, slot, now);
    PlacedGain(db, job, slot, now, x);
  }

  /**
   * A job without a sponsor activates the member and pays it the points, its referrer a fifth,
   * and each of its ancestors a twentieth.
   */
  lemma ActivationGain(db: Db, job: Job, now: Date, x: string)
    requires JobReady(db, job) && job.parentId == "" && job.userId in db.users
    requires WalletsKeyed(db) && x in db.wallets && x in db.users && (db.users[x].isActive || x == job.userId)
    ensures JobRun(db, job, now).1 == Ok(true)
    ensures JobRun(db, job, now).0.users[job.userId].isActive && x in JobRun(db, job, now).0.wallets
    ensures JobRun(db, job, now).0.wallets[x].currentBalance == db.wallets[x].currentBalance +
      JobShare(db, job, Chain(Shape(db.users), job.userId), x)
  {
    var d := Activated(db, job.userId);
    assert Referrer(d, job.referredBy) == Referrer(db, job.referredBy);
    CommissionedGain(d, job, now, x);
    assert JobRun(db, job, now) == Commissioned(d, job, now);
  }
}
