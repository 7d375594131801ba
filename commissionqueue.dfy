/**
 * The commission worker of queues/processCommissionQueue.js: for a purchase of `points` by a
 * member, the member's own wallet gets the points as direct income, the member's referrer a
 * fifth of them as direct income, and every tree ancestor other than the referrer a twentieth
 * as level income. Each credit goes through the wallet document's method and is followed by a
 * second `save()` of the same document.
 */
module CommissionQueue {
  import opened Common
  import opened Users
  import opened Wallets
  import opened Store
  import opened Tree
  import opened WalletDocs
  import opened Credits
  import Unified

  /** The job's data: the member's document id (`userid`) and the purchase's points. */
  datatype CommissionData = CommissionData(userid: string, points: real)

  const UserNotFound: string := "User not found"

  /**
   * `User.findById`: ids maps each document id to the `userId` of the member stored under it.
   * An id that is not in the map is a document that does not exist.
   */
  predicate Indexed(db: Db, ids: map<string, string>)
  {
    forall d :: d in ids ==> ids[d] in db.users
  }

  /** The `referredBy` the referrer lookup is given, "" when the member has none (a falsy value). */
  function RefId(u: User): string
  {
    match u.referredBy
    case Some(r) => r
    case None => ""
  }

  /** The ancestors paid the level commission: every one of ups except the member's direct referrer. */
  function LevelPayees(ups: seq<string>, referredBy: Option<string>): (r: seq<string>)
    ensures forall a :: a in r <==> a in ups && Some(a) != referredBy
  {
    match referredBy
    case Some(ref) => Without(ups, ref)
    case None => ups
  }

  lemma {:induction false} WithoutNoDuplicates(s: seq<string>, x: string)
    requires NoDuplicates(s)
    ensures NoDuplicates(Without(s, x))
    decreases |s|
  {
    if s != [] {
      assert NoDuplicates(s[1..]);
      WithoutNoDuplicates(s[1..], x);
      var rest := Without(s[1..], x);
      if s[0] != x {
        assert s[0] !in s[1..] by {
          forall j | 0 <= j < |s[1..]| ensures s[1..][j] != s[0] { assert s[1..][j] == s[j + 1]; }
        }
        var r := [s[0]] + rest;
        forall i, j | 0 <= i < j < |r| ensures r[i] != r[j] {
          if i == 0 {
            assert r[j] == rest[j - 1] && rest[j - 1] in rest;
          } else {
            assert r[i] == rest[i - 1] && r[j] == rest[j - 1];
          }
        }
      } else {
        assert Without(s, x) == rest;
      }
    }
  }

  /**
   * The credits the worker makes for the stored member u, in order: the points to u, a fifth of
   * them to the referrer when there is one, and a twentieth to each ancestor, nearest first,
   * except the referrer.
   */
  function CommissionPlan(db: Db, u: User, points: real): seq<Credit>
    requires ParentAcyclic(Shape(db.users)) && u.userId in db.users
  {
    [Credit(u.userId, Referral, points)] + Unified.ReferrerCredit(db, RefId(u), points)
    + Each(LevelPayees(Chain(Shape(db.users), u.userId), u.referredBy), Level, points * Unified.LevelPlanCommission)
  }

  /**
   * The whole job: an unknown document id throws 'User not found' before any write; otherwise
   * the credits of the plan are made in order, and a credit that throws ends the job with the
   * writes made so far.
   */
  function CommissionRun(db: Db, ids: map<string, string>, job: CommissionData, now: Date): (r: (Db, Result<()>))
    requires UsersKeyed(db) && ParentAcyclic(Shape(db.users)) && Indexed(db, ids)
    ensures UsersKeyed(r.0) && StatusOnly(db, r.0) && r.0.thresholds == db.thresholds
    ensures OneRewardPerThreshold(db.rewards) ==> OneRewardPerThreshold(r.0.rewards)
  {
    if job.userid !in ids then (db, Err(UserNotFound))
    else
      var run := RunCredits(db, CommissionPlan(db, db.users[ids[job.userid]], job.points), now);
      (run.0, if run.1 then Ok(()) else Err(TypeError))
  }

  // ---------------------------------------------------------------------------------------------
  // What the job pays

  lemma GainSingle(c: Credit, x: string)
    ensures Gain([c], x) == if c.userId == x then c.amount else 0.0
  {
    assert [c][1..] == [];
  }

  /**
   * What the plan pays each member x: the points when x is the buyer, a fifth when x is the
   * referrer, and a twentieth when x is an ancestor other than the referrer.
   */
  lemma {:induction false} CommissionShares(db: Db, u: User, points: real, x: string)
    requires ParentAcyclic(Shape(db.users)) && u.userId in db.users
    ensures Gain(CommissionPlan(db, u, points), x) ==
      (if x == u.userId then points else 0.0) +
      (if Unified.Referrer(db, RefId(u)) == Some(x) then points * Unified.DirectPlanCommission else 0.0) +
      (if x in Chain(Shape(db.users), u.userId) && Some(x) != u.referredBy then points * Unified.LevelPlanCommission else 0.0)
  {
    var t := Shape(db.users);
    var ups := Chain(t, u.userId);
    ChainDescends(t, u.userId);
    if u.referredBy.Some? {
      WithoutNoDuplicates(ups, u.referredBy.value);
    }
    var own := [Credit(u.userId, Referral, points)];
    var ref := Unified.ReferrerCredit(db, RefId(u), points);
    var payees := LevelPayees(ups, u.referredBy);
    var levels := Each(payees, Level, points * Unified.LevelPlanCommission);
    GainAppend(own + ref, levels, x);
    GainAppend(own, ref, x);
    GainEach(payees, Level, points * Unified.LevelPlanCommission, x);
    GainSingle(own[0], x);
    assert own == [own[0]];
    if ref != [] {
      GainSingle(ref[0], x);
      assert ref == [ref[0]];
    }
  }

  /** Every credit of the plan goes to a stored member. */
  lemma CommissionPlanToMembers(db: Db, u: User, points: real)
    requires UsersKeyed(db) && ParentAcyclic(Shape(db.users)) && u.userId in db.users
    ensures ToMembers(db, CommissionPlan(db, u, points))
  {
    var t := Shape(db.users);
    ChainDescends(t, u.userId);
    var plan := CommissionPlan(db, u, points);
    var own := [Credit(u.userId, Referral, points)];
    var ref := Unified.ReferrerCredit(db, RefId(u), points);
    var payees := LevelPayees(Chain(t, u.userId), u.referredBy);
    var levels := Each(payees, Level, points * Unified.LevelPlanCommission);
    assert plan == own + ref + levels;
    forall i | 0 <= i < |plan| ensures plan[i].userId in db.users {
      if i >= |own| + |ref| {
        assert plan[i] == levels[i - |own| - |ref|];
        assert payees[i - |own| - |ref|] in payees;
      } else if i >= |own| {
        assert plan[i] == ref[i - |own|];
      }
    }
  }

  /**
   * An unknown document id throws and writes nothing. For a stored member, with every wallet
   * stored under its owner, the job completes, no wallet appears or disappears, and each active
   * member's balance grows by exactly its share: the points for the buyer, a fifth for the
   * referrer, a twentieth for every other ancestor; an inactive member's balance stays.
   */
  lemma CommissionGain(db: Db, ids: map<string, string>, job: CommissionData, now: Date, x: string)
    requires UsersKeyed(db) && WalletsKeyed(db) && ParentAcyclic(Shape(db.users)) && Indexed(db, ids)
    requires x in db.wallets && x in db.users
    ensures job.userid !in ids ==> CommissionRun(db, ids, job, now) == (db, Err(UserNotFound))
    ensures job.userid in ids ==>
      var r, u := CommissionRun(db, ids, job, now), db.users[ids[job.userid]];
      r.1 == Ok(()) && r.0.wallets.Keys == db.wallets.Keys &&
      r.0.wallets[x].currentBalance == db.wallets[x].currentBalance + (if !db.users[x].isActive then 0.0 else
        (if x == u.userId then job.points else 0.0) +
        (if Unified.Referrer(db, RefId(u)) == Some(x) then job.points * Unified.DirectPlanCommission else 0.0) +
        (if x in Chain(Shape(db.users), u.userId) && Some(x) != u.referredBy then job.points * Unified.LevelPlanCommission else 0.0))
  {
    if job.userid in ids {
      var u := db.users[ids[job.userid]];
      CommissionPlanToMembers(db, u, job.points);
      RunCreditsGain(db, CommissionPlan(db, u, job.points), now, x);
      CommissionShares(db, u, job.points, x);
    }
  }

  /**
   * The credits of the job with the reward check as written: for a stored member they all
   * complete exactly when none reaches a threshold its member holds no reward for, and then
   * each active member gains its share as above.
   */
  lemma CommissionGainAsWritten(db: Db, ids: map<string, string>, job: CommissionData, now: Date, x: string)
    requires UsersKeyed(db) && WalletsKeyed(db) && ParentAcyclic(Shape(db.users)) && Indexed(db, ids)
    requires x in db.wallets && x in db.users && job.userid in ids
    ensures var u := db.users[ids[job.userid]]; var plan := CommissionPlan(db, u, job.points);
      RunCreditsAsWritten(db, plan, now).1 <==> NoneDue(db, plan, now)
    ensures var u := db.users[ids[job.userid]]; var plan := CommissionPlan(db, u, job.points);
      var r := RunCreditsAsWritten(db, plan, now);
      NoneDue(db, plan, now) ==>
        x in r.0.wallets &&
        r.0.wallets[x].currentBalance == db.wallets[x].currentBalance + (if !db.users[x].isActive then 0.0 else
          (if x == u.userId then job.points else 0.0) +
          (if Unified.Referrer(db, RefId(u)) == Some(x) then job.points * Unified.DirectPlanCommission else 0.0) +
          (if x in Chain(Shape(db.users), u.userId) && Some(x) != u.referredBy then job.points * Unified.LevelPlanCommission else 0.0))
  {
    var u := db.users[ids[job.userid]];
    CommissionPlanToMembers(db, u, job.points);
    RunCreditsGainAsWritten(db, CommissionPlan(db, u, job.points), now, x);
    CommissionShares(db, u, job.points, x);
  }

  /**
   * The referrer is paid once: a fifth of the points as direct income, even when it is also an
   * ancestor of the buyer, and nothing as level income.
   */
  lemma ReferrerPaidOnce(db: Db, ids: map<string, string>, job: CommissionData, now: Date)
    requires UsersKeyed(db) && WalletsKeyed(db) && ParentAcyclic(Shape(db.users)) && Indexed(db, ids)
    requires job.userid in ids
    requires var u := db.users[ids[job.userid]];
      u.referredBy.Some? && u.referredBy.value != "" && u.referredBy.value != u.userId &&
      u.referredBy.value in db.wallets && u.referredBy.value in db.users && db.users[u.referredBy.value].isActive
    ensures var r, u := CommissionRun(db, ids, job, now).0, db.users[ids[job.userid]];
      u.referredBy.value in r.wallets &&
      r.wallets[u.referredBy.value].currentBalance ==
        db.wallets[u.referredBy.value].currentBalance + job.points * Unified.DirectPlanCommission
  {
    var u := db.users[ids[job.userid]];
    CommissionGain(db, ids, job, now, u.referredBy.value);
  }

  // ---------------------------------------------------------------------------------------------
  // The worker as the source runs it

  /** A run of a + b: the run of a, then, if it completed, the run of b from where a left the store. */
  lemma {:induction false} RunCreditsAppend(db: Db, a: seq<Credit>, b: seq<Credit>, now: Date)
    requires UsersKeyed(db)
    ensures RunCredits(db, a + b, now) ==
      var ra := RunCredits(db, a, now);
      if ra.1 then RunCredits(ra.0, b, now) else ra
    decreases |a|
  {
    if a == [] {
      assert a + b == b;
    } else {
      assert a + b == [a[0]] + (a[1..] + b);
      RunCreditsCons(db, a[0], a[1..] + b, now);
      var s := Step(db, a[0], now);
      if s.1 {
        RunCreditsAppend(s.0, a[1..], b, now);
      }
    }
  }

  /** Credits change no member's userId, so the referrer found is the same before and after them. */
  lemma ReferrerKept(a: Db, b: Db, referredBy: string, points: real)
    requires StatusOnly(a, b)
    ensures Unified.ReferrerCredit(b, referredBy, points) == Unified.ReferrerCredit(a, referredBy, points)
  {
    StatusOnlyShape(a, b);
  }

  /** `if (user.referredBy)`: the direct commission to the referrer, when it is stored. */
  method PayReferrer(db: Db, user: User, points: real, now: Date) returns (db': Db)
    requires UsersKeyed(db) && WalletsKeyed(db)
    ensures (db', true) == RunCredits(db, Unified.ReferrerCredit(db, RefId(user), points), now)
    ensures WalletsKeyed(db')
  {
    db' := db;
    if user.referredBy.Some? && user.referredBy.value != "" {
      if user.referredBy.value in db.users {
        var referrer := db.users[user.referredBy.value];
        var directCommission := points * Unified.DirectPlanCommission;
        var c := Credit(referrer.userId, Referral, directCommission);
        RunCreditsCons(db, c, [], now);
        StepKeeps(db, c, now);
        var ok;
        db', ok := CreditAndSave(db, c, now);
      }
    }
  }

  /**
   * The plan's run split the way the worker makes it: the member's own credit, then the
   * referrer's (found in the store the first credit left), then the level credits; the first
   * two never throw.
   */
  lemma {:induction false} CommissionSteps(db: Db, u: User, points: real, now: Date)
    requires UsersKeyed(db) && WalletsKeyed(db) && ParentAcyclic(Shape(db.users)) && u.userId in db.users
    ensures var s := Step(db, Credit(u.userId, Referral, points), now);
      var run := RunCredits(s.0, Unified.ReferrerCredit(s.0, RefId(u), points), now);
      s.1 && run.1 &&
      RunCredits(db, CommissionPlan(db, u, points), now) ==
        RunCredits(run.0, Each(LevelPayees(Chain(Shape(db.users), u.userId), u.referredBy), Level, points * Unified.LevelPlanCommission), now)
  {
    var own := [Credit(u.userId, Referral, points)];
    var ref := Unified.ReferrerCredit(db, RefId(u), points);
    var levels := Each(LevelPayees(Chain(Shape(db.users), u.userId), u.referredBy), Level, points * Unified.LevelPlanCommission);
    assert CommissionPlan(db, u, points) == own + ref + levels;
    RunCreditsAppend(db, own + ref, levels, now);
    RunCreditsAppend(db, own, ref, now);
    RunCreditsCons(db, own[0], [], now);
    StepKeeps(db, own[0], now);
    var s := Step(db, own[0], now);
    ReferrerKept(db, s.0, RefId(u), points);
    if ref != [] {
      assert ref == [ref[0]];
      RunCreditsCons(s.0, ref[0], [], now);
      StepKeeps(s.0, ref[0], now);
    }
  }

  /**
   * The `while (currentUser.parent)` loop: each stored parent in turn, nearest first, gets the
   * level commission unless it is the referrer; the loop ends at the root or at a parent that
   * is not stored.
   */
  method PayAncestors(db: Db, user: User, referredBy: Option<string>, amount: real, now: Date) returns (db': Db)
    requires UsersKeyed(db) && WalletsKeyed(db) && ParentAcyclic(Shape(db.users))
    requires user.userId in db.users && user.parent == db.users[user.userId].parent
    ensures (db', true) == RunCredits(db, Each(LevelPayees(Chain(Shape(db.users), user.userId), referredBy), Level, amount), now)
  {
    ghost var t := Shape(db.users);
    ghost var target := RunCredits(db, Each(LevelPayees(Chain(t, user.userId), referredBy), Level, amount), now);
    db' := db;
    var current := user;
    while current.parent.Some?
      invariant UsersKeyed(db') && WalletsKeyed(db') && Shape(db'.users) == t
      invariant current.userId in t && current.parent == t[current.userId].parent
      invariant target == RunCredits(db', Each(LevelPayees(Chain(t, current.userId), referredBy), Level, amount), now)
      decreases Pk(t)[current.userId]
    {
      var p := current.parent.value;
      if p !in db'.users {
        break;
      }
      var parent := db'.users[p];
      assert Chain(t, current.userId) == [p] + Chain(t, p);
      if Some(parent.userId) == referredBy {
        assert LevelPayees(Chain(t, current.userId), referredBy) == LevelPayees(Chain(t, p), referredBy);
        current := parent;
        continue;
      }
      ghost var rest := Each(LevelPayees(Chain(t, p), referredBy), Level, amount);
      assert LevelPayees(Chain(t, current.userId), referredBy) == [p] + LevelPayees(Chain(t, p), referredBy);
      assert Each([p] + LevelPayees(Chain(t, p), referredBy), Level, amount) == [Credit(p, Level, amount)] + rest;
      RunCreditsCons(db', Credit(p, Level, amount), rest, now);
      StepKeeps(db', Credit(p, Level, amount), now);
      ghost var before := db';
      var ok;
      db', ok := CreditAndSave(db', Credit(parent.userId, Level, amount), now);
      StatusOnlyShape(before, db');
      current := parent;
    }
    assert Chain(t, current.userId) == [];
    assert Each(LevelPayees([], referredBy), Level, amount) == [];
  }

  /**
   * `commissionQueue.process`: the member is read by document id (an unknown id throws 'User
   * not found'); then its own credit, the referrer's credit, and the level credits up the tree.
   * Wallets stored under their owners are the store's invariant.
   */
  method ProcessCommission(db: Db, ids: map<string, string>, job: CommissionData, now: Date)
    returns (db': Db, r: Result<()>)
    requires UsersKeyed(db) && WalletsKeyed(db) && ParentAcyclic(Shape(db.users)) && Indexed(db, ids)
    ensures (db', r) == CommissionRun(db, ids, job, now)
  {
    if job.userid !in ids {
      return db, Err(UserNotFound);
    }
    var user := db.users[ids[job.userid]];
    var points := job.points;
    CommissionSteps(db, user, points, now);
    StepKeeps(db, Credit(user.userId, Referral, points), now);
    var db1, ok := CreditAndSave(db, Credit(user.userId, Referral, points), now);
    StatusOnlyShape(db, db1);
    var db2 := PayReferrer(db1, user, points, now);
    StatusOnlyShape(db1, db2);
    db' := PayAncestors(db2, user, user.referredBy, points * Unified.LevelPlanCommission, now);
    r := Ok(());
  }
}
