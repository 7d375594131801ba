/**
 * The monthly distribution of jobs/GlobalPointPoolJob.js: on the 5th of each month, 1% of last
 * month's pool (floored) is shared equally (floored again) among the members whose club is
 * Silver or Gold or whose rank is Crown, each share credited as direct income to the wallet the
 * member references.
 */
module PointJob {
  import opened Common
  import opened Users
  import opened Wallets
  import opened Pools
  import opened Store
  import opened Credits

  /** The month one after d (d's month index 0-based). */
  function NextMonth(d: Date): Date
  {
    if d.monthIndex == 11 then Date(0, d.year + 1) else Date(d.monthIndex + 1, d.year)
  }

  /**
   * `getPreviousMonthAndYear`: the pool key (1-based month, year) of the month before now, which
   * is the key the wallet credits of that month used for the pool they grew.
   */
  function PreviousMonthAndYear(now: Date): (r: (int, int))
    ensures 0 <= now.monthIndex < 12 ==>
      1 <= r.0 <= 12 && NextMonth(Date(r.0 - 1, r.1)) == now && (r.0, r.1) == (KeyMonth(Date(r.0 - 1, r.1)), r.1)
  {
    var previousMonth := if now.monthIndex == 0 then 12 else now.monthIndex;
    var year := if previousMonth == 12 then now.year - 1 else now.year;
    (previousMonth, year)
  }

  /** The query `{ $or: [{ club: { $in: ['Silver', 'Gold'] } }, { rank: 'Crown' }] }`. */
  predicate Qualifies(u: User)
  {
    u.club == Silver || u.club == Gold || u.rank == Some("Crown")
  }

  /**
   * order lists the stored members once each, in the store's natural order (the order `find`
   * returns them in).
   */
  predicate Listing(db: Db, order: seq<string>)
  {
    NoDuplicates(order) && (forall k :: k in order ==> k in db.users) && (forall k :: k in db.users ==> k in order)
  }

  /** The members of order the query returns, in order. */
  function Qualifying(users: map<string, User>, order: seq<string>): (r: seq<string>)
    ensures forall k :: k in r <==> k in order && k in users && Qualifies(users[k])
    ensures NoDuplicates(order) ==> NoDuplicates(r)
  {
    if order == [] then []
    else
      var rest := Qualifying(users, order[1..]);
      if order[0] in users && Qualifies(users[order[0]]) then
        assert NoDuplicates(order) ==> NoDuplicates(order[1..]);
        [order[0]] + rest
      else rest
  }

  /** The members of ids whose document references a wallet (`if (user.wallet)`), in order. */
  function Referencing(users: map<string, User>, ids: seq<string>): (r: seq<string>)
    requires forall k :: k in ids ==> k in users
    ensures forall k :: k in r <==> k in ids && users[k].hasWallet
    ensures NoDuplicates(ids) ==> NoDuplicates(r)
  {
    if ids == [] then []
    else
      var rest := Referencing(users, ids[1..]);
      if users[ids[0]].hasWallet then
        assert NoDuplicates(ids) ==> NoDuplicates(ids[1..]);
        [ids[0]] + rest
      else rest
  }

  /**
   * `Math.floor(Math.floor(total * 0.01) / n)`: the share of each of n members. The n shares
   * together never exceed 1% of the pool, and one more member's worth would.
   */
  function PerUser(total: real, n: int): (share: int)
    requires n > 0
    ensures share * n <= Floor(total * 0.01) < (share + 1) * n
    ensures (share * n) as real <= total * 0.01
  {
    var pointsToDistribute := Floor(total * 0.01);
    var q := pointsToDistribute as real / n as real;
    var share := Floor(q);
    assert q * n as real == pointsToDistribute as real;
    MulLess(share as real, q, n as real);
    MulLess(q, (share + 1) as real, n as real);
    share
  }

  lemma MulLess(a: real, b: real, c: real)
    requires a <= b && c > 0.0
    ensures a * c <= b * c && (a < b ==> a * c < b * c)
  {
  }

  /** The total of last month's pool, when `findOne({ month: previousMonth, year })` finds one. */
  function LastMonthTotal(db: Db, now: Date): (r: Option<real>)
    ensures r.Some? <==> Find(db.pools, PreviousMonthAndYear(now).0, PreviousMonthAndYear(now).1).Some?
  {
    var (month, year) := PreviousMonthAndYear(now);
    match Find(db.pools, month, year)
    case None => None
    case Some(i) => Some(db.pools[i].totalMonthlyPoints)
  }

  /**
   * The credits of one run: none when last month has no pool or no member qualifies; otherwise
   * one direct-income credit of the per-member share to each qualifying member whose document
   * references a wallet, in the store's order. The share divides among all qualifying members,
   * those without a wallet included.
   */
  function DistributionPlan(db: Db, order: seq<string>, now: Date): seq<Credit>
  {
    match LastMonthTotal(db, now)
    case None => []
    case Some(total) =>
      var q := Qualifying(db.users, order);
      if |q| == 0 then []
      else Each(Referencing(db.users, q), Referral, PerUser(total, |q|) as real)
  }

  /**
   * `distributePoints` as it is evidently meant to run, with the pool read from the record
   * found: the credits of the plan. An error inside is caught and logged, so the run ends with
   * the writes made so far.
   */
  function Distributed(db: Db, order: seq<string>, now: Date): (r: Db)
    requires UsersKeyed(db)
    ensures UsersKeyed(r) && StatusOnly(db, r) && r.thresholds == db.thresholds
  {
    RunCredits(db, DistributionPlan(db, order, now), now).0
  }

  /**
   * `distributePoints` as written: the pool model file exports nothing, so `GlobalPointPool.findOne`
   * is not a function and throws; and were it found, `lastMonthPool` on line 27 is not defined
   * and throws. Either error is caught and logged: nothing is written.
   */
  function DistributedAsWritten(db: Db, order: seq<string>, now: Date): (r: Db)
  {
    db
  }

  // ---------------------------------------------------------------------------------------------
  // What a run pays

  /**
   * With a pool for last month and at least one qualifying member, every active qualifying
   * member whose document references its stored wallet gains exactly the share; every other
   * balance stays. Without a pool or without a qualifying member nothing changes.
   */
  lemma DistributionGain(db: Db, order: seq<string>, now: Date, x: string)
    requires UsersKeyed(db) && WalletsKeyed(db) && Listing(db, order) && x in db.wallets && x in db.users
    ensures var q := Qualifying(db.users, order);
      Distributed(db, order, now).wallets.Keys == db.wallets.Keys &&
      (LastMonthTotal(db, now).None? || |q| == 0 ==> Distributed(db, order, now) == db) &&
      (LastMonthTotal(db, now).Some? && |q| > 0 ==>
        Distributed(db, order, now).wallets[x].currentBalance == db.wallets[x].currentBalance +
          (if db.users[x].isActive && db.users[x].hasWallet && Qualifies(db.users[x])
           then PerUser(LastMonthTotal(db, now).value, |q|) as real else 0.0))
  {
    var q := Qualifying(db.users, order);
    var plan := DistributionPlan(db, order, now);
    if LastMonthTotal(db, now).Some? && |q| > 0 {
      var payees := Referencing(db.users, q);
      var share := PerUser(LastMonthTotal(db, now).value, |q|) as real;
      assert plan == Each(payees, Referral, share);
      forall i | 0 <= i < |plan| ensures plan[i].userId in db.users {
        assert plan[i].userId == payees[i] && payees[i] in payees;
      }
      RunCreditsGain(db, plan, now, x);
      GainEach(payees, Referral, share, x);
    } else {
      assert plan == [];
    }
  }

  /**
   * As written, a run pays nothing: an active qualifying member with a referenced wallet, whom
   * the intended run pays a positive share, keeps its balance.
   */
  lemma DistributionLost(db: Db, order: seq<string>, now: Date, x: string)
    requires UsersKeyed(db) && WalletsKeyed(db) && Listing(db, order) && x in db.wallets && x in db.users
    requires db.users[x].isActive && db.users[x].hasWallet && Qualifies(db.users[x])
    requires LastMonthTotal(db, now).Some? && |Qualifying(db.users, order)| > 0
    requires PerUser(LastMonthTotal(db, now).value, |Qualifying(db.users, order)|) > 0
    ensures DistributedAsWritten(db, order, now).wallets[x].currentBalance == db.wallets[x].currentBalance
    ensures x in Distributed(db, order, now).wallets &&
      Distributed(db, order, now).wallets[x].currentBalance > db.wallets[x].currentBalance
  {
    DistributionGain(db, order, now, x);
  }

  // ---------------------------------------------------------------------------------------------
  // The job as the source runs it

  /**
   * `distributePoints`, corrected to read the pool found: the pool of last month, the query,
   * the share, and the `for (const user of qualifyingUsers)` loop of credits. The call to
   * `addDirectIncome` is not awaited in the source; here it completes before the `save()` that
   * follows it.
   */
  method DistributePoints(db: Db, order: seq<string>, now: Date) returns (db': Db)
    requires UsersKeyed(db) && WalletsKeyed(db)
    ensures db' == Distributed(db, order, now)
  {
    var (previousMonth, year) := PreviousMonthAndYear(now);
    var found := Find(db.pools, previousMonth, year);
    if found.None? {
      return db;
    }
    var globalPointPool := db.pools[found.value];
    assert LastMonthTotal(db, now) == Some(globalPointPool.totalMonthlyPoints);
    var qualifyingUsers := Qualifying(db.users, order);
    var numberOfUsers := |qualifyingUsers|;
    if numberOfUsers == 0 {
      return db;
    }
    var pointsPerUser := PerUser(globalPointPool.totalMonthlyPoints, numberOfUsers);
    ghost var target := RunCredits(db, DistributionPlan(db, order, now), now);
    assert qualifyingUsers[0..] == qualifyingUsers;
    db' := db;
    for i := 0 to |qualifyingUsers|
      invariant UsersKeyed(db') && WalletsKeyed(db') && db'.users.Keys == db.users.Keys
      invariant target == RunCredits(db', Each(Referencing(db.users, qualifyingUsers[i..]), Referral, pointsPerUser as real), now)
    {
      var user := db.users[qualifyingUsers[i]];
      var rest := Each(Referencing(db.users, qualifyingUsers[i + 1..]), Referral, pointsPerUser as real);
      assert qualifyingUsers[i..][1..] == qualifyingUsers[i + 1..];
      if user.hasWallet {
        var c := Credit(user.userId, Referral, pointsPerUser as real);
        assert Each(Referencing(db.users, qualifyingUsers[i..]), Referral, pointsPerUser as real) == [c] + rest;
        RunCreditsCons(db', c, rest, now);
        StepKeeps(db', c, now);
        var ok;
        db', ok := CreditAndSave(db', c, now);
      }
    }
    assert qualifyingUsers[|qualifyingUsers|..] == [];
  }
}
