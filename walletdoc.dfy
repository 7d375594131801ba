/**
 * A wallet document as the methods of models/Wallet.js see it: an object whose fields the
 * methods update in place before `this.save()` writes them back to the store.
 */
module WalletDocs {
  import opened Common
  import opened Users
  import opened Wallets
  import opened Pools
  import opened Store

  class WalletDoc {
    var userId: string
    var currentBalance: real
    var currentMonthlyBalance: real
    var directCurrent: real
    var directMonthly: real
    var levelCurrent: real
    var levelMonthly: real
    var transactions: seq<Transaction>
    var withdrawals: seq<Withdrawal>
    var lastReset: Date

    /** The document's current field values. */
    function Value(): WalletRecord
      reads this
    {
      WalletRecord(userId, currentBalance, currentMonthlyBalance, directCurrent, directMonthly,
                   levelCurrent, levelMonthly, transactions, withdrawals, lastReset)
    }

    /** The document `Wallet.findOne` returns for a stored wallet w. */
    constructor Load(w: WalletRecord)
      ensures Value() == w
    {
      userId := w.userId;
      currentBalance := w.currentBalance;
      currentMonthlyBalance := w.currentMonthlyBalance;
      directCurrent := w.directCurrent;
      directMonthly := w.directMonthly;
      levelCurrent := w.levelCurrent;
      levelMonthly := w.levelMonthly;
      transactions := w.transactions;
      withdrawals := w.withdrawals;
      lastReset := w.lastReset;
    }

    /** `this.save()`: the document's values replace the stored wallet. */
    method Save(db: Db) returns (db': Db)
      ensures db' == db.(wallets := db.wallets[userId := Value()])
    {
      db' := db.(wallets := db.wallets[userId := Value()]);
    }

    /** `isEligibleForWithdrawal`: reads the member; a missing member throws a TypeError. */
    method IsEligibleForWithdrawal(db: Db) returns (r: Result<bool>)
      ensures userId !in db.users ==> r == Err(TypeError)
      ensures userId in db.users ==>
        (r.Ok? && (r.value <==> db.users[userId].referredCustomersCount >= 3 && currentMonthlyBalance >= 500.0))
    {
      if userId !in db.users {
        return Err(TypeError);
      }
      var user := db.users[userId];
      r := Ok(user.referredCustomersCount >= 3 && currentMonthlyBalance >= 500.0);
    }

    /** `resetMonthlyBalance()` at date now. */
    method ResetMonthlyBalance(now: Date)
      modifies this
      ensures Value() == Reset(old(Value()), now)
    {
      if now.monthIndex != lastReset.monthIndex || now.year != lastReset.year {
        currentMonthlyBalance := 0.0;
        directMonthly := 0.0;
        levelMonthly := 0.0;
        lastReset := now;
      }
    }

    /** `updateGlobalPointPool(amount)` as it is evidently meant to run (see Pools.UpdatePoolAsWritten). */
    method UpdateGlobalPointPool(db: Db, amount: real, now: Date) returns (db': Db)
      ensures db' == db.(pools := UpdatePool(db.pools, now, amount))
    {
      var (pools, i) := FindOrCreate(db.pools, now);
      pools := pools[i := pools[i].(totalMonthlyPoints := pools[i].totalMonthlyPoints + amount)];
      db' := db.(pools := pools);
    }

    /** `checkForReward()` at the document's current balance. */
    method CheckForReward(db: Db) returns (db': Db)
      ensures db' == db.(rewards := Store.CheckForReward(db.rewards, db.thresholds, userId, currentBalance))
      ensures OneRewardPerThreshold(db.rewards) ==> OneRewardPerThreshold(db'.rewards)
    {
      CheckForRewardOnePerThreshold(db.rewards, db.thresholds, userId, currentBalance);
      var found := HighestThreshold(db.thresholds, currentBalance);
      db' := db;
      if found.Some? {
        var t := db.thresholds[found.value];
        if !HasReward(db.rewards, userId, t.points) {
          db' := db.(rewards := db.rewards + [Reward(userId, t.points, t.rewardPoints, t.description, false)]);
        }
      }
    }

    /** `assignClubMembership()`: the member is read afresh and saved with the tier, when it is Gold or Silver. */
    method AssignClubMembership(db: Db, now: Date) returns (db': Db)
      requires userId in db.users && db.users[userId].userId == userId
      ensures db' == AssignClub(db, userId, ClubOf(Value()), now)
    {
      var membership := ClubOf(Value());
      var user := db.users[userId];
      db' := db;
      if membership == Gold || membership == Silver {
        var doc := user.(club := membership);
        db' := SaveUser(db, user, doc, now);
      }
    }

    /** The field updates of a credit: the balances it books and the ledger entry it appends. */
    method BookFields(kind: Income, amount: real)
      modifies this
      ensures Value() == Credited(old(Value()), kind, amount)
    {
      if kind == Level {
        levelCurrent := levelCurrent + amount;
        levelMonthly := levelMonthly + amount;
      } else {
        directCurrent := directCurrent + amount;
        directMonthly := directMonthly + amount;
      }
      currentBalance := currentBalance + amount;
      if kind == Personal {
        currentMonthlyBalance := currentMonthlyBalance + amount;
      }
      transactions := transactions + [Transaction(amount, CreditTxn, Description(kind))];
    }

    /** The body shared by the three credits once the member is known to be active. */
    method BookCredit(db: Db, kind: Income, amount: real, now: Date) returns (db': Db)
      requires UsersKeyed(db) && userId in db.users
      modifies this
      ensures Value() == Credited(old(Value()), kind, amount)
      ensures db' == CreditActive(db, old(Value()), kind, amount, now)
    {
      ghost var w := Value();
      BookFields(kind, amount);
      var d1 := UpdateGlobalPointPool(db, amount, now);
      var d2 := CheckForReward(d1);
      assert d2 == d1.(rewards := Store.CheckForReward(db.rewards, db.thresholds, w.userId, Value().currentBalance));
      var d3 := AssignClubMembership(d2, now);
      db' := Save(d3);
    }

    /** A credit of one kind: the member is read first; only an active member's wallet is credited. */
    method Credit(db: Db, kind: Income, amount: real, now: Date) returns (db': Db, ok: bool)
      requires UsersKeyed(db)
      modifies this
      ensures var c := CreditWallet(db, old(Value()), kind, amount, now);
        db' == c.db && Value() == c.wallet && ok == c.ok
    {
      if userId !in db.users {
        return db, false;
      }
      var user := db.users[userId];
      db', ok := db, true;
      if user.isActive {
        db' := BookCredit(db, kind, amount, now);
      }
    }

    /** `addDirectIncomePersonal(amount)`: a purchase credit, which also counts toward the monthly balance. */
    method AddDirectIncomePersonal(db: Db, amount: real, now: Date) returns (db': Db, ok: bool)
      requires UsersKeyed(db)
      modifies this
      ensures var c := CreditWallet(db, old(Value()), Personal, amount, now);
        db' == c.db && Value() == c.wallet && ok == c.ok
    {
      db', ok := Credit(db, Personal, amount, now);
    }

    /** `addDirectIncome(amount)`: a referral credit, which leaves the monthly balance alone. */
    method AddDirectIncome(db: Db, amount: real, now: Date) returns (db': Db, ok: bool)
      requires UsersKeyed(db)
      modifies this
      ensures var c := CreditWallet(db, old(Value()), Referral, amount, now);
        db' == c.db && Value() == c.wallet && ok == c.ok
    {
      db', ok := Credit(db, Referral, amount, now);
    }

    /** `addLevelIncome(amount)`: a level credit, booked as level income. */
    method AddLevelIncome(db: Db, amount: real, now: Date) returns (db': Db, ok: bool)
      requires UsersKeyed(db)
      modifies this
      ensures var c := CreditWallet(db, old(Value()), Level, amount, now);
        db' == c.db && Value() == c.wallet && ok == c.ok
    {
      db', ok := Credit(db, Level, amount, now);
    }

    /** `withdrawRequest(amount)`: on success a pending entry is appended and the wallet saved. */
    method WithdrawRequest(db: Db, amount: real) returns (db': Db, r: Result<Withdrawal>)
      modifies this
      ensures var q := Request(old(Value()), if userId in db.users then Some(db.users[userId]) else None, amount);
        (q.Err? ==> r == Err(q.error) && db' == db && Value() == old(Value())) &&
        (q.Ok? ==> r.Ok? && Value() == q.value && r.value == Value().withdrawals[|Value().withdrawals| - 1] &&
                   db' == db.(wallets := db.wallets[userId := Value()]))
    {
      var a := Floor(amount);
      if a as real > Wallets.WithdrawableAmount(Value()) {
        return db, Err(ExceedsWithdrawable);
      }
      var eligible := IsEligibleForWithdrawal(db);
      if eligible.Err? {
        return db, Err(eligible.error);
      }
      if !eligible.value {
        return db, Err(NotEligible);
      }
      var user := db.users[userId];
      if a > user.maxMonthlyWithdrawal {
        return db, Err(LimitReached(user.rank));
      }
      var withdrawal := Withdrawal(a, PointsFor(a), Pending, None, None);
      withdrawals := withdrawals + [withdrawal];
      db' := Save(db);
      r := Ok(withdrawal);
    }

    /** `withdraw(i, transactionId, image)`: a pending entry the wallet can cover is processed. */
    method Withdraw(db: Db, i: int, transactionId: string, image: string) returns (db': Db, r: Result<Withdrawal>)
      modifies this
      ensures var q := Process(old(Value()), i, transactionId, image);
        (q.Err? ==> r == Err(q.error) && db' == db && Value() == old(Value())) &&
        (q.Ok? ==> Value() == q.value && r == Ok(Value().withdrawals[i]) &&
                   db' == db.(wallets := db.wallets[userId := Value()]))
    {
      if !(0 <= i < |withdrawals|) {
        return db, Err(NotFound);
      }
      var withdrawal := withdrawals[i];
      if withdrawal.status != Pending {
        return db, Err(NotPending);
      }
      if Wallets.WithdrawableAmount(Value()) < withdrawal.amount as real {
        return db, Err(Insufficient);
      }
      withdrawal := withdrawal.(status := Processed, transactionId := Some(transactionId), image := Some(image));
      withdrawals := withdrawals[i := withdrawal];
      currentBalance := currentBalance - withdrawal.pointsWithdrawn as real;
      db' := Save(db);
      r := Ok(withdrawal);
    }

    /** `reject(i)`: a pending entry is rejected; no balance moves. */
    method Reject(db: Db, i: int) returns (db': Db, r: Result<Withdrawal>)
      modifies this
      ensures var q := Wallets.Reject(old(Value()), i);
        (q.Err? ==> r == Err(q.error) && db' == db && Value() == old(Value())) &&
        (q.Ok? ==> Value() == q.value && r == Ok(Value().withdrawals[i]) &&
                   db' == db.(wallets := db.wallets[userId := Value()]))
    {
      if !(0 <= i < |withdrawals|) {
        return db, Err(NotFound);
      }
      var withdrawal := withdrawals[i];
      if withdrawal.status != Pending {
        return db, Err(NotPending);
      }
      withdrawal := withdrawal.(status := Rejected);
      withdrawals := withdrawals[i := withdrawal];
      db' := Save(db);
      r := Ok(withdrawal);
    }
  }
}
