/**
 * controllers/rewardController.js: listing a member's rewards and redeeming a reward once,
 * which credits its reward points to the member's wallet as direct income.
 */
module Rewards {
  import opened Common
  import opened Users
  import opened Wallets
  import opened Store
  import opened WalletDocs
  import opened Credits

  /** `Reward.find({ userId })`: the member's rewards in the collection's order. */
  function RewardsOf(rewards: seq<Reward>, userId: string): (r: seq<Reward>)
    ensures forall rw :: rw in r <==> rw in rewards && rw.userId == userId
    ensures |r| <= |rewards|
  {
    if rewards == [] then []
    else (if rewards[0].userId == userId then [rewards[0]] else []) + RewardsOf(rewards[1..], userId)
  }

  /**
   * `getRewardByUserId`: 200 with the member's rewards, possibly none, since the array `find`
   * returns is never falsy and the 404 branch cannot be taken.
   */
  function RewardsByUser(db: Db, userId: string): (r: (int, seq<Reward>))
    ensures r.0 == 200
    ensures forall rw :: rw in r.1 <==> rw in db.rewards && rw.userId == userId
  {
    (200, RewardsOf(db.rewards, userId))
  }

  /** The credit a redemption makes: the reward points as direct income to the reward's member. */
  function RedeemCredit(reward: Reward): Credit
  {
    Credit(reward.userId, Referral, reward.rewardPoints)
  }

  /**
   * What `redeemReward` writes and answers: 404 for an unknown reward and 400 for one already
   * redeemed, both writing nothing; otherwise the reward is saved as redeemed first, then the
   * member's wallet, when there is one, is credited. A credit that throws (the wallet's member
   * is not stored) answers 500 with the redemption already saved.
   */
  function Redeemed(db: Db, rewardId: int, now: Date): (Db, int)
    requires UsersKeyed(db)
  {
    if !(0 <= rewardId < |db.rewards|) then (db, 404)
    else
      var reward := db.rewards[rewardId];
      if reward.isRedeemed then (db, 400)
      else
        var marked := db.(rewards := db.rewards[rewardId := reward.(isRedeemed := true)]);
        var s := Step(marked, RedeemCredit(reward), now);
        (s.0, if s.1 then 200 else 500)
  }

  /**
   * `redeemReward` as written, its credit being `Credits.StepAsWritten`: where that credit has a
   * reward due it throws after the redemption was saved, so the answer is 500 without the points.
   */
  function RedeemedAsWritten(db: Db, rewardId: int, now: Date): (r: (Db, int))
    requires UsersKeyed(db)
    ensures r.0.rewards == if 0 <= rewardId < |db.rewards| && !db.rewards[rewardId].isRedeemed
      then db.rewards[rewardId := db.rewards[rewardId].(isRedeemed := true)] else db.rewards
  {
    if !(0 <= rewardId < |db.rewards|) then (db, 404)
    else
      var reward := db.rewards[rewardId];
      if reward.isRedeemed then (db, 400)
      else
        var marked := db.(rewards := db.rewards[rewardId := reward.(isRedeemed := true)]);
        var s := StepAsWritten(marked, RedeemCredit(reward), now);
        (s.0, if s.1 then 200 else 500)
  }

  /**
   * The reward defect at redemption: where the credit of the reward points reaches a reward the
   * member does not hold, the redemption as written is saved but answers 500 with no wallet
   * credited; everywhere else it is the intended redemption.
   */
  lemma RedeemLost(db: Db, rewardId: int, now: Date)
    requires UsersKeyed(db)
    ensures RedeemDue(db, rewardId) ==>
      RedeemedAsWritten(db, rewardId, now).1 == 500 && RedeemedAsWritten(db, rewardId, now).0.wallets == db.wallets &&
      RedeemedAsWritten(db, rewardId, now).0.rewards[rewardId].isRedeemed
    ensures !RedeemDue(db, rewardId) ==> RedeemedAsWritten(db, rewardId, now) == Redeemed(db, rewardId, now)
  {
    if RedeemDue(db, rewardId) {
      var reward := db.rewards[rewardId];
      var marked := db.(rewards := db.rewards[rewardId := reward.(isRedeemed := true)]);
      var c := RedeemCredit(reward);
      CreditLost(marked, marked.wallets[c.userId], c.kind, c.amount, now);
    }
  }

  /** Whether redeeming the reward gets past both checks to a credit with a reward due. */
  predicate RedeemDue(db: Db, rewardId: int)
  {
    0 <= rewardId < |db.rewards| && !db.rewards[rewardId].isRedeemed &&
    Due(db.(rewards := db.rewards[rewardId := db.rewards[rewardId].(isRedeemed := true)]), RedeemCredit(db.rewards[rewardId]))
  }

  /**
   * `redeemReward`: the reward read and checked, its flag set and saved, then the wallet read,
   * credited through `addDirectIncome` and saved again.
   */
  method RedeemReward(db: Db, rewardId: int, now: Date) returns (db': Db, status: int)
    requires UsersKeyed(db) && WalletsKeyed(db)
    ensures (db', status) == Redeemed(db, rewardId, now)
  {
    if !(0 <= rewardId < |db.rewards|) {
      return db, 404;
    }
    var reward := db.rewards[rewardId];
    if reward.isRedeemed {
      return db, 400;
    }
    db' := db.(rewards := db.rewards[rewardId := reward.(isRedeemed := true)]);
    var ok;
    db', ok := CreditAndSave(db', RedeemCredit(reward), now);
    status := if ok then 200 else 500;
  }

  // ---------------------------------------------------------------------------------------------
  // What a redemption promises

  /**
   * A redemption answers 404 exactly for an unknown id and 400 exactly for a redeemed reward,
   * and then writes nothing; otherwise the reward is redeemed afterwards, whatever the credit
   * did, the other rewards are kept, and the answer is 500 exactly when the member has a wallet
   * but is not stored.
   */
  lemma RedeemOutcome(db: Db, rewardId: int, now: Date)
    requires UsersKeyed(db)
    ensures var (db', status) := Redeemed(db, rewardId, now);
      (status == 404 <==> !(0 <= rewardId < |db.rewards|)) &&
      (status == 400 <==> 0 <= rewardId < |db.rewards| && db.rewards[rewardId].isRedeemed) &&
      (status == 404 || status == 400 ==> db' == db) &&
      (status == 200 || status == 500 ==>
        |db.rewards| <= |db'.rewards| && db'.rewards[rewardId] == db.rewards[rewardId].(isRedeemed := true) &&
        forall i :: 0 <= i < |db.rewards| && i != rewardId ==> db'.rewards[i] == db.rewards[i]) &&
      (status == 500 <==> (0 <= rewardId < |db.rewards| && !db.rewards[rewardId].isRedeemed &&
        db.rewards[rewardId].userId in db.wallets && db.wallets[db.rewards[rewardId].userId].userId !in db.users))
  {
    if 0 <= rewardId < |db.rewards| && !db.rewards[rewardId].isRedeemed {
      var reward := db.rewards[rewardId];
      var marked := db.(rewards := db.rewards[rewardId := reward.(isRedeemed := true)]);
      var s := Step(marked, RedeemCredit(reward), now);
      assert marked.rewards <= s.0.rewards;
      assert s.0.rewards[rewardId] == marked.rewards[rewardId];
      forall i | 0 <= i < |db.rewards| && i != rewardId ensures s.0.rewards[i] == db.rewards[i] {
        assert s.0.rewards[i] == marked.rewards[i];
      }
    }
  }

  /** A reward is redeemed at most once: a second redemption answers 400 and writes nothing. */
  lemma RedeemOnce(db: Db, rewardId: int, now: Date)
    requires UsersKeyed(db) && Redeemed(db, rewardId, now).1 != 404 && Redeemed(db, rewardId, now).1 != 400
    ensures var once := Redeemed(db, rewardId, now).0;
      UsersKeyed(once) && Redeemed(once, rewardId, now) == (once, 400)
  {
    RedeemOutcome(db, rewardId, now);
    var once := Redeemed(db, rewardId, now).0;
    assert once.rewards[rewardId].isRedeemed;
  }

  /**
   * With wallets stored under their owners, a redemption for a stored member credits the
   * reward points to that member's wallet when the member is active and to no other wallet;
   * it leaves every wallet's monthly balance as it was, since direct income does not count
   * toward it.
   */
  lemma RedeemGain(db: Db, rewardId: int, now: Date, x: string)
    requires UsersKeyed(db) && WalletsKeyed(db) && 0 <= rewardId < |db.rewards| && !db.rewards[rewardId].isRedeemed
    requires db.rewards[rewardId].userId in db.users && x in db.wallets && x in db.users
    ensures var (db', status) := Redeemed(db, rewardId, now); var reward := db.rewards[rewardId];
      status == 200 && db'.wallets.Keys == db.wallets.Keys &&
      db'.wallets[x].currentBalance == db.wallets[x].currentBalance +
        (if x == reward.userId && db.users[x].isActive then reward.rewardPoints else 0.0) &&
      db'.wallets[x].currentMonthlyBalance == db.wallets[x].currentMonthlyBalance
  {
    var reward := db.rewards[rewardId];
    var marked := db.(rewards := db.rewards[rewardId := reward.(isRedeemed := true)]);
    StepGain(marked, RedeemCredit(reward), now, x);
    DirectKeepsMonthly(marked, RedeemCredit(reward), now, x);
  }

  /** A direct-income credit leaves every wallet's monthly balance as it was. */
  lemma DirectKeepsMonthly(db: Db, c: Credit, now: Date, x: string)
    requires UsersKeyed(db) && WalletsKeyed(db) && c.kind == Referral && x in db.wallets
    ensures x in Step(db, c, now).0.wallets &&
      Step(db, c, now).0.wallets[x].currentMonthlyBalance == db.wallets[x].currentMonthlyBalance
  {
    if c.userId in db.wallets {
      var w := db.wallets[c.userId];
      var o := CreditWallet(db, w, c.kind, c.amount, now);
      if o.ok && db.users[w.userId].isActive {
        assert o.db.wallets == db.wallets[c.userId := Credited(w, c.kind, c.amount)];
      }
    }
  }
}
