/**
 * The collections the referral engine reads and writes, and the store-side effects of the
 * wallet methods: what saving a member writes (with its two post-save hooks), the reward
 * check, the club assignment, and one whole credit.
 */
module Store {
  import opened Common
  import opened Users
  import opened Wallets
  import opened Pools
  import Tree

  /** A Reward document; its id is its index in the collection. */
  datatype Reward = Reward(userId: string, points: real, rewardPoints: real, description: string, isRedeemed: bool)

  /**
   * A RewardThreshold document. Its schema has no `rewardPoints` path; the corrected reward
   * check copies this one into the reward it creates.
   */
  datatype Threshold = Threshold(points: real, rewardPoints: real, description: string)

  /** Members and wallets keyed by `userId`; rewards, thresholds and pools in insertion order. */
  datatype Db = Db(
    users: map<string, User>,
    wallets: map<string, WalletRecord>,
    rewards: seq<Reward>,
    thresholds: seq<Threshold>,
    pools: seq<Pool>)

  /** Each wallet is stored under the `userId` it carries. */
  predicate WalletsKeyed(db: Db)
  {
    forall k :: k in db.wallets ==> db.wallets[k].userId == k
  }

  /** Each member is stored under its own `userId`. */
  predicate UsersKeyed(db: Db)
  {
    forall k :: k in db.users ==> db.users[k].userId == k
  }

  // ---------------------------------------------------------------------------------------------
  // Saving a member

  /**
   * Whether `doc.save()` throws. The wallet hook calls `Wallet.create` for every saved document
   * without a wallet reference, and `userId` is unique among wallets, so the create fails when a
   * wallet is already stored under the member. By then the document has been written (what
   * `SaveUser` gives); the error reaches the caller of `save()`.
   */
  predicate SaveThrows(db: Db, doc: User)
  {
    !doc.hasWallet && doc.userId in db.wallets
  }

  /**
   * The start of the driver's message for a duplicate key, here a second wallet for one `userId`;
   * the collection, index and key it goes on to name are not modelled.
   */
  const DuplicateKey: string := "E11000 duplicate key error"

  /** A stored member without a wallet reference under whose id a wallet is stored: saving a fresh copy of it throws. */
  predicate Unlinked(db: Db, k: string)
  {
    k in db.users && !db.users[k].hasWallet && k in db.wallets
  }

  /** No member listed in ks is unlinked. */
  predicate NoneUnlinked(db: Db, ks: seq<string>)
  {
    forall k :: k in ks ==> !Unlinked(db, k)
  }

  /** b has a wallet under no id other than x that a lacks. */
  predicate WalletsGrowAt(a: Db, b: Db, x: string)
  {
    forall k :: k in b.wallets && k != x ==> k in a.wallets
  }

  /**
   * `doc.save()` for a member copy `doc` that was read as `loaded`, followed by the two post-save
   * hooks: the rank hook on the in-memory document, whose re-save writes rank and limit if it
   * changed them, and the wallet hook, which creates a wallet for a member without one.
   */
  function SaveUser(db: Db, loaded: User, doc: User, now: Date): (r: Db)
    requires doc.userId in db.users
    ensures r.users.Keys == db.users.Keys
    ensures r.users[doc.userId].userId == db.users[doc.userId].userId
    ensures UsersKeyed(db) ==> UsersKeyed(r)
    ensures forall k :: k in db.users && k != doc.userId ==> r.users[k] == db.users[k]
    ensures var p := PatchUser(db.users[doc.userId], loaded, doc);
      SameExceptStatus(r.users[doc.userId], p) && r.users[doc.userId].club == p.club
    ensures r.rewards == db.rewards && r.thresholds == db.thresholds && r.pools == db.pools
    ensures r.wallets.Keys == db.wallets.Keys || r.wallets.Keys == db.wallets.Keys + {doc.userId}
    ensures r.wallets == db.wallets || r.wallets == db.wallets[doc.userId := NewWallet(doc.userId, now)]
    ensures forall k :: k in db.wallets ==> r.wallets[k] == db.wallets[k]
    ensures WalletsKeyed(db) ==> WalletsKeyed(r)
    ensures !doc.hasWallet && doc.userId !in db.wallets ==>
      r.users[doc.userId].hasWallet && r.wallets == db.wallets[doc.userId := NewWallet(doc.userId, now)]
    ensures SaveThrows(db, doc) || doc.hasWallet ==> r.wallets == db.wallets
    ensures WalletsGrowAt(db, r, doc.userId)
    ensures doc.hasWallet == loaded.hasWallet ==>
      (r.users[doc.userId].hasWallet <==> db.users[doc.userId].hasWallet || (!doc.hasWallet && doc.userId !in db.wallets))
  {
    var id := doc.userId;
    var p := PatchUser(db.users[id], loaded, doc);
    var ranked := RankHook(doc);
    var p2 := PatchUser(p, doc, ranked);
    if ranked.hasWallet || id in db.wallets then db.(users := db.users[id := p2])
    else db.(users := db.users[id := p2.(hasWallet := true)], wallets := db.wallets[id := NewWallet(id, now)])
  }

  /**
   * Saving a copy that was read from the current store writes the copy, with the rank and limit
   * the rank hook assigns: an active member's rank is that of its referred count, and an
   * inactive member, or one below the first threshold, keeps what the copy had.
   */
  lemma SaveFresh(db: Db, doc: User, now: Date)
    requires doc.userId in db.users && db.users[doc.userId].userId == doc.userId
    ensures var u := SaveUser(db, db.users[doc.userId], doc, now).users[doc.userId];
      SameExceptStatus(u, doc) && u.club == doc.club &&
      u.rank == RankHook(doc).rank && u.maxMonthlyWithdrawal == RankHook(doc).maxMonthlyWithdrawal &&
      (doc.isActive && RankFor(doc.referredCustomersCount).Some? ==>
        u.rank == Some(RankFor(doc.referredCustomersCount).value.rank) &&
        u.maxMonthlyWithdrawal == RankFor(doc.referredCustomersCount).value.maxWithdrawal)
  {
    PatchFresh(db.users[doc.userId], doc);
  }

  /** A save that changes no tree link of the copy leaves the tree shape as it was. */
  lemma SaveKeepsShape(db: Db, loaded: User, doc: User, now: Date)
    requires doc.userId in db.users
    requires doc.parent == loaded.parent && doc.children == loaded.children
    ensures Tree.Shape(SaveUser(db, loaded, doc, now).users) == Tree.Shape(db.users)
  {
    var r := SaveUser(db, loaded, doc, now);
    assert Tree.Shape(r.users).Keys == Tree.Shape(db.users).Keys;
  }

  // ---------------------------------------------------------------------------------------------
  // Rewards

  /**
   * `RewardThreshold.findOne({ points: { $lte: balance } }).sort({ points: -1 })`: the index of
   * the threshold with the highest points not above balance.
   */
  function HighestThreshold(ts: seq<Threshold>, balance: real): (r: Option<nat>)
    ensures r.Some? ==> r.value < |ts| && ts[r.value].points <= balance
    ensures r.Some? ==> forall j :: 0 <= j < |ts| && ts[j].points <= balance ==> ts[j].points <= ts[r.value].points
    ensures r.None? ==> forall j :: 0 <= j < |ts| ==> ts[j].points > balance
  {
    if ts == [] then None
    else
      var rest := HighestThreshold(ts[1..], balance);
      if ts[0].points > balance then
        (match rest case None => None case Some(i) => Some(i + 1))
      else match rest
        case None => Some(0)
        case Some(i) => if ts[i + 1].points > ts[0].points then Some(i + 1) else Some(0)
  }

  /** Whether a reward for (userId, points) exists: `Reward.findOne({ userId, points })`. */
  predicate HasReward(rewards: seq<Reward>, userId: string, points: real)
  {
    exists i :: 0 <= i < |rewards| && rewards[i].userId == userId && rewards[i].points == points
  }

  /** No two rewards for the same member and threshold. */
  predicate OneRewardPerThreshold(rewards: seq<Reward>)
  {
    forall i, j :: 0 <= i < j < |rewards| ==> !(rewards[i].userId == rewards[j].userId && rewards[i].points == rewards[j].points)
  }

  /**
   * `checkForReward` for a wallet of userId at balance: a reward for the highest threshold
   * reached is created unless the member already holds one for that threshold.
   */
  function CheckForReward(rewards: seq<Reward>, thresholds: seq<Threshold>, userId: string, balance: real): (r: seq<Reward>)
    ensures HighestThreshold(thresholds, balance).None? ==> r == rewards
    ensures HighestThreshold(thresholds, balance).Some? ==>
      var t := thresholds[HighestThreshold(thresholds, balance).value];
      (HasReward(rewards, userId, t.points) ==> r == rewards) &&
      (!HasReward(rewards, userId, t.points) ==>
        r == rewards + [Reward(userId, t.points, t.rewardPoints, t.description, false)]) &&
      HasReward(r, userId, t.points)
  {
    match HighestThreshold(thresholds, balance)
    case None => rewards
    case Some(i) =>
      var t := thresholds[i];
      if HasReward(rewards, userId, t.points) then rewards
      else
        var r := rewards + [Reward(userId, t.points, t.rewardPoints, t.description, false)];
        assert r[|rewards|].userId == userId && r[|rewards|].points == t.points;
        r
  }

  /** The reward check only appends, and never creates a second reward for one member and threshold. */
  lemma CheckForRewardOnePerThreshold(rewards: seq<Reward>, thresholds: seq<Threshold>, userId: string, balance: real)
    ensures rewards <= CheckForReward(rewards, thresholds, userId, balance)
    ensures OneRewardPerThreshold(rewards) ==> OneRewardPerThreshold(CheckForReward(rewards, thresholds, userId, balance))
  {
    var r := CheckForReward(rewards, thresholds, userId, balance);
    if r != rewards && OneRewardPerThreshold(rewards) {
      var n := |rewards|;
      forall i, j | 0 <= i < j < |r|
        ensures !(r[i].userId == r[j].userId && r[i].points == r[j].points)
      {
        if j < n {
          assert r[i] == rewards[i] && r[j] == rewards[j];
        }
      }
    }
  }

  // ---------------------------------------------------------------------------------------------
  // Club assignment

  /**
   * `assignClubMembership` with the tier of the wallet: the member is read afresh and saved with
   * that club only when the tier is Gold or Silver.
   */
  function AssignClub(db: Db, userId: string, tier: Club, now: Date): (r: Db)
    requires userId in db.users && db.users[userId].userId == userId
    ensures tier == NoClub ==> r == db
    ensures r.users.Keys == db.users.Keys && (UsersKeyed(db) ==> UsersKeyed(r))
    ensures forall k :: k in db.users && k != userId ==> r.users[k] == db.users[k]
    ensures SameExceptStatus(r.users[userId], db.users[userId])
    ensures r.users[userId].club == if tier == NoClub then db.users[userId].club else tier
    ensures r.rewards == db.rewards && r.thresholds == db.thresholds && r.pools == db.pools
    ensures r.wallets == db.wallets || r.wallets == db.wallets[userId := NewWallet(userId, now)]
  {
    if tier == NoClub then db
    else
      var u := db.users[userId];
      PatchFresh(u, u.(club := tier));
      SaveUser(db, u, u.(club := tier), now)
  }

  /** The assignment never takes a member's club back to None. */
  lemma ClubNeverToNone(db: Db, userId: string, tier: Club, now: Date)
    requires userId in db.users && db.users[userId].userId == userId && db.users[userId].club != NoClub
    ensures AssignClub(db, userId, tier, now).users[userId].club != NoClub
  {
  }

  // ---------------------------------------------------------------------------------------------
  // One credit

  /** What a credit leaves: the store, the wallet document, and false when it threw. */
  datatype CreditOutcome = CreditOutcome(db: Db, wallet: WalletRecord, ok: bool)

  /**
   * The effects of a credit of amount on the wallet w of an active member: the month's pool
   * grows, the reward check and the club assignment run, and the credited wallet is saved.
   */
  function CreditActive(db: Db, w: WalletRecord, kind: Income, amount: real, now: Date): (r: Db)
    requires UsersKeyed(db) && w.userId in db.users
    ensures UsersKeyed(r) && r.users.Keys == db.users.Keys
    ensures r.wallets == db.wallets[w.userId := Credited(w, kind, amount)]
    ensures r.pools == UpdatePool(db.pools, now, amount)
    ensures r.rewards == CheckForReward(db.rewards, db.thresholds, w.userId, Credited(w, kind, amount).currentBalance)
    ensures r.thresholds == db.thresholds
    ensures forall k :: k in db.users && k != w.userId ==> r.users[k] == db.users[k]
    ensures SameExceptStatus(r.users[w.userId], db.users[w.userId])
    ensures r.users[w.userId].club ==
      if ClubOf(Credited(w, kind, amount)) == NoClub then db.users[w.userId].club else ClubOf(Credited(w, kind, amount))
  {
    var w1 := Credited(w, kind, amount);
    var d1 := db.(pools := UpdatePool(db.pools, now, amount));
    var d2 := d1.(rewards := CheckForReward(db.rewards, db.thresholds, w.userId, w1.currentBalance));
    var d3 := AssignClub(d2, w.userId, ClubOf(w1), now);
    assert d3.wallets[w.userId := w1] == db.wallets[w.userId := w1] by {
      if d3.wallets != db.wallets {
        assert d3.wallets[w.userId := w1] == db.wallets[w.userId := NewWallet(w.userId, now)][w.userId := w1];
      }
    }
    d3.(wallets := d3.wallets[w.userId := w1])
  }

  /**
   * `addDirectIncomePersonal`, `addDirectIncome` or `addLevelIncome` of amount on wallet w: the
   * member is read (a missing one throws a TypeError before anything changes); an inactive
   * member's wallet is left alone; otherwise the wallet is credited, the month's pool grows,
   * the reward check and the club assignment run, and the wallet is saved.
   */
  function CreditWallet(db: Db, w: WalletRecord, kind: Income, amount: real, now: Date): (r: CreditOutcome)
    requires UsersKeyed(db)
    ensures UsersKeyed(r.db) && r.db.users.Keys == db.users.Keys
    ensures r.ok <==> w.userId in db.users
    ensures !r.ok || !db.users[w.userId].isActive ==> r.db == db && r.wallet == w
    ensures r.ok && db.users[w.userId].isActive ==>
      r.wallet == Credited(w, kind, amount) && r.db == CreditActive(db, w, kind, amount, now)
    ensures forall k :: k in db.users ==> SameExceptStatus(r.db.users[k], db.users[k])
    ensures forall k :: k in db.wallets && k != w.userId ==> k in r.db.wallets && r.db.wallets[k] == db.wallets[k]
    ensures WalletsKeyed(db) && w.userId in db.wallets ==> r.db.wallets.Keys == db.wallets.Keys
    ensures OneRewardPerThreshold(db.rewards) ==> OneRewardPerThreshold(r.db.rewards)
    ensures db.rewards <= r.db.rewards && r.db.thresholds == db.thresholds
  {
    if w.userId !in db.users then CreditOutcome(db, w, false)
    else if !db.users[w.userId].isActive then CreditOutcome(db, w, true)
    else
      var w1 := Credited(w, kind, amount);
      CheckForRewardOnePerThreshold(db.rewards, db.thresholds, w.userId, w1.currentBalance);
      CreditOutcome(CreditActive(db, w, kind, amount, now), w1, true)
  }

  // ---------------------------------------------------------------------------------------------
  // The reward check as written

  /**
   * Whether a credit bringing the wallet of userId to balance has a reward to create: there is a
   * highest threshold reached, and the member holds no reward for it.
   */
  predicate RewardDue(db: Db, userId: string, balance: real)
  {
    match HighestThreshold(db.thresholds, balance)
    case None => false
    case Some(i) => !HasReward(db.rewards, userId, db.thresholds[i].points)
  }

  /**
   * A credit as written. The threshold schema has no `rewardPoints` path, so the reward that
   * `checkForReward` builds lacks its required `rewardPoints` and `reward.save()` fails
   * validation. Where a reward is due the credit therefore throws after the pool update (here
   * the corrected one of `CreditActive`) and before the club assignment and the wallet's save;
   * everywhere else it is `CreditWallet`.
   */
  function CreditWalletAsWritten(db: Db, w: WalletRecord, kind: Income, amount: real, now: Date): (r: CreditOutcome)
    requires UsersKeyed(db)
    ensures r.ok <==> (w.userId in db.users &&
      !(db.users[w.userId].isActive && RewardDue(db, w.userId, Credited(w, kind, amount).currentBalance)))
    ensures r.db.rewards == db.rewards
    ensures !r.ok ==> r.db.users == db.users && r.db.wallets == db.wallets
  {
    if w.userId in db.users && db.users[w.userId].isActive && RewardDue(db, w.userId, Credited(w, kind, amount).currentBalance) then
      CreditOutcome(db.(pools := UpdatePool(db.pools, now, amount)), Credited(w, kind, amount), false)
    else
      var c := CreditWallet(db, w, kind, amount, now);
      assert c.db.rewards == db.rewards by {
        if c.ok && db.users[w.userId].isActive {
          assert c.db.rewards == CheckForReward(db.rewards, db.thresholds, w.userId, Credited(w, kind, amount).currentBalance);
        }
      }
      c
  }

  /**
   * The reward defect: where the intended credit creates a reward and saves the credited
   * wallet, the credit as written throws with the member and the wallets untouched and no
   * reward made; where no reward is due the two agree.
   */
  lemma CreditLost(db: Db, w: WalletRecord, kind: Income, amount: real, now: Date)
    requires UsersKeyed(db)
    ensures var r, c := CreditWalletAsWritten(db, w, kind, amount, now), CreditWallet(db, w, kind, amount, now);
      w.userId in db.users && db.users[w.userId].isActive && RewardDue(db, w.userId, Credited(w, kind, amount).currentBalance) ==>
        !r.ok && r.db.wallets == db.wallets && c.ok &&
        c.db.wallets[w.userId] == Credited(w, kind, amount) && |c.db.rewards| == |db.rewards| + 1
    ensures var r, c := CreditWalletAsWritten(db, w, kind, amount, now), CreditWallet(db, w, kind, amount, now);
      !(w.userId in db.users && db.users[w.userId].isActive && RewardDue(db, w.userId, Credited(w, kind, amount).currentBalance)) ==>
        r == c
  {
  }
}
