/**
 * A run of wallet credits as the commission fan-outs perform them: one credit after another,
 * each on the wallet stored for a member, skipping members without a wallet. This is the
 * reference the fan-out methods of both queues are proved against.
 */
module Credits {
  import opened Common
  import opened Users
  import opened Wallets
  import opened Store
  import opened Tree
  import opened WalletDocs

  /** One credit a fan-out makes: `amount` of the given kind to the wallet of `userId`. */
  datatype Credit = Credit(userId: string, kind: Income, amount: real)

  /** b differs from a only in the status paths of members (rank, limit, club, wallet reference). */
  predicate StatusOnly(a: Db, b: Db)
  {
    b.users.Keys == a.users.Keys && forall k :: k in a.users ==> SameExceptStatus(b.users[k], a.users[k])
  }

  /** A store change confined to status paths leaves the tree shape, and every activity flag, as it was. */
  lemma StatusOnlyShape(a: Db, b: Db)
    requires StatusOnly(a, b)
    ensures Shape(b.users) == Shape(a.users)
    ensures forall k :: k in a.users ==> b.users[k].isActive == a.users[k].isActive && b.users[k].userId == a.users[k].userId
  {
    assert Shape(b.users).Keys == Shape(a.users).Keys;
  }

  lemma StatusOnlyTrans(a: Db, b: Db, c: Db)
    requires StatusOnly(a, b) && StatusOnly(b, c)
    ensures StatusOnly(a, c)
  {
  }

  /**
   * One credit: a member without a stored wallet is skipped (`if (wallet)`); a wallet whose owner
   * is not a stored member throws, which the flag reports.
   */
  function Step(db: Db, c: Credit, now: Date): (r: (Db, bool))
    requires UsersKeyed(db)
    ensures UsersKeyed(r.0) && StatusOnly(db, r.0)
    ensures r.0.thresholds == db.thresholds && db.rewards <= r.0.rewards
    ensures OneRewardPerThreshold(db.rewards) ==> OneRewardPerThreshold(r.0.rewards)
  {
    if c.userId !in db.wallets then (db, true)
    else
      var o := CreditWallet(db, db.wallets[c.userId], c.kind, c.amount, now);
      (o.db, o.ok)
  }

  /** The credits of plan in order; the run stops at the first credit that throws, with the writes made so far. */
  function RunCredits(db: Db, plan: seq<Credit>, now: Date): (r: (Db, bool))
    requires UsersKeyed(db)
    ensures UsersKeyed(r.0) && StatusOnly(db, r.0)
    ensures r.0.thresholds == db.thresholds && db.rewards <= r.0.rewards
    ensures OneRewardPerThreshold(db.rewards) ==> OneRewardPerThreshold(r.0.rewards)
    decreases |plan|
  {
    if plan == [] then (db, true)
    else
      var s := Step(db, plan[0], now);
      if !s.1 then s
      else
        var rest := RunCredits(s.0, plan[1..], now);
        StatusOnlyTrans(db, s.0, rest.0);
        rest
  }

  /** The run of c followed by rest: c's credit, then, if it did not throw, the run of rest. */
  lemma RunCreditsCons(db: Db, c: Credit, rest: seq<Credit>, now: Date)
    requires UsersKeyed(db)
    ensures RunCredits(db, [c] + rest, now) ==
      var s := Step(db, c, now);
      if !s.1 then s else RunCredits(s.0, rest, now)
  {
    assert ([c] + rest)[0] == c && ([c] + rest)[1..] == rest;
  }

  /** `if (wallet) await wallet.add…Income(amount)` on the wallet stored for the credit's member. */
  method CreditIfWallet(db: Db, c: Credit, now: Date) returns (db': Db, ok: bool)
    requires UsersKeyed(db)
    ensures (db', ok) == Step(db, c, now)
  {
    if c.userId !in db.wallets {
      return db, true;
    }
    var wallet := new WalletDoc.Load(db.wallets[c.userId]);
    match c.kind {
      case Personal => db', ok := wallet.AddDirectIncomePersonal(db, c.amount, now);
      case Referral => db', ok := wallet.AddDirectIncome(db, c.amount, now);
      case Level => db', ok := wallet.AddLevelIncome(db, c.amount, now);
    }
  }

  /** What plan credits to x in total. */
  function Gain(plan: seq<Credit>, x: string): real
  {
    if plan == [] then 0.0
    else (if plan[0].userId == x then plan[0].amount else 0.0) + Gain(plan[1..], x)
  }

  lemma {:induction false} GainAppend(a: seq<Credit>, b: seq<Credit>, x: string)
    ensures Gain(a + b, x) == Gain(a, x) + Gain(b, x)
    decreases |a|
  {
    if a == [] {
      assert a + b == b;
    } else {
      assert (a + b)[1..] == a[1..] + b;
      GainAppend(a[1..], b, x);
    }
  }

  /** One credit of amount for each member of ids, in order. */
  function Each(ids: seq<string>, kind: Income, amount: real): (r: seq<Credit>)
    ensures |r| == |ids|
    ensures forall i :: 0 <= i < |ids| ==> r[i] == Credit(ids[i], kind, amount)
  {
    if ids == [] then [] else [Credit(ids[0], kind, amount)] + Each(ids[1..], kind, amount)
  }

  /** A member listed once gains amount from Each; one not listed gains nothing. */
  lemma {:induction false} GainEach(ids: seq<string>, kind: Income, amount: real, x: string)
    requires NoDuplicates(ids)
    ensures Gain(Each(ids, kind, amount), x) == if x in ids then amount else 0.0
    decreases |ids|
  {
    if ids != [] {
      assert Each(ids, kind, amount)[1..] == Each(ids[1..], kind, amount);
      assert NoDuplicates(ids[1..]);
      GainEach(ids[1..], kind, amount, x);
      if ids[0] == x {
        assert x !in ids[1..] by {
          forall j | 0 <= j < |ids[1..]| ensures ids[1..][j] != x { assert ids[1..][j] == ids[j + 1]; }
        }
      } else {
        assert x in ids <==> x in ids[1..] by {
          if x in ids { var j :| 0 <= j < |ids| && ids[j] == x; assert ids[1..][j - 1] == x; }
        }
      }
    }
  }

  /** Every credit of plan goes to a stored member. */
  predicate ToMembers(db: Db, plan: seq<Credit>)
  {
    forall i :: 0 <= i < |plan| ==> plan[i].userId in db.users
  }

  /**
   * One credit to a stored member, with wallets stored under their owners: it completes, no
   * wallet appears or disappears, and x's balance grows by the amount exactly when the credit is
   * x's and x is active.
   */
  lemma StepGain(db: Db, c: Credit, now: Date, x: string)
    requires UsersKeyed(db) && WalletsKeyed(db) && c.userId in db.users
    requires x in db.wallets && x in db.users
    ensures Step(db, c, now).1 && WalletsKeyed(Step(db, c, now).0)
    ensures Step(db, c, now).0.wallets.Keys == db.wallets.Keys
    ensures Step(db, c, now).0.wallets[x].currentBalance ==
      db.wallets[x].currentBalance + (if c.userId == x && db.users[x].isActive then c.amount else 0.0)
  {
    if c.userId in db.wallets {
      var w := db.wallets[c.userId];
      var o := CreditWallet(db, w, c.kind, c.amount, now);
      if db.users[c.userId].isActive {
        assert o.db.wallets == db.wallets[c.userId := Credited(w, c.kind, c.amount)];
      } else {
        assert o.db == db;
      }
    }
  }

  /** Credits to stored members leave every credit addressed to a stored member. */
  lemma ToMembersTail(db: Db, d: Db, plan: seq<Credit>)
    requires ToMembers(db, plan) && plan != [] && d.users.Keys == db.users.Keys
    ensures ToMembers(d, plan[1..])
  {
    forall i | 0 <= i < |plan[1..]| ensures plan[1..][i].userId in d.users { assert plan[1..][i] == plan[i + 1]; }
  }

  /**
   * With wallets stored under their owners and every credit addressed to a member, the run
   * completes, no wallet appears or disappears, and each wallet's balance grows by exactly what
   * the plan credits to its owner when the owner is active, and not at all otherwise.
   */
  lemma {:induction false} RunCreditsGain(db: Db, plan: seq<Credit>, now: Date, x: string)
    requires UsersKeyed(db) && WalletsKeyed(db) && ToMembers(db, plan)
    requires x in db.wallets && x in db.users
    ensures RunCredits(db, plan, now).1
    ensures WalletsKeyed(RunCredits(db, plan, now).0)
    ensures RunCredits(db, plan, now).0.wallets.Keys == db.wallets.Keys
    ensures RunCredits(db, plan, now).0.wallets[x].currentBalance ==
      db.wallets[x].currentBalance + (if db.users[x].isActive then Gain(plan, x) else 0.0)
    decreases |plan|
  {
    if plan != [] {
      var s := Step(db, plan[0], now);
      StepGain(db, plan[0], now, x);
      StatusOnlyShape(db, s.0);
      ToMembersTail(db, s.0, plan);
      RunCreditsGain(s.0, plan[1..], now, x);
      assert RunCredits(db, plan, now) == RunCredits(s.0, plan[1..], now);
    }
  }

  /** A credit to a stored member with wallets stored under their owners never throws and keeps them so. */
  lemma StepKeeps(db: Db, c: Credit, now: Date)
    requires UsersKeyed(db) && WalletsKeyed(db) && c.userId in db.users
    ensures Step(db, c, now).1 && WalletsKeyed(Step(db, c, now).0)
  {
    if c.userId in db.wallets {
      var w := db.wallets[c.userId];
      var o := CreditWallet(db, w, c.kind, c.amount, now);
      if db.users[c.userId].isActive {
        assert o.db.wallets == db.wallets[c.userId := Credited(w, c.kind, c.amount)];
      } else {
        assert o.db == db;
      }
    }
  }

  /**
   * A credit through the wallet document followed by a second `wallet.save()` when the credit
   * did not throw. The second save writes the document as the credit left it, which is what the
   * store already holds: it changes nothing.
   */
  method CreditAndSave(db: Db, c: Credit, now: Date) returns (db': Db, ok: bool)
    requires UsersKeyed(db) && WalletsKeyed(db)
    ensures (db', ok) == Step(db, c, now)
  {
    if c.userId !in db.wallets {
      return db, true;
    }
    var wallet := new WalletDoc.Load(db.wallets[c.userId]);
    match c.kind {
      case Personal => db', ok := wallet.AddDirectIncomePersonal(db, c.amount, now);
      case Referral => db', ok := wallet.AddDirectIncome(db, c.amount, now);
      case Level => db', ok := wallet.AddLevelIncome(db, c.amount, now);
    }
    if !ok {
      return;
    }
    ghost var credited := db';
    StepKeeps(db, c, now);
    assert wallet.userId == c.userId && credited.wallets[c.userId] == wallet.Value();
    SaveSame(credited, c.userId, wallet.Value());
    db' := wallet.Save(db');
  }

  /** Writing back the wallet the store already holds leaves the store as it is. */
  lemma SaveSame(d: Db, k: string, v: WalletRecord)
    requires k in d.wallets && d.wallets[k] == v
    ensures d.(wallets := d.wallets[k := v]) == d
  {
    assert d.wallets[k := v] == d.wallets;
  }

  // ---------------------------------------------------------------------------------------------
  // The run as written

  /** Whether credit c reaches, as written, a reward its member does not hold (`Store.RewardDue`). */
  predicate Due(db: Db, c: Credit)
  {
    c.userId in db.wallets && db.wallets[c.userId].userId in db.users &&
    db.users[db.wallets[c.userId].userId].isActive &&
    RewardDue(db, db.wallets[c.userId].userId, Credited(db.wallets[c.userId], c.kind, c.amount).currentBalance)
  }

  /** One credit as written (`Store.CreditWalletAsWritten`): it throws where a reward is due and is `Step` elsewhere. */
  function StepAsWritten(db: Db, c: Credit, now: Date): (r: (Db, bool))
    requires UsersKeyed(db)
    ensures UsersKeyed(r.0) && r.0.rewards == db.rewards
    ensures Due(db, c) ==> !r.1
    ensures !Due(db, c) ==> r == Step(db, c, now)
  {
    if c.userId !in db.wallets then (db, true)
    else
      var o := CreditWalletAsWritten(db, db.wallets[c.userId], c.kind, c.amount, now);
      CreditLost(db, db.wallets[c.userId], c.kind, c.amount, now);
      (o.db, o.ok)
  }

  /** The credits of plan in order as written, stopping at the first that throws. */
  function RunCreditsAsWritten(db: Db, plan: seq<Credit>, now: Date): (r: (Db, bool))
    requires UsersKeyed(db)
    ensures r.0.rewards == db.rewards
    decreases |plan|
  {
    if plan == [] then (db, true)
    else
      var s := StepAsWritten(db, plan[0], now);
      if !s.1 then s else RunCreditsAsWritten(s.0, plan[1..], now)
  }

  /** Whether no credit of the intended run, up to the first that throws, has a reward due. */
  predicate NoneDue(db: Db, plan: seq<Credit>, now: Date)
    requires UsersKeyed(db)
    decreases |plan|
  {
    plan == [] ||
    (!Due(db, plan[0]) && (Step(db, plan[0], now).1 ==> NoneDue(Step(db, plan[0], now).0, plan[1..], now)))
  }

  /**
   * The run as written next to the intended run: they agree on a run that reaches no reward
   * due, and otherwise the run as written throws; so it completes exactly when the intended run
   * completes with no reward due on the way.
   */
  lemma {:induction false} RunAgrees(db: Db, plan: seq<Credit>, now: Date)
    requires UsersKeyed(db)
    ensures NoneDue(db, plan, now) ==> RunCreditsAsWritten(db, plan, now) == RunCredits(db, plan, now)
    ensures RunCreditsAsWritten(db, plan, now).1 <==> NoneDue(db, plan, now) && RunCredits(db, plan, now).1
    decreases |plan|
  {
    if plan != [] {
      var s := Step(db, plan[0], now);
      if !Due(db, plan[0]) && s.1 {
        RunAgrees(s.0, plan[1..], now);
      }
    }
  }

  /**
   * `RunCreditsGain` for the code as written: a plan of credits to stored members completes
   * exactly when no credit on the way has a reward due, and then each active member's balance
   * grows by exactly its total in the plan.
   */
  lemma RunCreditsGainAsWritten(db: Db, plan: seq<Credit>, now: Date, x: string)
    requires UsersKeyed(db) && WalletsKeyed(db) && ToMembers(db, plan)
    requires x in db.wallets && x in db.users
    ensures RunCreditsAsWritten(db, plan, now).1 <==> NoneDue(db, plan, now)
    ensures NoneDue(db, plan, now) ==>
      x in RunCreditsAsWritten(db, plan, now).0.wallets &&
      RunCreditsAsWritten(db, plan, now).0.wallets[x].currentBalance ==
        db.wallets[x].currentBalance + (if db.users[x].isActive then Gain(plan, x) else 0.0)
  {
    RunAgrees(db, plan, now);
    RunCreditsGain(db, plan, now, x);
  }
}
