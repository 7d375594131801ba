/**
 * The wallet document of models/Wallet.js as a value: its counters, its ledger of
 * transactions and withdrawals, the two virtual properties, and the pure rules its methods
 * apply to the document. Amounts are `real`; JavaScript's floating point is not modelled.
 */
module Wallets {
  import opened Common
  import opened Users

  /** A calendar month as `Date` reports it: `getMonth()` (0 for January) and `getFullYear()`. */
  datatype Date = Date(monthIndex: int, year: int)

  datatype TxnKind = CreditTxn | DebitTxn

  datatype Transaction = Transaction(amount: real, kind: TxnKind, description: string)

  datatype Status = Pending | Processed | Rejected

  datatype Withdrawal = Withdrawal(
    amount: int,
    pointsWithdrawn: int,
    status: Status,
    transactionId: Option<string>,
    image: Option<string>)

  datatype WalletRecord = WalletRecord(
    userId: string,
    currentBalance: real,
    currentMonthlyBalance: real,
    directCurrent: real,
    directMonthly: real,
    levelCurrent: real,
    levelMonthly: real,
    transactions: seq<Transaction>,
    withdrawals: seq<Withdrawal>,
    lastReset: Date)

  /** `Wallet.create({ userId })`: every counter 0, empty ledgers, last reset now. */
  function NewWallet(userId: string, now: Date): (w: WalletRecord)
    ensures w.userId == userId && w.lastReset == now
    ensures w.currentBalance == 0.0 && w.currentMonthlyBalance == 0.0
    ensures w.transactions == [] && w.withdrawals == []
    ensures LedgerConsistent(w)
  {
    WalletRecord(userId, 0.0, 0.0, 0.0, 0.0, 0.0, 0.0, [], [], now)
  }

  // ---------------------------------------------------------------------------------------------
  // The ledger invariant

  /** Sum of the credit transactions. */
  function Credits(ts: seq<Transaction>): real
  {
    if ts == [] then 0.0
    else (if ts[0].kind == CreditTxn then ts[0].amount else 0.0) + Credits(ts[1..])
  }

  /** Points taken out by processed withdrawals. */
  function ProcessedPoints(ws: seq<Withdrawal>): int
  {
    if ws == [] then 0
    else (if ws[0].status == Processed then ws[0].pointsWithdrawn else 0) + ProcessedPoints(ws[1..])
  }

  /**
   * The balance is every credit minus every processed withdrawal, and every credit is booked
   * either as direct or as level income.
   */
  predicate LedgerConsistent(w: WalletRecord)
  {
    w.currentBalance == Credits(w.transactions) - ProcessedPoints(w.withdrawals) as real &&
    w.directCurrent + w.levelCurrent == Credits(w.transactions)
  }

  lemma {:induction false} CreditsAppend(ts: seq<Transaction>, t: Transaction)
    ensures Credits(ts + [t]) == Credits(ts) + (if t.kind == CreditTxn then t.amount else 0.0)
    decreases |ts|
  {
    if ts == [] {
      assert ts + [t] == [t];
    } else {
      assert (ts + [t])[1..] == ts[1..] + [t];
      CreditsAppend(ts[1..], t);
    }
  }

  lemma {:induction false} ProcessedPointsAppend(ws: seq<Withdrawal>, w: Withdrawal)
    ensures ProcessedPoints(ws + [w]) == ProcessedPoints(ws) + (if w.status == Processed then w.pointsWithdrawn else 0)
    decreases |ws|
  {
    if ws == [] {
      assert ws + [w] == [w];
    } else {
      assert (ws + [w])[1..] == ws[1..] + [w];
      ProcessedPointsAppend(ws[1..], w);
    }
  }

  /** Changing the status of entry i only moves that entry's points in or out of the processed sum. */
  lemma {:induction false} ProcessedPointsUpdate(ws: seq<Withdrawal>, i: nat, w: Withdrawal)
    requires i < |ws| && w.pointsWithdrawn == ws[i].pointsWithdrawn
    ensures ProcessedPoints(ws[i := w]) ==
      ProcessedPoints(ws)
      - (if ws[i].status == Processed then ws[i].pointsWithdrawn else 0)
      + (if w.status == Processed then w.pointsWithdrawn else 0)
    decreases |ws|
  {
    if i == 0 {
      assert ws[i := w][1..] == ws[1..];
    } else {
      assert ws[i := w][1..] == ws[1..][i - 1 := w];
      ProcessedPointsUpdate(ws[1..], i - 1, w);
    }
  }

  // ---------------------------------------------------------------------------------------------
  // Virtual properties

  /**
   * `withdrawableAmount`: nothing below a monthly balance of 500; otherwise the whole-rupee
   * value of the balance at 5 points a rupee, less 10% charges.
   */
  function WithdrawableAmount(w: WalletRecord): (r: real)
    ensures w.currentMonthlyBalance < 500.0 ==> r == 0.0
    ensures w.currentMonthlyBalance >= 500.0 ==> r == 0.9 * Floor(w.currentBalance / 5.0) as real
    ensures w.currentBalance >= 0.0 ==> 0.0 <= r <= w.currentBalance / 5.0
  {
    if w.currentMonthlyBalance < 500.0 then 0.0
    else
      var gross := Floor(w.currentBalance / 5.0) as real;
      gross - gross * 0.1
  }

  /** `clubMembership`: the tier the monthly balance reaches. */
  function ClubOf(w: WalletRecord): (c: Club)
    ensures c == Gold <==> w.currentMonthlyBalance >= 10000.0
    ensures c == Silver <==> 5000.0 <= w.currentMonthlyBalance < 10000.0
    ensures c == NoClub <==> w.currentMonthlyBalance < 5000.0
  {
    if w.currentMonthlyBalance >= 10000.0 then Gold
    else if w.currentMonthlyBalance >= 5000.0 then Silver
    else NoClub
  }

  /** A larger monthly balance never gives a lower tier. */
  lemma ClubMonotone(a: WalletRecord, b: WalletRecord)
    requires a.currentMonthlyBalance <= b.currentMonthlyBalance
    ensures ClubOf(a) == Gold ==> ClubOf(b) == Gold
    ensures ClubOf(a) == Silver ==> ClubOf(b) != NoClub
  {
  }

  // ---------------------------------------------------------------------------------------------
  // What the document methods do to the document

  /** `isEligibleForWithdrawal`, given the member record the method reads. */
  function Eligible(w: WalletRecord, user: User): (b: bool)
    ensures b <==> user.referredCustomersCount >= 3 && w.currentMonthlyBalance >= 500.0
  {
    user.referredCustomersCount >= 3 && w.currentMonthlyBalance >= 500.0
  }

  /** `resetMonthlyBalance` at date now. */
  function Reset(w: WalletRecord, now: Date): (r: WalletRecord)
    ensures now.monthIndex != w.lastReset.monthIndex || now.year != w.lastReset.year ==>
      r == w.(currentMonthlyBalance := 0.0, directMonthly := 0.0, levelMonthly := 0.0, lastReset := now)
    ensures now.monthIndex == w.lastReset.monthIndex && now.year == w.lastReset.year ==> r == w
  {
    if now.monthIndex != w.lastReset.monthIndex || now.year != w.lastReset.year then
      w.(currentMonthlyBalance := 0.0, directMonthly := 0.0, levelMonthly := 0.0, lastReset := now)
    else w
  }

  /** Resetting twice in the same month is resetting once; the ledger and balance are untouched. */
  lemma ResetIdempotent(w: WalletRecord, now: Date)
    ensures Reset(Reset(w, now), now) == Reset(w, now)
    ensures Reset(w, now).lastReset == now
    ensures Reset(w, now).currentBalance == w.currentBalance
    ensures LedgerConsistent(w) ==> LedgerConsistent(Reset(w, now))
  {
  }

  /** The three income kinds: `addDirectIncomePersonal`, `addDirectIncome`, `addLevelIncome`. */
  datatype Income = Personal | Referral | Level

  function Description(kind: Income): string
  {
    match kind
    case Personal => "Direct income added for buying item."
    case Referral => "Direct income added for referral."
    case Level => "Level income added"
  }

  /**
   * The counters and ledger after a credit of amount on an active member's wallet. Only a
   * personal credit moves the monthly balance; level income is booked apart from direct income.
   */
  function Credited(w: WalletRecord, kind: Income, amount: real): (r: WalletRecord)
    ensures r.userId == w.userId && r.withdrawals == w.withdrawals && r.lastReset == w.lastReset
    ensures r.currentBalance == w.currentBalance + amount
    ensures r.currentMonthlyBalance == w.currentMonthlyBalance + (if kind == Personal then amount else 0.0)
    ensures kind != Level ==>
      r.directCurrent == w.directCurrent + amount && r.directMonthly == w.directMonthly + amount &&
      r.levelCurrent == w.levelCurrent && r.levelMonthly == w.levelMonthly
    ensures kind == Level ==>
      r.levelCurrent == w.levelCurrent + amount && r.levelMonthly == w.levelMonthly + amount &&
      r.directCurrent == w.directCurrent && r.directMonthly == w.directMonthly
    ensures r.transactions == w.transactions + [Transaction(amount, CreditTxn, Description(kind))]
  {
    var booked := w.(
      currentBalance := w.currentBalance + amount,
      transactions := w.transactions + [Transaction(amount, CreditTxn, Description(kind))]);
    match kind
    case Personal =>
      booked.(directCurrent := w.directCurrent + amount, directMonthly := w.directMonthly + amount,
              currentMonthlyBalance := w.currentMonthlyBalance + amount)
    case Referral =>
      booked.(directCurrent := w.directCurrent + amount, directMonthly := w.directMonthly + amount)
    case Level =>
      booked.(levelCurrent := w.levelCurrent + amount, levelMonthly := w.levelMonthly + amount)
  }

  /** A credit keeps the ledger invariant. */
  lemma CreditedConsistent(w: WalletRecord, kind: Income, amount: real)
    requires LedgerConsistent(w)
    ensures LedgerConsistent(Credited(w, kind, amount))
  {
    CreditsAppend(w.transactions, Transaction(amount, CreditTxn, Description(kind)));
  }

  /** `Math.floor(Math.floor(amountInRupees * 5) / 0.9)` for a whole rupee amount. */
  function PointsFor(rupees: int): (p: int)
    ensures p as real * 0.9 <= (5 * rupees) as real < (p + 1) as real * 0.9
  {
    Floor((5 * rupees) as real / 0.9)
  }

  // ---------------------------------------------------------------------------------------------
  // Eligibility over time

  /** More referrals and a larger monthly balance never make an eligible wallet ineligible. */
  lemma EligibleMonotone(w: WalletRecord, user: User, w': WalletRecord, user': User)
    requires Eligible(w, user)
    requires user'.referredCustomersCount >= user.referredCustomersCount && w'.currentMonthlyBalance >= w.currentMonthlyBalance
    ensures Eligible(w', user')
  {
  }

  /** A credit of a non-negative amount keeps an eligible wallet eligible. */
  lemma CreditKeepsEligible(w: WalletRecord, user: User, kind: Income, amount: real)
    requires Eligible(w, user) && amount >= 0.0
    ensures Eligible(Credited(w, kind, amount), user)
  {
  }

  /**
   * The first reset of a new month makes every wallet ineligible until its monthly balance
   * reaches 500 again; within the month a reset changes nothing.
   */
  lemma ResetEligible(w: WalletRecord, user: User, now: Date)
    ensures now.monthIndex != w.lastReset.monthIndex || now.year != w.lastReset.year ==> !Eligible(Reset(w, now), user)
    ensures now.monthIndex == w.lastReset.monthIndex && now.year == w.lastReset.year ==> Eligible(Reset(w, now), user) == Eligible(w, user)
  {
  }

  const ExceedsWithdrawable: string := "Requested withdrawal amount exceeds the available withdrawable amount."
  const NotEligible: string := "User is not eligible for withdrawal."
  /**
   * The rank-limit refusal for a member of the given rank (`null` when unset). The message reads
   * `maxMonthlyEarnings`, which is no path of the member schema, so its amount is `undefined`.
   */
  function LimitReached(rank: Option<string>): string
  {
    "Monthly withdrawal limit reached for rank " + (if rank.Some? then rank.value else "null") + ". Max allowed: ₹undefined"
  }
  const NotFound: string := "Withdrawal request not found."
  const NotPending: string := "Withdrawal request is not pending."
  const Insufficient: string := "Insufficient balance to process the withdrawal."

  /**
   * `withdrawRequest(amount)`, given the member record it reads (None when the member is
   * missing): the whole-rupee amount is checked against the withdrawable amount, eligibility
   * and the rank limit, in that order; a request that passes is queued as pending and moves
   * no balance.
   */
  function Request(w: WalletRecord, user: Option<User>, amount: real): (r: Result<WalletRecord>)
    ensures Floor(amount) as real > WithdrawableAmount(w) ==> r == Err(ExceedsWithdrawable)
    ensures Floor(amount) as real <= WithdrawableAmount(w) && user.None? ==> r == Err(TypeError)
    ensures r.Ok? <==>
      Floor(amount) as real <= WithdrawableAmount(w) && user.Some? && Eligible(w, user.value) &&
      Floor(amount) <= user.value.maxMonthlyWithdrawal
    ensures r.Ok? ==>
      r.value == w.(withdrawals := w.withdrawals + [Withdrawal(Floor(amount), PointsFor(Floor(amount)), Pending, None, None)])
  {
    var a := Floor(amount);
    if a as real > WithdrawableAmount(w) then Err(ExceedsWithdrawable)
    else if user.None? then Err(TypeError)
    else if !Eligible(w, user.value) then Err(NotEligible)
    else if a > user.value.maxMonthlyWithdrawal then Err(LimitReached(user.value.rank))
    else Ok(w.(withdrawals := w.withdrawals + [Withdrawal(a, PointsFor(a), Pending, None, None)]))
  }

  /**
   * `withdraw(i, transactionId, image)`: only a pending entry whose amount the wallet can still
   * cover is processed; it becomes processed and its points leave the balance.
   */
  function Process(w: WalletRecord, i: int, transactionId: string, image: string): (r: Result<WalletRecord>)
    ensures !(0 <= i < |w.withdrawals|) ==> r == Err(NotFound)
    ensures 0 <= i < |w.withdrawals| && w.withdrawals[i].status != Pending ==> r == Err(NotPending)
    ensures r.Ok? <==>
      0 <= i < |w.withdrawals| && w.withdrawals[i].status == Pending &&
      WithdrawableAmount(w) >= w.withdrawals[i].amount as real
    ensures r.Ok? ==>
      |r.value.withdrawals| == |w.withdrawals| &&
      r.value.withdrawals[i] == w.withdrawals[i].(status := Processed, transactionId := Some(transactionId), image := Some(image)) &&
      (forall j :: 0 <= j < |w.withdrawals| && j != i ==> r.value.withdrawals[j] == w.withdrawals[j]) &&
      r.value.currentBalance == w.currentBalance - w.withdrawals[i].pointsWithdrawn as real &&
      r.value == w.(withdrawals := r.value.withdrawals, currentBalance := r.value.currentBalance)
  {
    if !(0 <= i < |w.withdrawals|) then Err(NotFound)
    else
      var e := w.withdrawals[i];
      if e.status != Pending then Err(NotPending)
      else if WithdrawableAmount(w) < e.amount as real then Err(Insufficient)
      else
        Ok(w.(withdrawals := w.withdrawals[i := e.(status := Processed, transactionId := Some(transactionId), image := Some(image))],
              currentBalance := w.currentBalance - e.pointsWithdrawn as real))
  }

  /** `reject(i)`: only a pending entry is rejected, and no balance moves. */
  function Reject(w: WalletRecord, i: int): (r: Result<WalletRecord>)
    ensures !(0 <= i < |w.withdrawals|) ==> r == Err(NotFound)
    ensures r.Ok? <==> 0 <= i < |w.withdrawals| && w.withdrawals[i].status == Pending
    ensures r.Ok? ==> r.value == w.(withdrawals := w.withdrawals[i := w.withdrawals[i].(status := Rejected)])
  {
    if !(0 <= i < |w.withdrawals|) then Err(NotFound)
    else if w.withdrawals[i].status != Pending then Err(NotPending)
    else Ok(w.(withdrawals := w.withdrawals[i := w.withdrawals[i].(status := Rejected)]))
  }

  /** Requests, processing and rejection all keep the ledger invariant. */
  lemma {:induction false} WithdrawalsConsistent(w: WalletRecord, user: Option<User>, amount: real, i: int, tx: string, image: string)
    requires LedgerConsistent(w)
    ensures Request(w, user, amount).Ok? ==> LedgerConsistent(Request(w, user, amount).value)
    ensures Process(w, i, tx, image).Ok? ==> LedgerConsistent(Process(w, i, tx, image).value)
    ensures Reject(w, i).Ok? ==> LedgerConsistent(Reject(w, i).value)
  {
    if Request(w, user, amount).Ok? {
      var a := Floor(amount);
      ProcessedPointsAppend(w.withdrawals, Withdrawal(a, PointsFor(a), Pending, None, None));
    }
    if 0 <= i < |w.withdrawals| {
      var e := w.withdrawals[i];
      ProcessedPointsUpdate(w.withdrawals, i, e.(status := Processed, transactionId := Some(tx), image := Some(image)));
      ProcessedPointsUpdate(w.withdrawals, i, e.(status := Rejected));
    }
  }

  /** A withdrawal entry leaves Pending at most once: processed and rejected entries are final. */
  lemma WithdrawalFinal(w: WalletRecord, i: int, tx: string, image: string)
    requires 0 <= i < |w.withdrawals| && w.withdrawals[i].status != Pending
    ensures Process(w, i, tx, image) == Err(NotPending)
    ensures Reject(w, i) == Err(NotPending)
  {
  }
}
