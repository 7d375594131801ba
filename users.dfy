/**
 * The member document of models/User.js: its fields and defaults, the rank table, the two
 * post-save hooks, and what a Mongoose `save()` of an in-memory copy writes back.
 */
module Users {
  import opened Common

  /** The `club` enum; NoClub is the string 'None'. */
  datatype Club = NoClub | Silver | Gold

  /**
   * One member document. `depth` is not a path of the schema: a document read from the store
   * has no such value, which is `None` here (JavaScript `undefined`). `hasWallet` stands for
   * the `wallet` ObjectId reference being set.
   */
  datatype User = User(
    userId: string,
    parent: Option<string>,
    children: seq<string>,
    level: int,
    referredCustomers: seq<string>,
    childCount: int,
    isComplete: bool,
    referredCustomersCount: int,
    totalDescendantsCount: int,
    referredBy: Option<string>,
    hasWallet: bool,
    rank: Option<string>,
    club: Club,
    maxMonthlyWithdrawal: int,
    isActive: bool,
    depth: Option<int>)

  /** A freshly constructed member with the schema defaults, before its first save. */
  function NewUser(userId: string, referredBy: Option<string>): (u: User)
    ensures u.userId == userId && u.referredBy == referredBy
    ensures u.parent == None && u.children == [] && u.referredCustomers == []
    ensures u.level == 0 && u.childCount == 0 && u.referredCustomersCount == 0 && u.totalDescendantsCount == 0
    ensures !u.isComplete && !u.isActive && !u.hasWallet
    ensures u.club == NoClub && u.rank == None && u.maxMonthlyWithdrawal == 0 && u.depth == None
    ensures StatsConsistent(u)
  {
    User(userId, None, [], 0, [], 0, false, 0, 0, referredBy, false, None, NoClub, 0, false, None)
  }

  /** The derived tree counters agree with the children list (what the ancestor walks recompute). */
  predicate StatsConsistent(u: User)
  {
    u.childCount == |u.children| && u.isComplete == (|u.children| == 3) &&
    (|u.children| != 3 ==> u.level == 0)
  }

  /** a and b agree on every path except the status paths a hook or a club assignment writes. */
  predicate SameExceptStatus(a: User, b: User)
  {
    a == b.(rank := a.rank, maxMonthlyWithdrawal := a.maxMonthlyWithdrawal, club := a.club, hasWallet := a.hasWallet)
  }

  // ---------------------------------------------------------------------------------------------
  // Rank table

  datatype RankDetail = RankDetail(threshold: nat, rank: string, maxWithdrawal: nat)

  /** `rankDetails`, in the order Object.keys lists its integer keys: ascending. */
  const RankTable: seq<RankDetail> := [
    RankDetail(3, "Star", 10000),
    RankDetail(10, "Silver", 50000),
    RankDetail(12, "Gold", 100000),
    RankDetail(15, "Ruby", 500000),
    RankDetail(17, "Platinum", 1000000),
    RankDetail(20, "Diamond", 5000000),
    RankDetail(25, "Crown", 10000000)
  ]

  /** `Object.keys(...).reverse().find(key => count >= key)` over the first n table rows. */
  function FindFromTop(n: nat, count: int): (r: Option<RankDetail>)
    requires n <= |RankTable|
    ensures r.Some? ==> r.value in RankTable[..n] && r.value.threshold <= count
    ensures r.Some? ==> forall i :: 0 <= i < n && RankTable[i].threshold <= count ==> RankTable[i].threshold <= r.value.threshold
    ensures r.None? ==> forall i :: 0 <= i < n ==> count < RankTable[i].threshold
  {
    if n == 0 then None
    else if count >= RankTable[n - 1].threshold then Some(RankTable[n - 1])
    else FindFromTop(n - 1, count)
  }

  /** The rank row a referred-customer count selects: the highest threshold not above it. */
  function RankFor(count: int): Option<RankDetail>
  {
    FindFromTop(|RankTable|, count)
  }

  lemma RankTableAscending(i: nat, j: nat)
    requires i < j < |RankTable|
    ensures RankTable[i].threshold < RankTable[j].threshold
    ensures RankTable[i].maxWithdrawal < RankTable[j].maxWithdrawal
  {
  }

  /** A rank is selected exactly from three referrals on, and it is the highest row the count reaches. */
  lemma RankForSpec(count: int)
    ensures RankFor(count).Some? <==> count >= 3
    ensures RankFor(count).Some? ==>
      RankFor(count).value in RankTable && RankFor(count).value.threshold <= count &&
      forall d :: d in RankTable && d.threshold <= count ==> d.threshold <= RankFor(count).value.threshold
  {
    var r := RankFor(count);
    if count >= 3 {
      assert RankTable[0].threshold <= count;
    }
    if r.Some? {
      forall d | d in RankTable && d.threshold <= count
        ensures d.threshold <= r.value.threshold
      {
        var i :| 0 <= i < |RankTable| && RankTable[i] == d;
      }
    }
  }

  /** Rank selection is monotone: a larger count never yields a smaller limit. */
  lemma RankMonotone(a: int, b: int)
    requires a <= b
    ensures RankFor(a).Some? ==> RankFor(b).Some?
    ensures RankFor(a).Some? ==> RankFor(a).value.maxWithdrawal <= RankFor(b).value.maxWithdrawal
    ensures RankFor(a).Some? ==> RankFor(a).value.threshold <= RankFor(b).value.threshold
  {
    RankForSpec(a);
    RankForSpec(b);
    if RankFor(a).Some? {
      var ra, rb := RankFor(a).value, RankFor(b).value;
      var i :| 0 <= i < |RankTable| && RankTable[i] == ra;
      var j :| 0 <= j < |RankTable| && RankTable[j] == rb;
      if j < i { RankTableAscending(j, i); }
      else if i < j { RankTableAscending(i, j); }
    }
  }

  // ---------------------------------------------------------------------------------------------
  // Post-save hooks

  /**
   * The first post-save hook: an active member gets the rank and limit of its count; an
   * inactive member, or one below the first threshold, keeps what it had.
   */
  function RankHook(doc: User): (r: User)
    ensures r == doc.(rank := r.rank, maxMonthlyWithdrawal := r.maxMonthlyWithdrawal)
    ensures doc.isActive && RankFor(doc.referredCustomersCount).Some? ==>
      r.rank == Some(RankFor(doc.referredCustomersCount).value.rank) &&
      r.maxMonthlyWithdrawal == RankFor(doc.referredCustomersCount).value.maxWithdrawal
    ensures !doc.isActive || RankFor(doc.referredCustomersCount).None? ==> r == doc
  {
    if doc.isActive then
      match RankFor(doc.referredCustomersCount)
      case Some(d) => doc.(rank := Some(d.rank), maxMonthlyWithdrawal := d.maxWithdrawal)
      case None => doc
    else doc
  }

  /** Re-running the rank assignment with an unchanged count changes nothing. */
  lemma RankHookIdempotent(doc: User)
    ensures RankHook(RankHook(doc)) == RankHook(doc)
  {
  }

  // ---------------------------------------------------------------------------------------------
  // What `doc.save()` writes

  /** A scalar path is written only when the copy's value differs from the value it was loaded with. */
  function Pick<T(==)>(stored: T, loaded: T, doc: T): T
  {
    if doc == loaded then stored else doc
  }

  /** An array extended by `push` is written as $push of the new suffix; any other change as $set. */
  function PickList(stored: seq<string>, loaded: seq<string>, doc: seq<string>): seq<string>
  {
    if doc == loaded then stored
    else if loaded <= doc then stored + doc[|loaded|..]
    else doc
  }

  /**
   * The stored member after `doc.save()`, where `doc` is an in-memory copy that was `loaded`
   * earlier and `stored` is what the store holds now: only the modified paths reach the store.
   */
  function PatchUser(stored: User, loaded: User, doc: User): (r: User)
    ensures r.userId == stored.userId
  {
    User(
      stored.userId,
      Pick(stored.parent, loaded.parent, doc.parent),
      PickList(stored.children, loaded.children, doc.children),
      Pick(stored.level, loaded.level, doc.level),
      PickList(stored.referredCustomers, loaded.referredCustomers, doc.referredCustomers),
      Pick(stored.childCount, loaded.childCount, doc.childCount),
      Pick(stored.isComplete, loaded.isComplete, doc.isComplete),
      Pick(stored.referredCustomersCount, loaded.referredCustomersCount, doc.referredCustomersCount),
      Pick(stored.totalDescendantsCount, loaded.totalDescendantsCount, doc.totalDescendantsCount),
      Pick(stored.referredBy, loaded.referredBy, doc.referredBy),
      Pick(stored.hasWallet, loaded.hasWallet, doc.hasWallet),
      Pick(stored.rank, loaded.rank, doc.rank),
      Pick(stored.club, loaded.club, doc.club),
      Pick(stored.maxMonthlyWithdrawal, loaded.maxMonthlyWithdrawal, doc.maxMonthlyWithdrawal),
      Pick(stored.isActive, loaded.isActive, doc.isActive),
      Pick(stored.depth, loaded.depth, doc.depth))
  }

  /** Saving a copy that is still current writes the copy; saving an unmodified copy writes nothing. */
  lemma PatchFresh(stored: User, doc: User)
    requires doc.userId == stored.userId
    ensures PatchUser(stored, stored, doc) == doc
    ensures PatchUser(stored, doc, doc) == stored
  {
  }
}
