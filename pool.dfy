/**
 * The monthly point pool of models/GlobalPointPool.js: one record per (month, year), where
 * month is 1-based, and the find-or-create that the wallet credits go through.
 */
module Pools {
  import opened Common
  import opened Wallets

  datatype Pool = Pool(month: int, year: int, totalMonthlyPoints: real)

  /** The key of the pool for the month of now: `getMonth() + 1` and the full year. */
  function KeyMonth(now: Date): int
  {
    now.monthIndex + 1
  }

  /** Index of the first pool with the given key, as `findOne({ month, year })` returns it. */
  function Find(pools: seq<Pool>, month: int, year: int): (r: Option<nat>)
    ensures r.Some? ==> r.value < |pools| && pools[r.value].month == month && pools[r.value].year == year
    ensures r.Some? ==> forall j :: 0 <= j < r.value ==> !(pools[j].month == month && pools[j].year == year)
    ensures r.None? ==> forall j :: 0 <= j < |pools| ==> !(pools[j].month == month && pools[j].year == year)
  {
    if pools == [] then None
    else if pools[0].month == month && pools[0].year == year then Some(0)
    else match Find(pools[1..], month, year)
      case None => None
      case Some(i) => Some(i + 1)
  }

  /** No two pools share a key. */
  predicate OnePerKey(pools: seq<Pool>)
  {
    forall i, j :: 0 <= i < j < |pools| ==> !(pools[i].month == pools[j].month && pools[i].year == pools[j].year)
  }

  /**
   * `findOrCreateForCurrentMonth`: the existing pool of the month is returned unchanged;
   * otherwise a pool with total 0 is appended. The result is the new pool list and the
   * index of the month's pool in it.
   */
  function FindOrCreate(pools: seq<Pool>, now: Date): (r: (seq<Pool>, nat))
    ensures r.1 < |r.0|
    ensures r.0[r.1].month == KeyMonth(now) && r.0[r.1].year == now.year
    ensures Find(pools, KeyMonth(now), now.year).Some? ==> r.0 == pools && r.1 == Find(pools, KeyMonth(now), now.year).value
    ensures Find(pools, KeyMonth(now), now.year).None? ==> r.0 == pools + [Pool(KeyMonth(now), now.year, 0.0)] && r.1 == |pools|
  {
    match Find(pools, KeyMonth(now), now.year)
    case Some(i) => (pools, i)
    case None => (pools + [Pool(KeyMonth(now), now.year, 0.0)], |pools|)
  }

  /** Sequential find-or-create calls never produce two pools for one month. */
  lemma FindOrCreateOnePerKey(pools: seq<Pool>, now: Date)
    requires OnePerKey(pools)
    ensures OnePerKey(FindOrCreate(pools, now).0)
    ensures FindOrCreate(FindOrCreate(pools, now).0, now).0 == FindOrCreate(pools, now).0
  {
  }

  /** Total of the pools with the given key (with one pool per key, that pool's total). */
  function MonthTotal(pools: seq<Pool>, month: int, year: int): real
  {
    if pools == [] then 0.0
    else
      var own := if pools[0].month == month && pools[0].year == year then pools[0].totalMonthlyPoints else 0.0;
      own + MonthTotal(pools[1..], month, year)
  }

  /**
   * `updateGlobalPointPool(amount)` as it is evidently meant to run: the month's pool, found or
   * created, gains amount.
   */
  function UpdatePool(pools: seq<Pool>, now: Date, amount: real): (r: seq<Pool>)
  {
    var (ps, i) := FindOrCreate(pools, now);
    ps[i := ps[i].(totalMonthlyPoints := ps[i].totalMonthlyPoints + amount)]
  }

  lemma {:induction false} MonthTotalAppend(pools: seq<Pool>, p: Pool, month: int, year: int)
    ensures MonthTotal(pools + [p], month, year) ==
      MonthTotal(pools, month, year) + (if p.month == month && p.year == year then p.totalMonthlyPoints else 0.0)
    decreases |pools|
  {
    if pools == [] {
      assert pools + [p] == [p];
    } else {
      assert (pools + [p])[1..] == pools[1..] + [p];
      MonthTotalAppend(pools[1..], p, month, year);
    }
  }

  lemma {:induction false} MonthTotalAdd(pools: seq<Pool>, i: nat, amount: real, month: int, year: int)
    requires i < |pools|
    ensures MonthTotal(pools[i := pools[i].(totalMonthlyPoints := pools[i].totalMonthlyPoints + amount)], month, year) ==
      MonthTotal(pools, month, year) + (if pools[i].month == month && pools[i].year == year then amount else 0.0)
    decreases |pools|
  {
    var q := pools[i := pools[i].(totalMonthlyPoints := pools[i].totalMonthlyPoints + amount)];
    if i == 0 {
      assert q[1..] == pools[1..];
    } else {
      assert q[1..] == pools[1..][i - 1 := pools[i].(totalMonthlyPoints := pools[i].totalMonthlyPoints + amount)];
      MonthTotalAdd(pools[1..], i - 1, amount, month, year);
    }
  }

  /**
   * The month's total grows by exactly amount, every other month's total is unchanged, and a
   * pool list with one pool per key keeps that shape.
   */
  lemma UpdatePoolEffect(pools: seq<Pool>, now: Date, amount: real, month: int, year: int)
    ensures MonthTotal(UpdatePool(pools, now, amount), month, year) ==
      MonthTotal(pools, month, year) + (if month == KeyMonth(now) && year == now.year then amount else 0.0)
    ensures OnePerKey(pools) ==> OnePerKey(UpdatePool(pools, now, amount))
  {
    var (ps, i) := FindOrCreate(pools, now);
    if Find(pools, KeyMonth(now), now.year).None? {
      MonthTotalAppend(pools, Pool(KeyMonth(now), now.year, 0.0), month, year);
    }
    MonthTotalAdd(ps, i, amount, month, year);
  }

  /**
   * `updateGlobalPointPool(amount)` as written: the model file exports nothing, so the call to
   * `findOrCreateForCurrentMonth` throws and the catch leaves every pool as it was.
   */
  function UpdatePoolAsWritten(pools: seq<Pool>, now: Date, amount: real): (r: seq<Pool>)
  {
    pools
  }

  /** As written, a credit of a non-zero amount never reaches the month's pool. */
  lemma PoolUpdateLost(pools: seq<Pool>, now: Date, amount: real)
    requires amount != 0.0
    ensures MonthTotal(UpdatePoolAsWritten(pools, now, amount), KeyMonth(now), now.year)
         != MonthTotal(UpdatePool(pools, now, amount), KeyMonth(now), now.year)
  {
    UpdatePoolEffect(pools, now, amount, KeyMonth(now), now.year);
  }
}
