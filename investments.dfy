/**
 * Subscribing to an investment plan (src/routes/investments.js).
 *
 * The plan, its minimum, the wallet and its balance are checked in that order; on
 * success the principal leaves the wallet and an active investment that ends the plan's
 * duration in days later is recorded.
 */
module Investments {
  import opened Domain
  import Listing

  /** Milliseconds in a day: `setDate(getDate() + d)` is modelled as adding `d` whole days. */
  const DayMs := 24 * 60 * 60 * 1000

  function EndDate(start: int, days: int): int
  {
    start + days * DayMs
  }

  /** POST /investments for the authenticated user `uid`. */
  function Subscribe(s: State, uid: int, planId: int, amount: real, now: int): (r: Reply<Investment>)
    requires Valid(s)
    ensures Valid(r.next)
    ensures planId !in s.plans ==> r == Reply(s, Err(PlanNotFound))
    ensures planId in s.plans && amount < s.plans[planId].minAmount
            ==> r == Reply(s, Err(BelowMinimum))
    ensures planId in s.plans && amount >= s.plans[planId].minAmount && uid !in s.wallets
            ==> r == Reply(s, Err(WalletNotFound))
    ensures planId in s.plans && amount >= s.plans[planId].minAmount && uid in s.wallets
            && s.wallets[uid].balance < amount
            ==> r == Reply(s, Err(InsufficientBalance))
    ensures r.out.Err? ==>
      HttpStatus(r.out.error)
      == if planId !in s.plans || (amount >= s.plans[planId].minAmount && uid !in s.wallets) then 404 else 400
    ensures r.out.Ok? <==>
      && planId in s.plans && amount >= s.plans[planId].minAmount
      && uid in s.wallets && s.wallets[uid].balance >= amount
    ensures r.out.Ok? ==>
      var inv := r.out.value;
      && inv.userId == uid && inv.planId == planId && inv.amount == amount
      && inv.status == Active && inv.startDate == now
      && inv.endDate == now + s.plans[planId].duration * DayMs
      && Inserted(s.investments, r.next.investments, inv.id, inv)
      && OnlyBalanceMoved(s.wallets, r.next.wallets, uid, -amount)
      && r.next.wallets[uid].balance >= 0.0
      && r.next == s.(wallets := r.next.wallets, investments := r.next.investments,
                      nextInvestment := r.next.nextInvestment)
  {
    if planId !in s.plans then Reply(s, Err(PlanNotFound))
    else
      var plan := s.plans[planId];
      if amount < plan.minAmount then Reply(s, Err(BelowMinimum))
      else if uid !in s.wallets then Reply(s, Err(WalletNotFound))
      else if s.wallets[uid].balance < amount then Reply(s, Err(InsufficientBalance))
      else
        var s1 := s.(wallets := Credit(s.wallets, uid, -amount));
        var inv := Investment(s.nextInvestment, uid, planId, amount, now,
                              EndDate(now, plan.duration), Active);
        Reply(s1.(investments := s1.investments[inv.id := inv],
                  nextInvestment := s1.nextInvestment + 1), Ok(inv))
  }

  /**
   * The scenario of a 100 subscription to a plan with minimum 100, 30% and 7 days from a
   * wallet holding 500: 400 remains and the investment ends seven days later.
   */
  lemma SubscribeScenario(s: State, uid: int, planId: int, now: int)
    requires Valid(s) && planId in s.plans && uid in s.wallets
    requires s.plans[planId].minAmount == 100.0 && s.plans[planId].roi == 30.0
    requires s.plans[planId].duration == 7 && s.wallets[uid].balance == 500.0
    ensures var r := Subscribe(s, uid, planId, 100.0, now);
            && r.out.Ok? && r.next.wallets[uid].balance == 400.0
            && r.out.value.endDate == now + 604_800_000
  {
  }

  /** GET /investments/active: the caller's active investments, latest start first. */
  function ListActive(s: State, uid: int): (rows: seq<Investment>)
    requires Valid(s)
    ensures forall i | 0 <= i < |rows| ::
      && rows[i].id in s.investments && s.investments[rows[i].id] == rows[i]
      && rows[i].userId == uid && rows[i].status == Active
    ensures forall k | k in s.investments && s.investments[k].userId == uid
                       && s.investments[k].status == Active :: s.investments[k] in rows
    ensures forall i, j | 0 <= i < j < |rows| ::
      rows[i].id != rows[j].id && rows[i].startDate >= rows[j].startDate
  {
    var keys := set k | k in s.investments && s.investments[k].userId == uid
                        && s.investments[k].status == Active;
    var ids := Listing.SelectNewest(s.investments, keys, (inv: Investment) => inv.startDate);
    Listing.RowsCover(s.investments, keys, ids);
    var rows := Listing.Rows(s.investments, ids);
    assert forall i | 0 <= i < |rows| ::
      && ids[i] in keys && rows[i] == s.investments[ids[i]] && ids[i] in s.investments
      && s.investments[ids[i]].id == ids[i];
    rows
  }

  /** GET /investments/history: all the caller's investments, latest start first. */
  function ListHistory(s: State, uid: int): (rows: seq<Investment>)
    requires Valid(s)
    ensures forall i | 0 <= i < |rows| ::
      rows[i].id in s.investments && s.investments[rows[i].id] == rows[i] && rows[i].userId == uid
    ensures forall k | k in s.investments && s.investments[k].userId == uid :: s.investments[k] in rows
    ensures forall i, j | 0 <= i < j < |rows| ::
      rows[i].id != rows[j].id && rows[i].startDate >= rows[j].startDate
  {
    var keys := set k | k in s.investments && s.investments[k].userId == uid;
    var ids := Listing.SelectNewest(s.investments, keys, (inv: Investment) => inv.startDate);
    Listing.RowsCover(s.investments, keys, ids);
    var rows := Listing.Rows(s.investments, ids);
    assert forall i | 0 <= i < |rows| ::
      && ids[i] in keys && rows[i] == s.investments[ids[i]] && ids[i] in s.investments
      && s.investments[ids[i]].id == ids[i];
    rows
  }

  /** Every active investment the caller sees is also in the caller's history. */
  lemma ActiveWithinHistory(s: State, uid: int)
    requires Valid(s)
    ensures forall i | 0 <= i < |ListActive(s, uid)| :: ListActive(s, uid)[i] in ListHistory(s, uid)
  {
  }

  /** A successful subscription is listed among the caller's active investments and history. */
  lemma SubscribeListedActive(s: State, uid: int, planId: int, amount: real, now: int)
    requires Valid(s)
    ensures var r := Subscribe(s, uid, planId, amount, now);
            r.out.Ok? ==> r.out.value in ListActive(r.next, uid) && r.out.value in ListHistory(r.next, uid)
  {
    var r := Subscribe(s, uid, planId, amount, now);
    if r.out.Ok? {
      var inv := r.out.value;
      assert r.next.investments[inv.id] == inv;
    }
  }
}
