/**
 * The two scheduled jobs of src/server.js: the daily maturity settlement of investments and
 * the ten-minute expiry of pending transactions.
 *
 * The settlement job first loads every active investment whose end date has passed,
 * together with its plan and its owner's wallet, and then loops over that snapshot. Each
 * iteration WRITES the owner's balance as snapshot balance + principal + profit (it does
 * not increment it) and marks the investment completed. An exception (a missing plan or
 * wallet) ends the loop; the iterations before it keep their effects.
 */
module Maturity {
  import opened Domain

  /** The outcome of a sweep: the store afterwards and how many rows it processed. */
  datatype Sweep = Sweep(state: State, count: nat)

  /** The settlement query: status `active` and end date at or before `now`. */
  predicate Matured(inv: Investment, now: int)
  {
    inv.status == Active && inv.endDate <= now
  }

  ghost function MaturedIds(s: State, now: int): set<int>
  {
    set k | k in s.investments && Matured(s.investments[k], now)
  }

  /** The ROI is a flat percentage of the principal, not prorated over time. */
  function Profit(amount: real, roi: real): real
  {
    amount * roi / 100.0
  }

  /** The loop body runs for `id` without throwing: its plan and its owner's wallet were loaded. */
  predicate Settleable(s0: State, id: int)
    requires id in s0.investments
  {
    s0.investments[id].planId in s0.plans && s0.investments[id].userId in s0.wallets
  }

  /** Principal plus profit of one investment of the snapshot. */
  function Payout(s0: State, id: int): real
    requires id in s0.investments && Settleable(s0, id)
  {
    var inv := s0.investments[id];
    inv.amount + Profit(inv.amount, s0.plans[inv.planId].roi)
  }

  /** Every row the loop visits is in the snapshot `s0` and in the current store `p`. */
  ghost predicate Covers(s0: State, p: State, order: seq<int>)
  {
    && (forall j | 0 <= j < |order| :: order[j] in s0.investments && order[j] in p.investments)
    && s0.wallets.Keys <= p.wallets.Keys
  }

  /** One iteration as written: the balance is set from the snapshot, not incremented. */
  function SettleOne(s0: State, p: State, id: int): (p2: State)
    requires id in s0.investments && id in p.investments && Settleable(s0, id)
    requires s0.wallets.Keys <= p.wallets.Keys
  {
    var uid := s0.investments[id].userId;
    var inv := s0.investments[id];
    var profit := Profit(inv.amount, s0.plans[inv.planId].roi);
    p.(wallets := p.wallets[uid := p.wallets[uid].(balance := s0.wallets[uid].balance + inv.amount + profit)],
       investments := p.investments[id := p.investments[id].(status := InvestmentStatus.Completed)])
  }

  /** The settlement loop over `order`, reading from the snapshot `s0`, writing into `p`. */
  function RunSettle(s0: State, p: State, order: seq<int>): (r: Sweep)
    requires Covers(s0, p, order)
    ensures r.count <= |order|
    ensures forall j | 0 <= j < r.count :: Settleable(s0, order[j])
    ensures r.count < |order| ==> !Settleable(s0, order[r.count])
    ensures r.state.investments.Keys == p.investments.Keys && r.state.wallets.Keys == p.wallets.Keys
    ensures r.state == p.(wallets := r.state.wallets, investments := r.state.investments)
    decreases |order|
  {
    if order == [] || !Settleable(s0, order[0]) then Sweep(p, 0)
    else
      var rest := RunSettle(s0, SettleOne(s0, p, order[0]), order[1..]);
      Sweep(rest.state, rest.count + 1)
  }

  /** A run that settles its first row continues from the store that row's iteration left. */
  lemma RunSettleStep(s0: State, p: State, order: seq<int>)
    requires Covers(s0, p, order) && order != [] && Settleable(s0, order[0])
    ensures Covers(s0, SettleOne(s0, p, order[0]), order[1..])
    ensures var rest := RunSettle(s0, SettleOne(s0, p, order[0]), order[1..]);
            RunSettle(s0, p, order) == Sweep(rest.state, rest.count + 1)
  {
  }

  /**
   * What the loop does to the investments and wallets: the visited investments become
   * completed, every other investment is untouched, and only balances and statuses change.
   */
  lemma RunSettleEffects(s0: State, p: State, order: seq<int>)
    requires Covers(s0, p, order)
    ensures var r := RunSettle(s0, p, order);
      && (forall j | 0 <= j < r.count :: r.state.investments[order[j]].status == InvestmentStatus.Completed)
      && (forall k | k in p.investments && k !in order[..r.count] :: r.state.investments[k] == p.investments[k])
      && (forall k | k in p.investments ::
            r.state.investments[k] == p.investments[k].(status := r.state.investments[k].status))
      && (forall u | u in p.wallets :: r.state.wallets[u].id == p.wallets[u].id)
  {
    RunSettleSettled(s0, p, order);
    RunSettleUnreached(s0, p, order);
    RunSettleFrame(s0, p, order);
  }

  /** The rows the loop settled are completed afterwards. */
  lemma {:induction false} RunSettleSettled(s0: State, p: State, order: seq<int>)
    requires Covers(s0, p, order)
    ensures var r := RunSettle(s0, p, order);
      forall j | 0 <= j < r.count :: r.state.investments[order[j]].status == InvestmentStatus.Completed
    decreases |order|
  {
    var r := RunSettle(s0, p, order);
    if order != [] && Settleable(s0, order[0]) {
      var p1 := SettleOne(s0, p, order[0]);
      RunSettleStep(s0, p, order);
      RunSettleSettled(s0, p1, order[1..]);
      RunSettleUnreached(s0, p1, order[1..]);
      var rest := RunSettle(s0, p1, order[1..]);
      forall j | 0 <= j < r.count
        ensures r.state.investments[order[j]].status == InvestmentStatus.Completed
      {
        if j > 0 {
          assert order[j] == order[1..][j - 1];
        } else if order[0] !in order[1..][..rest.count] {
          assert p1.investments[order[0]].status == InvestmentStatus.Completed;
        } else {
          var i :| 0 <= i < rest.count && order[1..][i] == order[0];
        }
      }
    }
  }

  /** Rows the loop did not settle are untouched. */
  lemma {:induction false} RunSettleUnreached(s0: State, p: State, order: seq<int>)
    requires Covers(s0, p, order)
    ensures var r := RunSettle(s0, p, order);
      forall k | k in p.investments && k !in order[..r.count] :: r.state.investments[k] == p.investments[k]
    decreases |order|
  {
    var r := RunSettle(s0, p, order);
    if order != [] && Settleable(s0, order[0]) {
      var p1 := SettleOne(s0, p, order[0]);
      RunSettleStep(s0, p, order);
      RunSettleUnreached(s0, p1, order[1..]);
      var rest := RunSettle(s0, p1, order[1..]);
      forall k | k in p.investments && k !in order[..r.count]
        ensures r.state.investments[k] == p.investments[k]
      {
        assert order[..r.count][0] == order[0];
        forall i | 0 <= i < rest.count
          ensures order[1..][..rest.count][i] != k
        {
          assert order[1..][..rest.count][i] == order[..r.count][i + 1];
        }
      }
    }
  }

  /** Only investment statuses and balances change: ids and every other field stay. */
  lemma {:induction false} RunSettleFrame(s0: State, p: State, order: seq<int>)
    requires Covers(s0, p, order)
    ensures var r := RunSettle(s0, p, order);
      && (forall k | k in p.investments ::
            r.state.investments[k] == p.investments[k].(status := r.state.investments[k].status))
      && (forall u | u in p.wallets :: r.state.wallets[u].id == p.wallets[u].id)
    decreases |order|
  {
    if order != [] && Settleable(s0, order[0]) {
      RunSettleStep(s0, p, order);
      RunSettleFrame(s0, SettleOne(s0, p, order[0]), order[1..]);
    }
  }

  /** The job preserves the store's integrity. */
  lemma RunSettleValid(s0: State, p: State, order: seq<int>)
    requires Covers(s0, p, order) && Valid(p)
    ensures Valid(RunSettle(s0, p, order).state)
  {
    RunSettleEffects(s0, p, order);
  }

  /** The owner of the `j`-th row of `order` in the snapshot. */
  function Owner(s0: State, order: seq<int>, j: int): int
    requires 0 <= j < |order| && order[j] in s0.investments
  {
    s0.investments[order[j]].userId
  }

  /**
   * The balance the loop leaves to each user: untouched when none of the user's rows was
   * settled, and otherwise the snapshot balance plus the payout of the user's LAST settled
   * row alone, since every settlement writes the balance from the snapshot.
   */
  lemma RunSettleBalance(s0: State, p: State, order: seq<int>, u: int)
    requires Covers(s0, p, order) && u in p.wallets
    ensures var r := RunSettle(s0, p, order);
      && ((forall j | 0 <= j < r.count :: Owner(s0, order, j) != u) ==> r.state.wallets[u] == p.wallets[u])
      && (forall j | 0 <= j < r.count && Owner(s0, order, j) == u
                     && (forall i | j < i < r.count :: Owner(s0, order, i) != u) ::
            r.state.wallets[u] == p.wallets[u].(balance := s0.wallets[u].balance + Payout(s0, order[j])))
  {
    RunSettleUntouchedIf(s0, p, order, u);
    RunSettleLastAll(s0, p, order, u);
  }

  /** `RunSettleUntouched` as an implication, for any order. */
  lemma RunSettleUntouchedIf(s0: State, p: State, order: seq<int>, u: int)
    requires Covers(s0, p, order) && u in p.wallets
    ensures var r := RunSettle(s0, p, order);
      (forall j | 0 <= j < r.count :: Owner(s0, order, j) != u) ==> r.state.wallets[u] == p.wallets[u]
  {
    var r := RunSettle(s0, p, order);
    if forall j | 0 <= j < r.count :: Owner(s0, order, j) != u {
      RunSettleUntouched(s0, p, order, u);
    }
  }

  /** `RunSettleLast` for whichever row is the user's last settled one. */
  lemma RunSettleLastAll(s0: State, p: State, order: seq<int>, u: int)
    requires Covers(s0, p, order) && u in p.wallets
    ensures var r := RunSettle(s0, p, order);
      forall j | 0 <= j < r.count && Owner(s0, order, j) == u
                 && (forall i | j < i < r.count :: Owner(s0, order, i) != u) ::
        r.state.wallets[u] == p.wallets[u].(balance := s0.wallets[u].balance + Payout(s0, order[j]))
  {
    var r := RunSettle(s0, p, order);
    forall j | 0 <= j < r.count && Owner(s0, order, j) == u
               && (forall i | j < i < r.count :: Owner(s0, order, i) != u)
      ensures r.state.wallets[u] == p.wallets[u].(balance := s0.wallets[u].balance + Payout(s0, order[j]))
    {
      RunSettleLast(s0, p, order, u, j);
    }
  }

  /** A user none of whose rows the loop settles keeps the wallet as it was. */
  lemma {:induction false} RunSettleUntouched(s0: State, p: State, order: seq<int>, u: int)
    requires Covers(s0, p, order) && u in p.wallets
    requires forall j | 0 <= j < RunSettle(s0, p, order).count :: Owner(s0, order, j) != u
    ensures RunSettle(s0, p, order).state.wallets[u] == p.wallets[u]
    decreases |order|
  {
    if order != [] && Settleable(s0, order[0]) {
      var r := RunSettle(s0, p, order);
      var p1 := SettleOne(s0, p, order[0]);
      RunSettleStep(s0, p, order);
      var rest := RunSettle(s0, p1, order[1..]);
      assert Owner(s0, order, 0) != u;
      forall i | 0 <= i < rest.count
        ensures Owner(s0, order[1..], i) != u
      {
        assert Owner(s0, order, i + 1) != u;
      }
      RunSettleUntouched(s0, p1, order[1..], u);
    }
  }

  /** The wallet of a user whose last settled row is the `j`-th holds that row's payout alone. */
  lemma {:induction false} RunSettleLast(s0: State, p: State, order: seq<int>, u: int, j: nat)
    requires Covers(s0, p, order) && u in p.wallets
    requires j < RunSettle(s0, p, order).count && Owner(s0, order, j) == u
    requires forall i | j < i < RunSettle(s0, p, order).count :: Owner(s0, order, i) != u
    ensures RunSettle(s0, p, order).state.wallets[u]
            == p.wallets[u].(balance := s0.wallets[u].balance + Payout(s0, order[j]))
    decreases j
  {
    var r := RunSettle(s0, p, order);
    var p1 := SettleOne(s0, p, order[0]);
    RunSettleStep(s0, p, order);
    var rest := RunSettle(s0, p1, order[1..]);
    assert r.count == rest.count + 1;
    if j == 0 {
      forall i | 0 <= i < rest.count
        ensures Owner(s0, order[1..], i) != u
      {
        assert Owner(s0, order, i + 1) != u;
      }
      RunSettleUntouched(s0, p1, order[1..], u);
    } else {
      forall i | j - 1 < i < rest.count
        ensures Owner(s0, order[1..], i) != u
      {
        assert Owner(s0, order, i + 1) != u;
      }
      assert order[j] == order[1..][j - 1];
      RunSettleLast(s0, p1, order[1..], u, j - 1);
    }
  }

  /**
   * A user with one matured investment settled in a sweep ends at snapshot balance +
   * principal + profit, whatever other users' rows the sweep settles, and that investment
   * is completed.
   */
  lemma SettleSingle(s0: State, order: seq<int>, k: int)
    requires Covers(s0, s0, order) && 0 <= k < RunSettle(s0, s0, order).count
    requires forall i | 0 <= i < |order| && i != k :: Owner(s0, order, i) != Owner(s0, order, k)
    ensures var r := RunSettle(s0, s0, order);
            var inv := s0.investments[order[k]];
            && r.state.wallets[inv.userId].balance
               == s0.wallets[inv.userId].balance + inv.amount + Profit(inv.amount, s0.plans[inv.planId].roi)
            && r.state.investments[order[k]].status == InvestmentStatus.Completed
  {
    SettleSingleBalance(s0, order, k);
    RunSettleSettled(s0, s0, order);
  }

  /** The balance half of `SettleSingle`, in terms of `Payout`. */
  lemma SettleSingleBalance(s0: State, order: seq<int>, k: int)
    requires Covers(s0, s0, order) && 0 <= k < RunSettle(s0, s0, order).count
    requires forall i | 0 <= i < |order| && i != k :: Owner(s0, order, i) != Owner(s0, order, k)
    ensures var u := Owner(s0, order, k);
            RunSettle(s0, s0, order).state.wallets[u].balance == s0.wallets[u].balance + Payout(s0, order[k])
  {
    var r := RunSettle(s0, s0, order);
    var u := Owner(s0, order, k);
    forall i | k < i < r.count
      ensures Owner(s0, order, i) != u
    {
    }
    RunSettleLast(s0, s0, order, u, k);
  }

  /**
   * The lost update: with two matured investments of one user in one sweep, the second
   * write starts again from the snapshot balance, so only the last payout is kept.
   */
  lemma {:induction false} LostUpdate(s0: State, a: int, b: int)
    requires a != b && a in s0.investments && b in s0.investments
    requires Settleable(s0, a) && Settleable(s0, b)
    requires s0.investments[a].userId == s0.investments[b].userId
    ensures var u := s0.investments[a].userId;
            var r := RunSettle(s0, s0, [a, b]);
            && r.count == 2
            && r.state.wallets[u].balance == s0.wallets[u].balance + Payout(s0, b)
            && (Payout(s0, a) != 0.0 ==>
                  r.state.wallets[u].balance != s0.wallets[u].balance + Payout(s0, a) + Payout(s0, b))
  {
    var u := s0.investments[a].userId;
    var p1 := SettleOne(s0, s0, a);
    assert [a, b][1..] == [b];
    var p2 := SettleOne(s0, p1, b);
    assert [b][1..] == [];
    assert RunSettle(s0, p2, []) == Sweep(p2, 0);
    assert RunSettle(s0, p1, [b]) == Sweep(p2, 1);
    assert RunSettle(s0, s0, [a, b]) == Sweep(p2, 2);
  }

  /**
   * After a sweep that processed every matured investment at `now`, none is matured any
   * more, so a second sweep at the same `now` selects nothing and credits nothing.
   */
  lemma {:induction false} SecondSweepSelectsNothing(s0: State, order: seq<int>, now: int)
    requires Enumerates(order, MaturedIds(s0, now)) && Covers(s0, s0, order)
    requires RunSettle(s0, s0, order).count == |order|
    ensures var after := RunSettle(s0, s0, order).state;
            && MaturedIds(after, now) == {}
            && forall o | Enumerates(o, MaturedIds(after, now)) ::
                 o == [] && RunSettle(after, after, o) == Sweep(after, 0)
  {
    var r := RunSettle(s0, s0, order);
    RunSettleEffects(s0, s0, order);
    assert order[..r.count] == order;
    forall k | k in r.state.investments
      ensures !Matured(r.state.investments[k], now)
    {
      if k in order {
        var j :| 0 <= j < |order| && order[j] == k;
        assert r.state.investments[order[j]].status == InvestmentStatus.Completed;
      } else {
        assert k !in MaturedIds(s0, now);
      }
    }
    assert MaturedIds(r.state, now) == {};
    forall o | Enumerates(o, MaturedIds(r.state, now))
      ensures o == []
    {
      EnumeratesNothing(o);
    }
  }

  /* ---------------------------------------------------------------------------------------
   * The corrected settlement: each iteration increments the balance by its payout.
   * ------------------------------------------------------------------------------------- */

  /** One iteration with an increment: the payout is added to the current balance. */
  function SettleOneIncrement(s0: State, p: State, id: int): State
    requires id in s0.investments && id in p.investments && Settleable(s0, id)
    requires s0.wallets.Keys <= p.wallets.Keys
  {
    var uid := s0.investments[id].userId;
    p.(wallets := Credit(p.wallets, uid, Payout(s0, id)),
       investments := p.investments[id := p.investments[id].(status := InvestmentStatus.Completed)])
  }

  function RunSettleIncrement(s0: State, p: State, order: seq<int>): (r: Sweep)
    requires Covers(s0, p, order)
    ensures r.count <= |order|
    ensures forall j | 0 <= j < r.count :: Settleable(s0, order[j])
    ensures r.count < |order| ==> !Settleable(s0, order[r.count])
    ensures r.state.wallets.Keys == p.wallets.Keys
    decreases |order|
  {
    if order == [] || !Settleable(s0, order[0]) then Sweep(p, 0)
    else
      var rest := RunSettleIncrement(s0, SettleOneIncrement(s0, p, order[0]), order[1..]);
      Sweep(rest.state, rest.count + 1)
  }

  /** Every row of `order` is in the snapshot and settleable. */
  ghost predicate AllSettleable(s0: State, order: seq<int>)
  {
    forall j | 0 <= j < |order| :: order[j] in s0.investments && Settleable(s0, order[j])
  }

  /** The total payout to `u` over the investments of `order`. */
  function PayoutsTo(s0: State, order: seq<int>, u: int): real
    requires AllSettleable(s0, order)
  {
    if order == [] then 0.0
    else
      (if s0.investments[order[0]].userId == u then Payout(s0, order[0]) else 0.0)
      + PayoutsTo(s0, order[1..], u)
  }

  /**
   * With increments, a sweep that gets through `order` raises every balance by the sum
   * of that user's payouts: nothing is lost.
   */
  lemma {:induction false} IncrementCreditsEveryPayout(s0: State, p: State, order: seq<int>, u: int)
    requires Covers(s0, p, order) && u in p.wallets && AllSettleable(s0, order)
    ensures var r := RunSettleIncrement(s0, p, order);
            && r.count == |order|
            && r.state.wallets[u].balance == p.wallets[u].balance + PayoutsTo(s0, order, u)
    decreases |order|
  {
    if order != [] {
      var p1 := SettleOneIncrement(s0, p, order[0]);
      IncrementCreditsEveryPayout(s0, p1, order[1..], u);
    }
  }

  /* ---------------------------------------------------------------------------------------
   * Expiry of stale pending transactions.
   * ------------------------------------------------------------------------------------- */

  const HourMs := 60 * 60 * 1000

  /** The expiry query: status `pending` and created at or before one hour ago. */
  predicate Stale(t: Transaction, now: int)
  {
    t.status == Pending && t.createdAt <= now - HourMs
  }

  ghost function StaleIds(s: State, now: int): set<int>
  {
    set k | k in s.txs && Stale(s.txs[k], now)
  }

  /** The `updateMany` that marks stale transactions expired; `count` is its row count. */
  function ExpireStale(s: State, now: int): (r: Sweep)
    requires Valid(s)
    ensures Valid(r.state)
    ensures r.state == s.(txs := r.state.txs)
    ensures r.state.txs.Keys == s.txs.Keys
    ensures forall k | k in s.txs && Stale(s.txs[k], now) ::
              r.state.txs[k] == s.txs[k].(status := Expired)
    ensures forall k | k in s.txs && !Stale(s.txs[k], now) :: r.state.txs[k] == s.txs[k]
    ensures r.count == |StaleIds(s, now)|
  {
    var txs := map k | k in s.txs :: if Stale(s.txs[k], now) then s.txs[k].(status := Expired) else s.txs[k];
    Sweep(s.(txs := txs), |set k | k in s.txs && Stale(s.txs[k], now)|)
  }

  /** Expiring twice at the same `now` finds nothing the second time. */
  lemma {:induction false} ExpireIdempotent(s: State, now: int)
    requires Valid(s)
    ensures var once := ExpireStale(s, now).state;
            ExpireStale(once, now) == Sweep(once, 0)
  {
    var once := ExpireStale(s, now).state;
    forall k | k in once.txs
      ensures !Stale(once.txs[k], now)
    {
      assert k in s.txs;
    }
    assert StaleIds(once, now) == {};
    var twice := ExpireStale(once, now).state;
    assert twice.txs == once.txs;
  }

  /** The boundary is inclusive: a pending transaction exactly one hour old expires. */
  lemma ExpiryBoundary(s: State, id: int, now: int)
    requires Valid(s) && id in s.txs && s.txs[id].status == Pending
    ensures s.txs[id].createdAt == now - 3_600_000 ==> ExpireStale(s, now).state.txs[id].status == Expired
    ensures s.txs[id].createdAt == now - 3_599_999 ==> ExpireStale(s, now).state.txs[id].status == Pending
  {
  }
}
