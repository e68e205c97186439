/**
 * The database as one mutable object, and every handler and job as a method on it.
 *
 * Each table is a field holding a map from primary key to row, next to the table's
 * auto-increment counter. A method performs the same store updates, in the same order, as
 * the handler or job it models, and its contract ties the store afterwards (and its
 * response) to the value-level definition of that handler applied to the store before.
 * The properties of each handler are proved about those definitions.
 */
module Store {
  import opened Domain
  import Transactions
  import Investments
  import Admin
  import Maturity
  import DepositCron
  import Auth = Signup
  import Middleware
  import PlanSeeds
  import Listing

  class Store {
    var users: map<int, User>
    var wallets: map<int, Wallet>
    var plans: map<int, Plan>
    var investments: map<int, Investment>
    var txs: map<int, Transaction>
    var nextUser: int
    var nextWallet: int
    var nextPlan: int
    var nextInvestment: int
    var nextTx: int

    /** The whole store as a value. */
    function Snapshot(): State
      reads this
    {
      State(users, wallets, plans, investments, txs, nextUser, nextWallet, nextPlan, nextInvestment, nextTx)
    }

    ghost predicate Valid()
      reads this
    {
      Domain.Valid(Snapshot())
    }

    /** An empty database: no rows, every counter at 1. */
    constructor ()
      ensures Valid() && Snapshot() == Empty
    {
      users, wallets, plans, investments, txs := map[], map[], map[], map[], map[];
      nextUser, nextWallet, nextPlan, nextInvestment, nextTx := 1, 1, 1, 1, 1;
    }

    /** POST /auth/signup. */
    method Signup(email: Option<string>, password: Option<string>, name: Option<string>,
                  country: Option<string>, phone: Option<string>) returns (out: Result<Auth.Account>)
      requires Valid()
      modifies this
      ensures Valid()
      ensures var r := Auth.Signup(old(Snapshot()), email, password, name, country, phone);
              Snapshot() == r.next && out == r.out
    {
      if email.None? {
        return Err(StoreError);
      }
      if Auth.EmailTaken(users, email.value) {
        return Err(EmailExists);
      }
      if password.None? {
        return Err(StoreError);
      }
      var hashed := Auth.Hash(password.value);
      var u := User(nextUser, email.value, hashed, name, country, phone);
      var w := Wallet(nextWallet, 0.0);
      users := users[u.id := u];
      wallets := wallets[u.id := w];
      nextUser, nextWallet := nextUser + 1, nextWallet + 1;
      var token := Auth.Signed(Middleware.Payload(u.id, u.email, None), "1d");
      return Ok(Auth.Account(u, w, token));
    }

    /** POST /transactions/deposit. */
    method RequestDeposit(uid: int, amount: Option<real>, via: Option<string>, now: int)
      returns (out: Result<Transaction>)
      requires Valid()
      modifies this
      ensures Valid()
      ensures var r := Transactions.RequestDeposit(old(Snapshot()), uid, amount, via, now);
              Snapshot() == r.next && out == r.out
    {
      if !Transactions.AmountGiven(amount) || !Transactions.TextGiven(via) {
        return Err(MissingFields);
      }
      var t := Transaction(nextTx, uid, Deposit, amount.value, via.value, None, Pending, now);
      txs := txs[t.id := t];
      nextTx := nextTx + 1;
      return Ok(t);
    }

    /** POST /transactions/withdraw: the request is recorded, then the amount is taken. */
    method RequestWithdraw(uid: int, amount: Option<real>, via: Option<string>,
                           address: Option<string>, now: int) returns (out: Result<Transaction>)
      requires Valid()
      modifies this
      ensures Valid()
      ensures var r := Transactions.RequestWithdraw(old(Snapshot()), uid, amount, via, address, now);
              Snapshot() == r.next && out == r.out
    {
      if !Transactions.WithdrawFieldsGiven(amount, via, address) {
        return Err(MissingFields);
      }
      if uid !in wallets || wallets[uid].balance < amount.value {
        return Err(InsufficientBalance);
      }
      var t := Transaction(nextTx, uid, Withdraw, amount.value, via.value, address, Pending, now);
      txs := txs[t.id := t];
      nextTx := nextTx + 1;
      wallets := wallets[uid := wallets[uid].(balance := wallets[uid].balance - t.amount)];
      return Ok(t);
    }

    /** POST /investments: the principal is taken, then the investment is recorded. */
    method Subscribe(uid: int, planId: int, amount: real, now: int) returns (out: Result<Investment>)
      requires Valid()
      modifies this
      ensures Valid()
      ensures var r := Investments.Subscribe(old(Snapshot()), uid, planId, amount, now);
              Snapshot() == r.next && out == r.out
    {
      if planId !in plans {
        return Err(PlanNotFound);
      }
      var plan := plans[planId];
      if amount < plan.minAmount {
        return Err(BelowMinimum);
      }
      if uid !in wallets {
        return Err(WalletNotFound);
      }
      if wallets[uid].balance < amount {
        return Err(InsufficientBalance);
      }
      wallets := wallets[uid := wallets[uid].(balance := wallets[uid].balance - amount)];
      var inv := Investment(nextInvestment, uid, planId, amount, now,
                            Investments.EndDate(now, plan.duration), Active);
      investments := investments[inv.id := inv];
      nextInvestment := nextInvestment + 1;
      return Ok(inv);
    }

    /** The status write, then (when `credit` holds) the wallet increment, of a decision. */
    method Decide(id: int, status: TxStatus, credit: bool) returns (out: Result<Transaction>)
      requires Valid()
      modifies this
      ensures Valid()
      ensures var r := Admin.Decide(old(Snapshot()), id, status, credit);
              Snapshot() == r.next && out == r.out
    {
      if id !in txs {
        return Err(StoreError);
      }
      var t := txs[id].(status := status);
      txs := txs[id := t];
      if credit {
        if t.userId !in wallets {
          return Err(StoreError);
        }
        wallets := wallets[t.userId := wallets[t.userId].(balance := wallets[t.userId].balance + t.amount)];
      }
      return Ok(t);
    }

    /** POST /admin/deposits/:id/approve. */
    method ApproveDeposit(id: int) returns (out: Result<Transaction>)
      requires Valid()
      modifies this
      ensures Valid()
      ensures var r := Admin.ApproveDeposit(old(Snapshot()), id); Snapshot() == r.next && out == r.out
    {
      out := Decide(id, Approved, true);
    }

    /** POST /admin/deposits/:id/reject. */
    method RejectDeposit(id: int) returns (out: Result<Transaction>)
      requires Valid()
      modifies this
      ensures Valid()
      ensures var r := Admin.RejectDeposit(old(Snapshot()), id); Snapshot() == r.next && out == r.out
    {
      out := Decide(id, Rejected, false);
    }

    /** POST /admin/withdrawals/:id/approve. */
    method ApproveWithdrawal(id: int) returns (out: Result<Transaction>)
      requires Valid()
      modifies this
      ensures Valid()
      ensures var r := Admin.ApproveWithdrawal(old(Snapshot()), id); Snapshot() == r.next && out == r.out
    {
      out := Decide(id, Approved, false);
    }

    /** POST /admin/withdrawals/:id/reject. */
    method RejectWithdrawal(id: int) returns (out: Result<Transaction>)
      requires Valid()
      modifies this
      ensures Valid()
      ensures var r := Admin.RejectWithdrawal(old(Snapshot()), id); Snapshot() == r.next && out == r.out
    {
      out := Decide(id, Rejected, true);
    }

    /** POST /admin/plans. */
    method CreatePlan(name: string, description: Option<string>, minAmount: real, roi: real,
                      duration: int, now: int) returns (out: Result<Plan>)
      requires Valid()
      modifies this
      ensures Valid()
      ensures var r := Admin.CreatePlan(old(Snapshot()), name, description, minAmount, roi, duration, now);
              Snapshot() == r.next && out == r.out
    {
      if Admin.NameTaken(plans, name, None) {
        return Err(StoreError);
      }
      var p := Plan(nextPlan, name, description, minAmount, roi, duration, now);
      plans := plans[p.id := p];
      nextPlan := nextPlan + 1;
      return Ok(p);
    }

    /** PUT /admin/plans/:id. */
    method UpdatePlan(id: int, name: Option<string>, description: Option<string>, minAmount: real,
                      roi: real, duration: int) returns (out: Result<Plan>)
      requires Valid()
      modifies this
      ensures Valid()
      ensures var r := Admin.UpdatePlan(old(Snapshot()), id, name, description, minAmount, roi, duration);
              Snapshot() == r.next && out == r.out
    {
      if id !in plans || (name.Some? && Admin.NameTaken(plans, name.value, Some(id))) {
        return Err(StoreError);
      }
      var p := plans[id];
      if name.Some? {
        p := p.(name := name.value);
      }
      if description.Some? {
        p := p.(description := description);
      }
      p := p.(minAmount := minAmount, roi := roi, duration := duration);
      plans := plans[id := p];
      return Ok(p);
    }

    /** DELETE /admin/plans/:id. */
    method DeletePlan(id: int) returns (out: Result<Plan>)
      requires Valid()
      modifies this
      ensures Valid()
      ensures var r := Admin.DeletePlan(old(Snapshot()), id); Snapshot() == r.next && out == r.out
    {
      if id !in plans {
        return Err(StoreError);
      }
      var p := plans[id];
      plans := plans - {id};
      return Ok(p);
    }

    /**
     * The daily maturity job. `order` is the order in which the selected rows were
     * processed (the store gives none) and `settled` how many were settled before the loop
     * ended, normally or at a row that made it throw.
     */
    method SettleMatured(now: int) returns (order: seq<int>, settled: nat)
      requires Valid()
      modifies this
      ensures Valid()
      ensures Enumerates(order, Maturity.MaturedIds(old(Snapshot()), now))
      ensures Maturity.Covers(old(Snapshot()), old(Snapshot()), order)
      ensures var r := Maturity.RunSettle(old(Snapshot()), old(Snapshot()), order);
              Snapshot() == r.state && settled == r.count
    {
      var s0 := Snapshot();
      var selected := set k | k in investments && Maturity.Matured(investments[k], now);
      order := Listing.SelectNewest(investments, selected, (inv: Investment) => inv.endDate);
      Maturity.RunSettleValid(s0, s0, order);
      settled := SettleEach(s0, order);
    }

    /** The loop of the maturity job over the rows `order` of the snapshot `s0`. */
    method SettleEach(s0: State, order: seq<int>) returns (settled: nat)
      requires Maturity.Covers(s0, Snapshot(), order)
      modifies this
      ensures var r := Maturity.RunSettle(s0, old(Snapshot()), order);
              Snapshot() == r.state && settled == r.count
    {
      ghost var final := Maturity.RunSettle(s0, Snapshot(), order);
      settled := 0;
      while settled < |order|
        invariant settled <= |order| && settled <= final.count
        invariant Maturity.Covers(s0, Snapshot(), order[settled..])
        invariant Maturity.RunSettle(s0, Snapshot(), order[settled..])
                  == Maturity.Sweep(final.state, final.count - settled)
      {
        var id := order[settled];
        var inv := s0.investments[id];
        if inv.planId !in s0.plans || inv.userId !in s0.wallets {
          break;
        }
        ghost var before := Snapshot();
        Maturity.RunSettleStep(s0, before, order[settled..]);
        SettleOne(s0, id);
        assert order[settled..][1..] == order[settled + 1..];
        settled := settled + 1;
      }
      if settled == |order| {
        assert order[settled..] == [];
      }
    }

    /**
     * One iteration of the maturity loop for the snapshot row `id`: the balance is written
     * as the snapshot balance plus principal plus profit, then the investment is completed.
     */
    method SettleOne(s0: State, id: int)
      requires id in s0.investments && id in investments && Maturity.Settleable(s0, id)
      requires s0.wallets.Keys <= wallets.Keys
      modifies this
      ensures Snapshot() == Maturity.SettleOne(s0, old(Snapshot()), id)
    {
      var inv := s0.investments[id];
      var profit := Maturity.Profit(inv.amount, s0.plans[inv.planId].roi);
      wallets := wallets[inv.userId := wallets[inv.userId].(balance := s0.wallets[inv.userId].balance + inv.amount + profit)];
      investments := investments[id := investments[id].(status := InvestmentStatus.Completed)];
    }

    /** The ten-minute expiry job: one `updateMany`, returning its row count. */
    method ExpireStale(now: int) returns (count: nat)
      requires Valid()
      modifies this
      ensures Valid()
      ensures var r := Maturity.ExpireStale(old(Snapshot()), now); Snapshot() == r.state && count == r.count
    {
      count := |set k | k in txs && Maturity.Stale(txs[k], now)|;
      txs := map k | k in txs :: if Maturity.Stale(txs[k], now) then txs[k].(status := Expired) else txs[k];
    }

    /**
     * The per-minute deposit job. `order` is the order in which the pending deposits were
     * processed and `credited` how many were credited before the loop ended.
     */
    method ProcessPendingDeposits() returns (order: seq<int>, credited: nat)
      requires Valid()
      modifies this
      ensures Valid()
      ensures Enumerates(order, DepositCron.PendingDepositIds(old(Snapshot())))
      ensures DepositCron.Loaded(old(Snapshot()), old(Snapshot()), order)
      ensures var r := DepositCron.RunDeposits(old(Snapshot()), old(Snapshot()), order);
              Snapshot() == r.state && credited == r.count
    {
      var s0 := Snapshot();
      var selected := set k | k in txs && DepositCron.PendingDeposit(txs[k]);
      order := Listing.SelectNewest(txs, selected, (t: Transaction) => t.createdAt);
      DepositCron.RunDepositsValid(s0, s0, order);
      credited := CompleteEach(s0, order);
    }

    /** The loop of the deposit job over the rows `order` of the snapshot `s0`. */
    method CompleteEach(s0: State, order: seq<int>) returns (credited: nat)
      requires DepositCron.Loaded(s0, Snapshot(), order)
      modifies this
      ensures var r := DepositCron.RunDeposits(s0, old(Snapshot()), order);
              Snapshot() == r.state && credited == r.count
    {
      ghost var final := DepositCron.RunDeposits(s0, Snapshot(), order);
      credited := 0;
      while credited < |order|
        invariant credited <= |order| && credited <= final.count
        invariant DepositCron.Loaded(s0, Snapshot(), order[credited..])
        invariant DepositCron.RunDeposits(s0, Snapshot(), order[credited..])
                  == Maturity.Sweep(final.state, final.count - credited)
      {
        var id := order[credited];
        var t := s0.txs[id];
        ghost var before := Snapshot();
        assert order[credited..][1..] == order[credited + 1..];
        DepositCron.RunDepositsStep(s0, before, order[credited..]);
        MarkCompleted(id);
        ghost var p1 := Snapshot();
        assert p1 == before.(txs := before.txs[id := before.txs[id].(status := TxStatus.Completed)]);
        if t.userId !in wallets {
          break;
        }
        Increment(t.userId, t.amount);
        assert Snapshot() == p1.(wallets := Credit(p1.wallets, t.userId, t.amount));
        credited := credited + 1;
      }
      if credited == |order| {
        assert order[credited..] == [];
      }
    }

    /** `transaction.update({ where: { id }, data: { status: "completed" } })`. */
    method MarkCompleted(id: int)
      requires id in txs
      modifies this
      ensures Snapshot() == old(Snapshot()).(txs := old(txs)[id := old(txs)[id].(status := TxStatus.Completed)])
    {
      txs := txs[id := txs[id].(status := TxStatus.Completed)];
    }

    /** `wallet.update({ where: { userId }, data: { balance: { increment: amount } } })`. */
    method Increment(uid: int, amount: real)
      requires uid in wallets
      modifies this
      ensures Snapshot() == old(Snapshot()).(wallets := Credit(old(wallets), uid, amount))
    {
      wallets := wallets[uid := wallets[uid].(balance := wallets[uid].balance + amount)];
    }

    /** `investmentPlan.upsert({ where: { name }, update: plan, create: plan })`. */
    method UpsertOverwrite(seed: PlanSeeds.Seed, now: int)
      requires Valid()
      modifies this
      ensures Valid()
      ensures Snapshot() == PlanSeeds.UpsertOverwrite(old(Snapshot()), seed, now)
    {
      if PlanSeeds.Named(plans, seed.name) {
        var k := PlanSeeds.KeyOf(plans, seed.name);
        var p := plans[k].(minAmount := seed.minAmount, roi := seed.roi, duration := seed.duration);
        if seed.description.Some? {
          p := p.(description := seed.description);
        }
        plans := plans[k := p];
      } else {
        var p := Plan(nextPlan, seed.name, seed.description, seed.minAmount, seed.roi, seed.duration, now);
        plans := plans[p.id := p];
        nextPlan := nextPlan + 1;
      }
    }

    /** `investmentPlan.upsert({ where: { name }, update: {}, create: plan })`. */
    method UpsertKeep(seed: PlanSeeds.Seed, now: int)
      requires Valid()
      modifies this
      ensures Valid()
      ensures Snapshot() == PlanSeeds.UpsertKeep(old(Snapshot()), seed, now)
    {
      if !PlanSeeds.Named(plans, seed.name) {
        var p := Plan(nextPlan, seed.name, seed.description, seed.minAmount, seed.roi, seed.duration, now);
        plans := plans[p.id := p];
        nextPlan := nextPlan + 1;
      }
    }

    /** The seed route's loop over `seeds`, one overwriting upsert each, in list order. */
    method OverwriteEach(seeds: seq<PlanSeeds.Seed>, now: int)
      requires Valid()
      modifies this
      ensures Valid()
      ensures Snapshot() == PlanSeeds.OverwriteAll(old(Snapshot()), seeds, now)
    {
      ghost var final := PlanSeeds.OverwriteAll(Snapshot(), seeds, now);
      for i := 0 to |seeds|
        invariant Valid()
        invariant PlanSeeds.OverwriteAll(Snapshot(), seeds[i..], now) == final
      {
        assert seeds[i..][1..] == seeds[i + 1..];
        UpsertOverwrite(seeds[i], now);
      }
      assert seeds[|seeds|..] == [];
    }

    /** The seed script's loop over `seeds`, one keep-existing upsert each, in list order. */
    method KeepEach(seeds: seq<PlanSeeds.Seed>, now: int)
      requires Valid()
      modifies this
      ensures Valid()
      ensures Snapshot() == PlanSeeds.KeepAll(old(Snapshot()), seeds, now)
    {
      ghost var final := PlanSeeds.KeepAll(Snapshot(), seeds, now);
      for i := 0 to |seeds|
        invariant Valid()
        invariant PlanSeeds.KeepAll(Snapshot(), seeds[i..], now) == final
      {
        assert seeds[i..][1..] == seeds[i + 1..];
        UpsertKeep(seeds[i], now);
      }
      assert seeds[|seeds|..] == [];
    }

    /** POST /investment-plans/seed. */
    method SeedPlansOverwrite(now: int)
      requires Valid()
      modifies this
      ensures Valid()
      ensures Snapshot() == PlanSeeds.OverwriteAll(old(Snapshot()), PlanSeeds.RouteSeeds, now)
    {
      OverwriteEach(PlanSeeds.RouteSeeds, now);
    }

    /** The seed script's `main`. */
    method SeedPlansKeep(now: int)
      requires Valid()
      modifies this
      ensures Valid()
      ensures Snapshot() == PlanSeeds.KeepAll(old(Snapshot()), PlanSeeds.ScriptSeeds, now)
    {
      KeepEach(PlanSeeds.ScriptSeeds, now);
    }
  }
}
