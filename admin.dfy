/**
 * The administrator's handlers (src/routes/admin.js): deciding deposit and withdrawal
 * requests and editing investment plans.
 *
 * A decision is two store updates: the transaction's status is written first, then, for an
 * approved deposit or a rejected withdrawal, the owner's wallet is incremented by the
 * transaction's amount. Neither the current status nor the kind of the transaction is
 * checked, and a missing wallet makes the second update throw after the first one has
 * already been applied.
 */
module Admin {
  import opened Domain
  import Listing
  import Transactions

  /** The status write and, when `credit` holds, the wallet increment of one decision. */
  function Decide(s: State, id: int, status: TxStatus, credit: bool): (r: Reply<Transaction>)
    requires Valid(s)
    ensures Valid(r.next)
    ensures id !in s.txs ==> r == Reply(s, Err(StoreError))
    ensures id in s.txs ==>
      var t := s.txs[id].(status := status);
      && r.next.txs == s.txs[id := t]
      && (if credit && t.userId !in s.wallets then r.out == Err(StoreError) else r.out == Ok(t))
      && (credit && t.userId in s.wallets ==>
            && OnlyBalanceMoved(s.wallets, r.next.wallets, t.userId, t.amount)
            && r.next == s.(txs := r.next.txs, wallets := r.next.wallets))
      && (!(credit && t.userId in s.wallets) ==> r.next == s.(txs := r.next.txs))
  {
    if id !in s.txs then Reply(s, Err(StoreError))
    else
      var t := s.txs[id].(status := status);
      var s1 := s.(txs := s.txs[id := t]);
      if !credit then Reply(s1, Ok(t))
      else if t.userId !in s1.wallets then Reply(s1, Err(StoreError))
      else Reply(s1.(wallets := Credit(s1.wallets, t.userId, t.amount)), Ok(t))
  }

  /** POST /admin/deposits/:id/approve. */
  function ApproveDeposit(s: State, id: int): (r: Reply<Transaction>)
    requires Valid(s)
    ensures Valid(r.next)
    ensures id !in s.txs ==> r == Reply(s, Err(StoreError))
    ensures id in s.txs ==> r.next.txs == s.txs[id := s.txs[id].(status := Approved)]
    ensures id in s.txs && s.txs[id].userId in s.wallets ==>
      && r.out == Ok(s.txs[id].(status := Approved))
      && OnlyBalanceMoved(s.wallets, r.next.wallets, s.txs[id].userId, s.txs[id].amount)
    ensures id in s.txs && s.txs[id].userId !in s.wallets ==>
      r.out == Err(StoreError) && r.next.wallets == s.wallets
    ensures id in s.txs ==> r.next == s.(txs := r.next.txs, wallets := r.next.wallets)
  {
    Decide(s, id, Approved, true)
  }

  /** POST /admin/deposits/:id/reject. */
  function RejectDeposit(s: State, id: int): (r: Reply<Transaction>)
    requires Valid(s)
    ensures Valid(r.next)
    ensures r.next.wallets == s.wallets
    ensures id !in s.txs ==> r == Reply(s, Err(StoreError))
    ensures id in s.txs ==>
      && r.out == Ok(s.txs[id].(status := Rejected))
      && r.next == s.(txs := s.txs[id := s.txs[id].(status := Rejected)])
  {
    Decide(s, id, Rejected, false)
  }

  /** POST /admin/withdrawals/:id/approve: the amount was already taken at request time. */
  function ApproveWithdrawal(s: State, id: int): (r: Reply<Transaction>)
    requires Valid(s)
    ensures Valid(r.next)
    ensures r.next.wallets == s.wallets
    ensures id !in s.txs ==> r == Reply(s, Err(StoreError))
    ensures id in s.txs ==>
      && r.out == Ok(s.txs[id].(status := Approved))
      && r.next == s.(txs := s.txs[id := s.txs[id].(status := Approved)])
  {
    Decide(s, id, Approved, false)
  }

  /** POST /admin/withdrawals/:id/reject: the held amount goes back to the wallet. */
  function RejectWithdrawal(s: State, id: int): (r: Reply<Transaction>)
    requires Valid(s)
    ensures Valid(r.next)
    ensures id !in s.txs ==> r == Reply(s, Err(StoreError))
    ensures id in s.txs ==> r.next.txs == s.txs[id := s.txs[id].(status := Rejected)]
    ensures id in s.txs && s.txs[id].userId in s.wallets ==>
      && r.out == Ok(s.txs[id].(status := Rejected))
      && OnlyBalanceMoved(s.wallets, r.next.wallets, s.txs[id].userId, s.txs[id].amount)
    ensures id in s.txs && s.txs[id].userId !in s.wallets ==>
      r.out == Err(StoreError) && r.next.wallets == s.wallets
    ensures id in s.txs ==> r.next == s.(txs := r.next.txs, wallets := r.next.wallets)
  {
    Decide(s, id, Rejected, true)
  }

  /** Approval never looks at the current status: approving one deposit twice credits it twice. */
  lemma {:induction false} ApproveDepositTwiceCreditsTwice(s: State, id: int)
    requires Valid(s) && id in s.txs && s.txs[id].userId in s.wallets
    ensures var uid := s.txs[id].userId;
            var r2 := ApproveDeposit(ApproveDeposit(s, id).next, id);
            && r2.out.Ok?
            && r2.next.wallets[uid].balance == s.wallets[uid].balance + 2.0 * s.txs[id].amount
  {
    var r1 := ApproveDeposit(s, id);
    assert r1.next.txs[id].userId == s.txs[id].userId;
    assert r1.next.txs[id].amount == s.txs[id].amount;
  }

  /**
   * A successful withdrawal request followed by its rejection gives every wallet back
   * its balance from before the request.
   */
  lemma {:induction false} WithdrawThenRejectRestores(s: State, uid: int, amount: Option<real>,
                                                     via: Option<string>, address: Option<string>,
                                                     now: int)
    requires Valid(s)
    ensures var r := Transactions.RequestWithdraw(s, uid, amount, via, address, now);
            r.out.Ok? ==>
              var back := RejectWithdrawal(r.next, r.out.value.id);
              && back.out.Ok? && back.out.value.status == Rejected
              && back.next.wallets == s.wallets
  {
    var r := Transactions.RequestWithdraw(s, uid, amount, via, address, now);
    if r.out.Ok? {
      var t := r.out.value;
      assert r.next.txs[t.id] == t;
      var back := RejectWithdrawal(r.next, t.id);
      assert back.next.wallets[uid] == s.wallets[uid];
    }
  }

  /** A successful withdrawal request followed by its approval leaves the amount taken. */
  lemma WithdrawThenApproveKeepsDebit(s: State, uid: int, amount: Option<real>,
                                      via: Option<string>, address: Option<string>, now: int)
    requires Valid(s)
    ensures var r := Transactions.RequestWithdraw(s, uid, amount, via, address, now);
            r.out.Ok? ==>
              var done := ApproveWithdrawal(r.next, r.out.value.id);
              && done.next.wallets == r.next.wallets
              && done.next.wallets[uid].balance == s.wallets[uid].balance - amount.value
  {
  }

  /** Some plan already carries `name`, other than the plan `except`. */
  predicate NameTaken(plans: map<int, Plan>, name: string, except: Option<int>)
  {
    exists k | k in plans :: plans[k].name == name && Some(k) != except
  }

  /** POST /admin/plans. A duplicate name violates the unique column and the store throws. */
  function CreatePlan(s: State, name: string, description: Option<string>, minAmount: real,
                      roi: real, duration: int, now: int): (r: Reply<Plan>)
    requires Valid(s)
    ensures Valid(r.next)
    ensures r.out.Err? <==> NameTaken(s.plans, name, None)
    ensures r.out.Err? ==> r == Reply(s, Err(StoreError))
    ensures r.out.Ok? ==>
      var p := r.out.value;
      && p.name == name && p.description == description && p.minAmount == minAmount
      && p.roi == roi && p.duration == duration && p.createdAt == now
      && Inserted(s.plans, r.next.plans, p.id, p)
      && r.next == s.(plans := r.next.plans, nextPlan := r.next.nextPlan)
  {
    if NameTaken(s.plans, name, None) then Reply(s, Err(StoreError))
    else
      var p := Plan(s.nextPlan, name, description, minAmount, roi, duration, now);
      Reply(s.(plans := s.plans[p.id := p], nextPlan := s.nextPlan + 1), Ok(p))
  }

  /**
   * PUT /admin/plans/:id. An absent `name` or `description` (JavaScript `undefined`) is
   * left as it was; the three numbers are always written.
   */
  function UpdatePlan(s: State, id: int, name: Option<string>, description: Option<string>,
                      minAmount: real, roi: real, duration: int): (r: Reply<Plan>)
    requires Valid(s)
    ensures Valid(r.next)
    ensures r.out.Err? <==> id !in s.plans || (name.Some? && NameTaken(s.plans, name.value, Some(id)))
    ensures r.out.Err? ==> r == Reply(s, Err(StoreError))
    ensures r.out.Ok? ==>
      var p := r.out.value;
      && p.id == id && p.createdAt == s.plans[id].createdAt
      && p.name == (if name.Some? then name.value else s.plans[id].name)
      && p.description == (if description.Some? then description else s.plans[id].description)
      && p.minAmount == minAmount && p.roi == roi && p.duration == duration
      && r.next.plans.Keys == s.plans.Keys && r.next.plans[id] == p
      && (forall k | k in s.plans && k != id :: r.next.plans[k] == s.plans[k])
      && r.next == s.(plans := r.next.plans)
  {
    if id !in s.plans then Reply(s, Err(StoreError))
    else if name.Some? && NameTaken(s.plans, name.value, Some(id)) then Reply(s, Err(StoreError))
    else
      var current := s.plans[id];
      var p := current.(name := if name.Some? then name.value else current.name,
                     description := if description.Some? then description else current.description,
                     minAmount := minAmount, roi := roi, duration := duration);
      Reply(s.(plans := s.plans[id := p]), Ok(p))
  }

  /** DELETE /admin/plans/:id. */
  function DeletePlan(s: State, id: int): (r: Reply<Plan>)
    requires Valid(s)
    ensures Valid(r.next)
    ensures r.out.Err? <==> id !in s.plans
    ensures r.out.Err? ==> r == Reply(s, Err(StoreError))
    ensures r.out.Ok? ==>
      && r.out.value == s.plans[id]
      && r.next.plans.Keys == s.plans.Keys - {id}
      && (forall k | k in r.next.plans :: r.next.plans[k] == s.plans[k])
      && r.next == s.(plans := r.next.plans)
  {
    if id !in s.plans then Reply(s, Err(StoreError))
    else Reply(s.(plans := s.plans - {id}), Ok(s.plans[id]))
  }

  /** GET /admin/deposits: every deposit, newest first. */
  function ListDeposits(s: State): (rows: seq<Transaction>)
    requires Valid(s)
    ensures forall i | 0 <= i < |rows| ::
      rows[i].id in s.txs && s.txs[rows[i].id] == rows[i] && rows[i].kind == Deposit
    ensures forall k | k in s.txs && s.txs[k].kind == Deposit :: s.txs[k] in rows
    ensures forall i, j | 0 <= i < j < |rows| ::
      rows[i].id != rows[j].id && rows[i].createdAt >= rows[j].createdAt
  {
    var keys := set k | k in s.txs && s.txs[k].kind == Deposit;
    var ids := Listing.SelectNewest(s.txs, keys, (t: Transaction) => t.createdAt);
    Listing.RowsCover(s.txs, keys, ids);
    var rows := Listing.Rows(s.txs, ids);
    assert forall i | 0 <= i < |rows| ::
      ids[i] in keys && rows[i] == s.txs[ids[i]] && ids[i] in s.txs && s.txs[ids[i]].id == ids[i];
    rows
  }

  /** GET /admin/withdrawals: every withdrawal, newest first. */
  function ListWithdrawals(s: State): (rows: seq<Transaction>)
    requires Valid(s)
    ensures forall i | 0 <= i < |rows| ::
      rows[i].id in s.txs && s.txs[rows[i].id] == rows[i] && rows[i].kind == Withdraw
    ensures forall k | k in s.txs && s.txs[k].kind == Withdraw :: s.txs[k] in rows
    ensures forall i, j | 0 <= i < j < |rows| ::
      rows[i].id != rows[j].id && rows[i].createdAt >= rows[j].createdAt
  {
    var keys := set k | k in s.txs && s.txs[k].kind == Withdraw;
    var ids := Listing.SelectNewest(s.txs, keys, (t: Transaction) => t.createdAt);
    Listing.RowsCover(s.txs, keys, ids);
    var rows := Listing.Rows(s.txs, ids);
    assert forall i | 0 <= i < |rows| ::
      ids[i] in keys && rows[i] == s.txs[ids[i]] && ids[i] in s.txs && s.txs[ids[i]].id == ids[i];
    rows
  }

  /** GET /admin/plans: every plan, most recently created first. */
  function ListPlans(s: State): (rows: seq<Plan>)
    requires Valid(s)
    ensures forall i | 0 <= i < |rows| :: rows[i].id in s.plans && s.plans[rows[i].id] == rows[i]
    ensures forall k | k in s.plans :: s.plans[k] in rows
    ensures forall i, j | 0 <= i < j < |rows| ::
      rows[i].id != rows[j].id && rows[i].createdAt >= rows[j].createdAt
  {
    var keys := s.plans.Keys;
    var ids := Listing.SelectNewest(s.plans, keys, (p: Plan) => p.createdAt);
    Listing.RowsCover(s.plans, keys, ids);
    var rows := Listing.Rows(s.plans, ids);
    assert forall i | 0 <= i < |rows| ::
      ids[i] in keys && rows[i] == s.plans[ids[i]] && ids[i] in s.plans && s.plans[ids[i]].id == ids[i];
    rows
  }
}
