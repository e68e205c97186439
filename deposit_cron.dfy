/**
 * The per-minute job of src/jobs/cron.js that completes pending deposits without an
 * administrator.
 *
 * It loads every deposit whose status is `pending`, then for each one first writes the
 * status `completed` and then increments the owner's balance by the amount. A missing
 * wallet makes the increment throw: the loop stops there, after that deposit's status
 * has already been written.
 */
module DepositCron {
  import opened Domain
  import Maturity

  /** The job's query: a deposit still pending. */
  predicate PendingDeposit(t: Transaction)
  {
    t.kind == Deposit && t.status == Pending
  }

  ghost function PendingDepositIds(s: State): set<int>
  {
    set k | k in s.txs && PendingDeposit(s.txs[k])
  }

  /** Every row the loop visits is in the snapshot `s0`; `p` has the same rows. */
  ghost predicate Loaded(s0: State, p: State, order: seq<int>)
  {
    (forall j | 0 <= j < |order| :: order[j] in s0.txs) && p.txs.Keys == s0.txs.Keys
  }

  /** The loop over `order`, reading each row from the snapshot `s0`, writing into `p`. */
  function RunDeposits(s0: State, p: State, order: seq<int>): (r: Maturity.Sweep)
    requires Loaded(s0, p, order)
    ensures r.count <= |order|
    ensures forall j | 0 <= j < r.count :: s0.txs[order[j]].userId in p.wallets
    ensures r.count < |order| ==> s0.txs[order[r.count]].userId !in p.wallets
    ensures r.state.txs.Keys == p.txs.Keys && r.state.wallets.Keys == p.wallets.Keys
    ensures r.state == p.(txs := r.state.txs, wallets := r.state.wallets)
    decreases |order|
  {
    if order == [] then Maturity.Sweep(p, 0)
    else
      var t := s0.txs[order[0]];
      var p1 := p.(txs := p.txs[order[0] := p.txs[order[0]].(status := TxStatus.Completed)]);
      if t.userId !in p1.wallets then Maturity.Sweep(p1, 0)
      else
        var rest := RunDeposits(s0, p1.(wallets := Credit(p1.wallets, t.userId, t.amount)), order[1..]);
        Maturity.Sweep(rest.state, rest.count + 1)
  }

  /** The first iteration: the status write, then either the stop or the credit and the rest. */
  lemma RunDepositsStep(s0: State, p: State, order: seq<int>)
    requires Loaded(s0, p, order) && order != []
    ensures var t := s0.txs[order[0]];
            var p1 := p.(txs := p.txs[order[0] := p.txs[order[0]].(status := TxStatus.Completed)]);
            && (t.userId !in p1.wallets ==> RunDeposits(s0, p, order) == Maturity.Sweep(p1, 0))
            && (t.userId in p1.wallets ==>
                  var p2 := p1.(wallets := Credit(p1.wallets, t.userId, t.amount));
                  var rest := RunDeposits(s0, p2, order[1..]);
                  && Loaded(s0, p2, order[1..])
                  && RunDeposits(s0, p, order) == Maturity.Sweep(rest.state, rest.count + 1))
  {
  }

  /** The sum of the amounts of the deposits of `order` that belong to `u`. */
  function DepositsOf(s0: State, order: seq<int>, u: int): real
    requires forall j | 0 <= j < |order| :: order[j] in s0.txs
  {
    if order == [] then 0.0
    else
      (if s0.txs[order[0]].userId == u then s0.txs[order[0]].amount else 0.0)
      + DepositsOf(s0, order[1..], u)
  }

  /**
   * Because the credit is an increment, every run, including one that stops at a
   * missing wallet, raises each user's balance by the sum of that user's deposits among
   * the rows it credited; the row it stopped at is completed but not credited.
   */
  lemma {:induction false} RunCreditsPrefix(s0: State, p: State, order: seq<int>, u: int)
    requires Loaded(s0, p, order) && u in p.wallets
    ensures var r := RunDeposits(s0, p, order);
            r.state.wallets[u].balance == p.wallets[u].balance + DepositsOf(s0, order[..r.count], u)
    decreases |order|
  {
    var r := RunDeposits(s0, p, order);
    if order == [] {
    } else {
      var t := s0.txs[order[0]];
      var p1 := p.(txs := p.txs[order[0] := p.txs[order[0]].(status := TxStatus.Completed)]);
      if t.userId !in p1.wallets {
        assert order[..r.count] == [];
      } else {
        var p2 := p1.(wallets := Credit(p1.wallets, t.userId, t.amount));
        RunCreditsPrefix(s0, p2, order[1..], u);
        var rest := RunDeposits(s0, p2, order[1..]);
        assert order[..r.count] == [order[0]] + order[1..][..rest.count];
        assert order[..r.count][1..] == order[1..][..rest.count];
      }
    }
  }

  /** A run that gets through `order` raises each user's balance by all of that user's deposits in it. */
  lemma RunCreditsSum(s0: State, p: State, order: seq<int>, u: int)
    requires Loaded(s0, p, order) && u in p.wallets
    requires RunDeposits(s0, p, order).count == |order|
    ensures RunDeposits(s0, p, order).state.wallets[u].balance
            == p.wallets[u].balance + DepositsOf(s0, order, u)
  {
    RunCreditsPrefix(s0, p, order, u);
    assert order[..|order|] == order;
  }

  /** How many rows a run wrote a status to: the credited ones and the one it stopped at. */
  function Visited(count: nat, n: nat): nat
  {
    if count < n then count + 1 else count
  }

  /**
   * The status of each transaction after a run: `completed` if the run reached it
   * (including the one it stopped at), untouched otherwise.
   */
  lemma {:induction false} RunTxAt(s0: State, p: State, order: seq<int>, k: int)
    requires Loaded(s0, p, order) && k in p.txs
    ensures var r := RunDeposits(s0, p, order);
            r.state.txs[k] == if k in order[..Visited(r.count, |order|)]
                              then p.txs[k].(status := TxStatus.Completed) else p.txs[k]
    decreases |order|
  {
    if order != [] {
      var r := RunDeposits(s0, p, order);
      var t := s0.txs[order[0]];
      var p1 := p.(txs := p.txs[order[0] := p.txs[order[0]].(status := TxStatus.Completed)]);
      if t.userId !in p1.wallets {
        assert order[..Visited(r.count, |order|)] == [order[0]];
      } else {
        var p2 := p1.(wallets := Credit(p1.wallets, t.userId, t.amount));
        RunTxAt(s0, p2, order[1..], k);
        var rest := RunDeposits(s0, p2, order[1..]);
        assert Visited(r.count, |order|) == Visited(rest.count, |order| - 1) + 1;
        assert order[..Visited(r.count, |order|)]
            == [order[0]] + order[1..][..Visited(rest.count, |order| - 1)];
      }
    }
  }

  /** The job preserves the store's integrity. */
  lemma {:induction false} RunDepositsValid(s0: State, p: State, order: seq<int>)
    requires Loaded(s0, p, order) && Valid(p)
    ensures Valid(RunDeposits(s0, p, order).state)
    decreases |order|
  {
    if order != [] {
      var t := s0.txs[order[0]];
      var p1 := p.(txs := p.txs[order[0] := p.txs[order[0]].(status := TxStatus.Completed)]);
      if t.userId in p1.wallets {
        RunDepositsValid(s0, p1.(wallets := Credit(p1.wallets, t.userId, t.amount)), order[1..]);
      }
    }
  }

  /**
   * A run over every pending deposit that does not stop early leaves no pending deposit,
   * so an immediate second run selects nothing and changes nothing; withdrawals and
   * deposits that were not pending are untouched.
   */
  lemma {:induction false} RunClearsPending(s0: State, order: seq<int>)
    requires Enumerates(order, PendingDepositIds(s0)) && Loaded(s0, s0, order)
    requires RunDeposits(s0, s0, order).count == |order|
    ensures var after := RunDeposits(s0, s0, order).state;
      && PendingDepositIds(after) == {}
      && (forall k | k in s0.txs && !PendingDeposit(s0.txs[k]) :: after.txs[k] == s0.txs[k])
      && forall o | Enumerates(o, PendingDepositIds(after)) ::
           o == [] && RunDeposits(after, after, o) == Maturity.Sweep(after, 0)
  {
    var r := RunDeposits(s0, s0, order);
    assert order[..Visited(r.count, |order|)] == order;
    forall k | k in s0.txs
      ensures !PendingDeposit(r.state.txs[k])
      ensures !PendingDeposit(s0.txs[k]) ==> r.state.txs[k] == s0.txs[k]
    {
      RunTxAt(s0, s0, order, k);
    }
    assert PendingDepositIds(r.state) == {};
    forall o | Enumerates(o, PendingDepositIds(r.state))
      ensures o == []
    {
      EnumeratesNothing(o);
    }
  }
}
