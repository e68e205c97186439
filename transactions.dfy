/**
 * The user's deposit and withdrawal requests (src/routes/transactions.js).
 *
 * A deposit request only records a pending transaction; a withdrawal request records a
 * pending transaction and takes the amount out of the wallet at once, so the funds are
 * held until an administrator approves or rejects the request.
 */
module Transactions {
  import opened Domain
  import Listing

  /**
   * JavaScript truthiness of the `amount` field: present and not 0. A negative amount
   * is truthy and passes.
   */
  predicate AmountGiven(a: Option<real>)
  {
    a.Some? && a.value != 0.0
  }

  /** JavaScript truthiness of a text field: present and not the empty string. */
  predicate TextGiven(t: Option<string>)
  {
    t.Some? && t.value != ""
  }

  /** POST /transactions/deposit for the authenticated user `uid`. */
  function RequestDeposit(s: State, uid: int, amount: Option<real>, via: Option<string>, now: int)
    : (r: Reply<Transaction>)
    requires Valid(s)
    ensures Valid(r.next)
    ensures r.out.Err? <==> !AmountGiven(amount) || !TextGiven(via)
    ensures r.out.Err? ==> r.out.error == MissingFields && r.next == s
    ensures r.out.Ok? ==>
      var t := r.out.value;
      && t.kind == Deposit && t.status == Pending && t.userId == uid
      && t.amount == amount.value && t.payMethod == via.value && t.address == None
      && t.createdAt == now
      && Inserted(s.txs, r.next.txs, t.id, t)
      && r.next == s.(txs := r.next.txs, nextTx := r.next.nextTx)
  {
    if !AmountGiven(amount) || !TextGiven(via) then Reply(s, Err(MissingFields))
    else
      var t := Transaction(s.nextTx, uid, Deposit, amount.value, via.value, None, Pending, now);
      Reply(s.(txs := s.txs[t.id := t], nextTx := s.nextTx + 1), Ok(t))
  }

  /** The three request fields of a withdrawal are all truthy. */
  predicate WithdrawFieldsGiven(amount: Option<real>, via: Option<string>, address: Option<string>)
  {
    AmountGiven(amount) && TextGiven(via) && TextGiven(address)
  }

  /** POST /transactions/withdraw for the authenticated user `uid`. */
  function RequestWithdraw(s: State, uid: int, amount: Option<real>, via: Option<string>,
                           address: Option<string>, now: int): (r: Reply<Transaction>)
    requires Valid(s)
    ensures Valid(r.next)
    ensures !WithdrawFieldsGiven(amount, via, address) ==> r == Reply(s, Err(MissingFields))
    ensures WithdrawFieldsGiven(amount, via, address)
            && (uid !in s.wallets || s.wallets[uid].balance < amount.value)
            ==> r == Reply(s, Err(InsufficientBalance))
    ensures r.out.Ok? <==>
      WithdrawFieldsGiven(amount, via, address)
      && uid in s.wallets && s.wallets[uid].balance >= amount.value
    ensures r.out.Ok? ==>
      var t := r.out.value;
      && t.kind == Withdraw && t.status == Pending && t.userId == uid
      && t.amount == amount.value && t.payMethod == via.value && t.address == address
      && t.createdAt == now
      && Inserted(s.txs, r.next.txs, t.id, t)
      && OnlyBalanceMoved(s.wallets, r.next.wallets, uid, -t.amount)
      && r.next.wallets[uid].balance >= 0.0
      && r.next == s.(txs := r.next.txs, nextTx := r.next.nextTx, wallets := r.next.wallets)
  {
    if !WithdrawFieldsGiven(amount, via, address) then Reply(s, Err(MissingFields))
    else if uid !in s.wallets || s.wallets[uid].balance < amount.value then
      Reply(s, Err(InsufficientBalance))
    else
      var t := Transaction(s.nextTx, uid, Withdraw, amount.value, via.value, address, Pending, now);
      var s1 := s.(txs := s.txs[t.id := t], nextTx := s.nextTx + 1);
      Reply(s1.(wallets := Credit(s1.wallets, uid, -t.amount)), Ok(t))
  }

  /**
   * Validation is by truthiness only: a negative amount is accepted, and because the
   * "escrow" is a decrement, the withdrawal request raises the caller's balance.
   */
  lemma NegativeWithdrawRaisesBalance(s: State, uid: int, a: real, via: string, address: string, now: int)
    requires Valid(s) && uid in s.wallets && s.wallets[uid].balance >= 0.0
    requires a < 0.0 && via != "" && address != ""
    ensures var r := RequestWithdraw(s, uid, Some(a), Some(via), Some(address), now);
            r.out.Ok? && r.next.wallets[uid].balance > s.wallets[uid].balance
  {
  }

  /** GET /transactions: the caller's own transactions, newest first. */
  function ListOwn(s: State, uid: int): (rows: seq<Transaction>)
    requires Valid(s)
    ensures forall i | 0 <= i < |rows| ::
      rows[i].id in s.txs && s.txs[rows[i].id] == rows[i] && rows[i].userId == uid
    ensures forall k | k in s.txs && s.txs[k].userId == uid :: s.txs[k] in rows
    ensures forall i, j | 0 <= i < j < |rows| ::
      rows[i].id != rows[j].id && rows[i].createdAt >= rows[j].createdAt
  {
    var keys := set k | k in s.txs && s.txs[k].userId == uid;
    var ids := Listing.SelectNewest(s.txs, keys, (t: Transaction) => t.createdAt);
    Listing.RowsCover(s.txs, keys, ids);
    var rows := Listing.Rows(s.txs, ids);
    assert forall i | 0 <= i < |rows| ::
      ids[i] in keys && rows[i] == s.txs[ids[i]] && ids[i] in s.txs && s.txs[ids[i]].id == ids[i];
    rows
  }
}
