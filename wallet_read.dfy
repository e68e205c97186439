/**
 * The wallet read of src/routes/wallet.js: the caller's wallet, looked up by the user id
 * of the authenticated request, or `{ id: null, balance: 0 }` when there is none.
 */
module WalletRoute {
  import opened Domain

  /** The response body: `id` is `null` (here `None`) when the caller has no wallet. */
  datatype WalletView = WalletView(id: Option<int>, balance: real)

  /** GET /wallet for the authenticated user `uid`. Reading changes no state. */
  function ReadWallet(s: State, uid: int): (v: WalletView)
    ensures v.id.Some? <==> uid in s.wallets
    ensures uid in s.wallets ==> v.id.value == s.wallets[uid].id && v.balance == s.wallets[uid].balance
    ensures uid !in s.wallets ==> v.balance == 0.0
  {
    if uid in s.wallets then WalletView(Some(s.wallets[uid].id), s.wallets[uid].balance)
    else WalletView(None, 0.0)
  }

  /**
   * The balance shown never depends on another user's wallet: two stores that agree on
   * `uid`'s wallet (or on its absence) give `uid` the same view.
   */
  lemma ReadWalletIsOwn(s: State, t: State, uid: int)
    requires uid in s.wallets <==> uid in t.wallets
    requires uid in s.wallets ==> s.wallets[uid] == t.wallets[uid]
    ensures ReadWallet(s, uid) == ReadWallet(t, uid)
  {
  }
}
