/**
 * The records of the Profit Bliss back end and the in-memory store they live in.
 *
 * Every table of the database becomes a map from its integer primary key to the record;
 * wallets are keyed by the id of the user that owns them (the `userId` column is unique).
 * Amounts are exact `real`s and timestamps are integers counting milliseconds.
 */
module Domain {

  datatype Option<T> = None | Some(value: T)

  /** The error responses the handlers send instead of a record. */
  datatype Failure =
    | MissingFields        // 400: a required request field is absent or falsy
    | InsufficientBalance  // 400
    | BelowMinimum         // 400: amount under the plan's minimum
    | EmailExists          // 400
    | PlanNotFound         // 404
    | WalletNotFound       // 404
    | StoreError           // 500: the store threw (no row to update, unique name taken, ...)

  datatype Result<T> = Ok(value: T) | Err(error: Failure)

  /** The HTTP status code each failure is answered with. */
  function HttpStatus(f: Failure): int
  {
    match f
    case MissingFields | InsufficientBalance | BelowMinimum | EmailExists => 400
    case PlanNotFound | WalletNotFound => 404
    case StoreError => 500
  }

  datatype TxKind = Deposit | Withdraw
  datatype TxStatus = Pending | Approved | Rejected | Expired | Completed
  datatype InvestmentStatus = Active | Completed

  /** A password digest. Hashing is opaque: only the cost factor and the input are kept. */
  datatype Digest = Bcrypt(input: string, cost: nat)

  datatype User = User(id: int, email: string, password: Digest,
                       name: Option<string>, country: Option<string>, phone: Option<string>)

  datatype Wallet = Wallet(id: int, balance: real)

  datatype Plan = Plan(id: int, name: string, description: Option<string>,
                       minAmount: real, roi: real, duration: int, createdAt: int)

  datatype Investment = Investment(id: int, userId: int, planId: int, amount: real,
                                   startDate: int, endDate: int, status: InvestmentStatus)

  datatype Transaction = Transaction(id: int, userId: int, kind: TxKind, amount: real,
                                     payMethod: string, address: Option<string>,
                                     status: TxStatus, createdAt: int)

  /** The whole database: one map per table and the next auto-increment id of each table. */
  datatype State = State(
    users: map<int, User>,
    wallets: map<int, Wallet>,
    plans: map<int, Plan>,
    investments: map<int, Investment>,
    txs: map<int, Transaction>,
    nextUser: int,
    nextWallet: int,
    nextPlan: int,
    nextInvestment: int,
    nextTx: int)

  /** The state of a handler's store after it ran, and its response. */
  datatype Reply<T> = Reply(next: State, out: Result<T>)

  /** Two plans never share a name (the `name` column is unique). */
  ghost predicate NamesUnique(plans: map<int, Plan>)
  {
    forall j, k | j in plans && k in plans && plans[j].name == plans[k].name :: j == k
  }

  /** Two users never share an email (the `email` column is unique). */
  ghost predicate EmailsUnique(users: map<int, User>)
  {
    forall j, k | j in users && k in users && users[j].email == users[k].email :: j == k
  }

  /**
   * What the database guarantees: every row carries its own key, keys lie below the
   * table's auto-increment counter, a wallet belongs to an existing user, emails and plan
   * names are unique.
   */
  ghost predicate Valid(s: State)
  {
    && (forall k | k in s.users :: s.users[k].id == k < s.nextUser)
    && EmailsUnique(s.users)
    && (forall k | k in s.wallets :: k in s.users && s.wallets[k].id < s.nextWallet)
    && (forall k | k in s.plans :: s.plans[k].id == k < s.nextPlan)
    && NamesUnique(s.plans)
    && (forall k | k in s.investments :: s.investments[k].id == k < s.nextInvestment)
    && (forall k | k in s.txs :: s.txs[k].id == k < s.nextTx)
  }

  const Empty := State(map[], map[], map[], map[], map[], 1, 1, 1, 1, 1)

  /** `m2` is `m` with exactly one new entry `k := v`. */
  ghost predicate Inserted<T>(m: map<int, T>, m2: map<int, T>, k: int, v: T)
  {
    k !in m && m2 == m[k := v]
  }

  /** Only the balance of `uid`'s wallet changed, and it moved by exactly `delta`. */
  ghost predicate OnlyBalanceMoved(w: map<int, Wallet>, w2: map<int, Wallet>, uid: int, delta: real)
  {
    && uid in w && w2.Keys == w.Keys
    && w2[uid] == w[uid].(balance := w[uid].balance + delta)
    && forall u | u in w && u != uid :: w2[u] == w[u]
  }

  /** The wallets map with `uid`'s balance raised by `delta` (a store `increment`). */
  function Credit(w: map<int, Wallet>, uid: int, delta: real): (w2: map<int, Wallet>)
    requires uid in w
    ensures OnlyBalanceMoved(w, w2, uid, delta)
  {
    w[uid := w[uid].(balance := w[uid].balance + delta)]
  }

  /** No element occurs twice. */
  ghost predicate Distinct<T>(xs: seq<T>)
  {
    forall i, j | 0 <= i < j < |xs| :: xs[i] != xs[j]
  }

  /** `xs` lists every element of `keys` exactly once. */
  ghost predicate Enumerates(xs: seq<int>, keys: set<int>)
  {
    Distinct(xs) && forall k :: k in xs <==> k in keys
  }

  /** The first element of a listing is one of the listed keys. */
  lemma EnumeratesHead(xs: seq<int>, keys: set<int>)
    requires Enumerates(xs, keys)
    ensures |xs| > 0 ==> xs[0] in keys
  {
    if |xs| > 0 {
      var k: int := xs[0];
      assert k in xs;
    }
  }

  /** Only the empty sequence lists the empty set. */
  lemma EnumeratesNothing(xs: seq<int>)
    requires Enumerates(xs, {})
    ensures xs == []
  {
    EnumeratesHead(xs, {});
  }
}
