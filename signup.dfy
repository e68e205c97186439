/**
 * Account creation (POST /auth/signup in src/routes/auth.js).
 *
 * The handler refuses an email that is already registered; otherwise it hashes the
 * password with bcrypt at cost 10, creates the user and its wallet with balance 0 in one
 * nested create, and signs a token whose payload carries only the new user's id and
 * email, valid for one day. Hashing and signing are opaque here: a digest keeps its input
 * and cost, a token keeps its payload and lifetime.
 */
module Signup {
  import opened Domain
  import Middleware
  import WalletRoute

  /** The bcrypt cost factor the handler hashes with. */
  const BcryptCost := 10

  function Hash(password: string): Digest
  {
    Bcrypt(password, BcryptCost)
  }

  /** A signed token: its claims and its `expiresIn` option. */
  datatype Token = Signed(payload: Middleware.Payload, expiresIn: string)

  /** The response body: the token and the created user with its wallet included. */
  datatype Account = Account(user: User, wallet: Wallet, token: Token)

  predicate EmailTaken(users: map<int, User>, email: string)
  {
    exists k | k in users :: users[k].email == email
  }

  /**
   * POST /auth/signup. An absent `email` makes the unique lookup throw and an absent
   * `password` makes the hashing throw; both answer 500 before anything is written.
   */
  function Signup(s: State, email: Option<string>, password: Option<string>,
                  name: Option<string>, country: Option<string>, phone: Option<string>)
    : (r: Reply<Account>)
    requires Valid(s)
    ensures Valid(r.next)
    ensures email.None? ==> r == Reply(s, Err(StoreError))
    ensures email.Some? && EmailTaken(s.users, email.value) ==> r == Reply(s, Err(EmailExists))
    ensures email.Some? && !EmailTaken(s.users, email.value) && password.None?
            ==> r == Reply(s, Err(StoreError))
    ensures r.out.Ok? <==> email.Some? && !EmailTaken(s.users, email.value) && password.Some?
    ensures r.out.Ok? ==>
      var a := r.out.value;
      && a.user.email == email.value && a.user.password == Hash(password.value)
      && a.user.name == name && a.user.country == country && a.user.phone == phone
      && a.wallet.balance == 0.0
      && Inserted(s.users, r.next.users, a.user.id, a.user)
      && Inserted(s.wallets, r.next.wallets, a.user.id, a.wallet)
      && a.token == Signed(Middleware.Payload(a.user.id, a.user.email, None), "1d")
      && r.next == s.(users := r.next.users, wallets := r.next.wallets,
                      nextUser := r.next.nextUser, nextWallet := r.next.nextWallet)
  {
    if email.None? then Reply(s, Err(StoreError))
    else if EmailTaken(s.users, email.value) then Reply(s, Err(EmailExists))
    else if password.None? then Reply(s, Err(StoreError))
    else
      var u := User(s.nextUser, email.value, Hash(password.value), name, country, phone);
      var w := Wallet(s.nextWallet, 0.0);
      var next := s.(users := s.users[u.id := u], wallets := s.wallets[u.id := w],
                     nextUser := s.nextUser + 1, nextWallet := s.nextWallet + 1);
      Reply(next, Ok(Account(u, w, Signed(Middleware.Payload(u.id, u.email, None), "1d"))))
  }

  /**
   * The token a signup issues carries no role, so whatever the verifier accepts it as,
   * the administrator gate refuses it with 403.
   */
  lemma SignupTokenIsNotAdmin(s: State, email: Option<string>, password: Option<string>,
                              name: Option<string>, country: Option<string>,
                              phone: Option<string>, header: Option<string>,
                              verify: string -> Option<Middleware.Payload>)
    requires Valid(s)
    ensures var r := Signup(s, email, password, name, country, phone);
            r.out.Ok? ==>
              && Middleware.RequireAdmin(Some(r.out.value.token.payload)) == Middleware.Forbidden
              && (Middleware.Authenticate(header, verify) == Middleware.Next(r.out.value.token.payload)
                  ==> Middleware.AdminRoute(header, verify) == Middleware.Forbidden)
  {
  }

  /** Right after signing up, the wallet read shows the new wallet with balance 0. */
  lemma SignupThenReadWallet(s: State, email: Option<string>, password: Option<string>,
                             name: Option<string>, country: Option<string>, phone: Option<string>)
    requires Valid(s)
    ensures var r := Signup(s, email, password, name, country, phone);
            r.out.Ok? ==>
              WalletRoute.ReadWallet(r.next, r.out.value.user.id)
              == WalletRoute.WalletView(Some(r.out.value.wallet.id), 0.0)
  {
  }

  /** Signing up twice with one email: the second attempt is refused and changes nothing. */
  lemma SignupTwiceRefused(s: State, email: string, password: Option<string>,
                           name: Option<string>, country: Option<string>, phone: Option<string>,
                           password2: Option<string>)
    requires Valid(s)
    ensures var r := Signup(s, Some(email), password, name, country, phone);
            r.out.Ok? ==>
              Signup(r.next, Some(email), password2, name, country, phone)
              == Reply(r.next, Err(EmailExists))
  {
    var r := Signup(s, Some(email), password, name, country, phone);
    if r.out.Ok? {
      assert r.next.users[r.out.value.user.id].email == email;
    }
  }
}
