/**
 * The request gates of src/middleware/auth.js.
 *
 * `authenticateToken` takes the second space-separated field of the Authorization header
 * as the token, answers 401 when there is none (or it is empty), asks the token verifier,
 * answers 403 when verification fails, and otherwise stores the token's payload as the
 * request's user and passes the request on exactly once. `requireAdmin` passes only a
 * user whose payload's role is exactly "admin". Token verification is opaque and is a
 * parameter of the model.
 */
module Middleware {
  import opened Domain

  /** The claims a signed token carries. */
  datatype Payload = Payload(id: int, email: string, role: Option<string>)

  /** What a gate does with the request: 401, 403, or `next()` with `req.user` set. */
  datatype Gate = Unauthorized | Forbidden | Next(user: Payload)

  /** `s.split(sep)` of JavaScript: the pieces between the separators, empty ones included. */
  function Split(s: string, sep: char): (parts: seq<string>)
    ensures |parts| >= 1
    ensures forall i | 0 <= i < |parts| :: sep !in parts[i]
    decreases |s|
  {
    if s == [] then [[]]
    else
      var rest := Split(s[1..], sep);
      if s[0] == sep then [[]] + rest
      else [[s[0]] + rest[0]] + rest[1..]
  }

  /** `parts.join(sep)`: the inverse of `Split`. */
  function Join(parts: seq<string>, sep: char): string
    requires |parts| >= 1
  {
    if |parts| == 1 then parts[0] else parts[0] + [sep] + Join(parts[1..], sep)
  }

  /** Splitting loses nothing: joining the pieces gives the text back. */
  lemma {:induction false} JoinSplit(s: string, sep: char)
    ensures Join(Split(s, sep), sep) == s
    decreases |s|
  {
    if s != [] {
      var rest := Split(s[1..], sep);
      JoinSplit(s[1..], sep);
      if s[0] == sep {
        assert Split(s, sep)[1..] == rest;
      } else if |rest| > 1 {
        assert Split(s, sep)[1..] == rest[1..];
        assert Join(rest, sep) == rest[0] + [sep] + Join(rest[1..], sep);
      }
    }
  }

  /** Splitting a piece with no separator, followed by a separator, peels that piece off. */
  lemma {:induction false} SplitCons(a: string, sep: char, b: string)
    requires sep !in a
    ensures Split(a + [sep] + b, sep) == [a] + Split(b, sep)
    decreases |a|
  {
    if a != [] {
      SplitCons(a[1..], sep, b);
      assert (a + [sep] + b)[1..] == a[1..] + [sep] + b;
      var rest := Split(a[1..] + [sep] + b, sep);
      assert rest[0] == a[1..] && rest[1..] == Split(b, sep);
      assert [a[0]] + a[1..] == a;
    } else {
      assert (a + [sep] + b)[1..] == b;
    }
  }

  /** Joining pieces that hold no separator and splitting again gives the pieces back. */
  lemma {:induction false} SplitJoin(parts: seq<string>, sep: char)
    requires |parts| >= 1 && forall i | 0 <= i < |parts| :: sep !in parts[i]
    ensures Split(Join(parts, sep), sep) == parts
    decreases |parts|
  {
    if |parts| == 1 {
      SplitPlain(parts[0], sep);
    } else {
      SplitJoin(parts[1..], sep);
      SplitCons(parts[0], sep, Join(parts[1..], sep));
    }
  }

  /** A text without the separator is one piece. */
  lemma {:induction false} SplitPlain(a: string, sep: char)
    requires sep !in a
    ensures Split(a, sep) == [a]
    decreases |a|
  {
    if a != [] {
      SplitPlain(a[1..], sep);
      assert [a[0]] + a[1..] == a;
    }
  }

  /** The position of the first `sep` in `s`, or `|s|` when there is none. */
  function FirstIndex(s: string, sep: char): (i: nat)
    ensures i <= |s| && sep !in s[..i] && (i < |s| ==> s[i] == sep)
    decreases |s|
  {
    if s == [] || s[0] == sep then 0
    else
      var i := FirstIndex(s[1..], sep);
      assert s[..i + 1] == [s[0]] + s[1..][..i];
      i + 1
  }

  /** The first piece runs up to the first separator; the others are the split of the rest. */
  lemma {:induction false} SplitAtFirst(s: string, sep: char)
    ensures var i := FirstIndex(s, sep);
            && Split(s, sep)[0] == s[..i]
            && (i == |s| <==> |Split(s, sep)| == 1)
            && (i < |s| ==> Split(s, sep)[1..] == Split(s[i + 1..], sep))
  {
    var i := FirstIndex(s, sep);
    if i < |s| {
      assert s == s[..i] + [sep] + s[i + 1..];
      SplitCons(s[..i], sep, s[i + 1..]);
    } else {
      assert s[..i] == s;
      SplitPlain(s, sep);
    }
  }

  /** `authHeader && authHeader.split(" ")[1]`: `None` stands for a falsy header or `undefined`. */
  function BearerToken(header: Option<string>): Option<string>
  {
    if header.None? || header.value == "" then None
    else
      var parts := Split(header.value, ' ');
      if |parts| < 2 then None else Some(parts[1])
  }

  /**
   * The token is the text between the first and the second space of the header (or the
   * end of the header), and there is none when the header holds no space.
   */
  lemma BearerTokenIsSecondField(h: string)
    ensures var i := FirstIndex(h, ' ');
            && (i == |h| ==> BearerToken(Some(h)) == None)
            && (i < |h| ==> var rest := h[i + 1..];
                            BearerToken(Some(h)) == Some(rest[..FirstIndex(rest, ' ')]))
  {
    var i := FirstIndex(h, ' ');
    SplitAtFirst(h, ' ');
    if i < |h| {
      SplitAtFirst(h[i + 1..], ' ');
      assert Split(h, ' ')[1] == Split(h, ' ')[1..][0];
    }
  }

  /** `authenticateToken`, with the verifier of signed tokens as the parameter `verify`. */
  function Authenticate(header: Option<string>, verify: string -> Option<Payload>): (g: Gate)
    ensures g == Unauthorized <==> BearerToken(header) in {None, Some("")}
    ensures g == Forbidden <==>
      BearerToken(header) !in {None, Some("")} && verify(BearerToken(header).value).None?
    ensures g.Next? ==> Some(g.user) == verify(BearerToken(header).value)
  {
    var token := BearerToken(header);
    if token.None? || token.value == "" then Unauthorized
    else
      match verify(token.value)
      case None => Forbidden
      case Some(user) => Next(user)
  }

  /** `requireAdmin`: `req.user?.role !== "admin"` answers 403. */
  function RequireAdmin(user: Option<Payload>): (g: Gate)
    ensures g.Next? <==> user.Some? && user.value.role == Some("admin")
    ensures g.Next? ==> g.user == user.value
    ensures !g.Next? ==> g == Forbidden
  {
    if user.Some? && user.value.role == Some("admin") then Next(user.value) else Forbidden
  }

  /** The two gates in front of every administrator route. */
  function AdminRoute(header: Option<string>, verify: string -> Option<Payload>): (g: Gate)
    ensures g.Next? <==>
      Authenticate(header, verify).Next? && Authenticate(header, verify).user.role == Some("admin")
  {
    match Authenticate(header, verify)
    case Next(user) => RequireAdmin(Some(user))
    case refused => refused
  }
}
