/**
 * `GET /api/auth/verify-email?token=…`: consume a verification token and mark
 * the matching account's email as verified.
 */
module VerifyEmail {
  import opened Wrappers
  import opened Text
  import opened Store

  /** The handler's replies; each carries a fixed status code and message. */
  datatype Reply = MissingToken | InvalidToken | ExpiredToken | UserNotFound | Verified | ServerError

  function Status(r: Reply): int {
    match r
    case MissingToken => 400
    case InvalidToken => 400
    case ExpiredToken => 400
    case UserNotFound => 404
    case Verified => 200
    case ServerError => 500
  }

  /** A reply together with the tables the request leaves behind. */
  datatype Outcome = Outcome(reply: Reply, tables: Tables)

  /** The user table after the verification instant `now` is recorded for the user holding `email`, if any. */
  function MarkVerified(users: Users, email: string, now: int): (r: Users)
    requires UniqueEmails(users)
    ensures UserWithEmail(users, email).None? ==> r == users
    ensures UserWithEmail(users, email).Some? ==>
              var id := UserWithEmail(users, email).value;
              r == users[id := users[id].(emailVerified := Some(now))]
  {
    match UserWithEmail(users, email)
    case None => users
    case Some(id) => UpdatedUsers(users, id, SetEmailVerified(now), false)
  }

  /** Whether a token row is past its expiry at `now` (strictly: a token expiring exactly now is still good). */
  predicate Expired(row: VerificationToken, now: int) {
    row.expires < now
  }

  /** Whether the request names a token the table holds. */
  predicate Known(t: Tables, token: Option<string>) {
    Truthy(token) && token.value in t.tokens
  }

  /** Whether the request names a known token that has not expired at `now`. */
  predicate Live(t: Tables, token: Option<string>, now: int) {
    Known(t, token) && !Expired(t.tokens[token.value], now)
  }

  /** Whether a known token's identifier is the email of an account. */
  predicate NamesAccount(t: Tables, token: Option<string>)
    requires UniqueEmails(t.users)
  {
    Known(t, token) && UserWithEmail(t.users, t.tokens[token.value].identifier).Some?
  }

  /**
   * The whole request. Store calls in order: 0 the token lookup; then 1 the
   * delete of an expired token, or 1 the user lookup, 2 the user update and
   * 3 the token delete.
   */
  function Verify(t: Tables, token: Option<string>, now: int, fault: Option<nat>): (o: Outcome)
    requires UniqueEmails(t.users)
    // Without a token nothing is read or written.
    ensures !Truthy(token) ==> o == Outcome(MissingToken, t)
    // The token lookup throwing is a server error with no change.
    ensures Truthy(token) && Throws(fault, 0) ==> o == Outcome(ServerError, t)
    // An unknown token is a 400 with no change.
    ensures o.reply == InvalidToken <==> Truthy(token) && !Throws(fault, 0) && token.value !in t.tokens
    ensures o.reply == InvalidToken ==> o.tables == t
    // An expired token (strictly before `now`) is a 400; it is deleted, unless the delete throws (a 500).
    ensures o.reply == ExpiredToken <==>
              Known(t, token) && Expired(t.tokens[token.value], now) && !Throws(fault, 0) && !Throws(fault, 1)
    ensures Known(t, token) && Expired(t.tokens[token.value], now) && !Throws(fault, 0) ==>
              (Throws(fault, 1) ==> o == Outcome(ServerError, t))
              && (!Throws(fault, 1) ==> o.tables == t.(tokens := t.tokens - {token.value}))
    // A live token whose identifier has no account is a 404 with no change.
    ensures o.reply == UserNotFound <==>
              Live(t, token, now) && !NamesAccount(t, token) && !Throws(fault, 0) && !Throws(fault, 1)
    ensures o.reply == UserNotFound ==> o.tables == t
    // Store calls on the live-token path that throw: the user lookup and the update change nothing;
    // the token delete throwing leaves the account verified and the token in place.
    ensures Live(t, token, now) && !Throws(fault, 0) && Throws(fault, 1) ==> o == Outcome(ServerError, t)
    ensures Live(t, token, now) && NamesAccount(t, token) && Throws(fault, 2) ==> o == Outcome(ServerError, t)
    ensures Live(t, token, now) && NamesAccount(t, token) && Throws(fault, 3) ==>
              o == Outcome(ServerError, Tables(MarkVerified(t.users, t.tokens[token.value].identifier, now), t.tokens))
    // Success exactly when a live, known token names an account and no store call throws.
    ensures o.reply == Verified <==> Live(t, token, now) && NamesAccount(t, token) && (fault.None? || fault.value > 3)
    // On success: that account is verified at `now` and exactly that token is gone.
    ensures o.reply == Verified ==>
              o.tables == Tables(MarkVerified(t.users, t.tokens[token.value].identifier, now), t.tokens - {token.value})
    // No path touches any other account or token.
    ensures o.tables.users == t.users
            || (Known(t, token) && o.tables.users == MarkVerified(t.users, t.tokens[token.value].identifier, now))
    ensures o.tables.tokens == t.tokens || (Truthy(token) && o.tables.tokens == t.tokens - {token.value})
    // A server error needs a store call that throws; a 400 never touches a user, a 404 touches nothing.
    ensures o.reply == ServerError ==> fault.Some? && fault.value <= 3
    ensures Status(o.reply) == 400 ==> o.tables.users == t.users
    ensures Status(o.reply) == 404 ==> o.tables == t
  {
    if !Truthy(token) then Outcome(MissingToken, t)
    else if Throws(fault, 0) then Outcome(ServerError, t)
    else if token.value !in t.tokens then Outcome(InvalidToken, t)
    else
      var row := t.tokens[token.value];
      if Expired(row, now) then
        if Throws(fault, 1) then Outcome(ServerError, t)
        else Outcome(ExpiredToken, t.(tokens := t.tokens - {token.value}))
      else if Throws(fault, 1) then Outcome(ServerError, t)
      else if UserWithEmail(t.users, row.identifier).None? then Outcome(UserNotFound, t)
      else if Throws(fault, 2) then Outcome(ServerError, t)
      else
        var verified := MarkVerified(t.users, row.identifier, now);
        if Throws(fault, 3) then Outcome(ServerError, t.(users := verified))
        else Outcome(Verified, Tables(verified, t.tokens - {token.value}))
  }

  /** The route handler, one store call at a time. */
  method Get(db: Database, token: Option<string>, now: int, fault: Option<nat>) returns (reply: Reply)
    requires db.Valid()
    modifies db
    ensures db.Valid()
    ensures var o := Verify(old(db.Snapshot()), token, now, fault);
            reply == o.reply && db.Snapshot() == o.tables
  {
    if !Truthy(token) {
      return MissingToken;
    }
    var found := db.FindToken(token.value, Throws(fault, 0));
    if found.Threw? {
      return ServerError;
    }
    if found.row.None? {
      return InvalidToken;
    }
    var row := found.row.value;
    if Expired(row, now) {
      var deleted := db.DeleteToken(token.value, Throws(fault, 1));
      if !deleted {
        return ServerError;
      }
      return ExpiredToken;
    }
    var user := db.FindUserByEmail(row.identifier, Throws(fault, 1));
    if user.Threw? {
      return ServerError;
    }
    if user.row.None? {
      return UserNotFound;
    }
    var updated := db.UpdateUser(user.row.value, SetEmailVerified(now), Throws(fault, 2));
    if !updated {
      return ServerError;
    }
    var removed := db.DeleteToken(token.value, Throws(fault, 3));
    if !removed {
      return ServerError;
    }
    return Verified;
  }

  /** A token verifies at most once: after a success the same link is an unknown token. */
  lemma TokenIsSingleUse(t: Tables, token: string, now: int, later: int, fault: Option<nat>)
    requires UniqueEmails(t.users)
    requires Verify(t, Some(token), now, None).reply == Verified
    ensures var t' := Verify(t, Some(token), now, None).tables;
            UniqueEmails(t'.users) && Verify(t', Some(token), later, fault).reply in {InvalidToken, ServerError}
            && Verify(t', Some(token), later, fault).tables == t'
  {
  }

  /**
   * Expiry is strict: a link followed at the very instant its token expires
   * still verifies, and one instant later it is refused as expired.
   */
  lemma ExpiryBoundary(t: Tables, token: string, now: int)
    requires UniqueEmails(t.users) && token != ""
    requires token in t.tokens && t.tokens[token].expires == now
    requires UserWithEmail(t.users, t.tokens[token].identifier).Some?
    ensures Verify(t, Some(token), now, None).reply == Verified
    ensures Verify(t, Some(token), now + 1, None).reply == ExpiredToken
  {
  }

  /** An expired link never verifies anything, whatever the store does. */
  lemma ExpiredNeverVerifies(t: Tables, token: string, now: int, fault: Option<nat>)
    requires UniqueEmails(t.users) && token != ""
    requires token in t.tokens && t.tokens[token].expires < now
    ensures Verify(t, Some(token), now, fault).tables.users == t.users
    ensures Verify(t, Some(token), now, fault).reply != Verified
  {
  }
}
