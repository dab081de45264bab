/**
 * `POST /api/auth/resend-verification`: for an account whose email is not yet
 * verified, replace every outstanding verification token with one fresh
 * 24-hour token and mail the new link.
 */
module ResendVerification {
  import opened Wrappers
  import opened Text
  import opened Store
  import opened Http

  /** The handler's replies; each carries a fixed status code and message. */
  datatype Reply = MissingEmail | NoSuchAccount | AlreadyVerified | Resent | ServerError

  function Status(r: Reply): int {
    match r
    case MissingEmail => 400
    case NoSuchAccount => 200
    case AlreadyVerified => 200
    case Resent => 200
    case ServerError => 500
  }

  /** A reply, the tables the request leaves behind, and the mail handed to the mailer (if it accepted one). */
  datatype Outcome = Outcome(reply: Reply, tables: Tables, sent: Option<Mail>)

  /** Whether the body names the email of an account that is not yet verified. */
  predicate Unverified(t: Tables, body: Body<Option<string>>)
    requires UniqueEmails(t.users)
  {
    body.Parsed? && Truthy(body.fields) && UserWithEmail(t.users, body.fields.value).Some?
    && t.users[UserWithEmail(t.users, body.fields.value).value].emailVerified.None?
  }

  /**
   * The whole request; the body's only field is `email`. Store calls in
   * order: 0 the email lookup, 1 the delete of the email's tokens, 2 the
   * token insert (which also throws on a duplicate token).
   */
  function Resend(t: Tables, body: Body<Option<string>>, token: string, now: int, fault: Option<nat>,
                  mailFails: bool): (o: Outcome)
    requires UniqueEmails(t.users)
    // The user table is never written.
    ensures o.tables.users == t.users
    ensures body.Malformed? ==> o == Outcome(ServerError, t, None)
    ensures o.reply == MissingEmail <==> body.Parsed? && !Truthy(body.fields)
    ensures o.reply == MissingEmail ==> o == Outcome(MissingEmail, t, None)
    // The email lookup throwing is a server error with no change.
    ensures body.Parsed? && Truthy(body.fields) && Throws(fault, 0) ==> o == Outcome(ServerError, t, None)
    // The delete throwing is a server error with no change.
    ensures Unverified(t, body) && Throws(fault, 1) ==> o == Outcome(ServerError, t, None)
    // The insert throwing (or a taken token) is a server error; the old tokens are already gone.
    ensures Unverified(t, body) && !Throws(fault, 0) && !Throws(fault, 1)
            && (Throws(fault, 2) || (token in t.tokens && t.tokens[token].identifier != body.fields.value)) ==>
              o == Outcome(ServerError, t.(tokens := WithoutIdentifier(t.tokens, body.fields.value)), None)
    // Unknown and already verified emails change nothing.
    ensures o.reply in {MissingEmail, NoSuchAccount, AlreadyVerified} ==> o.tables == t && o.sent.None?
    ensures o.reply == NoSuchAccount <==>
              body.Parsed? && Truthy(body.fields) && !Throws(fault, 0) && UserWithEmail(t.users, body.fields.value).None?
    ensures o.reply == AlreadyVerified <==>
              body.Parsed? && Truthy(body.fields) && !Throws(fault, 0) && UserWithEmail(t.users, body.fields.value).Some?
              && t.users[UserWithEmail(t.users, body.fields.value).value].emailVerified.Some?
    // Success exactly for an unverified account when no store call throws and the token is new.
    ensures o.reply == Resent <==>
              Unverified(t, body) && (fault.None? || fault.value > 2) && !(token in t.tokens && t.tokens[token].identifier != body.fields.value)
    // On success the email has exactly one token, the fresh one, valid 24 hours.
    ensures o.reply == Resent ==>
              TokensFor(o.tables.tokens, body.fields.value) == {token}
              && o.tables.tokens[token] == VerificationToken(body.fields.value, now + TokenLifetime)
    // Tokens of other emails are never touched; tokens of this email only disappear or are replaced.
    ensures forall k :: k in t.tokens && (!(body.Parsed? && Truthy(body.fields)) || t.tokens[k].identifier != body.fields.value) ==>
              k in o.tables.tokens && o.tables.tokens[k] == t.tokens[k]
    ensures forall k :: k in o.tables.tokens && k !in t.tokens ==> o.reply == Resent && k == token
    // The mail goes out only on success, and its failure does not change the reply.
    ensures o.sent.Some? ==>
              o.reply == Resent
              && o.sent.value == Mail(body.fields.value, token, t.users[UserWithEmail(t.users, body.fields.value).value].name)
    ensures o.reply == Resent ==> (o.sent.Some? <==> !mailFails)
    ensures o.reply == ServerError ==> body.Malformed? || (fault.Some? && fault.value <= 2) || token in t.tokens
  {
    if body.Malformed? then Outcome(ServerError, t, None)
    else if !Truthy(body.fields) then Outcome(MissingEmail, t, None)
    else
      var email := body.fields.value;
      if Throws(fault, 0) then Outcome(ServerError, t, None)
      else if UserWithEmail(t.users, email).None? then Outcome(NoSuchAccount, t, None)
      else
        var user := t.users[UserWithEmail(t.users, email).value];
        if user.emailVerified.Some? then Outcome(AlreadyVerified, t, None)
        else if Throws(fault, 1) then Outcome(ServerError, t, None)
        else
          var cleared := WithoutIdentifier(t.tokens, email);
          if Throws(fault, 2) || token in cleared then Outcome(ServerError, t.(tokens := cleared), None)
          else
            var tokens := cleared[token := VerificationToken(email, now + TokenLifetime)];
            Outcome(Resent, t.(tokens := tokens), if mailFails then None else Some(Mail(email, token, user.name)))
  }

  /** The route handler, one store call at a time; `sent` is what the mailer accepted. */
  method Post(db: Database, body: Body<Option<string>>, token: string, now: int, fault: Option<nat>, mailFails: bool)
    returns (reply: Reply, sent: Option<Mail>)
    requires db.Valid()
    modifies db
    ensures db.Valid()
    ensures var o := Resend(old(db.Snapshot()), body, token, now, fault, mailFails);
            reply == o.reply && db.Snapshot() == o.tables && sent == o.sent
  {
    sent := None;
    if body.Malformed? {
      return ServerError, None;
    }
    if !Truthy(body.fields) {
      return MissingEmail, None;
    }
    var email := body.fields.value;
    var found := db.FindUserByEmail(email, Throws(fault, 0));
    if found.Threw? {
      return ServerError, None;
    }
    if found.row.None? {
      return NoSuchAccount, None;
    }
    var user := db.users[found.row.value];
    if user.emailVerified.Some? {
      return AlreadyVerified, None;
    }
    var cleared := db.DeleteTokensFor(email, Throws(fault, 1));
    if !cleared {
      return ServerError, None;
    }
    var issued := db.CreateToken(token, VerificationToken(email, now + TokenLifetime), Throws(fault, 2));
    if !issued {
      return ServerError, None;
    }
    if !mailFails {
      sent := Some(Mail(email, token, user.name));
    }
    reply := Resent;
  }

  /**
   * The status code does not tell whether an account exists: an unknown
   * email, a verified one and a successful resend all answer 200.
   */
  lemma StatusHidesAccount(t: Tables, email: string, token: string, now: int, mailFails: bool)
    requires UniqueEmails(t.users) && email != ""
    requires token !in t.tokens
    ensures Status(Resend(t, Parsed(Some(email)), token, now, None, mailFails).reply) == 200
  {
  }
}
