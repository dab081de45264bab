/**
 * `POST /api/auth/signup`: create an account whose email is not yet verified,
 * together with a 24-hour verification token, and mail the link.
 */
module Signup {
  import opened Wrappers
  import opened Text
  import opened Store
  import opened Http

  /** The JSON fields the handler reads; any of them may be absent. */
  datatype Fields = Fields(name: Option<string>, email: Option<string>, password: Option<string>)

  /** The handler's replies; each carries a fixed status code and message. */
  datatype Reply = MissingFields | PasswordTooShort | UnverifiedAccountExists | AccountExists | Created | ServerError

  function Status(r: Reply): int {
    match r
    case MissingFields => 400
    case PasswordTooShort => 400
    case UnverifiedAccountExists => 400
    case AccountExists => 400
    case Created => 201
    case ServerError => 500
  }

  /** Whether the reply carries `requiresVerification: true`. */
  predicate RequiresVerification(r: Reply) {
    r == UnverifiedAccountExists || r == Created
  }

  /** The `resendVerificationUrl` the reply carries, if any. */
  function ResendUrl(r: Reply): Option<string> {
    if r == UnverifiedAccountExists then Some("/resend-verification") else None
  }

  /** Shortest password accepted, in UTF-16 code units. */
  const MinPasswordLength: nat := 6

  /** A reply, the tables the request leaves behind, and the mail handed to the mailer (if it accepted one). */
  datatype Outcome = Outcome(reply: Reply, tables: Tables, sent: Option<Mail>)

  /** Whether the fields pass the handler's checks that precede any store call. */
  predicate WellFormed(f: Fields) {
    Truthy(f.email) && Truthy(f.password) && Utf16Length(f.password.value) >= MinPasswordLength
  }

  /** The row the handler inserts: the email, the name or null, the hash, unverified, the `system` theme. */
  function NewAccount(f: Fields, hash: string): (u: User)
    requires Truthy(f.email)
    ensures u.email == f.email.value && u.password == Some(hash) && u.emailVerified.None?
    ensures u.theme == Some("system") && u.language.None? && u.image.None?
    ensures u.name == if Truthy(f.name) then f.name else None
  {
    User(f.email.value, if Truthy(f.name) then f.name else None, Some(hash), None, None, Some("system"), None)
  }

  /** Whether the body passes the field checks and names an email no account holds. */
  predicate NewEmail(t: Tables, body: Body<Fields>)
    requires UniqueEmails(t.users)
  {
    body.Parsed? && WellFormed(body.fields) && UserWithEmail(t.users, body.fields.email.value).None?
  }

  /** Whether the body passes the field checks and names the email of an existing account. */
  predicate TakenEmail(t: Tables, body: Body<Fields>)
    requires UniqueEmails(t.users)
  {
    body.Parsed? && WellFormed(body.fields) && UserWithEmail(t.users, body.fields.email.value).Some?
  }

  /**
   * The two inserts for an email no account holds: the user row (store call
   * 1), then its token (store call 2), then the mail.
   */
  function Register(t: Tables, f: Fields, newId: UserId, hash: string, token: string, now: int,
                    fault: Option<nat>, mailFails: bool): (o: Outcome)
    requires UniqueEmails(t.users) && WellFormed(f) && UserWithEmail(t.users, f.email.value).None?
    ensures UniqueEmails(o.tables.users)
    ensures o.reply in {Created, ServerError}
    // The user insert throwing (or a taken id) changes nothing.
    ensures Throws(fault, 1) || newId in t.users ==> o == Outcome(ServerError, t, None)
    // The token insert throwing (or a taken token) leaves the inserted user behind.
    ensures !Throws(fault, 1) && newId !in t.users && (Throws(fault, 2) || token in t.tokens) ==>
              o == Outcome(ServerError, t.(users := t.users[newId := NewAccount(f, hash)]), None)
    ensures o.reply == Created <==> !Throws(fault, 1) && !Throws(fault, 2) && newId !in t.users && token !in t.tokens
    ensures o.reply == Created ==>
              o.tables == Tables(t.users[newId := NewAccount(f, hash)],
                                 t.tokens[token := VerificationToken(f.email.value, now + TokenLifetime)])
              && (o.sent.Some? <==> !mailFails)
              && (o.sent.Some? ==> o.sent.value == Mail(f.email.value, token, f.name))
  {
    if Throws(fault, 1) || newId in t.users then Outcome(ServerError, t, None)
    else
      var users := t.users[newId := NewAccount(f, hash)];
      if Throws(fault, 2) || token in t.tokens then Outcome(ServerError, t.(users := users), None)
      else
        var tokens := t.tokens[token := VerificationToken(f.email.value, now + TokenLifetime)];
        Outcome(Created, Tables(users, tokens), if mailFails then None else Some(Mail(f.email.value, token, f.name)))
  }

  /**
   * The whole request. `newId` is the id the database assigns, `hash` the
   * bcrypt hash of the password, `token` the random token, `now` the clock.
   * Store calls in order: 0 the email lookup, 1 the user insert, 2 the token
   * insert; an insert also throws on a duplicate key.
   */
  function Signup(t: Tables, body: Body<Fields>, newId: UserId, hash: string, token: string, now: int,
                  fault: Option<nat>, mailFails: bool): (o: Outcome)
    requires UniqueEmails(t.users)
    // The email constraint holds afterwards.
    ensures UniqueEmails(o.tables.users)
    // A body that does not parse is a server error.
    ensures body.Malformed? ==> o == Outcome(ServerError, t, None)
    // Field checks come before any store call.
    ensures o.reply == MissingFields <==> body.Parsed? && !(Truthy(body.fields.email) && Truthy(body.fields.password))
    ensures o.reply == PasswordTooShort <==>
              body.Parsed? && Truthy(body.fields.email) && Truthy(body.fields.password)
              && Utf16Length(body.fields.password.value) < MinPasswordLength
    // Every 400 (missing field, short password, existing account) reads at most and writes nothing.
    ensures Status(o.reply) == 400 ==> o.tables == t && o.sent.None?
    // The email lookup throwing is a server error with no change.
    ensures body.Parsed? && WellFormed(body.fields) && Throws(fault, 0) ==> o == Outcome(ServerError, t, None)
    // An existing account blocks the signup and nothing is created; an unverified one points to the resend page.
    ensures TakenEmail(t, body) ==>
              o.tables == t && o.sent.None? && o.reply in {UnverifiedAccountExists, AccountExists, ServerError}
    ensures o.reply == UnverifiedAccountExists <==>
              TakenEmail(t, body) && !Throws(fault, 0)
              && t.users[UserWithEmail(t.users, body.fields.email.value).value].emailVerified.None?
    ensures o.reply == AccountExists <==>
              TakenEmail(t, body) && !Throws(fault, 0)
              && t.users[UserWithEmail(t.users, body.fields.email.value).value].emailVerified.Some?
    // The unverified-account reply, and only it among the refusals, carries the verification flag and the resend URL.
    ensures o.reply == UnverifiedAccountExists ==>
              RequiresVerification(o.reply) && ResendUrl(o.reply) == Some("/resend-verification")
    ensures o.reply != UnverifiedAccountExists ==> ResendUrl(o.reply).None?
    // The user insert throwing (or a taken id) is a server error with no change.
    ensures NewEmail(t, body) && !Throws(fault, 0) && (Throws(fault, 1) || newId in t.users) ==>
              o == Outcome(ServerError, t, None)
    // The token insert throwing (or a taken token) is a server error; the inserted user stays.
    ensures NewEmail(t, body) && !Throws(fault, 0) && !Throws(fault, 1) && newId !in t.users
            && (Throws(fault, 2) || token in t.tokens) ==>
              o == Outcome(ServerError, t.(users := t.users[newId := NewAccount(body.fields, hash)]), None)
    // Success exactly when the checks pass, the email is new and no store call throws.
    ensures o.reply == Created <==>
              NewEmail(t, body) && newId !in t.users && token !in t.tokens && (fault.None? || fault.value > 2)
    // On success: the new unverified account, and one token for its email valid 24 hours.
    ensures o.reply == Created ==>
              o.tables.users == t.users[newId := NewAccount(body.fields, hash)]
              && o.tables.tokens == t.tokens[token := VerificationToken(body.fields.email.value, now + TokenLifetime)]
    // The mail goes out only after both inserts, and its failure does not change the reply.
    ensures o.sent.Some? ==> o.reply == Created && o.sent == Some(Mail(body.fields.email.value, token, body.fields.name))
    ensures o.reply == Created ==> (o.sent.Some? <==> !mailFails)
    // Every reply other than success leaves the token table unchanged.
    ensures o.reply != Created ==> o.tables.tokens == t.tokens
    // A server error needs a malformed body, a store call that throws, or a duplicate key.
    ensures o.reply == ServerError ==>
              body.Malformed? || (fault.Some? && fault.value <= 2) || newId in t.users || token in t.tokens
  {
    if body.Malformed? then Outcome(ServerError, t, None)
    else
      var f := body.fields;
      if !Truthy(f.email) || !Truthy(f.password) then Outcome(MissingFields, t, None)
      else if Utf16Length(f.password.value) < MinPasswordLength then Outcome(PasswordTooShort, t, None)
      else if Throws(fault, 0) then Outcome(ServerError, t, None)
      else if UserWithEmail(t.users, f.email.value).Some? then
        var existing := t.users[UserWithEmail(t.users, f.email.value).value];
        Outcome(if existing.emailVerified.None? then UnverifiedAccountExists else AccountExists, t, None)
      else Register(t, f, newId, hash, token, now, fault, mailFails)
  }

  /** The route handler, one store call at a time; `sent` is what the mailer accepted. */
  method Post(db: Database, body: Body<Fields>, newId: UserId, hash: string, token: string, now: int,
              fault: Option<nat>, mailFails: bool) returns (reply: Reply, sent: Option<Mail>)
    requires db.Valid()
    modifies db
    ensures db.Valid()
    ensures var o := Signup(old(db.Snapshot()), body, newId, hash, token, now, fault, mailFails);
            reply == o.reply && db.Snapshot() == o.tables && sent == o.sent
  {
    sent := None;
    if body.Malformed? {
      return ServerError, None;
    }
    var f := body.fields;
    if !Truthy(f.email) || !Truthy(f.password) {
      return MissingFields, None;
    }
    if Utf16Length(f.password.value) < MinPasswordLength {
      return PasswordTooShort, None;
    }
    var existing := db.FindUserByEmail(f.email.value, Throws(fault, 0));
    if existing.Threw? {
      return ServerError, None;
    }
    if existing.row.Some? {
      if db.users[existing.row.value].emailVerified.None? {
        return UnverifiedAccountExists, None;
      }
      return AccountExists, None;
    }
    var created := db.CreateUser(newId, NewAccount(f, hash), Throws(fault, 1));
    if !created {
      return ServerError, None;
    }
    var issued := db.CreateToken(token, VerificationToken(f.email.value, now + TokenLifetime), Throws(fault, 2));
    if !issued {
      return ServerError, None;
    }
    if !mailFails {
      sent := Some(Mail(f.email.value, token, f.name));
    }
    reply := Created;
  }

  /** A password of exactly six characters from the Basic Multilingual Plane is long enough. */
  lemma SixCharactersSuffice(password: string)
    requires |password| == 6 && forall i :: 0 <= i < 6 ==> !IsAstral(password[i])
    ensures Utf16Length(password) >= MinPasswordLength
  {
  }

  /** Whether the mail goes out never changes the reply or the tables. */
  lemma MailFailureIgnored(t: Tables, body: Body<Fields>, newId: UserId, hash: string, token: string, now: int,
                           fault: Option<nat>)
    requires UniqueEmails(t.users)
    ensures var sent := Signup(t, body, newId, hash, token, now, fault, false);
            var failed := Signup(t, body, newId, hash, token, now, fault, true);
            sent.reply == failed.reply && sent.tables == failed.tables && failed.sent.None?
  {
  }
}
