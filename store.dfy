/**
 * The two database tables the authentication and preference code touches,
 * and the handful of ORM calls it makes on them. A call may throw (the
 * `fails` argument); besides that, an update or delete of a row that does
 * not exist throws, and so does a create that would duplicate a unique key.
 */
module Store {
  import opened Wrappers

  /** A user identifier. An empty one is falsy and is never taken for a user, so it is not a UserId. */
  type UserId = s: string | s != "" witness "u"

  /** A row of the user table. `emailVerified` is the verification instant, `password` the bcrypt hash. */
  datatype User = User(
    email: string,
    name: Option<string>,
    password: Option<string>,
    emailVerified: Option<int>,
    image: Option<string>,
    theme: Option<string>,
    language: Option<string>)

  /** A row of the verification-token table, keyed by its token string. */
  datatype VerificationToken = VerificationToken(identifier: string, expires: int)

  /** Lifetime of a verification token, in milliseconds: 24 hours. */
  const TokenLifetime: int := 24 * 60 * 60 * 1000

  /** The verification mail a handler hands to the mailer: recipient, token, greeting name. */
  datatype Mail = Mail(to: string, token: string, name: Option<string>)

  type Users = map<UserId, User>
  type Tokens = map<string, VerificationToken>

  /** A snapshot of both tables. */
  datatype Tables = Tables(users: Users, tokens: Tokens)

  /** The unique constraint on `User.email`. */
  ghost predicate UniqueEmails(users: Users) {
    forall a, b :: a in users && b in users && users[a].email == users[b].email ==> a == b
  }

  /** `findUnique({ where: { email } })`: the user holding that email, if any. */
  function UserWithEmail(users: Users, email: string): (r: Option<UserId>)
    requires UniqueEmails(users)
    ensures r.Some? ==> r.value in users && users[r.value].email == email
    ensures r.None? ==> forall id :: id in users ==> users[id].email != email
  {
    if exists id :: id in users && users[id].email == email then
      var id :| id in users && users[id].email == email;
      Some(id)
    else
      None
  }

  /** The columns `prisma.user.update` sets in this code. */
  datatype Change = SetLanguage(language: string) | SetTheme(theme: string) | SetEmailVerified(at: int)

  function Apply(u: User, c: Change): (v: User)
    ensures v.email == u.email
  {
    match c
    case SetLanguage(l) => u.(language := Some(l))
    case SetTheme(t) => u.(theme := Some(t))
    case SetEmailVerified(at) => u.(emailVerified := Some(at))
  }

  /** The user table after `user.update({ where: { id }, data: c })`, which changes nothing when it throws. */
  function UpdatedUsers(users: Users, id: UserId, c: Change, fails: bool): (r: Users)
    ensures r.Keys == users.Keys
    ensures forall other :: other in users && other != id ==> r[other] == users[other]
    ensures id in users ==> r[id] == if fails then users[id] else Apply(users[id], c)
  {
    if !fails && id in users then users[id := Apply(users[id], c)] else users
  }

  /** `verificationToken.deleteMany({ where: { identifier } })` on a table value. */
  function WithoutIdentifier(tokens: Tokens, identifier: string): (r: Tokens)
    ensures forall t :: t in r <==> t in tokens && tokens[t].identifier != identifier
    ensures forall t :: t in r ==> r[t] == tokens[t]
  {
    map t | t in tokens && tokens[t].identifier != identifier :: tokens[t]
  }

  /** The token strings issued for one email address. */
  function TokensFor(tokens: Tokens, identifier: string): set<string> {
    set t | t in tokens && tokens[t].identifier == identifier
  }

  lemma UpdateKeepsEmailsUnique(users: Users, id: UserId, c: Change)
    requires UniqueEmails(users) && id in users
    ensures UniqueEmails(users[id := Apply(users[id], c)])
  {
  }

  /**
   * Whether the `step`-th store call of a request handler throws. A handler
   * aborts at the first call that throws; calls made before it keep their effect.
   */
  predicate Throws(fault: Option<nat>, step: nat) {
    fault == Some(step)
  }

  /** What an ORM read returns: the call threw, or it answered with a row or nothing. */
  datatype Lookup<T> = Threw | Answered(row: Option<T>)

  /** The database, as the ORM client sees it. */
  class Database {
    var users: Users
    var tokens: Tokens

    ghost predicate Valid()
      reads this
    {
      UniqueEmails(users)
    }

    function Snapshot(): Tables
      reads this
    {
      Tables(users, tokens)
    }

    constructor (t: Tables)
      requires UniqueEmails(t.users)
      ensures Valid() && Snapshot() == t
    {
      users := t.users;
      tokens := t.tokens;
    }

    /** `user.findUnique({ where: { id } })`. */
    method FindUser(id: UserId, fails: bool) returns (r: Lookup<User>)
      ensures r == if fails then Threw else Answered(if id in users then Some(users[id]) else None)
    {
      if fails { return Threw; }
      r := Answered(if id in users then Some(users[id]) else None);
    }

    /** `user.findUnique({ where: { email } })`, answering with the row's id. */
    method FindUserByEmail(email: string, fails: bool) returns (r: Lookup<UserId>)
      requires Valid()
      ensures r == if fails then Threw else Answered(UserWithEmail(users, email))
    {
      if fails { return Threw; }
      r := Answered(UserWithEmail(users, email));
    }

    /** `user.update({ where: { id }, data })`: throws when no such user exists. */
    method UpdateUser(id: UserId, c: Change, fails: bool) returns (ok: bool)
      requires Valid()
      modifies this
      ensures Valid() && tokens == old(tokens)
      ensures ok == (!fails && id in old(users))
      ensures users == UpdatedUsers(old(users), id, c, fails)
    {
      ok := !fails && id in users;
      if ok {
        UpdateKeepsEmailsUnique(users, id, c);
        users := users[id := Apply(users[id], c)];
      }
    }

    /** `user.create({ data })`: throws on a duplicate id or email. */
    method CreateUser(id: UserId, u: User, fails: bool) returns (ok: bool)
      requires Valid()
      modifies this
      ensures Valid() && tokens == old(tokens)
      ensures ok == (!fails && id !in old(users) && UserWithEmail(old(users), u.email).None?)
      ensures users == if ok then old(users)[id := u] else old(users)
    {
      ok := !fails && id !in users && UserWithEmail(users, u.email).None?;
      if ok {
        users := users[id := u];
      }
    }

    /** `verificationToken.findUnique({ where: { token } })`. */
    method FindToken(token: string, fails: bool) returns (r: Lookup<VerificationToken>)
      ensures r == if fails then Threw else Answered(if token in tokens then Some(tokens[token]) else None)
    {
      if fails { return Threw; }
      r := Answered(if token in tokens then Some(tokens[token]) else None);
    }

    /** `verificationToken.delete({ where: { token } })`: throws when the token is absent. */
    method DeleteToken(token: string, fails: bool) returns (ok: bool)
      requires Valid()
      modifies this
      ensures Valid() && users == old(users)
      ensures ok == (!fails && token in old(tokens))
      ensures tokens == if ok then old(tokens) - {token} else old(tokens)
    {
      ok := !fails && token in tokens;
      if ok {
        tokens := tokens - {token};
      }
    }

    /** `verificationToken.deleteMany({ where: { identifier } })`. */
    method DeleteTokensFor(identifier: string, fails: bool) returns (ok: bool)
      requires Valid()
      modifies this
      ensures Valid() && users == old(users)
      ensures ok == !fails
      ensures tokens == if ok then WithoutIdentifier(old(tokens), identifier) else old(tokens)
    {
      ok := !fails;
      if ok {
        tokens := WithoutIdentifier(tokens, identifier);
      }
    }

    /** `verificationToken.create({ data })`: throws on a duplicate token string. */
    method CreateToken(token: string, row: VerificationToken, fails: bool) returns (ok: bool)
      requires Valid()
      modifies this
      ensures Valid() && users == old(users)
      ensures ok == (!fails && token !in old(tokens))
      ensures tokens == if ok then old(tokens)[token := row] else old(tokens)
    {
      ok := !fails && token !in tokens;
      if ok {
        tokens := tokens[token := row];
      }
    }
  }
}
