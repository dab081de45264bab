/**
 * The authentication options: the credentials provider's `authorize`, the
 * `session` callback and the order of the provider list.
 */
module Auth {
  import opened Wrappers
  import opened Text
  import opened Store
  import opened Http

  /** The submitted sign-in form; either field may be absent. */
  datatype Credentials = Credentials(email: Option<string>, password: Option<string>)

  /** What `authorize` hands to the session layer: the public columns of the account, never the hash. */
  datatype AuthUser = AuthUser(id: UserId, email: string, name: Option<string>, image: Option<string>)

  /** Why `authorize` throws: the generic message, the unverified-email message, or a store error. */
  datatype Rejection = InvalidCredentials | EmailNotVerified | StoreFailure

  datatype Verdict = Authorized(user: AuthUser) | Rejected(reason: Rejection)

  /**
   * `authorize`. `lookupFails` is a store error on the email lookup and
   * `matches(password, hash)` stands for `bcrypt.compare`. The checks run in
   * the order: form complete, account exists with a password, email verified,
   * password matches.
   */
  function Authorize(users: Users, creds: Credentials, lookupFails: bool, matches: (string, string) -> bool): (v: Verdict)
    requires UniqueEmails(users)
    ensures !Truthy(creds.email) || !Truthy(creds.password) ==> v == Rejected(InvalidCredentials)
    ensures v == Rejected(StoreFailure) <==> Truthy(creds.email) && Truthy(creds.password) && lookupFails
    // Success exactly for a verified account with a password that the submitted one matches.
    ensures v.Authorized? <==>
              Truthy(creds.email) && Truthy(creds.password) && !lookupFails
              && UserWithEmail(users, creds.email.value).Some?
              && var u := users[UserWithEmail(users, creds.email.value).value];
                 Truthy(u.password) && u.emailVerified.Some? && matches(creds.password.value, u.password.value)
    // The result is that account's public columns.
    ensures v.Authorized? ==>
              v.user.id in users && users[v.user.id].email == creds.email.value
              && v.user == AuthUser(v.user.id, users[v.user.id].email, users[v.user.id].name, users[v.user.id].image)
    // An unverified account is refused before its password is looked at.
    ensures v == Rejected(EmailNotVerified) <==>
              Truthy(creds.email) && Truthy(creds.password) && !lookupFails
              && UserWithEmail(users, creds.email.value).Some?
              && var u := users[UserWithEmail(users, creds.email.value).value];
                 Truthy(u.password) && u.emailVerified.None?
  {
    if !Truthy(creds.email) || !Truthy(creds.password) then Rejected(InvalidCredentials)
    else if lookupFails then Rejected(StoreFailure)
    else match UserWithEmail(users, creds.email.value)
      case None => Rejected(InvalidCredentials)
      case Some(id) =>
        var u := users[id];
        if !Truthy(u.password) then Rejected(InvalidCredentials)
        else if u.emailVerified.None? then Rejected(EmailNotVerified)
        else if !matches(creds.password.value, u.password.value) then Rejected(InvalidCredentials)
        else Authorized(AuthUser(id, u.email, u.name, u.image))
  }

  /** For an unverified account the verdict does not depend on the password comparison at all. */
  lemma UnverifiedIgnoresPassword(users: Users, creds: Credentials, lookupFails: bool,
                                  matches: (string, string) -> bool, matches': (string, string) -> bool)
    requires UniqueEmails(users) && Truthy(creds.email)
    requires UserWithEmail(users, creds.email.value).Some?
    requires users[UserWithEmail(users, creds.email.value).value].emailVerified.None?
    ensures Authorize(users, creds, lookupFails, matches) == Authorize(users, creds, lookupFails, matches')
    ensures !Authorize(users, creds, lookupFails, matches).Authorized?
  {
  }

  /** An account without a password (created through an OAuth provider) never signs in with credentials. */
  lemma OAuthAccountRejected(users: Users, creds: Credentials, lookupFails: bool, matches: (string, string) -> bool)
    requires UniqueEmails(users) && Truthy(creds.email)
    requires UserWithEmail(users, creds.email.value).Some?
    requires !Truthy(users[UserWithEmail(users, creds.email.value).value].password)
    ensures Authorize(users, creds, lookupFails, matches).Rejected?
    ensures Authorize(users, creds, lookupFails, matches) != Rejected(EmailNotVerified)
  {
  }

  /** The fields of `session.user` the callback reads or writes. */
  datatype SessionFields = SessionFields(id: Option<string>, email: Option<string>, image: Option<string>)

  /** The fields of the JWT the callback reads or writes. */
  datatype TokenFields = TokenFields(id: Option<string>, picture: Option<string>)

  /** `session.user`, updated in place by the callback. */
  class SessionUser {
    var id: Option<string>
    var email: Option<string>
    var image: Option<string>

    constructor (fields: SessionFields)
      ensures Fields() == fields
    {
      id := fields.id;
      email := fields.email;
      image := fields.image;
    }

    function Fields(): SessionFields
      reads this
    {
      SessionFields(id, email, image)
    }
  }

  /** The decoded JWT, updated in place by the callback. */
  class Jwt {
    var id: Option<string>
    var picture: Option<string>

    constructor (fields: TokenFields)
      ensures Fields() == fields
    {
      id := fields.id;
      picture := fields.picture;
    }

    function Fields(): TokenFields
      reads this
    {
      TokenFields(id, picture)
    }
  }

  /** Session user and token after the callback. */
  datatype Mapped = Mapped(user: SessionFields, token: TokenFields)

  /**
   * The `session` callback on a present `session.user`: the id comes from the
   * token, or else from an email lookup (which also fills the token); the
   * token's picture overrides the image. `lookupFails` is a store error on
   * that lookup, which is swallowed.
   */
  function MapSession(users: Users, user: SessionFields, token: TokenFields, lookupFails: bool): (m: Mapped)
    requires UniqueEmails(users)
    // The email is never changed.
    ensures m.user.email == user.email
    // A token id becomes the session's id and the token is left alone.
    ensures Truthy(token.id) ==> m.user.id == token.id && m.token == token
    // Without one, a successful lookup by email sets the id on both.
    ensures !Truthy(token.id) && Truthy(user.email) && !lookupFails && UserWithEmail(users, user.email.value).Some? ==>
              var id := UserWithEmail(users, user.email.value).value;
              m.user.id == Some(id) && m.token == token.(id := Some(id))
    // A failed or empty lookup leaves the id as it was.
    ensures !Truthy(token.id) && !(Truthy(user.email) && !lookupFails && UserWithEmail(users, user.email.value).Some?) ==>
              m.user.id == user.id && m.token == token
    // A token picture overrides the image; otherwise the image stays.
    ensures m.user.image == if Truthy(token.picture) then token.picture else user.image
    ensures m.token.picture == token.picture
  {
    var (id, tokenId) :=
      if !Truthy(token.id) && Truthy(user.email) then
        if !lookupFails && UserWithEmail(users, user.email.value).Some? then
          var found: string := UserWithEmail(users, user.email.value).value;
          (Some(found), Some(found))
        else (user.id, token.id)
      else if Truthy(token.id) then (token.id, token.id)
      else (user.id, token.id);
    var image := if Truthy(token.picture) then token.picture else user.image;
    Mapped(SessionFields(id, user.email, image), token.(id := tokenId))
  }

  /** The `session` callback: assigns the session user's fields and the token's id in place. */
  method Session(db: Database, user: SessionUser?, token: Jwt, lookupFails: bool)
    requires db.Valid()
    modifies user, token
    ensures user == null ==> token.Fields() == old(token.Fields())
    ensures user != null ==>
              var m := MapSession(db.users, old(user.Fields()), old(token.Fields()), lookupFails);
              user.Fields() == m.user && token.Fields() == m.token
  {
    if user != null {
      if !Truthy(token.id) && Truthy(user.email) {
        var found := db.FindUserByEmail(user.email.value, lookupFails);
        if found.Answered? && found.row.Some? {
          user.id := Some(found.row.value);
          token.id := Some(found.row.value);
        }
      } else if Truthy(token.id) {
        user.id := token.id;
      }
      if Truthy(token.picture) {
        user.image := token.picture;
      }
    }
  }

  /** A sign-in provider, with the client id and secret an OAuth one is configured with. */
  datatype Provider = GitHub(clientId: string, clientSecret: string)
                    | Google(clientId: string, clientSecret: string)
                    | CredentialsProvider

  /** An OAuth provider is configured when both of its environment variables are set and non-empty. */
  function OAuthPair(env: map<string, string>, idKey: string, secretKey: string): (r: Option<(string, string)>)
    ensures r.Some? <==> Truthy(Get(env, idKey)) && Truthy(Get(env, secretKey))
    ensures r.Some? ==> r.value == (env[idKey], env[secretKey])
  {
    if Truthy(Get(env, idKey)) && Truthy(Get(env, secretKey)) then Some((env[idKey], env[secretKey])) else None
  }

  /**
   * The provider list in its final order, stated directly: GitHub if
   * configured, then Google if configured, then the credentials provider.
   */
  function ProviderOrder(env: map<string, string>): (ps: seq<Provider>)
    ensures |ps| >= 1 && ps[|ps| - 1] == CredentialsProvider
    ensures forall i :: 0 <= i < |ps| - 1 ==> !ps[i].CredentialsProvider?
    ensures (exists i :: 0 <= i < |ps| && ps[i].GitHub?) <==> OAuthPair(env, "GITHUB_CLIENT_ID", "GITHUB_CLIENT_SECRET").Some?
    ensures (exists i :: 0 <= i < |ps| && ps[i].Google?) <==> OAuthPair(env, "GOOGLE_CLIENT_ID", "GOOGLE_CLIENT_SECRET").Some?
    ensures forall i, j :: 0 <= i < |ps| && 0 <= j < |ps| && ps[i].GitHub? && ps[j].Google? ==> i < j
    // At most one entry per provider, each carrying its own pair of credentials.
    ensures |ps| == 1 + (if OAuthPair(env, "GITHUB_CLIENT_ID", "GITHUB_CLIENT_SECRET").Some? then 1 else 0)
                      + (if OAuthPair(env, "GOOGLE_CLIENT_ID", "GOOGLE_CLIENT_SECRET").Some? then 1 else 0)
    ensures forall i :: 0 <= i < |ps| && ps[i].GitHub? ==>
              var pair := OAuthPair(env, "GITHUB_CLIENT_ID", "GITHUB_CLIENT_SECRET");
              pair.Some? && ps[i] == GitHub(pair.value.0, pair.value.1)
    ensures forall i :: 0 <= i < |ps| && ps[i].Google? ==>
              var pair := OAuthPair(env, "GOOGLE_CLIENT_ID", "GOOGLE_CLIENT_SECRET");
              pair.Some? && ps[i] == Google(pair.value.0, pair.value.1)
  {
    var github := OAuthPair(env, "GITHUB_CLIENT_ID", "GITHUB_CLIENT_SECRET");
    var google := OAuthPair(env, "GOOGLE_CLIENT_ID", "GOOGLE_CLIENT_SECRET");
    var ps := (if github.Some? then [GitHub(github.value.0, github.value.1)] else [])
              + (if google.Some? then [Google(google.value.0, google.value.1)] else [])
              + [CredentialsProvider];
    assert github.Some? ==> ps[0].GitHub?;
    assert google.Some? ==> ps[if github.Some? then 1 else 0].Google?;
    ps
  }

  /** The module-level list as the code builds it: credentials first, then Google and GitHub each put in front. */
  method BuildProviders(env: map<string, string>) returns (providers: seq<Provider>)
    ensures providers == ProviderOrder(env)
  {
    providers := [CredentialsProvider];
    var google := OAuthPair(env, "GOOGLE_CLIENT_ID", "GOOGLE_CLIENT_SECRET");
    if google.Some? {
      providers := [Google(google.value.0, google.value.1)] + providers;
    }
    var github := OAuthPair(env, "GITHUB_CLIENT_ID", "GITHUB_CLIENT_SECRET");
    if github.Some? {
      providers := [GitHub(github.value.0, github.value.1)] + providers;
    }
  }
}
