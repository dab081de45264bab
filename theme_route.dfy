/**
 * `/api/user/preferences/theme`: `GET` answers the resolved theme, `POST`
 * saves the signed-in user's theme, given as `{ theme: "light" | "dark" | "system" }`.
 */
module ThemeRoute {
  import opened Wrappers
  import opened Store
  import opened Http
  import opened Theme
  import Preference

  /** The replies of `GET`: the 200 `{ theme }`, or a server error. */
  datatype Current = Current(theme: Theme) | LookupError

  /**
   * `GET`: the theme the resolver picks for the session's user, the theme
   * cookie and the prefers-color-scheme header; a session lookup that throws
   * is a server error and resolves nothing.
   */
  method Get(db: Database, cookies: CookieStore, sessionFails: bool, sessionId: Option<UserId>, header: Option<string>,
             readFails: bool, writeFails: bool) returns (reply: Current)
    requires db.Valid()
    modifies db
    ensures db.Valid() && db.tokens == old(db.tokens)
    ensures sessionFails ==> reply == LookupError && db.users == old(db.users)
    ensures !sessionFails ==>
              var r := ResolveTheme(old(db.users), sessionId, cookies.Get(ThemeCookie), header, readFails);
              reply == Current(r.value) && db.users == PersistTheme(old(db.users), sessionId, r.write, writeFails)
  {
    if sessionFails {
      return LookupError;
    }
    var theme := DetermineTheme(db, cookies, sessionId, header, readFails, writeFails);
    reply := Current(theme);
  }

  /** The replies of `POST`; `Saved` is the 200 `{ success: true, theme }`. */
  datatype Reply = Unauthorized | InvalidTheme | ServerError | Saved(theme: Theme)

  function Status(r: Reply): int {
    match r
    case Unauthorized => 401
    case InvalidTheme => 400
    case ServerError => 500
    case Saved(_) => 200
  }

  /** A reply, the user table and the response cookies the request leaves behind. */
  datatype Outcome = Outcome(reply: Reply, users: Users, jar: map<string, Cookie>)

  /** Whether a session was found and the body names `light`, `dark` or `system`: the requests that set the cookie. */
  predicate Accepted(sessionFails: bool, sessionId: Option<UserId>, body: Body<Option<string>>) {
    !sessionFails && sessionId.Some? && body.Parsed? && body.fields.Some? && ParseTheme(body.fields.value).Some?
  }

  /**
   * The whole `POST`. `sessionFails` is a session lookup that throws,
   * `sessionId` the signed-in user's id (None when there is no session, no
   * user or no id); the body's only field is `theme` (None when absent or not
   * a string).
   */
  function Update(users: Users, jar: map<string, Cookie>, sessionFails: bool, sessionId: Option<UserId>,
                  body: Body<Option<string>>, writeFails: bool): (o: Outcome)
    // The session is checked before the body is read: no session, no save, whatever the body.
    ensures o.reply == Unauthorized <==> !sessionFails && sessionId.None?
    ensures !sessionFails && sessionId.None? ==> o == Outcome(Unauthorized, users, jar)
    // Only `light`, `dark` or `system` is accepted; anything else is rejected without a save.
    ensures o.reply == InvalidTheme <==>
              !sessionFails && sessionId.Some? && body.Parsed? && (body.fields.None? || ParseTheme(body.fields.value).None?)
    // Every 4xx reply leaves the user table and the cookies as they were.
    ensures Status(o.reply) in {400, 401} ==> o.users == users && o.jar == jar
    // An accepted request sets the cookie, even when the store write then fails; no other request does.
    ensures Accepted(sessionFails, sessionId, body) ==>
              o.jar == jar[ThemeCookie := Cookie(body.fields.value, "/", OneYear, Lax, false)]
    ensures !Accepted(sessionFails, sessionId, body) ==> o.jar == jar
    // A throwing session lookup, an unreadable body, or a failed write is a server error.
    ensures o.reply == ServerError <==>
              sessionFails || (sessionId.Some? && body.Malformed?)
              || (Accepted(sessionFails, sessionId, body) && (writeFails || sessionId.value !in users))
    // Success exactly when the write succeeds; the signed-in user's record then holds the theme.
    ensures o.reply.Saved? <==>
              Accepted(sessionFails, sessionId, body) && !writeFails && sessionId.value in users
    ensures o.reply.Saved? ==>
              Some(o.reply.theme) == ParseTheme(body.fields.value)
              && o.users == users[sessionId.value := users[sessionId.value].(theme := Some(body.fields.value))]
    // No other outcome changes the user table.
    ensures !o.reply.Saved? ==> o.users == users
  {
    if sessionFails then Outcome(ServerError, users, jar)
    else if sessionId.None? then Outcome(Unauthorized, users, jar)
    else if body.Malformed? then Outcome(ServerError, users, jar)
    else if body.fields.None? || ParseTheme(body.fields.value).None? then Outcome(InvalidTheme, users, jar)
    else
      var theme := ParseTheme(body.fields.value).value;
      var jar' := jar[ThemeCookie := Cookie(Name(theme), "/", OneYear, Lax, false)];
      var users' := PersistTheme(users, sessionId, Some(theme), writeFails);
      Outcome(if !writeFails && sessionId.value in users then Saved(theme) else ServerError, users', jar')
  }

  /** The `POST` handler, delegating to `saveThemePreference`. */
  method Post(db: Database, cookies: CookieStore, sessionFails: bool, sessionId: Option<UserId>,
              body: Body<Option<string>>, writeFails: bool) returns (reply: Reply)
    requires db.Valid()
    modifies db, cookies
    ensures db.Valid() && db.tokens == old(db.tokens)
    ensures var o := Update(old(db.users), old(cookies.cookies), sessionFails, sessionId, body, writeFails);
            reply == o.reply && db.users == o.users && cookies.cookies == o.jar
  {
    if sessionFails {
      return ServerError;
    }
    if sessionId.None? {
      return Unauthorized;
    }
    if body.Malformed? {
      return ServerError;
    }
    if body.fields.None? || ParseTheme(body.fields.value).None? {
      return InvalidTheme;
    }
    var theme := ParseTheme(body.fields.value).value;
    var ok := SaveThemePreference(db, cookies, theme, sessionId, writeFails);
    if !ok {
      return ServerError;
    }
    return Saved(theme);
  }

  /** After a successful `POST`, the resolver behind `GET` returns the saved theme for that user and writes nothing. */
  lemma SavedIsResolved(users: Users, jar: map<string, Cookie>, id: UserId, body: Body<Option<string>>,
                        cookie: Option<string>, header: Option<string>)
    requires Update(users, jar, false, Some(id), body, false).reply.Saved?
    ensures var o := Update(users, jar, false, Some(id), body, false);
            ResolveTheme(o.users, Some(id), cookie, header, false) == Preference.Resolution(o.reply.theme, None)
  {
  }
}
