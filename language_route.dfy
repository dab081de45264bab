/**
 * `POST /api/user/preferences/language`: save the signed-in user's locale,
 * given as `{ language: "fr" | "en" }`.
 */
module LanguageRoute {
  import opened Wrappers
  import opened Store
  import opened Http
  import opened Language
  import Preference

  /** The handler's replies; `Saved` is the 200 `{ success: true, language }`. */
  datatype Reply = Unauthorized | InvalidLanguage | ServerError | Saved(language: Locale)

  function Status(r: Reply): int {
    match r
    case Unauthorized => 401
    case InvalidLanguage => 400
    case ServerError => 500
    case Saved(_) => 200
  }

  /** A reply, the user table and the response cookies the request leaves behind. */
  datatype Outcome = Outcome(reply: Reply, users: Users, jar: map<string, Cookie>)

  /** Whether a session was found and the body names `fr` or `en`: the requests that set the cookie. */
  predicate Accepted(sessionFails: bool, sessionId: Option<UserId>, body: Body<Option<string>>) {
    !sessionFails && sessionId.Some? && body.Parsed? && body.fields.Some? && ParseLocale(body.fields.value).Some?
  }

  /**
   * The whole request. `sessionFails` is a session lookup that throws,
   * `sessionId` the signed-in user's id (None when there is no session, no
   * user or no id); the body's only field is `language` (None when absent or
   * not a string).
   */
  function Update(users: Users, jar: map<string, Cookie>, sessionFails: bool, sessionId: Option<UserId>,
                  body: Body<Option<string>>, writeFails: bool): (o: Outcome)
    // The session is checked before the body is read: no session, no save, whatever the body.
    ensures o.reply == Unauthorized <==> !sessionFails && sessionId.None?
    ensures !sessionFails && sessionId.None? ==> o == Outcome(Unauthorized, users, jar)
    // Only `fr` or `en` is accepted; anything else is rejected without a save.
    ensures o.reply == InvalidLanguage <==>
              !sessionFails && sessionId.Some? && body.Parsed? && (body.fields.None? || ParseLocale(body.fields.value).None?)
    // Every 4xx reply leaves the user table and the cookies as they were.
    ensures Status(o.reply) in {400, 401} ==> o.users == users && o.jar == jar
    // An accepted request sets the cookie, even when the store write then fails; no other request does.
    ensures Accepted(sessionFails, sessionId, body) ==>
              o.jar == jar[LocaleCookie := Cookie(body.fields.value, "/", OneYear, Lax, false)]
    ensures !Accepted(sessionFails, sessionId, body) ==> o.jar == jar
    // A throwing session lookup, an unreadable body, or a failed write is a server error.
    ensures o.reply == ServerError <==>
              sessionFails || (sessionId.Some? && body.Malformed?)
              || (Accepted(sessionFails, sessionId, body) && (writeFails || sessionId.value !in users))
    // Success exactly when the write succeeds; the signed-in user's record then holds the locale.
    ensures o.reply.Saved? <==>
              Accepted(sessionFails, sessionId, body) && !writeFails && sessionId.value in users
    ensures o.reply.Saved? ==>
              Some(o.reply.language) == ParseLocale(body.fields.value)
              && o.users == users[sessionId.value := users[sessionId.value].(language := Some(body.fields.value))]
    // No other outcome changes the user table.
    ensures !o.reply.Saved? ==> o.users == users
  {
    if sessionFails then Outcome(ServerError, users, jar)
    else if sessionId.None? then Outcome(Unauthorized, users, jar)
    else if body.Malformed? then Outcome(ServerError, users, jar)
    else if body.fields.None? || ParseLocale(body.fields.value).None? then Outcome(InvalidLanguage, users, jar)
    else
      var locale := ParseLocale(body.fields.value).value;
      var jar' := jar[LocaleCookie := Cookie(Name(locale), "/", OneYear, Lax, false)];
      var users' := PersistLanguage(users, sessionId, Some(locale), writeFails);
      Outcome(if !writeFails && sessionId.value in users then Saved(locale) else ServerError, users', jar')
  }

  /** The route handler, delegating to `saveLanguagePreference`. */
  method Post(db: Database, cookies: CookieStore, sessionFails: bool, sessionId: Option<UserId>,
              body: Body<Option<string>>, writeFails: bool) returns (reply: Reply)
    requires db.Valid()
    modifies db, cookies
    ensures db.Valid() && db.tokens == old(db.tokens)
    ensures var o := Update(old(db.users), old(cookies.cookies), sessionFails, sessionId, body, writeFails);
            reply == o.reply && db.users == o.users && cookies.cookies == o.jar
  {
    if sessionFails {
      return ServerError;
    }
    if sessionId.None? {
      return Unauthorized;
    }
    if body.Malformed? {
      return ServerError;
    }
    if body.fields.None? || ParseLocale(body.fields.value).None? {
      return InvalidLanguage;
    }
    var locale := ParseLocale(body.fields.value).value;
    var ok := SaveLanguagePreference(db, cookies, locale, sessionId, writeFails);
    if !ok {
      return ServerError;
    }
    return Saved(locale);
  }

  /** After a successful save, the resolver returns the saved locale for that user and writes nothing. */
  lemma SavedIsResolved(users: Users, jar: map<string, Cookie>, id: UserId, body: Body<Option<string>>,
                        cookie: Option<string>, header: Option<string>)
    requires Update(users, jar, false, Some(id), body, false).reply.Saved?
    ensures var o := Update(users, jar, false, Some(id), body, false);
            ResolveLanguage(o.users, Some(id), cookie, header, false) == Preference.Resolution(o.reply.language, None)
  {
  }
}
