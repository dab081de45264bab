/**
 * Colour-theme preference: validation against the supported themes, the
 * fixed `system` default, the resolution chain in its server-component and
 * middleware forms, and the explicit save.
 */
module Theme {
  import opened Wrappers
  import opened Text
  import opened Store
  import opened Http
  import Preference

  datatype Theme = Light | Dark | System

  const DefaultTheme: Theme := System

  /** Name of the cookie that carries the theme. */
  const ThemeCookie: string := "NEXT_THEME"

  /** The theme's name, as stored in the user table and in the cookie. */
  function Name(t: Theme): string {
    match t
    case Light => "light"
    case Dark => "dark"
    case System => "system"
  }

  /** `SUPPORTED_THEMES.includes(s)`: only the exact names `light`, `dark` and `system` are themes. */
  function ParseTheme(s: string): (r: Option<Theme>)
    ensures r.Some? ==> Name(r.value) == s
  {
    if s == "light" then Some(Light) else if s == "dark" then Some(Dark)
    else if s == "system" then Some(System) else None
  }

  /** Every theme's name parses back to that theme. */
  lemma ParseName(t: Theme)
    ensures ParseTheme(Name(t)) == Some(t)
  {
  }

  /**
   * `getSystemTheme`: the header is not consulted; the default `system`
   * leaves the light/dark choice to the browser.
   */
  function SystemTheme(prefersColorScheme: Option<string>): (t: Theme)
    ensures t == DefaultTheme
  {
    DefaultTheme
  }

  /** `getUserTheme`: the stored theme of the user, if the read succeeds and the stored text is a theme. */
  function StoredTheme(users: Users, id: UserId, readFails: bool): (r: Option<Theme>)
    ensures r.Some? <==> !readFails && id in users && users[id].theme.Some?
                         && ParseTheme(users[id].theme.value).Some?
    ensures r.Some? ==> users[id].theme == Some(Name(r.value))
  {
    if readFails || id !in users || users[id].theme.None? then None
    else ParseTheme(users[id].theme.value)
  }

  /** `getThemeFromCookie`: the cookie's value, if it is a theme. */
  function CookieTheme(cookie: Option<string>): (r: Option<Theme>)
    ensures r.Some? <==> cookie.Some? && (cookie.value == "light" || cookie.value == "dark" || cookie.value == "system")
    ensures r.Some? ==> cookie == Some(Name(r.value))
  {
    if cookie.Some? then ParseTheme(cookie.value) else None
  }

  /** The chain of `determineTheme` for a user (or none), a theme cookie and a prefers-color-scheme header. */
  function ResolveTheme(users: Users, userId: Option<UserId>, cookie: Option<string>, header: Option<string>,
                        readFails: bool): (r: Preference.Resolution<Theme>)
    // A readable, valid stored theme wins and is not rewritten.
    ensures userId.Some? && StoredTheme(users, userId.value, readFails).Some? ==>
              r == Preference.Resolution(StoredTheme(users, userId.value, readFails).value, None)
    // Otherwise a valid cookie, else the default `system`.
    ensures !(userId.Some? && StoredTheme(users, userId.value, readFails).Some?) ==>
              r.value == CookieTheme(cookie).GetOr(System)
    // The returned theme is written back exactly for a user with no readable, valid stored theme.
    ensures r.write.Some? <==> userId.Some? && StoredTheme(users, userId.value, readFails).None?
    ensures r.write.Some? ==> r.write.value == r.value
  {
    var stored := if userId.Some? then StoredTheme(users, userId.value, readFails) else None;
    Preference.Resolve(userId.Some?, stored, CookieTheme(cookie), SystemTheme(header))
  }

  /** The user table after the resolver's write, if it makes one (a failed write changes nothing). */
  function PersistTheme(users: Users, userId: Option<UserId>, write: Option<Theme>, writeFails: bool): (r: Users)
    ensures r.Keys == users.Keys
    // Only the identified user's record may change, and only its theme field, to the written theme's name.
    ensures forall id :: id in users && (userId != Some(id) || write.None? || writeFails) ==> r[id] == users[id]
    ensures userId.Some? && write.Some? && !writeFails && userId.value in users ==>
              r[userId.value] == users[userId.value].(theme := Some(Name(write.value)))
  {
    if userId.Some? && write.Some? then UpdatedUsers(users, userId.value, SetTheme(Name(write.value)), writeFails)
    else users
  }

  /** `getUserTheme`: a failed read and an invalid stored value both read as "no preference". */
  method GetUserTheme(db: Database, id: UserId, readFails: bool) returns (t: Option<Theme>)
    ensures t == StoredTheme(db.users, id, readFails)
  {
    var found := db.FindUser(id, readFails);
    if found.Threw? || found.row.None? {
      return None;
    }
    var theme := found.row.value.theme;
    if theme.Some? && ParseTheme(theme.value).Some? {
      return ParseTheme(theme.value);
    }
    return None;
  }

  /** `getThemeFromCookie`. */
  method GetThemeFromCookie(cookies: CookieStore) returns (t: Option<Theme>)
    ensures t == CookieTheme(cookies.Get(ThemeCookie))
  {
    var value := cookies.Get(ThemeCookie);
    if Truthy(value) && ParseTheme(value.value).Some? {
      return ParseTheme(value.value);
    }
    return None;
  }

  /**
   * `determineTheme`: stored preference, else cookie (persisted), else
   * `system` (persisted) for an identified user; cookie, else `system`, for an
   * anonymous one. Write failures are swallowed.
   */
  method DetermineTheme(db: Database, cookies: CookieStore, userId: Option<UserId>, header: Option<string>,
                        readFails: bool, writeFails: bool) returns (theme: Theme)
    requires db.Valid()
    modifies db
    ensures db.Valid() && db.tokens == old(db.tokens)
    ensures var r := ResolveTheme(old(db.users), userId, cookies.Get(ThemeCookie), header, readFails);
            theme == r.value && db.users == PersistTheme(old(db.users), userId, r.write, writeFails)
  {
    if userId.Some? {
      var id := userId.value;
      var userTheme := GetUserTheme(db, id, readFails);
      if userTheme.Some? {
        return userTheme.value;
      }
      var cookieTheme := GetThemeFromCookie(cookies);
      if cookieTheme.Some? {
        Preference.CookieIsPersisted(cookieTheme.value, SystemTheme(header));
        var saved := db.UpdateUser(id, SetTheme(Name(cookieTheme.value)), writeFails);
        return cookieTheme.value;
      }
      var systemTheme := SystemTheme(header);
      var saved := db.UpdateUser(id, SetTheme(Name(systemTheme)), writeFails);
      return systemTheme;
    }
    var cookieTheme := GetThemeFromCookie(cookies);
    if cookieTheme.Some? {
      return cookieTheme.value;
    }
    theme := SystemTheme(header);
  }

  /**
   * `determineThemeInMiddleware`: the same chain, with the identity taken from
   * the decoded session token and cookie and header read off the request.
   */
  method DetermineThemeInMiddleware(db: Database, request: Request, tokenId: Option<UserId>,
                                    readFails: bool, writeFails: bool) returns (theme: Theme)
    requires db.Valid()
    modifies db
    ensures db.Valid() && db.tokens == old(db.tokens)
    ensures var r := ResolveTheme(old(db.users), tokenId, Get(request.cookies, ThemeCookie),
                                  Get(request.headers, "prefers-color-scheme"), readFails);
            theme == r.value && db.users == PersistTheme(old(db.users), tokenId, r.write, writeFails)
  {
    var cookieTheme := Get(request.cookies, ThemeCookie);
    if tokenId.Some? {
      var userTheme := GetUserTheme(db, tokenId.value, readFails);
      if userTheme.Some? {
        return userTheme.value;
      }
      if Truthy(cookieTheme) && ParseTheme(cookieTheme.value).Some? {
        var fromCookie := ParseTheme(cookieTheme.value).value;
        Preference.CookieIsPersisted(fromCookie, SystemTheme(Get(request.headers, "prefers-color-scheme")));
        var saved := db.UpdateUser(tokenId.value, SetTheme(Name(fromCookie)), writeFails);
        return fromCookie;
      }
      var systemTheme := SystemTheme(Get(request.headers, "prefers-color-scheme"));
      var saved := db.UpdateUser(tokenId.value, SetTheme(Name(systemTheme)), writeFails);
      return systemTheme;
    }
    if Truthy(cookieTheme) && ParseTheme(cookieTheme.value).Some? {
      return ParseTheme(cookieTheme.value).value;
    }
    theme := SystemTheme(Get(request.headers, "prefers-color-scheme"));
  }

  /**
   * `saveThemePreference`: always sets the theme cookie; for a given user also
   * updates the record, and reports (re-throws) a failed update.
   */
  method SaveThemePreference(db: Database, cookies: CookieStore, theme: Theme, userId: Option<UserId>,
                             writeFails: bool) returns (ok: bool)
    requires db.Valid()
    modifies db, cookies
    ensures db.Valid() && db.tokens == old(db.tokens)
    ensures cookies.cookies == old(cookies.cookies)[ThemeCookie := Cookie(Name(theme), "/", OneYear, Lax, false)]
    ensures ok <==> userId.None? || (!writeFails && userId.value in old(db.users))
    ensures db.users == PersistTheme(old(db.users), userId, Some(theme), writeFails)
  {
    cookies.SetPreference(ThemeCookie, Name(theme));
    ok := true;
    if userId.Some? {
      ok := db.UpdateUser(userId.value, SetTheme(Name(theme)), writeFails);
    }
  }

  /** The theme resolver returns `system` whenever neither the record nor the cookie names a theme. */
  lemma DefaultIsSystem(users: Users, userId: Option<UserId>, cookie: Option<string>, header: Option<string>,
                        readFails: bool)
    requires userId.Some? ==> StoredTheme(users, userId.value, readFails).None?
    requires CookieTheme(cookie).None?
    ensures ResolveTheme(users, userId, cookie, header, readFails).value == System
  {
  }

  /** A stored theme is never overwritten by the resolver when the read succeeds. */
  lemma StoredThemeKept(users: Users, id: UserId, cookie: Option<string>, header: Option<string>, writeFails: bool)
    requires id in users && users[id].theme.Some? && ParseTheme(users[id].theme.value).Some?
    ensures var r := ResolveTheme(users, Some(id), cookie, header, false);
            r.value == ParseTheme(users[id].theme.value).value && r.write.None?
            && PersistTheme(users, Some(id), r.write, writeFails) == users
  {
  }

  /**
   * Resolving twice for an existing user: the second resolution returns the
   * first one's value and writes nothing, whatever cookie it sees.
   */
  lemma ResolveThemeTwice(users: Users, id: UserId, cookie: Option<string>, header: Option<string>,
                                             cookie': Option<string>, header': Option<string>)
    requires id in users
    ensures var r := ResolveTheme(users, Some(id), cookie, header, false);
            var users' := PersistTheme(users, Some(id), r.write, false);
            ResolveTheme(users', Some(id), cookie', header', false) == Preference.Resolution(r.value, None)
  {
    var r := ResolveTheme(users, Some(id), cookie, header, false);
    var users' := PersistTheme(users, Some(id), r.write, false);
    ParseName(r.value);
    assert StoredTheme(users', id, false) == Some(r.value);
  }

  /** After an explicit save for an existing user, the resolver returns the saved theme and writes nothing. */
  lemma SaveThenResolve(users: Users, id: UserId, theme: Theme, cookie: Option<string>, header: Option<string>)
    requires id in users
    ensures var users' := PersistTheme(users, Some(id), Some(theme), false);
            ResolveTheme(users', Some(id), cookie, header, false) == Preference.Resolution(theme, None)
  {
  }

  /** The saved cookie alone brings an anonymous request back to the saved theme. */
  lemma SavedCookieResolves(users: Users, theme: Theme, header: Option<string>, readFails: bool)
    ensures ResolveTheme(users, None, Some(Name(theme)), header, readFails) == Preference.Resolution(theme, None)
  {
  }

  /**
   * A failed read is taken for "no preference", so a successful write that
   * follows replaces a valid stored value with the cookie's.
   */
  lemma ReadFailureOverwritesStored(users: Users, id: UserId, header: Option<string>)
    requires id in users && users[id].theme == Some("light")
    ensures var r := ResolveTheme(users, Some(id), Some("dark"), header, true);
            r.value == Dark && PersistTheme(users, Some(id), r.write, false)[id].theme == Some("dark")
  {
    assert StoredTheme(users, id, true).None?;
    assert CookieTheme(Some("dark")) == Some(Dark);
    Preference.CookieIsPersisted(Dark, SystemTheme(header));
  }
}
