/**
 * Locale preference: validation against the supported locales, the
 * Accept-Language default, the resolution chain in its server-component and
 * middleware forms, and the explicit save.
 */
module Language {
  import opened Wrappers
  import opened Text
  import opened Store
  import opened Http
  import Preference

  datatype Locale = Fr | En

  const DefaultLocale: Locale := En

  /** Name of the cookie that carries the locale. */
  const LocaleCookie: string := "NEXT_LOCALE"

  /** The locale's tag, as stored in the user table and in the cookie. */
  function Name(l: Locale): string {
    match l
    case Fr => "fr"
    case En => "en"
  }

  /** `SUPPORTED_LOCALES.includes(s)`: only the exact tags `fr` and `en` are locales. */
  function ParseLocale(s: string): (r: Option<Locale>)
    ensures r.Some? ==> Name(r.value) == s
  {
    if s == "fr" then Some(Fr) else if s == "en" then Some(En) else None
  }

  /** Every locale's tag parses back to that locale. */
  lemma ParseName(l: Locale)
    ensures ParseLocale(Name(l)) == Some(l)
  {
  }

  /**
   * The primary language subtag of one comma-separated entry of an
   * Accept-Language header: the text before `;`, trimmed, cut at the first
   * `-`, lower-cased.
   */
  function PrimarySubtag(entry: string): (tag: string)
    ensures '-' !in tag
    ensures forall i :: 0 <= i < |tag| ==> !('A' <= tag[i] <= 'Z')
  {
    var primary := Split(Trim(Split(entry, ';')[0]), '-')[0];
    ToLowerKeepsAbsent(primary, '-');
    ToLower(primary)
  }

  /** `xs.map(f)`. */
  function Map<T, U>(f: T -> U, xs: seq<T>): seq<U> {
    seq(|xs|, i requires 0 <= i < |xs| => f(xs[i]))
  }

  /** Mapping commutes with putting an element in front. */
  lemma MapCons<T, U>(f: T -> U, x: T, xs: seq<T>)
    ensures Map(f, [x] + xs) == [f(x)] + Map(f, xs)
  {
    var whole := [x] + xs;
    assert forall i :: 1 <= i < |whole| ==> whole[i] == xs[i - 1];
  }

  /** The primary subtags of all entries of the header, in the order listed. */
  function LanguageTags(header: string): (tags: seq<string>)
    ensures |tags| == 1 + multiset(header)[',']
    ensures forall i :: 0 <= i < |tags| ==> '-' !in tags[i]
  {
    SplitCount(header, ',');
    var tags := Map(PrimarySubtag, Split(header, ','));
    assert forall i :: 0 <= i < |tags| ==> tags[i] == PrimarySubtag(Split(header, ',')[i]);
    tags
  }

  /** Entries map to tags one for one and in order: the first entry's tag heads the tags of the rest. */
  lemma LanguageTagsCons(first: string, rest: string)
    requires ',' !in first
    ensures LanguageTags(first + [','] + rest) == [PrimarySubtag(first)] + LanguageTags(rest)
  {
    SplitCons(first, ',', rest);
    MapCons(PrimarySubtag, first, Split(rest, ','));
  }

  /** The locale of the first tag that is a supported locale, if any. */
  function FirstSupported(tags: seq<string>): (r: Option<Locale>)
    ensures r.Some? ==> exists i :: 0 <= i < |tags| && tags[i] == Name(r.value)
    ensures (forall i :: 0 <= i < |tags| ==> ParseLocale(tags[i]).None?) ==> r.None?
    ensures forall i :: 0 <= i < |tags| && ParseLocale(tags[i]).Some? && (forall j :: 0 <= j < i ==> ParseLocale(tags[j]).None?)
                        ==> r == ParseLocale(tags[i])
  {
    if tags == [] then None
    else if ParseLocale(tags[0]).Some? then ParseLocale(tags[0])
    else
      var r := FirstSupported(tags[1..]);
      assert forall i :: 1 <= i < |tags| ==> tags[i] == tags[1..][i - 1];
      assert r.Some? ==> exists i :: 1 <= i < |tags| && tags[i] == Name(r.value);
      r
  }

  /**
   * `getSystemLanguage`: the default for an absent or empty header, else the
   * first listed entry whose primary subtag is supported (quality weights play
   * no part), else the default.
   */
  function SystemLanguage(header: Option<string>): (l: Locale)
    ensures !Truthy(header) ==> l == DefaultLocale
    // The earliest listed supported subtag decides.
    ensures Truthy(header) ==>
              var tags := LanguageTags(header.value);
              forall i :: 0 <= i < |tags| && ParseLocale(tags[i]).Some? && (forall j :: 0 <= j < i ==> ParseLocale(tags[j]).None?)
                          ==> l == ParseLocale(tags[i]).value
    // A header listing no supported subtag gives the default.
    ensures Truthy(header) ==>
              var tags := LanguageTags(header.value);
              (forall i :: 0 <= i < |tags| ==> ParseLocale(tags[i]).None?) ==> l == DefaultLocale
    // Any other locale is one the header lists.
    ensures l != DefaultLocale ==>
              Truthy(header) && exists i :: 0 <= i < |LanguageTags(header.value)| && LanguageTags(header.value)[i] == Name(l)
  {
    if !Truthy(header) then DefaultLocale
    else FirstSupported(LanguageTags(header.value)).GetOr(DefaultLocale)
  }

  /** The search loop of `getSystemLanguage`: returns at the first supported tag. */
  method FindSupported(languages: seq<string>) returns (r: Option<Locale>)
    ensures r == FirstSupported(languages)
  {
    for i := 0 to |languages|
      invariant forall j :: 0 <= j < i ==> ParseLocale(languages[j]).None?
    {
      var supported := ParseLocale(languages[i]);
      if supported.Some? {
        return supported;
      }
    }
    return None;
  }

  /** `getSystemLanguage`: parses the header and searches its tags. */
  method GetSystemLanguage(header: Option<string>) returns (l: Locale)
    ensures l == SystemLanguage(header)
  {
    if !Truthy(header) {
      return DefaultLocale;
    }
    var found := FindSupported(LanguageTags(header.value));
    l := found.GetOr(DefaultLocale);
  }

  /** Quality weights are ignored: whatever follows the first `;` of an entry does not change its subtag. */
  lemma QualityIgnored(tag: string, params: string)
    requires ';' !in tag
    ensures PrimarySubtag(tag + ";" + params) == PrimarySubtag(tag)
  {
    SplitHead(tag, ';', params);
    assert tag + ";" + params == tag + [';'] + params;
    SplitNoSeparator(tag, ';');
  }

  /**
   * The first entry decides when its subtag is supported, whatever follows it
   * (entries the user ranks higher by quality weight included).
   */
  lemma FirstEntryDecides(first: string, rest: string)
    requires ',' !in first && ParseLocale(PrimarySubtag(first)).Some?
    ensures SystemLanguage(Some(first + [','] + rest)) == ParseLocale(PrimarySubtag(first)).value
  {
    LanguageTagsCons(first, rest);
  }

  /** A region subtag does not matter: `xx-YY` has the primary subtag of `xx`. */
  lemma RegionIgnored(lang: string, region: string)
    requires lang != [] && !IsJsSpace(lang[0]) && !IsJsSpace(lang[|lang| - 1])
    requires region != [] && !IsJsSpace(region[|region| - 1])
    requires ';' !in lang && ';' !in region && '-' !in lang
    ensures PrimarySubtag(lang + "-" + region) == PrimarySubtag(lang) == ToLower(lang)
  {
    var tagged := lang + "-" + region;
    assert tagged == lang + ['-'] + region;
    SplitNoSeparator(tagged, ';');
    TrimTrimmed(tagged);
    SplitHead(lang, '-', region);
    BareSubtag(lang);
  }

  /** A bare tag without surrounding white space is its own primary subtag, lower-cased. */
  lemma BareSubtag(lang: string)
    requires lang != [] && !IsJsSpace(lang[0]) && !IsJsSpace(lang[|lang| - 1])
    requires ';' !in lang && '-' !in lang
    ensures PrimarySubtag(lang) == ToLower(lang)
  {
    SplitNoSeparator(lang, ';');
    TrimTrimmed(lang);
    SplitNoSeparator(lang, '-');
  }

  /** White space around an entry does not matter: a padded bare tag has the tag's lower-cased subtag. */
  lemma PaddingIgnored(lead: string, lang: string, trail: string)
    requires forall i :: 0 <= i < |lead| ==> IsJsSpace(lead[i])
    requires forall i :: 0 <= i < |trail| ==> IsJsSpace(trail[i])
    requires lang != [] && !IsJsSpace(lang[0]) && !IsJsSpace(lang[|lang| - 1])
    requires ';' !in lang && '-' !in lang
    ensures PrimarySubtag(lead + lang + trail) == PrimarySubtag(lang) == ToLower(lang)
  {
    var padded := lead + lang + trail;
    assert ';' !in lead && ';' !in trail by {
      assert !IsJsSpace(';');
    }
    SplitNoSeparator(padded, ';');
    TrimPadding(lead, lang, trail);
    SplitNoSeparator(lang, '-');
    BareSubtag(lang);
  }

  /** `getUserLanguage`: the stored locale of the user, if the read succeeds and the stored text is a locale. */
  function StoredLanguage(users: Users, id: UserId, readFails: bool): (r: Option<Locale>)
    ensures r.Some? <==> !readFails && id in users && users[id].language.Some?
                         && ParseLocale(users[id].language.value).Some?
    ensures r.Some? ==> users[id].language == Some(Name(r.value))
  {
    if readFails || id !in users || users[id].language.None? then None
    else ParseLocale(users[id].language.value)
  }

  /** `getLanguageFromCookies`: the cookie's value, if it is a locale. */
  function CookieLanguage(cookie: Option<string>): (r: Option<Locale>)
    ensures r.Some? <==> cookie.Some? && (cookie.value == "fr" || cookie.value == "en")
    ensures r.Some? ==> cookie == Some(Name(r.value))
  {
    if cookie.Some? then ParseLocale(cookie.value) else None
  }

  /** The chain of `determineLanguage` for a user (or none), a locale cookie and an Accept-Language header. */
  function ResolveLanguage(users: Users, userId: Option<UserId>, cookie: Option<string>, header: Option<string>,
                           readFails: bool): (r: Preference.Resolution<Locale>)
    // A readable, valid stored locale wins and is not rewritten.
    ensures userId.Some? && StoredLanguage(users, userId.value, readFails).Some? ==>
              r == Preference.Resolution(StoredLanguage(users, userId.value, readFails).value, None)
    // Otherwise a valid cookie, else the Accept-Language default.
    ensures !(userId.Some? && StoredLanguage(users, userId.value, readFails).Some?) ==>
              r.value == CookieLanguage(cookie).GetOr(SystemLanguage(header))
    // The returned locale is written back exactly for a user with no readable, valid stored locale.
    ensures r.write.Some? <==> userId.Some? && StoredLanguage(users, userId.value, readFails).None?
    ensures r.write.Some? ==> r.write.value == r.value
  {
    var stored := if userId.Some? then StoredLanguage(users, userId.value, readFails) else None;
    Preference.Resolve(userId.Some?, stored, CookieLanguage(cookie), SystemLanguage(header))
  }

  /** The user table after the resolver's write, if it makes one (a failed write changes nothing). */
  function PersistLanguage(users: Users, userId: Option<UserId>, write: Option<Locale>, writeFails: bool): (r: Users)
    ensures r.Keys == users.Keys
    // Only the identified user's record may change, and only its locale field, to the written locale's tag.
    ensures forall id :: id in users && (userId != Some(id) || write.None? || writeFails) ==> r[id] == users[id]
    ensures userId.Some? && write.Some? && !writeFails && userId.value in users ==>
              r[userId.value] == users[userId.value].(language := Some(Name(write.value)))
  {
    if userId.Some? && write.Some? then UpdatedUsers(users, userId.value, SetLanguage(Name(write.value)), writeFails)
    else users
  }

  /** `getUserLanguage`: a failed read and an invalid stored value both read as "no preference". */
  method GetUserLanguage(db: Database, id: UserId, readFails: bool) returns (l: Option<Locale>)
    ensures l == StoredLanguage(db.users, id, readFails)
  {
    var found := db.FindUser(id, readFails);
    if found.Threw? || found.row.None? {
      return None;
    }
    var language := found.row.value.language;
    if language.Some? && ParseLocale(language.value).Some? {
      return ParseLocale(language.value);
    }
    return None;
  }

  /** `getLanguageFromCookies`. */
  method GetLanguageFromCookies(cookies: CookieStore) returns (l: Option<Locale>)
    ensures l == CookieLanguage(cookies.Get(LocaleCookie))
  {
    var value := cookies.Get(LocaleCookie);
    if Truthy(value) && ParseLocale(value.value).Some? {
      return ParseLocale(value.value);
    }
    return None;
  }

  /**
   * `determineLanguage`: stored preference, else cookie (persisted), else the
   * header's language (persisted) for an identified user; cookie, else the
   * header's language, for an anonymous one. Write failures are swallowed.
   */
  method DetermineLanguage(db: Database, cookies: CookieStore, userId: Option<UserId>, header: Option<string>,
                           readFails: bool, writeFails: bool) returns (locale: Locale)
    requires db.Valid()
    modifies db
    ensures db.Valid() && db.tokens == old(db.tokens)
    ensures var r := ResolveLanguage(old(db.users), userId, cookies.Get(LocaleCookie), header, readFails);
            locale == r.value && db.users == PersistLanguage(old(db.users), userId, r.write, writeFails)
  {
    if userId.Some? {
      var id := userId.value;
      var userLanguage := GetUserLanguage(db, id, readFails);
      if userLanguage.Some? {
        return userLanguage.value;
      }
      var cookieLanguage := GetLanguageFromCookies(cookies);
      if cookieLanguage.Some? {
        Preference.CookieIsPersisted(cookieLanguage.value, SystemLanguage(header));
        var saved := db.UpdateUser(id, SetLanguage(Name(cookieLanguage.value)), writeFails);
        return cookieLanguage.value;
      }
      var systemLanguage := GetSystemLanguage(header);
      var saved := db.UpdateUser(id, SetLanguage(Name(systemLanguage)), writeFails);
      return systemLanguage;
    }
    var cookieLanguage := GetLanguageFromCookies(cookies);
    if cookieLanguage.Some? {
      return cookieLanguage.value;
    }
    locale := GetSystemLanguage(header);
  }

  /**
   * `determineLanguageInMiddleware`: the same chain, with the identity taken
   * from the decoded session token and cookie and header read off the request.
   */
  method DetermineLanguageInMiddleware(db: Database, request: Request, tokenId: Option<UserId>,
                                       readFails: bool, writeFails: bool) returns (locale: Locale)
    requires db.Valid()
    modifies db
    ensures db.Valid() && db.tokens == old(db.tokens)
    ensures var r := ResolveLanguage(old(db.users), tokenId, Get(request.cookies, LocaleCookie),
                                     Get(request.headers, "accept-language"), readFails);
            locale == r.value && db.users == PersistLanguage(old(db.users), tokenId, r.write, writeFails)
  {
    var cookieLocale := Get(request.cookies, LocaleCookie);
    if tokenId.Some? {
      var userLanguage := GetUserLanguage(db, tokenId.value, readFails);
      if userLanguage.Some? {
        return userLanguage.value;
      }
      if Truthy(cookieLocale) && ParseLocale(cookieLocale.value).Some? {
        var fromCookie := ParseLocale(cookieLocale.value).value;
        Preference.CookieIsPersisted(fromCookie, SystemLanguage(Get(request.headers, "accept-language")));
        var saved := db.UpdateUser(tokenId.value, SetLanguage(Name(fromCookie)), writeFails);
        return fromCookie;
      }
      var systemLanguage := GetSystemLanguage(Get(request.headers, "accept-language"));
      var saved := db.UpdateUser(tokenId.value, SetLanguage(Name(systemLanguage)), writeFails);
      return systemLanguage;
    }
    if Truthy(cookieLocale) && ParseLocale(cookieLocale.value).Some? {
      return ParseLocale(cookieLocale.value).value;
    }
    locale := GetSystemLanguage(Get(request.headers, "accept-language"));
  }

  /**
   * `saveLanguagePreference`: always sets the locale cookie; for a given user
   * also updates the record, and reports (re-throws) a failed update.
   */
  method SaveLanguagePreference(db: Database, cookies: CookieStore, locale: Locale, userId: Option<UserId>,
                                writeFails: bool) returns (ok: bool)
    requires db.Valid()
    modifies db, cookies
    ensures db.Valid() && db.tokens == old(db.tokens)
    ensures cookies.cookies == old(cookies.cookies)[LocaleCookie := Cookie(Name(locale), "/", OneYear, Lax, false)]
    ensures ok <==> userId.None? || (!writeFails && userId.value in old(db.users))
    ensures db.users == PersistLanguage(old(db.users), userId, Some(locale), writeFails)
  {
    cookies.SetPreference(LocaleCookie, Name(locale));
    ok := true;
    if userId.Some? {
      ok := db.UpdateUser(userId.value, SetLanguage(Name(locale)), writeFails);
    }
  }

  /** A stored locale is never overwritten by the resolver when the read succeeds. */
  lemma StoredLanguageKept(users: Users, id: UserId, cookie: Option<string>, header: Option<string>, writeFails: bool)
    requires id in users && users[id].language.Some? && ParseLocale(users[id].language.value).Some?
    ensures var r := ResolveLanguage(users, Some(id), cookie, header, false);
            r.value == ParseLocale(users[id].language.value).value && r.write.None?
            && PersistLanguage(users, Some(id), r.write, writeFails) == users
  {
  }

  /**
   * Resolving twice for an existing user: the second resolution returns the
   * first one's value and writes nothing, whatever cookie and header it sees.
   */
  lemma ResolveLanguageTwice(users: Users, id: UserId, cookie: Option<string>, header: Option<string>,
                                                cookie': Option<string>, header': Option<string>)
    requires id in users
    ensures var r := ResolveLanguage(users, Some(id), cookie, header, false);
            var users' := PersistLanguage(users, Some(id), r.write, false);
            ResolveLanguage(users', Some(id), cookie', header', false) == Preference.Resolution(r.value, None)
  {
    var r := ResolveLanguage(users, Some(id), cookie, header, false);
    var users' := PersistLanguage(users, Some(id), r.write, false);
    ParseName(r.value);
    assert StoredLanguage(users', id, false) == Some(r.value);
  }

  /** After an explicit save for an existing user, the resolver returns the saved locale and writes nothing. */
  lemma SaveThenResolve(users: Users, id: UserId, locale: Locale, cookie: Option<string>, header: Option<string>)
    requires id in users
    ensures var users' := PersistLanguage(users, Some(id), Some(locale), false);
            ResolveLanguage(users', Some(id), cookie, header, false) == Preference.Resolution(locale, None)
  {
  }

  /** The saved cookie alone brings an anonymous request back to the saved locale. */
  lemma SavedCookieResolves(users: Users, locale: Locale, header: Option<string>, readFails: bool)
    ensures ResolveLanguage(users, None, Some(Name(locale)), header, readFails) == Preference.Resolution(locale, None)
  {
  }

  /**
   * A failed read is taken for "no preference", so a successful write that
   * follows replaces a valid stored value with the cookie's.
   */
  lemma ReadFailureOverwritesStored(users: Users, id: UserId, header: Option<string>)
    requires id in users && users[id].language == Some("fr")
    ensures var r := ResolveLanguage(users, Some(id), Some("en"), header, true);
            r.value == En && PersistLanguage(users, Some(id), r.write, false)[id].language == Some("en")
  {
    assert StoredLanguage(users, id, true).None?;
    assert CookieLanguage(Some("en")) == Some(En);
    Preference.CookieIsPersisted(En, SystemLanguage(header));
  }
}
