# MetamorphUI preferences and email-verification core, in Dafny

This project models the server-side logic of MetamorphUI, a Next.js application:

- **Preference resolution** for the interface locale (`fr`, `en`) and the colour theme (`light`, `dark`, `system`). Each runs in a server-component form and a middleware form. The chain is:
  - a signed-in user's stored preference wins;
  - otherwise the cookie wins and is copied into the record;
  - otherwise the default (from the `Accept-Language` header for the locale, always `system` for the theme) is used and copied into the record;
  - an anonymous visitor gets the cookie or the default, and nothing is written.
- **The explicit save** sets the preference cookie for one year and updates the record. Only there does a failed write surface, as a 500 from the two preference routes.
- **The email-verification lifecycle.** Signup creates an unverified account and one 24-hour token. Resend replaces every token of an unverified email with a fresh one. Verify consumes a token and stamps the account as verified.
- **Credentials sign-in (`authorize`)**, the `session` callback that fills in `session.user`, and the order of the sign-in providers.

The layout is one module per source file, plus shared modules:

| module | contents |
|---|---|
| `Wrappers` | `Option` |
| `Text` | JavaScript `split`, `trim`, `toLowerCase` and UTF-16 `length` |
| `Store` | the user and verification-token tables, and the ORM calls on them as a `Database` class |
| `Http` | requests, cookies, the response cookie store |
| `Preference` | the priority chain, defined once and shared by locale and theme |

The signup, resend, verify and preference-saving handlers have two forms:

- a pure function of the tables and inputs to a reply and the new tables; the properties are stated on it;
- a method that performs the same store calls one at a time on the `Database` object, proved equal to the function.

`GET` on the theme route has only the method form. It is proved against `ResolveTheme` and `PersistTheme`, like the resolvers it calls.

The resolution chains are methods over the `Database` and `CookieStore` objects. They are proved against `ResolveLanguage` / `ResolveTheme`, and `PersistLanguage` / `PersistTheme`.

Failures are inputs:

- In the preference functions, `readFails` / `writeFails` say whether a store read or write throws.
- In the handlers, `fault` is the ordinal of the store call that throws. The handler aborts there, and every write made before it stays, since there is no transaction.
- An ORM update or delete of a missing row throws, and so does an insert that duplicates a unique key. The email column's uniqueness is the `Database.Valid()` invariant.
- The clock is an integer count of milliseconds.
- The bcrypt hash, the random token and the database-assigned id are parameters. `bcrypt.compare` is a function parameter.
- Whether the mailer accepts the verification mail is a boolean.

## Code and design intent

The resolvers' own comments rank the user's stored preference as "priority 1 (highest priority)", above the cookie and the default (`lib/language.ts:132`, `lib/theme.ts:127`). Read literally, that means a stored preference is never overwritten by a lower-priority source. The code does not fully honour this, and the model follows the code.

- `getUserLanguage` / `getUserTheme` turn a failed read into "no preference".
- The cookie or default write that follows is therefore made even when a valid value is stored.
- If that write succeeds, it replaces the stored value.

`Language.ReadFailureOverwritesStored` and `Theme.ReadFailureOverwritesStored` state this. When the read succeeds, the stored value always wins and nothing is written (`StoredLanguageKept`, `StoredThemeKept`).

The resend route is meant not to reveal whether an account exists. Only its status code hides this: the messages for an unknown email and for a sent link differ, and messages are not part of this model (`ResendVerification.StatusHidesAccount`).

## Model

| member | source | states |
|---|---|---|
| Text.Split | lib/language.ts:63-65 | `split(sep)` yields at least one part, no part contains the separator, and joining the parts with it gives back the input |
| Text.SplitJoin | lib/language.ts:63-65 | splitting the join of separator-free parts gives back exactly those parts |
| Text.Trim | lib/language.ts:65 | `trim()` keeps a contiguous slice that neither starts nor ends with ECMAScript white space, and everything cut from either side is white space |
| Text.TrimPadding | lib/language.ts:65 | `trim()` removes any white space padding on both sides of a string that neither starts nor ends with white space, and gives back exactly that string |
| Text.TrimTrimmed | lib/language.ts:65 | a nonempty string that neither starts nor ends with white space is unchanged by `trim()` |
| Text.ToLower | lib/language.ts:65 | `toLowerCase()` keeps the length and maps each ASCII capital to its lower-case letter, leaving other characters alone |
| Text.Utf16Length | app/api/auth/signup/route.ts:18 | `password.length` counts UTF-16 code units: between the character count and twice it, and equal to it when no character is astral |
| Text.Utf16Char | app/api/auth/signup/route.ts:18 | one character is one UTF-16 code unit, or two when it lies outside the Basic Multilingual Plane |
| Text.Utf16Concat | app/api/auth/signup/route.ts:18 | the code-unit count of a concatenation is the sum of the counts; with the single-character case this fixes `length` on every string |
| Store.UserWithEmail | app/api/auth/verify-email/route.ts:41-43 | the email lookup finds the user holding that email, or reports that no user holds it |
| Store.UpdatedUsers | lib/language.ts:147-150 | `user.update` changes only the addressed record and only the given column; a failed or missing-row update changes nothing |
| Store.WithoutIdentifier | app/api/auth/resend-verification/route.ts:39-41 | `deleteMany` by identifier removes exactly that email's tokens and keeps every other token unchanged |
| Store.Database.FindUser | lib/language.ts:19-22 | the id lookup returns the row, nothing, or throws |
| Store.Database.FindUserByEmail | app/api/auth/signup/route.ts:26-28 | the email lookup returns the holder's id, nothing, or throws |
| Store.Database.FindToken | app/api/auth/verify-email/route.ts:17-19 | the token lookup returns the row, nothing, or throws |
| Store.Database.UpdateUser | lib/language.ts:147-150 | the update succeeds exactly when it does not throw and the user exists; the email constraint is kept |
| Store.Database.CreateUser | app/api/auth/signup/route.ts:58-66 | the insert succeeds exactly when neither the id nor the email is taken; the email constraint is kept |
| Store.Database.CreateToken | app/api/auth/signup/route.ts:69-75 | the token insert succeeds exactly when the token string is new |
| Store.Database.DeleteToken | app/api/auth/verify-email/route.ts:58-60 | the delete removes exactly that token, and throws when it is absent |
| Store.Database.DeleteTokensFor | app/api/auth/resend-verification/route.ts:39-41 | `deleteMany` leaves exactly the tokens of other emails |
| Http.CookieStore.SetPreference | lib/language.ts:265-270 | the preference cookie is set with path `/`, a one-year max-age and `lax` same-site; other cookies stay |
| Preference.Resolve | lib/language.ts:128-187 | an identified user's stored value wins; otherwise the cookie, else the fallback; the result is written back exactly when the user is identified and has nothing stored, and the write is the returned value |
| Preference.FirstPresent | lib/language.ts:128-187 | the first present source in priority order wins; with none present the fallback is used |
| Preference.StoredValueWins | lib/language.ts:128-137 | an identified user's stored value is returned and nothing is written |
| Preference.CookieIsPersisted | lib/language.ts:140-156 | with no stored value, a valid cookie is returned and written to the record |
| Preference.FallbackIsPersisted | lib/language.ts:158-172 | with neither, the default is returned and written to the record |
| Preference.AnonymousNeverWrites | lib/language.ts:175-187 | without a user the result is the cookie or the default, and nothing is written |
| Preference.ResolveIsStable | lib/language.ts:128-172 | once the first resolution's write is stored, a second resolution returns the same value and writes nothing, whatever cookie and default it sees |
| Language.ParseLocale | lib/language.ts:11-12 | only the exact tags `fr` and `en` are locales |
| Language.ParseName | lib/language.ts:11-12 | each locale's tag parses back to that locale |
| Language.FirstSupported | lib/language.ts:67-72 | the first supported tag in the list wins; none supported gives none; a found locale is one the list holds |
| Language.SystemLanguage | lib/language.ts:57-75 | an absent or empty header gives `en`; otherwise the earliest listed primary subtag that is `fr` or `en` decides; a header listing neither gives `en`; any locale other than `en` is one the header lists |
| Language.PrimarySubtag | lib/language.ts:63-65 | an entry's primary subtag holds no `-` and no ASCII capital; white space before and after an entry is dropped before the subtag is cut (see Language.PaddingIgnored) |
| Language.LanguageTags | lib/language.ts:63-65 | the header yields one tag per comma-separated entry (one more than its commas), none holding a `-` |
| Language.LanguageTagsCons | lib/language.ts:63-65 | entries map to tags one for one and in order: the first comma-free entry's subtag heads the tags of the rest of the header |
| Language.FindSupported | lib/language.ts:67-74 | the early-return loop finds the same tag as the first-supported search |
| Language.GetSystemLanguage | lib/language.ts:57-75 | `getSystemLanguage` computes exactly the header default |
| Language.QualityIgnored | lib/language.ts:63-65 | q-weights and other parameters after `;` do not change an entry's subtag |
| Language.FirstEntryDecides | lib/language.ts:62-74 | an entry whose subtag is supported decides the result whatever follows it, weights included |
| Language.RegionIgnored | lib/language.ts:65 | `xx-YY` has the primary subtag of `xx`, lower-cased |
| Language.PaddingIgnored | lib/language.ts:65 | an entry padded with white space on either side has the same primary subtag as the bare entry, which is the entry lower-cased |
| Language.BareSubtag | lib/language.ts:65 | an entry without `;`, `-` or surrounding white space is its own primary subtag, lower-cased |
| Language.StoredLanguage | lib/language.ts:17-33 | the stored locale is returned only when the read succeeds and the stored text is `fr` or `en` |
| Language.CookieLanguage | lib/language.ts:38-52 | the cookie counts only when its value is `fr` or `en` |
| Language.ResolveLanguage | lib/language.ts:128-187 | a readable, valid stored locale wins and is not rewritten; otherwise a valid cookie, else the header's locale; the returned locale is written back exactly for a signed-in user without a readable, valid stored one |
| Language.PersistLanguage | lib/language.ts:147-150 | the resolver's write changes only the signed-in user's locale column, to the written tag, and nothing when it fails or there is nothing to write |
| Language.GetUserLanguage | lib/language.ts:17-33 | `getUserLanguage` returns exactly the stored locale; a read error gives none |
| Language.GetLanguageFromCookies | lib/language.ts:38-52 | `getLanguageFromCookies` returns exactly the valid cookie locale |
| Language.DetermineLanguage | lib/language.ts:81-188 | the returned locale and the record written are those of the priority chain; the token table is untouched |
| Language.DetermineLanguageInMiddleware | lib/language.ts:193-253 | the middleware form makes the same decision and the same write, from the request's cookie and header |
| Language.SaveLanguagePreference | lib/language.ts:260-285 | the save sets the locale cookie, writes the record only for a given user, and reports a failed write |
| Language.StoredLanguageKept | lib/language.ts:128-137 | when the read succeeds, a valid stored locale is returned and never overwritten |
| Language.ResolveLanguageTwice | lib/language.ts:128-172 | after the first resolution's write, a second one returns the same locale and writes nothing |
| Language.SaveThenResolve | lib/language.ts:260-285 | after a successful save, the resolver returns the saved locale for that user and writes nothing |
| Language.SavedCookieResolves | lib/language.ts:175-182 | the saved cookie alone brings an anonymous request back to the saved locale |
| Language.ReadFailureOverwritesStored | lib/language.ts:29-32 | a failed read followed by a successful write replaces a valid stored locale with the cookie's |
| Theme.ParseTheme | lib/theme.ts:11-12 | only the exact names `light`, `dark` and `system` are themes |
| Theme.ParseName | lib/theme.ts:11-12 | each theme's name parses back to that theme |
| Theme.SystemTheme | lib/theme.ts:67-72 | the header default is `system` for every header value |
| Theme.StoredTheme | lib/theme.ts:17-38 | the stored theme is returned only when the read succeeds and the stored text is a theme |
| Theme.ResolveTheme | lib/theme.ts:124-175 | a readable, valid stored theme wins and is not rewritten; otherwise a valid cookie, else `system`; the returned theme is written back exactly for a signed-in user without a readable, valid stored one |
| Theme.PersistTheme | lib/theme.ts:138-141 | the resolver's write changes only the signed-in user's theme column, to the written name, and nothing when it fails or there is nothing to write |
| Theme.CookieTheme | lib/theme.ts:43-60 | the cookie counts only when its value is `light`, `dark` or `system` |
| Theme.GetUserTheme | lib/theme.ts:17-38 | `getUserTheme` returns exactly the stored theme; a read error gives none |
| Theme.GetThemeFromCookie | lib/theme.ts:43-60 | `getThemeFromCookie` returns exactly the valid cookie theme |
| Theme.DetermineTheme | lib/theme.ts:78-176 | the returned theme and the record written are those of the priority chain; the token table is untouched |
| Theme.DetermineThemeInMiddleware | lib/theme.ts:181-242 | the middleware form makes the same decision and the same write, from the request's cookie |
| Theme.SaveThemePreference | lib/theme.ts:249-273 | the save sets the theme cookie, writes the record only for a given user, and reports a failed write |
| Theme.DefaultIsSystem | lib/theme.ts:151-175 | with neither a valid stored theme nor a valid cookie the result is `system` |
| Theme.StoredThemeKept | lib/theme.ts:124-130 | when the read succeeds, a valid stored theme is returned and never overwritten |
| Theme.ResolveThemeTwice | lib/theme.ts:124-163 | after the first resolution's write, a second one returns the same theme and writes nothing |
| Theme.SaveThenResolve | lib/theme.ts:249-273 | after a successful save, the resolver returns the saved theme for that user and writes nothing |
| Theme.SavedCookieResolves | lib/theme.ts:166-175 | the saved cookie alone brings an anonymous request back to the saved theme |
| Theme.ReadFailureOverwritesStored | lib/theme.ts:34-37 | a failed read followed by a successful write replaces a valid stored theme with the cookie's |
| VerifyEmail.MarkVerified | app/api/auth/verify-email/route.ts:53-56 | exactly the account holding the token's email gets the verification instant; no account means no change |
| VerifyEmail.Verify | app/api/auth/verify-email/route.ts:4-73 | the outcome for each case, each an if-and-only-if:<br>• missing token: 400 with nothing read;<br>• token lookup throws: 500 with no change;<br>• unknown token: 400 with no change;<br>• expired token (`expires < now`): 400 with that token deleted, or 500 with no change when the delete throws;<br>• live token naming no account: 404 with no change;<br>• user lookup, user update or token delete throwing: 500, keeping exactly the writes made before it;<br>• success exactly when the token is live, names an account and no store call throws: that account verified and that token deleted;<br>• on every path, no other account or token changes |
| VerifyEmail.Get | app/api/auth/verify-email/route.ts:4-73 | the handler's store calls produce exactly that reply and those tables |
| VerifyEmail.TokenIsSingleUse | app/api/auth/verify-email/route.ts:58-60 | after a successful verification the same link is an unknown token and changes nothing |
| VerifyEmail.ExpiryBoundary | app/api/auth/verify-email/route.ts:29 | expiry is strict: a link followed at the instant its token expires still verifies, and one millisecond later it is refused as expired |
| VerifyEmail.ExpiredNeverVerifies | app/api/auth/verify-email/route.ts:29-38 | an expired link never verifies and never touches a user, whatever the store does |
| Signup.Signup | app/api/auth/signup/route.ts:7-102 | the outcome for each case, each an if-and-only-if:<br>• malformed body: 500;<br>• missing email or password: 400 before any lookup;<br>• password under 6 UTF-16 units: 400;<br>• email lookup throws: 500 with no change;<br>• existing account: 400, nothing created; unverified exactly when the reply carries the resend URL;<br>• every 400 writes nothing and sends nothing;<br>• user insert throws: 500 with no change; token insert throws: 500 with the new user left behind;<br>• success exactly for a new email when no insert fails: one unverified user with the `system` theme and the name or null, and one token for the email expiring 24 hours later;<br>• the mail outcome never changes the reply;<br>• the email constraint is kept |
| Signup.Register | app/api/auth/signup/route.ts:58-94 | for a new email: the user insert throwing changes nothing; the token insert throwing leaves the user behind; otherwise exactly the new user and its 24-hour token, with the mail sent unless the mailer fails |
| Signup.NewAccount | app/api/auth/signup/route.ts:58-66 | the inserted row holds the email, the name or null, the password hash, no verification instant, the `system` theme and no locale or image |
| Signup.Post | app/api/auth/signup/route.ts:7-102 | the handler's store calls produce exactly that reply, those tables and that mail |
| Signup.SixCharactersSuffice | app/api/auth/signup/route.ts:18-23 | a six-character password from the Basic Multilingual Plane passes the length check |
| Signup.MailFailureIgnored | app/api/auth/signup/route.ts:78-94 | a mailer failure leaves the reply and the tables as they would be after a successful send |
| ResendVerification.Resend | app/api/auth/resend-verification/route.ts:6-76 | the outcome for each case, each an if-and-only-if:<br>• malformed body: 500;<br>• missing email: 400;<br>• email lookup throws: 500 with no change;<br>• unknown or verified email: 200 with no change;<br>• token delete throws: 500 with no change;<br>• token insert throws: 500 with the email's old tokens already deleted;<br>• success exactly for an unverified account when no store call throws: the email ends with exactly one token, the fresh one, expiring 24 hours later, and the mail carries the account's name;<br>• tokens of other emails never change;<br>• the user table is never written;<br>• the mail outcome never changes the reply |
| ResendVerification.Post | app/api/auth/resend-verification/route.ts:6-76 | the handler's store calls produce exactly that reply, those tables and that mail |
| ResendVerification.StatusHidesAccount | app/api/auth/resend-verification/route.ts:22-36 | with a working store, every existing or unknown email gets status 200 |
| LanguageRoute.Update | app/api/user/preferences/language/route.ts:11-44 | the outcome for each case, each an if-and-only-if:<br>• no session id: 401 whatever the body;<br>• a language other than `fr`/`en`: 400;<br>• every 4xx changes neither the record nor the cookies;<br>• an accepted language always sets the one-year `NEXT_LOCALE` cookie to it, and no other request touches the cookies;<br>• 500 exactly when the session lookup throws, the body is unreadable, or the write fails;<br>• 200 exactly when the session user's record is updated to the language |
| LanguageRoute.Post | app/api/user/preferences/language/route.ts:11-44 | the handler, through `saveLanguagePreference`, produces exactly that reply, record and cookie |
| LanguageRoute.SavedIsResolved | app/api/user/preferences/language/route.ts:27-29 | after a 200, the resolver returns the saved locale for that user |
| ThemeRoute.Get | app/api/user/preferences/theme/route.ts:12-29 | `GET` answers the theme the chain resolves and makes its write; a failing session lookup gives 500 and no write |
| ThemeRoute.Update | app/api/user/preferences/theme/route.ts:31-63 | the outcome for each case, each an if-and-only-if:<br>• no session id: 401 whatever the body;<br>• a theme outside `light`/`dark`/`system`: 400;<br>• every 4xx changes neither the record nor the cookies;<br>• an accepted theme always sets the one-year `NEXT_THEME` cookie to it, and no other request touches the cookies;<br>• 500 exactly when the session lookup throws, the body is unreadable, or the write fails;<br>• 200 exactly when the session user's record is updated to the theme |
| ThemeRoute.Post | app/api/user/preferences/theme/route.ts:31-63 | the handler, through `saveThemePreference`, produces exactly that reply, record and cookie |
| ThemeRoute.SavedIsResolved | app/api/user/preferences/theme/route.ts:46-48 | after a 200, the resolver behind `GET` returns the saved theme for that user |
| Auth.Authorize | lib/auth.ts:17-52 | the checks run in order:<br>• an incomplete form is rejected as invalid credentials;<br>• a store error is rejected;<br>• an unverified account is rejected before its password is compared;<br>• success exactly for a verified account with a password that matches;<br>• success yields only id, email, name and image |
| Auth.UnverifiedIgnoresPassword | lib/auth.ts:33-45 | for an unverified account the verdict does not depend on the password comparison |
| Auth.OAuthAccountRejected | lib/auth.ts:28-30 | an account without a password is rejected as invalid credentials |
| Auth.MapSession | lib/auth.ts:156-180 | the session's id handling:<br>• a token id becomes the session id;<br>• without one, a successful email lookup sets the id on both session and token;<br>• a failed lookup leaves the id unset.<br>A token picture overrides the image, and the email never changes |
| Auth.Session | lib/auth.ts:156-180 | the callback's in-place assignments leave session user and token as that mapping says, and nothing at all without a session user |
| Auth.OAuthPair | lib/auth.ts:57 | an OAuth provider is configured exactly when both its id and its secret are non-empty |
| Auth.ProviderOrder | lib/auth.ts:10-81 | the credentials provider comes last, and each OAuth provider is present exactly when both its variables are set. There is at most one entry per provider, and GitHub precedes Google. Each entry carries the client id and secret from its own variables |
| Auth.BuildProviders | lib/auth.ts:10-81 | the list built by prepending Google, then GitHub, to the credentials provider is in exactly that order |
| Lifecycle.SignupThenVerify | app/api/auth/signup/route.ts:53-75 | the link mailed at signup verifies the new account when followed within 24 hours |
| Lifecycle.SignInAfterVerification | lib/auth.ts:17-52 | right after signup, credentials sign-in is refused as unverified whatever the password; after verification it succeeds exactly when the password matches |
| Lifecycle.ResendRevokesOldLinks | app/api/auth/resend-verification/route.ts:39-55 | after a resend, every earlier link for the email is dead, and the new link verifies within 24 hours |

## Left out

- Session and JWT decoding (`getServerSession`, `getToken`, the mock request built for it in `determineLanguage` / `determineTheme`): the resolved identity is an input (`userId`, `tokenId`, `sessionId`). In the routes, `sessionFails` stands for a session lookup that throws.
- The `jwt` and `signIn` callbacks of `lib/auth.ts`: the retry after a timer is a workaround for an adapter race, and the `signIn` callback only logs.
- The rest of the provider configuration (OAuth account linking, page paths, session lifetime): it is configuration data, not logic.
- `lib/email.ts`: sending is reduced to the mail handed over and whether the mailer accepts it.
- bcrypt and `crypto.randomBytes`: the hash, the comparison and the token are parameters. Because the hash is a parameter, `bcrypt.hash` throwing in signup (app/api/auth/signup/route.ts:50, which the source would answer with a 500) is not modelled: hashing always succeeds.
- Response messages and JSON bodies: each reply is a constructor carrying its status code.
- JSON bodies whose fields are not strings: a field is either a string or absent, and a body that does not parse is `Malformed`.
- Logging, and races between concurrent requests (last writer wins).
- The React pages and components, `i18n.ts` and `middleware.ts`: these are not part of this model.
- Signup.Signup: the expiry is `now` plus 24 hours of elapsed time; `setHours` on a local date can differ by an hour across a daylight-saving change.
- Signup.Register: the same 24-hour simplification of `setHours`.
- ResendVerification.Resend: the same 24-hour simplification of `setHours`.
- Text.ToLower: lower-cases ASCII letters only. No non-ASCII character lower-cases to a letter of `fr` or `en`, so the locale found is the same.
- Store.User: `email` is a plain string, although the column is nullable for accounts created through OAuth.
- `bcrypt.compare` throwing is not modelled: `matches` always answers.
- VerifyEmail.Verify: the verification stamp is taken at the same instant `now` as the expiry check. The source reads the clock twice (app/api/auth/verify-email/route.ts:29 and :55), so the stamp may be slightly later than the instant compared with `expires`.
