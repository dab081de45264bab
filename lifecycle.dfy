/**
 * Properties of the account lifecycle that span several requests: signing up,
 * following the mailed link, asking for a new link, and signing in.
 */
module Lifecycle {
  import opened Wrappers
  import opened Store
  import opened Http
  import Signup
  import VerifyEmail
  import ResendVerification
  import Auth

  /** Under the email constraint, a row holding the email is the one the lookup finds. */
  lemma LookupFinds(users: Users, id: UserId, email: string)
    requires UniqueEmails(users) && id in users && users[id].email == email
    ensures UserWithEmail(users, email) == Some(id)
  {
  }

  /** The link mailed at signup verifies the new account when followed within 24 hours. */
  lemma SignupThenVerify(t: Tables, body: Body<Signup.Fields>, newId: UserId, hash: string, token: string, now: int,
                         fault: Option<nat>, mailFails: bool, later: int)
    requires UniqueEmails(t.users) && token != ""
    requires Signup.Signup(t, body, newId, hash, token, now, fault, mailFails).reply == Signup.Created
    requires later <= now + TokenLifetime
    ensures var t' := Signup.Signup(t, body, newId, hash, token, now, fault, mailFails).tables;
            var v := VerifyEmail.Verify(t', Some(token), later, None);
            v.reply == VerifyEmail.Verified && v.tables.users[newId].emailVerified == Some(later)
  {
    var t' := Signup.Signup(t, body, newId, hash, token, now, fault, mailFails).tables;
    LookupFinds(t'.users, newId, body.fields.email.value);
  }

  /**
   * Credentials sign-in across the lifecycle: refused as unverified right
   * after signup whatever the password, and accepted after verification
   * exactly when the password matches the stored hash.
   */
  lemma SignInAfterVerification(t: Tables, body: Body<Signup.Fields>, newId: UserId, hash: string, token: string,
                                now: int, later: int, matches: (string, string) -> bool)
    requires UniqueEmails(t.users) && token != "" && hash != ""
    requires Signup.Signup(t, body, newId, hash, token, now, None, false).reply == Signup.Created
    requires later <= now + TokenLifetime
    ensures var t' := Signup.Signup(t, body, newId, hash, token, now, None, false).tables;
            var creds := Auth.Credentials(body.fields.email, body.fields.password);
            UniqueEmails(t'.users)
            && Auth.Authorize(t'.users, creds, false, matches) == Auth.Rejected(Auth.EmailNotVerified)
            && var t'' := VerifyEmail.Verify(t', Some(token), later, None).tables;
               UniqueEmails(t''.users)
               && (Auth.Authorize(t''.users, creds, false, matches).Authorized?
                   <==> matches(body.fields.password.value, hash))
  {
    var t' := Signup.Signup(t, body, newId, hash, token, now, None, false).tables;
    var email := body.fields.email.value;
    LookupFinds(t'.users, newId, email);
    SignupThenVerify(t, body, newId, hash, token, now, None, false, later);
    var t'' := VerifyEmail.Verify(t', Some(token), later, None).tables;
    UpdateKeepsEmailsUnique(t'.users, newId, SetEmailVerified(later));
    LookupFinds(t''.users, newId, email);
  }

  /**
   * After a resend, every link issued earlier for that email is dead, and the
   * new link verifies the account when followed within 24 hours.
   */
  lemma ResendRevokesOldLinks(t: Tables, email: string, token: string, now: int, fault: Option<nat>, mailFails: bool,
                              earlier: string, later: int, fault': Option<nat>)
    requires UniqueEmails(t.users) && token != ""
    requires ResendVerification.Resend(t, Parsed(Some(email)), token, now, fault, mailFails).reply
             == ResendVerification.Resent
    requires earlier in t.tokens && t.tokens[earlier].identifier == email && earlier != token && earlier != ""
    ensures var t' := ResendVerification.Resend(t, Parsed(Some(email)), token, now, fault, mailFails).tables;
            VerifyEmail.Verify(t', Some(earlier), later, fault').reply in {VerifyEmail.InvalidToken, VerifyEmail.ServerError}
    ensures var t' := ResendVerification.Resend(t, Parsed(Some(email)), token, now, fault, mailFails).tables;
            later <= now + TokenLifetime ==> VerifyEmail.Verify(t', Some(token), later, None).reply == VerifyEmail.Verified
  {
  }
}
