/** Properties of the user controller's handlers: the invariant they keep,
    the order of their checks, the lifetime and single use of reset tokens,
    and what several requests in a row achieve. */
module FlowProperties {
  import opened Common
  import opened Accounts
  import Hex
  import Passport
  import opened Flows

  // ---------------------------------------------------------------------
  // The invariant
  // ---------------------------------------------------------------------

  /** Replacing a record by one with the same id and email, and reset fields
      present or absent together, keeps the state consistent. */
  lemma UpdateKeepsConsistent(st: State, i: nat, user: Account, current: Option<nat>)
    requires Consistent(st)
    requires i < |st.users|
    requires user.id == st.users[i].id && user.email == st.users[i].email
    requires user.resetToken.Some? <==> user.resetExpires.Some?
    requires current == st.current || current == Some(user.id)
    ensures Consistent(st.(users := st.users[i := user], current := current))
  {
    var users := st.users[i := user];
    assert forall j :: 0 <= j < |users| ==> users[j].id == st.users[j].id;
    if current.Some? {
      if current == Some(user.id) {
        assert users[i].id == current.value;
      } else {
        var k :| 0 <= k < |st.users| && st.users[k].id == current.value;
        assert users[k].id == current.value;
      }
    }
  }

  lemma PostLoginKeepsConsistent(st: State, email: Option<string>, password: Option<string>,
                                 compare: (string, string) -> bool, faults: Faults)
    requires Consistent(st)
    ensures Consistent(PostLogin(st, email, password, compare, faults).state)
  {
  }

  lemma PostSignupKeepsConsistent(st: State, email: string, password: string, confirmPassword: string,
                                  name: string, surname: string, faults: Faults)
    requires Consistent(st)
    ensures Consistent(PostSignup(st, email, password, confirmPassword, name, surname, faults).state)
  {
    var after := PostSignup(st, email, password, confirmPassword, name, surname, faults).state;
    if after.users != st.users {
      var users := after.users;
      assert users == st.users + [NewAccount(st.nextId, email, password, name, surname)];
      assert forall j :: 0 <= j < |st.users| ==> users[j] == st.users[j];
      if after.current.Some? && after.current != st.current {
        assert users[|st.users|].id == after.current.value;
      } else if after.current.Some? {
        var k :| 0 <= k < |st.users| && st.users[k].id == after.current.value;
        assert users[k].id == after.current.value;
      }
    }
  }

  lemma PostForgotKeepsConsistent(st: State, email: string, random: seq<Hex.byte>, now: int, faults: Faults)
    requires Consistent(st)
    requires |random| == 16
    ensures Consistent(PostForgot(st, email, random, now, faults).state)
  {
    if !faults.lookup && !faults.save && FindByEmail(st.users, email).Some? {
      var i := FindByEmail(st.users, email).value;
      UpdateKeepsConsistent(st, i, IssueToken(st.users[i], Hex.Encode(random), now), st.current);
    }
  }

  lemma PostResetKeepsConsistent(st: State, password: string, confirmPassword: string, token: string,
                                 now: int, faults: Faults)
    requires Consistent(st)
    ensures Consistent(PostReset(st, password, confirmPassword, token, now, faults).state)
  {
    if |password| >= MinPasswordLength && password == confirmPassword && !faults.lookup && !faults.save &&
       FindByToken(st.users, token, now).Some? {
      var i := FindByToken(st.users, token, now).value;
      var user := ConsumeToken(st.users[i], password);
      UpdateKeepsConsistent(st, i, user, st.current);
      UpdateKeepsConsistent(st, i, user, Some(user.id));
    }
  }

  // ---------------------------------------------------------------------
  // POST /login
  // ---------------------------------------------------------------------

  /** A missing or empty email is answered before the strategy runs: the
      result does not depend on the password, `compare` or any fault. */
  lemma LoginBlankEmail(st: State, email: Option<string>, password: Option<string>,
                        compare: (string, string) -> bool, faults: Faults)
    requires Blank(email)
    ensures PostLogin(st, email, password, compare, faults) == Handled(st, Reject("/", MsgNoUsername))
  {
  }

  lemma LoginBlankPassword(st: State, email: Option<string>, password: Option<string>,
                           compare: (string, string) -> bool, faults: Faults)
    requires !Blank(email) && Blank(password)
    ensures PostLogin(st, email, password, compare, faults) == Handled(st, Reject("/", MsgNoPassword))
  {
  }

  /** Logging in never touches the collection or the mail; it only rebinds
      the session, and only to the user the strategy accepted. */
  lemma LoginOnlyBindsSession(st: State, email: Option<string>, password: Option<string>,
                              compare: (string, string) -> bool, faults: Faults)
    ensures var h := PostLogin(st, email, password, compare, faults);
            h.state.users == st.users && h.state.nextId == st.nextId && h.state.outbox == st.outbox
    ensures var h := PostLogin(st, email, password, compare, faults);
            h.state.current != st.current ==>
              !Blank(email) && !Blank(password) && !faults.logIn &&
              Passport.LocalVerify(st.users, email.value, password.value, compare, faults).Authenticated? &&
              h.state.current == Some(Passport.LocalVerify(st.users, email.value, password.value, compare, faults).user.id) &&
              h.outcome == Outcome(Redirect("/"), [])
  {
  }

  // ---------------------------------------------------------------------
  // POST /account/signup
  // ---------------------------------------------------------------------

  /** The length check comes first: it wins over a mismatching confirmation,
      and nothing is looked up or saved. */
  lemma SignupTooShort(st: State, email: string, password: string, confirmPassword: string,
                       name: string, surname: string, faults: Faults)
    requires |password| < MinPasswordLength
    ensures PostSignup(st, email, password, confirmPassword, name, surname, faults) ==
            Handled(st, Reject("/account/signup", MsgTooShort))
  {
  }

  lemma SignupMismatch(st: State, email: string, password: string, confirmPassword: string,
                       name: string, surname: string, faults: Faults)
    requires |password| >= MinPasswordLength && password != confirmPassword
    ensures PostSignup(st, email, password, confirmPassword, name, surname, faults) ==
            Handled(st, Reject("/account/signup", MsgMismatch))
  {
  }

  lemma SignupEmailTaken(st: State, email: string, password: string, name: string, surname: string,
                         faults: Faults, j: nat)
    requires |password| >= MinPasswordLength && !faults.lookup
    requires j < |st.users| && st.users[j].email == email
    ensures PostSignup(st, email, password, password, name, surname, faults) ==
            Handled(st, Reject("/account/signup", MsgEmailTaken))
  {
  }

  /** A fresh email adds exactly one document, with the given fields and no
      reset fields, and logs its owner in. */
  lemma SignupCreatesAccount(st: State, email: string, password: string, name: string, surname: string)
    requires |password| >= MinPasswordLength
    requires forall j :: 0 <= j < |st.users| ==> st.users[j].email != email
    ensures PostSignup(st, email, password, password, name, surname, NoFaults) ==
            Handled(State(st.users + [Account(st.nextId, email, password, name, surname, [], None, None)],
                          st.nextId + 1, st.outbox, Some(st.nextId)),
                    Outcome(Redirect("/"), []))
  {
  }

  // ---------------------------------------------------------------------
  // POST /account/forgot
  // ---------------------------------------------------------------------

  lemma ForgotUnknownEmail(st: State, email: string, random: seq<Hex.byte>, now: int, faults: Faults)
    requires |random| == 16 && !faults.lookup
    requires forall j :: 0 <= j < |st.users| ==> st.users[j].email != email
    ensures PostForgot(st, email, random, now, faults) == Handled(st, Reject("/account/forgot", MsgNoAccount))
  {
  }

  /** The matching record gets the 32-digit hex of the random bytes as token
      and `now + 600000` as expiry; no other field and no other record
      changes. The mail goes out unless the transport fails, and a failed
      mail does not undo the saved token. */
  lemma ForgotIssuesToken(st: State, email: string, random: seq<Hex.byte>, now: int, faults: Faults, i: nat)
    requires |random| == 16 && !faults.lookup && !faults.save
    requires FindByEmail(st.users, email) == Some(i)
    ensures var h := PostForgot(st, email, random, now, faults);
            var token := Hex.Encode(random);
            |token| == 32 &&
            |h.state.users| == |st.users| &&
            h.state.users[i] == st.users[i].(resetToken := Some(token), resetExpires := Some(now + 600000)) &&
            (forall j :: 0 <= j < |st.users| && j != i ==> h.state.users[j] == st.users[j]) &&
            h.state.nextId == st.nextId && h.state.current == st.current &&
            h.outcome.flashes == [Flash(Info, MsgMailSent(email))] &&
            (if faults.mail then h.state.outbox == st.outbox && h.outcome.response == NextError
             else h.state.outbox == st.outbox + [ResetLink(email, token)] &&
                  h.outcome.response == Redirect("/account/forgot"))
  {
  }

  // ---------------------------------------------------------------------
  // Token validity
  // ---------------------------------------------------------------------

  /** A freshly issued token is good strictly before its expiry instant and
      no longer at it. */
  lemma IssuedTokenLifetime(user: Account, token: string, issued: int, now: int)
    ensures AcceptsToken(IssueToken(user, token, issued), token, now) <==> now < issued + ResetWindow
    ensures !AcceptsToken(IssueToken(user, token, issued), token, issued + ResetWindow)
  {
  }

  /** GET /reset/:token shows the form exactly when the session is anonymous
      and some record holds the token with an expiry after `now`; a logged-in
      session is sent home whatever the collection holds. */
  lemma GetResetAccepts(st: State, token: string, now: int, faults: Faults)
    ensures GetReset(st, token, now, faults).response == RenderResetForm(token) <==>
              st.current.None? && !faults.lookup &&
              exists i :: 0 <= i < |st.users| && AcceptsToken(st.users[i], token, now)
    ensures st.current.Some? ==> GetReset(st, token, now, faults) == Outcome(Redirect("/"), [])
    ensures st.current.None? && !faults.lookup && GetReset(st, token, now, faults).response != RenderResetForm(token) ==>
              GetReset(st, token, now, faults) == Reject("/account/forgot", MsgTokenInvalid)
  {
  }

  // ---------------------------------------------------------------------
  // POST /reset
  // ---------------------------------------------------------------------

  /** Length and confirmation are checked before the token is looked up. */
  lemma ResetValidatesFirst(st: State, password: string, confirmPassword: string, token: string,
                            now: int, faults: Faults)
    requires |password| < MinPasswordLength || password != confirmPassword
    ensures PostReset(st, password, confirmPassword, token, now, faults) ==
            Handled(st, Reject("back", if |password| < MinPasswordLength then MsgTooShort else MsgMismatch))
  {
  }

  /** The token lookup succeeds exactly when some record accepts it at `now`;
      otherwise nothing changes. */
  lemma ResetRejectsUnknownToken(st: State, password: string, token: string, now: int, faults: Faults)
    requires |password| >= MinPasswordLength && !faults.lookup
    requires forall j :: 0 <= j < |st.users| ==> !AcceptsToken(st.users[j], token, now)
    ensures PostReset(st, password, password, token, now, faults) == Handled(st, Reject("back", MsgTokenInvalid))
  {
  }

  /** A successful reset sets the new password on the record holding the
      token, clears both reset fields, logs that user in and leaves every
      other record alone. */
  lemma ResetConsumesToken(st: State, password: string, token: string, now: int, i: nat)
    requires |password| >= MinPasswordLength
    requires FindByToken(st.users, token, now) == Some(i)
    ensures var h := PostReset(st, password, password, token, now, NoFaults);
            |h.state.users| == |st.users| &&
            h.state.users[i] == st.users[i].(password := password, resetToken := None, resetExpires := None) &&
            (forall j :: 0 <= j < |st.users| && j != i ==> h.state.users[j] == st.users[j]) &&
            h.state.nextId == st.nextId &&
            h.state.current == Some(st.users[i].id) &&
            h.state.outbox == st.outbox + [PasswordChanged(st.users[i].email)] &&
            h.outcome == Outcome(Redirect("/"), [Flash(Success, MsgPasswordChanged)])
  {
  }

  /** At most one record carries `token`. */
  ghost predicate SingleHolder(users: seq<Account>, token: string) {
    forall j, k :: 0 <= j < k < |users| ==> !(users[j].resetToken == Some(token) && users[k].resetToken == Some(token))
  }

  /** Single use: once a reset has saved the new password (even if logging in
      or the confirmation mail then failed), presenting the same token again
      fails at any later time, provided no other record carried it. */
  lemma {:induction false} ResetSingleUse(st: State, password: string, token: string, now: int, faults: Faults,
                                          password2: string, now2: int, faults2: Faults)
    requires |password| >= MinPasswordLength && !faults.lookup && !faults.save
    requires exists i :: 0 <= i < |st.users| && AcceptsToken(st.users[i], token, now)
    requires SingleHolder(st.users, token)
    requires |password2| >= MinPasswordLength && !faults2.lookup
    ensures var after := PostReset(st, password, password, token, now, faults).state;
            PostReset(after, password2, password2, token, now2, faults2) == Handled(after, Reject("back", MsgTokenInvalid))
  {
  }

  // ---------------------------------------------------------------------
  // Several requests in a row
  // ---------------------------------------------------------------------

  /** Requesting a reset and then presenting the token before it expires
      shows the reset form; presenting it at or after expiry is refused, as
      long as no other record carries the same token. */
  lemma {:induction false} ForgotThenPresent(st: State, email: string, random: seq<Hex.byte>, issued: int,
                                             now: int, i: nat)
    requires |random| == 16 && st.current.None?
    requires FindByEmail(st.users, email) == Some(i)
    requires forall j :: 0 <= j < |st.users| ==> st.users[j].resetToken != Some(Hex.Encode(random))
    ensures var after := PostForgot(st, email, random, issued, NoFaults).state;
            var token := Hex.Encode(random);
            GetReset(after, token, now, NoFaults).response == RenderResetForm(token) <==> now < issued + ResetWindow
  {
    var token := Hex.Encode(random);
    var after := PostForgot(st, email, random, issued, NoFaults).state;
    assert after.users == st.users[i := IssueToken(st.users[i], token, issued)];
    assert AcceptsToken(after.users[i], token, now) <==> now < issued + ResetWindow;
    assert forall j :: 0 <= j < |after.users| && j != i ==> !AcceptsToken(after.users[j], token, now);
    GetResetAccepts(after, token, now, NoFaults);
  }

  /** A second reset request for the same account replaces the first token:
      the earlier token is no longer accepted by that record at any time. */
  lemma {:induction false} SecondRequestWins(st: State, email: string, r1: seq<Hex.byte>, t1: int,
                                             r2: seq<Hex.byte>, t2: int, now: int, i: nat)
    requires |r1| == 16 && |r2| == 16 && r1 != r2
    requires FindByEmail(st.users, email) == Some(i)
    ensures var mid := PostForgot(st, email, r1, t1, NoFaults).state;
            var last := PostForgot(mid, email, r2, t2, NoFaults).state;
            i < |last.users| && !AcceptsToken(last.users[i], Hex.Encode(r1), now) &&
            last.users[i].resetToken == Some(Hex.Encode(r2))
  {
    var mid := PostForgot(st, email, r1, t1, NoFaults).state;
    assert mid.users == st.users[i := IssueToken(st.users[i], Hex.Encode(r1), t1)];
    assert forall j :: 0 <= j < |mid.users| ==> mid.users[j].email == st.users[j].email;
    assert FindByEmail(mid.users, email) == Some(i);
    Hex.EncodeInjective(r1, r2);
  }

  /** The reset scenario: a token issued at t0 resets the password five
      minutes later, logging the user in and sending the confirmation; the
      same token presented a minute after that is refused. */
  lemma {:induction false} ResetScenario(st: State, email: string, random: seq<Hex.byte>, t0: int, i: nat)
    requires Consistent(st)
    requires |random| == 16
    requires FindByEmail(st.users, email) == Some(i)
    requires forall j :: 0 <= j < |st.users| ==> st.users[j].resetToken != Some(Hex.Encode(random))
    ensures var token := Hex.Encode(random);
            var issued := PostForgot(st, email, random, t0, NoFaults).state;
            var first := PostReset(issued, "abcd", "abcd", token, t0 + 300000, NoFaults);
            var second := PostReset(first.state, "abcd", "abcd", token, t0 + 360000, NoFaults);
            first.outcome == Outcome(Redirect("/"), [Flash(Success, MsgPasswordChanged)]) &&
            first.state.current == Some(st.users[i].id) &&
            first.state.outbox == issued.outbox + [PasswordChanged(email)] &&
            second.outcome == Reject("back", MsgTokenInvalid)
  {
    var token := Hex.Encode(random);
    var issued := PostForgot(st, email, random, t0, NoFaults).state;
    assert issued.users == st.users[i := IssueToken(st.users[i], token, t0)];
    assert AcceptsToken(issued.users[i], token, t0 + 300000);
    assert forall j :: 0 <= j < |issued.users| && j != i ==> issued.users[j].resetToken != Some(token);
    assert FindByToken(issued.users, token, t0 + 300000) == Some(i);
    ResetConsumesToken(issued, "abcd", token, t0 + 300000, i);
    ResetSingleUse(issued, "abcd", token, t0 + 300000, NoFaults, "abcd", t0 + 360000, NoFaults);
  }

  /** `compare` as plain equality of the stored and the offered password. */
  ghost predicate PlainCompare(compare: (string, string) -> bool) {
    forall a, b :: compare(a, b) <==> a == b
  }

  /** Signing up and then logging in with the same password logs in the new
      account when its email has no upper-case letter. */
  lemma {:induction false} SignupThenLogin(st: State, email: string, password: string, name: string, surname: string,
                                           compare: (string, string) -> bool)
    requires Consistent(st)
    requires |password| >= MinPasswordLength
    requires forall j :: 0 <= j < |st.users| ==> st.users[j].email != email
    requires email != ""
    requires forall k :: 0 <= k < |email| ==> !Passport.IsUpper(email[k])
    requires compare(password, password)
    ensures var signed := PostSignup(st, email, password, password, name, surname, NoFaults).state;
            var login := PostLogin(signed, Some(email), Some(password), compare, NoFaults);
            login.state.current == Some(st.nextId) && login.outcome == Outcome(Redirect("/"), [])
  {
    var signed := PostSignup(st, email, password, password, name, surname, NoFaults).state;
    Passport.LowerFixes(email);
    assert signed.users == st.users + [NewAccount(st.nextId, email, password, name, surname)];
    assert forall j :: 0 <= j < |st.users| ==> signed.users[j].email != email;
    assert signed.users[|st.users|].email == email;
    assert FindByEmail(signed.users, email) == Some(|st.users|);
  }

  /** Signing up with an email that has an upper-case letter stores it as
      given, while the strategy looks up the lowercased email: unless another
      record already holds that lowercased address, the login that follows
      reports the email as not found. */
  lemma {:induction false} SignupThenLoginMixedCase(st: State, email: string, password: string, name: string,
                                                    surname: string, compare: (string, string) -> bool)
    requires |password| >= MinPasswordLength
    requires forall j :: 0 <= j < |st.users| ==> st.users[j].email != email
    requires forall j :: 0 <= j < |st.users| ==> st.users[j].email != Passport.Lower(email)
    requires exists k :: 0 <= k < |email| && Passport.IsUpper(email[k])
    ensures var signed := PostSignup(st, email, password, password, name, surname, NoFaults).state;
            PostLogin(signed, Some(email), Some(password), compare, NoFaults).outcome ==
              Reject("/", Passport.NotFoundMessage(email))
  {
    Passport.LowerFixes(email);
    var signed := PostSignup(st, email, password, password, name, surname, NoFaults).state;
    assert signed.users == st.users + [NewAccount(st.nextId, email, password, name, surname)];
    assert forall j :: 0 <= j < |signed.users| ==> signed.users[j].email != Passport.Lower(email);
  }

  /** After a reset, the new password logs in; with plain comparison of
      passwords, a different old password no longer does. */
  lemma {:induction false} ResetThenLogin(st: State, password: string, token: string, now: int, i: nat,
                                          oldPassword: string, compare: (string, string) -> bool)
    requires Consistent(st)
    requires |password| >= MinPasswordLength
    requires FindByToken(st.users, token, now) == Some(i)
    requires st.users[i].email != ""
    requires forall k :: 0 <= k < |st.users[i].email| ==> !Passport.IsUpper(st.users[i].email[k])
    requires compare(password, password)
    ensures var after := PostReset(st, password, password, token, now, NoFaults).state;
            var email := st.users[i].email;
            PostLogin(after, Some(email), Some(password), compare, NoFaults).state.current == Some(st.users[i].id)
    ensures var after := PostReset(st, password, password, token, now, NoFaults).state;
            var email := st.users[i].email;
            PlainCompare(compare) && oldPassword != password && oldPassword != "" ==>
              PostLogin(after, Some(email), Some(oldPassword), compare, NoFaults).outcome ==
                Reject("/", Passport.InvalidCredentialsMessage)
  {
    var email := st.users[i].email;
    var after := PostReset(st, password, password, token, now, NoFaults).state;
    Passport.LowerFixes(email);
    assert after.users == st.users[i := ConsumeToken(st.users[i], password)];
    PostResetKeepsConsistent(st, password, password, token, now, NoFaults);
    FindOwnEmail(after.users, after.nextId, i);
    assert after.users[i].password == password;
  }
}
