/** What each handler of the user controller does, as a function from the
    state before the request to the state after it and the response. The
    state is the user collection, the id the next new document receives, the
    mails sent so far and the id of the user logged in on the requesting
    session. */
module Flows {
  import opened Common
  import opened Accounts
  import Hex
  import Passport

  const MinPasswordLength := 4
  /** Lifetime of a reset token, in milliseconds (10 minutes). */
  const ResetWindow := 600000

  const MsgNoUsername := "Introduzca un nombre de usuario"
  const MsgNoPassword := "Introduzca una contraseña"
  const MsgTooShort := "Password must be at least 4 characters long"
  const MsgMismatch := "Passwords do not match"
  const MsgEmailTaken := "Account with that email address already exists."
  const MsgNoAccount := "Account with that email address does not exist."
  const MsgTokenInvalid := "Password reset token is invalid or has expired."
  const MsgPasswordChanged := "Success! Your password has been changed."

  function MsgMailSent(email: string): string {
    "An e-mail has been sent to " + email + " with further instructions."
  }

  datatype FlashKind = Errors | Info | Success
  datatype Flash = Flash(kind: FlashKind, message: string)

  /** How a handler answers: a redirect, the reset form for a token, or
      handing an error to `next(err)`. */
  datatype Response = Redirect(target: string) | RenderResetForm(token: string) | NextError

  /** The response together with the flash messages queued during the request. */
  datatype Outcome = Outcome(response: Response, flashes: seq<Flash>)

  /** A notification handed to the mail transport. */
  datatype Mail = ResetLink(to: string, token: string) | PasswordChanged(to: string)

  datatype State = State(users: seq<Account>, nextId: nat, outbox: seq<Mail>, current: Option<nat>)

  datatype Handled = Handled(state: State, outcome: Outcome)

  /** The invariant every handler keeps: the collection is well formed and a
      logged-in session names a stored user. */
  ghost predicate Consistent(st: State) {
    WellFormed(st.users, st.nextId) &&
    (st.current.Some? ==> exists i :: 0 <= i < |st.users| && st.users[i].id == st.current.value)
  }

  function Reject(target: string, message: string): Outcome {
    Outcome(Redirect(target), [Flash(Errors, message)])
  }

  const Failed := Outcome(NextError, [])

  /** A form field that is missing or empty. */
  predicate Blank(field: Option<string>) {
    field.None? || field.value == ""
  }

  /** The document after a reset token was issued at `now`. */
  function IssueToken(user: Account, token: string, now: int): Account {
    user.(resetToken := Some(token), resetExpires := Some(now + ResetWindow))
  }

  /** The document after a successful reset: new password, no reset fields. */
  function ConsumeToken(user: Account, password: string): Account {
    user.(password := password, resetToken := None, resetExpires := None)
  }

  /** POST /login. */
  function PostLogin(st: State, email: Option<string>, password: Option<string>,
                     compare: (string, string) -> bool, faults: Faults): (r: Handled)
    ensures r.state.users == st.users && r.state.nextId == st.nextId && r.state.outbox == st.outbox
    ensures Blank(email) || Blank(password) ==> r.state == st
  {
    if Blank(email) then Handled(st, Reject("/", MsgNoUsername))
    else if Blank(password) then Handled(st, Reject("/", MsgNoPassword))
    else match Passport.LocalVerify(st.users, email.value, password.value, compare, faults)
      case Errored => Handled(st, Failed)
      case Rejected(message) => Handled(st, Reject("/", message))
      case Authenticated(user) =>
        if faults.logIn then Handled(st, Failed)
        else Handled(st.(current := Some(Passport.SerializeUser(user))), Outcome(Redirect("/"), []))
  }

  /** POST /account/signup. */
  function PostSignup(st: State, email: string, password: string, confirmPassword: string,
                      name: string, surname: string, faults: Faults): (r: Handled)
    ensures r.state.users == st.users ||
            r.state.users == st.users + [NewAccount(st.nextId, email, password, name, surname)]
    ensures r.state.users != st.users ==>
              |password| >= MinPasswordLength && password == confirmPassword &&
              forall j :: 0 <= j < |st.users| ==> st.users[j].email != email
    ensures r.state.outbox == st.outbox
  {
    if |password| < MinPasswordLength then Handled(st, Reject("/account/signup", MsgTooShort))
    else if password != confirmPassword then Handled(st, Reject("/account/signup", MsgMismatch))
    else if faults.lookup then Handled(st, Failed)
    else if FindByEmail(st.users, email).Some? then Handled(st, Reject("/account/signup", MsgEmailTaken))
    else if faults.save then Handled(st, Failed)
    else
      var user := NewAccount(st.nextId, email, password, name, surname);
      var saved := st.(users := st.users + [user], nextId := st.nextId + 1);
      if faults.logIn then Handled(saved, Failed)
      else Handled(saved.(current := Some(user.id)), Outcome(Redirect("/"), []))
  }

  /** POST /account/forgot, given the 16 random bytes and the clock reading. */
  function PostForgot(st: State, email: string, random: seq<Hex.byte>, now: int, faults: Faults): (r: Handled)
    requires |random| == 16
    ensures |r.state.users| == |st.users|
    ensures forall j :: 0 <= j < |st.users| ==>
              r.state.users[j] == st.users[j] ||
              (st.users[j].email == email && r.state.users[j] == IssueToken(st.users[j], Hex.Encode(random), now))
    ensures r.state.nextId == st.nextId && r.state.current == st.current
  {
    var token := Hex.Encode(random);
    if faults.lookup then Handled(st, Failed)
    else match FindByEmail(st.users, email)
      case None => Handled(st, Reject("/account/forgot", MsgNoAccount))
      case Some(i) =>
        if faults.save then Handled(st, Failed)
        else
          var user := IssueToken(st.users[i], token, now);
          var saved := st.(users := st.users[i := user]);
          var notice := Flash(Info, MsgMailSent(user.email));
          if faults.mail then Handled(saved, Outcome(NextError, [notice]))
          else Handled(saved.(outbox := saved.outbox + [ResetLink(user.email, token)]),
                       Outcome(Redirect("/account/forgot"), [notice]))
  }

  /** GET /reset/:token; it never changes the state. */
  function GetReset(st: State, token: string, now: int, faults: Faults): (r: Outcome)
    ensures r.response == RenderResetForm(token) <==>
              st.current.None? && !faults.lookup &&
              exists i :: 0 <= i < |st.users| && AcceptsToken(st.users[i], token, now)
  {
    if st.current.Some? then Outcome(Redirect("/"), [])
    else if faults.lookup then Failed
    else if FindByToken(st.users, token, now).None? then Reject("/account/forgot", MsgTokenInvalid)
    else Outcome(RenderResetForm(token), [])
  }

  /** POST /reset, with the token taken from the form body. */
  function PostReset(st: State, password: string, confirmPassword: string, token: string,
                     now: int, faults: Faults): (r: Handled)
    ensures |r.state.users| == |st.users|
    ensures forall j :: 0 <= j < |st.users| ==>
              r.state.users[j] == st.users[j] ||
              (AcceptsToken(st.users[j], token, now) && r.state.users[j] == ConsumeToken(st.users[j], password))
    ensures r.state.users != st.users ==> |password| >= MinPasswordLength && password == confirmPassword
    ensures r.state.nextId == st.nextId
  {
    if |password| < MinPasswordLength then Handled(st, Reject("back", MsgTooShort))
    else if password != confirmPassword then Handled(st, Reject("back", MsgMismatch))
    else if faults.lookup then Handled(st, Failed)
    else match FindByToken(st.users, token, now)
      case None => Handled(st, Reject("back", MsgTokenInvalid))
      case Some(i) =>
        if faults.save then Handled(st, Failed)
        else
          var user := ConsumeToken(st.users[i], password);
          var saved := st.(users := st.users[i := user]);
          if faults.logIn then Handled(saved, Failed)
          else
            var signedIn := saved.(current := Some(user.id));
            var notice := Flash(Success, MsgPasswordChanged);
            if faults.mail then Handled(signedIn, Outcome(NextError, [notice]))
            else Handled(signedIn.(outbox := signedIn.outbox + [PasswordChanged(user.email)]),
                         Outcome(Redirect("/"), [notice]))
  }
}
