/** The user controller over a mutable user collection: each handler runs its
    checks in order, returns early on the first that fails, and otherwise
    updates the documents in place. */
module Controllers {
  import opened Common
  import opened Accounts
  import Hex
  import Passport
  import opened Flows
  import FlowProperties

  class UserController {
    var users: seq<Account>
    var nextId: nat
    var outbox: seq<Mail>
    var current: Option<nat>

    function Snapshot(): State
      reads this
    {
      State(users, nextId, outbox, current)
    }

    ghost predicate Valid()
      reads this
    {
      Consistent(Snapshot())
    }

    constructor ()
      ensures Valid()
      ensures Snapshot() == State([], 0, [], None)
    {
      users, nextId, outbox, current := [], 0, [], None;
    }

    /** POST /login. */
    method PostLogin(email: Option<string>, password: Option<string>,
                     compare: (string, string) -> bool, faults: Faults) returns (out: Outcome)
      requires Valid()
      modifies this
      ensures Valid()
      ensures Handled(Snapshot(), out) == Flows.PostLogin(old(Snapshot()), email, password, compare, faults)
    {
      FlowProperties.PostLoginKeepsConsistent(Snapshot(), email, password, compare, faults);
      if Blank(email) {
        return Reject("/", MsgNoUsername);
      }
      if Blank(password) {
        return Reject("/", MsgNoPassword);
      }
      var verdict := Passport.LocalVerify(users, email.value, password.value, compare, faults);
      match verdict {
        case Errored =>
          return Failed;
        case Rejected(message) =>
          return Reject("/", message);
        case Authenticated(user) =>
          if faults.logIn {
            return Failed;
          }
          current := Some(Passport.SerializeUser(user));
          return Outcome(Redirect("/"), []);
      }
    }

    /** POST /account/signup. */
    method PostSignup(email: string, password: string, confirmPassword: string,
                      name: string, surname: string, faults: Faults) returns (out: Outcome)
      requires Valid()
      modifies this
      ensures Valid()
      ensures Handled(Snapshot(), out) ==
              Flows.PostSignup(old(Snapshot()), email, password, confirmPassword, name, surname, faults)
    {
      FlowProperties.PostSignupKeepsConsistent(Snapshot(), email, password, confirmPassword, name, surname, faults);
      if |password| < MinPasswordLength {
        return Reject("/account/signup", MsgTooShort);
      }
      if password != confirmPassword {
        return Reject("/account/signup", MsgMismatch);
      }
      if faults.lookup {
        return Failed;
      }
      var existing := FindByEmail(users, email);
      if existing.Some? {
        return Reject("/account/signup", MsgEmailTaken);
      }
      if faults.save {
        return Failed;
      }
      var user := NewAccount(nextId, email, password, name, surname);
      users := users + [user];
      nextId := nextId + 1;
      if faults.logIn {
        return Failed;
      }
      current := Some(user.id);
      return Outcome(Redirect("/"), []);
    }

    /** POST /account/forgot. */
    method PostForgot(email: string, random: seq<Hex.byte>, now: int, faults: Faults) returns (out: Outcome)
      requires Valid()
      requires |random| == 16
      modifies this
      ensures Valid()
      ensures Handled(Snapshot(), out) == Flows.PostForgot(old(Snapshot()), email, random, now, faults)
    {
      FlowProperties.PostForgotKeepsConsistent(Snapshot(), email, random, now, faults);
      var token := Hex.Encode(random);
      if faults.lookup {
        return Failed;
      }
      var found := FindByEmail(users, email);
      if found.None? {
        return Reject("/account/forgot", MsgNoAccount);
      }
      var i := found.value;
      if faults.save {
        return Failed;
      }
      var user := IssueToken(users[i], token, now);
      users := users[i := user];
      var notice := Flash(Info, MsgMailSent(user.email));
      if faults.mail {
        return Outcome(NextError, [notice]);
      }
      outbox := outbox + [ResetLink(user.email, token)];
      return Outcome(Redirect("/account/forgot"), [notice]);
    }

    /** GET /reset/:token: reads the collection and changes nothing. */
    method GetReset(token: string, now: int, faults: Faults) returns (out: Outcome)
      requires Valid()
      ensures out == Flows.GetReset(Snapshot(), token, now, faults)
      ensures out.response == RenderResetForm(token) <==>
                current.None? && !faults.lookup &&
                exists i :: 0 <= i < |users| && AcceptsToken(users[i], token, now)
    {
      if current.Some? {
        return Outcome(Redirect("/"), []);
      }
      if faults.lookup {
        return Failed;
      }
      var found := FindByToken(users, token, now);
      if found.None? {
        return Reject("/account/forgot", MsgTokenInvalid);
      }
      return Outcome(RenderResetForm(token), []);
    }

    /** POST /reset. */
    method PostReset(password: string, confirmPassword: string, token: string,
                     now: int, faults: Faults) returns (out: Outcome)
      requires Valid()
      modifies this
      ensures Valid()
      ensures Handled(Snapshot(), out) ==
              Flows.PostReset(old(Snapshot()), password, confirmPassword, token, now, faults)
    {
      FlowProperties.PostResetKeepsConsistent(Snapshot(), password, confirmPassword, token, now, faults);
      if |password| < MinPasswordLength {
        return Reject("back", MsgTooShort);
      }
      if password != confirmPassword {
        return Reject("back", MsgMismatch);
      }
      if faults.lookup {
        return Failed;
      }
      var found := FindByToken(users, token, now);
      if found.None? {
        return Reject("back", MsgTokenInvalid);
      }
      var i := found.value;
      if faults.save {
        return Failed;
      }
      var user := ConsumeToken(users[i], password);
      users := users[i := user];
      if faults.logIn {
        return Failed;
      }
      current := Some(user.id);
      var notice := Flash(Success, MsgPasswordChanged);
      if faults.mail {
        return Outcome(NextError, [notice]);
      }
      outbox := outbox + [PasswordChanged(user.email)];
      return Outcome(Redirect("/"), [notice]);
    }
  }
}
