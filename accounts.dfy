/** The account record the controllers read and write, and the queries they
    issue against the user collection (kept here as a sequence in insertion
    order, so that "find one" means "first match"). */
module Accounts {
  import opened Common

  /** A third-party access token on an account; only `kind` is consulted. */
  datatype AuthToken = AuthToken(kind: string, accessToken: string)

  /** One user document. `resetExpires` is a time in integer milliseconds. */
  datatype Account = Account(
    id: nat,
    email: string,
    password: string,
    name: string,
    surname: string,
    tokens: seq<AuthToken>,
    resetToken: Option<string>,
    resetExpires: Option<int>)

  /** Which collaborator calls report an error during one request: the
      collection query, `comparePassword`, `save`, `req.logIn` and
      `sendMail`. Each error ends the handler with `next(err)`. */
  datatype Faults = Faults(lookup: bool, compare: bool, save: bool, logIn: bool, mail: bool)

  const NoFaults := Faults(false, false, false, false, false)

  /** The document the signup handler builds from the form. */
  function NewAccount(id: nat, email: string, password: string, name: string, surname: string): Account {
    Account(id, email, password, name, surname, [], None, None)
  }

  /** The reset query: the token matches and its expiry lies strictly after `now`. */
  predicate AcceptsToken(a: Account, token: string, now: int) {
    a.resetToken == Some(token) && a.resetExpires.Some? && a.resetExpires.value > now
  }

  /** `findOne({ email })`: the first record whose email is exactly `email`. */
  function FindByEmail(users: seq<Account>, email: string): (r: Option<nat>)
    ensures r.Some? ==> r.value < |users| && users[r.value].email == email
    ensures r.Some? ==> forall j :: 0 <= j < r.value ==> users[j].email != email
    ensures r.None? <==> forall j :: 0 <= j < |users| ==> users[j].email != email
  {
    FirstIndex(users, (a: Account) => a.email == email)
  }

  /** `findOne({ passwordResetToken: token }).where("passwordResetExpires").gt(now)`. */
  function FindByToken(users: seq<Account>, token: string, now: int): (r: Option<nat>)
    ensures r.Some? ==> r.value < |users| && AcceptsToken(users[r.value], token, now)
    ensures r.Some? ==> forall j :: 0 <= j < r.value ==> !AcceptsToken(users[j], token, now)
    ensures r.None? <==> forall j :: 0 <= j < |users| ==> !AcceptsToken(users[j], token, now)
  {
    FirstIndex(users, (a: Account) => AcceptsToken(a, token, now))
  }

  /** `findById(id)`. */
  function FindById(users: seq<Account>, id: nat): (r: Option<nat>)
    ensures r.Some? ==> r.value < |users| && users[r.value].id == id
    ensures r.None? <==> forall j :: 0 <= j < |users| ==> users[j].id != id
  {
    FirstIndex(users, (a: Account) => a.id == id)
  }

  /** The invariant the handlers keep on the collection: ids below the next
      fresh id and pairwise distinct, emails pairwise distinct (signup checks
      for an existing email before saving), and the two reset fields present
      or absent together. */
  ghost predicate WellFormed(users: seq<Account>, nextId: nat) {
    (forall i :: 0 <= i < |users| ==> users[i].id < nextId) &&
    (forall i, j :: 0 <= i < j < |users| ==> users[i].id != users[j].id) &&
    (forall i, j :: 0 <= i < j < |users| ==> users[i].email != users[j].email) &&
    (forall i :: 0 <= i < |users| ==> (users[i].resetToken.Some? <==> users[i].resetExpires.Some?))
  }

  /** With distinct ids, looking up a record's id finds that very record. */
  lemma FindOwnId(users: seq<Account>, nextId: nat, i: nat)
    requires WellFormed(users, nextId)
    requires i < |users|
    ensures FindById(users, users[i].id) == Some(i)
  {
  }

  /** With distinct emails, looking up a record's email finds that very record. */
  lemma FindOwnEmail(users: seq<Account>, nextId: nat, i: nat)
    requires WellFormed(users, nextId)
    requires i < |users|
    ensures FindByEmail(users, users[i].email) == Some(i)
  {
  }
}
