/** Authentication configuration: the local strategy's verify callback, user
    (de)serialisation for the session, and the two route guards. */
module Passport {
  import opened Common
  import opened Accounts

  /** What a route middleware does: hand over to the next handler, or answer
      with a redirect. */
  datatype Step = Next | Redirect(target: string)

  // ---------------------------------------------------------------------
  // Local strategy
  // ---------------------------------------------------------------------

  /** `toLowerCase` on one character (letters A-Z only). */
  function LowerChar(c: char): char {
    if 'A' <= c <= 'Z' then (c as int + 32) as char else c
  }

  predicate IsUpper(c: char) {
    'A' <= c <= 'Z'
  }

  function Lower(s: string): (r: string)
    ensures |r| == |s|
    ensures forall k :: 0 <= k < |s| ==> r[k] == LowerChar(s[k])
    ensures forall k :: 0 <= k < |r| ==> !IsUpper(r[k])
  {
    if s == [] then [] else [LowerChar(s[0])] + Lower(s[1..])
  }

  /** Lowercasing leaves a string alone exactly when it has no upper-case letter. */
  lemma LowerFixes(s: string)
    ensures Lower(s) == s <==> forall k :: 0 <= k < |s| ==> !IsUpper(s[k])
  {
  }

  lemma LowerIdempotent(s: string)
    ensures Lower(Lower(s)) == Lower(s)
  {
  }

  /** The answer the verify callback hands to `done`. */
  datatype Verdict = Authenticated(user: Account) | Rejected(message: string) | Errored

  function NotFoundMessage(email: string): string {
    "Email " + email + " not found."
  }

  const InvalidCredentialsMessage := "Invalid email or password."

  /** The verify callback: look the account up by the lowercased email, then
      ask the (uninterpreted) `compare(storedPassword, candidate)`. */
  function LocalVerify(users: seq<Account>, email: string, password: string,
                       compare: (string, string) -> bool, faults: Faults): (r: Verdict)
    ensures faults.lookup ==> r == Errored
    ensures r.Errored? ==> faults.lookup || faults.compare
    ensures r == Rejected(NotFoundMessage(email)) <==>
              !faults.lookup && forall j :: 0 <= j < |users| ==> users[j].email != Lower(email)
    ensures r.Authenticated? <==>
              !faults.lookup && !faults.compare &&
              exists i :: 0 <= i < |users| && users[i].email == Lower(email) && compare(users[i].password, password) &&
                          (forall j :: 0 <= j < i ==> users[j].email != Lower(email)) && r == Authenticated(users[i])
    ensures r == Rejected(InvalidCredentialsMessage) <==>
              !faults.lookup && !faults.compare &&
              exists i :: 0 <= i < |users| && users[i].email == Lower(email) && !compare(users[i].password, password) &&
                          (forall j :: 0 <= j < i ==> users[j].email != Lower(email))
    ensures r.Errored? <==>
              faults.lookup || (faults.compare && exists i :: 0 <= i < |users| && users[i].email == Lower(email))
    ensures r.Rejected? ==> r.message == NotFoundMessage(email) || r.message == InvalidCredentialsMessage
  {
    if faults.lookup then Errored
    else match FindByEmail(users, Lower(email))
      case None =>
        assert NotFoundMessage(email)[0] != InvalidCredentialsMessage[0];
        Rejected(NotFoundMessage(email))
      case Some(i) =>
        if faults.compare then Errored
        else if compare(users[i].password, password) then Authenticated(users[i])
        else
          assert NotFoundMessage(email)[0] != InvalidCredentialsMessage[0];
          Rejected(InvalidCredentialsMessage)
  }

  // ---------------------------------------------------------------------
  // Session (de)serialisation
  // ---------------------------------------------------------------------

  /** `serializeUser`: the session keeps only the user's id. */
  function SerializeUser(user: Account): nat {
    user.id
  }

  /** `deserializeUser`: `findById` on the stored id; no record gives no user. */
  function DeserializeUser(users: seq<Account>, id: nat): (r: Option<Account>)
    ensures r.Some? ==> r.value in users && r.value.id == id
    ensures r.None? <==> forall j :: 0 <= j < |users| ==> users[j].id != id
  {
    match FindById(users, id)
    case None => None
    case Some(i) => Some(users[i])
  }

  /** Serialising a stored user and deserialising the id gives the same user back. */
  lemma SessionRoundTrip(users: seq<Account>, nextId: nat, i: nat)
    requires WellFormed(users, nextId)
    requires i < |users|
    ensures DeserializeUser(users, SerializeUser(users[i])) == Some(users[i])
  {
  }

  // ---------------------------------------------------------------------
  // Route guards
  // ---------------------------------------------------------------------

  /** `isAuthenticated`: continue when the request is authenticated, else go home. */
  function IsAuthenticated(authenticated: bool): (r: Step)
    ensures r == Next <==> authenticated
    ensures !authenticated ==> r == Redirect("/")
  {
    if authenticated then Next else Redirect("/")
  }

  /** `s.split("/")`: the pieces between slashes, always at least one. */
  function Split(s: string): (parts: seq<string>)
    ensures |parts| >= 1
    ensures forall k :: 0 <= k < |parts| ==> '/' !in parts[k]
    decreases |s|
  {
    if s == [] then [[]]
    else
      var rest := Split(s[1..]);
      if s[0] == '/' then [[]] + rest
      else [[s[0]] + rest[0]] + rest[1..]
  }

  /** `parts.join("/")`, the inverse of Split. */
  function Join(parts: seq<string>): string
    requires |parts| >= 1
  {
    if |parts| == 1 then parts[0] else parts[0] + "/" + Join(parts[1..])
  }

  lemma {:induction false} JoinSplit(s: string)
    ensures Join(Split(s)) == s
    decreases |s|
  {
    if s != [] {
      var rest := Split(s[1..]);
      JoinSplit(s[1..]);
      if s[0] == '/' {
        assert Split(s) == [[]] + rest;
        assert Split(s)[1..] == rest;
        assert s == [] + "/" + s[1..];
      } else {
        var parts := Split(s);
        assert parts == [[s[0]] + rest[0]] + rest[1..];
        if |rest| == 1 {
          assert s == [s[0]] + rest[0];
        } else {
          assert parts[1..] == rest[1..];
          assert Join(rest) == rest[0] + "/" + Join(rest[1..]);
          assert s == [s[0]] + rest[0] + "/" + Join(rest[1..]);
        }
      }
    }
  }

  /** `path.split("/").slice(-1)[0]`. */
  function Provider(path: string): (provider: string)
    ensures '/' !in provider
  {
    var parts := Split(path);
    parts[|parts| - 1]
  }

  /** How the last piece of `path` relates to the last piece of `path[1..]`. */
  lemma ProviderStep(path: string)
    requires path != []
    ensures path[0] == '/' || |Split(path[1..])| > 1 ==>
              Provider(path) == Provider(path[1..]) && |Split(path)| > 1
    ensures path[0] != '/' && |Split(path[1..])| == 1 ==>
              Provider(path) == [path[0]] + Provider(path[1..]) && |Split(path)| == 1
  {
  }

  /** The provider is the text after the last slash (the whole path when it has
      none). */
  lemma {:induction false} ProviderIsLastSegment(path: string)
    ensures '/' !in Provider(path)
    ensures |Provider(path)| <= |path|
    ensures path[|path| - |Provider(path)|..] == Provider(path)
    ensures |Provider(path)| < |path| ==> path[|path| - |Provider(path)| - 1] == '/'
    ensures |Split(path)| == 1 ==> Provider(path) == path
    ensures |Split(path)| > 1 ==> |Provider(path)| < |path|
    decreases |path|
  {
    if path != [] {
      var tail := path[1..];
      var p := Provider(tail);
      ProviderIsLastSegment(tail);
      ProviderStep(path);
      if path[0] == '/' || |Split(tail)| > 1 {
        assert Provider(path) == p;
        assert path[|path| - |p|..] == tail[|tail| - |p|..];
        if |p| < |tail| {
          assert path[|path| - |p| - 1] == tail[|tail| - |p| - 1];
        } else {
          assert |path| - |p| - 1 == 0;
        }
      } else {
        assert p == tail;
        assert Provider(path) == path;
      }
    }
  }

  /** A trailing slash leaves the provider empty. */
  lemma TrailingSlashProvider(path: string)
    requires |path| > 0 && path[|path| - 1] == '/'
    ensures Provider(path) == ""
  {
    ProviderIsLastSegment(path);
  }

  /** `_.find(tokens, { kind })`. */
  function FindKind(tokens: seq<AuthToken>, kind: string): (r: Option<nat>)
    ensures r.Some? ==> r.value < |tokens| && tokens[r.value].kind == kind
    ensures r.None? <==> forall j :: 0 <= j < |tokens| ==> tokens[j].kind != kind
  {
    FirstIndex(tokens, (t: AuthToken) => t.kind == kind)
  }

  /** `isAuthorized`: continue when the user holds a token of the provider
      named by the last path segment, else send them to that provider's
      sign-in route. */
  function IsAuthorized(path: string, user: Account): (r: Step)
    ensures r == Next <==> exists i :: 0 <= i < |user.tokens| && user.tokens[i].kind == Provider(path)
    ensures r != Next ==> r == Redirect("/auth/" + Provider(path))
  {
    if FindKind(user.tokens, Provider(path)).Some? then Next
    else Redirect("/auth/" + Provider(path))
  }
}
