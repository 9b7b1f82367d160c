/** The two application middlewares that run on every request: one mirrors
    the request's user into the view locals, the other remembers which page
    to return to after logging in. */
module App {
  import opened Common
  import opened Accounts

  /** `s.match(/^<p>/)` for a literal `p`: `s` starts with `p`. */
  function HasPrefix(s: string, p: string): (r: bool)
    ensures r <==> |p| <= |s| && s[..|p|] == p
  {
    if p == [] then true
    else s != [] && s[0] == p[0] && HasPrefix(s[1..], p[1..])
  }

  /** `s.match(/\./)`: `s` contains a dot somewhere. */
  function HasDot(s: string): (r: bool)
    ensures r <==> exists k :: 0 <= k < |s| && s[k] == '.'
  {
    if s == [] then false else s[0] == '.' || HasDot(s[1..])
  }

  /** The paths an anonymous visit records as the page to return to. */
  predicate RememberedAnonymously(path: string) {
    path != "/login" && path != "/signup" && !HasPrefix(path, "/auth") && !HasDot(path)
  }

  /** The session's `returnTo` after the middleware has seen a request for
      `path`. */
  function NextReturnTo(loggedIn: bool, path: string, returnTo: Option<string>): (r: Option<string>)
    ensures r == Some(path) || r == returnTo
    ensures !loggedIn ==>
              r == if path != "/login" && path != "/signup" &&
                      !(|path| >= 5 && path[..5] == "/auth") &&
                      (forall k :: 0 <= k < |path| ==> path[k] != '.')
                   then Some(path) else returnTo
    ensures loggedIn ==> r == if path == "/account" then Some(path) else returnTo
  {
    if !loggedIn && RememberedAnonymously(path) then Some(path)
    else if loggedIn && path == "/account" then Some(path)
    else returnTo
  }

  /** The prefix test has no trailing slash, so "/authors" counts as an
      authentication path and is not remembered. */
  lemma AuthorsNotRemembered(returnTo: Option<string>)
    ensures NextReturnTo(false, "/authors", returnTo) == returnTo
  {
  }

  /** A logged-in visit only ever records "/account". */
  lemma LoggedInRemembersOnlyAccount(path: string, returnTo: Option<string>)
    requires NextReturnTo(true, path, returnTo) != returnTo
    ensures path == "/account"
  {
  }

  /** The request/response pair as the middlewares see it. */
  class Exchange {
    /** `req.session.returnTo` */
    var returnTo: Option<string>
    /** `res.locals.user` */
    var localsUser: Option<Account>
    /** How many times `next()` has been called. */
    var nextCalls: nat

    constructor (returnTo: Option<string>)
      ensures this.returnTo == returnTo && localsUser.None? && nextCalls == 0
    {
      this.returnTo := returnTo;
      localsUser := None;
      nextCalls := 0;
    }

    /** `res.locals.user = req.user; next();` */
    method ExposeUser(user: Option<Account>)
      modifies this
      ensures localsUser == user
      ensures returnTo == old(returnTo)
      ensures nextCalls == old(nextCalls) + 1
    {
      localsUser := user;
      nextCalls := nextCalls + 1;
    }

    /** Possibly overwrite `returnTo` with the current path, then `next()`. */
    method RememberReturnTo(user: Option<Account>, path: string)
      modifies this
      ensures returnTo == NextReturnTo(user.Some?, path, old(returnTo))
      ensures localsUser == old(localsUser)
      ensures nextCalls == old(nextCalls) + 1
    {
      if user.None? && RememberedAnonymously(path) {
        returnTo := Some(path);
      } else if user.Some? && path == "/account" {
        returnTo := Some(path);
      }
      nextCalls := nextCalls + 1;
    }
  }
}
