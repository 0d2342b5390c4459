/**
  Who a request comes from: a bearer token, looked up in the directory, or else a session
  cookie, which speaks for itself; and what that means once a principal is deleted.
 */
module Callers {
  import opened Bytes
  import opened Wrappers
  import Sessions
  import Tokens

  /** The credential that identified the caller. */
  datatype Identity = ByToken(caller: Tokens.Caller) | BySession(session: Sessions.Session)

  /** The environment of one replica: database dialect, libraries, and the session secret if sessions are on. */
  datatype Setup = Setup(dialect: Tokens.Dialect, tokens: Tokens.Library,
                         sessions: Sessions.Library, secret: Option<bytes>)

  /** A bearer text takes precedence, even one that is refused; cookies need sessions to be on. */
  function Resolve(u: Setup, dir: Tokens.Directory, bearer: Option<string>, cookie: Option<string>, now: int)
    : Result<Option<Identity>, Sessions.Raised>
  {
    if bearer.Some? then
      match Tokens.Authenticated(u.dialect, u.tokens, dir, bearer.value, now)
      case None => Ok(None)
      case Some(caller) => Ok(Some(ByToken(caller)))
    else if u.secret.None? || cookie.None? then Ok(None)
    else
      match Sessions.CookieSession(u.sessions, u.secret.value, cookie.value, now)
      case Err(e) => Err(e)
      case Ok(None) => Ok(None)
      case Ok(Some(session)) => Ok(Some(BySession(session)))
  }

  /** A bearer text is all that counts if there is one; a usable token's gets its principal through. */
  lemma BearerDecides(u: Setup, s: Tokens.State, r: Tokens.TokenRow, raw: string, cookie: Option<string>, now: int)
    requires Tokens.Inv(u.tokens, s) && Tokens.Supported(u.dialect) && Tokens.NoCollision(u.tokens, s, raw)
    ensures Resolve(u, s.dir, Some(raw), cookie, now) == Resolve(u, s.dir, Some(raw), None, now)
    ensures Tokens.Usable(s, r, raw, now) ==> Names(Resolve(u, s.dir, Some(raw), cookie, now), r.principalId.GetOr(""))
  {
    hide Tokens.Authenticated, Tokens.Inv, Tokens.NoCollision;
    if Tokens.Usable(s, r, raw, now) {
      Tokens.UsableAuthenticates(u.dialect, u.tokens, s, r, raw, now);
    }
  }

  predicate Names(r: Result<Option<Identity>, Sessions.Raised>, pid: string) {
    && r.Ok? && r.value.Some?
    && match r.value.value
       case ByToken(caller) => caller.principalId == Some(pid)
       case BySession(session) => session.principalId == Sessions.Text(pid)
  }

  /** The request carries a cookie that verifies and names the principal, and no bearer text. */
  predicate CookieNames(u: Setup, bearer: Option<string>, cookie: Option<string>, now: int, pid: string) {
    && bearer.None? && cookie.Some? && u.secret.Some?
    && match Sessions.CookieSession(u.sessions, u.secret.value, cookie.value, now)
       case Ok(Some(session)) => session.principalId == Sessions.Text(pid)
       case _ => false
  }

  /**
    In every state after a principal was deleted, a request still resolves to it exactly
    by a cookie that names it: bearer texts are looked up, cookies are not.
   */
  lemma DeletedComesByCookieOnly(u: Setup, events: seq<Tokens.Event>, more: seq<Tokens.Event>, pid: string,
                                 bearer: Option<string>, cookie: Option<string>, now: int)
    requires pid in Tokens.Run(u.tokens, events).dir.principals && Tokens.Supported(u.dialect)
    requires bearer.Some? ==>
      Tokens.NoCollision(u.tokens, Tokens.Run(u.tokens, events + [Tokens.Remove(pid)] + more), bearer.value)
    ensures var dir := Tokens.Run(u.tokens, events + [Tokens.Remove(pid)] + more).dir;
      Names(Resolve(u, dir, bearer, cookie, now), pid) <==> CookieNames(u, bearer, cookie, now, pid)
  {
    hide Tokens.Run, Tokens.Authenticated, Tokens.NoCollision, Sessions.CookieSession;
    if bearer.Some? {
      Tokens.DeletedStaysOut(u.dialect, u.tokens, events, more, pid, bearer.value, now);
    }
  }

  /** And a cookie names the principal it was issued for until its lifetime is over, whatever the directory says. */
  lemma IssuedCookieLasts(u: Setup, dir: Tokens.Directory, ttl: int, pid: string, scopes: set<string>, sub: string,
                          issued: int, now: int)
    requires u.secret.Some? && Sessions.Sorts(u.sessions)
    requires Sessions.Reads(u.sessions, Sessions.SessionFields(u.sessions, pid, scopes, sub, issued + ttl))
    ensures var cookie := Sessions.Issue(u.sessions, u.secret.value, ttl, pid, scopes, sub, issued);
      Names(Resolve(u, dir, None, Some(cookie), now), pid) <==> now < issued + ttl && pid != ""
  {
    hide Sessions.Verify, Sessions.Reads;
    Sessions.VerifyIssued(u.sessions, u.secret.value, ttl, pid, scopes, sub, issued, now);
    IssuedIsText(u.sessions, u.secret.value, ttl, pid, scopes, sub, issued);
  }

  lemma IssuedIsText(l: Sessions.Library, secret: bytes, ttl: int, pid: string,
                     scopes: set<string>, sub: string, issued: int)
    ensures Sessions.Issue(l, secret, ttl, pid, scopes, sub, issued) != ""
  {}
}
