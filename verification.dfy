/** The `POST /verify` handler of bot.js: an ordered chain of checks that
    stops at the first failure and, only when every check passes, grants
    the role and deletes the token. The reCAPTCHA oracle and the Discord
    calls are inputs. */
module Verification {
  import opened Values
  import opened TokenStore

  /** The form fields the handler destructures from the request body. */
  datatype Request = Request(captcha: Option<string>, userId: Option<string>, token: Option<string>)

  /** What the outside world answers during one request: the `success`
      field of the reCAPTCHA reply, whether `client.guilds.fetch` returned,
      whether `guild.members.fetch` found the member, and whether
      `member.roles.add` returned. */
  datatype Oracles = Oracles(captchaSuccess: bool, guildFetched: bool, memberFound: bool, roleAdded: bool)

  /** Which branch of the handler answered. */
  datatype Verdict =
    | CaptchaMissing
    | MissingCredentials
    | InvalidToken
    | TokenMismatch
    | CaptchaFailed
    | UserNotFound
    | RoleGrantError
    | Verified

  /** An HTTP reply: status code and plain-text body. */
  datatype Reply = Reply(status: int, text: string)

  /** The status and text the handler sends for each branch. */
  function ReplyOf(v: Verdict): (r: Reply)
    ensures r.status == 200 <==> v == Verified
    ensures r.status == 500 <==> v == RoleGrantError
    ensures r.status == 400 <==> v != Verified && v != RoleGrantError
  {
    match v
    case CaptchaMissing => Reply(400, "Captcha missing.")
    case MissingCredentials => Reply(400, "Missing user_id or token.")
    case InvalidToken => Reply(400, "Invalid or expired token.")
    case TokenMismatch => Reply(400, "Token does not match user.")
    case CaptchaFailed => Reply(400, "Captcha verification failed.")
    case UserNotFound => Reply(400, "User not found on the server.")
    case RoleGrantError => Reply(500, "Server error while assigning role.")
    case Verified => Reply(200, "\U{2705} Verification successful! You may now return to Discord.")
  }

  /** Every branch answers with its own text. */
  lemma RepliesDistinct(v: Verdict, w: Verdict)
    requires v != w
    ensures ReplyOf(v) != ReplyOf(w)
  {
  }

  /** The submitted credentials name a token of the store that was issued
      to the submitted user. Only presence is looked at, never `expiresAt`. */
  predicate Matches(m: map<string, Info>, req: Request)
  {
    Truthy(req.userId) && Truthy(req.token) && req.token.value in m && m[req.token.value].userId == req.userId.value
  }

  /** The branch the handler takes on store `m`. */
  function Decide(m: map<string, Info>, req: Request, o: Oracles): (v: Verdict)
    ensures v == CaptchaMissing <==> !Truthy(req.captcha)
    ensures v == MissingCredentials <==> Truthy(req.captcha) && !(Truthy(req.userId) && Truthy(req.token))
    ensures v == InvalidToken <==>
      Truthy(req.captcha) && Truthy(req.userId) && Truthy(req.token) && req.token.value !in m
    ensures v == TokenMismatch <==>
      Truthy(req.captcha) && Truthy(req.userId) && Truthy(req.token) && req.token.value in m &&
      m[req.token.value].userId != req.userId.value
    ensures v == CaptchaFailed <==> Truthy(req.captcha) && Matches(m, req) && !o.captchaSuccess
    ensures v == UserNotFound <==>
      Truthy(req.captcha) && Matches(m, req) && o.captchaSuccess && o.guildFetched && !o.memberFound
    ensures v == RoleGrantError <==>
      Truthy(req.captcha) && Matches(m, req) && o.captchaSuccess &&
      (!o.guildFetched || (o.memberFound && !o.roleAdded))
    ensures v == Verified <==>
      Truthy(req.captcha) && Matches(m, req) && o.captchaSuccess && o.guildFetched && o.memberFound && o.roleAdded
    ensures v == Verified ==> req.token.Some? && req.token.value in m
  {
    if !Truthy(req.captcha) then CaptchaMissing
    else if !Truthy(req.userId) || !Truthy(req.token) then MissingCredentials
    else if req.token.value !in m then InvalidToken
    else if m[req.token.value].userId != req.userId.value then TokenMismatch
    else if !o.captchaSuccess then CaptchaFailed
    else if !o.guildFetched then RoleGrantError
    else if !o.memberFound then UserNotFound
    else if !o.roleAdded then RoleGrantError
    else Verified
  }

  /** The store after the handler ran: only success deletes, and it
      deletes the submitted token. */
  function After(m: map<string, Info>, req: Request, o: Oracles): (r: map<string, Info>)
    ensures Decide(m, req, o) != Verified ==> r == m
    ensures Decide(m, req, o) == Verified ==> r == Invalidated(m, req.token.value)
  {
    if Decide(m, req, o) == Verified then m - {req.token.value} else m
  }

  /** The token, once looked up, is the only liveness test: a present entry
      is accepted however long ago it expired. */
  lemma ExpiredButPresentAccepted(m: map<string, Info>, req: Request, o: Oracles, now: int)
    requires Truthy(req.captcha) && Matches(m, req)
    requires m[req.token.value].expiresAt <= now
    requires o == Oracles(true, true, true, true)
    ensures Decide(m, req, o) == Verified
  {
  }

  /** After a sweep at `now`, a token that had expired by `now` is refused
      at the lookup step. */
  lemma ExpiredRejectedAfterSweep(m: map<string, Info>, req: Request, o: Oracles, now: int)
    requires Truthy(req.captcha) && Truthy(req.userId) && Truthy(req.token)
    requires req.token.value in m && m[req.token.value].expiresAt <= now
    ensures Decide(Swept(m, now), req, o) == InvalidToken
  {
  }

  /** An owner mismatch is reported whatever the captcha oracle and the
      Discord calls would have answered: the chain stops before them. */
  lemma MismatchBeforeOracle(m: map<string, Info>, req: Request, o1: Oracles, o2: Oracles)
    requires Truthy(req.captcha) && Truthy(req.userId) && Truthy(req.token)
    requires req.token.value in m && m[req.token.value].userId != req.userId.value
    ensures Decide(m, req, o1) == Decide(m, req, o2) == TokenMismatch
  {
  }

  /** The same holds of every rejection before the oracle is consulted:
      those verdicts depend on the store and the form only. */
  lemma EarlyVerdictsIgnoreOracles(m: map<string, Info>, req: Request, o1: Oracles, o2: Oracles)
    requires !(Truthy(req.captcha) && Matches(m, req))
    ensures Decide(m, req, o1) == Decide(m, req, o2)
    ensures Decide(m, req, o1) in {CaptchaMissing, MissingCredentials, InvalidToken, TokenMismatch}
  {
  }

  /** Redemption is single-use: once a submission succeeded, the same token
      is refused at the lookup step, whatever the oracles say. */
  lemma SecondSubmissionRejected(m: map<string, Info>, req: Request, o: Oracles, req2: Request, o2: Oracles)
    requires Decide(m, req, o) == Verified
    requires Truthy(req2.captcha) && Truthy(req2.userId) && req2.token == req.token
    ensures Decide(After(m, req, o), req2, o2) == InvalidToken
  {
  }

  /** A token issued to one user and submitted by another is refused as a
      mismatch and stays in the store. */
  lemma OtherUserRejected(m: map<string, Info>, owner: string, token: string, now: int, req: Request, o: Oracles)
    requires token != "" && Truthy(req.captcha) && Truthy(req.userId)
    requires req.token == Some(token) && req.userId.value != owner
    ensures Decide(Issued(m, owner, token, now), req, o) == TokenMismatch
    ensures After(Issued(m, owner, token, now), req, o) == Issued(m, owner, token, now)
  {
  }

  /** The handler itself, step by step as bot.js runs it. */
  method HandleVerify(store: TokenStore, req: Request, o: Oracles) returns (reply: Reply)
    modifies store
    ensures reply == ReplyOf(Decide(old(store.tokens), req, o))
    ensures store.tokens == After(old(store.tokens), req, o)
  {
    if !Truthy(req.captcha) {
      return ReplyOf(CaptchaMissing);
    }
    if !Truthy(req.userId) || !Truthy(req.token) {
      return ReplyOf(MissingCredentials);
    }
    var userId, token := req.userId.value, req.token.value;

    var info := store.Get(token);
    if info.None? {
      return ReplyOf(InvalidToken);
    }
    if info.value.userId != userId {
      return ReplyOf(TokenMismatch);
    }

    if !o.captchaSuccess {
      return ReplyOf(CaptchaFailed);
    }

    // inside the try block: a throw from any Discord call ends in a 500
    if !o.guildFetched {
      return ReplyOf(RoleGrantError);
    }
    if !o.memberFound {
      return ReplyOf(UserNotFound);
    }
    if !o.roleAdded {
      return ReplyOf(RoleGrantError);
    }
    store.Delete(token);
    return ReplyOf(Verified);
  }
}
