/** The token store over a run of the process: a sequence of button presses
    (token issued), sweeps and `/verify` submissions, applied one after the
    other to the one store. */
module Lifecycle {
  import opened Values
  import opened TokenStore
  import opened Verification

  datatype Event =
    | Issue(userId: string, token: string, now: int)
    | Sweep(now: int)
    | Submit(req: Request, o: Oracles)

  /** The store after one event. */
  function Step(m: map<string, Info>, e: Event): map<string, Info>
  {
    match e
    case Issue(userId, token, now) => Issued(m, userId, token, now)
    case Sweep(now) => Swept(m, now)
    case Submit(req, o) => After(m, req, o)
  }

  /** The token an event redeemed, as a zero- or one-element sequence. */
  function Redeemed(m: map<string, Info>, e: Event): (r: seq<string>)
    ensures |r| <= 1
    ensures r != [] ==> r[0] in m && r[0] !in Step(m, e)
  {
    match e
    case Submit(req, o) => if Decide(m, req, o) == Verified then [req.token.value] else []
    case _ => []
  }

  /** The final store and the tokens redeemed, in order. */
  function Run(m: map<string, Info>, events: seq<Event>): (map<string, Info>, seq<string>)
    decreases |events|
  {
    if events == [] then (m, [])
    else
      var (final, later) := Run(Step(m, events[0]), events[1..]);
      (final, Redeemed(m, events[0]) + later)
  }

  /** Tokens handed out by the button presses of a run. */
  function IssuedTokens(events: seq<Event>): set<string>
    decreases |events|
  {
    if events == [] then {}
    else (if events[0].Issue? then {events[0].token} else {}) + IssuedTokens(events[1..])
  }

  /** Every token a press hands out is new: neither in `seen` nor issued
      earlier in the run. This is what drawing sixteen random bytes is
      relied on for. */
  predicate FreshIssues(seen: set<string>, events: seq<Event>)
    decreases |events|
  {
    events == [] ||
    (if events[0].Issue? then
       events[0].token !in seen && FreshIssues(seen + {events[0].token}, events[1..])
     else FreshIssues(seen, events[1..]))
  }

  predicate NoRepeats(s: seq<string>)
  {
    forall i, j :: 0 <= i < j < |s| ==> s[i] != s[j]
  }

  /** The invariant behind single use: a redeemed token was in the store or
      issued during the run, is gone from the final store, and no token is
      redeemed twice. */
  lemma {:induction false} RunRedeemsOnce(m: map<string, Info>, seen: set<string>, events: seq<Event>)
    requires m.Keys <= seen
    requires FreshIssues(seen, events)
    ensures IssuedTokens(events) !! seen
    ensures Run(m, events).0.Keys <= m.Keys + IssuedTokens(events)
    ensures forall t :: t in Run(m, events).1 ==> t in m.Keys + IssuedTokens(events) && t !in Run(m, events).0
    ensures NoRepeats(Run(m, events).1)
    decreases |events|
  {
    if events != [] {
      var e := events[0];
      var m1 := Step(m, e);
      var seen1 := if e.Issue? then seen + {e.token} else seen;
      var added := if e.Issue? then {e.token} else {};
      assert m1.Keys <= m.Keys + added && m1.Keys <= seen1;
      assert IssuedTokens(events) == added + IssuedTokens(events[1..]);
      RunRedeemsOnce(m1, seen1, events[1..]);
      var (final, later) := Run(m1, events[1..]);
      var first := Redeemed(m, e);
      assert Run(m, events) == (final, first + later);
      if first != [] {
        var t := first[0];
        assert t in seen && t !in m1;
        assert t !in later;
      }
    }
  }

  /** Redemption is at most once: over any run of non-overlapping events in
      which button presses hand out fresh tokens, no token is redeemed by
      two submissions. */
  lemma AtMostOnce(m: map<string, Info>, events: seq<Event>)
    requires FreshIssues(m.Keys, events)
    ensures NoRepeats(Run(m, events).1)
  {
    RunRedeemsOnce(m, m.Keys, events);
  }

  /** Issuing, then redeeming the token, leaves the store as it was before
      the press when the token was new. */
  lemma IssueThenRedeem(m: map<string, Info>, userId: string, token: string, now: int, req: Request, o: Oracles)
    requires token !in m
    requires req.token == Some(token)
    requires Decide(Issued(m, userId, token, now), req, o) == Verified
    ensures After(Issued(m, userId, token, now), req, o) == m
  {
  }

  /** A fresh process: a user presses the button, submits the form once with
      every outside call succeeding, then submits it again. The first
      submission is answered 200 and the second is refused at the lookup. */
  method PressThenSubmitTwice(userId: string, token: string, now: int, captcha: string)
    returns (first: Reply, second: Reply, left: map<string, Info>)
    requires userId != "" && token != "" && captcha != ""
    ensures first == ReplyOf(Verified) && first.status == 200
    ensures second == ReplyOf(InvalidToken) && second.status == 400
    ensures left == map[]
  {
    var store := new TokenStore();
    var t := store.CreateTokenForUser(userId, token, now);
    var req := Request(Some(captcha), Some(userId), Some(t));
    var allGood := Oracles(true, true, true, true);
    first := HandleVerify(store, req, allGood);
    second := HandleVerify(store, req, allGood);
    left := store.tokens;
  }

  /** A fresh process: a user presses the button and submits the form, and
      the captcha oracle answers no. The reply is 400 and the entry issued
      by the press is still there, unchanged. */
  method PressThenFailCaptcha(userId: string, token: string, now: int, captcha: string)
    returns (reply: Reply, left: map<string, Info>)
    requires userId != "" && token != "" && captcha != ""
    ensures reply == ReplyOf(CaptchaFailed) && reply.status == 400
    ensures left == map[token := Info(userId, now + TokenLifetime)]
  {
    var store := new TokenStore();
    var t := store.CreateTokenForUser(userId, token, now);
    var req := Request(Some(captcha), Some(userId), Some(t));
    reply := HandleVerify(store, req, Oracles(false, true, true, true));
    left := store.tokens;
  }
}
