# Verification bot token flow, in Dafny

This project models the core of a Discord verification bot (`bot.js`). A user
presses a "Verify" button in a server channel. The bot then stores a short-lived
token for that user and replies with a link to a web page. The page posts a
reCAPTCHA response, the user id and the token to `POST /verify`. That handler
checks the submission and, if it is valid, grants a configured role and deletes
the token.

Three parts are modelled:

- **The token store** (`token_store.dfy`). The JavaScript `Map` from token to
  `{userId, expiresAt}` is a class `TokenStore` with a `map` field. Its methods
  are `CreateTokenForUser`, `SweepExpired` (the body of the minutely timer),
  `Get` and `Delete`. Each method that changes the map is proved to leave a
  specification function of the old map: `Issued`, `Swept` and
  `Invalidated`. `Get` changes nothing and is specified directly against the
  map.
- **The `/verify` chain** (`verification.dfy`). `HandleVerify` runs the checks
  in the order the source runs them and returns at the first failure. Its
  contract ties the reply and the new store to the pure `Decide` and `After`.
  The lemmas about those functions state which branch fires, that every
  rejection leaves the store untouched, and that redemption is single-use.
- **The link** (`uri_component.dfy`, `verify_link.dfy`). `Encode` models
  `encodeURIComponent`: it keeps the unreserved set of section 2.3 of RFC 3986
  plus `! ' ( ) *`, and writes every other character as its UTF-8 bytes, each
  as `%XX` with upper-case hexadecimal digits. `Decode` models
  `decodeURIComponent` and is proved to invert `Encode`. `Link` is the
  template string of the button handler. It is proved to read back into its
  four fields.

`lifecycle.dfy` runs sequences of button presses, sweeps and submissions
against one store, one after the other. It proves that no token is redeemed
twice when submissions do not overlap, provided every press draws a token not
seen before.

The outside world appears as inputs:

- The random token and the clock (`crypto.randomBytes`, `Date.now`) are
  parameters.
- The reCAPTCHA reply's `success` field is a boolean.
- The Discord calls are three booleans: the guild fetch returned, the member
  was found, and the role add returned.
- Environment variables (`WEB_BASE`, `PORT`) are optional strings.

**Expiry at redemption.** The reply text "Invalid or expired token." and the
message "This link expires in 10 minutes." suggest that the handler refuses a
token whose `expiresAt` has passed. The code does not check this:
`bot.js:53-54` only tests whether the token is in the map. The model follows the code.
`ExpiredButPresentAccepted` shows that an expired token the sweep has not yet
removed is still accepted. `ExpiredRejectedAfterSweep` shows that it is refused
once a sweep has run at or after its expiry.

## Model

| member | source | states |
|---|---|---|
| TokenStore.TokenStore.constructor | bot.js:23 | the store starts empty |
| TokenStore.Issued | bot.js:25-29 | after issuing, the token maps to the user and now + 600000 ms; every other entry is unchanged |
| TokenStore.TokenStore.CreateTokenForUser | bot.js:25-29 | returns the given token; the new map is `Issued` of the old one (an existing entry under that token is overwritten, as `Map.set` does) |
| TokenStore.Swept | bot.js:32-36 | after a sweep at `now`, no entry has expiresAt <= now, every entry with expiresAt > now is kept with the same info, and nothing is added |
| TokenStore.TokenStore.SweepExpired | bot.js:32-36 | the loop that deletes while it walks the entries leaves exactly `Swept(old, now)` |
| TokenStore.SweptIdempotent | bot.js:32-36 | sweeping twice at the same instant equals sweeping once |
| TokenStore.SweptLater | bot.js:32-36 | a sweep at an earlier instant followed by one at a later instant equals the later sweep alone |
| TokenStore.IssuedSurvivesSweep | bot.js:27-35 | a freshly issued token survives every sweep before its ten minutes are up |
| TokenStore.Invalidated | bot.js:70 | deletion removes that token and keeps every other entry; deleting an absent token changes nothing |
| TokenStore.TokenStore.Get | bot.js:53 | returns the entry exactly when the token is present, whatever its expiry |
| TokenStore.TokenStore.Delete | bot.js:70 | the new map is `Invalidated(old, token)` |
| Verification.ReplyOf | bot.js:49-74 | status 200 only for success, 500 only for the role-grant failure, 400 for every other rejection |
| Verification.RepliesDistinct | bot.js:49-74 | every outcome has its own reply |
| Verification.Decide | bot.js:46-76 | one if-and-only-if per branch: missing or empty captcha gives "Captcha missing." whatever else is sent; otherwise a missing user_id or token gives "Missing user_id or token."; otherwise a token absent from the store gives "Invalid or expired token."; otherwise a token stored for another user gives "Token does not match user."; otherwise a failing oracle gives "Captcha verification failed."; otherwise a failed guild fetch, or a found member whose role grant fails, gives the 500; a guild that was fetched with the member not found gives "User not found on the server."; success exactly when all of these pass |
| Verification.After | bot.js:49-74 | every rejection, including the 500, leaves the store as it was; success deletes exactly the submitted token |
| Verification.HandleVerify | bot.js:46-76 | the step-by-step handler answers `ReplyOf(Decide(old store, …))` and leaves `After(old store, …)` |
| Verification.ExpiredButPresentAccepted | bot.js:53-54 | a present token is accepted even when its expiresAt is already past |
| Verification.ExpiredRejectedAfterSweep | bot.js:53-54 | after a sweep at `now`, a token that had expired by `now` is refused as "Invalid or expired token." |
| Verification.MismatchBeforeOracle | bot.js:55-61 | a token stored for another user is refused as "Token does not match user." whatever the oracle and Discord calls would answer |
| Verification.EarlyVerdictsIgnoreOracles | bot.js:49-61 | every rejection before the captcha check depends only on the form and the store |
| Verification.SecondSubmissionRejected | bot.js:53-70 | after a successful submission, the same token is refused at the lookup step |
| Verification.OtherUserRejected | bot.js:55 | a token issued to one user and submitted by another is a mismatch, and the entry stays |
| UriComponent.Encode | bot.js:107 | the encoding uses only unescaped characters and `%` |
| UriComponent.EncodePlain | bot.js:107 | a string of unescaped characters, such as the hex token of `randomBytes(16).toString("hex")`, is its own encoding |
| UriComponent.DecodeFirstEncodeChar | bot.js:107 | decoding reads back the first encoded character and exactly its length, for 1-, 2-, 3- and 4-byte UTF-8 |
| UriComponent.DecodeEncode | bot.js:107 | decoding undoes encoding on every string |
| UriComponent.EncodeInjective | bot.js:107 | different strings have different encodings |
| VerifyLink.Base | bot.js:106 | WEB_BASE when it is set and non-empty, else `http://localhost:` followed by PORT, or 3000 when PORT is unset or empty |
| VerifyLink.Link | bot.js:107 | the link starts with the base and `/?`, and is the four encoded fields plus 30 characters of template long |
| VerifyLink.LinkShape | bot.js:107 | the link is the base, `/?`, and the `id`, `token`, `username` and `avatar` pairs joined by `&` |
| VerifyLink.SplitJoin | bot.js:107 | splitting a `&`-joined query on `&` gives back exactly its parts, when no part contains `&` |
| VerifyLink.QueryRoundTrip | bot.js:107 | any query of `key=` + encoded value pairs, with keys free of `&` and `=`, parses back into exactly those keys and values, in order |
| VerifyLink.LinkRoundTrip | bot.js:107 | the link starts with base + `/?`, and its query string parses back into exactly the four fields, in order, under their keys |
| Lifecycle.RunRedeemsOnce | bot.js:25-70 | over any run of presses, sweeps and submissions handled one after another, each redeemed token was stored or issued, is gone afterwards, and is redeemed only once, provided presses draw new tokens |
| Lifecycle.AtMostOnce | bot.js:25-70 | starting from any store, no token is redeemed twice when submissions do not overlap and presses draw new tokens |
| Lifecycle.IssueThenRedeem | bot.js:28-70 | issuing a new token and redeeming it leaves the store as it was before the press |
| Lifecycle.PressThenSubmitTwice | bot.js:25-71 | a press then two identical submissions with every outside call succeeding: first 200, then "Invalid or expired token.", and the store ends empty |
| Lifecycle.PressThenFailCaptcha | bot.js:25-61 | a press then a submission the oracle rejects: "Captcha verification failed.", and the issued entry is still there |

## Left out

- Discord client setup, event wiring and slash-command dispatch (bot.js:12-19, 79-94, 110-117). They are calls into discord.js with no logic of their own. The same holds for commands/setupverify.js and deploy-commands.js.
- Express setup, body parsing, static hosting and `app.listen` (bot.js:40-42, 120-122). These are I/O.
- The reCAPTCHA request (bot.js:58-60). It is the boolean `captchaSuccess`. An exception from `fetch` or `response.json()` is thrown outside the `try` and is not modelled. The captcha is also put into the request URL without encoding, which is not modelled either.
- Discord's guild lookup, member lookup and role grant (bot.js:65-68). They are three booleans. A throw from the guild lookup (bot.js:65) or the role grant (bot.js:68) reaches the `catch` and ends in the 500 reply (bot.js:72-74). A throw from the member lookup is turned into `null` by its own `.catch` (bot.js:66) and ends in the 400 "User not found on the server." (bot.js:67). Both paths are modelled.
- `crypto.randomBytes`, `Date.now` and the `setInterval` timer. Token and time are parameters, and the sweep is a method. That tokens never repeat is a hypothesis of `Lifecycle.AtMostOnce` and `Lifecycle.RunRedeemsOnce`; randomness is not modelled.
- Two concurrent requests for the same token, interleaved at the `await` points (bot.js:59, 65-68). The model is sequential, so it cannot show the double grant this race allows.
- Form fields that the extended body parser turns into arrays or objects. A field is either absent or a string.
- Strings hold Unicode scalar values. A JavaScript string holding a lone surrogate, on which `encodeURIComponent` throws `URIError`, cannot be written.
- The text of the Discord reply carrying the link (bot.js:110-113) and console logging.

- The web page under `website/` that reads the link is not part of this model. `LinkRoundTrip` reads the query string back with `ParseQuery`, which splits on `&` and `=` and decodes each value as `decodeURIComponent` does.
