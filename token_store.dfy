/** The in-memory token store of bot.js: a map from token string to the
    user it was issued for and the instant (milliseconds) it expires. */
module TokenStore {
  import opened Values

  datatype Info = Info(userId: string, expiresAt: int)

  /** Ten minutes, in milliseconds. */
  const TokenLifetime: int := 10 * 60 * 1000

  /** The store after `token` was issued to `userId` at time `now`. */
  function Issued(m: map<string, Info>, userId: string, token: string, now: int): (r: map<string, Info>)
    ensures token in r && r[token] == Info(userId, now + 600000)
    ensures forall t :: t != token ==> (t in r <==> t in m)
    ensures forall t :: t != token && t in m ==> r[t] == m[t]
  {
    m[token := Info(userId, now + TokenLifetime)]
  }

  /** The store after the periodic sweep at time `now`. */
  function Swept(m: map<string, Info>, now: int): (r: map<string, Info>)
    ensures forall t :: t in r ==> r[t].expiresAt > now
    ensures forall t :: t in r ==> t in m && r[t] == m[t]
    ensures forall t :: t in m && m[t].expiresAt > now ==> t in r
  {
    map t | t in m && m[t].expiresAt > now :: m[t]
  }

  /** The store after `token` was deleted; deleting an absent token is a no-op. */
  function Invalidated(m: map<string, Info>, token: string): (r: map<string, Info>)
    ensures token !in r
    ensures forall t :: t != token ==> (t in r <==> t in m)
    ensures forall t :: t != token && t in m ==> r[t] == m[t]
    ensures token !in m ==> r == m
  {
    m - {token}
  }

  /** Sweeping twice at the same instant removes nothing more. */
  lemma SweptIdempotent(m: map<string, Info>, now: int)
    ensures Swept(Swept(m, now), now) == Swept(m, now)
  {
  }

  /** A later sweep subsumes an earlier one. */
  lemma SweptLater(m: map<string, Info>, earlier: int, later: int)
    requires earlier <= later
    ensures Swept(Swept(m, earlier), later) == Swept(m, later)
  {
  }

  /** A token issued at `now` survives every sweep before it expires. */
  lemma IssuedSurvivesSweep(m: map<string, Info>, userId: string, token: string, now: int, at: int)
    requires at < now + TokenLifetime
    ensures token in Swept(Issued(m, userId, token, now), at)
  {
  }

  /** The JavaScript `Map` held in `tokenStore`. */
  class TokenStore {
    var tokens: map<string, Info>

    constructor ()
      ensures tokens == map[]
    {
      tokens := map[];
    }

    /** `tokenStore.get(token)`: the entry, whether or not it has expired. */
    method Get(token: string) returns (info: Option<Info>)
      ensures info.Some? <==> token in tokens
      ensures info.Some? ==> info.value == tokens[token]
    {
      if token in tokens {
        info := Some(tokens[token]);
      } else {
        info := None;
      }
    }

    /** `tokenStore.delete(token)`. */
    method Delete(token: string)
      modifies this
      ensures tokens == Invalidated(old(tokens), token)
    {
      tokens := tokens - {token};
    }

    /** `createTokenForUser(userId)`, with the random token and the clock
        passed in. An existing entry under the same token is overwritten,
        as `Map.set` does. */
    method CreateTokenForUser(userId: string, token: string, now: int) returns (t: string)
      modifies this
      ensures t == token
      ensures tokens == Issued(old(tokens), userId, token, now)
    {
      var expiresAt := now + TokenLifetime;
      tokens := tokens[token := Info(userId, expiresAt)];
      t := token;
    }

    /** The body of the minutely `setInterval` callback: walk the entries and
        delete each one whose expiry is not after `now`. */
    method SweepExpired(now: int)
      modifies this
      ensures tokens == Swept(old(tokens), now)
    {
      var pending := tokens.Keys;
      while pending != {}
        invariant pending <= old(tokens).Keys
        invariant forall t :: t in tokens <==> t in old(tokens) && (t in pending || old(tokens)[t].expiresAt > now)
        invariant forall t :: t in tokens ==> tokens[t] == old(tokens)[t]
        decreases pending
      {
        var t :| t in pending;
        if tokens[t].expiresAt <= now {
          tokens := tokens - {t};
        }
        pending := pending - {t};
      }
    }
  }
}
