/** The verification link bot.js sends when the "Verify" button is pressed,
    and the reading of its query string back into the four fields. */
module VerifyLink {
  import opened Values
  import opened UriComponent

  /** `process.env.WEB_BASE || \`http://localhost:${process.env.PORT || 3000}\``. */
  function Base(webBase: Option<string>, port: Option<string>): (r: string)
    ensures Truthy(webBase) ==> r == webBase.value
    ensures !Truthy(webBase) && Truthy(port) ==> r == "http://localhost:" + port.value
    ensures !Truthy(webBase) && !Truthy(port) ==> r == "http://localhost:3000"
  {
    if Truthy(webBase) then webBase.value
    else "http://localhost:" + (if Truthy(port) then port.value else "3000")
  }

  /** `(a + b)` begins with `a`. */
  lemma PrefixOf(a: string, b: string)
    ensures (a + b)[..|a|] == a
  {
  }

  /** The template of the link with its four fields already encoded. It
      starts with the base and `/?` and is 30 characters longer than the
      base and the fields together. */
  function Fill(base: string, e1: string, e2: string, e3: string, e4: string): (r: string)
    ensures |r| == |base| + 30 + |e1| + |e2| + |e3| + |e4|
    ensures r[..|base| + 2] == base + "/?"
  {
    var w := base + "/?id=" + e1 + "&token=" + e2 + "&username=" + e3 + "&avatar=";
    PrefixOf(w, e4);
    PrefixOf(base + "/?id=" + e1 + "&token=" + e2 + "&username=", e3);
    PrefixOf(base + "/?id=" + e1 + "&token=" + e2, "&username=");
    PrefixOf(base + "/?id=" + e1 + "&token=", e2);
    PrefixOf(base + "/?id=" + e1, "&token=");
    PrefixOf(base + "/?id=", e1);
    assert (w + e4)[..|base| + 5] == base + "/?id=";
    assert (base + "/?id=")[..|base| + 2] == base + "/?";
    w + e4
  }

  /** The link: the base, then the user id, token, user name and avatar URL,
      each passed through encodeURIComponent. */
  function Link(base: string, userId: string, token: string, username: string, avatar: string): (r: string)
    ensures |r| == |base| + 30 + |Encode(userId)| + |Encode(token)| + |Encode(username)| + |Encode(avatar)|
    ensures r[..|base| + 2] == base + "/?"
  {
    Fill(base, Encode(userId), Encode(token), Encode(username), Encode(avatar))
  }

  /** Index of the first `c` in `s`, or `|s|` when there is none. */
  function IndexOf(s: string, c: char): (i: nat)
    ensures i <= |s|
    ensures i < |s| ==> s[i] == c
    ensures forall j :: 0 <= j < i ==> s[j] != c
  {
    if s == [] || s[0] == c then 0 else 1 + IndexOf(s[1..], c)
  }

  /** `s` cut at every `sep`. */
  function Split(s: string, sep: char): (parts: seq<string>)
    decreases |s|
  {
    var i := IndexOf(s, sep);
    if i == |s| then [s] else [s[..i]] + Split(s[i + 1..], sep)
  }

  /** One `key=value` pair, the value percent-decoded. */
  function ParseParam(part: string): Option<(string, string)>
  {
    var i := IndexOf(part, '=');
    if i == |part| then None
    else match Decode(part[i + 1..])
      case Some(v) => Some((part[..i], v))
      case None => None
  }

  function ParseParams(parts: seq<string>): Option<seq<(string, string)>>
  {
    if parts == [] then Some([])
    else
      var head, tail := ParseParam(parts[0]), ParseParams(parts[1..]);
      if head.Some? && tail.Some? then Some([head.value] + tail.value) else None
  }

  /** The `&`-separated pairs of a query string. */
  function ParseQuery(q: string): Option<seq<(string, string)>>
  {
    ParseParams(Split(q, '&'))
  }

  predicate Free(s: string, c: char)
  {
    forall j :: 0 <= j < |s| ==> s[j] != c
  }

  lemma IndexOfAbsent(a: string, c: char)
    requires Free(a, c)
    ensures IndexOf(a, c) == |a|
  {
  }

  /** Cutting at the first separator. */
  lemma SplitAt(a: string, sep: char, b: string)
    requires Free(a, sep)
    ensures Split(a + [sep] + b, sep) == [a] + Split(b, sep)
  {
    var s := a + [sep] + b;
    assert s[|a|] == sep;
    assert IndexOf(s, sep) == |a|;
    assert s[..|a|] == a && s[|a| + 1..] == b;
  }

  /** A `key=` followed by an encoded value reads back as that key and value. */
  lemma ParseEncodedParam(key: string, value: string)
    requires Free(key, '=')
    ensures ParseParam(key + "=" + Encode(value)) == Some((key, value))
  {
    var part := key + "=" + Encode(value);
    assert part[|key|] == '=';
    assert IndexOf(part, '=') == |key|;
    assert part[..|key|] == key && part[|key| + 1..] == Encode(value);
    DecodeEncode(value);
  }

  /** The `key=` prefix and encoded value of one pair hold no `&`. */
  lemma PairFree(key: string, value: string)
    requires Free(key, '&')
    ensures Free(key + "=" + Encode(value), '&')
  {
  }

  /** `parts` joined with `sep` between neighbours. */
  function Join(parts: seq<string>, sep: char): string
  {
    if parts == [] then []
    else if |parts| == 1 then parts[0]
    else parts[0] + [sep] + Join(parts[1..], sep)
  }

  /** Splitting undoes joining when no part holds the separator. */
  lemma {:induction false} SplitJoin(parts: seq<string>, sep: char)
    requires |parts| > 0
    requires forall i :: 0 <= i < |parts| ==> Free(parts[i], sep)
    ensures Split(Join(parts, sep), sep) == parts
  {
    if |parts| == 1 {
      IndexOfAbsent(parts[0], sep);
    } else {
      SplitAt(parts[0], sep, Join(parts[1..], sep));
      SplitJoin(parts[1..], sep);
      assert parts == [parts[0]] + parts[1..];
    }
  }

  /** Parsing a list of pairs succeeds when every pair parses. */
  lemma {:induction false} ParseParamsAll(parts: seq<string>, pairs: seq<(string, string)>)
    requires |parts| == |pairs|
    requires forall i :: 0 <= i < |parts| ==> ParseParam(parts[i]) == Some(pairs[i])
    ensures ParseParams(parts) == Some(pairs)
  {
    if parts != [] {
      ParseParamsAll(parts[1..], pairs[1..]);
      assert pairs == [pairs[0]] + pairs[1..];
    }
  }

  lemma JoinFour(p1: string, p2: string, p3: string, p4: string, sep: char)
    ensures Join([p1, p2, p3, p4], sep) == p1 + [sep] + (p2 + [sep] + (p3 + [sep] + p4))
  {
    assert Join([p4], sep) == p4;
    assert [p3, p4][1..] == [p4];
    assert Join([p3, p4], sep) == p3 + [sep] + p4;
    assert [p2, p3, p4][1..] == [p3, p4];
    assert Join([p2, p3, p4], sep) == p2 + [sep] + (p3 + [sep] + p4);
    assert [p1, p2, p3, p4][1..] == [p2, p3, p4];
  }

  lemma Assoc(a: string, b: string, c: string)
    ensures a + b + c == a + (b + c)
  {
  }

  /** Regrouping the link's template into the base, `/?` and the pairs. */
  lemma Regroup(base: string, e1: string, e2: string, e3: string, e4: string)
    ensures base + "/?id=" + e1 + "&token=" + e2 + "&username=" + e3 + "&avatar=" + e4 ==
      base + "/?" + (("id=" + e1) + ['&'] + (("token=" + e2) + ['&'] + (("username=" + e3) + ['&'] + ("avatar=" + e4))))
  {
    var amp: string := ['&'];
    var p1, p2, p3, p4 := "id=" + e1, "token=" + e2, "username=" + e3, "avatar=" + e4;
    var a1 := base + "/?id=" + e1;
    var a2 := a1 + "&token=" + e2;
    var a3 := a2 + "&username=" + e3;
    // each `&key=` literal is the separator followed by `key=`
    assert "/?id=" == "/?" + "id=";
    assert "&token=" == amp + "token=";
    assert "&username=" == amp + "username=";
    assert "&avatar=" == amp + "avatar=";
    Assoc(base, "/?", "id=");
    Assoc(base + "/?", "id=", e1);
    assert a1 == base + "/?" + p1;
    Assoc(a1, amp + "token=", e2);
    Assoc(amp, "token=", e2);
    assert a2 == a1 + (amp + p2);
    Assoc(a2, amp + "username=", e3);
    Assoc(amp, "username=", e3);
    assert a3 == a2 + (amp + p3);
    Assoc(a3, amp + "avatar=", e4);
    Assoc(amp, "avatar=", e4);
    // the right-nested join, innermost first
    var r3 := p3 + amp + p4;
    var r2 := p2 + amp + r3;
    var r1 := p1 + amp + r2;
    Assoc(amp, p3, amp + p4);
    Assoc(p3, amp, p4);
    var t3 := amp + r3;
    assert (amp + p3) + (amp + p4) == t3;
    Assoc(amp, p2, t3);
    Assoc(p2, amp, r3);
    var t2 := amp + r2;
    assert (amp + p2) + t3 == t2;
    Assoc(p1, amp, r2);
    assert p1 + t2 == r1;
    Assoc(a2, amp + p3, amp + p4);
    Assoc(a1, amp + p2, t3);
    Assoc(base + "/?", p1, t2);
  }

  /** One `key=value` part of a query, the value encoded. */
  function Param(key: string, value: string): string
  {
    key + "=" + Encode(value)
  }

  /** The `key=value` parts of a query. */
  function Pairs(keys: seq<string>, values: seq<string>): (parts: seq<string>)
    requires |keys| == |values|
    ensures |parts| == |keys|
  {
    seq(|keys|, i requires 0 <= i < |keys| => Param(keys[i], values[i]))
  }

  function Zip(keys: seq<string>, values: seq<string>): (pairs: seq<(string, string)>)
    requires |keys| == |values|
    ensures |pairs| == |keys|
  {
    seq(|keys|, i requires 0 <= i < |keys| => (keys[i], values[i]))
  }

  /** A query built from keys free of `&` and `=` and encoded values reads
      back as exactly those keys and values, in order. */
  lemma QueryRoundTrip(keys: seq<string>, values: seq<string>)
    requires |keys| == |values| > 0
    requires forall i :: 0 <= i < |keys| ==> Free(keys[i], '&') && Free(keys[i], '=')
    ensures ParseQuery(Join(Pairs(keys, values), '&')) == Some(Zip(keys, values))
  {
    var parts, pairs := Pairs(keys, values), Zip(keys, values);
    forall i | 0 <= i < |parts|
      ensures Free(parts[i], '&') && ParseParam(parts[i]) == Some(pairs[i])
    {
      PairFree(keys[i], values[i]);
      ParseEncodedParam(keys[i], values[i]);
      assert parts[i] == Param(keys[i], values[i]);
    }
    SplitJoin(parts, '&');
    ParseParamsAll(parts, pairs);
  }

  const LinkKeys: seq<string> := ["id", "token", "username", "avatar"]

  /** The link is the base, `/?`, and the four `key=value` pairs joined by `&`. */
  lemma LinkShape(base: string, userId: string, token: string, username: string, avatar: string)
    ensures Link(base, userId, token, username, avatar) ==
      base + "/?" + Join(Pairs(LinkKeys, [userId, token, username, avatar]), '&')
  {
    var e1, e2, e3, e4 := Encode(userId), Encode(token), Encode(username), Encode(avatar);
    Regroup(base, e1, e2, e3, e4);
    LinkParams(userId, token, username, avatar);
    JoinFour(Param("id", userId), Param("token", token), Param("username", username), Param("avatar", avatar), '&');
    LinkPairs(userId, token, username, avatar);
  }

  lemma LinkParams(userId: string, token: string, username: string, avatar: string)
    ensures Param("id", userId) == "id=" + Encode(userId)
    ensures Param("token", token) == "token=" + Encode(token)
    ensures Param("username", username) == "username=" + Encode(username)
    ensures Param("avatar", avatar) == "avatar=" + Encode(avatar)
  {
    assert "id" + "=" == "id=" && "token" + "=" == "token=";
    assert "username" + "=" == "username=" && "avatar" + "=" == "avatar=";
  }

  lemma LinkPairs(userId: string, token: string, username: string, avatar: string)
    ensures Pairs(LinkKeys, [userId, token, username, avatar]) ==
      [Param("id", userId), Param("token", token), Param("username", username), Param("avatar", avatar)]
  {
    var values := [userId, token, username, avatar];
    var ps := Pairs(LinkKeys, values);
    assert |ps| == 4;
    assert ps[0] == Param(LinkKeys[0], values[0]) == Param("id", userId);
    assert ps[1] == Param(LinkKeys[1], values[1]) == Param("token", token);
    assert ps[2] == Param(LinkKeys[2], values[2]) == Param("username", username);
    assert ps[3] == Param(LinkKeys[3], values[3]) == Param("avatar", avatar);
  }

  lemma LinkZip(userId: string, token: string, username: string, avatar: string)
    ensures Zip(LinkKeys, [userId, token, username, avatar]) ==
      [("id", userId), ("token", token), ("username", username), ("avatar", avatar)]
  {
    var values := [userId, token, username, avatar];
    var pairs := Zip(LinkKeys, values);
    assert pairs[0] == (LinkKeys[0], values[0]) == ("id", userId);
    assert pairs[1] == (LinkKeys[1], values[1]) == ("token", token);
    assert pairs[2] == (LinkKeys[2], values[2]) == ("username", username);
    assert pairs[3] == (LinkKeys[3], values[3]) == ("avatar", avatar);
  }

  lemma SliceAfter(base: string, q: string)
    ensures |base + "/?" + q| == |base| + 2 + |q|
    ensures (base + "/?" + q)[..|base| + 2] == base + "/?"
    ensures (base + "/?" + q)[|base| + 2..] == q
  {
  }

  /** The keys of the link contain neither separator. */
  lemma KeysFree()
    ensures forall i :: 0 <= i < |LinkKeys| ==> Free(LinkKeys[i], '&') && Free(LinkKeys[i], '=')
  {
    assert Free("id", '&') && Free("token", '&') && Free("username", '&') && Free("avatar", '&');
    assert Free("id", '=') && Free("token", '=') && Free("username", '=') && Free("avatar", '=');
  }

  /** The link is the base, then `/?`, then a query string from which the
      four fields come back unchanged, in order, under their keys. */
  lemma LinkRoundTrip(base: string, userId: string, token: string, username: string, avatar: string)
    ensures var link := Link(base, userId, token, username, avatar);
      |base| + 2 <= |link| && link[..|base| + 2] == base + "/?" &&
      ParseQuery(link[|base| + 2..]) ==
        Some([("id", userId), ("token", token), ("username", username), ("avatar", avatar)])
  {
    var values := [userId, token, username, avatar];
    LinkShape(base, userId, token, username, avatar);
    SliceAfter(base, Join(Pairs(LinkKeys, values), '&'));
    KeysFree();
    QueryRoundTrip(LinkKeys, values);
    LinkZip(userId, token, username, avatar);
  }




}
