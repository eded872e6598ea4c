/** `encodeURIComponent`, which bot.js applies to every field of the link,
    and its inverse `decodeURIComponent`, which a reader of the link uses.
    A string is a sequence of Unicode scalar values; every character
    outside the unescaped set is written as the UTF-8 bytes of its code
    point, each as `%` and two upper-case hexadecimal digits. */
module UriComponent {
  import opened Values

  /** The unreserved characters of section 2.3 of RFC 3986 together with
      ! ' ( ) *, which encodeURIComponent also leaves alone. */
  predicate Unescaped(c: char)
  {
    ('A' <= c <= 'Z') || ('a' <= c <= 'z') || ('0' <= c <= '9') || c in "-_.!~*'()"
  }

  function HexDigit(n: nat): (c: char)
    requires n < 16
  {
    "0123456789ABCDEF"[n]
  }

  /** The value of one hexadecimal digit, in either case. */
  function HexValue(c: char): (r: Option<nat>)
    ensures r.Some? ==> r.value < 16
  {
    if '0' <= c <= '9' then Some(c as int - '0' as int)
    else if 'A' <= c <= 'F' then Some(c as int - 'A' as int + 10)
    else if 'a' <= c <= 'f' then Some(c as int - 'a' as int + 10)
    else None
  }

  lemma HexDigitValue(n: nat)
    requires n < 16
    ensures HexValue(HexDigit(n)) == Some(n)
    ensures HexDigit(n) != '%' && HexDigit(n) != '&' && HexDigit(n) != '='
  {
  }

  predicate IsByte(b: int) { 0 <= b < 256 }

  /** `%` followed by the byte in two upper-case hexadecimal digits. */
  function PercentByte(b: int): (s: string)
    requires IsByte(b)
  {
    ['%', HexDigit(b / 16), HexDigit(b % 16)]
  }

  function PercentBytes(bs: seq<int>): (s: string)
    requires forall i :: 0 <= i < |bs| ==> IsByte(bs[i])
    ensures |s| == 3 * |bs|
  {
    if bs == [] then [] else PercentByte(bs[0]) + PercentBytes(bs[1..])
  }

  /** Escaped bytes are written with `%` and characters of the unescaped set. */
  lemma {:induction false} PercentBytesAlphabet(bs: seq<int>)
    requires forall i :: 0 <= i < |bs| ==> IsByte(bs[i])
    ensures forall i :: 0 <= i < |PercentBytes(bs)| ==> Unescaped(PercentBytes(bs)[i]) || PercentBytes(bs)[i] == '%'
  {
    if bs != [] {
      PercentBytesAlphabet(bs[1..]);
    }
  }

  /** The UTF-8 encoding of a code point, in one to four bytes. */
  function Utf8(c: char): (bs: seq<int>)
    ensures 1 <= |bs| <= 4
    ensures forall i :: 0 <= i < |bs| ==> IsByte(bs[i])
  {
    var cp := c as int;
    var q1 := cp / 64;
    var q2 := q1 / 64;
    var q3 := q2 / 64;
    if cp < 0x80 then [cp]
    else if cp < 0x800 then [0xC0 + q1, 0x80 + cp % 64]
    else if cp < 0x1_0000 then [0xE0 + q2, 0x80 + q1 % 64, 0x80 + cp % 64]
    else [0xF0 + q3, 0x80 + q2 % 64, 0x80 + q1 % 64, 0x80 + cp % 64]
  }

  function EncodeChar(c: char): (s: string)
    ensures forall i :: 0 <= i < |s| ==> Unescaped(s[i]) || s[i] == '%'
  {
    if Unescaped(c) then [c]
    else
      PercentBytesAlphabet(Utf8(c));
      PercentBytes(Utf8(c))
  }

  /** `encodeURIComponent(s)`. */
  function Encode(s: string): (r: string)
    ensures forall i :: 0 <= i < |r| ==> Unescaped(r[i]) || r[i] == '%'
  {
    if s == [] then [] else EncodeChar(s[0]) + Encode(s[1..])
  }

  /** A string of unescaped characters is its own encoding. */
  lemma {:induction false} EncodePlain(s: string)
    requires forall i :: 0 <= i < |s| ==> Unescaped(s[i])
    ensures Encode(s) == s
  {
    if s != [] {
      EncodePlain(s[1..]);
    }
  }

  /** The byte written as `%XY` at position `i` of `s`, if there is one. */
  function ByteAt(s: string, i: nat): (r: Option<int>)
    ensures r.Some? ==> IsByte(r.value) && i + 3 <= |s|
  {
    if i + 3 <= |s| && s[i] == '%' then
      match (HexValue(s[i + 1]), HexValue(s[i + 2]))
      case (Some(hi), Some(lo)) => Some(16 * hi + lo)
      case _ => None
    else None
  }

  /** Folds continuation bytes number `k` to `n - 1` of an escaped UTF-8
      sequence into the code point accumulated so far. */
  function Continue(s: string, k: nat, n: nat, acc: int): (r: Option<int>)
    decreases n - k
  {
    if k >= n then Some(acc)
    else match ByteAt(s, 3 * k)
      case Some(b) =>
        if 0x80 <= b < 0xC0 then Continue(s, k + 1, n, acc * 64 + (b - 0x80)) else None
      case None => None
  }

  /** Number of bytes announced by a leading UTF-8 byte of at least 0x80;
      zero when it cannot lead a sequence. */
  function SequenceLength(b: int): (n: nat)
  {
    if 0xC0 <= b < 0xE0 then 2
    else if 0xE0 <= b < 0xF0 then 3
    else if 0xF0 <= b < 0xF8 then 4
    else 0
  }

  /** The smallest code point that needs `n` bytes: anything lower is an
      overlong encoding and is refused. */
  function Smallest(n: nat): int
  {
    if n == 2 then 0x80 else if n == 3 then 0x800 else 0x1_0000
  }

  predicate IsScalar(cp: int)
  {
    0 <= cp < 0xD800 || 0xE000 <= cp < 0x11_0000
  }

  /** The first character of a non-empty encoded string and the number of
      characters it took, or None where decodeURIComponent throws URIError. */
  function DecodeFirst(s: string): (r: Option<(char, nat)>)
    requires |s| > 0
    ensures r.Some? ==> 1 <= r.value.1 <= |s|
  {
    if s[0] != '%' then Some((s[0], 1))
    else match ByteAt(s, 0)
      case None => None
      case Some(b) =>
        if b < 0x80 then Some((b as char, 3))
        else
          var n := SequenceLength(b);
          if n == 0 || |s| < 3 * n then None
          else match Continue(s, 1, n, LeadPayload(b, n))
            case Some(cp) =>
              if Smallest(n) <= cp && IsScalar(cp) then Some((cp as char, 3 * n)) else None
            case None => None
  }

  /** The code-point bits a leading byte of an `n`-byte sequence carries:
      the byte less its `n` marker bits (110, 1110 or 11110). */
  function LeadPayload(b: int, n: nat): int
  {
    if n == 2 then b - 0xC0 else if n == 3 then b - 0xE0 else b - 0xF0
  }

  /** `decodeURIComponent(s)`, None where it throws URIError. */
  function Decode(s: string): (r: Option<string>)
    decreases |s|
  {
    if s == [] then Some([])
    else match DecodeFirst(s)
      case None => None
      case Some((c, k)) =>
        match Decode(s[k..])
        case None => None
        case Some(rest) => Some([c] + rest)
  }

  /** The escaped byte at the head of a string reads back as that byte. */
  lemma ByteAtHead(b: int, rest: string)
    requires IsByte(b)
    ensures ByteAt(PercentByte(b) + rest, 0) == Some(b)
  {
    HexDigitValue(b / 16);
    HexDigitValue(b % 16);
    var s := PercentByte(b) + rest;
    assert s[0] == '%' && s[1] == HexDigit(b / 16) && s[2] == HexDigit(b % 16);
  }

  /** Reading an escaped byte past three leading characters. */
  lemma ByteAtShift(x: string, y: string, i: nat)
    requires |x| == 3
    ensures ByteAt(x + y, i + 3) == ByteAt(y, i)
  {
    var s := x + y;
    if i + 3 <= |y| {
      assert s[i + 3] == y[i] && s[i + 4] == y[i + 1] && s[i + 5] == y[i + 2];
    }
  }

  /** Byte number `k` of a run of escaped bytes reads back as that byte. */
  lemma {:induction false} ByteAtPercentBytes(bs: seq<int>, rest: string, k: nat)
    requires forall i :: 0 <= i < |bs| ==> IsByte(bs[i])
    requires k < |bs|
    ensures ByteAt(PercentBytes(bs) + rest, 3 * k) == Some(bs[k])
  {
    var tail := PercentBytes(bs[1..]) + rest;
    assert PercentBytes(bs) + rest == PercentByte(bs[0]) + tail;
    if k == 0 {
      ByteAtHead(bs[0], tail);
    } else {
      ByteAtPercentBytes(bs[1..], rest, k - 1);
      ByteAtShift(PercentByte(bs[0]), tail, 3 * (k - 1));
    }
  }

  /** A character of the unescaped set is never a `%`. */
  lemma UnescapedNotPercent(c: char)
    requires Unescaped(c)
    ensures c != '%' && c != '&' && c != '='
  {
  }

  /** A continuation byte appends its six low bits to the code point. */
  lemma ContinueStep(s: string, k: nat, n: nat, acc: int, b: int)
    requires k < n && ByteAt(s, 3 * k) == Some(b) && 0x80 <= b < 0xC0
    ensures Continue(s, k, n, acc) == Continue(s, k + 1, n, acc * 64 + (b - 0x80))
  {
  }

  /** An escaped multi-byte sequence whose continuation bytes assemble an
      allowed code point decodes to that character. */
  lemma DecodeFirstMulti(s: string, b: int, n: nat, cp: int)
    requires |s| > 0 && ByteAt(s, 0) == Some(b) && 0x80 <= b
    requires n == SequenceLength(b) && n > 0 && 3 * n <= |s|
    requires Continue(s, 1, n, LeadPayload(b, n)) == Some(cp)
    requires Smallest(n) <= cp && IsScalar(cp)
    ensures DecodeFirst(s) == Some((cp as char, 3 * n))
  {
  }

  predicate IsContinuation(b: int) { 0x80 <= b < 0xC0 }

  /** Two escaped bytes, a lead 110xxxxx and a continuation, decode to the
      code point they assemble. */
  lemma DecodeTwo(s: string, b0: int, b1: int, cp: int)
    requires |s| >= 6 && ByteAt(s, 0) == Some(b0) && ByteAt(s, 3) == Some(b1)
    requires 0xC0 <= b0 < 0xE0 && IsContinuation(b1)
    requires cp == (b0 - 0xC0) * 64 + (b1 - 0x80)
    requires 0x80 <= cp && IsScalar(cp)
    ensures DecodeFirst(s) == Some((cp as char, 6))
  {
    ContinueStep(s, 1, 2, b0 - 0xC0, b1);
    DecodeFirstMulti(s, b0, 2, cp);
  }

  /** Three escaped bytes, a lead 1110xxxx and two continuations. */
  lemma DecodeThree(s: string, b0: int, b1: int, b2: int, cp: int)
    requires |s| >= 9 && ByteAt(s, 0) == Some(b0) && ByteAt(s, 3) == Some(b1) && ByteAt(s, 6) == Some(b2)
    requires 0xE0 <= b0 < 0xF0 && IsContinuation(b1) && IsContinuation(b2)
    requires cp == ((b0 - 0xE0) * 64 + (b1 - 0x80)) * 64 + (b2 - 0x80)
    requires 0x800 <= cp && IsScalar(cp)
    ensures DecodeFirst(s) == Some((cp as char, 9))
  {
    var acc := b0 - 0xE0;
    ContinueStep(s, 1, 3, acc, b1);
    ContinueStep(s, 2, 3, acc * 64 + (b1 - 0x80), b2);
    DecodeFirstMulti(s, b0, 3, cp);
  }

  /** Four escaped bytes, a lead 11110xxx and three continuations. */
  lemma DecodeFour(s: string, b0: int, b1: int, b2: int, b3: int, cp: int)
    requires |s| >= 12 && ByteAt(s, 0) == Some(b0) && ByteAt(s, 3) == Some(b1)
    requires ByteAt(s, 6) == Some(b2) && ByteAt(s, 9) == Some(b3)
    requires 0xF0 <= b0 < 0xF8 && IsContinuation(b1) && IsContinuation(b2) && IsContinuation(b3)
    requires cp == (((b0 - 0xF0) * 64 + (b1 - 0x80)) * 64 + (b2 - 0x80)) * 64 + (b3 - 0x80)
    requires 0x1_0000 <= cp && IsScalar(cp)
    ensures DecodeFirst(s) == Some((cp as char, 12))
  {
    var acc1 := b0 - 0xF0;
    var acc2 := acc1 * 64 + (b1 - 0x80);
    var acc3 := acc2 * 64 + (b2 - 0x80);
    ContinueStep(s, 1, 4, acc1, b1);
    ContinueStep(s, 2, 4, acc2, b2);
    ContinueStep(s, 3, 4, acc3, b3);
    DecodeFirstMulti(s, b0, 4, cp);
  }

  /** The UTF-8 bytes of a code point from 0x80 to 0x7FF. */
  lemma Utf8Two(c: char)
    requires 0x80 <= c as int < 0x800
    ensures |Utf8(c)| == 2 && 0xC0 <= Utf8(c)[0] < 0xE0 && IsContinuation(Utf8(c)[1])
    ensures c as int == (Utf8(c)[0] - 0xC0) * 64 + (Utf8(c)[1] - 0x80)
  {
    var cp := c as int;
    assert cp / 64 * 64 + cp % 64 == cp;
  }

  /** The UTF-8 bytes of a code point from 0x800 to 0xFFFF. */
  lemma Utf8Three(c: char)
    requires 0x800 <= c as int < 0x1_0000
    ensures |Utf8(c)| == 3 && 0xE0 <= Utf8(c)[0] < 0xF0
    ensures IsContinuation(Utf8(c)[1]) && IsContinuation(Utf8(c)[2])
    ensures c as int == ((Utf8(c)[0] - 0xE0) * 64 + (Utf8(c)[1] - 0x80)) * 64 + (Utf8(c)[2] - 0x80)
  {
    var cp := c as int;
    var q1 := cp / 64;
    assert q1 * 64 + cp % 64 == cp;
    assert q1 / 64 * 64 + q1 % 64 == q1;
  }

  /** The UTF-8 bytes of a code point from 0x10000 on. */
  lemma Utf8Four(c: char)
    requires 0x1_0000 <= c as int
    ensures |Utf8(c)| == 4 && 0xF0 <= Utf8(c)[0] < 0xF8
    ensures IsContinuation(Utf8(c)[1]) && IsContinuation(Utf8(c)[2]) && IsContinuation(Utf8(c)[3])
    ensures c as int ==
      (((Utf8(c)[0] - 0xF0) * 64 + (Utf8(c)[1] - 0x80)) * 64 + (Utf8(c)[2] - 0x80)) * 64 + (Utf8(c)[3] - 0x80)
  {
    var cp := c as int;
    var q1 := cp / 64;
    var q2 := q1 / 64;
    assert q1 * 64 + cp % 64 == cp;
    assert q2 * 64 + q1 % 64 == q1;
    assert q2 / 64 * 64 + q2 % 64 == q2;
  }

  /** decodeURIComponent reads back exactly the first encoded character. */
  lemma DecodeFirstEncodeChar(c: char, rest: string)
    ensures |EncodeChar(c)| > 0
    ensures DecodeFirst(EncodeChar(c) + rest) == Some((c, |EncodeChar(c)|))
  {
    var cp := c as int;
    if Unescaped(c) {
      UnescapedNotPercent(c);
    } else if cp < 0x80 {
      ByteAtPercentBytes(Utf8(c), rest, 0);
    } else {
      var bs := Utf8(c);
      var s := PercentBytes(bs) + rest;
      forall k | 0 <= k < |bs|
        ensures ByteAt(s, 3 * k) == Some(bs[k])
      {
        ByteAtPercentBytes(bs, rest, k);
      }
      if cp < 0x800 {
        Utf8Two(c);
        DecodeTwo(s, bs[0], bs[1], cp);
      } else if cp < 0x1_0000 {
        Utf8Three(c);
        DecodeThree(s, bs[0], bs[1], bs[2], cp);
      } else {
        Utf8Four(c);
        DecodeFour(s, bs[0], bs[1], bs[2], bs[3], cp);
      }
    }
  }

  /** decodeURIComponent undoes encodeURIComponent on every string. */
  lemma {:induction false} DecodeEncode(s: string)
    ensures Decode(Encode(s)) == Some(s)
  {
    if s != [] {
      var head := EncodeChar(s[0]);
      var rest := Encode(s[1..]);
      DecodeFirstEncodeChar(s[0], rest);
      assert (head + rest)[|head|..] == rest;
      DecodeEncode(s[1..]);
      assert [s[0]] + s[1..] == s;
    }
  }

  /** Different strings encode differently. */
  lemma EncodeInjective(s: string, t: string)
    requires Encode(s) == Encode(t)
    ensures s == t
  {
    DecodeEncode(s);
    DecodeEncode(t);
  }
}
