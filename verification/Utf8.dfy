/** UTF-8, as section 3.2.4 of RFC 8785 requires for canonical JSON. */
module Utf8 {
  import opened Prelude

  /** The last tail byte carries the low six bits. */
  function Tail(n: nat): byte {
    0x80 + n % 64
  }

  function EncodeChar(c: char): (bs: Bytes)
    ensures 1 <= |bs| <= 4
  {
    var n := c as int;
    if n < 0x80 then
      [n]
    else if n < 0x800 then
      [0xC0 + n / 64, Tail(n)]
    else if n < 0x10000 then
      [0xE0 + n / 64 / 64, Tail(n / 64), Tail(n)]
    else
      [0xF0 + n / 64 / 64 / 64, Tail(n / 64 / 64), Tail(n / 64), Tail(n)]
  }

  function Encode(s: string): Bytes {
    if s == "" then [] else EncodeChar(s[0]) + Encode(s[1..])
  }

  predicate IsTail(b: byte) {
    0x80 <= b < 0xC0
  }

  predicate IsScalar(n: int) {
    0 <= n < 0xD800 || 0xE000 <= n < 0x11_0000
  }

  /** The number written by the lead value `hi` and the tail bytes `tail`, six bits each. */
  function Join(hi: int, tail: Bytes): int {
    if tail == [] then hi else Join(hi, tail[..|tail| - 1]) * 64 + (tail[|tail| - 1] as int - 0x80)
  }

  /** The first character of `bs` and its length; overlong forms, surrogates and
      stray tail bytes are refused. */
  function DecodeChar(bs: Bytes): (r: Option<(char, nat)>)
    ensures r.Some? ==> 1 <= r.value.1 <= |bs|
  {
    if bs == [] then
      None
    else
      var b: int := bs[0];
      if b < 0x80 then
        Some((b as char, 1))
      else if 0xC2 <= b < 0xE0 then
        Multi(bs, 2, b - 0xC0, 0x80)
      else if 0xE0 <= b < 0xF0 then
        Multi(bs, 3, b - 0xE0, 0x800)
      else if 0xF0 <= b < 0xF8 then
        Multi(bs, 4, b - 0xF0, 0x1_0000)
      else
        None
  }

  /** A character of `k` bytes with lead value `hi`, which must be at least `least`. */
  function Multi(bs: Bytes, k: nat, hi: int, least: nat): (r: Option<(char, nat)>)
    requires 2 <= k <= 4
    ensures r.Some? ==> r.value.1 == k <= |bs|
  {
    if k <= |bs| && forall i | 1 <= i < k :: IsTail(bs[i]) then
      var n := Join(hi, bs[1..k]);
      if least <= n && IsScalar(n) then Some((n as char, k)) else None
    else
      None
  }

  function Decode(bs: Bytes): Option<string> {
    if bs == [] then
      Some("")
    else
      match DecodeChar(bs)
      case None => None
      case Some((c, k)) =>
        match Decode(bs[k..])
        case None => None
        case Some(s) => Some([c] + s)
  }

  lemma JoinTails(hi: int, tail: Bytes)
    requires 1 <= |tail| <= 3
    ensures |tail| == 1 ==> Join(hi, tail) == hi * 64 + (tail[0] as int - 0x80)
    ensures |tail| == 2 ==> Join(hi, tail) == (hi * 64 + (tail[0] as int - 0x80)) * 64 + (tail[1] as int - 0x80)
    ensures |tail| == 3 ==> Join(hi, tail) == Join(hi, tail[..2]) * 64 + (tail[2] as int - 0x80)
  {
    if |tail| > 1 {
      JoinTails(hi, tail[..|tail| - 1]);
    }
  }

  lemma JoinOfEncode(c: char)
    requires c as int >= 0x80
    ensures
      var (n, bs) := (c as int, EncodeChar(c));
      var hi := if |bs| == 2 then n / 64 else if |bs| == 3 then n / 64 / 64 else n / 64 / 64 / 64;
      |bs| > 1 && Join(hi, bs[1..]) == n
  {
    var n, bs := c as int, EncodeChar(c);
    var hi := if |bs| == 2 then n / 64 else if |bs| == 3 then n / 64 / 64 else n / 64 / 64 / 64;
    JoinTails(hi, bs[1..]);
    if |bs| == 4 {
      JoinTails(hi, bs[1..][..2]);
    }
  }

  lemma DecodeCharOfEncode(c: char, rest: Bytes)
    ensures DecodeChar(EncodeChar(c) + rest) == Some((c, |EncodeChar(c)|))
  {
    hide Join;
    var n := c as int;
    var bs := EncodeChar(c);
    if n >= 0x80 {
      JoinOfEncode(c);
      assert (bs + rest)[1..|bs|] == bs[1..];
      assert forall i | 1 <= i < |bs| :: (bs + rest)[i] == bs[i] && IsTail(bs[i]);
    }
  }

  /** Decoding undoes encoding, so encoding is injective. */
  lemma {:induction false} DecodeOfEncode(s: string)
    ensures Decode(Encode(s)) == Some(s)
  {
    if s != "" {
      DecodeOfEncode(s[1..]);
      DecodeCharOfEncode(s[0], Encode(s[1..]));
      assert Encode(s)[|EncodeChar(s[0])|..] == Encode(s[1..]);
      assert [s[0]] + s[1..] == s;
    }
  }

  lemma TailOf(q: nat, t: byte)
    requires IsTail(t)
    ensures (q * 64 + (t as int - 0x80)) / 64 == q && Tail(q * 64 + (t as int - 0x80)) == t
  {
  }

  lemma EncodeOfTwo(b: int, t: Bytes)
    requires 0xC2 <= b < 0xE0 && |t| == 1 && IsTail(t[0])
    ensures IsScalar(Join(b - 0xC0, t))
    ensures EncodeChar(Join(b - 0xC0, t) as char) == [b] + t
  {
    JoinTails(b - 0xC0, t);
    TailOf(b - 0xC0, t[0]);
  }

  lemma EncodeOfThree(b: int, t: Bytes)
    requires 0xE0 <= b < 0xF0 && |t| == 2 && IsTail(t[0]) && IsTail(t[1])
    requires 0x800 <= Join(b - 0xE0, t) && IsScalar(Join(b - 0xE0, t))
    ensures EncodeChar(Join(b - 0xE0, t) as char) == [b] + t
  {
    var hi := b - 0xE0;
    var q := hi * 64 + (t[0] as int - 0x80);
    JoinTails(hi, t);
    TailOf(hi, t[0]);
    TailOf(q, t[1]);
  }

  lemma EncodeOfFour(b: int, t: Bytes)
    requires 0xF0 <= b < 0xF8 && |t| == 3 && IsTail(t[0]) && IsTail(t[1]) && IsTail(t[2])
    requires 0x1_0000 <= Join(b - 0xF0, t) && IsScalar(Join(b - 0xF0, t))
    ensures EncodeChar(Join(b - 0xF0, t) as char) == [b] + t
  {
    var hi := b - 0xF0;
    var q := hi * 64 + (t[0] as int - 0x80);
    var p := q * 64 + (t[1] as int - 0x80);
    JoinTails(hi, t);
    JoinTails(hi, t[..2]);
    TailOf(hi, t[0]);
    TailOf(q, t[1]);
    TailOf(p, t[2]);
  }

  lemma EncodeOfDecodeChar(bs: Bytes)
    requires DecodeChar(bs).Some?
    ensures EncodeChar(DecodeChar(bs).value.0) == bs[..DecodeChar(bs).value.1]
  {
    hide Join;
    var k := DecodeChar(bs).value.1;
    if k > 1 {
      var b: int, t := bs[0], bs[1..k];
      assert forall i | 1 <= i < k :: IsTail(bs[i]) && t[i - 1] == bs[i];
      assert bs[..k] == [b] + t;
      if k == 2 {
        EncodeOfTwo(b, t);
      } else if k == 3 {
        EncodeOfThree(b, t);
      } else {
        EncodeOfFour(b, t);
      }
    }
  }

  /** Only the encoding of a text decodes to it: the decoder accepts no second form. */
  lemma {:induction false} EncodeOfDecode(bs: Bytes)
    requires Decode(bs).Some?
    ensures Encode(Decode(bs).value) == bs
  {
    hide EncodeChar, DecodeChar;
    if bs != [] {
      var (c, k) := DecodeChar(bs).value;
      var tail := Decode(bs[k..]).value;
      EncodeOfDecode(bs[k..]);
      EncodeOfDecodeChar(bs);
      assert ([c] + tail)[1..] == tail;
      assert Encode([c] + tail) == bs[..k] + bs[k..];
    }
  }
}
