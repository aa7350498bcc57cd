/** Hexadecimal text: written in lower case, read in either case, with the
    `0x` prefix of the wire format written always and read optionally. */
module Hex {
  import opened Prelude

  function Digit(n: nat): (c: char)
    requires n < 16
  {
    if n < 10 then ('0' as int + n) as char else ('a' as int + n - 10) as char
  }

  function DigitValue(c: char): (r: Option<nat>)
    ensures r.Some? ==> r.value < 16
  {
    if '0' <= c <= '9' then Some(c as int - '0' as int)
    else if 'a' <= c <= 'f' then Some(c as int - 'a' as int + 10)
    else if 'A' <= c <= 'F' then Some(c as int - 'A' as int + 10)
    else None
  }

  function Encode(bs: Bytes): (s: string)
    ensures |s| == 2 * |bs|
  {
    if bs == [] then "" else [Digit(bs[0] / 16), Digit(bs[0] % 16)] + Encode(bs[1..])
  }

  function Decode(s: string): (r: Option<Bytes>)
    ensures r.Some? ==> |s| == 2 * |r.value|
  {
    if s == "" then
      Some([])
    else if |s| == 1 then
      None
    else
      match (DigitValue(s[0]), DigitValue(s[1]), Decode(s[2..]))
      case (Some(hi), Some(lo), Some(bs)) =>
        var b: byte := 16 * hi + lo;
        Some([b] + bs)
      case _ => None
  }

  function Encode0x(bs: Bytes): string {
    "0x" + Encode(bs)
  }

  function Strip0x(s: string): string {
    if "0x" <= s then s[2..] else s
  }

  function Decode0x(s: string): Option<Bytes> {
    Decode(Strip0x(s))
  }

  function Lower(c: char): char {
    if 'A' <= c <= 'Z' then (c as int + 32) as char else c
  }

  function LowerAll(s: string): (r: string)
    ensures |r| == |s|
    ensures forall i | 0 <= i < |s| :: r[i] == Lower(s[i])
  {
    seq(|s|, i requires 0 <= i < |s| => Lower(s[i]))
  }

  lemma DigitValueExact(c: char, n: nat)
    requires n < 16
    ensures DigitValue(c) == Some(n) <==> Lower(c) == Digit(n)
  {
  }

  lemma EncodeStep(s: string, bs: Bytes)
    requires |s| >= 2 && bs != []
    ensures LowerAll(s) == Encode(bs) <==>
      Lower(s[0]) == Digit(bs[0] / 16) && Lower(s[1]) == Digit(bs[0] % 16) && LowerAll(s[2..]) == Encode(bs[1..])
  {
    var e := Encode(bs);
    assert e[0] == Digit(bs[0] / 16) && e[1] == Digit(bs[0] % 16) && e[2..] == Encode(bs[1..]);
    assert LowerAll(s)[2..] == LowerAll(s[2..]);
    assert LowerAll(s) == [Lower(s[0]), Lower(s[1])] + LowerAll(s)[2..];
    assert e == [e[0], e[1]] + e[2..];
  }

  lemma DecodeStep(s: string, bs: Bytes)
    requires |s| >= 2 && bs != []
    ensures Decode(s) == Some(bs) <==>
      DigitValue(s[0]) == Some(bs[0] / 16) && DigitValue(s[1]) == Some(bs[0] % 16) && Decode(s[2..]) == Some(bs[1..])
  {
    assert bs == [bs[0]] + bs[1..];
    if Decode(s).Some? {
      var b: byte := 16 * DigitValue(s[0]).value + DigitValue(s[1]).value;
      assert Decode(s).value[0] == b && Decode(s).value[1..] == Decode(s[2..]).value;
    }
  }

  /** A text decodes to `bs` exactly when it is the encoding of `bs` up to case. */
  lemma {:induction false} DecodeExact(s: string, bs: Bytes)
    ensures Decode(s) == Some(bs) <==> LowerAll(s) == Encode(bs)
  {
    if |s| >= 2 && bs != [] {
      EncodeStep(s, bs);
      DecodeStep(s, bs);
      DecodeExact(s[2..], bs[1..]);
      DigitValueExact(s[0], bs[0] / 16);
      DigitValueExact(s[1], bs[0] % 16);
    }
  }

  lemma {:induction false} EncodeIsLower(bs: Bytes)
    ensures LowerAll(Encode(bs)) == Encode(bs)
  {
    if bs != [] {
      EncodeIsLower(bs[1..]);
      assert LowerAll(Encode(bs)) == [Digit(bs[0] / 16), Digit(bs[0] % 16)] + LowerAll(Encode(bs[1..]));
    }
  }

  lemma DecodeOfEncode(bs: Bytes)
    ensures Decode(Encode(bs)) == Some(bs)
  {
    EncodeIsLower(bs);
    DecodeExact(Encode(bs), bs);
  }

  lemma Decode0xOfEncode0x(bs: Bytes)
    ensures Decode0x(Encode0x(bs)) == Some(bs)
  {
    assert Encode0x(bs)[2..] == Encode(bs);
    DecodeOfEncode(bs);
  }

  /** With or without the prefix, and nothing else. */
  lemma Decode0xExact(s: string, bs: Bytes)
    ensures Decode0x(s) == Some(bs) <==>
      LowerAll(s) == Encode(bs) || (|s| >= 2 && s[0] == '0' && s[1] == 'x' && LowerAll(s[2..]) == Encode(bs))
  {
    hide Decode;
    DecodeExact(Strip0x(s), bs);
    if "0x" <= s {
      assert s[0] == '0' && s[1] == 'x' && LowerAll(s)[1] == 'x';
      EncodeHasNoX(bs);
    }
  }

  lemma EncodeHasNoX(bs: Bytes)
    ensures bs != [] ==> Encode(bs)[1] != 'x'
  {
  }
}
