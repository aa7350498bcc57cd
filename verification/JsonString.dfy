/** JSON string literals: the minimal escaping of section 3.2.2.2 of RFC 8785,
    and a reader for every escape that section 7 of RFC 8259 allows. */
module JsonString {
  import opened Prelude
  import Hex

  function Escape(c: char): (s: string)
    ensures s != ""
  {
    match c
    case '"' => "\\\""
    case '\\' => "\\\\"
    case _ =>
      match c as int
      case 8 => "\\b"
      case 9 => "\\t"
      case 10 => "\\n"
      case 12 => "\\f"
      case 13 => "\\r"
      case n => if n < 0x20 then "\\u00" + [Hex.Digit(n / 16), Hex.Digit(n % 16)] else [c]
  }

  function EscapeAll(s: string): string {
    if s == "" then "" else Escape(s[0]) + EscapeAll(s[1..])
  }

  function Quote(s: string): string {
    "\"" + EscapeAll(s) + "\""
  }

  /** The code unit written by the first four hexadecimal digits of `s`. */
  function Hex4(s: string): (r: Option<nat>)
    ensures r.Some? ==> |s| >= 4 && r.value < 0x1_0000
  {
    if |s| < 4 then
      None
    else
      match (Hex.DigitValue(s[0]), Hex.DigitValue(s[1]), Hex.DigitValue(s[2]), Hex.DigitValue(s[3]))
      case (Some(a), Some(b), Some(c), Some(d)) => Some(4096 * a + 256 * b + 16 * c + d)
      case _ => None
  }

  /** The character written after `\u`; a surrogate counts only as half of a pair. */
  function UnicodeEscape(s: string): (r: Option<(char, string)>)
    ensures r.Some? ==> |r.value.1| < |s|
  {
    match Hex4(s)
    case None => None
    case Some(u) =>
      if u < 0xD800 || 0xE000 <= u then
        Some((u as char, s[4..]))
      else if u < 0xDC00 && "\\u" <= s[4..] && Hex4(s[6..]).Some? && 0xDC00 <= Hex4(s[6..]).value < 0xE000 then
        Some(((0x1_0000 + (u - 0xD800) * 0x400 + (Hex4(s[6..]).value - 0xDC00)) as char, s[10..]))
      else
        None
  }

  /** The character written after a backslash. */
  function EscapeSequence(s: string): (r: Option<(char, string)>)
    ensures r.Some? ==> |r.value.1| < |s|
  {
    if s == "" then
      None
    else
      match s[0]
      case '"' => Some(('"', s[1..]))
      case '\\' => Some(('\\', s[1..]))
      case '/' => Some(('/', s[1..]))
      case 'b' => Some((8 as char, s[1..]))
      case 't' => Some((9 as char, s[1..]))
      case 'n' => Some((10 as char, s[1..]))
      case 'f' => Some((12 as char, s[1..]))
      case 'r' => Some((13 as char, s[1..]))
      case 'u' => UnicodeEscape(s[1..])
      case _ => None
  }

  /** The text up to the closing quote, and what follows that quote. */
  function Body(s: string): (r: Option<(string, string)>)
    ensures r.Some? ==> |r.value.1| < |s|
    decreases |s|
  {
    if s == "" || s[0] as int < 0x20 then
      None
    else if s[0] == '"' then
      Some(("", s[1..]))
    else
      var head := if s[0] == '\\' then EscapeSequence(s[1..]) else Some((s[0], s[1..]));
      match head
      case None => None
      case Some((c, rest)) =>
        match Body(rest)
        case None => None
        case Some((text, after)) => Some(([c] + text, after))
  }

  lemma EscapeSequenceOfControl(c: char, rest: string)
    requires c as int < 0x20
    requires |Escape(c)| != 2
    ensures EscapeSequence(Escape(c)[1..] + rest) == Some((c, rest))
  {
    var n := c as int;
    var digits := ['0', '0', Hex.Digit(n / 16), Hex.Digit(n % 16)];
    assert Escape(c)[1..] == ['u'] + digits;
    assert (Escape(c)[1..] + rest)[1..] == digits + rest;
    Hex.DigitValueExact(digits[2], n / 16);
    Hex.DigitValueExact(digits[3], n % 16);
    assert Hex4(digits + rest) == Some(n);
    assert (digits + rest)[4..] == rest;
  }

  lemma EscapeSequenceOfShort(c: char, rest: string)
    requires |Escape(c)| == 2
    ensures EscapeSequence(Escape(c)[1..] + rest) == Some((c, rest))
  {
    assert (Escape(c)[1..] + rest)[1..] == rest;
  }

  lemma BodyOfEscape(c: char, rest: string)
    requires Body(rest).Some?
    ensures Body(Escape(c) + rest) == Some(([c] + Body(rest).value.0, Body(rest).value.1))
  {
    var s := Escape(c) + rest;
    if |Escape(c)| == 1 {
      assert s[1..] == rest;
    } else {
      assert s[0] == '\\' && s[1..] == Escape(c)[1..] + rest;
      if |Escape(c)| == 2 {
        EscapeSequenceOfShort(c, rest);
      } else {
        EscapeSequenceOfControl(c, rest);
      }
    }
  }

  lemma Regroup(a: string, b: string, rest: string)
    ensures a + b + "\"" + rest == a + (b + "\"" + rest)
  {
  }

  /** Reading undoes escaping for every text, whatever follows the closing quote. */
  lemma {:induction false} BodyOfEscapeAll(s: string, rest: string)
    ensures Body(EscapeAll(s) + "\"" + rest) == Some((s, rest))
  {
    if s == "" {
      assert (EscapeAll(s) + "\"" + rest)[1..] == rest;
    } else {
      Regroup(Escape(s[0]), EscapeAll(s[1..]), rest);
      BodyOfEscapeAll(s[1..], rest);
      BodyOfEscape(s[0], EscapeAll(s[1..]) + "\"" + rest);
      assert [s[0]] + s[1..] == s;
    }
  }

  // ---------- Escaping is minimal ----------

  lemma BodyOfOne(s: string, c: char)
    requires Body(s) == Some(([c], ""))
    ensures s != "" && s[0] != '"' && s[0] as int >= 0x20
    ensures s[0] != '\\' ==> s[0] == c && s[1..] == "\""
    ensures s[0] == '\\' ==> EscapeSequence(s[1..]) == Some((c, "\""))
  {
    hide EscapeSequence;
    var head := if s[0] == '\\' then EscapeSequence(s[1..]) else Some((s[0], s[1..]));
    var (d, rest) := head.value;
    var (text, after) := Body(rest).value;
    assert [d] + text == [c] && after == "";
    assert d == ([d] + text)[0] && |text| == 0;
    BodyOfNothing(rest);
  }

  lemma BodyOfNothing(s: string)
    requires Body(s) == Some(("", ""))
    ensures s == "\""
  {
    hide EscapeSequence;
    assert s == [s[0]] + s[1..];
  }

  /** How the body of a string that is the one character `c` begins. */
  lemma ReadsAs(e: string, c: char)
    requires Body(e + "\"") == Some(([c], ""))
    ensures e != "" && (e[0] != '\\' ==> e == [c] && c != '"' && c as int >= 0x20)
    ensures e[0] == '\\' ==> EscapeSequence(e[1..] + "\"") == Some((c, "\""))
  {
    hide Body, EscapeSequence;
    var s := e + "\"";
    BodyOfOne(s, c);
    assert e == "" ==> s == "\"";
    assert s[1..] == e[1..] + "\"" && s[0] == e[0];
    if e[0] != '\\' {
      assert |s[1..]| == 1 && e == [e[0]];
    }
  }

  lemma ShortEscape(e: string, c: char)
    requires e != "" && e[0] == '\\' && EscapeSequence(e[1..] + "\"") == Some((c, "\""))
    ensures |e| > 1 && (e[1] != 'u' ==> |e| == 2 && |Escape(c)| <= 2 && (|Escape(c)| == 2 ==> e == Escape(c)))
    ensures e[1] == 'u' ==> UnicodeEscape(e[2..] + "\"") == Some((c, "\""))
  {
    var s := e[1..] + "\"";
    assert |e| == 1 ==> s == "\"";
    if |e| > 1 {
      assert s[0] == e[1] && s[1..] == e[2..] + "\"";
      if e[1] != 'u' {
        assert e[2..] + "\"" == "\"";
        assert |e| == 2 && e == [e[0], e[1]];
      }
    }
  }

  lemma LongEscape(e: string, c: char)
    requires |e| > 1 && e[0] == '\\' && e[1] == 'u' && UnicodeEscape(e[2..] + "\"") == Some((c, "\""))
    ensures |e| >= 6
    ensures |e| == 6 && c as int < 0x20 && |Escape(c)| == 6 ==> Hex.LowerAll(e) == Escape(c)
  {
    hide Hex.DigitValue, Hex.LowerAll, Escape;
    var s := e[2..] + "\"";
    assert Hex4(s).Some? && |s| == |e| - 1 && s[|s| - 1] == '"';
    QuoteIsNoDigit();
    if |e| == 6 && c as int < 0x20 && |Escape(c)| == 6 {
      assert e[2] == s[0] && e[3] == s[1] && e[4] == s[2] && e[5] == s[3];
      assert s == [e[2], e[3], e[4], e[5], '"'] && Hex4(s) == Some(c as int);
      FourDigits(e, c);
    }
  }

  lemma QuoteIsNoDigit()
    ensures Hex.DigitValue('"') == None
  {
  }

  lemma FourDigits(e: string, c: char)
    requires |e| == 6 && e[0] == '\\' && e[1] == 'u' && c as int < 0x20 && |Escape(c)| == 6
    requires Hex4([e[2], e[3], e[4], e[5], '"']) == Some(c as int)
    ensures Hex.LowerAll(e) == Escape(c)
  {
    hide Hex.DigitValue;
    var n := c as int;
    Hex.DigitValueExact(e[2], 0);
    Hex.DigitValueExact(e[3], 0);
    Hex.DigitValueExact(e[4], n / 16);
    Hex.DigitValueExact(e[5], n % 16);
    assert Escape(c) == ['\\', 'u', '0', '0', Hex.Digit(n / 16), Hex.Digit(n % 16)];
    assert Hex.LowerAll(e) == [e[0], e[1], Hex.Lower(e[2]), Hex.Lower(e[3]), Hex.Lower(e[4]), Hex.Lower(e[5])];
  }

  lemma EscapeShape(c: char)
    ensures |Escape(c)| in {1, 2, 6} && (|Escape(c)| == 6 ==> c as int < 0x20)
    ensures |Escape(c)| == 1 <==> c as int >= 0x20 && c != '"' && c != '\\'
    ensures |Escape(c)| == 1 ==> Escape(c) == [c]
  {
  }

  /** No spelling of a character is shorter than its escape, and one of the same
      length differs at most in the case of hexadecimal digits, which are written
      in lower case. */
  lemma EscapeIsMinimal(c: char, e: string)
    requires Body(e + "\"") == Some(([c], ""))
    ensures |Escape(c)| <= |e|
    ensures |Escape(c)| == |e| ==> e == Escape(c) || (|e| == 6 && Hex.LowerAll(e) == Escape(c))
  {
    hide Body, UnicodeEscape, EscapeSequence, Escape, Hex.LowerAll;
    EscapeShape(c);
    ReadsAs(e, c);
    if e[0] == '\\' {
      ShortEscape(e, c);
      if e[1] == 'u' {
        LongEscape(e, c);
      }
    }
  }
}
