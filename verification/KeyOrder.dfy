/** The order of object members: section 3.2.3 of RFC 8785 compares property
    names as arrays of UTF-16 code units. */
module KeyOrder {
  import opened Prelude

  function CharUnits(c: char): (us: seq<int>)
    ensures 1 <= |us| <= 2
  {
    var n := c as int;
    if n < 0x1_0000 then [n] else [0xD800 + (n - 0x1_0000) / 0x400, 0xDC00 + (n - 0x1_0000) % 0x400]
  }

  function Units(s: string): seq<int> {
    if s == "" then [] else CharUnits(s[0]) + Units(s[1..])
  }

  /** Lexicographic comparison, a proper prefix coming first. */
  predicate LexLess(a: seq<int>, b: seq<int>) {
    if b == [] then false
    else if a == [] then true
    else a[0] < b[0] || (a[0] == b[0] && LexLess(a[1..], b[1..]))
  }

  predicate Less(a: string, b: string) {
    LexLess(Units(a), Units(b))
  }

  lemma {:induction false} LexTransitive(a: seq<int>, b: seq<int>, c: seq<int>)
    requires LexLess(a, b) && LexLess(b, c)
    ensures LexLess(a, c)
  {
    if a != [] && a[0] == b[0] == c[0] {
      LexTransitive(a[1..], b[1..], c[1..]);
    }
  }

  lemma {:induction false} LexIrreflexive(a: seq<int>)
    ensures !LexLess(a, a)
  {
    if a != [] {
      LexIrreflexive(a[1..]);
    }
  }

  lemma {:induction false} LexTotal(a: seq<int>, b: seq<int>)
    ensures LexLess(a, b) || a == b || LexLess(b, a)
  {
    if a != [] && b != [] && a[0] == b[0] {
      LexTotal(a[1..], b[1..]);
      assert a == [a[0]] + a[1..] && b == [b[0]] + b[1..];
    }
  }

  /** Two sequences agree up to some position, and there `a` ends or has the smaller element. */
  ghost predicate Precedes(a: seq<int>, b: seq<int>) {
    exists k | 0 <= k <= |a| && k <= |b| ::
      a[..k] == b[..k] && (k == |a| < |b| || (k < |a| && k < |b| && a[k] < b[k]))
  }

  lemma {:induction false} LexLessIs(a: seq<int>, b: seq<int>)
    ensures LexLess(a, b) <==> Precedes(a, b)
  {
    if a == [] {
      assert b != [] ==> a[..0] == b[..0];
    } else if b != [] {
      assert a[..0] == b[..0];
      LexLessIs(a[1..], b[1..]);
      if a[0] == b[0] && Precedes(a[1..], b[1..]) {
        var k :| 0 <= k <= |a[1..]| && k <= |b[1..]| && a[1..][..k] == b[1..][..k] &&
          (k == |a[1..]| < |b[1..]| || (k < |a[1..]| && k < |b[1..]| && a[1..][k] < b[1..][k]));
        assert a[..k + 1] == [a[0]] + a[1..][..k] && b[..k + 1] == [b[0]] + b[1..][..k];
      }
      if Precedes(a, b) {
        var k :| 0 <= k <= |a| && k <= |b| && a[..k] == b[..k] &&
          (k == |a| < |b| || (k < |a| && k < |b| && a[k] < b[k]));
        if k > 0 {
          assert a[0] == a[..k][0] == b[..k][0] == b[0];
          assert a[1..][..k - 1] == a[..k][1..] && b[1..][..k - 1] == b[..k][1..];
        }
      }
    }
  }

  // ---------- Code units ----------

  /** The text that UTF-16 code units encode: a high and a low surrogate make one
      character, and neither may stand alone. */
  function FromUnits(us: seq<int>): Option<string>
    decreases |us|
  {
    if us == [] then
      Some("")
    else if 0 <= us[0] < 0xD800 || 0xE000 <= us[0] < 0x1_0000 then
      Prepend(us[0] as char, FromUnits(us[1..]))
    else if |us| > 1 && 0xD800 <= us[0] < 0xDC00 <= us[1] < 0xE000 then
      Prepend((0x1_0000 + (us[0] - 0xD800) * 0x400 + (us[1] - 0xDC00)) as char, FromUnits(us[2..]))
    else
      None
  }

  function Prepend(c: char, s: Option<string>): Option<string> {
    if s.Some? then Some([c] + s.value) else None
  }

  /** The units are the UTF-16 form of the text. */
  lemma {:induction false} FromUnitsOfUnits(s: string)
    ensures FromUnits(Units(s)) == Some(s)
  {
    if s != "" {
      FromUnitsOfUnits(s[1..]);
      var (us, first) := (Units(s), CharUnits(s[0]));
      assert us[|first|..] == Units(s[1..]) && us[0] == first[0] && (|first| == 2 ==> us[1] == first[1]);
      assert s == [s[0]] + s[1..];
    }
  }

  lemma UnitsInjective(a: string, b: string)
    requires Units(a) == Units(b)
    ensures a == b
  {
    FromUnitsOfUnits(a);
    FromUnitsOfUnits(b);
  }

  /** The first difference of the code units decides, and a proper prefix comes first. */
  lemma LessIs(a: string, b: string)
    ensures Less(a, b) <==> Precedes(Units(a), Units(b))
  {
    LexLessIs(Units(a), Units(b));
  }

  /** Code-unit order is a strict total order on texts. */
  lemma LessIsStrictTotal(a: string, b: string, c: string)
    ensures !Less(a, a)
    ensures Less(a, b) && Less(b, c) ==> Less(a, c)
    ensures Less(a, b) || a == b || Less(b, a)
  {
    LexIrreflexive(Units(a));
    LexTotal(Units(a), Units(b));
    if Less(a, b) && Less(b, c) {
      LexTransitive(Units(a), Units(b), Units(c));
    }
    if Units(a) == Units(b) {
      UnitsInjective(a, b);
    }
  }
}
