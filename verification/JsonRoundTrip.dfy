/** Reading undoes printing, and the reader builds only well-formed trees. */
module JsonRoundTrip {
  import opened Prelude
  import opened JsonNumber
  import opened JsonString
  import opened Json

  /** What may follow a number without lengthening it. */
  predicate Ends(rest: string) {
    rest == "" || !IsNumberChar(rest[0])
  }

  predicate IsSpace(c: char) {
    c == ' ' || c == '\t' || c == '\n' || c == '\r'
  }

  lemma {:induction false} NumberRunOf(t: string, rest: string)
    requires forall i | 0 <= i < |t| :: IsNumberChar(t[i])
    requires Ends(rest)
    ensures NumberRun(t + rest) == |t|
  {
    if t == "" {
      assert t + rest == rest;
    } else {
      assert (t + rest)[1..] == t[1..] + rest;
      NumberRunOf(t[1..], rest);
    }
  }

  lemma Regroup(a: string, b: string, c: string, d: string, rest: string)
    ensures a + b + rest == a + (b + rest)
    ensures a + b + c + d + rest == a + (b + (c + (d + rest)))
  {
  }

  lemma ReadNumberText(t: string, x: Number, rest: string)
    requires t != "" && forall i | 0 <= i < |t| :: IsNumberChar(t[i])
    requires Classify(t) == Some(x) && Ends(rest)
    ensures Read(t + rest) == Some((Num(x), rest))
  {
    hide Classify;
    NumberRunOf(t, rest);
    var s := t + rest;
    assert s[..|t|] == t && s[|t|..] == rest;
    assert IsNumberChar(s[0]);
    assert ReadNumber(s) == Some((Num(x), rest));
    assert SkipSpace(s) == s;
  }

  lemma ReadOfNumber(x: Number, rest: string)
    requires Valid(x) && Ends(rest)
    ensures Read(Text(x) + rest) == Some((Num(x), rest))
  {
    ClassifyOfText(x);
    ReadNumberText(Text(x), x, rest);
  }

  lemma ReadAfterMark(s: string)
    ensures Read("\"" + s) == ReadString(s)
    ensures Read("[" + s) == ReadArray(s)
    ensures Read("{" + s) == ReadObject(s)
  {
    assert ("\"" + s)[1..] == s && ("[" + s)[1..] == s && ("{" + s)[1..] == s;
  }

  lemma ReadOfString(t: string, rest: string)
    ensures Read(Quote(t) + rest) == Some((Str(t), rest))
  {
    var body := EscapeAll(t) + "\"" + rest;
    assert Quote(t) + rest == "\"" + body by {
      QuoteSplit(EscapeAll(t), rest);
    }
    ReadAfterMark(body);
    BodyOfEscapeAll(t, rest);
  }

  lemma QuoteSplit(e: string, rest: string)
    ensures "\"" + e + "\"" + rest == "\"" + (e + "\"" + rest)
  {
  }

  lemma ReadOfLiteral(v: Json, rest: string)
    requires v.Null? || v.Bool?
    ensures Read(Print(v) + rest) == Some((v, rest))
  {
    var s := Print(v) + rest;
    assert SkipSpace(s) == s;
    assert s[|Print(v)|..] == rest;
  }

  /** The first character of a printed value closes no container. */
  lemma PrintHead(v: Json)
    requires WF(v)
    ensures Print(v) != "" && !IsSpace(Print(v)[0]) && Print(v)[0] != ']' && Print(v)[0] != '}'
  {
    hide Valid, Text, Classify, PrintItems, PrintMembers, EscapeAll;
    if v.Num? {
      ClassifyOfText(v.num);
    }
  }

  /** Reading a printed tree gives back the tree and leaves exactly what follows it. */
  lemma {:induction false} ReadOfPrint(v: Json, rest: string)
    requires WF(v) && Ends(rest)
    ensures Read(Print(v) + rest) == Some((v, rest))
    decreases v, 1
  {
    match v
    case Null => ReadOfLiteral(v, rest);
    case Bool(_) => ReadOfLiteral(v, rest);
    case Num(x) => ReadOfNumber(x, rest);
    case Str(t) => ReadOfString(t, rest);
    case Arr(items) => ReadOfArray(items, rest);
    case Obj(ms) => ReadOfObject(ms, rest);
  }

  lemma ReadArrayStep(s: string, items: seq<Json>, rest: string)
    requires s != "" && !IsSpace(s[0]) && s[0] != ']'
    requires ReadItems(s) == Some((items, rest))
    ensures Read("[" + s) == Some((Arr(items), rest))
  {
    assert SkipSpace(s) == s;
    ReadAfterMark(s);
  }

  lemma ReadOfEmptyArray(rest: string)
    ensures Read("[]" + rest) == Some((Arr([]), rest))
  {
    var s := "]" + rest;
    assert SkipSpace(s) == s && s[1..] == rest;
    ReadAfterMark(s);
    assert "[]" + rest == "[" + s;
  }

  lemma {:induction false} ReadOfArray(items: seq<Json>, rest: string)
    requires forall i | 0 <= i < |items| :: WF(items[i])
    ensures Read(Print(Arr(items)) + rest) == Some((Arr(items), rest))
    decreases items, 1
  {
    hide WF, Read, ReadItems;
    if items == [] {
      ReadOfEmptyArray(rest);
    } else {
      var s := PrintItems(items) + rest;
      Regroup("[", PrintItems(items), "", "", rest);
      PrintHead(items[0]);
      assert s[0] == Print(items[0])[0];
      ReadItemsOfPrint(items, rest);
      ReadArrayStep(s, items, rest);
    }
  }

  lemma ReadItemsStep(text: string, v: Json, tail: string)
    requires Read(text) == Some((v, tail)) && tail != ""
    ensures tail[0] == ']' ==> ReadItems(text) == Some(([v], tail[1..]))
    ensures tail[0] == ',' && ReadItems(tail[1..]).Some? ==>
              ReadItems(text) == Some(([v] + ReadItems(tail[1..]).value.0, ReadItems(tail[1..]).value.1))
  {
    if tail[0] == ']' || tail[0] == ',' {
      assert SkipSpace(tail) == tail;
    }
  }

  lemma {:induction false} ReadItemsOfPrint(items: seq<Json>, rest: string)
    requires items != [] && forall i | 0 <= i < |items| :: WF(items[i])
    ensures ReadItems(PrintItems(items) + rest) == Some((items, rest))
    decreases items, 0
  {
    hide Read, ReadItems, Print, WF;
    var more := if |items| == 1 then "" else PrintItems(items[1..]);
    var tail := if |items| == 1 then "]" + rest else "," + (more + rest);
    var text := PrintItems(items) + rest;
    assert text == Print(items[0]) + tail;
    ReadOfPrint(items[0], tail);
    ReadItemsStep(text, items[0], tail);
    if |items| == 1 {
      assert tail[1..] == rest && [items[0]] == items;
    } else {
      assert tail[1..] == more + rest;
      ReadItemsOfPrint(items[1..], rest);
      assert [items[0]] + items[1..] == items;
    }
  }

  lemma ReadObjectStep(s: string, ms: seq<Member>, rest: string)
    requires s != "" && s[0] == '"'
    requires ReadMembers(s) == Some((ms, rest)) && UniqueKeys(ms)
    ensures Read("{" + s) == Some((Obj(ms), rest))
  {
    assert SkipSpace(s) == s;
    ReadAfterMark(s);
  }

  lemma ReadOfEmptyObject(rest: string)
    ensures Read("{}" + rest) == Some((Obj([]), rest))
  {
    var s := "}" + rest;
    assert SkipSpace(s) == s && s[1..] == rest;
    ReadAfterMark(s);
    assert "{}" + rest == "{" + s;
  }

  lemma {:induction false} ReadOfObject(ms: seq<Member>, rest: string)
    requires UniqueKeys(ms) && forall i | 0 <= i < |ms| :: WF(ms[i].value)
    ensures Read(Print(Obj(ms)) + rest) == Some((Obj(ms), rest))
    decreases ms, 1
  {
    hide WF, Read, ReadMembers;
    if ms == [] {
      ReadOfEmptyObject(rest);
    } else {
      Regroup("{", PrintMembers(ms), "", "", rest);
      ReadMembersOfPrint(ms, rest);
      ReadObjectStep(PrintMembers(ms) + rest, ms, rest);
    }
  }

  lemma ReadMemberStep(key: string, text: string, v: Json, rest: string)
    requires Read(text) == Some((v, rest))
    ensures ReadMember(Quote(key) + (":" + text)) == Some((Member(key, v), rest))
  {
    hide Read, Body, EscapeAll;
    var after := ":" + text;
    var s := Quote(key) + after;
    assert s[0] == '"';
    assert SkipSpace(s) == s;
    assert s[1..] == EscapeAll(key) + "\"" + after;
    BodyOfEscapeAll(key, after);
    assert SkipSpace(after) == after;
    assert after[1..] == text;
  }

  lemma ReadMembersStep(text: string, m: Member, tail: string)
    requires ReadMember(text) == Some((m, tail)) && tail != ""
    ensures tail[0] == '}' ==> ReadMembers(text) == Some(([m], tail[1..]))
    ensures tail[0] == ',' && ReadMembers(tail[1..]).Some? ==>
              ReadMembers(text) == Some(([m] + ReadMembers(tail[1..]).value.0, ReadMembers(tail[1..]).value.1))
  {
    if tail[0] == '}' || tail[0] == ',' {
      assert SkipSpace(tail) == tail;
    }
  }

  function AfterMember(ms: seq<Member>, rest: string): string
    requires ms != []
  {
    if |ms| == 1 then "}" + rest else "," + (PrintMembers(ms[1..]) + rest)
  }

  lemma PrintMembersSplit(ms: seq<Member>, rest: string)
    requires ms != []
    ensures PrintMembers(ms) + rest == Quote(ms[0].key) + (":" + (Print(ms[0].value) + AfterMember(ms, rest)))
  {
    var last := if |ms| == 1 then "}" else "," + PrintMembers(ms[1..]);
    Regroup(Quote(ms[0].key), ":", Print(ms[0].value), last, rest);
    if |ms| > 1 {
      Regroup(",", PrintMembers(ms[1..]), "", "", rest);
    }
  }

  lemma {:induction false} ReadMembersOfPrint(ms: seq<Member>, rest: string)
    requires ms != [] && forall i | 0 <= i < |ms| :: WF(ms[i].value)
    ensures ReadMembers(PrintMembers(ms) + rest) == Some((ms, rest))
    decreases ms, 0
  {
    hide Read, ReadMember, ReadMembers, Print, Quote, WF;
    var tail := AfterMember(ms, rest);
    PrintMembersSplit(ms, rest);
    ReadOfPrint(ms[0].value, tail);
    ReadMemberStep(ms[0].key, Print(ms[0].value) + tail, ms[0].value, tail);
    ReadMembersStep(PrintMembers(ms) + rest, Member(ms[0].key, ms[0].value), tail);
    if |ms| == 1 {
      assert tail[1..] == rest && [ms[0]] == ms;
    } else {
      assert tail[1..] == PrintMembers(ms[1..]) + rest;
      ReadMembersOfPrint(ms[1..], rest);
      assert [ms[0]] + ms[1..] == ms;
    }
  }

  lemma ParseOfPrint(v: Json)
    requires WF(v)
    ensures Parse(Print(v)) == Some(v)
  {
    ReadOfPrint(v, "");
    assert Print(v) + "" == Print(v);
  }

  lemma ReadNumberIsWF(s: string)
    ensures ReadNumber(s).Some? ==> WF(ReadNumber(s).value.0)
  {
    hide Classify, Valid;
    var t := s[..NumberRun(s)];
    if Classify(t).Some? {
      ClassifyRounds(t, Classify(t).value);
    }
  }

  lemma {:induction false} ReadIsWF(text: string)
    ensures Read(text).Some? ==> WF(Read(text).value.0)
    decreases |text|, 0
  {
    hide ReadNumber, Valid;
    var s := SkipSpace(text);
    ReadNumberIsWF(s);
    if s != "" && s[0] == '[' {
      ReadItemsAreWF(s[1..]);
    } else if s != "" && s[0] == '{' {
      ReadMembersAreWF(s[1..]);
    }
  }

  lemma {:induction false} ReadItemsAreWF(text: string)
    ensures ReadItems(text).Some? ==> forall v | v in ReadItems(text).value.0 :: WF(v)
    decreases |text|, 1
  {
    ReadIsWF(text);
    if Read(text).Some? {
      var s := SkipSpace(Read(text).value.1);
      if s != "" && s[0] == ',' {
        ReadItemsAreWF(s[1..]);
      }
    }
  }

  lemma {:induction false} ReadMembersAreWF(text: string)
    ensures ReadMembers(text).Some? ==> forall m | m in ReadMembers(text).value.0 :: WF(m.value)
    decreases |text|, 1
  {
    ReadMemberIsWF(text);
    if ReadMember(text).Some? {
      var s := SkipSpace(ReadMember(text).value.1);
      if s != "" && s[0] == ',' {
        ReadMembersAreWF(s[1..]);
      }
    }
  }

  lemma {:induction false} ReadMemberIsWF(text: string)
    ensures ReadMember(text).Some? ==> WF(ReadMember(text).value.0.value)
    decreases |text|, 0
  {
    var s := SkipSpace(text);
    if s != "" && s[0] == '"' && Body(s[1..]).Some? {
      var t := SkipSpace(Body(s[1..]).value.1);
      if t != "" && t[0] == ':' {
        ReadIsWF(t[1..]);
      }
    }
  }

  /** Whatever text the reader accepts, the tree has no repeated key, and every
      number in it is a safe integer or a finite double. */
  lemma ParseIsWF(text: string)
    ensures Parse(text).Some? ==> WF(Parse(text).value)
  {
    ReadIsWF(text);
  }
}
