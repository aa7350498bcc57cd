/** Printed trees have no white space but that inside strings. */
module JsonCompact {
  import opened Prelude
  import opened JsonNumber
  import opened JsonString
  import opened Json
  import JsonRoundTrip

  /** The white space of a text outside its string literals. */
  function Spaces(s: string, quoted: bool): nat
    decreases |s|
  {
    if s == "" then 0
    else if !quoted then (if JsonRoundTrip.IsSpace(s[0]) then 1 else 0) + Spaces(s[1..], s[0] == '"')
    else if s[0] == '\\' && |s| > 1 then Spaces(s[2..], true)
    else Spaces(s[1..], s[0] != '"')
  }

  predicate IsPlain(t: string) {
    forall i | 0 <= i < |t| :: t[i] != '"' && !JsonRoundTrip.IsSpace(t[i])
  }

  lemma {:induction false} PlainHasNone(t: string, rest: string)
    requires IsPlain(t)
    ensures Spaces(t + rest, false) == Spaces(rest, false)
  {
    if t == "" {
      assert t + rest == rest;
    } else {
      assert (t + rest)[1..] == t[1..] + rest;
      PlainHasNone(t[1..], rest);
    }
  }

  lemma EscapeIsSkipped(c: char, rest: string)
    ensures Spaces(Escape(c) + rest, true) == Spaces(rest, true)
  {
    var (e, s) := (Escape(c), Escape(c) + rest);
    if |e| == 1 {
      assert s[1..] == rest;
    } else {
      assert s[2..] == e[2..] + rest;
      if |e| == 2 {
        assert s[2..] == rest;
      } else {
        var t := s[2..];
        assert t[1..][1..][1..][1..] == rest;
        assert t[0] == '0' && t[1..][0] == '0' && t[1..][1..][0] == e[4] && t[1..][1..][1..][0] == e[5];
        assert Spaces(t, true) == Spaces(t[1..], true) == Spaces(t[1..][1..], true) == Spaces(t[1..][1..][1..], true);
      }
    }
  }

  lemma {:induction false} BodyIsSkipped(t: string, rest: string)
    ensures Spaces(EscapeAll(t) + "\"" + rest, true) == Spaces(rest, false)
  {
    if t == "" {
      assert (EscapeAll(t) + "\"" + rest)[1..] == rest;
    } else {
      JsonString.Regroup(Escape(t[0]), EscapeAll(t[1..]), rest);
      EscapeIsSkipped(t[0], EscapeAll(t[1..]) + "\"" + rest);
      BodyIsSkipped(t[1..], rest);
    }
  }

  lemma StringHasNone(t: string, rest: string)
    ensures Spaces(Quote(t) + rest, false) == Spaces(rest, false)
  {
    hide EscapeAll;
    JsonRoundTrip.QuoteSplit(EscapeAll(t), rest);
    assert (Quote(t) + rest)[1..] == EscapeAll(t) + "\"" + rest;
    BodyIsSkipped(t, rest);
  }

  lemma {:induction false} PrintHasNone(v: Json, rest: string)
    requires WF(v)
    ensures Spaces(Print(v) + rest, false) == Spaces(rest, false)
    decreases v, 1
  {
    hide Spaces, Quote, Text, Valid;
    match v
    case Null => PlainHasNone("null", rest);
    case Bool(b) => PlainHasNone(Print(v), rest);
    case Num(x) =>
      ClassifyOfText(x);
      NumberIsPlain(Text(x));
      PlainHasNone(Text(x), rest);
    case Str(t) => StringHasNone(t, rest);
    case Arr(items) =>
      if items == [] {
        PlainHasNone("[]", rest);
      } else {
        JsonRoundTrip.Regroup("[", PrintItems(items), "", "", rest);
        PlainHasNone("[", PrintItems(items) + rest);
        ItemsHaveNone(items, rest);
      }
    case Obj(ms) =>
      if ms == [] {
        PlainHasNone("{}", rest);
      } else {
        JsonRoundTrip.Regroup("{", PrintMembers(ms), "", "", rest);
        PlainHasNone("{", PrintMembers(ms) + rest);
        MembersHaveNone(ms, rest);
      }
  }

  lemma NumberIsPlain(t: string)
    requires IsNumberText(t)
    ensures IsPlain(t)
  {
  }

  lemma {:induction false} ItemsHaveNone(items: seq<Json>, rest: string)
    requires items != [] && forall i | 0 <= i < |items| :: WF(items[i])
    ensures Spaces(PrintItems(items) + rest, false) == Spaces(rest, false)
    decreases items, 0
  {
    hide Spaces, Print, WF;
    var more := if |items| == 1 then "" else PrintItems(items[1..]);
    var last := if |items| == 1 then "]" else ",";
    assert PrintItems(items) + rest == Print(items[0]) + (last + (more + rest));
    PrintHasNone(items[0], last + (more + rest));
    PlainHasNone(last, more + rest);
    if |items| == 1 {
      assert more + rest == rest;
    } else {
      ItemsHaveNone(items[1..], rest);
    }
  }

  lemma {:induction false} MembersHaveNone(ms: seq<Member>, rest: string)
    requires ms != [] && forall i | 0 <= i < |ms| :: WF(ms[i].value)
    ensures Spaces(PrintMembers(ms) + rest, false) == Spaces(rest, false)
    decreases ms, 0
  {
    hide Spaces, Print, WF, Quote;
    var after := JsonRoundTrip.AfterMember(ms, rest);
    JsonRoundTrip.PrintMembersSplit(ms, rest);
    StringHasNone(ms[0].key, ":" + (Print(ms[0].value) + after));
    PlainHasNone(":", Print(ms[0].value) + after);
    PrintHasNone(ms[0].value, after);
    if |ms| == 1 {
      PlainHasNone("}", rest);
    } else {
      PlainHasNone(",", PrintMembers(ms[1..]) + rest);
      MembersHaveNone(ms[1..], rest);
    }
  }

  /** A printed tree has no white space outside its strings. */
  lemma PrintIsCompact(v: Json)
    requires WF(v)
    ensures Spaces(Print(v), false) == 0
  {
    hide Print, WF;
    PrintHasNone(v, "");
    assert Print(v) + "" == Print(v);
  }
}
