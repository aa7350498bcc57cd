/** JSON trees, their text and a reader for it. Member order is part of a tree;
    `Denote` forgets it, and takes numbers as doubles. */
module Json {
  import opened Prelude
  import opened JsonNumber
  import opened JsonString

  datatype Json =
    | Null
    | Bool(b: bool)
    | Num(num: Number)
    | Str(s: string)
    | Arr(items: seq<Json>)
    | Obj(members: seq<Member>)

  datatype Member = Member(key: string, value: Json)

  /** No key twice, at any depth, and number texts that stand for themselves. */
  ghost predicate WF(v: Json) {
    match v
    case Num(x) => Valid(x)
    case Arr(items) => forall i | 0 <= i < |items| :: WF(items[i])
    case Obj(ms) => UniqueKeys(ms) && forall i | 0 <= i < |ms| :: WF(ms[i].value)
    case _ => true
  }

  predicate UniqueKeys(ms: seq<Member>) {
    forall i, j | 0 <= i < j < |ms| :: ms[i].key != ms[j].key
  }

  // ---------- Meaning ----------

  datatype Value =
    | VNull
    | VBool(b: bool)
    | VNum(num: Number)
    | VStr(s: string)
    | VArr(items: seq<Value>)
    | VObj(members: map<string, Value>)

  /** The data a tree stands for: objects as maps and numbers as doubles. */
  ghost function Denote(v: Json): Value {
    match v
    case Null => VNull
    case Bool(b) => VBool(b)
    case Num(x) => VNum(AsDouble(x))
    case Str(s) => VStr(s)
    case Arr(items) => VArr(DenoteItems(items))
    case Obj(ms) => VObj(DenoteMembers(ms))
  }

  ghost function DenoteItems(items: seq<Json>): (vs: seq<Value>)
    ensures |vs| == |items|
    ensures forall i | 0 <= i < |items| :: vs[i] == Denote(items[i])
  {
    if items == [] then [] else [Denote(items[0])] + DenoteItems(items[1..])
  }

  ghost function DenoteMembers(ms: seq<Member>): map<string, Value> {
    if ms == [] then map[] else DenoteMembers(ms[1..])[ms[0].key := Denote(ms[0].value)]
  }

  ghost function Keys(ms: seq<Member>): set<string> {
    set m | m in ms :: m.key
  }

  lemma {:induction false} DenotesKeys(ms: seq<Member>)
    ensures DenoteMembers(ms).Keys == Keys(ms)
  {
    if ms != [] {
      DenotesKeys(ms[1..]);
      assert ms == [ms[0]] + ms[1..];
      assert Keys(ms) == {ms[0].key} + Keys(ms[1..]);
    }
  }

  lemma UniqueTail(ms: seq<Member>)
    requires UniqueKeys(ms) && ms != []
    ensures UniqueKeys(ms[1..]) && ms[0].key !in Keys(ms[1..])
  {
  }

  lemma {:induction false} DenotesMember(ms: seq<Member>, i: nat)
    requires UniqueKeys(ms) && i < |ms|
    ensures ms[i].key in DenoteMembers(ms) && DenoteMembers(ms)[ms[i].key] == Denote(ms[i].value)
  {
    if i > 0 {
      UniqueTail(ms);
      DenotesMember(ms[1..], i - 1);
    }
  }

  // ---------- Text ----------

  function Print(v: Json): string {
    match v
    case Null => "null"
    case Bool(b) => if b then "true" else "false"
    case Num(x) => Text(x)
    case Str(s) => Quote(s)
    case Arr(items) => if items == [] then "[]" else "[" + PrintItems(items)
    case Obj(ms) => if ms == [] then "{}" else "{" + PrintMembers(ms)
  }

  function PrintItems(items: seq<Json>): string
    requires items != []
  {
    Print(items[0]) + (if |items| == 1 then "]" else "," + PrintItems(items[1..]))
  }

  function PrintMembers(ms: seq<Member>): string
    requires ms != []
  {
    Quote(ms[0].key) + ":" + Print(ms[0].value) + (if |ms| == 1 then "}" else "," + PrintMembers(ms[1..]))
  }

  // ---------- Reader ----------

  function SkipSpace(s: string): (r: string)
    ensures |r| <= |s|
  {
    if s != "" && (s[0] == ' ' || s[0] == '\t' || s[0] == '\n' || s[0] == '\r') then SkipSpace(s[1..]) else s
  }

  function NumberRun(s: string): (k: nat)
    ensures k <= |s|
  {
    if s == "" || !IsNumberChar(s[0]) then 0 else 1 + NumberRun(s[1..])
  }

  function ReadNumber(s: string): (r: Option<(Json, string)>)
    ensures r.Some? ==> |r.value.1| < |s|
  {
    var k := NumberRun(s);
    match Classify(s[..k])
    case None => None
    case Some(x) => if k == 0 then None else Some((Num(x), s[k..]))
  }

  function ReadLiteral(s: string, word: string, v: Json): (r: Option<(Json, string)>)
    ensures r.Some? ==> |r.value.1| + |word| == |s|
  {
    if word <= s then Some((v, s[|word|..])) else None
  }

  /** One value at the front of `text`, and what follows it. */
  function Read(text: string): (r: Option<(Json, string)>)
    ensures r.Some? ==> |r.value.1| < |text|
    decreases |text|, 0
  {
    var s := SkipSpace(text);
    if s == "" then
      None
    else
      match s[0]
      case 'n' => ReadLiteral(s, "null", Null)
      case 't' => ReadLiteral(s, "true", Bool(true))
      case 'f' => ReadLiteral(s, "false", Bool(false))
      case '"' => ReadString(s[1..])
      case '[' => ReadArray(s[1..])
      case '{' => ReadObject(s[1..])
      case _ => ReadNumber(s)
  }

  function ReadString(s: string): (r: Option<(Json, string)>)
    ensures r.Some? ==> |r.value.1| < |s|
  {
    match Body(s)
    case None => None
    case Some((t, rest)) => Some((Str(t), rest))
  }

  /** What follows an opening bracket. */
  function ReadArray(s: string): (r: Option<(Json, string)>)
    ensures r.Some? ==> |r.value.1| < |s|
    decreases |s|, 2
  {
    if "]" <= SkipSpace(s) then
      Some((Arr([]), SkipSpace(s)[1..]))
    else
      match ReadItems(s)
      case None => None
      case Some((items, rest)) => Some((Arr(items), rest))
  }

  /** What follows an opening brace; a repeated key is an error. */
  function ReadObject(s: string): (r: Option<(Json, string)>)
    ensures r.Some? ==> |r.value.1| < |s|
    decreases |s|, 2
  {
    if "}" <= SkipSpace(s) then
      Some((Obj([]), SkipSpace(s)[1..]))
    else
      match ReadMembers(s)
      case None => None
      case Some((ms, rest)) => if UniqueKeys(ms) then Some((Obj(ms), rest)) else None
  }

  /** Values separated by commas, up to the closing bracket. */
  function ReadItems(text: string): (r: Option<(seq<Json>, string)>)
    ensures r.Some? ==> |r.value.1| < |text|
    decreases |text|, 1
  {
    match Read(text)
    case None => None
    case Some((v, rest)) =>
      var s := SkipSpace(rest);
      if s == "" then
        None
      else if s[0] == ']' then
        Some(([v], s[1..]))
      else if s[0] == ',' then
        match ReadItems(s[1..])
        case None => None
        case Some((vs, after)) => Some(([v] + vs, after))
      else
        None
  }

  /** Members separated by commas, up to the closing brace. */
  function ReadMembers(text: string): (r: Option<(seq<Member>, string)>)
    ensures r.Some? ==> |r.value.1| < |text|
    decreases |text|, 1
  {
    match ReadMember(text)
    case None => None
    case Some((m, rest)) =>
      var s := SkipSpace(rest);
      if s == "" then
        None
      else if s[0] == '}' then
        Some(([m], s[1..]))
      else if s[0] == ',' then
        match ReadMembers(s[1..])
        case None => None
        case Some((ms, after)) => Some(([m] + ms, after))
      else
        None
  }

  function ReadMember(text: string): (r: Option<(Member, string)>)
    ensures r.Some? ==> |r.value.1| < |text|
    decreases |text|, 0
  {
    var s := SkipSpace(text);
    if s == "" || s[0] != '"' then
      None
    else
      match Body(s[1..])
      case None => None
      case Some((key, rest)) =>
        var t := SkipSpace(rest);
        if t == "" || t[0] != ':' then
          None
        else
          match Read(t[1..])
          case None => None
          case Some((v, after)) => Some((Member(key, v), after))
  }

  /** A whole text: one value and nothing but white space around it. */
  function Parse(text: string): Option<Json> {
    match Read(text)
    case None => None
    case Some((v, rest)) => if SkipSpace(rest) == "" then Some(v) else None
  }
}
