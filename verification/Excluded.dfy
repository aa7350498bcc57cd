/** Removal of volatile keys from a payload before it is sealed. */
module Excluded {
  import opened JsonNumber
  import opened Json

  const EXCLUDED_KEYS: seq<string> := [
    "kg_status",
    "kg_latency_ms",
    "surface_status",
    "truncated",
    "charsSeen",
    "lowConfidenceTier"
  ]

  predicate IsExcluded(key: string) {
    key in EXCLUDED_KEYS
  }

  function StripExcluded(v: Json): Json {
    match v
    case Arr(items) => Arr(StripItems(items))
    case Obj(ms) => Obj(StripMembers(ms))
    case _ => v
  }

  function StripItems(items: seq<Json>): (ss: seq<Json>)
    ensures |ss| == |items|
    ensures forall i | 0 <= i < |items| :: ss[i] == StripExcluded(items[i])
  {
    if items == [] then [] else [StripExcluded(items[0])] + StripItems(items[1..])
  }

  function StripMembers(ms: seq<Member>): seq<Member> {
    if ms == [] then
      []
    else
      (if IsExcluded(ms[0].key) then [] else [Member(ms[0].key, StripExcluded(ms[0].value))]) + StripMembers(ms[1..])
  }

  lemma {:induction false} StripMembersAppend(ms: seq<Member>, ns: seq<Member>)
    ensures StripMembers(ms + ns) == StripMembers(ms) + StripMembers(ns)
  {
    if ms == [] {
      assert ms + ns == ns;
    } else {
      assert (ms + ns)[1..] == ms[1..] + ns;
      StripMembersAppend(ms[1..], ns);
    }
  }

  /** The member loop: excluded keys are skipped, the others are copied with
      their values stripped. */
  method Strip(v: Json) returns (r: Json)
    ensures r == StripExcluded(v)
    decreases v
  {
    match v
    case Obj(ms) =>
      var out: seq<Member> := [];
      for i := 0 to |ms|
        invariant out == StripMembers(ms[..i])
      {
        assert ms[..i + 1] == ms[..i] + [ms[i]];
        StripMembersAppend(ms[..i], [ms[i]]);
        if IsExcluded(ms[i].key) {
          continue;
        }
        var stripped := Strip(ms[i].value);
        out := out + [Member(ms[i].key, stripped)];
      }
      assert ms[..|ms|] == ms;
      r := Obj(out);
    case Arr(items) =>
      var out: seq<Json> := [];
      for i := 0 to |items|
        invariant |out| == i && forall j | 0 <= j < i :: out[j] == StripExcluded(items[j])
      {
        var stripped := Strip(items[i]);
        out := out + [stripped];
      }
      assert out == StripItems(items);
      r := Arr(out);
    case _ =>
      r := v;
  }

  // ---------- What stripping forgets ----------

  /** Equal up to member order, excluded members at any depth and the way a
      number is written: numbers are compared as doubles, with one zero. */
  ghost predicate SameUpToNoise(a: Json, b: Json)
    decreases a
  {
    match (a, b)
    case (Num(x), Num(y)) => AsDouble(x) == AsDouble(y)
    case (Arr(xs), Arr(ys)) =>
      |xs| == |ys| && forall i | 0 <= i < |xs| :: SameUpToNoise(xs[i], ys[i])
    case (Obj(ms), Obj(ns)) =>
      && (forall i | 0 <= i < |ms| && !IsExcluded(ms[i].key) :: ms[i].key in Keys(ns))
      && (forall j | 0 <= j < |ns| && !IsExcluded(ns[j].key) :: ns[j].key in Keys(ms))
      && (forall i, j | 0 <= i < |ms| && 0 <= j < |ns| && ms[i].key == ns[j].key && !IsExcluded(ms[i].key) ::
            SameUpToNoise(ms[i].value, ns[j].value))
    case _ => a == b
  }

  /** Numbers are the same exactly when they are one double, however written. */
  lemma SameNumbers(x: Number, y: Number)
    requires Valid(x) && Valid(y)
    ensures SameUpToNoise(Num(x), Num(y)) <==> Units(x) == Units(y)
  {
    hide AsDouble, Valid, Units;
    SameDouble(x, y);
  }

  ghost function Data(v: Json): Value {
    Denote(StripExcluded(v))
  }

  lemma {:induction false} StrippedKeys(ms: seq<Member>)
    ensures Keys(StripMembers(ms)) == set k | k in Keys(ms) && !IsExcluded(k)
  {
    hide IsExcluded;
    if ms != [] {
      StrippedKeys(ms[1..]);
      assert ms == [ms[0]] + ms[1..];
      assert Keys(ms) == {ms[0].key} + Keys(ms[1..]);
      var head := if IsExcluded(ms[0].key) then [] else [Member(ms[0].key, StripExcluded(ms[0].value))];
      assert Keys(StripMembers(ms)) == Keys(head) + Keys(StripMembers(ms[1..]));
    }
  }

  lemma {:induction false} StripKeepsWF(v: Json)
    requires WF(v)
    ensures WF(StripExcluded(v))
    decreases v, 1
  {
    match v
    case Arr(items) =>
      forall i | 0 <= i < |items| ensures WF(StripItems(items)[i]) { StripKeepsWF(items[i]); }
    case Obj(ms) => StripMembersKeepsWF(ms);
    case _ =>
  }

  lemma {:induction false} StripMembersKeepsWF(ms: seq<Member>)
    requires UniqueKeys(ms) && forall i | 0 <= i < |ms| :: WF(ms[i].value)
    ensures UniqueKeys(StripMembers(ms))
    ensures forall m | m in StripMembers(ms) :: WF(m.value)
    decreases ms, 0
  {
    hide IsExcluded;
    if ms != [] {
      var tail := StripMembers(ms[1..]);
      UniqueTail(ms);
      StripMembersKeepsWF(ms[1..]);
      if IsExcluded(ms[0].key) {
        assert StripMembers(ms) == tail;
      } else {
        var head := Member(ms[0].key, StripExcluded(ms[0].value));
        StripKeepsWF(ms[0].value);
        StrippedKeys(ms[1..]);
        UniqueCons(head, tail);
      }
    }
  }

  lemma UniqueCons(m: Member, ms: seq<Member>)
    requires UniqueKeys(ms) && m.key !in Keys(ms)
    ensures UniqueKeys([m] + ms)
  {
    assert forall i | 0 <= i < |ms| :: ms[i] in ms && ms[i].key in Keys(ms);
  }

  /** The value under a kept key, in the data of a stripped object. */
  lemma {:induction false} StrippedMember(ms: seq<Member>, i: nat)
    requires UniqueKeys(ms) && i < |ms| && !IsExcluded(ms[i].key)
    ensures ms[i].key in DenoteMembers(StripMembers(ms))
    ensures DenoteMembers(StripMembers(ms))[ms[i].key] == Data(ms[i].value)
  {
    hide IsExcluded;
    var tail := StripMembers(ms[1..]);
    if IsExcluded(ms[0].key) {
      assert [] + tail == tail;
    } else {
      assert ([Member(ms[0].key, StripExcluded(ms[0].value))] + tail)[1..] == tail;
    }
    if i > 0 {
      UniqueTail(ms);
      StrippedMember(ms[1..], i - 1);
      assert ms[1..][i - 1] == ms[i];
    }
  }

  lemma {:induction false} DataIffSame(a: Json, b: Json)
    requires WF(a) && WF(b)
    ensures Data(a) == Data(b) <==> SameUpToNoise(a, b)
    decreases a
  {
    hide IsExcluded;
    match (a, b)
    case (Arr(xs), Arr(ys)) =>
      DataOfArrays(xs, ys);
      forall i | 0 <= i < |xs| && i < |ys| ensures Data(xs[i]) == Data(ys[i]) <==> SameUpToNoise(xs[i], ys[i]) {
        DataIffSame(xs[i], ys[i]);
      }
    case (Obj(ms), Obj(ns)) =>
      DataOfObjects(ms, ns);
      forall i, j | 0 <= i < |ms| && 0 <= j < |ns|
        ensures Data(ms[i].value) == Data(ns[j].value) <==> SameUpToNoise(ms[i].value, ns[j].value)
      {
        DataIffSame(ms[i].value, ns[j].value);
      }
    case _ =>
  }

  lemma DataOfArrays(xs: seq<Json>, ys: seq<Json>)
    ensures Data(Arr(xs)) == Data(Arr(ys)) <==>
      |xs| == |ys| && forall i | 0 <= i < |xs| :: Data(xs[i]) == Data(ys[i])
  {
    hide IsExcluded;
    var dx, dy := DenoteItems(StripItems(xs)), DenoteItems(StripItems(ys));
    assert forall i | 0 <= i < |xs| :: dx[i] == Data(xs[i]);
    assert forall i | 0 <= i < |ys| :: dy[i] == Data(ys[i]);
    assert dx == dy <==> |dx| == |dy| && forall i | 0 <= i < |dx| :: dx[i] == dy[i];
  }

  lemma StrippedData(ms: seq<Member>)
    requires UniqueKeys(ms)
    ensures DenoteMembers(StripMembers(ms)).Keys == set k | k in Keys(ms) && !IsExcluded(k)
    ensures forall i | 0 <= i < |ms| && !IsExcluded(ms[i].key) ::
      ms[i].key in DenoteMembers(StripMembers(ms)) &&
      DenoteMembers(StripMembers(ms))[ms[i].key] == Data(ms[i].value)
  {
    hide IsExcluded;
    DenotesKeys(StripMembers(ms));
    StrippedKeys(ms);
    forall i | 0 <= i < |ms| && !IsExcluded(ms[i].key)
      ensures ms[i].key in DenoteMembers(StripMembers(ms))
      ensures DenoteMembers(StripMembers(ms))[ms[i].key] == Data(ms[i].value)
    {
      StrippedMember(ms, i);
    }
  }

  /** The kept members of two objects hold the same data under the same keys. */
  ghost predicate SameKept(ms: seq<Member>, ns: seq<Member>) {
    && (forall i | 0 <= i < |ms| && !IsExcluded(ms[i].key) :: ms[i].key in Keys(ns))
    && (forall j | 0 <= j < |ns| && !IsExcluded(ns[j].key) :: ns[j].key in Keys(ms))
    && (forall i, j | 0 <= i < |ms| && 0 <= j < |ns| && ms[i].key == ns[j].key && !IsExcluded(ms[i].key) ::
          Data(ms[i].value) == Data(ns[j].value))
  }

  lemma SameKeptData(ms: seq<Member>, ns: seq<Member>)
    requires UniqueKeys(ms) && UniqueKeys(ns) && SameKept(ms, ns)
    ensures DenoteMembers(StripMembers(ms)) == DenoteMembers(StripMembers(ns))
  {
    hide IsExcluded;
    var dm, dn := DenoteMembers(StripMembers(ms)), DenoteMembers(StripMembers(ns));
    StrippedData(ms);
    StrippedData(ns);
    assert dm.Keys == dn.Keys;
    forall k | k in dm ensures dm[k] == dn[k] {
      var i :| 0 <= i < |ms| && ms[i].key == k;
      var j :| 0 <= j < |ns| && ns[j].key == k;
      assert Data(ms[i].value) == Data(ns[j].value);
    }
  }

  lemma DataOfObjects(ms: seq<Member>, ns: seq<Member>)
    requires UniqueKeys(ms) && UniqueKeys(ns)
    ensures DenoteMembers(StripMembers(ms)) == DenoteMembers(StripMembers(ns)) <==> SameKept(ms, ns)
  {
    var dm, dn := DenoteMembers(StripMembers(ms)), DenoteMembers(StripMembers(ns));
    if SameKept(ms, ns) {
      SameKeptData(ms, ns);
    }
    if dm == dn {
      StrippedData(ms);
      StrippedData(ns);
      assert forall i | 0 <= i < |ms| && !IsExcluded(ms[i].key) :: ms[i].key in dn.Keys;
      assert forall j | 0 <= j < |ns| && !IsExcluded(ns[j].key) :: ns[j].key in dm.Keys;
      assert SameKept(ms, ns);
    }
  }
}
