/** The bytes every layer of a seal binds: canonical JSON of the method tag, the
    time and the stripped payload. */
module Preimage {
  import opened Prelude
  import opened JsonNumber
  import opened Json
  import opened Excluded
  import Jcs
  import JsonBytes
  import Utf8
  import opened JsonString
  import KeyOrder
  import Sorting

  const METHOD_V1 := "apohara-seal-v1"

  function Envelope(payload: Json, sealedAt: string): Json {
    Obj([Member("method", Str(METHOD_V1)), Member("sealedAt", Str(sealedAt)), Member("payload", payload)])
  }

  function BuildPreimage(payload: Json, sealedAt: string): Bytes {
    Jcs.Canonicalize(Envelope(StripExcluded(payload), sealedAt))
  }

  lemma EnvelopeData(payload: Json, sealedAt: string)
    requires WF(payload)
    ensures WF(Envelope(payload, sealedAt))
    ensures Denote(Envelope(payload, sealedAt)) ==
      VObj(map["method" := VStr(METHOD_V1), "sealedAt" := VStr(sealedAt), "payload" := Denote(payload)])
  {
    var ms := Envelope(payload, sealedAt).members;
    var last := [Member("payload", payload)];
    var lastTwo := [Member("sealedAt", Str(sealedAt))] + last;
    assert lastTwo[1..] == last && ms[1..] == lastTwo;
    assert DenoteMembers(last) == map["payload" := Denote(payload)];
    assert DenoteMembers(lastTwo) == map["payload" := Denote(payload), "sealedAt" := VStr(sealedAt)];
    assert DenoteMembers(ms) == DenoteMembers(lastTwo)["method" := VStr(METHOD_V1)];
    assert "method"[0] != "sealedAt"[0] && "method"[0] != "payload"[0] && "sealedAt"[0] != "payload"[0];
  }

  /** Tamper evidence: two preimages are the same bytes exactly when the times
      are equal and the payloads differ only in member order, in excluded
      members and in how a number is written. */
  lemma PreimageEqualIff(p: Json, t: string, q: Json, u: string)
    requires WF(p) && WF(q)
    ensures BuildPreimage(p, t) == BuildPreimage(q, u) <==> t == u && SameUpToNoise(p, q)
  {
    StripKeepsWF(p);
    StripKeepsWF(q);
    EnvelopeData(StripExcluded(p), t);
    EnvelopeData(StripExcluded(q), u);
    Jcs.CanonicalIffSameData(Envelope(StripExcluded(p), t), Envelope(StripExcluded(q), u));
    DataIffSame(p, q);
    var a, b := Denote(Envelope(StripExcluded(p), t)).members, Denote(Envelope(StripExcluded(q), u)).members;
    assert a == b ==> a["sealedAt"] == b["sealedAt"] && a["payload"] == b["payload"];
  }

  /** A preimage says what was sealed: reading it back gives the time and the
      data of the stripped payload. */
  lemma PreimageIsReadable(p: Json, t: string)
    requires WF(p)
    ensures JsonBytes.FromBytes(BuildPreimage(p, t)).Some?
    ensures Denote(JsonBytes.FromBytes(BuildPreimage(p, t)).value) ==
      VObj(map["method" := VStr(METHOD_V1), "sealedAt" := VStr(t), "payload" := Data(p)])
  {
    StripKeepsWF(p);
    EnvelopeData(StripExcluded(p), t);
    Jcs.CanonicalRoundTrip(Envelope(StripExcluded(p), t));
    Jcs.NormalizeKeepsMeaning(Envelope(StripExcluded(p), t));
  }

  lemma FirstCharDecides(a: Member, b: Member)
    requires a.key != "" && b.key != "" && a.key[0] < b.key[0] <= 'z'
    ensures Jcs.MemberLess(a, b) && !Jcs.MemberLess(b, a)
  {
    assert KeyOrder.Units(a.key)[0] == a.key[0] as int && KeyOrder.Units(b.key)[0] == b.key[0] as int;
  }

  lemma InsertFirst(m: Member, ms: seq<Member>)
    requires ms == [] || !Jcs.MemberLess(ms[0], m)
    ensures Sorting.Insert(m, ms, Jcs.MemberLess) == [m] + ms
  {
  }

  lemma InsertSecond(m: Member, n: Member)
    requires Jcs.MemberLess(n, m)
    ensures Sorting.Insert(m, [n], Jcs.MemberLess) == [n, m]
  {
    assert [n][1..] == [];
  }

  /** The members of an envelope stand in the order method, payload, time. */
  lemma EnvelopeIsSorted(p: Json, t: string)
    ensures Jcs.Normalize(Envelope(p, t)) ==
      Obj([Member("method", Str(METHOD_V1)), Member("payload", Jcs.Normalize(p)), Member("sealedAt", Str(t))])
  {
    hide Jcs.MemberLess, Sorting.Insert;
    var ms := Envelope(p, t).members;
    var (a, b, c) := (ms[0], Member("payload", Jcs.Normalize(p)), ms[1]);
    assert ms[1..][1..] == [ms[2]] && [ms[2]][1..] == [] && ms[1..][0] == c;
    assert "method"[0] == 'm' && "payload"[0] == 'p' && "sealedAt"[0] == 's';
    FirstCharDecides(a, b);
    FirstCharDecides(b, c);
    assert Jcs.NormalizeMembers([ms[2]]) == [b] by {
      InsertFirst(b, []);
    }
    InsertSecond(c, b);
    assert Jcs.NormalizeMembers(ms[1..]) == [b, c];
    InsertFirst(a, [b, c]);
    assert Jcs.NormalizeMembers(ms) == [a, b, c];
  }

  lemma PrintThree(a: Member, b: Member, c: Member)
    ensures Print(Obj([a, b, c])) ==
      "{" + (Quote(a.key) + ":" + Print(a.value) + ("," + (Quote(b.key) + ":" + Print(b.value) +
      ("," + (Quote(c.key) + ":" + Print(c.value) + "}")))))
  {
    hide Quote;
    var ms := [a, b, c];
    assert ms[1..] == [b, c] && [b, c][1..] == [c];
    assert PrintMembers([c]) == Quote(c.key) + ":" + Print(c.value) + "}";
    assert PrintMembers([b, c]) == Quote(b.key) + ":" + Print(b.value) + ("," + PrintMembers([c]));
    assert PrintMembers(ms) == Quote(a.key) + ":" + Print(a.value) + ("," + PrintMembers([b, c]));
  }

  /** A preimage is the UTF-8 form of the method tag, the canonical stripped
      payload and the time, under their keys and in this order. */
  lemma PreimageText(p: Json, t: string)
    ensures BuildPreimage(p, t) == Utf8.Encode(
      "{" + (Quote("method") + ":" + Quote("apohara-seal-v1") + ("," +
      (Quote("payload") + ":" + Print(Jcs.Normalize(StripExcluded(p))) + ("," +
      (Quote("sealedAt") + ":" + Quote(t) + "}"))))))
  {
    hide Quote, Utf8.Encode, PrintMembers;
    EnvelopeIsSorted(StripExcluded(p), t);
    PrintThree(Member("method", Str(METHOD_V1)), Member("payload", Jcs.Normalize(StripExcluded(p))), Member("sealedAt", Str(t)));
  }

  // ---------- Noise at any depth ----------

  /** A tree with one hole. */
  datatype Context =
    | Hole
    | InArray(before: seq<Json>, at: Context, after: seq<Json>)
    | InObject(first: seq<Member>, key: string, inside: Context, last: seq<Member>)

  function Plug(c: Context, v: Json): Json {
    match c
    case Hole => v
    case InArray(before, at, after) => Arr(before + [Plug(at, v)] + after)
    case InObject(first, key, inside, last) => Obj(first + [Member(key, Plug(inside, v))] + last)
  }

  lemma {:induction false} SameIsReflexive(v: Json)
    requires WF(v)
    ensures SameUpToNoise(v, v)
  {
    DataIffSame(v, v);
  }

  lemma SameInArray(before: seq<Json>, x: Json, y: Json, after: seq<Json>)
    requires WF(Arr(before + [x] + after)) && SameUpToNoise(x, y)
    ensures SameUpToNoise(Arr(before + [x] + after), Arr(before + [y] + after))
  {
    hide IsExcluded;
    var xs, ys := before + [x] + after, before + [y] + after;
    forall i | 0 <= i < |xs| ensures SameUpToNoise(xs[i], ys[i]) {
      if i != |before| {
        assert xs[i] == ys[i];
        SameIsReflexive(xs[i]);
      }
    }
  }

  lemma SameByPosition(ms: seq<Member>, ns: seq<Member>)
    requires UniqueKeys(ms) && |ms| == |ns|
    requires forall i | 0 <= i < |ms| :: ms[i].key == ns[i].key
    requires forall i | 0 <= i < |ms| :: SameUpToNoise(ms[i].value, ns[i].value)
    ensures SameUpToNoise(Obj(ms), Obj(ns))
  {
    hide IsExcluded;
    assert forall i | 0 <= i < |ms| :: ms[i] in ms && ns[i] in ns;
    assert forall i, j | 0 <= i < |ms| && 0 <= j < |ns| && ms[i].key == ns[j].key :: i == j;
  }

  lemma SameInObject(first: seq<Member>, key: string, x: Json, y: Json, last: seq<Member>)
    requires WF(Obj(first + [Member(key, x)] + last)) && SameUpToNoise(x, y)
    ensures SameUpToNoise(Obj(first + [Member(key, x)] + last), Obj(first + [Member(key, y)] + last))
  {
    hide SameUpToNoise;
    var ms, ns := first + [Member(key, x)] + last, first + [Member(key, y)] + last;
    forall i | 0 <= i < |ms| ensures ms[i].key == ns[i].key && SameUpToNoise(ms[i].value, ns[i].value) {
      if i != |first| {
        assert ms[i] == ns[i];
        SameIsReflexive(ms[i].value);
      }
    }
    SameByPosition(ms, ns);
  }

  lemma {:induction false} SameInContext(c: Context, a: Json, b: Json)
    requires WF(Plug(c, a)) && SameUpToNoise(a, b)
    ensures SameUpToNoise(Plug(c, a), Plug(c, b))
  {
    hide SameUpToNoise;
    match c
    case Hole =>
    case InArray(before, at, after) =>
      assert Plug(c, a).items[|before|] == Plug(at, a);
      SameInContext(at, a, b);
      SameInArray(before, Plug(at, a), Plug(at, b), after);
    case InObject(first, key, inside, last) =>
      assert Plug(c, a).members[|first|].value == Plug(inside, a);
      SameInContext(inside, a, b);
      SameInObject(first, key, Plug(inside, a), Plug(inside, b), last);
  }

  lemma InsertedIsSame(ms: seq<Member>, i: nat, m: Member)
    requires i <= |ms| && IsExcluded(m.key)
    requires WF(Obj(ms)) && WF(Obj(ms[..i] + [m] + ms[i..]))
    ensures SameUpToNoise(Obj(ms[..i] + [m] + ms[i..]), Obj(ms))
  {
    hide IsExcluded;
    var ns := ms[..i] + [m] + ms[i..];
    StripMembersAppend(ms[..i] + [m], ms[i..]);
    StripMembersAppend(ms[..i], [m]);
    StripMembersAppend(ms[..i], ms[i..]);
    assert StripMembers([m]) == [];
    assert ms[..i] + ms[i..] == ms;
    assert StripMembers(ns) == StripMembers(ms);
    DataIffSame(Obj(ns), Obj(ms));
  }

  /** Inserting an excluded member into any object of a payload, at any depth
      and any position, leaves the preimage unchanged. */
  lemma PreimageIgnoresExcludedMember(c: Context, ms: seq<Member>, i: nat, m: Member, t: string)
    requires i <= |ms| && IsExcluded(m.key)
    requires WF(Plug(c, Obj(ms))) && WF(Plug(c, Obj(ms[..i] + [m] + ms[i..])))
    ensures BuildPreimage(Plug(c, Obj(ms[..i] + [m] + ms[i..])), t) == BuildPreimage(Plug(c, Obj(ms)), t)
  {
    var ns := ms[..i] + [m] + ms[i..];
    PluggedIsWF(c, Obj(ms));
    PluggedIsWF(c, Obj(ns));
    InsertedIsSame(ms, i, m);
    SameInContext(c, Obj(ns), Obj(ms));
    PreimageEqualIff(Plug(c, Obj(ns)), t, Plug(c, Obj(ms)), t);
  }

  lemma SameByKey(ms: seq<Member>, ns: seq<Member>)
    requires forall i | 0 <= i < |ms| :: ms[i].key in Keys(ns)
    requires forall j | 0 <= j < |ns| :: ns[j].key in Keys(ms)
    requires forall i, j | 0 <= i < |ms| && 0 <= j < |ns| && ms[i].key == ns[j].key ::
      SameUpToNoise(ms[i].value, ns[j].value)
    ensures SameUpToNoise(Obj(ms), Obj(ns))
  {
    hide IsExcluded, AsDouble, Keys;
  }

  lemma PermutedIsSame(ms: seq<Member>, ns: seq<Member>)
    requires multiset(ms) == multiset(ns)
    requires WF(Obj(ms)) && WF(Obj(ns))
    ensures SameUpToNoise(Obj(ms), Obj(ns))
  {
    hide SameUpToNoise, Valid;
    assert forall m :: m in ms <==> m in multiset(ms);
    assert forall m :: m in ns <==> m in multiset(ns);
    assert forall i | 0 <= i < |ms| :: ms[i] in ns;
    assert forall j | 0 <= j < |ns| :: ns[j] in ms;
    forall i, j | 0 <= i < |ms| && 0 <= j < |ns| && ms[i].key == ns[j].key
      ensures SameUpToNoise(ms[i].value, ns[j].value)
    {
      var k :| 0 <= k < |ns| && ns[k] == ms[i];
      assert k == j;
      SameIsReflexive(ms[i].value);
    }
    SameByKey(ms, ns);
  }

  /** Permuting the members of any object of a payload leaves the preimage unchanged. */
  lemma PreimageIgnoresMemberOrder(c: Context, ms: seq<Member>, ns: seq<Member>, t: string)
    requires multiset(ms) == multiset(ns)
    requires WF(Plug(c, Obj(ms))) && WF(Plug(c, Obj(ns)))
    ensures BuildPreimage(Plug(c, Obj(ms)), t) == BuildPreimage(Plug(c, Obj(ns)), t)
  {
    PluggedIsWF(c, Obj(ms));
    PluggedIsWF(c, Obj(ns));
    PermutedIsSame(ms, ns);
    SameInContext(c, Obj(ms), Obj(ns));
    PreimageEqualIff(Plug(c, Obj(ms)), t, Plug(c, Obj(ns)), t);
  }

  lemma {:induction false} PluggedIsWF(c: Context, v: Json)
    requires WF(Plug(c, v))
    ensures WF(v)
  {
    match c
    case Hole =>
    case InArray(before, at, after) =>
      assert Plug(c, v).items[|before|] == Plug(at, v);
      PluggedIsWF(at, v);
    case InObject(first, key, inside, last) =>
      assert Plug(c, v).members[|first|].value == Plug(inside, v);
      PluggedIsWF(inside, v);
  }

  /** A new member leaves the preimage unchanged exactly under one of six keys. */
  lemma NewMemberCounts(ms: seq<Member>, m: Member, t: string)
    requires WF(Obj(ms)) && WF(Obj(ms + [m]))
    ensures BuildPreimage(Obj(ms + [m]), t) == BuildPreimage(Obj(ms), t) <==>
      m.key in ["kg_status", "kg_latency_ms", "surface_status", "truncated", "charsSeen", "lowConfidenceTier"]
  {
    hide BuildPreimage, IsExcluded, Valid;
    ExcludedAre(m.key);
    var ns := ms + [m];
    PreimageEqualIff(Obj(ns), t, Obj(ms), t);
    if IsExcluded(m.key) {
      assert ms[..|ms|] + [m] + ms[|ms|..] == ns;
      InsertedIsSame(ms, |ms|, m);
    } else {
      assert ns[|ms|] == m && forall i | 0 <= i < |ms| :: ns[i] == ms[i];
      assert m.key !in Keys(ms);
    }
  }

  lemma ExcludedAre(key: string)
    ensures IsExcluded(key) <==>
      key in ["kg_status", "kg_latency_ms", "surface_status", "truncated", "charsSeen", "lowConfidenceTier"]
  {
  }

  /** Stripping twice is stripping once. */
  lemma {:induction false} StripIsIdempotent(v: Json)
    ensures StripExcluded(StripExcluded(v)) == StripExcluded(v)
    decreases v, 1
  {
    match v
    case Arr(items) =>
      forall i | 0 <= i < |items| ensures StripExcluded(StripItems(items)[i]) == StripItems(items)[i] {
        StripIsIdempotent(items[i]);
      }
      assert StripItems(StripItems(items)) == StripItems(items);
    case Obj(ms) => StripMembersIsIdempotent(ms);
    case _ =>
  }

  lemma {:induction false} StripMembersIsIdempotent(ms: seq<Member>)
    ensures StripMembers(StripMembers(ms)) == StripMembers(ms)
    decreases ms, 0
  {
    if ms != [] {
      StripIsIdempotent(ms[0].value);
      StripMembersIsIdempotent(ms[1..]);
      var tail := StripMembers(ms[1..]);
      if IsExcluded(ms[0].key) {
        assert StripMembers(ms) == tail;
      } else {
        var head := Member(ms[0].key, StripExcluded(ms[0].value));
        assert StripMembers(ms) == [head] + tail && ([head] + tail)[1..] == tail;
      }
    }
  }
}
