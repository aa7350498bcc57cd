/** The JSON Canonicalization Scheme, section 3.2 of RFC 8785: members sorted
    by the UTF-16 code units of their keys, numbers as doubles in the shortest
    text that ECMAScript gives them, no white space, UTF-8. */
module Jcs {
  import opened Prelude
  import opened JsonNumber
  import opened Json
  import opened JsonBytes
  import JsonCompact
  import KeyOrder
  import Sorting
  import Utf8

  function Normalize(v: Json): Json {
    match v
    case Num(x) => Num(AsDouble(x))
    case Arr(items) => Arr(NormalizeItems(items))
    case Obj(ms) => Obj(NormalizeMembers(ms))
    case _ => v
  }

  function NormalizeItems(items: seq<Json>): (ns: seq<Json>)
    ensures |ns| == |items|
    ensures forall i | 0 <= i < |items| :: ns[i] == Normalize(items[i])
  {
    if items == [] then [] else [Normalize(items[0])] + NormalizeItems(items[1..])
  }

  function NormalizeMembers(ms: seq<Member>): seq<Member> {
    if ms == [] then []
    else Sorting.Insert(Member(ms[0].key, Normalize(ms[0].value)), NormalizeMembers(ms[1..]), MemberLess)
  }

  predicate MemberLess(a: Member, b: Member) {
    KeyOrder.Less(a.key, b.key)
  }

  function Canonicalize(v: Json): Bytes {
    ToBytes(Normalize(v))
  }

  // ---------- Sorted trees ----------

  predicate SortedKeys(ms: seq<Member>) {
    Sorting.Ascending(ms, MemberLess)
  }

  /** Keys strictly increasing at every depth and each number as its double. */
  ghost predicate Normal(v: Json) {
    match v
    case Num(x) => Valid(x) && AsDouble(x) == x
    case Arr(items) => forall i | 0 <= i < |items| :: Normal(items[i])
    case Obj(ms) => SortedKeys(ms) && forall i | 0 <= i < |ms| :: Normal(ms[i].value)
    case _ => true
  }

  lemma SortedKeysAreUnique(ms: seq<Member>)
    requires SortedKeys(ms)
    ensures UniqueKeys(ms)
  {
    forall i, j | 0 <= i < j < |ms| ensures ms[i].key != ms[j].key {
      KeyOrder.LessIsStrictTotal(ms[i].key, ms[j].key, ms[j].key);
    }
  }

  lemma {:induction false} NormalIsWF(v: Json)
    requires Normal(v)
    ensures WF(v)
  {
    match v
    case Arr(items) =>
      forall i | 0 <= i < |items| ensures WF(items[i]) { NormalIsWF(items[i]); }
    case Obj(ms) =>
      SortedKeysAreUnique(ms);
      forall i | 0 <= i < |ms| ensures WF(ms[i].value) { NormalIsWF(ms[i].value); }
    case _ =>
  }

  lemma MembersAreOrdered(m: Member, ms: seq<Member>)
    requires m.key !in Keys(ms)
    ensures Sorting.Transitive(MemberLess) && forall x | x in ms :: MemberLess(m, x) || MemberLess(x, m)
  {
    hide KeyOrder.Less;
    forall a: Member, b: Member, c: Member | MemberLess(a, b) && MemberLess(b, c) ensures MemberLess(a, c) {
      KeyOrder.LessIsStrictTotal(a.key, b.key, c.key);
    }
    forall x | x in ms ensures MemberLess(m, x) || MemberLess(x, m) {
      KeyOrder.LessIsStrictTotal(m.key, x.key, x.key);
    }
  }

  lemma InsertNormal(m: Member, ms: seq<Member>)
    requires Normal(Obj(ms)) && Normal(m.value) && m.key !in Keys(ms)
    ensures Normal(Obj(Sorting.Insert(m, ms, MemberLess)))
  {
    hide MemberLess;
    MembersAreOrdered(m, ms);
    Sorting.InsertAscends(m, ms, MemberLess);
    Sorting.InsertElements(m, ms, MemberLess);
    var ns := Sorting.Insert(m, ms, MemberLess);
    forall i | 0 <= i < |ns| ensures Normal(ns[i].value) {
      assert ns[i] in multiset(ns);
      assert ns[i] == m || ns[i] in ms;
    }
  }

  lemma {:induction false} InsertDenotes(m: Member, ms: seq<Member>)
    requires m.key !in Keys(ms)
    ensures DenoteMembers(Sorting.Insert(m, ms, MemberLess)) == DenoteMembers(ms)[m.key := Denote(m.value)]
  {
    hide MemberLess;
    if ms == [] || !MemberLess(ms[0], m) {
      assert ([m] + ms)[1..] == ms;
    } else {
      assert ms[0] in ms;
      InsertDenotes(m, ms[1..]);
      var rest := Sorting.Insert(m, ms[1..], MemberLess);
      assert ([ms[0]] + rest)[1..] == rest;
    }
  }

  /** Normalizing sorts and keeps the data. */
  lemma {:induction false} NormalizeKeepsMeaning(v: Json)
    requires WF(v)
    ensures Normal(Normalize(v))
    ensures Denote(Normalize(v)) == Denote(v)
    decreases v, 0
  {
    match v
    case Arr(items) =>
      forall i | 0 <= i < |items|
        ensures Normal(Normalize(items[i])) && Denote(Normalize(items[i])) == Denote(items[i])
      {
        NormalizeKeepsMeaning(items[i]);
      }
      assert DenoteItems(NormalizeItems(items)) == DenoteItems(items);
    case Obj(ms) => NormalizeMembersKeepsMeaning(ms);
    case _ =>
  }

  lemma {:induction false} NormalizeMembersKeepsMeaning(ms: seq<Member>)
    requires UniqueKeys(ms) && forall i | 0 <= i < |ms| :: WF(ms[i].value)
    ensures Normal(Obj(NormalizeMembers(ms)))
    ensures DenoteMembers(NormalizeMembers(ms)) == DenoteMembers(ms)
    decreases ms, 0
  {
    if ms != [] {
      var head, tail := Member(ms[0].key, Normalize(ms[0].value)), NormalizeMembers(ms[1..]);
      NormalizeKeepsMeaning(ms[0].value);
      UniqueTail(ms);
      NormalizeMembersKeepsMeaning(ms[1..]);
      assert Keys(tail) == Keys(ms[1..]) by {
        DenotesKeys(tail);
        DenotesKeys(ms[1..]);
      }
      InsertNormal(head, tail);
      InsertDenotes(head, tail);
    }
  }

  /** A sorted tree is determined by its data: the sorted order of the members
      of an object is unique. */
  lemma {:induction false} NormalIsUnique(a: Json, b: Json)
    requires Normal(a) && Normal(b) && Denote(a) == Denote(b)
    ensures a == b
    decreases a, 0
  {
    match a
    case Arr(items) =>
      assert |b.items| == |DenoteItems(b.items)| == |items|;
      forall i | 0 <= i < |items| ensures items[i] == b.items[i] {
        assert DenoteItems(items)[i] == DenoteItems(b.items)[i];
        NormalIsUnique(items[i], b.items[i]);
      }
    case Obj(ms) => NormalMembersAreUnique(ms, b.members);
    case _ =>
  }

  lemma LeastKeyFirst(ms: seq<Member>, ns: seq<Member>)
    requires SortedKeys(ms) && ns != []
    requires Keys(ns) <= Keys(ms)
    ensures ms != [] && (ms[0].key == ns[0].key || KeyOrder.Less(ms[0].key, ns[0].key))
  {
    assert ns[0] in ns && ns[0].key in Keys(ns);
  }

  lemma TailDenotes(ms: seq<Member>)
    requires UniqueKeys(ms) && ms != []
    ensures DenoteMembers(ms[1..]) == DenoteMembers(ms) - {ms[0].key}
    ensures DenoteMembers(ms)[ms[0].key] == Denote(ms[0].value)
  {
    UniqueTail(ms);
    DenotesKeys(ms[1..]);
    RemoveUpdated(DenoteMembers(ms[1..]), ms[0].key, Denote(ms[0].value));
  }

  lemma RemoveUpdated<K, V>(m: map<K, V>, k: K, v: V)
    requires k !in m
    ensures m[k := v] - {k} == m
  {
  }

  lemma {:induction false} NormalMembersAreUnique(ms: seq<Member>, ns: seq<Member>)
    requires Normal(Obj(ms)) && Normal(Obj(ns)) && DenoteMembers(ms) == DenoteMembers(ns)
    ensures ms == ns
    decreases ms, 0
  {
    hide KeyOrder.Less;
    assert Keys(ms) == Keys(ns) by {
      DenotesKeys(ms);
      DenotesKeys(ns);
    }
    if ms != [] {
      LeastKeyFirst(ns, ms);
      LeastKeyFirst(ms, ns);
      KeyOrder.LessIsStrictTotal(ms[0].key, ns[0].key, ms[0].key);
      SortedKeysAreUnique(ms);
      SortedKeysAreUnique(ns);
      TailDenotes(ms);
      TailDenotes(ns);
      NormalIsUnique(ms[0].value, ns[0].value);
      NormalMembersAreUnique(ms[1..], ns[1..]);
      assert ms == [ms[0]] + ms[1..] && ns == [ns[0]] + ns[1..];
    } else if ns != [] {
      LeastKeyFirst(ms, ns);
    }
  }

  // ---------- Main results ----------

  /** Reading canonical bytes gives the tree back with its members sorted, and
      uses up every byte. */
  lemma CanonicalRoundTrip(v: Json)
    requires WF(v)
    ensures FromBytes(Canonicalize(v)) == Some(Normalize(v))
  {
    NormalizeKeepsMeaning(v);
    NormalIsWF(Normalize(v));
    FromBytesOfToBytes(Normalize(v));
  }

  /** In every object, at any depth, each key comes before the next by its UTF-16
      code units. */
  ghost predicate KeysInOrder(v: Json) {
    match v
    case Arr(items) => forall i | 0 <= i < |items| :: KeysInOrder(items[i])
    case Obj(ms) =>
      (forall i, j | 0 <= i < j < |ms| :: KeyOrder.Precedes(KeyOrder.Units(ms[i].key), KeyOrder.Units(ms[j].key))) &&
      (forall i | 0 <= i < |ms| :: KeysInOrder(ms[i].value))
    case _ => true
  }

  lemma {:induction false} NormalIsInOrder(v: Json)
    requires Normal(v)
    ensures KeysInOrder(v)
  {
    hide KeyOrder.Precedes, KeyOrder.Less;
    match v
    case Arr(items) =>
      forall i | 0 <= i < |items| ensures KeysInOrder(items[i]) { NormalIsInOrder(items[i]); }
    case Obj(ms) =>
      forall i, j | 0 <= i < j < |ms| ensures KeyOrder.Precedes(KeyOrder.Units(ms[i].key), KeyOrder.Units(ms[j].key)) {
        KeyOrder.LessIs(ms[i].key, ms[j].key);
      }
      forall i | 0 <= i < |ms| ensures KeysInOrder(ms[i].value) { NormalIsInOrder(ms[i].value); }
    case _ =>
  }

  /** What canonical bytes are read as has every key in order. */
  lemma CanonicalIsInOrder(v: Json)
    requires WF(v)
    ensures FromBytes(Canonicalize(v)).Some? && KeysInOrder(FromBytes(Canonicalize(v)).value)
  {
    CanonicalRoundTrip(v);
    NormalizeKeepsMeaning(v);
    NormalIsInOrder(Normalize(v));
  }

  /** The canonical text has no white space but that inside strings. */
  lemma CanonicalIsCompact(v: Json)
    requires WF(v)
    ensures Utf8.Decode(Canonicalize(v)).Some? && JsonCompact.Spaces(Utf8.Decode(Canonicalize(v)).value, false) == 0
  {
    hide Normal, JsonCompact.Spaces;
    NormalizeKeepsMeaning(v);
    NormalIsWF(Normalize(v));
    Utf8.DecodeOfEncode(Print(Normalize(v)));
    JsonCompact.PrintIsCompact(Normalize(v));
  }

  /** Canonical bytes are equal exactly when the data are equal: member order,
      the sign of zero and the writing of a double are lost and nothing else. */
  lemma CanonicalIffSameData(a: Json, b: Json)
    requires WF(a) && WF(b)
    ensures Canonicalize(a) == Canonicalize(b) <==> Denote(a) == Denote(b)
  {
    NormalizeKeepsMeaning(a);
    NormalizeKeepsMeaning(b);
    if Canonicalize(a) == Canonicalize(b) {
      CanonicalRoundTrip(a);
      CanonicalRoundTrip(b);
    }
    if Denote(a) == Denote(b) {
      NormalIsUnique(Normalize(a), Normalize(b));
    }
  }

  /** Canonicalizing what canonical bytes say gives the same bytes. */
  lemma CanonicalIsIdempotent(v: Json)
    requires WF(v)
    ensures FromBytes(Canonicalize(v)).Some?
    ensures Canonicalize(FromBytes(Canonicalize(v)).value) == Canonicalize(v)
  {
    CanonicalRoundTrip(v);
    NormalizeKeepsMeaning(v);
    NormalIsWF(Normalize(v));
    CanonicalIffSameData(Normalize(v), v);
  }

  /** The canonical bytes are the only bytes with their text: the decoder accepts
      no second form of a character. */
  lemma CanonicalBytesAreUnique(v: Json, bs: Bytes)
    ensures Utf8.Decode(bs) == Some(Print(Normalize(v))) <==> bs == Canonicalize(v)
  {
    hide Print;
    BytesOfText(Normalize(v), bs);
  }
}
