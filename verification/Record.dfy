/** Sealed records: a payload, its seal block, and their JSON form. */
module Record {
  import opened Prelude
  import opened JsonNumber
  import opened Json
  import opened JsonAccess
  import opened Crypto
  import Sorting

  datatype HmacLayer = HmacLayer(alg: string, keyId: string, sig: string)

  datatype Ed25519Layer = Ed25519Layer(keyId: string, sig: string)

  datatype SealBlock = SealBlock(
    methodTag: string, sealedAt: string, preimage: string, hmac: HmacLayer,
    ed25519: Option<Ed25519Layer>, ed25519PublicKey: Option<string>, tsa: Option<Json>,
    rekorAnchor: Option<Json>, c2paManifest: Option<string>, c2paEmbedded: Option<bool>)

  datatype SealedRecord = SealedRecord(payload: Json, seal: SealBlock)

  const SEAL_KEYS: seq<string> := [
    "method", "sealedAt", "preimage", "hmac", "ed25519", "ed25519PublicKey", "tsa", "rekorAnchor", "c2paManifest",
    "c2paEmbedded"
  ]

  // ---------- Objects with optional fields ----------

  /** The members of the present fields, in order. */
  function Build(keys: seq<string>, values: seq<Option<Json>>): seq<Member>
    requires |keys| == |values|
  {
    if keys == [] then
      []
    else
      (if values[0].Some? then [Member(keys[0], values[0].value)] else []) + Build(keys[1..], values[1..])
  }

  function Fields(v: Json, keys: seq<string>): (fs: seq<Option<Json>>)
    ensures |fs| == |keys|
    ensures forall i | 0 <= i < |keys| :: fs[i] == Field(v, keys[i])
  {
    if keys == [] then [] else [Field(v, keys[0])] + Fields(v, keys[1..])
  }

  lemma {:induction false} LookupOther(keys: seq<string>, values: seq<Option<Json>>, key: string)
    requires |keys| == |values| && key !in keys
    ensures Lookup(Build(keys, values), key) == None && key !in Keys(Build(keys, values))
  {
    if keys != [] {
      LookupOther(keys[1..], values[1..], key);
    }
  }

  lemma BuildCons(keys: seq<string>, values: seq<Option<Json>>)
    requires |keys| == |values| && keys != []
    ensures Build(keys, values) ==
      if values[0].Some? then [Member(keys[0], values[0].value)] + Build(keys[1..], values[1..])
      else Build(keys[1..], values[1..])
  {
  }

  lemma LookupCons(m: Member, ms: seq<Member>, key: string)
    ensures Lookup([m] + ms, key) == if m.key == key then Some(m.value) else Lookup(ms, key)
  {
    assert ([m] + ms)[1..] == ms;
  }

  lemma {:induction false} LookupBuild(keys: seq<string>, values: seq<Option<Json>>, i: nat)
    requires i < |keys| == |values| && Sorting.Distinct(keys)
    ensures Lookup(Build(keys, values), keys[i]) == values[i]
  {
    hide Lookup;
    var rest := Build(keys[1..], values[1..]);
    BuildCons(keys, values);
    if values[0].Some? {
      LookupCons(Member(keys[0], values[0].value), rest, keys[i]);
    }
    if i > 0 {
      LookupBuild(keys[1..], values[1..], i - 1);
      assert keys[0] != keys[i] && keys[1..][i - 1] == keys[i];
    } else {
      LookupOther(keys[1..], values[1..], keys[0]);
    }
  }

  lemma {:induction false} BuildIsWF(keys: seq<string>, values: seq<Option<Json>>)
    requires |keys| == |values| && Sorting.Distinct(keys)
    requires forall i | 0 <= i < |values| && values[i].Some? :: WF(values[i].value)
    ensures WF(Obj(Build(keys, values)))
  {
    if keys != [] {
      BuildIsWF(keys[1..], values[1..]);
      LookupOther(keys[1..], values[1..], keys[0]);
      var rest := Build(keys[1..], values[1..]);
      if values[0].Some? {
        assert forall j | 0 <= j < |rest| :: rest[j] in rest;
        assert Build(keys, values) == [Member(keys[0], values[0].value)] + rest;
      }
    }
  }

  /** Reading back the fields an object was built from. */
  lemma FieldsOfBuild(keys: seq<string>, values: seq<Option<Json>>)
    requires |keys| == |values| && Sorting.Distinct(keys)
    ensures Fields(Obj(Build(keys, values)), keys) == values
  {
    forall i | 0 <= i < |keys| ensures Field(Obj(Build(keys, values)), keys[i]) == values[i] {
      LookupBuild(keys, values, i);
    }
  }

  lemma SealKeysDiffer()
    ensures |SEAL_KEYS| == 10 && Sorting.Distinct(SEAL_KEYS)
  {
    var k := SEAL_KEYS;
    assert |k[0]| == 6 && |k[1]| == 8 && |k[2]| == 8 && |k[3]| == 4 && |k[4]| == 7;
    assert |k[5]| == 16 && |k[6]| == 3 && |k[7]| == 11 && |k[8]| == 12 && |k[9]| == 12;
    assert k[1][0] != k[2][0] && k[8][4] != k[9][4];
  }

  // ---------- Reading ----------

  function HmacFromJson(v: Json): Option<HmacLayer> {
    match v
    case Arr(items) =>
      (match AsStrings(items)
       case None => None
       case Some(s) => if |s| == 3 then Some(HmacLayer(s[0], s[1], s[2])) else None)
    case _ =>
      match (AsString(Field(v, "alg")), AsString(Field(v, "keyId")), AsString(Field(v, "sig")))
      case (Some(alg), Some(keyId), Some(sig)) => Some(HmacLayer(alg, keyId, sig))
      case _ => None
  }

  function Ed25519FromJson(v: Json): Option<Ed25519Layer> {
    match v
    case Arr(items) =>
      (match AsStrings(items)
       case None => None
       case Some(s) => if |s| == 2 then Some(Ed25519Layer(s[0], s[1])) else None)
    case _ =>
      match (AsString(Field(v, "keyId")), AsString(Field(v, "sig")))
      case (Some(keyId), Some(sig)) => Some(Ed25519Layer(keyId, sig))
      case _ => None
  }

  predicate Absent(v: Option<Json>) {
    v.None? || v.value.Null?
  }

  function OptEd25519(v: Option<Json>): Option<Option<Ed25519Layer>> {
    if Absent(v) then Some(None)
    else match Ed25519FromJson(v.value)
         case None => None
         case Some(e) => Some(Some(e))
  }

  function OptString(v: Option<Json>): Option<Option<string>> {
    if Absent(v) then Some(None) else if v.value.Str? then Some(Some(v.value.s)) else None
  }

  function OptBool(v: Option<Json>): Option<Option<bool>> {
    if Absent(v) then Some(None) else if v.value.Bool? then Some(Some(v.value.b)) else None
  }

  function OptJson(v: Option<Json>): Option<Json> {
    if Absent(v) then None else v
  }

  /** The seal block in the fields `f`, in the order of `SEAL_KEYS`; None if a
      required field is missing or any field is ill-typed. */
  function SealFromFields(f: seq<Option<Json>>): Option<SealBlock>
    requires |f| == 10
  {
    match (AsString(f[0]), AsString(f[1]), AsString(f[2]), f[3], OptEd25519(f[4]), OptString(f[5]), OptString(f[8]),
           OptBool(f[9]))
    case (Some(tag), Some(at), Some(preimage), Some(hmac), Some(ed), Some(pem), Some(manifest), Some(embedded)) =>
      (match HmacFromJson(hmac)
       case None => None
       case Some(h) => Some(SealBlock(tag, at, preimage, h, ed, pem, OptJson(f[6]), OptJson(f[7]), manifest, embedded)))
    case _ => None
  }

  function SealFromJson(v: Json): Option<SealBlock> {
    SealFromFields(Fields(v, SEAL_KEYS))
  }

  function RecordFromJson(v: Json): Option<SealedRecord> {
    match (Field(v, "payload"), Field(v, "seal"))
    case (Some(payload), Some(seal)) =>
      (match SealFromJson(seal)
       case None => None
       case Some(s) => Some(SealedRecord(payload, s)))
    case _ => None
  }

  // ---------- Writing ----------

  function HmacJson(h: HmacLayer): Json {
    Obj([Member("alg", Str(h.alg)), Member("keyId", Str(h.keyId)), Member("sig", Str(h.sig))])
  }

  function Ed25519Json(e: Ed25519Layer): Json {
    Obj([Member("keyId", Str(e.keyId)), Member("sig", Str(e.sig))])
  }

  function StrField(s: Option<string>): Option<Json> {
    if s.Some? then Some(Str(s.value)) else None
  }

  function SealValues(s: SealBlock): (f: seq<Option<Json>>)
    ensures |f| == 10
  {
    [
      Some(Str(s.methodTag)), Some(Str(s.sealedAt)), Some(Str(s.preimage)), Some(HmacJson(s.hmac)),
      if s.ed25519.Some? then Some(Ed25519Json(s.ed25519.value)) else None, StrField(s.ed25519PublicKey), s.tsa,
      s.rekorAnchor, StrField(s.c2paManifest), if s.c2paEmbedded.Some? then Some(Bool(s.c2paEmbedded.value)) else None
    ]
  }

  function SealJson(s: SealBlock): Json {
    Obj(Build(SEAL_KEYS, SealValues(s)))
  }

  function RecordJson(r: SealedRecord): Json {
    Obj([Member("payload", r.payload), Member("seal", SealJson(r.seal))])
  }

  // ---------- Round trip ----------

  /** A record whose free-form parts are JSON documents other than `null`. */
  ghost predicate Writable(r: SealedRecord) {
    && WF(r.payload)
    && (r.seal.tsa.Some? ==> WF(r.seal.tsa.value) && !r.seal.tsa.value.Null?)
    && (r.seal.rekorAnchor.Some? ==> WF(r.seal.rekorAnchor.value) && !r.seal.rekorAnchor.value.Null?)
  }

  lemma HmacRoundTrip(h: HmacLayer)
    ensures WF(HmacJson(h)) && HmacFromJson(HmacJson(h)) == Some(h)
  {
    var ms := HmacJson(h).members;
    assert |ms[0].key| == 3 && |ms[1].key| == 5 && |ms[2].key| == 3 && ms[0].key[0] != ms[2].key[0];
    FieldAt(ms, 0, "alg");
    FieldAt(ms, 1, "keyId");
    FieldAt(ms, 2, "sig");
  }

  lemma Ed25519RoundTrip(e: Ed25519Layer)
    ensures Ed25519Json(e).Obj? && WF(Ed25519Json(e)) && Ed25519FromJson(Ed25519Json(e)) == Some(e)
  {
    var ms := Ed25519Json(e).members;
    assert |ms[0].key| == 5 && |ms[1].key| == 3;
    FieldAt(ms, 0, "keyId");
    FieldAt(ms, 1, "sig");
  }

  lemma SealRoundTrip(r: SealedRecord)
    requires Writable(r)
    ensures WF(SealJson(r.seal)) && SealFromJson(SealJson(r.seal)) == Some(r.seal)
  {
    hide HmacFromJson, HmacJson, Ed25519FromJson, Ed25519Json, SEAL_KEYS;
    var s := r.seal;
    SealKeysDiffer();
    HmacRoundTrip(s.hmac);
    if s.ed25519.Some? {
      Ed25519RoundTrip(s.ed25519.value);
    }
    ValuesRoundTrip(r);
    FieldsOfBuild(SEAL_KEYS, SealValues(s));
    BuildIsWF(SEAL_KEYS, SealValues(s));
  }

  lemma ValuesRoundTrip(r: SealedRecord)
    requires Writable(r)
    ensures SealFromFields(SealValues(r.seal)) == Some(r.seal)
    ensures forall i | 0 <= i < 10 && SealValues(r.seal)[i].Some? :: WF(SealValues(r.seal)[i].value)
  {
    hide HmacFromJson, HmacJson, Ed25519FromJson, Ed25519Json;
    var s := r.seal;
    HmacRoundTrip(s.hmac);
    if s.ed25519.Some? {
      Ed25519RoundTrip(s.ed25519.value);
    }
  }

  /** Every field of a record survives its JSON form. */
  lemma RecordRoundTrip(r: SealedRecord)
    requires Writable(r)
    ensures WF(RecordJson(r)) && RecordFromJson(RecordJson(r)) == Some(r)
  {
    hide SealJson, SealFromJson;
    SealRoundTrip(r);
    var ms := RecordJson(r).members;
    assert |ms[0].key| == 7 && |ms[1].key| == 4;
    FieldAt(ms, 0, "payload");
    FieldAt(ms, 1, "seal");
  }

  // ---------- Tolerance of the reader ----------

  /** An optional field that is `null` reads as if it were not there. */
  lemma NullIsAbsent(f: seq<Option<Json>>, i: nat)
    requires |f| == 10 && 4 <= i < 10 && f[i] == Some(Null)
    ensures SealFromFields(f) == SealFromFields(f[i := None])
  {
    hide HmacFromJson, Ed25519FromJson;
    var g := f[i := None];
    assert forall j | 0 <= j < 10 && j != i :: g[j] == f[j];
  }

  /** A block without one of the required fields is not read. */
  lemma RequiredFields(f: seq<Option<Json>>, i: nat)
    requires |f| == 10 && i < 4 && f[i] == None
    ensures SealFromFields(f) == None
  {
    hide HmacFromJson, Ed25519FromJson;
  }

  /** A member that is not a field of the block changes nothing. */
  lemma UnknownFieldIsIgnored(ms: seq<Member>, m: Member)
    requires m.key !in SEAL_KEYS
    ensures SealFromJson(Obj(Put(ms, m))) == SealFromJson(Obj(ms))
  {
    hide SealFromFields, SEAL_KEYS, Put, Lookup;
    var (v, w) := (Obj(ms), Obj(Put(ms, m)));
    forall i | 0 <= i < |SEAL_KEYS| ensures Fields(w, SEAL_KEYS)[i] == Fields(v, SEAL_KEYS)[i] {
      LookupInPut(ms, m, SEAL_KEYS[i]);
    }
    assert Fields(w, SEAL_KEYS) == Fields(v, SEAL_KEYS);
  }

  /** The layers are also read from the list of their fields. */
  lemma LayersFromLists(h: HmacLayer, e: Ed25519Layer)
    ensures HmacFromJson(Arr([Str(h.alg), Str(h.keyId), Str(h.sig)])) == Some(h)
    ensures Ed25519FromJson(Arr([Str(e.keyId), Str(e.sig)])) == Some(e)
  {
    var (a, b) := ([h.alg, h.keyId, h.sig], [e.keyId, e.sig]);
    TextsRead(a);
    TextsRead(b);
    assert Texts(a) == [Str(h.alg), Str(h.keyId), Str(h.sig)] && Texts(b) == [Str(e.keyId), Str(e.sig)];
  }

  /** Where the parts of a record stand in its JSON form. */
  lemma RecordFields(r: SealedRecord)
    ensures
      var seal := SealJson(r.seal);
      && Field(RecordJson(r), "payload") == Some(r.payload) && Field(RecordJson(r), "seal") == Some(seal)
      && AsString(Field(seal, "sealedAt")) == Some(r.seal.sealedAt)
      && AsString(Field(seal, "preimage")) == Some(r.seal.preimage)
      && Field(seal, "hmac").Some? && AsString(Field(Field(seal, "hmac").value, "sig")) == Some(r.seal.hmac.sig)
      && (r.seal.ed25519.Some? ==>
            Field(seal, "ed25519").Some? && AsString(Field(Field(seal, "ed25519").value, "sig")) == Some(r.seal.ed25519.value.sig))
      && AsString(Field(seal, "ed25519PublicKey")) == r.seal.ed25519PublicKey
      && Field(seal, "tsa") == r.seal.tsa && Field(seal, "rekorAnchor") == r.seal.rekorAnchor
      && AsString(Field(seal, "c2paManifest")) == r.seal.c2paManifest
      && Field(seal, "c2paEmbedded") == (if r.seal.c2paEmbedded.Some? then Some(Bool(r.seal.c2paEmbedded.value)) else None)
  {
    hide Lookup, Build, HmacJson, Ed25519Json, Sorting.Distinct;
    SealKeysDiffer();
    var f := SealValues(r.seal);
    LookupBuild(SEAL_KEYS, f, 1);
    LookupBuild(SEAL_KEYS, f, 2);
    LookupBuild(SEAL_KEYS, f, 3);
    LookupBuild(SEAL_KEYS, f, 4);
    LookupBuild(SEAL_KEYS, f, 5);
    LookupBuild(SEAL_KEYS, f, 6);
    LookupBuild(SEAL_KEYS, f, 7);
    LookupBuild(SEAL_KEYS, f, 8);
    LookupBuild(SEAL_KEYS, f, 9);
    LayerFields(r.seal);
    TopFields(r);
  }

  lemma LayerFields(s: SealBlock)
    ensures AsString(Field(HmacJson(s.hmac), "sig")) == Some(s.hmac.sig)
    ensures s.ed25519.Some? ==> AsString(Field(Ed25519Json(s.ed25519.value), "sig")) == Some(s.ed25519.value.sig)
  {
    var ms := HmacJson(s.hmac).members;
    assert |ms[0].key| == 3 && |ms[1].key| == 5 && |ms[2].key| == 3 && ms[0].key[0] != ms[2].key[0];
    FieldAt(ms, 2, "sig");
    if s.ed25519.Some? {
      var es := Ed25519Json(s.ed25519.value).members;
      assert |es[0].key| == 5 && |es[1].key| == 3;
      FieldAt(es, 1, "sig");
    }
  }

  lemma TopFields(r: SealedRecord)
    ensures Field(RecordJson(r), "payload") == Some(r.payload) && Field(RecordJson(r), "seal") == Some(SealJson(r.seal))
  {
    hide SealJson;
    var ms := RecordJson(r).members;
    assert |ms[0].key| == 7 && |ms[1].key| == 4;
    FieldAt(ms, 0, "payload");
    FieldAt(ms, 1, "seal");
  }

  // ---------- Schema ----------

  /** The schema gate: a current record has a string at `seal.sealedAt`. */
  function DetectSchema(v: Json): Option<SealError> {
    var seal := Field(v, "seal");
    if !v.Obj? then Some(Malformed)
    else if seal.Some? && seal.value.Obj? && AsString(Field(seal.value, "sealedAt")).Some? then None
    else if AsString(Field(v, "sealedAt")).Some? then Some(UnsupportedSchemaV3)
    else Some(Malformed)
  }

  /** Every written record passes the schema gate. */
  lemma WrittenIsCurrent(r: SealedRecord)
    requires Writable(r)
    ensures DetectSchema(RecordJson(r)) == None && RecordFromJson(RecordJson(r)) == Some(r)
  {
    hide SealFromJson, SealValues, Build, Lookup;
    RecordRoundTrip(r);
    SealKeysDiffer();
    assert SEAL_KEYS[1] == "sealedAt";
    LookupBuild(SEAL_KEYS, SealValues(r.seal), 1);
    SealedAtIsWritten(r.seal);
    var ms := RecordJson(r).members;
    assert |ms[0].key| == 7 && |ms[1].key| == 4;
    FieldAt(ms, 1, "seal");
  }

  lemma SealedAtIsWritten(s: SealBlock)
    ensures SealValues(s)[1] == Some(Str(s.sealedAt))
  {
  }
}
