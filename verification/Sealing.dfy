/** Sealing a file: the payload that describes it, the seal over the payload, and
    the optional layers that ride beside the seal. */
module Sealing {
  import opened Prelude
  import opened JsonNumber
  import opened Json
  import opened JsonAccess
  import opened Crypto
  import opened Record
  import opened Seal
  import opened Artifact
  import opened Paths
  import opened KeystoreSpec
  import Excluded
  import Hex
  import Preimage
  import Inclusion
  import Rekor

  datatype Options = Options(c2pa: bool, embed: bool, aiGenerated: bool, tsa: Option<string>, rekor: Option<string>)

  function PayloadOf(s: Services, c: Crypto, path: Paths.Path, bytes: Bytes): Json {
    Obj([
      Member("artifactSha256", Str(Sha256Hex(c, bytes))), Member("path", Str(FileName(path))),
      Member("size", Num(Safe(|bytes|))), Member("mime", Str(s.mimeOf(FileName(path))))
    ])
  }

  /** The bytes to seal: with `embed`, the asset with the manifest inside. */
  function FinalBytes(s: Services, path: Paths.Path, bytes: Bytes, key: SigningKey, o: Options): Result<Bytes, SealError> {
    if !o.embed then
      Ok(bytes)
    else
      var known := s.extensionOf(FileName(path));
      var ext := if known.Some? then known.value else "";
      if !s.embeddable(ext) then
        Err(C2pa)
      else
        match s.embed(bytes, ext, key, o.aiGenerated)
        case None => Err(C2pa)
        case Some(asset) => Ok(asset)
  }

  function WithC2pa(s: Services, key: SigningKey, o: Options, r: SealedRecord): Result<SealedRecord, SealError> {
    if !o.c2pa then
      Ok(r)
    else if o.embed then
      Ok(r.(seal := r.seal.(c2paEmbedded := Some(true))))
    else
      match s.emitSidecar(r.payload, key, o.aiGenerated)
      case None => Err(C2pa)
      case Some(jumbf) => Ok(r.(seal := r.seal.(c2paManifest := Some(Hex.Encode0x(jumbf)))))
  }

  function TokenJson(t: Token): Json {
    Obj([
      Member("authority", Str(t.authority)), Member("issuedAt", Str(t.issuedAt)), Member("der", Str(Hex.Encode0x(t.der)))
    ])
  }

  function WithTsa(s: Services, o: Options, r: SealedRecord): Result<SealedRecord, SealError> {
    if o.tsa.None? then
      Ok(r)
    else
      match ToStamp(r.seal)
      case None => Err(Malformed)
      case Some(m) =>
        match s.requestToken(m, o.tsa.value)
        case None => Err(Tsa)
        case Some(token) => Ok(r.(seal := r.seal.(tsa := Some(TokenJson(token)))))
  }

  const ACTIVENESS_KEY := "shardActiveness"

  function WithActiveness(anchor: Json, activeness: string): Json {
    if anchor.Obj? then Obj(Put(anchor.members, Member(ACTIVENESS_KEY, Str(activeness)))) else anchor
  }

  function WithRekor(s: Services, key: SigningKey, o: Options, r: SealedRecord): Result<SealedRecord, SealError> {
    if o.rekor.None? then
      Ok(r)
    else
      match Hex.Decode0x(r.seal.preimage)
      case None => Err(InvalidPreimage)
      case Some(preimage) =>
        match s.checkShard(o.rekor.value)
        case None => Err(SealError.Rekor)
        case Some(activeness) =>
          match s.submit(preimage, key, o.rekor.value)
          case None => Err(SealError.Rekor)
          case Some(anchor) => Ok(r.(seal := r.seal.(rekorAnchor := Some(WithActiveness(anchor, activeness)))))
  }

  /** The seal over the payload alone, with the public key embedded. */
  function BaseRecord(s: Services, c: Crypto, path: Paths.Path, bytes: Bytes, keys: Keys, at: string): SealedRecord {
    var r := SealDeterministic(c, PayloadOf(s, c, path, bytes), keys.hmac, Some(keys.ed25519), at);
    r.(seal := r.seal.(ed25519PublicKey := Some(keys.publicPem)))
  }

  /** The receipt for the final bytes. */
  function RecordOf(s: Services, c: Crypto, path: Paths.Path, bytes: Bytes, keys: Keys, at: string, o: Options):
    Result<SealedRecord, SealError>
  {
    match WithC2pa(s, keys.ed25519, o, BaseRecord(s, c, path, bytes, keys, at))
    case Err(e) => Err(e)
    case Ok(r1) =>
      match WithTsa(s, o, r1)
      case Err(e) => Err(e)
      case Ok(r2) => WithRekor(s, keys.ed25519, o, r2)
  }

  predicate OptionsClash(o: Options) {
    (o.embed || o.aiGenerated) && !o.c2pa
  }

  // ---------- What was sealed verifies ----------

  /** An anchor of some leaf of some log, signed by a pinned shard. */
  ghost predicate InPinnedLog(s: Services, anchor: Json) {
    var a := Rekor.AnchorFromJson(anchor);
    && WF(anchor) && anchor.Obj? && a.Some? && Rekor.ResolveShard(s.shards, a.value.logId).Some?
    && exists m: nat, D :: Rekor.Anchors(s.log, a.value, Rekor.ResolveShard(s.shards, a.value.logId).value.publicKeyPem, m, D)
  }

  /** What the services are asked to do they do: sidecars and embedded manifests
      bind what they were made for, tokens cover the bytes sent, and a submission
      is answered with the anchor of a leaf of a pinned log. */
  ghost predicate Honest(s: Services, c: Crypto) {
    && !s.embeddable("")
    && (forall p, key, ai | s.emitSidecar(p, key, ai).Some? ::
          s.verifySidecar(s.emitSidecar(p, key, ai).value, PayloadHash(c, p)) == Some(true))
    && (forall b, ext, key, ai | s.embed(b, ext, key, ai).Some? ::
          s.verifyEmbedded(s.embed(b, ext, key, ai).value, ext) == Some(true) &&
          s.embeddedSigner(s.embed(b, ext, key, ai).value, ext) == Some(Some(c.publicOf(key))))
    && (forall m, url | s.requestToken(m, url).Some? :: s.verifyToken(s.requestToken(m, url).value.der, m))
    && Inclusion.Sized(s.log.sha256)
    && (forall m, key, url | s.submit(m, key, url).Some? :: InPinnedLog(s, s.submit(m, key, url).value))
  }

  // ---------- The note beside an anchor ----------

  /** The activeness note changes nothing that is read from an anchor. */
  lemma ActivenessIsANote(anchor: Json, activeness: string)
    requires WF(anchor) && anchor.Obj?
    ensures
      var noted := WithActiveness(anchor, activeness);
      WF(noted) && noted.Obj? && Rekor.AnchorFromJson(noted) == Rekor.AnchorFromJson(anchor)
  {
    hide Lookup, Put, Rekor.ProofFromJson;
    var (ms, note) := (anchor.members, Member(ACTIVENESS_KEY, Str(activeness)));
    PutIsWF(ms, note);
    AnchorKeysDiffer();
    LookupInPut(ms, note, "inclusionProof");
    LookupInPut(ms, note, "logIndex");
    LookupInPut(ms, note, "logId");
    LookupInPut(ms, note, "integratedTime");
    LookupInPut(ms, note, "canonicalizedBody");
    LookupInPut(ms, note, "envelope");
    LookupInPut(ms, note, "verifier");
  }

  lemma AnchorKeysDiffer()
    ensures ACTIVENESS_KEY !in ["inclusionProof", "logIndex", "logId", "integratedTime", "canonicalizedBody", "envelope", "verifier"]
  {
    var k := ["inclusionProof", "logIndex", "logId", "integratedTime", "canonicalizedBody", "envelope", "verifier"];
    assert forall i | 0 <= i < |k| :: |k[i]| != |ACTIVENESS_KEY|;
  }

  predicate SameCore(a: SealBlock, b: SealBlock) {
    && a.sealedAt == b.sealedAt && a.preimage == b.preimage && a.hmac == b.hmac
    && a.ed25519 == b.ed25519 && a.ed25519PublicKey == b.ed25519PublicKey
  }

  /** The optional layers are siblings: they change nothing the others check. */
  lemma SiblingsDoNotMatter(c: Crypto, payload: Json, a: SealBlock, b: SealBlock, key: Option<Bytes>)
    requires SameCore(a, b)
    ensures CryptoLayers(c, payload, a, key) == CryptoLayers(c, payload, b, key)
    ensures ToStamp(a) == ToStamp(b)
  {
  }

  /** What `WithC2pa`, `WithTsa` and `WithRekor` add, in one record. */
  lemma RecordShape(s: Services, c: Crypto, path: Paths.Path, bytes: Bytes, keys: Keys, at: string, o: Options)
    requires RecordOf(s, c, path, bytes, keys, at, o).Ok?
    ensures
      var (base, r) := (BaseRecord(s, c, path, bytes, keys, at), RecordOf(s, c, path, bytes, keys, at, o).value);
      && r.payload == base.payload && SameCore(r.seal, base.seal)
      && WithC2pa(s, keys.ed25519, o, base).Ok?
      && r.seal.c2paManifest == WithC2pa(s, keys.ed25519, o, base).value.seal.c2paManifest
      && r.seal.c2paEmbedded == WithC2pa(s, keys.ed25519, o, base).value.seal.c2paEmbedded
      && (o.tsa.None? ==> r.seal.tsa == None)
      && (o.tsa.Some? ==>
            ToStamp(base.seal).Some? && s.requestToken(ToStamp(base.seal).value, o.tsa.value).Some? &&
            r.seal.tsa == Some(TokenJson(s.requestToken(ToStamp(base.seal).value, o.tsa.value).value)))
      && (o.rekor.None? ==> r.seal.rekorAnchor == None)
      && (o.rekor.Some? ==>
            Hex.Decode0x(base.seal.preimage).Some? && s.checkShard(o.rekor.value).Some? &&
            s.submit(Hex.Decode0x(base.seal.preimage).value, keys.ed25519, o.rekor.value).Some? &&
            r.seal.rekorAnchor == Some(WithActiveness(
              s.submit(Hex.Decode0x(base.seal.preimage).value, keys.ed25519, o.rekor.value).value,
              s.checkShard(o.rekor.value).value)))
  {
    hide Hex.Encode0x, Hex.Decode0x, PayloadOf, WithActiveness, TokenJson;
    var base := BaseRecord(s, c, path, bytes, keys, at);
    var r1 := WithC2pa(s, keys.ed25519, o, base).value;
    var r2 := WithTsa(s, o, r1).value;
    assert ToStamp(r1.seal) == ToStamp(base.seal);
  }

  lemma PayloadReads(s: Services, c: Crypto, path: Paths.Path, bytes: Bytes)
    ensures
      var p := PayloadOf(s, c, path, bytes);
      && AsString(Field(p, "artifactSha256")) == Some(Sha256Hex(c, bytes))
      && AsString(Field(p, "path")) == Some(FileName(path))
    ensures |bytes| <= MAX_SAFE ==> WF(PayloadOf(s, c, path, bytes))
  {
    hide Sha256Hex, FileName;
    var ms := PayloadOf(s, c, path, bytes).members;
    assert |ms[0].key| == 14 && |ms[1].key| == 4 && |ms[2].key| == 4 && |ms[3].key| == 4;
    assert ms[1].key[0] == 'p' && ms[2].key[0] == 's' && ms[3].key[0] == 'm';
    FieldAt(ms, 0, "artifactSha256");
    FieldAt(ms, 1, "path");
  }

  lemma TokenReads(t: Token)
    ensures AsString(Field(TokenJson(t), "der")) == Some(Hex.Encode0x(t.der))
    ensures WF(TokenJson(t)) && TokenJson(t).Obj?
  {
    hide Hex.Encode0x;
    var ms := TokenJson(t).members;
    assert |ms[0].key| == 9 && |ms[1].key| == 8 && |ms[2].key| == 3;
    FieldAt(ms, 2, "der");
  }

  lemma CoreVerifies(s: Services, c: Crypto, path: Paths.Path, bytes: Bytes, keys: Keys, at: string, o: Options, other: Bytes)
    requires LawfulKeys(c) && keys == KeysOf(c, keys.hmac, keys.ed25519)
    requires |bytes| <= MAX_SAFE && RecordOf(s, c, path, bytes, keys, at, o).Ok?
    ensures
      CoreLayers(c, other, RecordOf(s, c, path, bytes, keys, at, o).value, Some(keys.hmac)) ==
        Ok([LayerResult("content", c.sha256(other) == c.sha256(bytes))] + BothLayers(true))
  {
    hide RecordOf, CryptoLayers, PayloadOf, SealDeterministic, LawfulKeys;
    var r := RecordOf(s, c, path, bytes, keys, at, o).value;
    var base := BaseRecord(s, c, path, bytes, keys, at);
    var payload := PayloadOf(s, c, path, bytes);
    RecordShape(s, c, path, bytes, keys, at, o);
    PayloadReads(s, c, path, bytes);
    SiblingsDoNotMatter(c, payload, r.seal, base.seal, Some(keys.hmac));
    SealedVerifies(c, payload, keys.hmac, keys.ed25519, at);
    BasePayload(s, c, path, bytes, keys, at);
    Hex.DecodeOfEncode(c.sha256(other));
    Hex.DecodeOfEncode(c.sha256(bytes));
  }

  lemma BasePayload(s: Services, c: Crypto, path: Paths.Path, bytes: Bytes, keys: Keys, at: string)
    requires keys == KeysOf(c, keys.hmac, keys.ed25519)
    ensures BaseRecord(s, c, path, bytes, keys, at) ==
      SealWithKey(c, PayloadOf(s, c, path, bytes), keys.hmac, keys.ed25519, at)
    ensures BaseRecord(s, c, path, bytes, keys, at).payload == PayloadOf(s, c, path, bytes)
  {
    hide PayloadOf;
  }

  /** An untouched seal verifies in both layers. */
  lemma SealedVerifies(c: Crypto, payload: Json, keyHmac: Bytes, sk: SigningKey, at: string)
    requires LawfulKeys(c) && WF(payload)
    ensures CryptoLayers(c, payload, SealWithKey(c, payload, keyHmac, sk, at).seal, Some(keyHmac)) == Ok(BothLayers(true))
  {
    hide CryptoLayers, Excluded.SameUpToNoise, LawfulKeys, SealDeterministic;
    Excluded.DataIffSame(payload, payload);
    TamperIsMeasured(c, payload, at, keyHmac, sk, payload, at);
    SealKeepsTime(c, payload, keyHmac, sk, at);
  }

  lemma SealKeepsTime(c: Crypto, payload: Json, keyHmac: Bytes, sk: SigningKey, at: string)
    ensures var seal := SealWithKey(c, payload, keyHmac, sk, at).seal; seal.(sealedAt := at) == seal
  {
  }

  lemma C2paVerifies(s: Services, c: Crypto, path: Paths.Path, bytes: Bytes, keys: Keys, at: string, o: Options, original: Bytes)
    requires Honest(s, c) && LawfulKeys(c) && keys == KeysOf(c, keys.hmac, keys.ed25519) && !OptionsClash(o)
    requires FinalBytes(s, path, original, keys.ed25519, o) == Ok(bytes)
    requires RecordOf(s, c, path, bytes, keys, at, o).Ok?
    ensures C2paLayer(s, c, bytes, RecordOf(s, c, path, bytes, keys, at, o).value) ==
      if o.c2pa then Some(Ok(true)) else None
  {
    hide RecordOf, SealDeterministic, PayloadOf, PayloadHash, Hex.Encode0x, Hex.Decode0x;
    var r := RecordOf(s, c, path, bytes, keys, at, o).value;
    RecordShape(s, c, path, bytes, keys, at, o);
    BasePayload(s, c, path, bytes, keys, at);
    PayloadReads(s, c, path, bytes);
    SealIsBare(c, r.payload, keys, at);
    if o.c2pa && !o.embed {
      Hex.Decode0xOfEncode0x(s.emitSidecar(r.payload, keys.ed25519, o.aiGenerated).value);
    }
  }

  lemma SealIsBare(c: Crypto, payload: Json, keys: Keys, at: string)
    ensures
      var seal := SealWithKey(c, payload, keys.hmac, keys.ed25519, at).seal;
      && seal.c2paEmbedded == None && seal.c2paManifest == None && seal.ed25519.Some?
      && seal.ed25519PublicKey == Some(c.publicPem(c.publicOf(keys.ed25519)))
      && Hex.Decode0x(seal.preimage).Some? && ToStamp(seal).Some?
  {
    hide Hex.Encode0x, Hex.Decode0x;
    var m := Preimage.BuildPreimage(payload, at);
    Hex.Decode0xOfEncode0x(m);
    Hex.Decode0xOfEncode0x(c.mac(keys.hmac, m));
    Hex.Decode0xOfEncode0x(c.sign(keys.ed25519, m));
  }

  lemma TsaVerifies(s: Services, c: Crypto, path: Paths.Path, bytes: Bytes, keys: Keys, at: string, o: Options)
    requires Honest(s, c) && RecordOf(s, c, path, bytes, keys, at, o).Ok?
    ensures TsaLayer(s, RecordOf(s, c, path, bytes, keys, at, o).value.seal) == if o.tsa.Some? then Some(Ok(true)) else None
  {
    hide RecordOf, BaseRecord, TokenJson, Hex.Encode0x, Hex.Decode0x, ToStamp;
    var r := RecordOf(s, c, path, bytes, keys, at, o).value;
    var base := BaseRecord(s, c, path, bytes, keys, at);
    RecordShape(s, c, path, bytes, keys, at, o);
    SiblingsDoNotMatter(c, r.payload, r.seal, base.seal, None);
    if o.tsa.Some? {
      var token := s.requestToken(ToStamp(base.seal).value, o.tsa.value).value;
      TokenReads(token);
      Hex.Decode0xOfEncode0x(token.der);
    }
  }

  /** An anchor from a pinned log, with the note beside it, is accepted. */
  lemma NotedAnchorVerifies(s: Services, anchor: Json, activeness: string)
    requires Inclusion.Sized(s.log.sha256) && InPinnedLog(s, anchor)
    ensures
      var a := Rekor.AnchorFromJson(WithActiveness(anchor, activeness));
      && a.Some? && Rekor.ResolveShard(s.shards, a.value.logId).Some?
      && Rekor.Judge(s.log, a.value, Some(Rekor.ResolveShard(s.shards, a.value.logId).value.publicKeyPem)) == Rekor.Verified
  {
    hide WithActiveness, Rekor.AnchorFromJson, Rekor.Judge, Rekor.Anchors, Rekor.ResolveShard, WF;
    ActivenessIsANote(anchor, activeness);
    var a := Rekor.AnchorFromJson(anchor).value;
    var pem := Rekor.ResolveShard(s.shards, a.logId).value.publicKeyPem;
    var m: nat, D :| Rekor.Anchors(s.log, a, pem, m, D);
    Rekor.AnchorIsComplete(s.log, a, pem, m, D);
  }

  lemma RekorVerifies(s: Services, c: Crypto, path: Paths.Path, bytes: Bytes, keys: Keys, at: string, o: Options)
    requires Honest(s, c) && RecordOf(s, c, path, bytes, keys, at, o).Ok?
    ensures RekorLayer(s, RecordOf(s, c, path, bytes, keys, at, o).value.seal) ==
      if o.rekor.Some? then Some(Ok(true)) else None
  {
    hide RecordOf, BaseRecord, Hex.Decode0x, WithActiveness, ToStamp, Rekor.AnchorFromJson, Rekor.Judge, InPinnedLog;
    RecordShape(s, c, path, bytes, keys, at, o);
    if o.rekor.Some? {
      NotedAnchorVerifies(s, SubmittedAnchor(s, c, path, bytes, keys, at, o), s.checkShard(o.rekor.value).value);
    }
  }

  /** What the log answered to the preimage of the receipt. */
  function SubmittedAnchor(s: Services, c: Crypto, path: Paths.Path, bytes: Bytes, keys: Keys, at: string, o: Options): Json
    requires RecordOf(s, c, path, bytes, keys, at, o).Ok? && o.rekor.Some?
  {
    RecordShape(s, c, path, bytes, keys, at, o);
    s.submit(Hex.Decode0x(BaseRecord(s, c, path, bytes, keys, at).seal.preimage).value, keys.ed25519, o.rekor.value).value
  }

  function ExpectedLayers(o: Options): seq<string> {
    ["content", "hmac", "ed25519"] + (if o.c2pa then ["c2pa"] else []) + (if o.tsa.Some? then ["tsa"] else []) +
    (if o.rekor.Some? then ["rekor"] else [])
  }

  function AllPassed(names: seq<string>): seq<LayerResult> {
    seq(|names|, i requires 0 <= i < |names| => LayerResult(names[i], true))
  }

  lemma PushPassed(names: seq<string>, name: string, on: bool)
    ensures Push(Ok(AllPassed(names)), name, if on then Some(Ok(true)) else None) ==
      Ok(AllPassed(names + (if on then [name] else [])))
  {
    assert AllPassed(names + [name]) == AllPassed(names) + [LayerResult(name, true)];
    assert names + [] == names;
  }

  /** What was sealed verifies: the receipt and the final bytes pass every layer
      that was asked for, and no other layer is there. */
  lemma SealedArtifactVerifies(s: Services, c: Crypto, path: Paths.Path, original: Bytes, bytes: Bytes, keys: Keys,
                               at: string, o: Options)
    requires Honest(s, c) && LawfulKeys(c) && keys == KeysOf(c, keys.hmac, keys.ed25519) && !OptionsClash(o)
    requires |bytes| <= MAX_SAFE && FinalBytes(s, path, original, keys.ed25519, o) == Ok(bytes)
    requires RecordOf(s, c, path, bytes, keys, at, o).Ok?
    ensures VerifyBytes(s, c, bytes, RecordOf(s, c, path, bytes, keys, at, o).value, Some(keys.hmac)) ==
      Ok(AllPassed(ExpectedLayers(o)))
  {
    hide RecordOf, CoreLayers, C2paLayer, TsaLayer, RekorLayer, Push, FinalBytes, Honest, LawfulKeys, AllPassed;
    CoreVerifies(s, c, path, bytes, keys, at, o, bytes);
    C2paVerifies(s, c, path, bytes, keys, at, o, original);
    TsaVerifies(s, c, path, bytes, keys, at, o);
    RekorVerifies(s, c, path, bytes, keys, at, o);
    CorePassed();
    var core := ["content", "hmac", "ed25519"];
    var withC2pa := core + (if o.c2pa then ["c2pa"] else []);
    PushPassed(core, "c2pa", o.c2pa);
    PushPassed(withC2pa, "tsa", o.tsa.Some?);
    PushPassed(withC2pa + (if o.tsa.Some? then ["tsa"] else []), "rekor", o.rekor.Some?);
  }

  lemma CorePassed()
    ensures [LayerResult("content", true)] + BothLayers(true) == AllPassed(["content", "hmac", "ed25519"])
  {
  }

  lemma PayloadIsSealed(s: Services, c: Crypto, path: Paths.Path, bytes: Bytes, keys: Keys, at: string)
    ensures BaseRecord(s, c, path, bytes, keys, at).payload == PayloadOf(s, c, path, bytes)
  {
    hide PayloadOf;
  }

  /** The record can be written to a receipt file and read back. */
  lemma SealedIsWritable(s: Services, c: Crypto, path: Paths.Path, bytes: Bytes, keys: Keys, at: string, o: Options)
    requires Honest(s, c) && |bytes| <= MAX_SAFE && RecordOf(s, c, path, bytes, keys, at, o).Ok?
    ensures Writable(RecordOf(s, c, path, bytes, keys, at, o).value)
  {
    hide RecordOf, PayloadOf, TokenJson, WithActiveness, Hex.Decode0x, ToStamp, Rekor.AnchorFromJson, Rekor.Anchors;
    hide BaseRecord, WithC2pa, WF;
    RecordShape(s, c, path, bytes, keys, at, o);
    PayloadReads(s, c, path, bytes);
    PayloadIsSealed(s, c, path, bytes, keys, at);
    if o.tsa.Some? {
      TokenReads(s.requestToken(ToStamp(BaseRecord(s, c, path, bytes, keys, at).seal).value, o.tsa.value).value);
    }
    if o.rekor.Some? {
      ActivenessIsANote(SubmittedAnchor(s, c, path, bytes, keys, at, o), s.checkShard(o.rekor.value).value);
    }
  }
}
