/** What a good or bad result of each layer says about the receipt, the file and
    the answers of the services. */
module LayerMeaning {
  import opened Prelude
  import opened Json
  import opened JsonAccess
  import opened Crypto
  import opened Record
  import opened Seal
  import opened Artifact
  import Excluded
  import Hex
  import Inclusion
  import Jcs
  import Merkle
  import Preimage
  import Rekor

  // ---------- Results and layers ----------

  lemma PushHas(rs: Results, name: string, layer: Option<Result<bool, SealError>>, x: LayerResult)
    requires Push(rs, name, layer).Ok?
    ensures rs.Ok? && (x in Push(rs, name, layer).value <==> x in rs.value || (x.name == name && layer == Some(Ok(x.ok))))
  {
  }

  lemma LayerNamesDiffer()
    ensures forall a, b | a in ["content", "hmac", "ed25519", "c2pa", "tsa", "rekor"] &&
                          b in ["content", "hmac", "ed25519", "c2pa", "tsa", "rekor"] :: |a| == |b| && a[0] == b[0] ==> a == b
  {
    var n := ["content", "hmac", "ed25519", "c2pa", "tsa", "rekor"];
    assert |n[0]| == 7 && |n[1]| == 4 && |n[2]| == 7 && |n[3]| == 4 && |n[4]| == 3 && |n[5]| == 5;
    assert n[0][0] == 'c' && n[1][0] == 'h' && n[2][0] == 'e' && n[3][0] == 'c';
  }

  lemma PushThree(core: Results, c2pa: Option<Result<bool, SealError>>, tsa: Option<Result<bool, SealError>>,
                  rekor: Option<Result<bool, SealError>>, x: LayerResult)
    requires Push(Push(Push(core, "c2pa", c2pa), "tsa", tsa), "rekor", rekor).Ok?
    ensures core.Ok?
    ensures x in Push(Push(Push(core, "c2pa", c2pa), "tsa", tsa), "rekor", rekor).value <==>
      x in core.value || (x.name == "c2pa" && c2pa == Some(Ok(x.ok))) || (x.name == "tsa" && tsa == Some(Ok(x.ok))) ||
      (x.name == "rekor" && rekor == Some(Ok(x.ok)))
  {
    hide Push;
    PushHas(Push(Push(core, "c2pa", c2pa), "tsa", tsa), "rekor", rekor, x);
    PushHas(Push(core, "c2pa", c2pa), "tsa", tsa, x);
    PushHas(core, "c2pa", c2pa, x);
  }

  /** In a verification that succeeds, a result is reported exactly if it is that of its layer. */
  lemma ResultsAreLayers(s: Services, c: Crypto, bytes: Bytes, r: SealedRecord, key: Option<Bytes>, ok: bool)
    requires VerifyBytes(s, c, bytes, r, key).Ok?
    ensures
      var results := VerifyBytes(s, c, bytes, r, key).value;
      && (LayerResult("rekor", ok) in results <==> RekorLayer(s, r.seal) == Some(Ok(ok)))
      && (LayerResult("tsa", ok) in results <==> TsaLayer(s, r.seal) == Some(Ok(ok)))
      && (LayerResult("c2pa", ok) in results <==> C2paLayer(s, c, bytes, r) == Some(Ok(ok)))
  {
    ReportedIs(s, c, bytes, r, key, LayerResult("rekor", ok));
    ReportedIs(s, c, bytes, r, key, LayerResult("tsa", ok));
    ReportedIs(s, c, bytes, r, key, LayerResult("c2pa", ok));
    hide C2paLayer, TsaLayer, RekorLayer, VerifyBytes;
    LayerNamesDiffer();
  }

  lemma ReportedIs(s: Services, c: Crypto, bytes: Bytes, r: SealedRecord, key: Option<Bytes>, x: LayerResult)
    requires VerifyBytes(s, c, bytes, r, key).Ok? && x.name in ["c2pa", "tsa", "rekor"]
    ensures x in VerifyBytes(s, c, bytes, r, key).value <==>
      (x.name == "c2pa" && C2paLayer(s, c, bytes, r) == Some(Ok(x.ok))) ||
      (x.name == "tsa" && TsaLayer(s, r.seal) == Some(Ok(x.ok))) ||
      (x.name == "rekor" && RekorLayer(s, r.seal) == Some(Ok(x.ok)))
  {
    hide C2paLayer, TsaLayer, RekorLayer, CoreLayers, Push;
    PushThree(CoreLayers(c, bytes, r, key), C2paLayer(s, c, bytes, r), TsaLayer(s, r.seal), RekorLayer(s, r.seal), x);
    LayerNamesDiffer();
    if x in CoreLayers(c, bytes, r, key).value {
      CoreHasOnly(c, bytes, r, key, x);
    }
  }

  lemma CoreHasOnly(c: Crypto, bytes: Bytes, r: SealedRecord, key: Option<Bytes>, x: LayerResult)
    requires CoreLayers(c, bytes, r, key).Ok? && x in CoreLayers(c, bytes, r, key).value
    ensures x.name in ["content", "hmac", "ed25519"]
  {
    NamesOfCore(c, bytes, r, key);
    var rs := CoreLayers(c, bytes, r, key).value;
    var i :| 0 <= i < |rs| && rs[i] == x;
    assert Names(rs)[i] == x.name;
  }

  // ---------- The transparency log ----------

  /** The first pinned shard with the anchor's log id is at `i`. */
  predicate PinnedAt(shards: seq<Rekor.ShardKey>, logId: string, i: int) {
    0 <= i < |shards| && shards[i].logId == logId && forall j | 0 <= j < i :: shards[j].logId != logId
  }

  lemma {:induction false} ResolvedIsPinned(shards: seq<Rekor.ShardKey>, logId: string)
    ensures Rekor.ResolveShard(shards, logId).Some? <==> exists i :: PinnedAt(shards, logId, i)
    ensures forall i | PinnedAt(shards, logId, i) :: Rekor.ResolveShard(shards, logId) == Some(shards[i])
  {
    var r := Rekor.ResolveShard(shards, logId);
    if r.Some? {
      var i :| 0 <= i < |shards| && shards[i] == r.value && shards[i].logId == logId &&
        forall j | 0 <= j < i :: shards[j].logId != logId;
      assert PinnedAt(shards, logId, i);
      forall k | PinnedAt(shards, logId, k) ensures k == i {
      }
    }
  }

  /** Inclusion, equal roots and a signature hold under the key of the pinned shard. */
  ghost predicate ShownByPinned(s: Services, a: Rekor.Anchor) {
    exists i, body :: PinnedAt(s.shards, a.logId, i) && Rekor.Shows(s.log, a, s.shards[i].publicKeyPem, body)
  }

  /** The rekor layer is good exactly when the anchor parses, its log is pinned,
      and inclusion, root and signature hold under the key of that shard. */
  lemma RekorMeans(s: Services, c: Crypto, bytes: Bytes, r: SealedRecord, key: Option<Bytes>)
    requires VerifyBytes(s, c, bytes, r, key).Ok?
    ensures LayerResult("rekor", true) in VerifyBytes(s, c, bytes, r, key).value <==>
      r.seal.rekorAnchor.Some? && Rekor.AnchorFromJson(r.seal.rekorAnchor.value).Some? &&
      ShownByPinned(s, Rekor.AnchorFromJson(r.seal.rekorAnchor.value).value)
  {
    hide VerifyBytes, Rekor.AnchorFromJson, Rekor.Judge, ShownByPinned, Rekor.ResolveShard;
    ResultsAreLayers(s, c, bytes, r, key, true);
    if r.seal.rekorAnchor.Some? && Rekor.AnchorFromJson(r.seal.rekorAnchor.value).Some? {
      var a := Rekor.AnchorFromJson(r.seal.rekorAnchor.value).value;
      AcceptedShows(s, a);
    }
  }

  lemma AcceptedShows(s: Services, a: Rekor.Anchor)
    ensures
      var shard := Rekor.ResolveShard(s.shards, a.logId);
      Rekor.Judge(s.log, a, if shard.Some? then Some(shard.value.publicKeyPem) else None) == Rekor.Verified <==>
      ShownByPinned(s, a)
  {
    hide Rekor.Judge, Rekor.ResolveShard, Rekor.ParseHash, Rekor.ParseHashes, Merkle.Included, Rekor.SignedBy;
    ResolvedIsPinned(s.shards, a.logId);
    var shard := Rekor.ResolveShard(s.shards, a.logId);
    if shard.Some? {
      var i :| PinnedAt(s.shards, a.logId, i);
      Rekor.VerifiedShows(s.log, a, Some(s.shards[i].publicKeyPem));
    } else {
      Rekor.VerifiedShows(s.log, a, None);
    }
  }

  /** A good rekor layer is about a leaf of the log whose root was signed. */
  lemma RekorLayerShowsLeaf(s: Services, c: Crypto, bytes: Bytes, r: SealedRecord, key: Option<Bytes>, a: Rekor.Anchor,
                            body: Bytes, hashes: seq<Bytes>, D: seq<Bytes>) returns (i: nat)
    requires VerifyBytes(s, c, bytes, r, key).Ok? && LayerResult("rekor", true) in VerifyBytes(s, c, bytes, r, key).value
    requires r.seal.rekorAnchor.Some? && Rekor.AnchorFromJson(r.seal.rekorAnchor.value) == Some(a)
    requires s.log.fromBase64(a.canonicalizedBody) == Some(body) && s.log.parseCheckpoint(a.proof.checkpoint).Some?
    requires s.log.parseCheckpoint(a.proof.checkpoint).value.rootHash == Merkle.TreeHash(s.log.sha256, D)
    requires Rekor.ParseHashes(a.proof.hashes) == Ok(hashes) && Inclusion.Sized(s.log.sha256)
    requires 0 <= a.proof.logIndex < a.proof.treeSize ==> Inclusion.NoClash(s.log.sha256,
      Inclusion.CheckInputs(s.log.sha256, body, a.proof.logIndex, a.proof.treeSize, hashes),
      Inclusion.TreeInputs(s.log.sha256, D))
    ensures i < |D| && D[i] == body && Merkle.AuditPath(s.log.sha256, i, D) == hashes
    ensures a.proof.treeSize == |D| ==> i == a.proof.logIndex
  {
    hide VerifyBytes, Rekor.AnchorFromJson, Merkle.TreeHash, Merkle.AuditPath, Rekor.ParseHashes, Inclusion.NoClash;
    hide Inclusion.CheckInputs, Inclusion.TreeInputs, Inclusion.Sized, Rekor.Judge;
    ResultsAreLayers(s, c, bytes, r, key, true);
    ResolvedIsPinned(s.shards, a.logId);
    var shard := Rekor.ResolveShard(s.shards, a.logId);
    NoKeyNoVerdict(s, a);
    VerdictHasIndex(s, a, shard.value.publicKeyPem);
    i := Rekor.AnchorIsSound(s.log, a, shard.value.publicKeyPem, body, D);
  }

  lemma VerdictHasIndex(s: Services, a: Rekor.Anchor, pem: string)
    ensures Rekor.Judge(s.log, a, Some(pem)) == Rekor.Verified ==> 0 <= a.proof.logIndex < a.proof.treeSize
  {
  }

  lemma NoKeyNoVerdict(s: Services, a: Rekor.Anchor)
    ensures Rekor.Judge(s.log, a, None) == Rekor.UnknownKey
  {
  }

  // ---------- The timestamp ----------

  /** The timestamp layer is good exactly when the token verifies for the bytes of
      the MAC followed by those of the signature. */
  lemma TsaMeans(s: Services, c: Crypto, bytes: Bytes, r: SealedRecord, key: Option<Bytes>)
    requires VerifyBytes(s, c, bytes, r, key).Ok?
    ensures LayerResult("tsa", true) in VerifyBytes(s, c, bytes, r, key).value <==>
      r.seal.tsa.Some? && AsString(Field(r.seal.tsa.value, "der")).Some? && r.seal.ed25519.Some? &&
      var der := Hex.Decode0x(AsString(Field(r.seal.tsa.value, "der")).value);
      var (mac, sig) := (Hex.Decode0x(r.seal.hmac.sig), Hex.Decode0x(r.seal.ed25519.value.sig));
      der.Some? && mac.Some? && sig.Some? && s.verifyToken(der.value, mac.value + sig.value)
  {
    hide VerifyBytes, Hex.Decode0x;
    ResultsAreLayers(s, c, bytes, r, key, true);
  }

  /** A token that verifies for nothing but the bytes it was issued for fits a
      seal exactly when the MAC and the signature are the ones that were stamped. */
  lemma TokenFitsExactly(s: Services, c: Crypto, bytes: Bytes, r: SealedRecord, key: Option<Bytes>, der: Bytes, mac: Bytes, sig: Bytes)
    requires VerifyBytes(s, c, bytes, r, key).Ok? && r.seal.tsa.Some?
    requires AsString(Field(r.seal.tsa.value, "der")).Some? && Hex.Decode0x(AsString(Field(r.seal.tsa.value, "der")).value) == Some(der)
    requires forall m :: s.verifyToken(der, m) <==> m == mac + sig
    requires Hex.Decode0x(r.seal.hmac.sig).Some? && |Hex.Decode0x(r.seal.hmac.sig).value| == |mac|
    ensures LayerResult("tsa", true) in VerifyBytes(s, c, bytes, r, key).value <==>
      r.seal.ed25519.Some? && Hex.Decode0x(r.seal.hmac.sig) == Some(mac) && Hex.Decode0x(r.seal.ed25519.value.sig) == Some(sig)
  {
    hide VerifyBytes, Hex.Decode0x;
    TsaMeans(s, c, bytes, r, key);
    var mac' := Hex.Decode0x(r.seal.hmac.sig).value;
    forall sig' ensures mac' + sig' == mac + sig <==> mac' == mac && sig' == sig {
      if mac' + sig' == mac + sig {
        assert (mac' + sig')[..|mac|] == mac' && (mac + sig)[..|mac|] == mac;
        assert (mac' + sig')[|mac|..] == sig' && (mac + sig)[|mac|..] == sig;
      }
    }
  }

  // ---------- The manifest ----------

  /** The format under which an in-file manifest is read: the extension of the
      recorded path if it has one, else the recorded media type. */
  predicate IsFormat(s: Services, payload: Json, format: string) {
    var (path, mime) := (AsString(Field(payload, "path")), AsString(Field(payload, "mime")));
    if path.Some? && s.extensionOf(path.value).Some? then Some(format) == s.extensionOf(path.value)
    else if mime.Some? then format == mime.value
    else format == ""
  }

  /** The c2pa layer is good exactly when the in-file manifest is valid and signed
      by the embedded key, or the sidecar is bound to the hash of the canonical
      stripped payload. */
  lemma C2paMeans(s: Services, c: Crypto, bytes: Bytes, r: SealedRecord, key: Option<Bytes>, format: string)
    requires VerifyBytes(s, c, bytes, r, key).Ok? && IsFormat(s, r.payload, format)
    ensures
      var pem := r.seal.ed25519PublicKey;
      LayerResult("c2pa", true) in VerifyBytes(s, c, bytes, r, key).value <==>
      if r.seal.c2paEmbedded == Some(true) then
        s.verifyEmbedded(bytes, format) == Some(true) &&
        (pem.Some? ==> c.parsePublicPem(pem.value).Some? && s.embeddedSigner(bytes, format) == Some(c.parsePublicPem(pem.value)))
      else
        r.seal.c2paManifest.Some? && Hex.Decode0x(r.seal.c2paManifest.value).Some? &&
        s.verifySidecar(Hex.Decode0x(r.seal.c2paManifest.value).value,
                        Hex.Encode(c.sha256(Jcs.Canonicalize(Excluded.StripExcluded(r.payload))))) == Some(true)
  {
    hide VerifyBytes, Hex.Decode0x, Hex.Encode, Jcs.Canonicalize, Excluded.StripExcluded;
    ResultsAreLayers(s, c, bytes, r, key, true);
  }

  /** The hash a sidecar is bound to is that of another payload exactly when the
      two differ by noise only. */
  lemma PayloadHashBinds(c: Crypto, p: Json, q: Json)
    requires WF(p) && WF(q)
    requires var (x, y) := (Jcs.Canonicalize(Excluded.StripExcluded(p)), Jcs.Canonicalize(Excluded.StripExcluded(q)));
             c.sha256(x) == c.sha256(y) ==> x == y
    ensures PayloadHash(c, p) == PayloadHash(c, q) <==> Excluded.SameUpToNoise(p, q)
  {
    hide Hex.Encode, Jcs.Canonicalize, Excluded.SameUpToNoise;
    var (x, y) := (Jcs.Canonicalize(Excluded.StripExcluded(p)), Jcs.Canonicalize(Excluded.StripExcluded(q)));
    Excluded.StripKeepsWF(p);
    Excluded.StripKeepsWF(q);
    Jcs.CanonicalIffSameData(Excluded.StripExcluded(p), Excluded.StripExcluded(q));
    Excluded.DataIffSame(p, q);
    Hex.DecodeOfEncode(c.sha256(x));
    Hex.DecodeOfEncode(c.sha256(y));
  }

  // ---------- Content and seal ----------

  /** The content layer is good exactly for the bytes with the recorded hash, the
      hmac layer exactly when the stored preimage is that of payload and time and
      the tag is its MAC under the key given, if any, and the ed25519 layer exactly
      when that preimage is signed under the embedded key. */
  lemma CoreMeans(s: Services, c: Crypto, bytes: Bytes, r: SealedRecord, key: Option<Bytes>)
    requires VerifyBytes(s, c, bytes, r, key).Ok?
    ensures
      var (results, seal) := (VerifyBytes(s, c, bytes, r, key).value, r.seal);
      var m := Preimage.BuildPreimage(r.payload, seal.sealedAt);
      && (LayerResult("content", true) in results <==>
            AsString(Field(r.payload, "artifactSha256")) == Some(Hex.Encode(c.sha256(bytes))))
      && (LayerResult("hmac", true) in results <==>
            Hex.Decode0x(seal.preimage) == Some(m) && Hex.Decode0x(seal.hmac.sig).Some? &&
            (key.Some? ==> Hex.Decode0x(seal.hmac.sig) == Some(c.mac(key.value, m))))
      && (LayerResult("ed25519", true) in results <==>
            Hex.Decode0x(seal.preimage) == Some(m) && seal.ed25519.Some? && seal.ed25519PublicKey.Some? &&
            SignedUnder(c, seal.ed25519PublicKey.value, seal.ed25519.value.sig, m))
  {
    hide VerifyBytes, CoreLayers;
    ResultsAreCore(s, c, bytes, r, key, "content");
    ResultsAreCore(s, c, bytes, r, key, "hmac");
    ResultsAreCore(s, c, bytes, r, key, "ed25519");
    CoreIs(c, bytes, r, key);
  }

  lemma ResultsAreCore(s: Services, c: Crypto, bytes: Bytes, r: SealedRecord, key: Option<Bytes>, name: string)
    requires VerifyBytes(s, c, bytes, r, key).Ok? && name in ["content", "hmac", "ed25519"]
    ensures CoreLayers(c, bytes, r, key).Ok?
    ensures LayerResult(name, true) in VerifyBytes(s, c, bytes, r, key).value <==>
            LayerResult(name, true) in CoreLayers(c, bytes, r, key).value
  {
    hide C2paLayer, TsaLayer, RekorLayer, CoreLayers, Push;
    var core := CoreLayers(c, bytes, r, key);
    var withC2pa := Push(core, "c2pa", C2paLayer(s, c, bytes, r));
    var withTsa := Push(withC2pa, "tsa", TsaLayer(s, r.seal));
    var x := LayerResult(name, true);
    LayerNamesDiffer();
    PushHas(withTsa, "rekor", RekorLayer(s, r.seal), x);
    PushHas(withC2pa, "tsa", TsaLayer(s, r.seal), x);
    PushHas(core, "c2pa", C2paLayer(s, c, bytes, r), x);
  }

  lemma CoreIs(c: Crypto, bytes: Bytes, r: SealedRecord, key: Option<Bytes>)
    requires CoreLayers(c, bytes, r, key).Ok?
    ensures
      var (results, seal) := (CoreLayers(c, bytes, r, key).value, r.seal);
      var m := Preimage.BuildPreimage(r.payload, seal.sealedAt);
      && (LayerResult("content", true) in results <==>
            AsString(Field(r.payload, "artifactSha256")) == Some(Hex.Encode(c.sha256(bytes))))
      && (LayerResult("hmac", true) in results <==>
            Hex.Decode0x(seal.preimage) == Some(m) && Hex.Decode0x(seal.hmac.sig).Some? &&
            (key.Some? ==> Hex.Decode0x(seal.hmac.sig) == Some(c.mac(key.value, m))))
      && (LayerResult("ed25519", true) in results <==>
            Hex.Decode0x(seal.preimage) == Some(m) && seal.ed25519.Some? && seal.ed25519PublicKey.Some? &&
            SignedUnder(c, seal.ed25519PublicKey.value, seal.ed25519.value.sig, m))
  {
    hide Hex.Decode0x, Hex.Encode, Preimage.BuildPreimage;
    LayerNamesDiffer();
  }

  // ---------- Structural errors ----------

  /** What is wrong with hash, preimage or public key, if anything. */
  function CoreFault(c: Crypto, r: SealedRecord): Option<SealError> {
    if AsString(Field(r.payload, "artifactSha256")).None? then Some(Malformed)
    else if Hex.Decode0x(r.seal.preimage).None? then Some(InvalidPreimage)
    else if r.seal.ed25519.Some? && r.seal.ed25519PublicKey.None? then Some(MissingPublicKey)
    else if r.seal.ed25519.Some? && c.parsePublicPem(r.seal.ed25519PublicKey.value).None? then Some(KeyError)
    else None
  }

  /** A manifest that cannot be read, or that must be compared with a key that
      cannot be read. */
  function C2paFault(s: Services, c: Crypto, bytes: Bytes, r: SealedRecord, format: string): Option<SealError> {
    var pem := r.seal.ed25519PublicKey;
    if r.seal.c2paEmbedded == Some(true) then
      if s.verifyEmbedded(bytes, format) == None then Some(C2pa)
      else if s.verifyEmbedded(bytes, format) == Some(false) || pem.None? then None
      else if c.parsePublicPem(pem.value).None? then Some(KeyError)
      else if s.embeddedSigner(bytes, format).None? then Some(C2pa)
      else None
    else if r.seal.c2paManifest.None? then
      None
    else
      var jumbf := Hex.Decode0x(r.seal.c2paManifest.value);
      if jumbf.None? || s.verifySidecar(jumbf.value, PayloadHash(c, r.payload)).None? then Some(C2pa) else None
  }

  /** A token, MAC or signature that cannot be decoded, or no signature to stamp. */
  function TsaFault(seal: SealBlock): Option<SealError> {
    if seal.tsa.None? then
      None
    else
      var der := AsString(Field(seal.tsa.value, "der"));
      if der.None? || Hex.Decode0x(der.value).None? || Hex.Decode0x(seal.hmac.sig).None? || seal.ed25519.None? ||
         Hex.Decode0x(seal.ed25519.value.sig).None?
      then Some(Malformed)
      else None
  }

  function RekorFault(seal: SealBlock): Option<SealError> {
    if seal.rekorAnchor.Some? && Rekor.AnchorFromJson(seal.rekorAnchor.value).None? then Some(Malformed) else None
  }

  function First(a: Option<SealError>, b: Option<SealError>): Option<SealError> {
    if a.Some? then a else b
  }

  lemma PushFails(rs: Results, name: string, layer: Option<Result<bool, SealError>>)
    ensures Push(rs, name, layer).Err? <==> rs.Err? || (layer.Some? && layer.value.Err?)
    ensures rs.Err? ==> Push(rs, name, layer) == rs
    ensures rs.Ok? && layer.Some? && layer.value.Err? ==> Push(rs, name, layer) == Err(layer.value.error)
  {
  }

  /** A verification fails exactly on a receipt or an answer that cannot be read,
      with the first such fault in the order of the layers; a mismatch is never an
      error. */
  lemma VerificationFails(s: Services, c: Crypto, bytes: Bytes, r: SealedRecord, key: Option<Bytes>, format: string)
    requires IsFormat(s, r.payload, format)
    ensures
      var fault := First(CoreFault(c, r), First(C2paFault(s, c, bytes, r, format), First(TsaFault(r.seal), RekorFault(r.seal))));
      (VerifyBytes(s, c, bytes, r, key).Ok? <==> fault == None) &&
      (fault.Some? ==> VerifyBytes(s, c, bytes, r, key) == Err(fault.value))
  {
    hide CoreLayers, C2paLayer, TsaLayer, RekorLayer, CoreFault, C2paFault, TsaFault, RekorFault, Push;
    CoreFails(c, bytes, r, key);
    C2paFails(s, c, bytes, r, format);
    OthersFail(s, r.seal);
    var core := CoreLayers(c, bytes, r, key);
    var withC2pa := Push(core, "c2pa", C2paLayer(s, c, bytes, r));
    PushFails(core, "c2pa", C2paLayer(s, c, bytes, r));
    PushFails(withC2pa, "tsa", TsaLayer(s, r.seal));
    PushFails(Push(withC2pa, "tsa", TsaLayer(s, r.seal)), "rekor", RekorLayer(s, r.seal));
  }

  lemma CoreFails(c: Crypto, bytes: Bytes, r: SealedRecord, key: Option<Bytes>)
    ensures CoreLayers(c, bytes, r, key).Ok? <==> CoreFault(c, r) == None
    ensures CoreFault(c, r).Some? ==> CoreLayers(c, bytes, r, key) == Err(CoreFault(c, r).value)
  {
    hide Hex.Decode0x, HmacOk, Ed25519Ok, Sha256Hex;
  }

  lemma C2paFails(s: Services, c: Crypto, bytes: Bytes, r: SealedRecord, format: string)
    requires IsFormat(s, r.payload, format)
    ensures
      var (layer, fault) := (C2paLayer(s, c, bytes, r), C2paFault(s, c, bytes, r, format));
      (layer.Some? && layer.value.Err? <==> fault.Some?) && (fault.Some? ==> layer == Some(Err(fault.value)))
  {
    hide Hex.Decode0x, PayloadHash;
  }

  lemma OthersFail(s: Services, seal: SealBlock)
    ensures
      var (layer, fault) := (TsaLayer(s, seal), TsaFault(seal));
      (layer.Some? && layer.value.Err? <==> fault.Some?) && (fault.Some? ==> layer == Some(Err(fault.value)))
    ensures
      var (layer, fault) := (RekorLayer(s, seal), RekorFault(seal));
      (layer.Some? && layer.value.Err? <==> fault.Some?) && (fault.Some? ==> layer == Some(Err(fault.value)))
  {
    hide Hex.Decode0x, Rekor.AnchorFromJson, Rekor.Judge, Rekor.ResolveShard;
  }
}
