/** Sealing a payload, and the two verifiers of a sealed record. A structural
    problem is an error; a mismatch is a measured `false`. */
module Seal {
  import opened Prelude
  import opened Json
  import opened JsonAccess
  import opened Crypto
  import opened Record
  import Excluded
  import Hex
  import Preimage

  const HMAC_ALG := "HMAC-SHA256"

  /** Seal a payload; the signature is made only if a signing key is given. */
  function SealDeterministic(c: Crypto, payload: Json, keyHmac: Bytes, ed: Option<SigningKey>, sealedAt: string): SealedRecord {
    var preimage := Preimage.BuildPreimage(payload, sealedAt);
    SealedRecord(payload, SealBlock(
      Preimage.METHOD_V1, sealedAt, Hex.Encode0x(preimage),
      HmacLayer(HMAC_ALG, "hmac-default", Hex.Encode0x(c.mac(keyHmac, preimage))),
      if ed.Some? then Some(Ed25519Layer("default", Hex.Encode0x(c.sign(ed.value, preimage)))) else None,
      None, None, None, None, None))
  }

  function MacVerifies(c: Crypto, key: Bytes, m: Bytes, sig: Bytes): bool {
    sig == c.mac(key, m)
  }

  // ---------- The record-level verifier ----------

  function Or<T>(a: Option<T>, b: Option<T>): Option<T> {
    if a.Some? then a else b
  }

  function Verify(c: Crypto, record: Json, key: Bytes, pem: Option<string>): Result<bool, SealError> {
    var schema := DetectSchema(record);
    if schema.Some? then
      Err(schema.value)
    else
      var seal := Field(record, "seal");
      if seal.None? then
        Err(Malformed)
      else
        var block := SealFromJson(seal.value);
        var payload := Field(record, "payload");
        if block.None? || payload.None? then
          Err(Malformed)
        else
          VerifySeal(c, payload.value, block.value, key, Or(pem, AsString(Field(seal.value, "ed25519PublicKey"))))
  }

  function VerifySeal(c: Crypto, payload: Json, seal: SealBlock, key: Bytes, pem: Option<string>): Result<bool, SealError> {
    var computed := Preimage.BuildPreimage(payload, seal.sealedAt);
    match Hex.Decode0x(seal.preimage)
    case None => Err(InvalidPreimage)
    case Some(stored) =>
      if computed != stored then
        Ok(false)
      else
        match Hex.Decode0x(seal.hmac.sig)
        case None => Ok(false)
        case Some(mac) =>
          if !MacVerifies(c, key, computed, mac) then Ok(false)
          else if seal.ed25519.None? then Ok(true)
          else VerifySignature(c, computed, seal.ed25519.value.sig, pem)
  }

  function VerifySignature(c: Crypto, computed: Bytes, sig: string, pem: Option<string>): Result<bool, SealError> {
    match pem
    case None => Err(MissingPublicKey)
    case Some(text) =>
      match c.parsePublicPem(text)
      case None => Err(KeyError)
      case Some(pk) =>
        match Hex.Decode0x(sig)
        case None => Ok(false)
        case Some(s) => Ok(c.verify(pk, computed, s))
  }

  // ---------- The per-layer verifier ----------

  datatype LayerResult = LayerResult(name: string, ok: bool)

  predicate AllOk(results: seq<LayerResult>) {
    forall i | 0 <= i < |results| :: results[i].ok
  }

  function HmacOk(c: Crypto, payload: Json, seal: SealBlock, key: Option<Bytes>): bool {
    var computed := Preimage.BuildPreimage(payload, seal.sealedAt);
    var sig := Hex.Decode0x(seal.hmac.sig);
    Hex.Decode0x(seal.preimage) == Some(computed) && sig.Some? &&
    (key.Some? ==> MacVerifies(c, key.value, computed, sig.value))
  }

  function Ed25519Ok(c: Crypto, payload: Json, seal: SealBlock, pk: PublicKey): bool
    requires seal.ed25519.Some?
  {
    var computed := Preimage.BuildPreimage(payload, seal.sealedAt);
    var sig := Hex.Decode0x(seal.ed25519.value.sig);
    Hex.Decode0x(seal.preimage) == Some(computed) && sig.Some? && c.verify(pk, computed, sig.value)
  }

  /** The results of the layers every record can carry: `hmac`, then `ed25519` if present. */
  function CryptoLayers(c: Crypto, payload: Json, seal: SealBlock, key: Option<Bytes>): Result<seq<LayerResult>, SealError> {
    var hmac := LayerResult("hmac", HmacOk(c, payload, seal, key));
    if Hex.Decode0x(seal.preimage).None? then Err(InvalidPreimage)
    else if seal.ed25519.None? then Ok([hmac])
    else if seal.ed25519PublicKey.None? then Err(MissingPublicKey)
    else if c.parsePublicPem(seal.ed25519PublicKey.value).None? then Err(KeyError)
    else Ok([hmac, LayerResult("ed25519", Ed25519Ok(c, payload, seal, c.parsePublicPem(seal.ed25519PublicKey.value).value))])
  }

  /** Append the results to those of earlier layers. */
  method AppendCryptoLayers(c: Crypto, payload: Json, seal: SealBlock, key: Option<Bytes>, results: seq<LayerResult>)
    returns (out: Result<seq<LayerResult>, SealError>)
    ensures out == match CryptoLayers(c, payload, seal, key)
                   case Err(e) => Err(e)
                   case Ok(rs) => Ok(results + rs)
  {
    var stored := Hex.Decode0x(seal.preimage);
    if stored.None? {
      return Err(InvalidPreimage);
    }
    var computed := Preimage.BuildPreimage(payload, seal.sealedAt);
    var preimageOk := computed == stored.value;
    var all := results;
    var hmacOk := match (preimageOk, key, Hex.Decode0x(seal.hmac.sig))
      case (true, Some(k), Some(sig)) => MacVerifies(c, k, computed, sig)
      case (true, None, Some(_)) => true
      case _ => false;
    all := all + [LayerResult("hmac", hmacOk)];
    if seal.ed25519.Some? {
      if seal.ed25519PublicKey.None? {
        return Err(MissingPublicKey);
      }
      var pk := c.parsePublicPem(seal.ed25519PublicKey.value);
      if pk.None? {
        return Err(KeyError);
      }
      var edOk := match (preimageOk, Hex.Decode0x(seal.ed25519.value.sig))
        case (true, Some(sig)) => c.verify(pk.value, computed, sig)
        case _ => false;
      all := all + [LayerResult("ed25519", edOk)];
      assert all == results + [LayerResult("hmac", hmacOk), LayerResult("ed25519", edOk)];
    }
    return Ok(all);
  }

  // ---------- The verifiers agree ----------

  /** The key the record-level verifier falls back on is the one in the seal block. */
  lemma EmbeddedKeyIsRead(v: Json, s: SealBlock)
    requires SealFromJson(v) == Some(s)
    ensures AsString(Field(v, "ed25519PublicKey")) == s.ed25519PublicKey
  {
    hide HmacFromJson, Ed25519FromJson;
    var fields := Fields(v, SEAL_KEYS);
    assert SEAL_KEYS[5] == "ed25519PublicKey";
    assert fields[5] == Field(v, SEAL_KEYS[5]);
  }

  /** A key that is passed is the one that counts, and the embedded one does only
      if none is passed. */
  lemma VerifyReadsRecord(c: Crypto, record: Json, r: SealedRecord, key: Bytes, pem: Option<string>)
    requires DetectSchema(record) == None && RecordFromJson(record) == Some(r)
    ensures pem.Some? ==> Verify(c, record, key, pem) == VerifySeal(c, r.payload, r.seal, key, pem)
    ensures pem.None? ==> Verify(c, record, key, pem) == VerifySeal(c, r.payload, r.seal, key, r.seal.ed25519PublicKey)
  {
    hide SealFromJson, VerifySeal;
    EmbeddedKeyIsRead(Field(record, "seal").value, r.seal);
  }

  lemma NoRecordNoVerdict(c: Crypto, record: Json, key: Bytes, pem: Option<string>)
    requires DetectSchema(record) != None || RecordFromJson(record) == None
    ensures Verify(c, record, key, pem).Err?
  {
    hide SealFromJson, VerifySeal;
  }

  /** The text `pem` is a key under which the text `sig` is a signature of `m`. */
  predicate SignedUnder(c: Crypto, pem: string, sig: string, m: Bytes) {
    && c.parsePublicPem(pem).Some? && Hex.Decode0x(sig).Some?
    && c.verify(c.parsePublicPem(pem).value, m, Hex.Decode0x(sig).value)
  }

  /** The record-level verifier says yes exactly to a current record whose stored
      preimage is that of payload and time, whose tag is the MAC of it, and whose
      signature, if there is one, verifies it under the key that was passed, or
      under the embedded one if none was. */
  lemma VerifyMeans(c: Crypto, record: Json, key: Bytes, pem: Option<string>)
    ensures Verify(c, record, key, pem) == Ok(true) <==>
      DetectSchema(record) == None && RecordFromJson(record).Some? &&
      var (p, seal) := (RecordFromJson(record).value.payload, RecordFromJson(record).value.seal);
      var m := Preimage.BuildPreimage(p, seal.sealedAt);
      Hex.Decode0x(seal.preimage) == Some(m) && Hex.Decode0x(seal.hmac.sig) == Some(c.mac(key, m)) &&
      (seal.ed25519.Some? && pem.Some? ==> SignedUnder(c, pem.value, seal.ed25519.value.sig, m)) &&
      (seal.ed25519.Some? && pem.None? ==>
        seal.ed25519PublicKey.Some? && SignedUnder(c, seal.ed25519PublicKey.value, seal.ed25519.value.sig, m))
  {
    hide Verify, DetectSchema, RecordFromJson, Preimage.BuildPreimage, Hex.Decode0x;
    if DetectSchema(record) == None && RecordFromJson(record).Some? {
      VerifyReadsRecord(c, record, RecordFromJson(record).value, key, pem);
    } else {
      NoRecordNoVerdict(c, record, key, pem);
    }
  }

  lemma SealIsWritable(c: Crypto, payload: Json, keyHmac: Bytes, ed: Option<SigningKey>, t: string)
    requires WF(payload)
    ensures Writable(SealDeterministic(c, payload, keyHmac, ed, t))
  {
    hide WF;
  }

  /** A record that was sealed and written verifies under the MAC key and the
      public key it was sealed for, and under another MAC key exactly if that key
      gives the same tag. */
  lemma SealedRecordVerifies(c: Crypto, payload: Json, keyHmac: Bytes, ed: Option<SigningKey>, t: string, key: Bytes)
    requires LawfulKeys(c) && WF(payload)
    ensures
      var record := RecordJson(SealDeterministic(c, payload, keyHmac, ed, t));
      var pem := if ed.Some? then Some(c.publicPem(c.publicOf(ed.value))) else None;
      var m := Preimage.BuildPreimage(payload, t);
      Verify(c, record, key, pem) == Ok(true) <==> c.mac(key, m) == c.mac(keyHmac, m)
  {
    hide Verify, RecordJson, DetectSchema, RecordFromJson, Preimage.BuildPreimage, Hex.Decode0x, Hex.Encode0x, Writable;
    var (r, m) := (SealDeterministic(c, payload, keyHmac, ed, t), Preimage.BuildPreimage(payload, t));
    var pem := if ed.Some? then Some(c.publicPem(c.publicOf(ed.value))) else None;
    SealIsWritable(c, payload, keyHmac, ed, t);
    WrittenIsCurrent(r);
    VerifyMeans(c, RecordJson(r), key, pem);
    Hex.Decode0xOfEncode0x(m);
    Hex.Decode0xOfEncode0x(c.mac(keyHmac, m));
    if ed.Some? {
      Hex.Decode0xOfEncode0x(c.sign(ed.value, m));
    }
  }

  /** With a key passed the answer does not depend on the embedded one. */
  lemma ExplicitKeyDecides(c: Crypto, record: Json, r: SealedRecord, other: Json, embedded: Option<string>, key: Bytes, pem: string)
    requires DetectSchema(record) == None && RecordFromJson(record) == Some(r)
    requires DetectSchema(other) == None && RecordFromJson(other) == Some(r.(seal := r.seal.(ed25519PublicKey := embedded)))
    ensures Verify(c, record, key, Some(pem)) == Verify(c, other, key, Some(pem))
  {
    hide Verify, DetectSchema, RecordFromJson, Preimage.BuildPreimage, Hex.Decode0x;
    VerifyReadsRecord(c, record, r, key, Some(pem));
    VerifyReadsRecord(c, other, r.(seal := r.seal.(ed25519PublicKey := embedded)), key, Some(pem));
  }

  /** A record of the old flat form is refused as such: exactly when there is no
      current seal block but a time at the top. */
  lemma OldRecordsAreRefused(c: Crypto, record: Json, key: Bytes, pem: Option<string>)
    ensures Verify(c, record, key, pem) == Err(UnsupportedSchemaV3) <==>
      AsString(Field(record, "sealedAt")).Some? &&
      (Field(record, "seal").None? || AsString(Field(Field(record, "seal").value, "sealedAt")).None?)
  {
    hide SealFromJson, Preimage.BuildPreimage, Hex.Decode0x;
  }

  /** The two verifiers agree, given the MAC key and no explicit public key: a
      result of the layers is their conjunction, success is success of all, and
      they part only where a mismatch is measured before a missing or unusable
      public key is noticed. */
  lemma VerifiersAgree(c: Crypto, record: Json, r: SealedRecord, key: Bytes)
    requires DetectSchema(record) == None && RecordFromJson(record) == Some(r)
    ensures
      var (v, rs) := (Verify(c, record, key, None), CryptoLayers(c, r.payload, r.seal, Some(key)));
      (rs.Ok? ==> v == Ok(AllOk(rs.value))) &&
      (v == Ok(true) ==> rs.Ok? && AllOk(rs.value)) &&
      (rs.Err? ==> v == Err(rs.error) || v == Ok(false)) &&
      (rs.Err? && v == Ok(false) <==>
        Hex.Decode0x(r.seal.preimage).Some? && !HmacOk(c, r.payload, r.seal, Some(key)) && r.seal.ed25519.Some? &&
        (r.seal.ed25519PublicKey.None? || c.parsePublicPem(r.seal.ed25519PublicKey.value).None?))
  {
    hide Verify, RecordFromJson, DetectSchema, Preimage.BuildPreimage, Hex.Decode0x;
    VerifyReadsRecord(c, record, r, key, None);
    var layers := CryptoLayers(c, r.payload, r.seal, Some(key));
    if layers.Ok? {
      AllOkUnfolds(layers.value);
    }
  }

  lemma AllOkUnfolds(rs: seq<LayerResult>)
    ensures |rs| == 1 ==> AllOk(rs) == rs[0].ok
    ensures |rs| == 2 ==> AllOk(rs) == (rs[0].ok && rs[1].ok)
  {
  }

  // ---------- What tampering shows ----------

  /** A sealed record with its public key embedded. */
  function SealWithKey(c: Crypto, payload: Json, keyHmac: Bytes, sk: SigningKey, sealedAt: string): SealedRecord {
    var r := SealDeterministic(c, payload, keyHmac, Some(sk), sealedAt);
    r.(seal := r.seal.(ed25519PublicKey := Some(c.publicPem(c.publicOf(sk)))))
  }

  function BothLayers(ok: bool): seq<LayerResult> {
    [LayerResult("hmac", ok), LayerResult("ed25519", ok)]
  }

  /** Replace payload and time of a sealed record: both layers stay ok exactly
      when the time is the same and the payload differs by noise only, and
      otherwise both fail. */
  lemma TamperIsMeasured(c: Crypto, p: Json, t: string, keyHmac: Bytes, sk: SigningKey, q: Json, u: string)
    requires LawfulKeys(c) && WF(p) && WF(q)
    ensures
      var same := t == u && Excluded.SameUpToNoise(p, q);
      var seal := SealWithKey(c, p, keyHmac, sk, t).seal.(sealedAt := u);
      CryptoLayers(c, q, seal, Some(keyHmac)) == Ok(BothLayers(same)) &&
      CryptoLayers(c, q, seal, None) == Ok(BothLayers(same))
  {
    hide Preimage.BuildPreimage, Excluded.SameUpToNoise, Hex.Decode0x, Hex.Encode0x;
    var m := Preimage.BuildPreimage(p, t);
    Preimage.PreimageEqualIff(p, t, q, u);
    Hex.Decode0xOfEncode0x(m);
    Hex.Decode0xOfEncode0x(c.mac(keyHmac, m));
    Hex.Decode0xOfEncode0x(c.sign(sk, m));
  }

  /** The tag and the signature made for `m` do not fit the other message `n`. */
  predicate NoForgery(c: Crypto, keyHmac: Bytes, sk: SigningKey, m: Bytes, n: Bytes) {
    && (c.mac(keyHmac, n) == c.mac(keyHmac, m) ==> n == m)
    && (c.verify(c.publicOf(sk), n, c.sign(sk, m)) ==> n == m)
  }

  /** With the stored preimage rewritten as well, both layers stay ok exactly
      when in addition the new text is the old one up to the case of its digits
      and the optional prefix; text that is not hexadecimal is a structural error. */
  lemma RewritingPreimageIsMeasured(c: Crypto, p: Json, t: string, keyHmac: Bytes, sk: SigningKey, q: Json, u: string, s: string)
    requires LawfulKeys(c) && WF(p) && WF(q)
    requires NoForgery(c, keyHmac, sk, Preimage.BuildPreimage(p, t), Preimage.BuildPreimage(q, u))
    ensures
      var sealed := SealWithKey(c, p, keyHmac, sk, t).seal;
      var same := t == u && Excluded.SameUpToNoise(p, q) &&
        "0x" + Hex.LowerAll(Hex.Strip0x(s)) == sealed.preimage;
      CryptoLayers(c, q, sealed.(sealedAt := u, preimage := s), Some(keyHmac)) ==
        if Hex.Decode0x(s).None? then Err(InvalidPreimage) else Ok(BothLayers(same))
  {
    hide Preimage.BuildPreimage, Excluded.SameUpToNoise, Hex.Decode, Hex.Encode, Hex.LowerAll, Hex.Strip0x;
    var (m, n) := (Preimage.BuildPreimage(p, t), Preimage.BuildPreimage(q, u));
    Preimage.PreimageEqualIff(p, t, q, u);
    Hex.Decode0xOfEncode0x(c.mac(keyHmac, m));
    Hex.Decode0xOfEncode0x(c.sign(sk, m));
    Hex.DecodeExact(Hex.Strip0x(s), m);
    SamePrefix(Hex.LowerAll(Hex.Strip0x(s)), Hex.Encode(m));
    HmacOfRewritten(c, p, t, keyHmac, sk, q, u, s);
  }

  lemma SamePrefix(a: string, b: string)
    ensures "0x" + a == "0x" + b <==> a == b
  {
    assert ("0x" + a)[2..] == a && ("0x" + b)[2..] == b;
  }

  lemma HmacOfRewritten(c: Crypto, p: Json, t: string, keyHmac: Bytes, sk: SigningKey, q: Json, u: string, s: string)
    requires LawfulKeys(c) && NoForgery(c, keyHmac, sk, Preimage.BuildPreimage(p, t), Preimage.BuildPreimage(q, u))
    ensures
      var seal := SealWithKey(c, p, keyHmac, sk, t).seal.(sealedAt := u, preimage := s);
      var (m, n) := (Preimage.BuildPreimage(p, t), Preimage.BuildPreimage(q, u));
      CryptoLayers(c, q, seal, Some(keyHmac)) ==
        if Hex.Decode0x(s).None? then Err(InvalidPreimage) else Ok(BothLayers(n == m && Hex.Decode0x(s) == Some(m)))
  {
    hide Preimage.BuildPreimage, Hex.Decode0x, Hex.Encode0x;
    var m := Preimage.BuildPreimage(p, t);
    Hex.Decode0xOfEncode0x(c.mac(keyHmac, m));
    Hex.Decode0xOfEncode0x(c.sign(sk, m));
  }
}
