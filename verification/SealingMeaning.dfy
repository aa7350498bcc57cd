/** When a seal is made, and what the receipt says. */
module SealingMeaning {
  import opened Prelude
  import opened JsonNumber
  import opened Json
  import opened JsonAccess
  import opened Crypto
  import opened Record
  import opened Seal
  import opened Artifact
  import opened Paths
  import opened KeystoreSpec
  import opened Sealing
  import Hex
  import LayerMeaning
  import Preimage

  /** The payload describes the file: its hash, its name, its size and its media type. */
  lemma PayloadSays(s: Services, c: Crypto, path: Paths.Path, bytes: Bytes)
    requires path != []
    ensures
      var (p, name) := (PayloadOf(s, c, path, bytes), path[|path| - 1]);
      && AsString(Field(p, "artifactSha256")) == Some(Hex.Encode(c.sha256(bytes)))
      && AsString(Field(p, "path")) == Some(name) && AsInt(Field(p, "size")) == Some(|bytes|)
      && AsString(Field(p, "mime")) == Some(s.mimeOf(name))
  {
    hide Hex.Encode;
    var ms := PayloadOf(s, c, path, bytes).members;
    assert |ms[0].key| == 14 && |ms[1].key| == 4 && |ms[2].key| == 4 && |ms[3].key| == 4;
    assert ms[1].key[0] == 'p' && ms[2].key[0] == 's' && ms[3].key[0] == 'm';
    FieldAt(ms, 0, "artifactSha256");
    FieldAt(ms, 1, "path");
    FieldAt(ms, 2, "size");
    FieldAt(ms, 3, "mime");
  }

  /** The message that is sealed, its tag and its signature. */
  ghost predicate Signs(s: Services, c: Crypto, path: Paths.Path, bytes: Bytes, keys: Keys, at: string, m: Bytes, mac: Bytes, sig: Bytes) {
    && m == Preimage.BuildPreimage(PayloadOf(s, c, path, bytes), at)
    && mac == c.mac(keys.hmac, m) && sig == c.sign(keys.ed25519, m)
  }

  lemma BaseSays(s: Services, c: Crypto, path: Paths.Path, bytes: Bytes, keys: Keys, at: string, m: Bytes, mac: Bytes, sig: Bytes)
    requires Signs(s, c, path, bytes, keys, at, m, mac, sig)
    ensures
      var (base, seal) := (BaseRecord(s, c, path, bytes, keys, at), BaseRecord(s, c, path, bytes, keys, at).seal);
      && base.payload == PayloadOf(s, c, path, bytes) && seal.sealedAt == at
      && Hex.Decode0x(seal.preimage) == Some(m) && Hex.Decode0x(seal.hmac.sig) == Some(mac)
      && seal.ed25519.Some? && Hex.Decode0x(seal.ed25519.value.sig) == Some(sig)
      && seal.ed25519PublicKey == Some(keys.publicPem)
      && seal.tsa == None && seal.rekorAnchor == None && seal.c2paManifest == None && seal.c2paEmbedded == None
  {
    hide Hex.Encode0x, Hex.Decode0x, PayloadOf, Preimage.BuildPreimage;
    Hex.Decode0xOfEncode0x(m);
    Hex.Decode0xOfEncode0x(mac);
    Hex.Decode0xOfEncode0x(sig);
  }

  /** What a timestamp is asked for: the tag of the preimage, then its signature. */
  lemma StampedBytes(s: Services, c: Crypto, path: Paths.Path, bytes: Bytes, keys: Keys, at: string, m: Bytes, mac: Bytes, sig: Bytes)
    requires Signs(s, c, path, bytes, keys, at, m, mac, sig)
    ensures ToStamp(BaseRecord(s, c, path, bytes, keys, at).seal) == Some(mac + sig)
  {
    hide Hex.Decode0x, BaseRecord, Signs;
    BaseSays(s, c, path, bytes, keys, at, m, mac, sig);
  }

  /** A receipt is made exactly when every layer that was asked for is delivered;
      otherwise the error names the first that is not. */
  lemma RecordIsMade(s: Services, c: Crypto, path: Paths.Path, bytes: Bytes, keys: Keys, at: string, o: Options,
                     m: Bytes, mac: Bytes, sig: Bytes)
    requires Signs(s, c, path, bytes, keys, at, m, mac, sig)
    ensures
      var (r, key) := (RecordOf(s, c, path, bytes, keys, at, o), keys.ed25519);
      if o.c2pa && !o.embed && s.emitSidecar(PayloadOf(s, c, path, bytes), key, o.aiGenerated).None? then
        r == Err(SealError.C2pa)
      else if o.tsa.Some? && s.requestToken(mac + sig, o.tsa.value).None? then
        r == Err(SealError.Tsa)
      else if o.rekor.Some? && (s.checkShard(o.rekor.value).None? || s.submit(m, key, o.rekor.value).None?) then
        r == Err(SealError.Rekor)
      else
        r.Ok?
  {
    hide Hex.Encode0x, Hex.Decode0x, PayloadOf, WithActiveness, TokenJson, BaseRecord, Signs, ToStamp;
    var base := BaseRecord(s, c, path, bytes, keys, at);
    BaseSays(s, c, path, bytes, keys, at, m, mac, sig);
    StampedBytes(s, c, path, bytes, keys, at, m, mac, sig);
    if WithC2pa(s, keys.ed25519, o, base).Ok? {
      var r1 := WithC2pa(s, keys.ed25519, o, base).value;
      SiblingsDoNotMatter(c, base.payload, r1.seal, base.seal, None);
    }
  }

  /** The bytes to seal are the file's own, or with `embed` the asset made of them;
      an asset is made exactly for an embeddable extension for which the library
      succeeds. */
  lemma FinalBytesAre(s: Services, path: Paths.Path, bytes: Bytes, key: SigningKey, o: Options, ext: string)
    requires path != []
    requires ext == if s.extensionOf(path[|path| - 1]).Some? then s.extensionOf(path[|path| - 1]).value else ""
    ensures !o.embed ==> FinalBytes(s, path, bytes, key, o) == Ok(bytes)
    ensures o.embed && s.embeddable(ext) && s.embed(bytes, ext, key, o.aiGenerated).Some? ==>
              FinalBytes(s, path, bytes, key, o) == Ok(s.embed(bytes, ext, key, o.aiGenerated).value)
    ensures o.embed && !(s.embeddable(ext) && s.embed(bytes, ext, key, o.aiGenerated).Some?) ==>
              FinalBytes(s, path, bytes, key, o) == Err(SealError.C2pa)
  {
  }

  lemma TokenSays(t: Token)
    ensures
      var v := TokenJson(t);
      && AsString(Field(v, "authority")) == Some(t.authority) && AsString(Field(v, "issuedAt")) == Some(t.issuedAt)
      && AsString(Field(v, "der")).Some? && Hex.Decode0x(AsString(Field(v, "der")).value) == Some(t.der)
  {
    hide Hex.Encode0x, Hex.Decode0x;
    var ms := TokenJson(t).members;
    assert |ms[0].key| == 9 && |ms[1].key| == 8 && |ms[2].key| == 3;
    FieldAt(ms, 0, "authority");
    FieldAt(ms, 1, "issuedAt");
    FieldAt(ms, 2, "der");
    Hex.Decode0xOfEncode0x(t.der);
  }

  /** The core of a receipt: payload, time, preimage, tag, signature and public key. */
  lemma ReceiptSays(s: Services, c: Crypto, path: Paths.Path, bytes: Bytes, keys: Keys, at: string, o: Options,
                     m: Bytes, mac: Bytes, sig: Bytes)
    requires Signs(s, c, path, bytes, keys, at, m, mac, sig) && RecordOf(s, c, path, bytes, keys, at, o).Ok?
    ensures
      var (r, seal) := (RecordOf(s, c, path, bytes, keys, at, o).value, RecordOf(s, c, path, bytes, keys, at, o).value.seal);
      && r.payload == PayloadOf(s, c, path, bytes) && seal.sealedAt == at
      && Hex.Decode0x(seal.preimage) == Some(m) && Hex.Decode0x(seal.hmac.sig) == Some(mac)
      && seal.ed25519.Some? && Hex.Decode0x(seal.ed25519.value.sig) == Some(sig)
      && seal.ed25519PublicKey == Some(keys.publicPem)
  {
    hide Hex.Decode0x, PayloadOf, BaseRecord, RecordOf, Signs, WithActiveness, TokenJson, WithC2pa, ToStamp;
    BaseSays(s, c, path, bytes, keys, at, m, mac, sig);
    RecordShape(s, c, path, bytes, keys, at, o);
  }

  /** The optional layers of a receipt: exactly those asked for, each as the
      service delivered it for this seal. */
  lemma ReceiptCarries(s: Services, c: Crypto, path: Paths.Path, bytes: Bytes, keys: Keys, at: string, o: Options,
                     m: Bytes, mac: Bytes, sig: Bytes)
    requires Signs(s, c, path, bytes, keys, at, m, mac, sig) && RecordOf(s, c, path, bytes, keys, at, o).Ok?
    ensures
      var (r, key) := (RecordOf(s, c, path, bytes, keys, at, o).value, keys.ed25519);
      && (r.seal.c2paEmbedded == if o.c2pa && o.embed then Some(true) else None)
      && (r.seal.c2paManifest.Some? <==> o.c2pa && !o.embed)
      && (o.c2pa && !o.embed ==> Hex.Decode0x(r.seal.c2paManifest.value) == s.emitSidecar(r.payload, key, o.aiGenerated))
      && (r.seal.tsa.Some? <==> o.tsa.Some?)
      && (o.tsa.Some? ==> s.requestToken(mac + sig, o.tsa.value).Some? &&
                          r.seal.tsa == Some(TokenJson(s.requestToken(mac + sig, o.tsa.value).value)))
      && (r.seal.rekorAnchor.Some? <==> o.rekor.Some?)
      && (o.rekor.Some? ==> s.checkShard(o.rekor.value).Some? && s.submit(m, key, o.rekor.value).Some? &&
                            r.seal.rekorAnchor == Some(WithActiveness(s.submit(m, key, o.rekor.value).value,
                                                                      s.checkShard(o.rekor.value).value)))
  {
    hide Hex.Encode0x, Hex.Decode0x, PayloadOf, BaseRecord, RecordOf, Signs, WithActiveness, TokenJson, ToStamp;
    BaseSays(s, c, path, bytes, keys, at, m, mac, sig);
    StampedBytes(s, c, path, bytes, keys, at, m, mac, sig);
    RecordShape(s, c, path, bytes, keys, at, o);
    if o.c2pa && !o.embed {
      Hex.Decode0xOfEncode0x(s.emitSidecar(PayloadOf(s, c, path, bytes), keys.ed25519, o.aiGenerated).value);
    }
  }

  /** The activeness of the shard stands beside the anchor that was returned. */
  lemma NoteSays(anchor: Json, activeness: string)
    requires anchor.Obj?
    ensures AsString(Field(WithActiveness(anchor, activeness), "shardActiveness")) == Some(activeness)
  {
    LookupInPut(anchor.members, Member(ACTIVENESS_KEY, Str(activeness)), ACTIVENESS_KEY);
  }

  /** A token that verifies for nothing but what it was issued for, put beside
      another seal: that layer is good exactly if MAC and signature are the same. */
  lemma TokenIsBound(s: Services, c: Crypto, path: Paths.Path, bytes: Bytes, keys: Keys, at: string, o: Options,
                     m: Bytes, mac: Bytes, sig: Bytes, other: SealedRecord, file: Bytes, key: Option<Bytes>)
    requires Signs(s, c, path, bytes, keys, at, m, mac, sig) && RecordOf(s, c, path, bytes, keys, at, o).Ok? && o.tsa.Some?
    requires s.requestToken(mac + sig, o.tsa.value).Some? ==>
               forall x :: s.verifyToken(s.requestToken(mac + sig, o.tsa.value).value.der, x) <==> x == mac + sig
    requires other.seal.tsa == RecordOf(s, c, path, bytes, keys, at, o).value.seal.tsa
    requires VerifyBytes(s, c, file, other, key).Ok?
    requires Hex.Decode0x(other.seal.hmac.sig).Some? && |Hex.Decode0x(other.seal.hmac.sig).value| == |mac|
    ensures LayerResult("tsa", true) in VerifyBytes(s, c, file, other, key).value <==>
      other.seal.ed25519.Some? && Hex.Decode0x(other.seal.hmac.sig) == Some(mac) &&
      Hex.Decode0x(other.seal.ed25519.value.sig) == Some(sig)
  {
    hide Signs, RecordOf, VerifyBytes, TokenJson, Hex.Decode0x, WithActiveness, PayloadOf;
    ReceiptCarries(s, c, path, bytes, keys, at, o, m, mac, sig);
    var token := s.requestToken(mac + sig, o.tsa.value).value;
    TokenSays(token);
    LayerMeaning.TokenFitsExactly(s, c, file, other, key, token.der, mac, sig);
  }
}
