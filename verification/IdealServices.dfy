/** What is asked of the services can be met while every one of them succeeds:
    an instance of `Sealing.Honest`. */
module IdealServices {
  import opened Prelude
  import opened Json
  import opened Crypto
  import opened Artifact
  import Hex
  import IdealCrypto
  import Merkle
  import Rekor
  import Sealing
  import Utf8

  function Zeros(n: nat): (z: Bytes)
    ensures |z| == n
  {
    if n == 0 then [] else [0] + Zeros(n - 1)
  }

  const DIGEST := Zeros(Merkle.DIGEST_LEN)

  /** The asset, after the name of who embedded the manifest. */
  function Embed(b: Bytes, key: SigningKey): Bytes {
    IdealCrypto.Mark(key) + b
  }

  function Owner(b: Bytes): Bytes {
    if |b| < 2 || b[0] == 0 then [] else [b[1]] + Owner(b[2..])
  }

  lemma {:induction false} OwnerOfEmbedded(b: Bytes, key: SigningKey)
    ensures Owner(Embed(b, key)) == key
  {
    if key != [] {
      OwnerOfEmbedded(b, key[1..]);
      assert Embed(b, key)[2..] == Embed(b, key[1..]);
    }
  }

  /** A log that holds the one entry just submitted. */
  const LOG := Rekor.Library(
    m => DIGEST, text => Hex.Decode(text), text => Some(Rekor.Checkpoint(DIGEST, 1, [], [[]])), text => Some([]),
    (key, sig, m) => true)

  /** The anchor of the only entry of the log. */
  function LoneAnchor(body: Bytes): Rekor.Anchor {
    Rekor.Anchor(0, "log", 0, Rekor.InclusionProof(0, 1, Hex.Encode(DIGEST), [], ""), Hex.Encode(body), Null, Null)
  }

  function AnchorOf(body: Bytes): Json {
    Rekor.AnchorJson(LoneAnchor(body))
  }

  const INSTANCE := Services(
    name => None, name => "", ext => ext != "", (b, ext, key, ai) => Some(Embed(b, key)), (b, ext) => Some(true),
    (b, ext) => Some(Some(Owner(b))), (p, key, ai) => Some(Utf8.Encode(PayloadHash(IdealCrypto.INSTANCE, p))),
    (b, hash) => Some(b == Utf8.Encode(hash)), (m, url) => Some(Token("", "", m)), (der, m) => der == m,
    url => Some("active"), (m, key, url) => Some(AnchorOf(m)), LOG, [Rekor.ShardKey("log", "", "")])

  lemma LogOfOne(body: Bytes)
    ensures Merkle.TreeHash(LOG.sha256, [body]) == DIGEST && Merkle.AuditPath(LOG.sha256, 0, [body]) == []
  {
    hide Zeros;
  }

  lemma AnchorOfOne(body: Bytes, a: Rekor.Anchor)
    requires a.canonicalizedBody == Hex.Encode(body)
    requires a.proof == Rekor.InclusionProof(0, 1, Hex.Encode(DIGEST), [], "")
    ensures Rekor.Anchors(LOG, a, "", 0, [body])
  {
    hide Hex.Encode, Hex.Decode, DIGEST, Merkle.TreeHash, Merkle.AuditPath;
    Hex.DecodeOfEncode(body);
    LogOfOne(body);
    var c := LOG.parseCheckpoint("").value;
    assert LOG.verifyEd25519([], c.signatures[0], c.signedData);
  }

  lemma AnchorIsInLog(s: Services, shard: Rekor.ShardKey, body: Bytes)
    requires s.log == LOG && s.shards == [shard] && shard.logId == "log" && shard.publicKeyPem == ""
    ensures Sealing.InPinnedLog(s, AnchorOf(body))
  {
    hide Rekor.AnchorJson, Rekor.AnchorFromJson, Rekor.Anchors, Hex.Encode, LOG, DIGEST, WF;
    var a := LoneAnchor(body);
    Rekor.AnchorRoundTrip(a);
    NullIsWF();
    Rekor.AnchorIsWF(a);
    AnchorOfOne(body, a);
    assert Rekor.Anchors(s.log, a, Rekor.ResolveShard(s.shards, a.logId).value.publicKeyPem, 0, [body]);
  }

  lemma NullIsWF()
    ensures WF(Null)
  {
  }

  lemma HonestyCanHold()
    ensures Sealing.Honest(INSTANCE, IdealCrypto.INSTANCE)
    ensures forall b, ext, key, ai :: INSTANCE.embed(b, ext, key, ai).Some?
    ensures forall p, key, ai :: INSTANCE.emitSidecar(p, key, ai).Some?
    ensures forall m, url :: INSTANCE.requestToken(m, url).Some?
    ensures forall m, key, url :: INSTANCE.submit(m, key, url).Some? && INSTANCE.checkShard(url).Some?
  {
    hide AnchorOf, PayloadHash, Sealing.InPinnedLog, Owner, Embed;
    forall b: Bytes, key: Bytes ensures Owner(Embed(b, key)) == key {
      OwnerOfEmbedded(b, key);
    }
    forall m: Bytes ensures Sealing.InPinnedLog(INSTANCE, AnchorOf(m)) {
      AnchorIsInLog(INSTANCE, INSTANCE.shards[0], m);
    }
  }
}
