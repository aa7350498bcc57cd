/** Offline verification of a transparency-log anchor. Parsing of base64, PEM and
    checkpoint text and the signature check are foreign code and enter as functions. */
module Rekor {
  import opened Prelude
  import opened Json
  import opened JsonAccess
  import opened JsonNumber
  import Hex
  import Merkle
  import Inclusion
  import Record
  import Sorting

  datatype InclusionProof = InclusionProof(
    logIndex: int, treeSize: int, rootHash: string, hashes: seq<string>, checkpoint: string)

  datatype Anchor = Anchor(
    logIndex: int, logId: string, integratedTime: int, proof: InclusionProof,
    canonicalizedBody: string, envelope: Json, verifier: Json)

  datatype ShardKey = ShardKey(logId: string, origin: string, publicKeyPem: string)

  /** A parsed checkpoint: the root and size it commits to, the signed text and the signatures. */
  datatype Checkpoint = Checkpoint(rootHash: Bytes, treeSize: nat, signedData: Bytes, signatures: seq<Bytes>)

  datatype Library = Library(
    sha256: Merkle.Hash,
    fromBase64: string -> Option<Bytes>,
    parseCheckpoint: string -> Option<Checkpoint>,
    parseKey: string -> Option<Bytes>,
    verifyEd25519: (Bytes, Bytes, Bytes) -> bool)

  /** The result of checking an anchor; every case but the first is a measured failure. */
  datatype Outcome =
    | Verified
    | UnknownKey
    | BodyNotBase64
    | RootHashInvalid
    | ProofHashInvalid(i: nat)
    | NegativeIndexOrSize
    | InclusionFailed
    | CheckpointInvalid
    | RootMismatch
    | ShardKeyInvalid
    | SignatureInvalid

  function ResolveShard(shards: seq<ShardKey>, logId: string): (r: Option<ShardKey>)
    ensures r.None? ==> forall i | 0 <= i < |shards| :: shards[i].logId != logId
    ensures r.Some? ==> exists i | 0 <= i < |shards| ::
      shards[i] == r.value && shards[i].logId == logId && forall j | 0 <= j < i :: shards[j].logId != logId
  {
    if shards == [] then None
    else if shards[0].logId == logId then Some(shards[0])
    else ResolveShard(shards[1..], logId)
  }

  function ParseHash(text: string): Option<Bytes> {
    match Hex.Decode(text)
    case None => None
    case Some(bs) => if |bs| == Merkle.DIGEST_LEN then Some(bs) else None
  }

  /** The proof hashes, or the index of the first that is not one. */
  function ParseHashes(texts: seq<string>): (r: Result<seq<Bytes>, nat>)
    ensures r.Ok? ==> |r.value| == |texts| && Inclusion.AllSized(r.value)
    ensures r.Ok? <==> forall i | 0 <= i < |texts| :: ParseHash(texts[i]).Some?
    ensures r.Ok? ==> forall i | 0 <= i < |texts| :: ParseHash(texts[i]) == Some(r.value[i])
    ensures r.Err? ==> r.error < |texts| && ParseHash(texts[r.error]).None? &&
                       forall i | 0 <= i < r.error :: ParseHash(texts[i]).Some?
  {
    if texts == [] then
      Ok([])
    else
      match ParseHash(texts[0])
      case None => Err(0)
      case Some(bs) =>
        match ParseHashes(texts[1..])
        case Err(i) => Err(i + 1)
        case Ok(rest) => Ok([bs] + rest)
  }

  predicate SignedBy(lib: Library, key: Bytes, c: Checkpoint) {
    exists i | 0 <= i < |c.signatures| :: lib.verifyEd25519(key, c.signatures[i], c.signedData)
  }

  /** Everything an accepted anchor has shown about the leaf bytes `body`. */
  ghost predicate Shows(lib: Library, a: Anchor, pem: string, body: Bytes) {
    var p := a.proof;
    && lib.fromBase64(a.canonicalizedBody) == Some(body)
    && p.logIndex >= 0 && p.treeSize >= 0
    && ParseHash(p.rootHash).Some? && ParseHashes(p.hashes).Ok?
    && Merkle.Included(lib.sha256, Merkle.LeafHash(lib.sha256, body), p.logIndex, p.treeSize,
                       ParseHashes(p.hashes).value, ParseHash(p.rootHash).value)
    && lib.parseCheckpoint(p.checkpoint).Some?
    && lib.parseCheckpoint(p.checkpoint).value.rootHash == ParseHash(p.rootHash).value
    && lib.parseKey(pem).Some?
    && SignedBy(lib, lib.parseKey(pem).value, lib.parseCheckpoint(p.checkpoint).value)
  }

  /** The verdict on an anchor: the first check that fails, in the order they are made. */
  function Judge(lib: Library, a: Anchor, shardPem: Option<string>): Outcome {
    var p := a.proof;
    if shardPem.None? then UnknownKey
    else if lib.fromBase64(a.canonicalizedBody).None? then BodyNotBase64
    else if ParseHash(p.rootHash).None? then RootHashInvalid
    else if ParseHashes(p.hashes).Err? then ProofHashInvalid(ParseHashes(p.hashes).error)
    else if p.logIndex < 0 || p.treeSize < 0 then NegativeIndexOrSize
    else if !Merkle.Included(lib.sha256, Merkle.LeafHash(lib.sha256, lib.fromBase64(a.canonicalizedBody).value),
                             p.logIndex, p.treeSize, ParseHashes(p.hashes).value, ParseHash(p.rootHash).value)
    then InclusionFailed
    else JudgeCheckpoint(lib, lib.parseCheckpoint(p.checkpoint), ParseHash(p.rootHash).value, lib.parseKey(shardPem.value))
  }

  function JudgeCheckpoint(lib: Library, c: Option<Checkpoint>, root: Bytes, key: Option<Bytes>): Outcome {
    if c.None? then CheckpointInvalid
    else if c.value.rootHash != root then RootMismatch
    else if key.None? then ShardKeyInvalid
    else if SignedBy(lib, key.value, c.value) then Verified
    else SignatureInvalid
  }

  lemma VerifiedShows(lib: Library, a: Anchor, shardPem: Option<string>)
    ensures Judge(lib, a, shardPem) == Verified <==>
      shardPem.Some? && lib.fromBase64(a.canonicalizedBody).Some? &&
      Shows(lib, a, shardPem.value, lib.fromBase64(a.canonicalizedBody).value)
  {
  }

  /** Decode the proof hashes one by one, stopping at the first that is not a hash. */
  method DecodeHashes(texts: seq<string>) returns (r: Result<seq<Bytes>, nat>)
    ensures r == ParseHashes(texts)
  {
    var hashes: seq<Bytes> := [];
    for i := 0 to |texts|
      invariant |hashes| == i
      invariant forall j | 0 <= j < i :: ParseHash(texts[j]) == Some(hashes[j])
    {
      var hash := ParseHash(texts[i]);
      if hash.None? {
        return Err(i);
      }
      hashes := hashes + [hash.value];
    }
    assert hashes == ParseHashes(texts).value;
    return Ok(hashes);
  }

  /** Check the anchor against the configured shard key: Merkle inclusion first,
      then the checkpoint's root and signature. */
  method VerifyAnchor(lib: Library, a: Anchor, shardPem: Option<string>) returns (r: Outcome)
    ensures r == Judge(lib, a, shardPem)
  {
    if shardPem.None? {
      return UnknownKey;
    }
    var body := lib.fromBase64(a.canonicalizedBody);
    if body.None? {
      return BodyNotBase64;
    }
    var leaf := Merkle.LeafHash(lib.sha256, body.value);
    var root := ParseHash(a.proof.rootHash);
    if root.None? {
      return RootHashInvalid;
    }
    var hashes := DecodeHashes(a.proof.hashes);
    if hashes.Err? {
      return ProofHashInvalid(hashes.error);
    }
    if a.proof.logIndex < 0 || a.proof.treeSize < 0 {
      return NegativeIndexOrSize;
    }
    var included := Merkle.VerifyInclusion(
      lib.sha256, leaf, a.proof.logIndex, a.proof.treeSize, hashes.value, root.value);
    if !included {
      return InclusionFailed;
    }
    var checkpoint := lib.parseCheckpoint(a.proof.checkpoint);
    if checkpoint.None? {
      return CheckpointInvalid;
    }
    if checkpoint.value.rootHash != root.value {
      return RootMismatch;
    }
    var key := lib.parseKey(shardPem.value);
    if key.None? {
      return ShardKeyInvalid;
    }
    var verified := CheckSignatures(lib, key.value, checkpoint.value);
    return if verified then Verified else SignatureInvalid;
  }

  /** Try the checkpoint's signatures in turn until one verifies. */
  method CheckSignatures(lib: Library, key: Bytes, c: Checkpoint) returns (verified: bool)
    ensures verified == SignedBy(lib, key, c)
  {
    verified := false;
    for i := 0 to |c.signatures|
      invariant !verified
      invariant forall j | 0 <= j < i :: !lib.verifyEd25519(key, c.signatures[j], c.signedData)
    {
      if lib.verifyEd25519(key, c.signatures[i], c.signedData) {
        verified := true;
        break;
      }
    }
  }

  /** The steps the claimed index and size call for, given the proof's hashes. */
  function ClaimedSteps(p: InclusionProof): Option<seq<Merkle.Step>>
    requires 0 <= p.logIndex < p.treeSize && ParseHashes(p.hashes).Ok?
  {
    Merkle.Steps(p.logIndex, p.treeSize, ParseHashes(p.hashes).value)
  }

  /** If the pinned log signed the root of a log with leaves `D`, an accepted
      anchor holds the body and the audit path of one leaf `i`. The claimed index
      is `i` exactly when the log's size calls for the same steps as the claimed
      size. It does if the claimed size is the log's, which a comparison with the
      size in the checkpoint would tell. */
  lemma AnchorIsSound(lib: Library, a: Anchor, pem: string, body: Bytes, D: seq<Bytes>) returns (i: nat)
    requires Judge(lib, a, Some(pem)) == Verified
    requires lib.fromBase64(a.canonicalizedBody) == Some(body)
    requires lib.parseCheckpoint(a.proof.checkpoint).value.rootHash == Merkle.TreeHash(lib.sha256, D)
    requires Inclusion.Sized(lib.sha256)
    requires a.proof.logIndex < a.proof.treeSize ==> Inclusion.NoClash(lib.sha256,
      Inclusion.CheckInputs(lib.sha256, body, a.proof.logIndex, a.proof.treeSize, ParseHashes(a.proof.hashes).value),
      Inclusion.TreeInputs(lib.sha256, D))
    ensures 0 <= a.proof.logIndex < a.proof.treeSize && ClaimedSteps(a.proof).Some?
    ensures Inclusion.IsLeaf(lib.sha256, body, ParseHashes(a.proof.hashes).value, ClaimedSteps(a.proof).value, D, i)
    ensures i == a.proof.logIndex <==>
      a.proof.logIndex < |D| && ClaimedSteps(a.proof.(treeSize := |D|)) == ClaimedSteps(a.proof)
    ensures
      var stated := lib.parseCheckpoint(a.proof.checkpoint).value.treeSize;
      stated == |D| && a.proof.treeSize == stated ==> i == a.proof.logIndex
    ensures
      a.proof.treeSize == |D| ==>
        i == a.proof.logIndex && body == D[a.proof.logIndex] &&
        ParseHashes(a.proof.hashes).value == Merkle.AuditPath(lib.sha256, a.proof.logIndex, D)
  {
    hide Merkle.Steps, Merkle.AuditPath, Merkle.TreeHash, Inclusion.NoClash, Inclusion.TreeInputs, ParseHashes;
    VerifiedShows(lib, a, Some(pem));
    var (hashes, p) := (ParseHashes(a.proof.hashes).value, a.proof);
    Inclusion.InclusionIsSound(lib.sha256, body, p.logIndex, p.treeSize, hashes, D);
    i :| Inclusion.IsLeaf(lib.sha256, body, hashes, Merkle.Steps(p.logIndex, p.treeSize, hashes).value, D, i);
    Inclusion.IndexIsRight(lib.sha256, body, p.logIndex, p.treeSize, hashes, D, i);
  }

  /** The anchor of leaf `m` of a log with leaves `D`: its audit path in
      hexadecimal, under a checkpoint of the log's root signed by the shard key. */
  ghost predicate Anchors(lib: Library, a: Anchor, pem: string, m: nat, D: seq<Bytes>) {
    && m < |D| && lib.fromBase64(a.canonicalizedBody) == Some(D[m])
    && a.proof.logIndex == m && a.proof.treeSize == |D|
    && a.proof.rootHash == Hex.Encode(Merkle.TreeHash(lib.sha256, D))
    && |a.proof.hashes| == |Merkle.AuditPath(lib.sha256, m, D)|
    && (forall i | 0 <= i < |a.proof.hashes| :: a.proof.hashes[i] == Hex.Encode(Merkle.AuditPath(lib.sha256, m, D)[i]))
    && lib.parseCheckpoint(a.proof.checkpoint).Some? && lib.parseKey(pem).Some?
    && lib.parseCheckpoint(a.proof.checkpoint).value.rootHash == Merkle.TreeHash(lib.sha256, D)
    && SignedBy(lib, lib.parseKey(pem).value, lib.parseCheckpoint(a.proof.checkpoint).value)
  }

  /** The anchor of any leaf of any log is accepted. */
  lemma AnchorIsComplete(lib: Library, a: Anchor, pem: string, m: nat, D: seq<Bytes>)
    requires Inclusion.Sized(lib.sha256) && Anchors(lib, a, pem, m, D)
    ensures Judge(lib, a, Some(pem)) == Verified
  {
    hide Merkle.AuditPath, Merkle.TreeHash, ParseHash, Merkle.Included, SignedBy;
    Inclusion.InclusionIsComplete(lib.sha256, m, D);
    HashesRead(lib, a, m, D);
  }

  lemma HashesRead(lib: Library, a: Anchor, m: nat, D: seq<Bytes>)
    requires Inclusion.Sized(lib.sha256) && m < |D|
    requires a.proof.rootHash == Hex.Encode(Merkle.TreeHash(lib.sha256, D))
    requires |a.proof.hashes| == |Merkle.AuditPath(lib.sha256, m, D)|
    requires forall i | 0 <= i < |a.proof.hashes| ::
      a.proof.hashes[i] == Hex.Encode(Merkle.AuditPath(lib.sha256, m, D)[i])
    ensures ParseHash(a.proof.rootHash) == Some(Merkle.TreeHash(lib.sha256, D))
    ensures ParseHashes(a.proof.hashes) == Ok(Merkle.AuditPath(lib.sha256, m, D))
  {
    hide Merkle.AuditPath, Merkle.TreeHash, Hex.Decode, Hex.Encode;
    var path := Merkle.AuditPath(lib.sha256, m, D);
    Inclusion.TreeSized(lib.sha256, D);
    Inclusion.AuditPathSized(lib.sha256, m, D);
    Hex.DecodeOfEncode(Merkle.TreeHash(lib.sha256, D));
    forall i | 0 <= i < |path| ensures ParseHash(a.proof.hashes[i]) == Some(path[i]) {
      Hex.DecodeOfEncode(path[i]);
    }
    assert ParseHashes(a.proof.hashes).value == path;
  }

  // ---------- The anchor in a receipt ----------

  function ProofFromJson(v: Json): Option<InclusionProof> {
    match (AsInt(Field(v, "logIndex")), AsInt(Field(v, "treeSize")), AsString(Field(v, "rootHash")),
           Field(v, "hashes"), AsString(Field(v, "checkpoint")))
    case (Some(i), Some(n), Some(root), Some(Arr(items)), Some(text)) =>
      (match AsStrings(items)
       case Some(hashes) => Some(InclusionProof(i, n, root, hashes, text))
       case None => None)
    case _ => None
  }

  /** The anchor read from a receipt; a missing or ill-typed field is a structural error. */
  function AnchorFromJson(v: Json): Option<Anchor> {
    var proof := Field(v, "inclusionProof");
    if proof.None? then
      None
    else
      match (ProofFromJson(proof.value), AsInt(Field(v, "logIndex")), AsString(Field(v, "logId")),
             AsInt(Field(v, "integratedTime")), AsString(Field(v, "canonicalizedBody")))
      case (Some(p), Some(i), Some(id), Some(t), Some(body)) =>
        (match (Field(v, "envelope"), Field(v, "verifier"))
         case (Some(envelope), Some(verifier)) => Some(Anchor(i, id, t, p, body, envelope, verifier))
         case _ => None)
      case _ => None
  }

  // ---------- Writing an anchor ----------

  const PROOF_KEYS: seq<string> := ["logIndex", "treeSize", "rootHash", "hashes", "checkpoint"]

  const ANCHOR_KEYS: seq<string> := [
    "logIndex", "logId", "integratedTime", "inclusionProof", "canonicalizedBody", "envelope", "verifier"
  ]

  function ProofValues(p: InclusionProof): (f: seq<Option<Json>>)
    ensures |f| == |PROOF_KEYS|
  {
    [Some(Num(Safe(p.logIndex))), Some(Num(Safe(p.treeSize))), Some(Str(p.rootHash)), Some(Arr(Texts(p.hashes))),
     Some(Str(p.checkpoint))]
  }

  function ProofJson(p: InclusionProof): Json {
    Obj(Record.Build(PROOF_KEYS, ProofValues(p)))
  }

  function AnchorValues(a: Anchor, proof: Json): (f: seq<Option<Json>>)
    ensures |f| == |ANCHOR_KEYS|
  {
    [Some(Num(Safe(a.logIndex))), Some(Str(a.logId)), Some(Num(Safe(a.integratedTime))), Some(proof),
     Some(Str(a.canonicalizedBody)), Some(a.envelope), Some(a.verifier)]
  }

  /** The form in which an anchor is put into a receipt. */
  function AnchorJson(a: Anchor): (v: Json)
    ensures v.Obj?
  {
    Obj(Record.Build(ANCHOR_KEYS, AnchorValues(a, ProofJson(a.proof))))
  }

  lemma KeysDiffer()
    ensures Sorting.Distinct(PROOF_KEYS) && Sorting.Distinct(ANCHOR_KEYS)
  {
    var (p, a) := (PROOF_KEYS, ANCHOR_KEYS);
    assert |p[0]| == 8 && |p[1]| == 8 && |p[2]| == 8 && |p[3]| == 6 && |p[4]| == 10;
    assert p[0][0] == 'l' && p[1][0] == 't' && p[2][0] == 'r';
    assert |a[0]| == 8 && |a[1]| == 5 && |a[2]| == 14 && |a[3]| == 14 && |a[4]| == 17 && |a[5]| == 8 && |a[6]| == 8;
    assert a[0][0] == 'l' && a[5][0] == 'e' && a[6][0] == 'v' && a[2][2] == 't' && a[3][2] == 'c';
  }

  lemma ProofFields(p: InclusionProof)
    ensures
      var v := ProofJson(p);
      && Field(v, "logIndex") == Some(Num(Safe(p.logIndex))) && Field(v, "treeSize") == Some(Num(Safe(p.treeSize)))
      && Field(v, "rootHash") == Some(Str(p.rootHash)) && Field(v, "hashes") == Some(Arr(Texts(p.hashes)))
      && Field(v, "checkpoint") == Some(Str(p.checkpoint))
  {
    hide Lookup, Record.Build, Sorting.Distinct, Texts;
    var f := ProofValues(p);
    KeysDiffer();
    Record.LookupBuild(PROOF_KEYS, f, 0);
    Record.LookupBuild(PROOF_KEYS, f, 1);
    Record.LookupBuild(PROOF_KEYS, f, 2);
    Record.LookupBuild(PROOF_KEYS, f, 3);
    Record.LookupBuild(PROOF_KEYS, f, 4);
  }

  lemma AnchorFields(a: Anchor)
    ensures
      var v := AnchorJson(a);
      && Field(v, "logIndex") == Some(Num(Safe(a.logIndex))) && Field(v, "logId") == Some(Str(a.logId))
      && Field(v, "integratedTime") == Some(Num(Safe(a.integratedTime))) && Field(v, "inclusionProof") == Some(ProofJson(a.proof))
      && Field(v, "canonicalizedBody") == Some(Str(a.canonicalizedBody)) && Field(v, "envelope") == Some(a.envelope)
      && Field(v, "verifier") == Some(a.verifier)
  {
    hide Lookup, Record.Build, Sorting.Distinct, ProofJson;
    var f := AnchorValues(a, ProofJson(a.proof));
    KeysDiffer();
    Record.LookupBuild(ANCHOR_KEYS, f, 0);
    Record.LookupBuild(ANCHOR_KEYS, f, 1);
    Record.LookupBuild(ANCHOR_KEYS, f, 2);
    Record.LookupBuild(ANCHOR_KEYS, f, 3);
    Record.LookupBuild(ANCHOR_KEYS, f, 4);
    Record.LookupBuild(ANCHOR_KEYS, f, 5);
    Record.LookupBuild(ANCHOR_KEYS, f, 6);
  }

  /** Every field of an anchor survives its form in a receipt. */
  lemma AnchorRoundTrip(a: Anchor)
    ensures AnchorFromJson(AnchorJson(a)) == Some(a)
  {
    AnchorFields(a);
    ProofFields(a.proof);
    TextsRead(a.proof.hashes);
    hide AnchorJson, ProofJson, Field, Texts, AsStrings;
  }

  /** An anchor is read only from an object that has every field. */
  lemma NoFieldNoAnchor(v: Json, i: nat)
    requires i < |ANCHOR_KEYS| && Field(v, ANCHOR_KEYS[i]) == None
    ensures AnchorFromJson(v) == None
  {
    hide ProofFromJson, Field;
  }

  lemma NoFieldNoProof(v: Json, i: nat)
    requires i < |PROOF_KEYS| && Field(v, PROOF_KEYS[i]) == None
    ensures ProofFromJson(v) == None
  {
    hide AsStrings, Field;
  }

  /** The numbers of an anchor are safe integers, and its free-form parts are JSON. */
  ghost predicate AnchorFits(a: Anchor) {
    && Valid(Safe(a.logIndex)) && Valid(Safe(a.integratedTime)) && Valid(Safe(a.proof.logIndex)) && Valid(Safe(a.proof.treeSize))
    && WF(a.envelope) && WF(a.verifier)
  }

  lemma ProofIsWF(p: InclusionProof)
    requires Valid(Safe(p.logIndex)) && Valid(Safe(p.treeSize))
    ensures WF(ProofJson(p))
  {
    hide Record.Build, Sorting.Distinct, Valid;
    KeysDiffer();
    Record.BuildIsWF(PROOF_KEYS, ProofValues(p));
  }

  lemma AnchorIsWF(a: Anchor)
    requires AnchorFits(a)
    ensures WF(AnchorJson(a))
  {
    hide Record.Build, Sorting.Distinct, ProofJson, Valid;
    KeysDiffer();
    ProofIsWF(a.proof);
    Record.BuildIsWF(ANCHOR_KEYS, AnchorValues(a, ProofJson(a.proof)));
  }
}
