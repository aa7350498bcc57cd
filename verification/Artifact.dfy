/** Sealing a file and verifying file bytes against a receipt, layer by layer. */
module Artifact {
  import opened Prelude
  import opened JsonNumber
  import opened Json
  import opened JsonAccess
  import opened Crypto
  import opened Record
  import opened Seal
  import opened Paths
  import Excluded
  import Hex
  import Jcs
  import Rekor
  import Sorting

  datatype Token = Token(authority: string, issuedAt: string, der: Bytes)

  /** The libraries and remote services a seal or a verification calls. None is
      a failure of the call. */
  datatype Services = Services(
    extensionOf: string -> Option<string>,
    mimeOf: string -> string,
    embeddable: string -> bool,
    embed: (Bytes, string, SigningKey, bool) -> Option<Bytes>,
    verifyEmbedded: (Bytes, string) -> Option<bool>,
    embeddedSigner: (Bytes, string) -> Option<Option<PublicKey>>,
    emitSidecar: (Json, SigningKey, bool) -> Option<Bytes>,
    verifySidecar: (Bytes, string) -> Option<bool>,
    requestToken: (Bytes, string) -> Option<Token>,
    verifyToken: (Bytes, Bytes) -> bool,
    checkShard: string -> Option<string>,
    submit: (Bytes, SigningKey, string) -> Option<Json>,
    log: Rekor.Library,
    shards: seq<Rekor.ShardKey>)

  // ---------- Verifying ----------

  function Sha256Hex(c: Crypto, bytes: Bytes): string {
    Hex.Encode(c.sha256(bytes))
  }

  function PayloadHash(c: Crypto, payload: Json): string {
    Sha256Hex(c, Jcs.Canonicalize(Excluded.StripExcluded(payload)))
  }

  /** The bytes a timestamp covers: the raw MAC, then the raw signature. */
  function ToStamp(seal: SealBlock): Option<Bytes> {
    if seal.ed25519.None? then
      None
    else
      match (Hex.Decode0x(seal.hmac.sig), Hex.Decode0x(seal.ed25519.value.sig))
      case (Some(mac), Some(sig)) => Some(mac + sig)
      case _ => None
  }

  function EmbeddedFormat(s: Services, payload: Json): string {
    var path := AsString(Field(payload, "path"));
    if path.Some? && s.extensionOf(path.value).Some? then
      s.extensionOf(path.value).value
    else
      var mime := AsString(Field(payload, "mime"));
      if mime.Some? then mime.value else ""
  }

  function EmbeddedLayer(s: Services, c: Crypto, bytes: Bytes, payload: Json, seal: SealBlock): Result<bool, SealError> {
    var format := EmbeddedFormat(s, payload);
    match s.verifyEmbedded(bytes, format)
    case None => Err(C2pa)
    case Some(valid) =>
      if !valid then Ok(false)
      else if seal.ed25519PublicKey.None? then Ok(true)
      else
        match c.parsePublicPem(seal.ed25519PublicKey.value)
        case None => Err(KeyError)
        case Some(pk) =>
          match s.embeddedSigner(bytes, format)
          case None => Err(C2pa)
          case Some(signer) => Ok(signer == Some(pk))
  }

  function SidecarLayer(s: Services, c: Crypto, payload: Json, manifest: string): Result<bool, SealError> {
    match Hex.Decode0x(manifest)
    case None => Err(C2pa)
    case Some(jumbf) =>
      match s.verifySidecar(jumbf, PayloadHash(c, payload))
      case None => Err(C2pa)
      case Some(ok) => Ok(ok)
  }

  /** The in-file manifest if the receipt says so, else the sidecar, else nothing. */
  function C2paLayer(s: Services, c: Crypto, bytes: Bytes, r: SealedRecord): Option<Result<bool, SealError>> {
    if r.seal.c2paEmbedded == Some(true) then Some(EmbeddedLayer(s, c, bytes, r.payload, r.seal))
    else if r.seal.c2paManifest.Some? then Some(SidecarLayer(s, c, r.payload, r.seal.c2paManifest.value))
    else None
  }

  function TsaLayer(s: Services, seal: SealBlock): Option<Result<bool, SealError>> {
    if seal.tsa.None? then
      None
    else
      match AsString(Field(seal.tsa.value, "der"))
      case None => Some(Err(Malformed))
      case Some(text) =>
        match (Hex.Decode0x(text), ToStamp(seal))
        case (Some(der), Some(m)) => Some(Ok(s.verifyToken(der, m)))
        case _ => Some(Err(Malformed))
  }

  function RekorLayer(s: Services, seal: SealBlock): Option<Result<bool, SealError>> {
    if seal.rekorAnchor.None? then
      None
    else
      match Rekor.AnchorFromJson(seal.rekorAnchor.value)
      case None => Some(Err(Malformed))
      case Some(anchor) =>
        var shard := Rekor.ResolveShard(s.shards, anchor.logId);
        Some(Ok(Rekor.Judge(s.log, anchor, if shard.Some? then Some(shard.value.publicKeyPem) else None) == Rekor.Verified))
  }

  type Results = Result<seq<LayerResult>, SealError>

  /** Append a layer's result if the layer is there; the first error stays. */
  function Push(rs: Results, name: string, layer: Option<Result<bool, SealError>>): Results {
    if rs.Err? || layer.None? then rs
    else if layer.value.Err? then Err(layer.value.error)
    else Ok(rs.value + [LayerResult(name, layer.value.value)])
  }

  /** The content layer and the crypto layers. */
  function CoreLayers(c: Crypto, bytes: Bytes, r: SealedRecord, key: Option<Bytes>): Results {
    match AsString(Field(r.payload, "artifactSha256"))
    case None => Err(Malformed)
    case Some(expected) =>
      match CryptoLayers(c, r.payload, r.seal, key)
      case Err(e) => Err(e)
      case Ok(rs) => Ok([LayerResult("content", Sha256Hex(c, bytes) == expected)] + rs)
  }

  function VerifyBytes(s: Services, c: Crypto, bytes: Bytes, r: SealedRecord, key: Option<Bytes>): Results {
    Push(Push(Push(CoreLayers(c, bytes, r, key), "c2pa", C2paLayer(s, c, bytes, r)), "tsa", TsaLayer(s, r.seal)), "rekor",
         RekorLayer(s, r.seal))
  }

  method PushResult(results: seq<LayerResult>, name: string, layer: Result<bool, SealError>) returns (out: Results)
    ensures out == Push(Ok(results), name, Some(layer))
  {
    match layer
    case Err(e) => out := Err(e);
    case Ok(ok) => out := Ok(results + [LayerResult(name, ok)]);
  }

  method PushC2pa(s: Services, c: Crypto, bytes: Bytes, r: SealedRecord, results: seq<LayerResult>) returns (out: Results)
    ensures out == Push(Ok(results), "c2pa", C2paLayer(s, c, bytes, r))
  {
    hide EmbeddedLayer, SidecarLayer;
    if r.seal.c2paEmbedded == Some(true) {
      out := PushResult(results, "c2pa", EmbeddedLayer(s, c, bytes, r.payload, r.seal));
    } else if r.seal.c2paManifest.Some? {
      out := PushResult(results, "c2pa", SidecarLayer(s, c, r.payload, r.seal.c2paManifest.value));
    } else {
      out := Ok(results);
    }
  }

  /** Verify file bytes against a receipt, pushing one result per layer. */
  method VerifyArtifactBytes(s: Services, c: Crypto, bytes: Bytes, r: SealedRecord, key: Option<Bytes>)
    returns (out: Results)
    ensures out == VerifyBytes(s, c, bytes, r, key)
  {
    hide CryptoLayers, C2paLayer, TsaLayer, RekorLayer;
    OthersPresent(s, r.seal);
    var results := [];
    var expected := AsString(Field(r.payload, "artifactSha256"));
    if expected.None? {
      return Err(Malformed);
    }
    results := results + [LayerResult("content", Sha256Hex(c, bytes) == expected.value)];
    assert results == [LayerResult("content", Sha256Hex(c, bytes) == expected.value)];
    out := AppendCryptoLayers(c, r.payload, r.seal, key, results);
    assert out == CoreLayers(c, bytes, r, key);
    if out.Err? {
      return;
    }
    out := PushC2pa(s, c, bytes, r, out.value);
    if out.Err? {
      return;
    }
    if r.seal.tsa.Some? {
      out := PushResult(out.value, "tsa", TsaLayer(s, r.seal).value);
      if out.Err? {
        return;
      }
    }
    if r.seal.rekorAnchor.Some? {
      out := PushResult(out.value, "rekor", RekorLayer(s, r.seal).value);
    }
  }

  // ---------- Which layers there are ----------

  /** The layers a receipt carries, in order. */
  function PresentLayers(seal: SealBlock): seq<string> {
    ["hmac"] +
    (if seal.ed25519.Some? then ["ed25519"] else []) +
    (if seal.c2paManifest.Some? || seal.c2paEmbedded == Some(true) then ["c2pa"] else []) +
    (if seal.tsa.Some? then ["tsa"] else []) +
    (if seal.rekorAnchor.Some? then ["rekor"] else [])
  }

  const CHAIN: seq<string> := ["hmac", "ed25519", "c2pa", "tsa", "rekor"]

  /** Whether a receipt carries the layer of that name. */
  predicate Carries(seal: SealBlock, layer: string) {
    || layer == "hmac"
    || (layer == "ed25519" && seal.ed25519.Some?)
    || (layer == "c2pa" && (seal.c2paManifest.Some? || seal.c2paEmbedded == Some(true)))
    || (layer == "tsa" && seal.tsa.Some?)
    || (layer == "rekor" && seal.rekorAnchor.Some?)
  }

  /** Exactly the layers carried, in chain order, hence each once. */
  lemma PresentLayersAre(seal: SealBlock)
    ensures forall layer :: layer in PresentLayers(seal) <==> Carries(seal, layer)
    ensures Sorting.IsSubsequence(PresentLayers(seal), CHAIN) && Sorting.Distinct(CHAIN)
  {
    ChainDiffers();
    ChosenInOrder(CHAIN, [true, seal.ed25519.Some?, seal.c2paManifest.Some? || seal.c2paEmbedded == Some(true),
                          seal.tsa.Some?, seal.rekorAnchor.Some?]);
    ChosenFive(CHAIN, [true, seal.ed25519.Some?, seal.c2paManifest.Some? || seal.c2paEmbedded == Some(true),
                       seal.tsa.Some?, seal.rekorAnchor.Some?]);
  }

  lemma ChainDiffers()
    ensures Sorting.Distinct(CHAIN)
  {
    var n := CHAIN;
    assert |n[0]| == 4 && |n[1]| == 7 && |n[2]| == 4 && |n[3]| == 3 && |n[4]| == 5 && n[0][0] == 'h' && n[2][0] == 'c';
  }

  /** The elements that are switched on. */
  function Chosen<T>(all: seq<T>, on: seq<bool>): seq<T>
    requires |all| == |on|
  {
    if all == [] then [] else (if on[0] then [all[0]] else []) + Chosen(all[1..], on[1..])
  }

  lemma {:induction false} ChosenInOrder<T>(all: seq<T>, on: seq<bool>)
    requires |all| == |on|
    ensures Sorting.IsSubsequence(Chosen(all, on), all)
    ensures forall x :: x in Chosen(all, on) <==> exists i | 0 <= i < |all| :: all[i] == x && on[i]
  {
    if all != [] {
      ChosenInOrder(all[1..], on[1..]);
      var (rest, chosen) := (Chosen(all[1..], on[1..]), Chosen(all, on));
      if on[0] {
        assert chosen == [all[0]] + rest && chosen[1..] == rest;
      } else {
        assert chosen == rest;
      }
      forall x ensures x in chosen <==> exists i | 0 <= i < |all| :: all[i] == x && on[i] {
        if x in rest {
          var i :| 0 <= i < |all[1..]| && all[1..][i] == x && on[1..][i];
          assert all[i + 1] == x && on[i + 1];
        }
        if exists i | 0 <= i < |all| :: all[i] == x && on[i] {
          var i :| 0 <= i < |all| && all[i] == x && on[i];
          if i > 0 {
            assert all[1..][i - 1] == x && on[1..][i - 1];
          }
        }
      }
    }
  }

  lemma ChosenFive<T>(all: seq<T>, on: seq<bool>)
    requires |all| == |on| == 5
    ensures Chosen(all, on) ==
      (if on[0] then [all[0]] else []) + (if on[1] then [all[1]] else []) + (if on[2] then [all[2]] else []) +
      (if on[3] then [all[3]] else []) + (if on[4] then [all[4]] else [])
  {
    var c4 := if on[4] then [all[4]] else [];
    assert all[1..][1..] == all[2..] && all[2..][1..] == all[3..] && all[3..][1..] == all[4..] && all[4..][1..] == [];
    assert on[1..][1..] == on[2..] && on[2..][1..] == on[3..] && on[3..][1..] == on[4..] && on[4..][1..] == [];
    assert Chosen(all[4..], on[4..]) == c4 + Chosen(all[4..][1..], on[4..][1..]) == c4;
    assert Chosen(all[3..], on[3..]) == (if on[3] then [all[3]] else []) + c4;
    assert Chosen(all[2..], on[2..]) == (if on[2] then [all[2]] else []) + Chosen(all[3..], on[3..]);
    assert Chosen(all[1..], on[1..]) == (if on[1] then [all[1]] else []) + Chosen(all[2..], on[2..]);
  }

  method ListPresentLayers(seal: SealBlock) returns (layers: seq<string>)
    ensures layers == PresentLayers(seal)
    ensures forall layer :: layer in layers <==> Carries(seal, layer)
    ensures Sorting.IsSubsequence(layers, CHAIN) && Sorting.Distinct(CHAIN)
  {
    PresentLayersAre(seal);
    layers := ["hmac"];
    if seal.ed25519.Some? {
      layers := layers + ["ed25519"];
    }
    if seal.c2paManifest.Some? || seal.c2paEmbedded == Some(true) {
      layers := layers + ["c2pa"];
    }
    if seal.tsa.Some? {
      layers := layers + ["tsa"];
    }
    if seal.rekorAnchor.Some? {
      layers := layers + ["rekor"];
    }
  }

  function Names(rs: seq<LayerResult>): seq<string> {
    seq(|rs|, i requires 0 <= i < |rs| => rs[i].name)
  }

  lemma NamesOfPush(rs: Results, name: string, layer: Option<Result<bool, SealError>>)
    requires Push(rs, name, layer).Ok?
    ensures rs.Ok? && Names(Push(rs, name, layer).value) == Names(rs.value) + (if layer.Some? then [name] else [])
    ensures layer.Some? ==> layer.value.Ok?
  {
  }

  lemma NamesOfCore(c: Crypto, bytes: Bytes, r: SealedRecord, key: Option<Bytes>)
    requires CoreLayers(c, bytes, r, key).Ok?
    ensures Names(CoreLayers(c, bytes, r, key).value) ==
      ["content"] + (["hmac"] + (if r.seal.ed25519.Some? then ["ed25519"] else []))
  {
    hide HmacOk, Ed25519Ok, Sha256Hex;
  }

  lemma PresentFrom(c2pa: bool, tsa: bool, rekor: bool, seal: SealBlock)
    requires c2pa == (seal.c2paManifest.Some? || seal.c2paEmbedded == Some(true))
    requires tsa == seal.tsa.Some? && rekor == seal.rekorAnchor.Some?
    ensures ["content"] + (["hmac"] + (if seal.ed25519.Some? then ["ed25519"] else [])) + (if c2pa then ["c2pa"] else []) +
            (if tsa then ["tsa"] else []) + (if rekor then ["rekor"] else []) == ["content"] + PresentLayers(seal)
  {
    var ed := if seal.ed25519.Some? then ["ed25519"] else [];
    Regroup(["content"], ["hmac"] + ed, if c2pa then ["c2pa"] else [], if tsa then ["tsa"] else [],
            if rekor then ["rekor"] else []);
  }

  lemma Regroup<T>(a: seq<T>, b: seq<T>, x: seq<T>, y: seq<T>, z: seq<T>)
    ensures a + b + x + y + z == a + (b + x + y + z)
  {
  }

  /** A verification that succeeds reports the content layer and then exactly the
      layers present in the receipt, in their order. */
  lemma ResultsNamePresentLayers(s: Services, c: Crypto, bytes: Bytes, r: SealedRecord, key: Option<Bytes>)
    requires VerifyBytes(s, c, bytes, r, key).Ok?
    ensures Names(VerifyBytes(s, c, bytes, r, key).value) == ["content"] + PresentLayers(r.seal)
  {
    hide C2paLayer, TsaLayer, RekorLayer, CoreLayers, Push, Names, PresentLayers;
    var core := CoreLayers(c, bytes, r, key);
    var withC2pa := Push(core, "c2pa", C2paLayer(s, c, bytes, r));
    var withTsa := Push(withC2pa, "tsa", TsaLayer(s, r.seal));
    NamesOfPush(withTsa, "rekor", RekorLayer(s, r.seal));
    NamesOfPush(withC2pa, "tsa", TsaLayer(s, r.seal));
    NamesOfPush(core, "c2pa", C2paLayer(s, c, bytes, r));
    NamesOfCore(c, bytes, r, key);
    C2paPresent(s, c, bytes, r);
    OthersPresent(s, r.seal);
    PresentFrom(C2paLayer(s, c, bytes, r).Some?, TsaLayer(s, r.seal).Some?, RekorLayer(s, r.seal).Some?, r.seal);
  }

  lemma C2paPresent(s: Services, c: Crypto, bytes: Bytes, r: SealedRecord)
    ensures C2paLayer(s, c, bytes, r).Some? <==> (r.seal.c2paManifest.Some? || r.seal.c2paEmbedded == Some(true))
  {
  }

  lemma OthersPresent(s: Services, seal: SealBlock)
    ensures TsaLayer(s, seal).Some? <==> seal.tsa.Some?
    ensures RekorLayer(s, seal).Some? <==> seal.rekorAnchor.Some?
  {
  }
}
