/** The keystore directory and what each operation does to it: an operation is
    refused, or it is a list of single file operations and a bundle of keys. A
    crash or an I/O failure leaves a prefix of the list done. */
module KeystoreSpec {
  import opened Prelude
  import opened Crypto
  import Blob
  import Hex
  import Utf8

  /** `ed25519.pem`, `hmac.key`, `keystore.enc` and `ed25519.pub.pem`. */
  datatype Name = Ed25519File | HmacFile | EncFile | PublicFile

  datatype Path = Active(name: Name) | Archived(stamp: string, name: Name)

  /** The files, and the subdirectories of `archive/`. */
  datatype Dir = Dir(files: map<Path, Bytes>, stamps: set<string>)

  datatype FileOp =
    | Write(path: Path, content: Bytes)
    | Remove(path: Path)
    | Rename(from: Path, to: Path)
    | MakeArchive(stamp: string)

  function Apply(d: Dir, op: FileOp): Dir {
    match op
    case Write(path, content) => d.(files := d.files[path := content])
    case Remove(path) => d.(files := d.files - {path})
    case Rename(from, to) =>
      if from in d.files then d.(files := (d.files - {from})[to := d.files[from]]) else d
    case MakeArchive(stamp) => d.(stamps := d.stamps + {stamp})
  }

  function ApplyAll(d: Dir, ops: seq<FileOp>): Dir
    decreases |ops|
  {
    if ops == [] then d else ApplyAll(Apply(d, ops[0]), ops[1..])
  }

  datatype Keys = Keys(hmac: Bytes, ed25519: SigningKey, publicPem: string)

  /** Random values drawn for one operation. */
  datatype Draws = Draws(signing: SigningKey, hmac: Bytes, salt: Bytes, nonce: Bytes)

  datatype Request =
    | Load(pass: Option<string>, draws: Draws)
    | Encrypt(newPass: string, draws: Draws)
    | Decrypt(oldPass: string)
    | Rotate(pass: Option<string>, stamp: string, draws: Draws)

  datatype Plan = Plan(ops: seq<FileOp>, keys: Keys)

  function KeysOf(c: Crypto, hmac: Bytes, signing: SigningKey): Keys {
    Keys(hmac, signing, c.publicPem(c.publicOf(signing)))
  }

  predicate IsEncrypted(d: Dir) {
    Active(EncFile) in d.files
  }

  predicate HasPlaintext(d: Dir) {
    Active(Ed25519File) in d.files && Active(HmacFile) in d.files
  }

  function ParsePem(c: Crypto, content: Bytes): Option<SigningKey> {
    match Utf8.Decode(content)
    case None => None
    case Some(text) => c.parsePrivatePem(text)
  }

  function LoadPlaintext(c: Crypto, d: Dir): Result<Keys, SealError>
    requires HasPlaintext(d)
  {
    match ParsePem(c, d.files[Active(Ed25519File)])
    case None => Err(KeyError)
    case Some(signing) => Ok(KeysOf(c, d.files[Active(HmacFile)], signing))
  }

  function KeysOfSecret(c: Crypto, s: Blob.Secret): Result<Keys, SealError> {
    match (c.parsePrivatePem(s.pem), Hex.Decode(s.hmacHex))
    case (Some(signing), Some(hmac)) => Ok(KeysOf(c, hmac, signing))
    case _ => Err(KeyError)
  }

  function LoadEncrypted(c: Crypto, d: Dir, pass: Option<string>): Result<Keys, SealError>
    requires IsEncrypted(d)
  {
    match pass
    case None => Err(KeyError)
    case Some(p) =>
      match Blob.DecryptSecret(c, d.files[Active(EncFile)], p)
      case Err(e) => Err(e)
      case Ok(s) => KeysOfSecret(c, s)
  }

  function PemBytes(c: Crypto, signing: SigningKey): Bytes {
    Utf8.Encode(c.privatePem(signing))
  }

  function PublicBytes(c: Crypto, signing: SigningKey): Bytes {
    Utf8.Encode(c.publicPem(c.publicOf(signing)))
  }

  function SecretOf(c: Crypto, signing: SigningKey, hmac: Bytes): Blob.Secret {
    Blob.Secret(c.privatePem(signing), Hex.Encode(hmac))
  }

  function PlaintextOps(c: Crypto, signing: SigningKey, hmac: Bytes): seq<FileOp> {
    [Write(Active(Ed25519File), PemBytes(c, signing)), Write(Active(HmacFile), hmac)]
  }

  function EncryptedOps(c: Crypto, signing: SigningKey, hmac: Bytes, pass: string, salt: Bytes, nonce: Bytes): seq<FileOp> {
    [
      Write(Active(EncFile), Blob.EncryptSecret(c, SecretOf(c, signing, hmac), pass, salt, nonce)),
      Write(Active(PublicFile), PublicBytes(c, signing))
    ]
  }

  /** Write fresh keys in the mode a passphrase selects. */
  function FreshOps(c: Crypto, pass: Option<string>, r: Draws): seq<FileOp> {
    match pass
    case Some(p) => EncryptedOps(c, r.signing, r.hmac, p, r.salt, r.nonce)
    case None => PlaintextOps(c, r.signing, r.hmac)
  }

  /** The two files that make up the active keystore. */
  function ActiveNames(d: Dir): (Name, Name) {
    if IsEncrypted(d) then (EncFile, PublicFile) else (Ed25519File, HmacFile)
  }

  function ActiveFiles(d: Dir): seq<Name> {
    var (a, b) := ActiveNames(d);
    [a, b]
  }

  /** Move the present files among `names` into the archive. */
  function ArchiveOps(d: Dir, names: seq<Name>, stamp: string): seq<FileOp> {
    if names == [] then
      []
    else
      (if Active(names[0]) in d.files then [Rename(Active(names[0]), Archived(stamp, names[0]))] else []) +
      ArchiveOps(d, names[1..], stamp)
  }

  function PlanLoad(c: Crypto, d: Dir, pass: Option<string>, r: Draws): Result<Plan, SealError> {
    if IsEncrypted(d) then
      match LoadEncrypted(c, d, pass)
      case Err(e) => Err(e)
      case Ok(keys) => Ok(Plan([], keys))
    else if HasPlaintext(d) then
      match LoadPlaintext(c, d)
      case Err(e) => Err(e)
      case Ok(keys) => Ok(Plan([], keys))
    else
      Ok(Plan(FreshOps(c, pass, r), KeysOf(c, r.hmac, r.signing)))
  }

  function PlanEncrypt(c: Crypto, d: Dir, pass: string, r: Draws): Result<Plan, SealError> {
    if IsEncrypted(d) || !HasPlaintext(d) then
      Err(KeyError)
    else
      match LoadPlaintext(c, d)
      case Err(e) => Err(e)
      case Ok(keys) =>
        Ok(Plan(EncryptedOps(c, keys.ed25519, keys.hmac, pass, r.salt, r.nonce) +
                [Remove(Active(Ed25519File)), Remove(Active(HmacFile))], keys))
  }

  function PlanDecrypt(c: Crypto, d: Dir, pass: string): Result<Plan, SealError> {
    if !IsEncrypted(d) then
      Err(KeyError)
    else
      match LoadEncrypted(c, d, Some(pass))
      case Err(e) => Err(e)
      case Ok(keys) =>
        Ok(Plan(PlaintextOps(c, keys.ed25519, keys.hmac) + [Remove(Active(EncFile))] +
                (if Active(PublicFile) in d.files then [Remove(Active(PublicFile))] else []), keys))
  }

  function PlanRotate(c: Crypto, d: Dir, pass: Option<string>, stamp: string, r: Draws): Result<Plan, SealError> {
    var names := ActiveFiles(d);
    if forall i | 0 <= i < |names| :: Active(names[i]) !in d.files then
      Err(KeyError)
    else if IsEncrypted(d) && pass.None? then
      Err(KeyError)
    else
      Ok(Plan([MakeArchive(stamp)] + ArchiveOps(d, names, stamp) + FreshOps(c, if IsEncrypted(d) then pass else None, r),
              KeysOf(c, r.hmac, r.signing)))
  }

  function PlanOf(c: Crypto, d: Dir, q: Request): Result<Plan, SealError> {
    match q
    case Load(pass, r) => PlanLoad(c, d, pass, r)
    case Encrypt(pass, r) => PlanEncrypt(c, d, pass, r)
    case Decrypt(pass) => PlanDecrypt(c, d, pass)
    case Rotate(pass, stamp, r) => PlanRotate(c, d, pass, stamp, r)
  }

  lemma {:induction false} ApplyAllAppend(d: Dir, a: seq<FileOp>, b: seq<FileOp>)
    ensures ApplyAll(d, a + b) == ApplyAll(ApplyAll(d, a), b)
    decreases |a|
  {
    if a == [] {
      assert a + b == b;
    } else {
      assert (a + b)[1..] == a[1..] + b;
      ApplyAllAppend(Apply(d, a[0]), a[1..], b);
    }
  }
}
