/** Exactly when an operation loses a secret for good. A signing key or a MAC
    secret is held by a plaintext file of its own or by a blob under a supplied
    passphrase. An operation, cut short anywhere, loses it exactly when it
    overwrites the only file that holds it and puts it nowhere else. */
module SecretLoss {
  import opened Prelude
  import opened Crypto
  import opened KeystoreSpec
  import opened KeySafety
  import Blob
  import Hex

  datatype Kind = SigningSecret | MacSecret

  /** The plaintext file of a kind of secret. */
  function OwnFile(kind: Kind): Name {
    if kind.SigningSecret? then Ed25519File else HmacFile
  }

  function SecretIn(kind: Kind, keys: Keys): Bytes {
    if kind.SigningSecret? then keys.ed25519 else keys.hmac
  }

  ghost predicate Opens(c: Crypto, kind: Kind, content: Bytes, pass: string, k: Bytes) {
    && Blob.DecryptSecret(c, content, pass).Ok?
    && KeysOfSecret(c, Blob.DecryptSecret(c, content, pass).value).Ok?
    && SecretIn(kind, KeysOfSecret(c, Blob.DecryptSecret(c, content, pass).value).value) == k
  }

  ghost predicate Carries(c: Crypto, kind: Kind, name: Name, content: Bytes, passes: set<string>, k: Bytes) {
    match name
    case Ed25519File => kind.SigningSecret? && ParsePem(c, content) == Some(k)
    case HmacFile => kind.MacSecret? && content == k
    case EncFile => exists p | p in passes :: Opens(c, kind, content, p, k)
    case PublicFile => false
  }

  ghost predicate At(c: Crypto, kind: Kind, d: Dir, path: Path, passes: set<string>, k: Bytes) {
    path in d.files && Carries(c, kind, path.name, d.files[path], passes, k)
  }

  ghost predicate Held(c: Crypto, kind: Kind, d: Dir, passes: set<string>, k: Bytes) {
    exists path | path in d.files :: At(c, kind, d, path, passes, k)
  }

  /** The file at `path` is the only one that holds the secret. */
  ghost predicate OnlyAt(c: Crypto, kind: Kind, d: Dir, path: Path, passes: set<string>, k: Bytes) {
    At(c, kind, d, path, passes, k) && forall other | other in d.files && other != path :: !At(c, kind, d, other, passes, k)
  }

  /** For signing keys this is the notion of the conservation proof. */
  lemma SigningIsHolds(c: Crypto, d: Dir, path: Path, passes: set<string>, k: SigningKey)
    ensures At(c, SigningSecret, d, path, passes, k) <==> HoldsAt(c, d, path, passes, k)
  {
    hide Blob.DecryptSecret, KeysOfSecret;
    if path in d.files && path.name == EncFile {
      var content := d.files[path];
      assert forall p :: Opens(c, SigningSecret, content, p, k) <==>
        Blob.DecryptSecret(c, content, p).Ok? && KeysOfSecret(c, Blob.DecryptSecret(c, content, p).value).Ok? &&
        KeysOfSecret(c, Blob.DecryptSecret(c, content, p).value).value.ed25519 == k;
    }
  }

  lemma StoredIsHeld(c: Crypto, w: World, k: SigningKey)
    ensures Stored(c, w, k) <==> Held(c, SigningSecret, w.dir, w.passes, k)
  {
    hide At, HoldsAt;
    forall path ensures At(c, SigningSecret, w.dir, path, w.passes, k) <==> HoldsAt(c, w.dir, path, w.passes, k) {
      SigningIsHolds(c, w.dir, path, w.passes, k);
    }
  }

  // ---------- The file that is overwritten ----------

  /** How many operations of a write of the plaintext pair reach the file of the kind. */
  function OwnTurn(kind: Kind): nat {
    if kind.SigningSecret? then 1 else 2
  }

  /** How many operations of a plaintext rotation move the file of the kind. */
  function MoveTurn(kind: Kind, d: Dir): nat {
    if kind.SigningSecret? || Active(Ed25519File) !in d.files then 2 else 3
  }

  /** The existing file that may hold a secret of the kind and that the first `n`
      operations of the request overwrite, if any: a load or a decryption that
      finds a stray plaintext file, or a rotation into an entry that is taken. */
  function Victim(kind: Kind, d: Dir, q: Request, n: nat): Option<Path> {
    var own := OwnFile(kind);
    match q
    case Load(pass, _) =>
      if !IsEncrypted(d) && !HasPlaintext(d) && pass.None? && n >= OwnTurn(kind) && Active(own) in d.files
      then Some(Active(own)) else None
    case Encrypt(_, _) => None
    case Decrypt(_) => if n >= OwnTurn(kind) && Active(own) in d.files then Some(Active(own)) else None
    case Rotate(_, stamp, _) =>
      if IsEncrypted(d) then
        if n >= 2 && Archived(stamp, EncFile) in d.files then Some(Archived(stamp, EncFile)) else None
      else if Active(own) in d.files && n >= MoveTurn(kind, d) && Archived(stamp, own) in d.files then
        Some(Archived(stamp, own))
      else
        None
  }

  /** One of the writes that took place holds the secret. */
  ghost predicate PutBack(c: Crypto, kind: Kind, done: seq<FileOp>, passes: set<string>, k: Bytes) {
    exists i | 0 <= i < |done| :: done[i].Write? && Carries(c, kind, done[i].path.name, done[i].content, passes, k)
  }

  /** The secret is lost: its only file is overwritten and nothing puts it back. */
  ghost predicate Loses(c: Crypto, kind: Kind, d: Dir, q: Request, n: nat, passes: set<string>, k: Bytes)
    requires PlanOf(c, d, q).Ok?
  {
    && Victim(kind, d, q, n).Some?
    && OnlyAt(c, kind, d, Victim(kind, d, q, n).value, passes, k)
    && !PutBack(c, kind, Done(PlanOf(c, d, q).value.ops, n), passes, k)
  }

  // ---------- What a list of operations leaves alone ----------

  predicate Touches(op: FileOp, path: Path) {
    match op
    case Write(p, _) => p == path
    case Remove(p) => p == path
    case Rename(from, to) => from == path || to == path
    case MakeArchive(_) => false
  }

  predicate NoneTouches(ops: seq<FileOp>, path: Path) {
    forall i | 0 <= i < |ops| :: !Touches(ops[i], path)
  }

  lemma {:induction false} UntouchedFile(d: Dir, ops: seq<FileOp>, path: Path)
    requires NoneTouches(ops, path)
    ensures path in ApplyAll(d, ops).files <==> path in d.files
    ensures path in d.files ==> ApplyAll(d, ops).files[path] == d.files[path]
    decreases |ops|
  {
    if ops != [] {
      assert !Touches(ops[0], path);
      UntouchedFile(Apply(d, ops[0]), ops[1..], path);
    }
  }

  lemma UntouchedAt(c: Crypto, kind: Kind, d: Dir, ops: seq<FileOp>, path: Path, passes: set<string>, k: Bytes)
    requires NoneTouches(ops, path)
    ensures At(c, kind, ApplyAll(d, ops), path, passes, k) <==> At(c, kind, d, path, passes, k)
  {
    hide Carries;
    UntouchedFile(d, ops, path);
  }

  /** A file written and then left alone has what was written. */
  lemma LastWrite(d: Dir, ops: seq<FileOp>, i: nat)
    requires i < |ops| && ops[i].Write? && NoneTouches(ops[i + 1..], ops[i].path)
    ensures ops[i].path in ApplyAll(d, ops).files && ApplyAll(d, ops).files[ops[i].path] == ops[i].content
  {
    hide ApplyAll;
    assert ops == ops[..i] + ([ops[i]] + ops[i + 1..]);
    ApplyAllAppend(d, ops[..i], [ops[i]] + ops[i + 1..]);
    ApplyAllAppend(ApplyAll(d, ops[..i]), [ops[i]], ops[i + 1..]);
    ApplyOne(ApplyAll(d, ops[..i]), ops[i]);
    UntouchedFile(Apply(ApplyAll(d, ops[..i]), ops[i]), ops[i + 1..], ops[i].path);
  }

  // ---------- Writing the plaintext pair ----------

  /** The write of the kind's own file is the last to touch it. */
  predicate WritesPair(c: Crypto, kind: Kind, ops: seq<FileOp>, keys: Keys) {
    && |ops| >= 2 && ops[..2] == PlaintextOps(c, keys.ed25519, keys.hmac)
    && forall i | 2 <= i < |ops| :: !Touches(ops[i], Active(OwnFile(kind)))
  }

  lemma OwnIsWritten(c: Crypto, kind: Kind, d: Dir, ops: seq<FileOp>, keys: Keys, n: nat, passes: set<string>, k: Bytes)
    requires LawfulKeys(c) && WritesPair(c, kind, ops, keys)
    ensures n >= OwnTurn(kind) ==>
              (At(c, kind, ApplyAll(d, Done(ops, n)), Active(OwnFile(kind)), passes, k) <==> k == SecretIn(kind, keys))
    ensures n >= OwnTurn(kind) && k == SecretIn(kind, keys) ==> PutBack(c, kind, Done(ops, n), passes, k)
    ensures n < OwnTurn(kind) ==> NoneTouches(Done(ops, n), Active(OwnFile(kind)))
  {
    hide PemBytes, ApplyAll;
    var (done, turn) := (Done(ops, n), OwnTurn(kind));
    PemIsHeld(c, keys.ed25519);
    assert ops[0] == ops[..2][0] && ops[1] == ops[..2][1];
    if n >= turn {
      var rest := done[turn..];
      assert done[turn - 1] == ops[turn - 1];
      assert forall i | 0 <= i < |rest| :: rest[i] == ops[turn + i];
      LastWrite(d, done, turn - 1);
    }
  }

  lemma PutBackIsOwn(c: Crypto, kind: Kind, ops: seq<FileOp>, keys: Keys, n: nat, passes: set<string>, k: Bytes)
    requires LawfulKeys(c) && WritesPair(c, kind, ops, keys)
    requires forall i | 2 <= i < |ops| :: !ops[i].Write?
    requires PutBack(c, kind, Done(ops, n), passes, k)
    ensures n >= OwnTurn(kind) && k == SecretIn(kind, keys)
  {
    hide PemBytes, Opens, ParsePem;
    PemIsHeld(c, keys.ed25519);
    assert ops[0] == ops[..2][0] && ops[1] == ops[..2][1];
    var done := Done(ops, n);
    var i :| 0 <= i < |done| && done[i].Write? && Carries(c, kind, done[i].path.name, done[i].content, passes, k);
    assert done[i] == ops[i];
  }

  /** The other plaintext file and the public key hold no secret of the kind. */
  lemma HoldersAre(c: Crypto, kind: Kind, d: Dir, path: Path, passes: set<string>, k: Bytes)
    requires At(c, kind, d, path, passes, k)
    ensures path.name == OwnFile(kind) || path.name == EncFile
  {
    hide Opens;
  }

  lemma LoadLosesExactly(c: Crypto, kind: Kind, d: Dir, pass: Option<string>, r: Draws, n: nat, passes: set<string>, k: Bytes)
    requires LawfulKeys(c) && PlanLoad(c, d, pass, r).Ok? && Held(c, kind, d, passes, k)
    ensures Held(c, kind, ApplyAll(d, Done(PlanLoad(c, d, pass, r).value.ops, n)), passes, k) <==>
      !Loses(c, kind, d, Load(pass, r), n, passes, k)
  {
    hide LoadEncrypted, LoadPlaintext, EncryptedOps, At, ApplyAll, PutBack, Touches, Carries;
    var plan := PlanLoad(c, d, pass, r).value;
    if IsEncrypted(d) || HasPlaintext(d) {
      assert ApplyAll(d, Done(plan.ops, n)) == d by { NoOps(d); }
    } else if pass.Some? {
      SealedLoadKeeps(c, kind, d, pass.value, r, n, passes, k);
    } else {
      PairDecides(c, kind, d, plan.ops, plan.keys, n, passes, k);
    }
  }

  lemma NoOps(d: Dir)
    ensures ApplyAll(d, []) == d
  {
  }

  lemma SealedLoadKeeps(c: Crypto, kind: Kind, d: Dir, pass: string, r: Draws, n: nat, passes: set<string>, k: Bytes)
    requires !IsEncrypted(d) && Held(c, kind, d, passes, k)
    ensures Held(c, kind, ApplyAll(d, Done(EncryptedOps(c, r.signing, r.hmac, pass, r.salt, r.nonce), n)), passes, k)
  {
    hide At, ApplyAll, PublicBytes, Blob.EncryptSecret;
    var done := Done(EncryptedOps(c, r.signing, r.hmac, pass, r.salt, r.nonce), n);
    var path :| path in d.files && At(c, kind, d, path, passes, k);
    HoldersAre(c, kind, d, path, passes, k);
    UntouchedAt(c, kind, d, done, path, passes, k);
    FilesHold(c, kind, ApplyAll(d, done), path, passes, k);
  }

  lemma FilesHold(c: Crypto, kind: Kind, d: Dir, path: Path, passes: set<string>, k: Bytes)
    requires At(c, kind, d, path, passes, k)
    ensures Held(c, kind, d, passes, k)
  {
    hide Carries;
    assert path in d.files;
  }

  /** Only the pair is written. */
  lemma PairDecides(c: Crypto, kind: Kind, d: Dir, ops: seq<FileOp>, keys: Keys, n: nat, passes: set<string>, k: Bytes)
    requires LawfulKeys(c) && ops == PlaintextOps(c, keys.ed25519, keys.hmac) && Held(c, kind, d, passes, k)
    ensures
      var own := Active(OwnFile(kind));
      Held(c, kind, ApplyAll(d, Done(ops, n)), passes, k) <==>
        !(n >= OwnTurn(kind) && own in d.files && OnlyAt(c, kind, d, own, passes, k) &&
          !PutBack(c, kind, Done(ops, n), passes, k))
  {
    hide Carries, ApplyAll, PutBack, PemBytes, Held;
    var (own, done) := (Active(OwnFile(kind)), Done(ops, n));
    var d' := ApplyAll(d, done);
    assert ops[..2] == ops;
    OwnIsWritten(c, kind, d, ops, keys, n, passes, k);
    if PutBack(c, kind, done, passes, k) {
      PutBackIsOwn(c, kind, ops, keys, n, passes, k);
      FilesHold(c, kind, d', own, passes, k);
    }
    forall path | path != own && (path.name == OwnFile(kind) || path.name == EncFile)
      ensures At(c, kind, d', path, passes, k) <==> At(c, kind, d, path, passes, k)
    {
      UntouchedAt(c, kind, d, done, path, passes, k);
    }
    OthersDecide(c, kind, d, d', own, n < OwnTurn(kind), passes, k);
    if n < OwnTurn(kind) {
      UntouchedAt(c, kind, d, done, own, passes, k);
    }
  }

  /** When all holders but one place are as before, that place decides. */
  lemma OthersDecide(c: Crypto, kind: Kind, d: Dir, d': Dir, own: Path, untouched: bool, passes: set<string>, k: Bytes)
    requires forall path | path != own && (path.name == OwnFile(kind) || path.name == EncFile) ::
               At(c, kind, d', path, passes, k) <==> At(c, kind, d, path, passes, k)
    ensures Held(c, kind, d', passes, k) <==>
      At(c, kind, d', own, passes, k) || (Held(c, kind, d, passes, k) && !OnlyAt(c, kind, d, own, passes, k))
  {
    hide Carries;
    forall path, e | e in {d, d'} && At(c, kind, e, path, passes, k) ensures path.name == OwnFile(kind) || path.name == EncFile {
      HoldersAre(c, kind, e, path, passes, k);
    }
  }

  // ---------- Encrypting ----------

  lemma KeysAreActive(c: Crypto, kind: Kind, d: Dir, passes: set<string>, k: Bytes)
    requires HasPlaintext(d) && LoadPlaintext(c, d).Ok? && At(c, kind, d, Active(OwnFile(kind)), passes, k)
    ensures k == SecretIn(kind, LoadPlaintext(c, d).value)
  {
    hide ParsePem;
  }

  lemma BlobCarries(c: Crypto, kind: Kind, keys: Keys, pass: string, r: Draws, passes: set<string>)
    requires LawfulKeys(c) && IdealCipher(c) && CipherFits(c, r) && pass in passes
    ensures Carries(c, kind, EncFile, Blob.EncryptSecret(c, SecretOf(c, keys.ed25519, keys.hmac), pass, r.salt, r.nonce),
                    passes, SecretIn(kind, keys))
  {
    hide Blob.EncryptSecret, Blob.DecryptSecret;
    var blob := Blob.EncryptSecret(c, SecretOf(c, keys.ed25519, keys.hmac), pass, r.salt, r.nonce);
    Blob.DecryptOfEncrypt(c, SecretOf(c, keys.ed25519, keys.hmac), pass, r.salt, r.nonce, pass);
    Hex.DecodeOfEncode(keys.hmac);
    assert Opens(c, kind, blob, pass, SecretIn(kind, keys));
  }

  /** An encryption loses nothing: the blob is there before the plaintext goes. */
  lemma EncryptLosesNothing(c: Crypto, kind: Kind, d: Dir, pass: string, r: Draws, n: nat, passes: set<string>, k: Bytes)
    requires LawfulKeys(c) && IdealCipher(c) && CipherFits(c, r) && pass in passes
    requires PlanEncrypt(c, d, pass, r).Ok? && Held(c, kind, d, passes, k)
    ensures Held(c, kind, ApplyAll(d, Done(PlanEncrypt(c, d, pass, r).value.ops, n)), passes, k)
  {
    hide Carries, ApplyAll, LoadPlaintext, Blob.EncryptSecret, PublicBytes;
    var plan := PlanEncrypt(c, d, pass, r).value;
    var (done, own) := (Done(plan.ops, n), Active(OwnFile(kind)));
    var path :| path in d.files && At(c, kind, d, path, passes, k);
    HoldersAre(c, kind, d, path, passes, k);
    if path == own && n > 0 {
      KeysAreActive(c, kind, d, passes, k);
      BlobCarries(c, kind, plan.keys, pass, r, passes);
      assert done[0] == plan.ops[0] && forall i | 0 < i < |done| :: done[i] == plan.ops[i];
      LastWrite(d, done, 0);
      FilesHold(c, kind, ApplyAll(d, done), Active(EncFile), passes, k);
    } else {
      UntouchedAt(c, kind, d, done, path, passes, k);
      FilesHold(c, kind, ApplyAll(d, done), path, passes, k);
    }
  }

  // ---------- Decrypting ----------

  lemma BlobHasOneSecret(c: Crypto, kind: Kind, d: Dir, pass: string, passes: set<string>, k: Bytes)
    requires IdealCipher(c) && IsEncrypted(d) && LoadEncrypted(c, d, Some(pass)).Ok?
    requires At(c, kind, d, Active(EncFile), passes, k)
    ensures k == SecretIn(kind, LoadEncrypted(c, d, Some(pass)).value)
  {
    hide Blob.DecryptSecret, IdealCipher;
    var content := d.files[Active(EncFile)];
    var p :| p in passes && Opens(c, kind, content, p, k);
    Blob.OnePassphrase(c, content, pass, p);
  }

  lemma RemovedFile(d: Dir, ops: seq<FileOp>, i: nat)
    requires i < |ops| && ops[i].Remove? && NoneTouches(ops[i + 1..], ops[i].path)
    ensures ops[i].path !in ApplyAll(d, ops).files
  {
    hide ApplyAll;
    assert ops == ops[..i] + ([ops[i]] + ops[i + 1..]);
    ApplyAllAppend(d, ops[..i], [ops[i]] + ops[i + 1..]);
    ApplyAllAppend(ApplyAll(d, ops[..i]), [ops[i]], ops[i + 1..]);
    ApplyOne(ApplyAll(d, ops[..i]), ops[i]);
    UntouchedFile(Apply(ApplyAll(d, ops[..i]), ops[i]), ops[i + 1..], ops[i].path);
  }

  /** The blob is the same until it is removed, after the pair is written. */
  lemma BlobGoesLast(c: Crypto, d: Dir, pass: string, n: nat)
    requires PlanDecrypt(c, d, pass).Ok?
    ensures
      var (ops, enc) := (PlanDecrypt(c, d, pass).value.ops, Active(EncFile));
      var d' := ApplyAll(d, Done(ops, n));
      enc in d'.files <==> n <= 2
    ensures
      var (ops, enc) := (PlanDecrypt(c, d, pass).value.ops, Active(EncFile));
      n <= 2 ==> NoneTouches(Done(ops, n), enc)
  {
    hide ApplyAll, LoadEncrypted, PemBytes;
    var ops := PlanDecrypt(c, d, pass).value.ops;
    var done := Done(ops, n);
    if n <= 2 {
      UntouchedFile(d, done, Active(EncFile));
    } else {
      assert done[2] == ops[2] && forall i | 2 < i < |done| :: done[i] == ops[i];
      RemovedFile(d, done, 2);
    }
  }

  lemma DecryptLosesExactly(c: Crypto, kind: Kind, d: Dir, pass: string, n: nat, passes: set<string>, k: Bytes)
    requires LawfulKeys(c) && IdealCipher(c)
    requires PlanDecrypt(c, d, pass).Ok? && Held(c, kind, d, passes, k)
    ensures Held(c, kind, ApplyAll(d, Done(PlanDecrypt(c, d, pass).value.ops, n)), passes, k) <==>
      !Loses(c, kind, d, Request.Decrypt(pass), n, passes, k)
  {
    hide Carries, ApplyAll, PutBack, PemBytes, LoadEncrypted, IdealCipher, LawfulKeys;
    var plan := PlanDecrypt(c, d, pass).value;
    var (ops, own, enc) := (plan.ops, Active(OwnFile(kind)), Active(EncFile));
    var done := Done(ops, n);
    var d' := ApplyAll(d, done);
    DecryptWritesPair(c, kind, d, pass);
    OwnIsWritten(c, kind, d, ops, plan.keys, n, passes, k);
    BlobGoesLast(c, d, pass, n);
    if PutBack(c, kind, done, passes, k) {
      PutBackIsOwn(c, kind, ops, plan.keys, n, passes, k);
      FilesHold(c, kind, d', own, passes, k);
    }
    if At(c, kind, d, enc, passes, k) {
      BlobHasOneSecret(c, kind, d, pass, passes, k);
    }
    forall path | path != own && path != enc && (path.name == OwnFile(kind) || path.name == EncFile)
      ensures At(c, kind, d', path, passes, k) <==> At(c, kind, d, path, passes, k)
    {
      DecryptSpares(c, kind, d, pass, n, path);
      UntouchedAt(c, kind, d, done, path, passes, k);
    }
    if n <= 2 {
      UntouchedAt(c, kind, d, done, enc, passes, k);
    }
    if n < OwnTurn(kind) {
      UntouchedAt(c, kind, d, done, own, passes, k);
    }
    TwoDecide(c, kind, d, d', own, enc, passes, k);
  }

  lemma DecryptWritesPair(c: Crypto, kind: Kind, d: Dir, pass: string)
    requires PlanDecrypt(c, d, pass).Ok?
    ensures var plan := PlanDecrypt(c, d, pass).value;
            WritesPair(c, kind, plan.ops, plan.keys) && forall i | 2 <= i < |plan.ops| :: !plan.ops[i].Write?
  {
    hide LoadEncrypted, PemBytes;
  }

  lemma DecryptSpares(c: Crypto, kind: Kind, d: Dir, pass: string, n: nat, path: Path)
    requires PlanDecrypt(c, d, pass).Ok?
    requires path != Active(OwnFile(kind)) && path != Active(EncFile) && (path.name == OwnFile(kind) || path.name == EncFile)
    ensures NoneTouches(Done(PlanDecrypt(c, d, pass).value.ops, n), path)
  {
    hide LoadEncrypted, PemBytes;
  }

  /** When all holders but two places are as before, these two decide. */
  lemma TwoDecide(c: Crypto, kind: Kind, d: Dir, d': Dir, a: Path, b: Path, passes: set<string>, k: Bytes)
    requires forall path | path != a && path != b && (path.name == OwnFile(kind) || path.name == EncFile) ::
               At(c, kind, d', path, passes, k) <==> At(c, kind, d, path, passes, k)
    ensures Held(c, kind, d', passes, k) <==>
      At(c, kind, d', a, passes, k) || At(c, kind, d', b, passes, k) ||
      exists path | path in d.files && path != a && path != b :: At(c, kind, d, path, passes, k)
  {
    hide Carries;
    forall path, e | e in {d, d'} && At(c, kind, e, path, passes, k) ensures path.name == OwnFile(kind) || path.name == EncFile {
      HoldersAre(c, kind, e, path, passes, k);
    }
  }

  // ---------- Rotating ----------

  /** The active file that a rotation moves and that may hold a secret of the kind. */
  function MovedName(kind: Kind, d: Dir): Name {
    if IsEncrypted(d) then EncFile else OwnFile(kind)
  }

  /** How many operations of a rotation include that move. */
  function Turn(kind: Kind, d: Dir): nat {
    if IsEncrypted(d) then 2 else MoveTurn(kind, d)
  }

  /** The place of the fresh file of that name among the operations of a rotation. */
  function FreshTurn(kind: Kind, d: Dir, ops: seq<FileOp>): int {
    if IsEncrypted(d) || kind.SigningSecret? then |ops| - 2 else |ops| - 1
  }

  predicate IsLoud(kind: Kind, name: Name) {
    name == OwnFile(kind) || name == EncFile
  }

  /** A rotation touches the active file only to move it, at `turn`, and to write
      it anew, at `again`, the archived one only by the move, and no other file
      that could hold a secret of the kind. */
  ghost predicate RotateShape(kind: Kind, ops: seq<FileOp>, from: Path, to: Path, present: bool, turn: nat, again: nat) {
    && again < |ops| && ops[again].Write? && ops[again].path == from
    && (present ==> 0 < turn <= again && ops[turn - 1] == Rename(from, to))
    && (forall i | 0 <= i < |ops| && ops[i].Write? && i != again :: !IsLoud(kind, ops[i].path.name))
    && (forall i | 0 <= i < |ops| && Touches(ops[i], to) :: present && i == turn - 1)
    && (forall i | 0 <= i < |ops| && Touches(ops[i], from) :: (present && i == turn - 1) || i == again)
    && (forall i, path | 0 <= i < |ops| && Touches(ops[i], path) :: path == from || path == to || !IsLoud(kind, path.name))
  }

  /** The operations of a rotation, given which of the two files are there. */
  function RotateList(a: Name, b: Name, pa: bool, pb: bool, stamp: string, first: Bytes, second: Bytes): seq<FileOp> {
    [MakeArchive(stamp)] +
    (if pa then [Rename(Active(a), Archived(stamp, a))] else []) +
    (if pb then [Rename(Active(b), Archived(stamp, b))] else []) +
    [Write(Active(a), first), Write(Active(b), second)]
  }

  lemma FirstHasShape(kind: Kind, a: Name, b: Name, pa: bool, pb: bool, stamp: string, first: Bytes, second: Bytes)
    requires a != b && IsLoud(kind, a) && !IsLoud(kind, b)
    ensures
      var ops := RotateList(a, b, pa, pb, stamp, first, second);
      RotateShape(kind, ops, Active(a), Archived(stamp, a), pa, 2, |ops| - 2)
  {
    var ops := RotateList(a, b, pa, pb, stamp, first, second);
    var (ra, rb) := (Rename(Active(a), Archived(stamp, a)), Rename(Active(b), Archived(stamp, b)));
    var (wa, wb) := (Write(Active(a), first), Write(Active(b), second));
    if pa && pb {
      assert ops == [MakeArchive(stamp), ra, rb, wa, wb];
    } else if pa || pb {
      assert ops == [MakeArchive(stamp), if pa then ra else rb, wa, wb];
    } else {
      assert ops == [MakeArchive(stamp), wa, wb];
    }
  }

  lemma SecondHasShape(kind: Kind, a: Name, b: Name, pa: bool, pb: bool, stamp: string, first: Bytes, second: Bytes)
    requires a != b && IsLoud(kind, b) && !IsLoud(kind, a)
    ensures
      var ops := RotateList(a, b, pa, pb, stamp, first, second);
      RotateShape(kind, ops, Active(b), Archived(stamp, b), pb, if pa then 3 else 2, |ops| - 1)
  {
    var ops := RotateList(a, b, pa, pb, stamp, first, second);
    var (ra, rb) := (Rename(Active(a), Archived(stamp, a)), Rename(Active(b), Archived(stamp, b)));
    var (wa, wb) := (Write(Active(a), first), Write(Active(b), second));
    if pa && pb {
      assert ops == [MakeArchive(stamp), ra, rb, wa, wb];
    } else if pa || pb {
      assert ops == [MakeArchive(stamp), if pa then ra else rb, wa, wb];
    } else {
      assert ops == [MakeArchive(stamp), wa, wb];
    }
  }

  lemma RotateIsList(c: Crypto, d: Dir, pass: Option<string>, stamp: string, r: Draws)
    requires PlanRotate(c, d, pass, stamp, r).Ok?
    ensures
      var (a, b) := ActiveNames(d);
      exists first: Bytes, second: Bytes ::
        PlanRotate(c, d, pass, stamp, r).value.ops ==
          RotateList(a, b, Active(a) in d.files, Active(b) in d.files, stamp, first, second)
  {
    hide PemBytes, PublicBytes, Blob.EncryptSecret, SecretOf;
    var (a, b) := ActiveNames(d);
    ArchiveOpsOfTwo(d, a, b, stamp);
    var writes := FreshOps(c, if IsEncrypted(d) then pass else None, r);
    assert writes == [Write(Active(a), writes[0].content), Write(Active(b), writes[1].content)];
    assert PlanRotate(c, d, pass, stamp, r).value.ops ==
      RotateList(a, b, Active(a) in d.files, Active(b) in d.files, stamp, writes[0].content, writes[1].content);
  }

  lemma RotateHasShape(c: Crypto, kind: Kind, d: Dir, pass: Option<string>, stamp: string, r: Draws)
    requires PlanRotate(c, d, pass, stamp, r).Ok?
    ensures
      var (ops, x) := (PlanRotate(c, d, pass, stamp, r).value.ops, MovedName(kind, d));
      FreshTurn(kind, d, ops) >= 0 &&
      RotateShape(kind, ops, Active(x), Archived(stamp, x), Active(x) in d.files, Turn(kind, d), FreshTurn(kind, d, ops))
  {
    hide PlanRotate, RotateShape;
    var (a, b) := ActiveNames(d);
    RotateIsList(c, d, pass, stamp, r);
    var first: Bytes, second: Bytes :| PlanRotate(c, d, pass, stamp, r).value.ops ==
      RotateList(a, b, Active(a) in d.files, Active(b) in d.files, stamp, first, second);
    if IsEncrypted(d) || kind.SigningSecret? {
      FirstHasShape(kind, a, b, Active(a) in d.files, Active(b) in d.files, stamp, first, second);
    } else {
      SecondHasShape(kind, a, b, Active(a) in d.files, Active(b) in d.files, stamp, first, second);
    }
  }

  /** A file moved and then left alone is at its new place. */
  lemma MovedFile(d: Dir, ops: seq<FileOp>, i: nat)
    requires i < |ops| && ops[i].Rename? && ops[i].from in d.files
    requires NoneTouches(ops[..i], ops[i].from) && NoneTouches(ops[i + 1..], ops[i].to)
    ensures ops[i].to in ApplyAll(d, ops).files && ApplyAll(d, ops).files[ops[i].to] == d.files[ops[i].from]
    ensures ops[i].from != ops[i].to && NoneTouches(ops[i + 1..], ops[i].from) ==> ops[i].from !in ApplyAll(d, ops).files
  {
    hide ApplyAll;
    var (first, rest) := (ops[..i], ops[i + 1..]);
    assert ops == first + ([ops[i]] + rest);
    ApplyAllAppend(d, first, [ops[i]] + rest);
    ApplyAllAppend(ApplyAll(d, first), [ops[i]], rest);
    ApplyOne(ApplyAll(d, first), ops[i]);
    UntouchedFile(d, first, ops[i].from);
    var mid := Apply(ApplyAll(d, first), ops[i]);
    UntouchedFile(mid, rest, ops[i].to);
    if ops[i].from != ops[i].to && NoneTouches(rest, ops[i].from) {
      UntouchedFile(mid, rest, ops[i].from);
    }
  }

  /** What a rotation leaves in the two places, after the move has taken place. */
  lemma RotateMoves(kind: Kind, d: Dir, ops: seq<FileOp>, from: Path, to: Path, turn: nat, again: nat, n: nat)
    requires RotateShape(kind, ops, from, to, true, turn, again) && from in d.files && from != to && n >= turn
    ensures
      var d' := ApplyAll(d, Done(ops, n));
      && to in d'.files && d'.files[to] == d.files[from]
      && (from in d'.files <==> n > again)
      && (n > again ==> d'.files[from] == ops[again].content)
  {
    hide ApplyAll;
    var done := Done(ops, n);
    assert forall i | 0 <= i < |done| :: done[i] == ops[i];
    MovedFile(d, done, turn - 1);
    if n > again {
      LastWrite(d, done, again);
    }
  }

  lemma RotateSpares(kind: Kind, ops: seq<FileOp>, from: Path, to: Path, present: bool, turn: nat, again: nat, n: nat, path: Path)
    requires RotateShape(kind, ops, from, to, present, turn, again)
    ensures path != from && path != to && IsLoud(kind, path.name) ==> NoneTouches(Done(ops, n), path)
    ensures !present || n < turn ==> NoneTouches(Done(ops, n), to)
    ensures (present && n < turn) || (!present && n <= again) ==> NoneTouches(Done(ops, n), from)
  {
  }

  /** The fresh file is the only write that can hold a secret of the kind. */
  lemma FreshPutsBack(c: Crypto, kind: Kind, ops: seq<FileOp>, from: Path, to: Path, present: bool, turn: nat, again: nat,
                      n: nat, passes: set<string>, k: Bytes)
    requires RotateShape(kind, ops, from, to, present, turn, again)
    ensures PutBack(c, kind, Done(ops, n), passes, k) <==>
      n > again && Carries(c, kind, from.name, ops[again].content, passes, k)
  {
    hide Opens, ParsePem;
    var done := Done(ops, n);
    assert forall i | 0 <= i < |done| :: done[i] == ops[i];
    if n > again {
      assert done[again] == ops[again];
    }
  }

  /** A rotation, on its shape alone. */
  lemma RotateDecides(c: Crypto, kind: Kind, d: Dir, ops: seq<FileOp>, from: Path, to: Path, turn: nat, again: nat, n: nat,
                      passes: set<string>, k: Bytes)
    requires RotateShape(kind, ops, from, to, from in d.files, turn, again)
    requires from != to && from.name == to.name && Held(c, kind, d, passes, k)
    ensures Held(c, kind, ApplyAll(d, Done(ops, n)), passes, k) <==>
      !(from in d.files && n >= turn && to in d.files && OnlyAt(c, kind, d, to, passes, k) &&
        !PutBack(c, kind, Done(ops, n), passes, k))
  {
    hide Carries, ApplyAll, PutBack, RotateShape, Done, Held;
    var present := from in d.files;
    var done := Done(ops, n);
    var d' := ApplyAll(d, done);
    FreshPutsBack(c, kind, ops, from, to, present, turn, again, n, passes, k);
    forall path | path != from && path != to && (path.name == OwnFile(kind) || path.name == EncFile)
      ensures At(c, kind, d', path, passes, k) <==> At(c, kind, d, path, passes, k)
    {
      RotateSpares(kind, ops, from, to, present, turn, again, n, path);
      UntouchedAt(c, kind, d, done, path, passes, k);
    }
    TwoDecide(c, kind, d, d', from, to, passes, k);
    HeldWithTwo(c, kind, d, from, to, passes, k);
    RotateSpares(kind, ops, from, to, present, turn, again, n, to);
    if present && n >= turn {
      RotateMoves(kind, d, ops, from, to, turn, again, n);
    } else {
      UntouchedAt(c, kind, d, done, to, passes, k);
      if present {
        UntouchedAt(c, kind, d, done, from, passes, k);
      }
    }
  }

  lemma HeldWithTwo(c: Crypto, kind: Kind, d: Dir, a: Path, b: Path, passes: set<string>, k: Bytes)
    ensures Held(c, kind, d, passes, k) <==>
      At(c, kind, d, a, passes, k) || At(c, kind, d, b, passes, k) ||
      exists path | path in d.files && path != a && path != b :: At(c, kind, d, path, passes, k)
  {
    hide Carries;
  }

  lemma RotateLosesExactly(c: Crypto, kind: Kind, d: Dir, pass: Option<string>, stamp: string, r: Draws, n: nat,
                           passes: set<string>, k: Bytes)
    requires PlanRotate(c, d, pass, stamp, r).Ok? && Held(c, kind, d, passes, k)
    ensures Held(c, kind, ApplyAll(d, Done(PlanRotate(c, d, pass, stamp, r).value.ops, n)), passes, k) <==>
      !Loses(c, kind, d, Rotate(pass, stamp, r), n, passes, k)
  {
    hide ApplyAll, PutBack, PlanRotate, OnlyAt, Held, RotateShape, FreshTurn;
    var (ops, x) := (PlanRotate(c, d, pass, stamp, r).value.ops, MovedName(kind, d));
    RotateHasShape(c, kind, d, pass, stamp, r);
    RotateDecides(c, kind, d, ops, Active(x), Archived(stamp, x), Turn(kind, d), FreshTurn(kind, d, ops), n, passes, k);
  }

  // ---------- Every request ----------

  /** The exact condition: whatever the request and wherever it breaks off, a
      secret that was held is held afterwards if and only if the request does not
      overwrite its only file, or puts it back. */
  lemma LosesExactly(c: Crypto, kind: Kind, d: Dir, q: Request, n: nat, passes: set<string>, k: Bytes)
    requires LawfulKeys(c) && IdealCipher(c) && DrawsFit(c, q) && PlanOf(c, d, q).Ok? && Passes(q) <= passes
    requires Held(c, kind, d, passes, k)
    ensures Held(c, kind, ApplyAll(d, Done(PlanOf(c, d, q).value.ops, n)), passes, k) <==>
      !Loses(c, kind, d, q, n, passes, k)
  {
    hide PlanLoad, PlanEncrypt, PlanDecrypt, PlanRotate, Held, OnlyAt, PutBack, ApplyAll, LawfulKeys, IdealCipher;
    match q
    case Load(pass, r) => LoadLosesExactly(c, kind, d, pass, r, n, passes, k);
    case Encrypt(pass, r) => EncryptLosesNothing(c, kind, d, pass, r, n, passes, k);
    case Decrypt(pass) => DecryptLosesExactly(c, kind, d, pass, n, passes, k);
    case Rotate(pass, stamp, r) => RotateLosesExactly(c, kind, d, pass, stamp, r, n, passes, k);
  }

  // ---------- Runs that overwrite nothing ----------

  /** No request of the run overwrites a file that may hold a secret of the kind. */
  predicate NoVictims(c: Crypto, kind: Kind, w: World, events: seq<Event>)
    decreases |events|
  {
    events == [] ||
    (DrawsFit(c, events[0].request) &&
     (PlanOf(c, w.dir, events[0].request).Ok? ==> Victim(kind, w.dir, events[0].request, events[0].budget).None?) &&
     NoVictims(c, kind, Step(c, w, events[0]), events[1..]))
  }

  lemma HeldWithMore(c: Crypto, kind: Kind, d: Dir, passes: set<string>, more: set<string>, k: Bytes)
    requires Held(c, kind, d, passes, k) && passes <= more
    ensures Held(c, kind, d, more, k)
  {
    hide Opens, ParsePem;
    var path :| path in d.files && At(c, kind, d, path, passes, k);
    assert At(c, kind, d, path, more, k);
  }

  /** The request of the event is not refused, and loses the secret. */
  ghost predicate LosesAt(c: Crypto, kind: Kind, w: World, e: Event, k: Bytes) {
    PlanOf(c, w.dir, e.request).Ok? &&
    Loses(c, kind, w.dir, e.request, e.budget, w.passes + Passes(e.request), k)
  }

  lemma StepLosesExactly(c: Crypto, kind: Kind, w: World, e: Event, k: Bytes)
    requires LawfulKeys(c) && IdealCipher(c) && DrawsFit(c, e.request)
    requires Held(c, kind, w.dir, w.passes, k)
    ensures Held(c, kind, Step(c, w, e).dir, Step(c, w, e).passes, k) <==> !LosesAt(c, kind, w, e, k)
  {
    hide Held, PlanOf, Loses, LawfulKeys, IdealCipher;
    var passes := w.passes + Passes(e.request);
    HeldWithMore(c, kind, w.dir, w.passes, passes, k);
    if PlanOf(c, w.dir, e.request).Ok? {
      LosesExactly(c, kind, w.dir, e.request, e.budget, passes, k);
    }
  }

  /** The secret is held at the start, and again after each event. */
  ghost predicate HeldThroughout(c: Crypto, kind: Kind, w: World, events: seq<Event>, k: Bytes)
    decreases |events|
  {
    Held(c, kind, w.dir, w.passes, k) && (events == [] || HeldThroughout(c, kind, Step(c, w, events[0]), events[1..], k))
  }

  /** No event loses the secret when its turn comes. */
  ghost predicate NeverLost(c: Crypto, kind: Kind, w: World, events: seq<Event>, k: Bytes)
    decreases |events|
  {
    events == [] || (!LosesAt(c, kind, w, events[0], k) && NeverLost(c, kind, Step(c, w, events[0]), events[1..], k))
  }

  /** The exact condition over whole runs, with crashes anywhere. */
  lemma {:induction false} KeptExactly(c: Crypto, kind: Kind, w: World, events: seq<Event>, k: Bytes)
    requires LawfulKeys(c) && IdealCipher(c) && forall e | e in events :: DrawsFit(c, e.request)
    requires Held(c, kind, w.dir, w.passes, k)
    ensures HeldThroughout(c, kind, w, events, k) <==> NeverLost(c, kind, w, events, k)
    decreases |events|
  {
    hide Held, Step, LosesAt, LawfulKeys, IdealCipher, DrawsFit;
    if events != [] {
      StepLosesExactly(c, kind, w, events[0], k);
      if !LosesAt(c, kind, w, events[0], k) {
        KeptExactly(c, kind, Step(c, w, events[0]), events[1..], k);
      }
    }
  }

  lemma StepKeepsSecret(c: Crypto, kind: Kind, w: World, e: Event, k: Bytes)
    requires LawfulKeys(c) && IdealCipher(c) && DrawsFit(c, e.request)
    requires PlanOf(c, w.dir, e.request).Ok? ==> Victim(kind, w.dir, e.request, e.budget).None?
    requires Held(c, kind, w.dir, w.passes, k)
    ensures Held(c, kind, Step(c, w, e).dir, Step(c, w, e).passes, k)
  {
    hide Held, PlanOf, Victim, Step, LawfulKeys, IdealCipher;
    StepLosesExactly(c, kind, w, e, k);
  }

  /** Conservation for either kind of secret, over any run that overwrites nothing. */
  lemma {:induction false} SecretsAreKept(c: Crypto, kind: Kind, w: World, events: seq<Event>, k: Bytes)
    requires LawfulKeys(c) && IdealCipher(c) && NoVictims(c, kind, w, events)
    requires Held(c, kind, w.dir, w.passes, k)
    ensures Held(c, kind, Run(c, w, events).dir, Run(c, w, events).passes, k)
    decreases |events|
  {
    hide Held, Step, PlanOf, Victim, LawfulKeys, IdealCipher, DrawsFit;
    if events != [] {
      StepKeepsSecret(c, kind, w, events[0], k);
      SecretsAreKept(c, kind, Step(c, w, events[0]), events[1..], k);
    }
  }

  lemma LoadedIsHeld(c: Crypto, kind: Kind, d: Dir, pass: Option<string>, passes: set<string>)
    requires pass.Some? ==> pass.value in passes
    ensures IsEncrypted(d) && LoadEncrypted(c, d, pass).Ok? ==>
              Held(c, kind, d, passes, SecretIn(kind, LoadEncrypted(c, d, pass).value))
    ensures HasPlaintext(d) && LoadPlaintext(c, d).Ok? ==>
              Held(c, kind, d, passes, SecretIn(kind, LoadPlaintext(c, d).value))
  {
    hide Blob.DecryptSecret, ParsePem;
    if IsEncrypted(d) && LoadEncrypted(c, d, pass).Ok? {
      assert pass.value in passes;
      assert Opens(c, kind, d.files[Active(EncFile)], pass.value, SecretIn(kind, LoadEncrypted(c, d, pass).value));
      assert At(c, kind, d, Active(EncFile), passes, SecretIn(kind, LoadEncrypted(c, d, pass).value));
    }
    if HasPlaintext(d) && LoadPlaintext(c, d).Ok? {
      assert At(c, kind, d, Active(OwnFile(kind)), passes, SecretIn(kind, LoadPlaintext(c, d).value));
    }
  }

  /** Fresh files hold the fresh secrets. */
  lemma FreshIsHeld(c: Crypto, kind: Kind, d: Dir, pass: Option<string>, r: Draws, passes: set<string>)
    requires LawfulKeys(c) && IdealCipher(c) && CipherFits(c, r) && (pass.Some? ==> pass.value in passes)
    ensures Held(c, kind, ApplyAll(d, FreshOps(c, pass, r)), passes, SecretIn(kind, KeysOf(c, r.hmac, r.signing)))
  {
    hide Carries, PemBytes, PublicBytes, Blob.EncryptSecret, ApplyAll, LawfulKeys, IdealCipher;
    var keys := KeysOf(c, r.hmac, r.signing);
    var ops := FreshOps(c, pass, r);
    var d' := ApplyAll(d, ops);
    if pass.Some? {
      BlobCarries(c, kind, keys, pass.value, r, passes);
      LastWrite(d, ops, 0);
      FilesHold(c, kind, d', Active(EncFile), passes, SecretIn(kind, keys));
    } else {
      assert ops[..2] == ops && Done(ops, 2) == ops;
      OwnIsWritten(c, kind, d, ops, keys, 2, passes, SecretIn(kind, keys));
      FilesHold(c, kind, d', Active(OwnFile(kind)), passes, SecretIn(kind, keys));
    }
  }

  /** A completed request leaves the secrets it returns in some file. */
  lemma ReturnedIsHeld(c: Crypto, kind: Kind, d: Dir, q: Request, passes: set<string>)
    requires LawfulKeys(c) && IdealCipher(c) && DrawsFit(c, q) && PlanOf(c, d, q).Ok? && Passes(q) <= passes
    ensures var plan := PlanOf(c, d, q).value;
            Held(c, kind, ApplyAll(d, plan.ops), passes, SecretIn(kind, plan.keys))
  {
    hide LoadEncrypted, LoadPlaintext, FreshOps, Held, LawfulKeys, IdealCipher, EncryptedOps;
    var plan := PlanOf(c, d, q).value;
    assert Done(plan.ops, |plan.ops|) == plan.ops;
    match q
    case Load(pass, r) =>
      if IsEncrypted(d) || HasPlaintext(d) {
        LoadedIsHeld(c, kind, d, pass, passes);
      } else {
        FreshIsHeld(c, kind, d, pass, r, passes);
      }
    case Encrypt(pass, r) =>
      LoadedIsHeld(c, kind, d, None, passes);
      EncryptLosesNothing(c, kind, d, pass, r, |plan.ops|, passes, SecretIn(kind, plan.keys));
    case Decrypt(pass) => DecryptReturnsHeld(c, kind, d, pass, passes);
    case Rotate(pass, stamp, r) => RotateReturnsHeld(c, kind, d, pass, stamp, r, passes);
  }

  lemma DecryptReturnsHeld(c: Crypto, kind: Kind, d: Dir, pass: string, passes: set<string>)
    requires LawfulKeys(c) && PlanDecrypt(c, d, pass).Ok?
    ensures var plan := PlanDecrypt(c, d, pass).value;
            Held(c, kind, ApplyAll(d, plan.ops), passes, SecretIn(kind, plan.keys))
  {
    hide LoadEncrypted, PemBytes, Carries, ApplyAll, LawfulKeys;
    var plan := PlanDecrypt(c, d, pass).value;
    var n := |plan.ops|;
    assert Done(plan.ops, n) == plan.ops;
    DecryptWritesPair(c, kind, d, pass);
    OwnIsWritten(c, kind, d, plan.ops, plan.keys, n, passes, SecretIn(kind, plan.keys));
    FilesHold(c, kind, ApplyAll(d, plan.ops), Active(OwnFile(kind)), passes, SecretIn(kind, plan.keys));
  }

  lemma RotateReturnsHeld(c: Crypto, kind: Kind, d: Dir, pass: Option<string>, stamp: string, r: Draws, passes: set<string>)
    requires LawfulKeys(c) && IdealCipher(c) && CipherFits(c, r)
    requires PlanRotate(c, d, pass, stamp, r).Ok? && (pass.Some? ==> pass.value in passes)
    ensures var plan := PlanRotate(c, d, pass, stamp, r).value;
            Held(c, kind, ApplyAll(d, plan.ops), passes, SecretIn(kind, plan.keys))
  {
    hide Held, FreshOps, ApplyAll, LawfulKeys, IdealCipher, ArchiveOps;
    var head := [MakeArchive(stamp)] + ArchiveOps(d, ActiveFiles(d), stamp);
    var mode := if IsEncrypted(d) then pass else None;
    FreshIsHeld(c, kind, ApplyAll(d, head), mode, r, passes);
    ApplyAllAppend(d, head, FreshOps(c, mode, r));
  }

  /** The MAC secret and the signing key that a completed request returned are
      still held at the end of any run that follows and overwrites nothing. */
  lemma ReturnedSecretIsKept(c: Crypto, kind: Kind, w: World, e: Event, after: seq<Event>)
    requires LawfulKeys(c) && IdealCipher(c) && DrawsFit(c, e.request)
    requires PlanOf(c, w.dir, e.request).Ok? && e.budget >= |PlanOf(c, w.dir, e.request).value.ops|
    requires NoVictims(c, kind, Step(c, w, e), after)
    ensures var end := Run(c, w, [e] + after);
            Held(c, kind, end.dir, end.passes, SecretIn(kind, PlanOf(c, w.dir, e.request).value.keys))
  {
    hide Held, PlanOf, NoVictims, LawfulKeys, IdealCipher, Run;
    var plan := PlanOf(c, w.dir, e.request).value;
    ReturnedIsHeld(c, kind, w.dir, e.request, w.passes + Passes(e.request));
    SecretsAreKept(c, kind, Step(c, w, e), after, SecretIn(kind, plan.keys));
    RunStarts(c, w, e, after);
  }

  lemma RunStarts(c: Crypto, w: World, e: Event, after: seq<Event>)
    ensures Run(c, w, [e] + after) == Run(c, Step(c, w, e), after)
  {
    hide Step;
    assert ([e] + after)[0] == e && ([e] + after)[1..] == after;
  }

  // ---------- The guard of the conservation proof is exact ----------

  lemma FreshCarriesItself(c: Crypto, pass: Option<string>, r: Draws, passes: set<string>, k: SigningKey)
    requires LawfulKeys(c) && IdealCipher(c) && CipherFits(c, r)
    ensures forall op | op in FreshOps(c, pass, r) && Carries(c, SigningSecret, op.path.name, op.content, passes, k) ::
              k == r.signing
  {
    hide PemBytes, PublicBytes, Blob.EncryptSecret, Blob.DecryptSecret, IdealCipher;
    PemIsHeld(c, r.signing);
    Hex.DecodeOfEncode(r.hmac);
    if pass.Some? {
      var secret := SecretOf(c, r.signing, r.hmac);
      forall p {
        Blob.DecryptOfEncrypt(c, secret, pass.value, r.salt, r.nonce, p);
      }
    }
  }

  /** If the file that a rotation moves first is already in the archive entry and
      is the only one to hold a key, then a rotation that gets as far as the move
      loses that key, unless it draws the same key again. */
  lemma OverwritingRotationLosesKey(c: Crypto, d: Dir, pass: Option<string>, stamp: string, r: Draws, n: nat,
                                    passes: set<string>, k: SigningKey)
    requires LawfulKeys(c) && IdealCipher(c) && CipherFits(c, r) && PlanRotate(c, d, pass, stamp, r).Ok?
    requires pass.Some? ==> pass.value in passes
    requires
      var a := ActiveNames(d).0;
      Active(a) in d.files && OnlyAt(c, SigningSecret, d, Archived(stamp, a), passes, k)
    requires n >= 2 && k != r.signing
    ensures !Held(c, SigningSecret, ApplyAll(d, Done(PlanRotate(c, d, pass, stamp, r).value.ops, n)), passes, k)
  {
    hide Carries, PlanRotate, FreshOps, ApplyAll, LawfulKeys, IdealCipher;
    var ops := PlanRotate(c, d, pass, stamp, r).value.ops;
    var a := ActiveNames(d).0;
    FilesHold(c, SigningSecret, d, Archived(stamp, a), passes, k);
    RotateLosesExactly(c, SigningSecret, d, pass, stamp, r, n, passes, k);
    if PutBack(c, SigningSecret, Done(ops, n), passes, k) {
      var i :| 0 <= i < |Done(ops, n)| && Done(ops, n)[i].Write? &&
        Carries(c, SigningSecret, Done(ops, n)[i].path.name, Done(ops, n)[i].content, passes, k);
      RotateWritesFresh(c, d, pass, stamp, r, i);
      FreshCarriesItself(c, if IsEncrypted(d) then pass else None, r, passes, k);
    }
  }

  lemma RotateWritesFresh(c: Crypto, d: Dir, pass: Option<string>, stamp: string, r: Draws, i: nat)
    requires PlanRotate(c, d, pass, stamp, r).Ok? && i < |PlanRotate(c, d, pass, stamp, r).value.ops|
    requires PlanRotate(c, d, pass, stamp, r).value.ops[i].Write?
    ensures PlanRotate(c, d, pass, stamp, r).value.ops[i] in FreshOps(c, if IsEncrypted(d) then pass else None, r)
  {
    hide FreshOps;
    var (a, b) := ActiveNames(d);
    ArchiveOpsOfTwo(d, a, b, stamp);
  }
}
