/** No signing key that an operation has returned is ever lost: whatever the
    initial directory, whatever the order of operations and wherever they crash. */
module KeySafety {
  import opened Prelude
  import opened Crypto
  import opened KeystoreSpec
  import Blob
  import Hex
  import Utf8

  // ---------- Runs ----------

  /** The directory, the signing keys returned so far and the passphrases supplied so far. */
  datatype World = World(dir: Dir, returned: set<SigningKey>, passes: set<string>)

  /** A request of which at most `budget` file operations take place: fewer than
      it needs is a crash or an I/O error. */
  datatype Event = Event(request: Request, budget: nat)

  function Passes(q: Request): set<string> {
    match q
    case Load(pass, _) => if pass.Some? then {pass.value} else {}
    case Encrypt(pass, _) => {pass}
    case Decrypt(pass) => {pass}
    case Rotate(pass, _, _) => if pass.Some? then {pass.value} else {}
  }

  function Done(ops: seq<FileOp>, budget: nat): seq<FileOp> {
    if budget < |ops| then ops[..budget] else ops
  }

  function Step(c: Crypto, w: World, e: Event): World {
    var passes := w.passes + Passes(e.request);
    match PlanOf(c, w.dir, e.request)
    case Err(_) => w.(passes := passes)
    case Ok(plan) =>
      World(ApplyAll(w.dir, Done(plan.ops, e.budget)),
            if e.budget < |plan.ops| then w.returned else w.returned + {plan.keys.ed25519},
            passes)
  }

  function Run(c: Crypto, w: World, events: seq<Event>): World
    decreases |events|
  {
    if events == [] then w else Run(c, Step(c, w, events[0]), events[1..])
  }

  // ---------- Where a key is kept ----------

  /** The file's content holds the key: as a PEM, or sealed under a supplied passphrase. */
  ghost predicate Holds(c: Crypto, name: Name, content: Bytes, passes: set<string>, k: SigningKey) {
    match name
    case Ed25519File => ParsePem(c, content) == Some(k)
    case EncFile =>
      exists p | p in passes ::
        Blob.DecryptSecret(c, content, p).Ok? && KeysOfSecret(c, Blob.DecryptSecret(c, content, p).value).Ok? &&
        KeysOfSecret(c, Blob.DecryptSecret(c, content, p).value).value.ed25519 == k
    case _ => false
  }

  ghost predicate HoldsAt(c: Crypto, d: Dir, path: Path, passes: set<string>, k: SigningKey) {
    path in d.files && Holds(c, path.name, d.files[path], passes, k)
  }

  ghost predicate Stored(c: Crypto, w: World, k: SigningKey) {
    exists path | path in w.dir.files :: HoldsAt(c, w.dir, path, w.passes, k)
  }

  ghost predicate InArchive(c: Crypto, d: Dir, passes: set<string>, k: SigningKey) {
    exists path | path in d.files && path.Archived? :: HoldsAt(c, d, path, passes, k)
  }

  /** The plaintext pair is the active keystore and holds the key. */
  ghost predicate InPlaintext(c: Crypto, d: Dir, k: SigningKey) {
    !IsEncrypted(d) && HasPlaintext(d) && HoldsAt(c, d, Active(Ed25519File), {}, k)
  }

  ghost predicate Kept(c: Crypto, d: Dir, passes: set<string>, k: SigningKey) {
    InArchive(c, d, passes, k) || HoldsAt(c, d, Active(EncFile), passes, k) || InPlaintext(c, d, k)
  }

  /** The invariant of every run. */
  ghost predicate Safe(c: Crypto, w: World) {
    forall k | k in w.returned :: Kept(c, w.dir, w.passes, k)
  }

  // ---------- Operations that leave places alone ----------

  /** Archived files are neither overwritten nor removed. */
  predicate SparesArchive(op: FileOp, d: Dir) {
    match op
    case Write(path, _) => path.Active?
    case Remove(path) => path.Active?
    case Rename(from, to) => from.Active? && to.Archived? && to !in d.files
    case MakeArchive(_) => true
  }

  predicate SparesEnc(op: FileOp) {
    (op.Write? || op.Remove?) && op.path.Active? && op.path.name != EncFile
  }

  lemma SparedArchive(c: Crypto, d: Dir, op: FileOp, passes: set<string>, k: SigningKey)
    requires SparesArchive(op, d) && InArchive(c, d, passes, k)
    ensures InArchive(c, Apply(d, op), passes, k)
  {
    hide Holds;
    var path :| path in d.files && path.Archived? && HoldsAt(c, d, path, passes, k);
    assert HoldsAt(c, Apply(d, op), path, passes, k);
  }

  lemma {:induction false} SparedEnc(c: Crypto, d: Dir, ops: seq<FileOp>, passes: set<string>, k: SigningKey)
    requires forall op | op in ops :: SparesEnc(op)
    requires InArchive(c, d, passes, k) || HoldsAt(c, d, Active(EncFile), passes, k)
    ensures InArchive(c, ApplyAll(d, ops), passes, k) || HoldsAt(c, ApplyAll(d, ops), Active(EncFile), passes, k)
    ensures (Active(EncFile) in ApplyAll(d, ops).files) == (Active(EncFile) in d.files)
    decreases |ops|
  {
    if ops != [] {
      var d' := Apply(d, ops[0]);
      assert SparesEnc(ops[0]);
      if InArchive(c, d, passes, k) {
        SparedArchive(c, d, ops[0], passes, k);
      } else {
        assert HoldsAt(c, d', Active(EncFile), passes, k);
      }
      SparedEnc(c, d', ops[1..], passes, k);
    }
  }

  predicate WritesActive(op: FileOp) {
    (op.Write? || op.Remove?) && op.path.Active?
  }

  lemma {:induction false} SparedByWrites(c: Crypto, d: Dir, ops: seq<FileOp>, passes: set<string>, k: SigningKey)
    requires forall op | op in ops :: WritesActive(op)
    requires InArchive(c, d, passes, k)
    ensures InArchive(c, ApplyAll(d, ops), passes, k)
    decreases |ops|
  {
    if ops != [] {
      assert WritesActive(ops[0]);
      SparedArchive(c, d, ops[0], passes, k);
      SparedByWrites(c, Apply(d, ops[0]), ops[1..], passes, k);
    }
  }

  /** More passphrases never hide a key. */
  lemma KeptIsMonotone(c: Crypto, d: Dir, passes: set<string>, more: set<string>, k: SigningKey)
    requires Kept(c, d, passes, k) && passes <= more
    ensures Kept(c, d, more, k)
  {
    if InArchive(c, d, passes, k) {
      var path :| path in d.files && path.Archived? && HoldsAt(c, d, path, passes, k);
      assert HoldsAt(c, d, path, more, k);
    }
  }

  // ---------- Each operation, up to any crash ----------

  lemma DoneWrites(ops: seq<FileOp>, n: nat)
    ensures forall op | op in Done(ops, n) :: op in ops
  {
  }

  /** Writing fresh keys over whatever is active keeps the archived keys. */
  lemma FreshKeepsArchive(c: Crypto, d: Dir, pass: Option<string>, r: Draws, n: nat, passes: set<string>, k: SigningKey)
    requires InArchive(c, d, passes, k)
    ensures InArchive(c, ApplyAll(d, Done(FreshOps(c, pass, r), n)), passes, k)
  {
    hide FreshOps, InArchive;
    FreshWrites(c, pass, r);
    SparedByWrites(c, d, Done(FreshOps(c, pass, r), n), passes, k);
  }

  predicate CipherFits(c: Crypto, r: Draws) {
    && c.kdfAccepts(Blob.SCRYPT_LOG_N, Blob.SCRYPT_R, Blob.SCRYPT_P)
    && |r.salt| == Blob.SALT_LEN && |r.nonce| == Blob.NONCE_LEN
  }

  lemma PemIsHeld(c: Crypto, k: SigningKey)
    requires LawfulKeys(c)
    ensures ParsePem(c, PemBytes(c, k)) == Some(k)
  {
    Utf8.DecodeOfEncode(c.privatePem(k));
  }

  lemma SealedIsHeld(c: Crypto, k: SigningKey, hmac: Bytes, pass: string, r: Draws, passes: set<string>)
    requires LawfulKeys(c) && IdealCipher(c) && CipherFits(c, r) && pass in passes
    ensures Holds(c, EncFile, Blob.EncryptSecret(c, SecretOf(c, k, hmac), pass, r.salt, r.nonce), passes, k)
  {
    hide Blob.EncryptSecret, Blob.DecryptSecret;
    Blob.DecryptOfEncrypt(c, SecretOf(c, k, hmac), pass, r.salt, r.nonce, pass);
    Hex.DecodeOfEncode(hmac);
  }

  lemma ApplyTwo(d: Dir, a: FileOp, b: FileOp)
    ensures ApplyAll(d, [a, b]) == Apply(Apply(d, a), b)
  {
    assert [a, b][1..] == [b] && [b][1..] == [];
    assert ApplyAll(Apply(d, a), [b]) == ApplyAll(Apply(Apply(d, a), b), []);
  }

  /** Once all fresh files are written, the fresh key is kept. */
  lemma FreshIsKept(c: Crypto, d: Dir, pass: Option<string>, r: Draws, passes: set<string>)
    requires LawfulKeys(c) && IdealCipher(c) && CipherFits(c, r)
    requires !IsEncrypted(d) && (pass.Some? ==> pass.value in passes)
    ensures Kept(c, ApplyAll(d, FreshOps(c, pass, r)), passes, r.signing)
  {
    hide Blob.EncryptSecret, Blob.DecryptSecret, ApplyAll;
    var ops := FreshOps(c, pass, r);
    ApplyTwo(d, ops[0], ops[1]);
    if pass.Some? {
      SealedIsHeld(c, r.signing, r.hmac, pass.value, r, passes);
    } else {
      PemIsHeld(c, r.signing);
    }
  }

  lemma EncryptIsSafe(c: Crypto, d: Dir, pass: string, r: Draws, n: nat, passes: set<string>, k: SigningKey)
    requires LawfulKeys(c) && IdealCipher(c) && CipherFits(c, r) && pass in passes
    requires PlanEncrypt(c, d, pass, r).Ok?
    requires Kept(c, d, passes, k)
    ensures Kept(c, ApplyAll(d, Done(PlanEncrypt(c, d, pass, r).value.ops, n)), passes, k)
  {
    hide Blob.EncryptSecret, Blob.DecryptSecret, PemBytes, LawfulKeys, IdealCipher, CipherFits;
    var plan := PlanEncrypt(c, d, pass, r).value;
    if n > 0 {
      var d1 := Apply(d, plan.ops[0]);
      var rest := Done(plan.ops, n)[1..];
      assert forall op | op in rest :: op in plan.ops[1..];
      assert forall op | op in plan.ops[1..] :: SparesEnc(op);
      if InArchive(c, d, passes, k) {
        SparedArchive(c, d, plan.ops[0], passes, k);
      } else {
        SealedIsHeld(c, plan.keys.ed25519, plan.keys.hmac, pass, r, passes);
      }
      SparedEnc(c, d1, rest, passes, k);
      assert ApplyAll(d, Done(plan.ops, n)) == ApplyAll(d1, rest);
    }
  }

  /** The one key a blob holds is the key that decrypting it returns. */
  lemma OneKeyPerBlob(c: Crypto, d: Dir, pass: string, passes: set<string>, k: SigningKey)
    requires IdealCipher(c)
    requires IsEncrypted(d) && LoadEncrypted(c, d, Some(pass)).Ok?
    requires HoldsAt(c, d, Active(EncFile), passes, k)
    ensures LoadEncrypted(c, d, Some(pass)).value.ed25519 == k
  {
    hide Blob.DecryptSecret;
    var content := d.files[Active(EncFile)];
    var p :| p in passes && Blob.DecryptSecret(c, content, p).Ok? &&
      KeysOfSecret(c, Blob.DecryptSecret(c, content, p).value).Ok? &&
      KeysOfSecret(c, Blob.DecryptSecret(c, content, p).value).value.ed25519 == k;
    Blob.OnePassphrase(c, content, pass, p);
  }

  lemma PlaintextIsActive(c: Crypto, d: Dir, k: SigningKey, hmac: Bytes)
    requires LawfulKeys(c)
    ensures
      var d2 := ApplyAll(d, PlaintextOps(c, k, hmac));
      InPlaintext(c, Apply(d2, Remove(Active(EncFile))), k) &&
      InPlaintext(c, Apply(Apply(d2, Remove(Active(EncFile))), Remove(Active(PublicFile))), k)
  {
    var ops := PlaintextOps(c, k, hmac);
    ApplyTwo(d, ops[0], ops[1]);
    PemIsHeld(c, k);
  }

  lemma DecryptIsSafe(c: Crypto, d: Dir, pass: string, n: nat, passes: set<string>, k: SigningKey)
    requires LawfulKeys(c) && IdealCipher(c)
    requires PlanDecrypt(c, d, pass).Ok?
    requires Kept(c, d, passes, k)
    ensures Kept(c, ApplyAll(d, Done(PlanDecrypt(c, d, pass).value.ops, n)), passes, k)
  {
    hide Blob.DecryptSecret, HoldsAt;
    var plan := PlanDecrypt(c, d, pass).value;
    var ops := Done(plan.ops, n);
    if InArchive(c, d, passes, k) {
      assert forall op | op in plan.ops :: WritesActive(op);
      SparedByWrites(c, d, ops, passes, k);
    } else if n <= 2 {
      assert forall op | op in plan.ops[..2] :: SparesEnc(op);
      assert ops == plan.ops[..n];
      SparedEnc(c, d, ops, passes, k);
    } else {
      OneKeyPerBlob(c, d, pass, passes, k);
      PlaintextIsActive(c, d, k, plan.keys.hmac);
      DecryptEnd(c, d, pass, n);
    }
  }

  /** The last steps of a decryption remove the blob, and then the public key if it is there. */
  lemma DecryptEnd(c: Crypto, d: Dir, pass: string, n: nat)
    requires PlanDecrypt(c, d, pass).Ok? && n > 2
    ensures
      var plan := PlanDecrypt(c, d, pass).value;
      var d2 := Apply(ApplyAll(d, PlaintextOps(c, plan.keys.ed25519, plan.keys.hmac)), Remove(Active(EncFile)));
      var d' := ApplyAll(d, Done(plan.ops, n));
      d' == d2 || d' == Apply(d2, Remove(Active(PublicFile)))
  {
    hide LoadEncrypted, Apply, PemBytes;
    var plan := PlanDecrypt(c, d, pass).value;
    var head := PlaintextOps(c, plan.keys.ed25519, plan.keys.hmac);
    var tail := Done(plan.ops, n)[2..];
    assert Done(plan.ops, n) == head + tail;
    ApplyAllAppend(d, head, tail);
    assert tail[0] == Remove(Active(EncFile));
    assert |tail| == 1 ==> tail == [tail[0]] && tail[1..] == [];
    assert |tail| == 2 ==> tail == [Remove(Active(EncFile)), Remove(Active(PublicFile))];
    if |tail| == 2 {
      ApplyTwo(ApplyAll(d, head), tail[0], tail[1]);
    }
  }

  /** A rotation finds none of the files it is about to move in its archive entry already. */
  predicate ClearEntry(d: Dir, stamp: string) {
    var (a, b) := ActiveNames(d);
    && (Active(a) in d.files ==> Archived(stamp, a) !in d.files)
    && (Active(b) in d.files ==> Archived(stamp, b) !in d.files)
  }

  /** Moving a file into a new archive entry keeps what it holds. */
  lemma MovedIsArchived(c: Crypto, d: Dir, name: Name, stamp: string, passes: set<string>, k: SigningKey)
    requires InArchive(c, d, passes, k) || HoldsAt(c, d, Active(name), passes, k)
    requires Archived(stamp, name) !in d.files
    requires Active(name) in d.files
    ensures InArchive(c, Apply(d, Rename(Active(name), Archived(stamp, name))), passes, k)
  {
    hide Holds;
    var op := Rename(Active(name), Archived(stamp, name));
    if InArchive(c, d, passes, k) {
      SparedArchive(c, d, op, passes, k);
    } else {
      assert HoldsAt(c, Apply(d, op), Archived(stamp, name), passes, k);
    }
  }

  /** Each operation spares the archive in the state it meets. */
  predicate SparesAll(ops: seq<FileOp>, d: Dir)
    decreases |ops|
  {
    ops == [] || (SparesArchive(ops[0], d) && SparesAll(ops[1..], Apply(d, ops[0])))
  }

  lemma {:induction false} SparesAllAppend(a: seq<FileOp>, b: seq<FileOp>, d: Dir)
    ensures SparesAll(a + b, d) <==> SparesAll(a, d) && SparesAll(b, ApplyAll(d, a))
    decreases |a|
  {
    hide SparesArchive, Apply;
    if a == [] {
      assert a + b == b;
    } else {
      assert (a + b)[1..] == a[1..] + b;
      SparesAllAppend(a[1..], b, Apply(d, a[0]));
    }
  }

  lemma {:induction false} WritesSpareAll(ops: seq<FileOp>, d: Dir)
    requires forall op | op in ops :: WritesActive(op)
    ensures SparesAll(ops, d)
    decreases |ops|
  {
    hide Apply;
    if ops != [] {
      assert WritesActive(ops[0]);
      WritesSpareAll(ops[1..], Apply(d, ops[0]));
    }
  }

  lemma {:induction false} SparedAll(c: Crypto, ops: seq<FileOp>, d: Dir, passes: set<string>, k: SigningKey)
    requires SparesAll(ops, d) && InArchive(c, d, passes, k)
    ensures InArchive(c, ApplyAll(d, ops), passes, k)
    decreases |ops|
  {
    hide InArchive, SparesArchive, Apply;
    if ops != [] {
      SparedArchive(c, d, ops[0], passes, k);
      SparedAll(c, ops[1..], Apply(d, ops[0]), passes, k);
    }
  }

  lemma ArchiveOpsOfTwo(d: Dir, a: Name, b: Name, stamp: string)
    ensures ArchiveOps(d, [a, b], stamp) ==
      (if Active(a) in d.files then [Rename(Active(a), Archived(stamp, a))] else []) +
      (if Active(b) in d.files then [Rename(Active(b), Archived(stamp, b))] else [])
  {
    assert [a, b][1..] == [b] && [b][1..] == [];
    assert ArchiveOps(d, [b], stamp) ==
      (if Active(b) in d.files then [Rename(Active(b), Archived(stamp, b))] else []) + ArchiveOps(d, [], stamp);
  }

  lemma MovesSpareAll(d: Dir, d': Dir, a: Name, b: Name, stamp: string)
    requires (a, b) == ActiveNames(d) && ClearEntry(d, stamp) && d'.files == d.files
    ensures SparesAll(ArchiveOps(d, [a, b], stamp), d')
  {
    ArchiveOpsOfTwo(d, a, b, stamp);
    var ops := ArchiveOps(d, [a, b], stamp);
    if |ops| == 2 {
      assert ops[1..] == [ops[1]] && [ops[1]][1..] == [];
    } else if |ops| == 1 {
      assert ops[1..] == [];
    }
  }

  lemma MakeArchiveKeepsFiles(d: Dir, stamp: string)
    ensures Apply(d, MakeArchive(stamp)).files == d.files
  {
  }

  lemma RotateSparesAll(c: Crypto, d: Dir, pass: Option<string>, stamp: string, r: Draws)
    requires PlanRotate(c, d, pass, stamp, r).Ok? && ClearEntry(d, stamp)
    ensures SparesAll(PlanRotate(c, d, pass, stamp, r).value.ops, d)
  {
    hide Apply, FreshOps;
    var (a, b) := ActiveNames(d);
    var moves := ArchiveOps(d, [a, b], stamp);
    var writes := FreshOps(c, if IsEncrypted(d) then pass else None, r);
    var d' := Apply(d, MakeArchive(stamp));
    MakeArchiveKeepsFiles(d, stamp);
    MovesSpareAll(d, d', a, b, stamp);
    FreshWrites(c, if IsEncrypted(d) then pass else None, r);
    WritesSpareAll(writes, ApplyAll(ApplyAll(d, [MakeArchive(stamp)]), moves));
    assert [MakeArchive(stamp)][1..] == [];
    SparesAllAppend([MakeArchive(stamp)], moves, d);
    SparesAllAppend([MakeArchive(stamp)] + moves, writes, d);
    ApplyAllAppend(d, [MakeArchive(stamp)], moves);
  }

  lemma FreshWrites(c: Crypto, pass: Option<string>, r: Draws)
    ensures forall op | op in FreshOps(c, pass, r) :: WritesActive(op)
  {
    hide PemBytes, PublicBytes, Blob.EncryptSecret;
  }

  lemma DoneIsPrefix(ops: seq<FileOp>, n: nat)
    ensures Done(ops, n) + ops[|Done(ops, n)|..] == ops
  {
  }

  /** The first move of a rotation takes the file that holds the active key. */
  lemma RotateHead(c: Crypto, d: Dir, pass: Option<string>, stamp: string, r: Draws)
    requires PlanRotate(c, d, pass, stamp, r).Ok? && Active(ActiveNames(d).0) in d.files
    ensures
      var (ops, a) := (PlanRotate(c, d, pass, stamp, r).value.ops, ActiveNames(d).0);
      |ops| >= 2 && ops[..2] == [MakeArchive(stamp), Rename(Active(a), Archived(stamp, a))]
  {
    hide FreshOps;
    var (a, b) := ActiveNames(d);
    ArchiveOpsOfTwo(d, a, b, stamp);
  }

  lemma RotateIsSafe(c: Crypto, d: Dir, pass: Option<string>, stamp: string, r: Draws, n: nat,
                     passes: set<string>, k: SigningKey)
    requires PlanRotate(c, d, pass, stamp, r).Ok? && ClearEntry(d, stamp)
    requires Kept(c, d, passes, k)
    ensures Kept(c, ApplyAll(d, Done(PlanRotate(c, d, pass, stamp, r).value.ops, n)), passes, k)
  {
    hide PlanRotate, Apply, HoldsAt, InArchive, InPlaintext;
    var ops := PlanRotate(c, d, pass, stamp, r).value.ops;
    var done := Done(ops, n);
    RotateSparesAll(c, d, pass, stamp, r);
    DoneIsPrefix(ops, n);
    SparesAllAppend(done, ops[|done|..], d);
    if InArchive(c, d, passes, k) {
      SparedAll(c, done, d, passes, k);
    } else if n > 0 {
      RotateActive(c, d, pass, stamp, r, n, passes, k);
    }
  }

  lemma RotateActive(c: Crypto, d: Dir, pass: Option<string>, stamp: string, r: Draws, n: nat,
                     passes: set<string>, k: SigningKey)
    requires PlanRotate(c, d, pass, stamp, r).Ok? && ClearEntry(d, stamp) && n > 0
    requires Kept(c, d, passes, k) && !InArchive(c, d, passes, k)
    requires SparesAll(Done(PlanRotate(c, d, pass, stamp, r).value.ops, n), d)
    ensures Kept(c, ApplyAll(d, Done(PlanRotate(c, d, pass, stamp, r).value.ops, n)), passes, k)
  {
    hide PlanRotate, InArchive, Holds, SparesAll, ApplyAll, ArchiveOps;
    var ops, a := PlanRotate(c, d, pass, stamp, r).value.ops, ActiveNames(d).0;
    var done := Done(ops, n);
    if !IsEncrypted(d) {
      PemHoldsUnderAny(c, d.files[Active(Ed25519File)], passes, k);
    }
    assert HoldsAt(c, d, Active(a), passes, k);
    RotateHead(c, d, pass, stamp, r);
    var made := Apply(d, MakeArchive(stamp));
    if n == 1 {
      assert done == [MakeArchive(stamp)];
      ApplyOne(d, MakeArchive(stamp));
    } else {
      assert done == ops[..2] + done[2..];
      SparesAllAppend(ops[..2], done[2..], d);
      ApplyAllAppend(d, ops[..2], done[2..]);
      ApplyTwo(d, ops[0], ops[1]);
      MovedIsArchived(c, made, a, stamp, passes, k);
      SparedAll(c, done[2..], ApplyAll(d, ops[..2]), passes, k);
    }
  }

  /** Before the fresh keys are written, a rotation has moved the blob away. */
  lemma RotateClears(d: Dir, stamp: string)
    ensures
      var (a, b) := ActiveNames(d);
      !IsEncrypted(ApplyAll(d, [MakeArchive(stamp)] + ArchiveOps(d, [a, b], stamp)))
  {
    var (a, b) := ActiveNames(d);
    ArchiveOpsOfTwo(d, a, b, stamp);
    var moves := ArchiveOps(d, [a, b], stamp);
    ApplyAllAppend(d, [MakeArchive(stamp)], moves);
    assert [MakeArchive(stamp)][1..] == [];
    if |moves| == 2 {
      ApplyTwo(Apply(d, MakeArchive(stamp)), moves[0], moves[1]);
    } else if |moves| == 1 {
      assert moves[1..] == [];
    }
  }

  lemma RotateReturnsKept(c: Crypto, d: Dir, pass: Option<string>, stamp: string, r: Draws, passes: set<string>)
    requires LawfulKeys(c) && IdealCipher(c) && CipherFits(c, r)
    requires PlanRotate(c, d, pass, stamp, r).Ok? && (pass.Some? ==> pass.value in passes)
    ensures Kept(c, ApplyAll(d, PlanRotate(c, d, pass, stamp, r).value.ops), passes, r.signing)
  {
    hide Apply, FreshOps, Kept;
    var (a, b) := ActiveNames(d);
    var head := [MakeArchive(stamp)] + ArchiveOps(d, [a, b], stamp);
    var mode := if IsEncrypted(d) then pass else None;
    RotateClears(d, stamp);
    FreshIsKept(c, ApplyAll(d, head), mode, r, passes);
    ApplyAllAppend(d, head, FreshOps(c, mode, r));
  }

  /** A key that can be loaded is kept. */
  lemma LoadableIsKept(c: Crypto, d: Dir, pass: Option<string>, passes: set<string>)
    requires pass.Some? ==> pass.value in passes
    ensures IsEncrypted(d) && LoadEncrypted(c, d, pass).Ok? ==>
              Kept(c, d, passes, LoadEncrypted(c, d, pass).value.ed25519)
    ensures !IsEncrypted(d) && HasPlaintext(d) && LoadPlaintext(c, d).Ok? ==>
              Kept(c, d, passes, LoadPlaintext(c, d).value.ed25519)
  {
    hide Blob.DecryptSecret;
    if IsEncrypted(d) && LoadEncrypted(c, d, pass).Ok? {
      var k := LoadEncrypted(c, d, pass).value.ed25519;
      assert pass.value in passes;
      assert HoldsAt(c, d, Active(EncFile), passes, k);
    }
  }

  // ---------- Runs are safe ----------

  /** The random values fit, and a rotation that takes place finds its entry clear. */
  predicate Admissible(c: Crypto, d: Dir, q: Request) {
    match q
    case Load(_, r) => CipherFits(c, r)
    case Encrypt(_, r) => CipherFits(c, r)
    case Decrypt(_) => true
    case Rotate(_, stamp, r) => CipherFits(c, r) && (PlanOf(c, d, q).Ok? ==> ClearEntry(d, stamp))
  }

  lemma RequestKeeps(c: Crypto, d: Dir, q: Request, n: nat, passes: set<string>, k: SigningKey)
    requires LawfulKeys(c) && IdealCipher(c) && Admissible(c, d, q)
    requires PlanOf(c, d, q).Ok? && Passes(q) <= passes
    requires Kept(c, d, passes, k)
    ensures Kept(c, ApplyAll(d, Done(PlanOf(c, d, q).value.ops, n)), passes, k)
  {
    hide LoadEncrypted, LoadPlaintext, FreshOps, Holds;
    match q
    case Load(pass, r) =>
      if !IsEncrypted(d) && !HasPlaintext(d) {
        FreshKeepsArchive(c, d, pass, r, n, passes, k);
      }
    case Encrypt(pass, r) => EncryptIsSafe(c, d, pass, r, n, passes, k);
    case Decrypt(pass) => DecryptIsSafe(c, d, pass, n, passes, k);
    case Rotate(pass, stamp, r) => RotateIsSafe(c, d, pass, stamp, r, n, passes, k);
  }

  lemma RequestReturnsKept(c: Crypto, d: Dir, q: Request, passes: set<string>)
    requires LawfulKeys(c) && IdealCipher(c) && Admissible(c, d, q)
    requires PlanOf(c, d, q).Ok? && Passes(q) <= passes
    ensures Kept(c, ApplyAll(d, PlanOf(c, d, q).value.ops), passes, PlanOf(c, d, q).value.keys.ed25519)
  {
    hide LoadEncrypted, LoadPlaintext, FreshOps, Kept;
    var ops := PlanOf(c, d, q).value.ops;
    assert Done(ops, |ops|) == ops;
    match q
    case Load(pass, r) =>
      LoadableIsKept(c, d, pass, passes);
      if !IsEncrypted(d) && !HasPlaintext(d) {
        FreshIsKept(c, d, pass, r, passes);
      }
    case Encrypt(pass, r) =>
      LoadableIsKept(c, d, None, passes);
      RequestKeeps(c, d, q, |ops|, passes, PlanOf(c, d, q).value.keys.ed25519);
    case Decrypt(pass) =>
      LoadableIsKept(c, d, Some(pass), passes);
      RequestKeeps(c, d, q, |ops|, passes, PlanOf(c, d, q).value.keys.ed25519);
    case Rotate(pass, stamp, r) => RotateReturnsKept(c, d, pass, stamp, r, passes);
  }

  /** One request, completed, refused or cut short anywhere, keeps the invariant. */
  lemma StepIsSafe(c: Crypto, w: World, e: Event)
    requires LawfulKeys(c) && IdealCipher(c) && Admissible(c, w.dir, e.request)
    requires Safe(c, w)
    ensures Safe(c, Step(c, w, e))
  {
    hide PlanOf, Kept, Passes, Admissible;
    var passes := w.passes + Passes(e.request);
    forall k | k in w.returned ensures Kept(c, w.dir, passes, k) {
      KeptIsMonotone(c, w.dir, w.passes, passes, k);
    }
    if PlanOf(c, w.dir, e.request).Ok? {
      var plan := PlanOf(c, w.dir, e.request).value;
      forall k | k in w.returned ensures Kept(c, ApplyAll(w.dir, Done(plan.ops, e.budget)), passes, k) {
        RequestKeeps(c, w.dir, e.request, e.budget, passes, k);
      }
      if e.budget >= |plan.ops| {
        RequestReturnsKept(c, w.dir, e.request, passes);
      }
    }
  }

  /** Every archived file lies under one of the stamps in `used`. */
  predicate StampsWithin(d: Dir, used: set<string>) {
    forall path | path in d.files && path.Archived? :: path.stamp in used
  }

  function StampOf(q: Request): set<string> {
    match q
    case Rotate(_, stamp, _) => {stamp}
    case _ => {}
  }

  predicate DrawsFit(c: Crypto, q: Request) {
    match q
    case Load(_, r) => CipherFits(c, r)
    case Encrypt(_, r) => CipherFits(c, r)
    case Decrypt(_) => true
    case Rotate(_, _, r) => CipherFits(c, r)
  }

  /** No two rotations share a stamp, and none uses one of `used`. */
  predicate DistinctStamps(c: Crypto, events: seq<Event>, used: set<string>)
    decreases |events|
  {
    events == [] ||
    (DrawsFit(c, events[0].request) && StampOf(events[0].request) !! used &&
     DistinctStamps(c, events[1..], used + StampOf(events[0].request)))
  }

  predicate MovesWithin(op: FileOp, used: set<string>) {
    match op
    case Write(path, _) => path.Active?
    case Rename(_, to) => to.Archived? ==> to.stamp in used
    case _ => true
  }

  lemma {:induction false} StampsStayWithin(d: Dir, ops: seq<FileOp>, used: set<string>)
    requires StampsWithin(d, used) && forall op | op in ops :: MovesWithin(op, used)
    ensures StampsWithin(ApplyAll(d, ops), used)
    decreases |ops|
  {
    if ops != [] {
      assert MovesWithin(ops[0], used);
      StampsStayWithin(Apply(d, ops[0]), ops[1..], used);
    }
  }

  lemma RequestMovesWithin(c: Crypto, d: Dir, q: Request)
    requires PlanOf(c, d, q).Ok?
    ensures forall op | op in PlanOf(c, d, q).value.ops :: MovesWithin(op, StampOf(q))
  {
    hide LoadEncrypted, LoadPlaintext, FreshOps, EncryptedOps, PlaintextOps;
    match q
    case Load(pass, r) => WritesMoveWithin(c, pass, r, {});
    case Encrypt(pass, r) =>
      if LoadPlaintext(c, d).Ok? {
        WritesMoveWithin(c, Some(pass), r.(signing := LoadPlaintext(c, d).value.ed25519,
                                           hmac := LoadPlaintext(c, d).value.hmac), {});
        FreshIsEncrypted(c, pass, r.(signing := LoadPlaintext(c, d).value.ed25519,
                                     hmac := LoadPlaintext(c, d).value.hmac));
      }
    case Decrypt(pass) =>
      var keys := LoadEncrypted(c, d, Some(pass)).value;
      WritesMoveWithin(c, None, Draws(keys.ed25519, keys.hmac, [], []), {});
      FreshIsPlaintext(c, Draws(keys.ed25519, keys.hmac, [], []));
    case Rotate(pass, stamp, r) =>
      var (a, b) := ActiveNames(d);
      ArchiveOpsOfTwo(d, a, b, stamp);
      WritesMoveWithin(c, if IsEncrypted(d) then pass else None, r, {stamp});
  }

  lemma FreshIsEncrypted(c: Crypto, pass: string, r: Draws)
    ensures FreshOps(c, Some(pass), r) == EncryptedOps(c, r.signing, r.hmac, pass, r.salt, r.nonce)
  {
  }

  lemma FreshIsPlaintext(c: Crypto, r: Draws)
    ensures FreshOps(c, None, r) == PlaintextOps(c, r.signing, r.hmac)
  {
  }

  lemma WritesMoveWithin(c: Crypto, pass: Option<string>, r: Draws, used: set<string>)
    ensures forall op | op in FreshOps(c, pass, r) :: MovesWithin(op, used)
  {
    hide PemBytes, PublicBytes, Blob.EncryptSecret;
  }

  lemma StepStampsWithin(c: Crypto, w: World, e: Event, used: set<string>)
    requires StampsWithin(w.dir, used)
    ensures StampsWithin(Step(c, w, e).dir, used + StampOf(e.request))
  {
    hide PlanOf;
    if PlanOf(c, w.dir, e.request).Ok? {
      var ops := PlanOf(c, w.dir, e.request).value.ops;
      RequestMovesWithin(c, w.dir, e.request);
      DoneWrites(ops, e.budget);
      StampsStayWithin(w.dir, Done(ops, e.budget), used + StampOf(e.request));
    }
  }

  /** Every rotation of the run finds its archive entry clear when its turn comes. */
  predicate AllAdmissible(c: Crypto, w: World, events: seq<Event>)
    decreases |events|
  {
    events == [] || (Admissible(c, w.dir, events[0].request) && AllAdmissible(c, Step(c, w, events[0]), events[1..]))
  }

  lemma {:induction false} RunIsSafe(c: Crypto, w: World, events: seq<Event>)
    requires LawfulKeys(c) && IdealCipher(c) && AllAdmissible(c, w, events)
    requires Safe(c, w)
    ensures Safe(c, Run(c, w, events))
    decreases |events|
  {
    hide Step, Safe, Admissible;
    if events != [] {
      StepIsSafe(c, w, events[0]);
      RunIsSafe(c, Step(c, w, events[0]), events[1..]);
    }
  }

  /** Conservation: start from any directory, run any requests, let each complete
      or break off after any of its file operations. If no rotation moves a file
      over an archived one, every signing key a completed request returned is
      still stored, as a PEM or sealed under a passphrase that was supplied. */
  lemma NoReturnedKeyIsLost(c: Crypto, d: Dir, events: seq<Event>, k: SigningKey)
    requires LawfulKeys(c) && IdealCipher(c) && AllAdmissible(c, World(d, {}, {}), events)
    requires k in Run(c, World(d, {}, {}), events).returned
    ensures Stored(c, Run(c, World(d, {}, {}), events), k)
  {
    hide Run, Holds, AllAdmissible;
    var w := Run(c, World(d, {}, {}), events);
    RunIsSafe(c, World(d, {}, {}), events);
    assert Kept(c, w.dir, w.passes, k);
    if InPlaintext(c, w.dir, k) {
      PemHoldsUnderAny(c, w.dir.files[Active(Ed25519File)], w.passes, k);
      assert HoldsAt(c, w.dir, Active(Ed25519File), w.passes, k);
    }
  }

  /** Distinct stamps keep every entry clear, so they are enough. */
  lemma {:induction false} DistinctStampsAreClear(c: Crypto, w: World, events: seq<Event>, used: set<string>)
    requires StampsWithin(w.dir, used) && DistinctStamps(c, events, used)
    ensures AllAdmissible(c, w, events)
    decreases |events|
  {
    hide Step, PlanOf;
    if events != [] {
      StepStampsWithin(c, w, events[0], used);
      DistinctStampsAreClear(c, Step(c, w, events[0]), events[1..], used + StampOf(events[0].request));
    }
  }

  lemma PemHoldsUnderAny(c: Crypto, content: Bytes, passes: set<string>, k: SigningKey)
    requires Holds(c, Ed25519File, content, {}, k)
    ensures Holds(c, Ed25519File, content, passes, k)
  {
  }

  // ---------- What the premises are for ----------

  function PlainLoad(r: Draws): Event {
    Event(Load(None, r), 10)
  }

  function PlainRotate(stamp: string, r: Draws, budget: nat): Event {
    Event(Rotate(None, stamp, r), budget)
  }

  function PlainDir(c: Crypto, k: SigningKey, hmac: Bytes, archive: map<Path, Bytes>, stamps: set<string>): Dir {
    Dir(archive[Active(Ed25519File) := PemBytes(c, k)][Active(HmacFile) := hmac], stamps)
  }

  lemma LoadFromNothing(c: Crypto, w: World, r: Draws)
    requires Active(Ed25519File) !in w.dir.files && !IsEncrypted(w.dir)
    ensures Step(c, w, PlainLoad(r)) ==
      World(PlainDir(c, r.signing, r.hmac, w.dir.files, w.dir.stamps), w.returned + {r.signing}, w.passes)
  {
    hide PemBytes;
    var ops := PlaintextOps(c, r.signing, r.hmac);
    ApplyTwo(w.dir, ops[0], ops[1]);
  }

  lemma MovePair<K, V>(m: map<K, V>, a: K, b: K, x: V, y: V, a': K, b': K)
    requires a !in m && b !in m && a != b && a' != b' && {a, b} !! {a', b'}
    ensures ((m[a := x][b := y] - {a})[a' := x] - {b})[b' := y] == m[a' := x][b' := y]
  {
  }

  lemma MovePlain(c: Crypto, k: SigningKey, hmac: Bytes, archive: map<Path, Bytes>, stamps: set<string>, stamp: string)
    requires forall path | path in archive :: path.Archived?
    ensures
      var d := PlainDir(c, k, hmac, archive, stamps);
      Apply(Apply(d, Rename(Active(Ed25519File), Archived(stamp, Ed25519File))),
            Rename(Active(HmacFile), Archived(stamp, HmacFile))) ==
        Dir(archive[Archived(stamp, Ed25519File) := PemBytes(c, k)][Archived(stamp, HmacFile) := hmac], stamps)
  {
    hide PemBytes;
    MovePair(archive, Active(Ed25519File), Active(HmacFile), PemBytes(c, k), hmac,
             Archived(stamp, Ed25519File), Archived(stamp, HmacFile));
  }

  /** A plaintext rotation moves the pair into its archive entry, over what was there. */
  lemma RotatePlain(c: Crypto, k: SigningKey, hmac: Bytes, archive: map<Path, Bytes>, stamps: set<string>,
                    stamp: string, r: Draws)
    requires forall path | path in archive :: path.Archived?
    ensures
      var d := PlainDir(c, k, hmac, archive, stamps);
      var moved := archive[Archived(stamp, Ed25519File) := PemBytes(c, k)][Archived(stamp, HmacFile) := hmac];
      PlanRotate(c, d, None, stamp, r).Ok? &&
      ApplyAll(d, PlanRotate(c, d, None, stamp, r).value.ops) ==
        PlainDir(c, r.signing, r.hmac, moved, stamps + {stamp})
  {
    hide PemBytes, ApplyAll;
    var d := PlainDir(c, k, hmac, archive, stamps);
    var moves := ArchiveOps(d, [Ed25519File, HmacFile], stamp);
    var writes := PlaintextOps(c, r.signing, r.hmac);
    ArchiveOpsOfTwo(d, Ed25519File, HmacFile, stamp);
    assert ActiveFiles(d)[0] == Ed25519File && Active(Ed25519File) in d.files;
    assert PlanRotate(c, d, None, stamp, r).value.ops == [MakeArchive(stamp)] + moves + writes;
    assert moves == [Rename(Active(Ed25519File), Archived(stamp, Ed25519File)),
                     Rename(Active(HmacFile), Archived(stamp, HmacFile))];
    assert writes == [writes[0], writes[1]];
    ApplyAllAppend(d, [MakeArchive(stamp)] + moves, writes);
    ApplyAllAppend(d, [MakeArchive(stamp)], moves);
    ApplyOne(d, MakeArchive(stamp));
    var made := PlainDir(c, k, hmac, archive, stamps + {stamp});
    assert Apply(d, MakeArchive(stamp)) == made;
    ApplyTwo(made, moves[0], moves[1]);
    MovePlain(c, k, hmac, archive, stamps + {stamp}, stamp);
    ApplyTwo(ApplyAll(made, moves), writes[0], writes[1]);
  }

  lemma ApplyOne(d: Dir, op: FileOp)
    ensures ApplyAll(d, [op]) == Apply(d, op)
  {
    assert [op][1..] == [];
  }

  /** Without clear archive entries conservation fails: two rotations within one second
      share an archive entry, and the key the second one archives replaces the
      key that was loaded first. */
  lemma SameSecondRotationLosesKey(c: Crypto, r1: Draws, r2: Draws, r3: Draws, stamp: string)
    requires LawfulKeys(c) && r1.signing != r2.signing && r1.signing != r3.signing
    ensures
      var w := Run(c, World(Dir(map[], {}), {}, {}),
                   [PlainLoad(r1), PlainRotate(stamp, r2, 10), PlainRotate(stamp, r3, 10)]);
      r1.signing in w.returned && !Stored(c, w, r1.signing)
  {
    hide PemBytes, PlanRotate, PlanLoad, ApplyAll, Holds, Step;
    var w0 := World(Dir(map[], {}), {}, {});
    var w1 := Step(c, w0, PlainLoad(r1));
    LoadFromNothing(c, w0, r1);
    var w2 := Step(c, w1, PlainRotate(stamp, r2, 10));
    var a2 := map[Archived(stamp, Ed25519File) := PemBytes(c, r1.signing), Archived(stamp, HmacFile) := r1.hmac];
    StepOfRotation(c, w1, r1.signing, r1.hmac, map[], {}, stamp, r2);
    assert w2.dir == PlainDir(c, r2.signing, r2.hmac, a2, {} + {stamp});
    var w3 := Step(c, w2, PlainRotate(stamp, r3, 10));
    StepOfRotation(c, w2, r2.signing, r2.hmac, a2, {} + {stamp}, stamp, r3);
    RunOfThree(c, w0, PlainLoad(r1), PlainRotate(stamp, r2, 10), PlainRotate(stamp, r3, 10));
    NotHeld(c, r2.signing, w3.passes, r1.signing);
    NotHeld(c, r3.signing, w3.passes, r1.signing);
    HmacHoldsNothing(c, w3.passes, r1.signing);
  }

  /** A rotation of a plaintext store, uninterrupted. */
  lemma StepOfRotation(c: Crypto, w: World, k: SigningKey, hmac: Bytes, archive: map<Path, Bytes>, stamps: set<string>,
                       stamp: string, r: Draws)
    requires w.dir == PlainDir(c, k, hmac, archive, stamps) && forall path | path in archive :: path.Archived?
    ensures
      var moved := archive[Archived(stamp, Ed25519File) := PemBytes(c, k)][Archived(stamp, HmacFile) := hmac];
      Step(c, w, PlainRotate(stamp, r, 10)) ==
        World(PlainDir(c, r.signing, r.hmac, moved, stamps + {stamp}), w.returned + {r.signing}, w.passes)
  {
    hide PemBytes, PlanRotate, ApplyAll, PlainDir;
    RotatePlain(c, k, hmac, archive, stamps, stamp, r);
    ShortPlan(c, w.dir, stamp, r);
  }

  lemma RunOfThree(c: Crypto, w: World, e1: Event, e2: Event, e3: Event)
    ensures Run(c, w, [e1, e2, e3]) == Step(c, Step(c, Step(c, w, e1), e2), e3)
  {
    hide Step;
    var (w1, w2) := (Step(c, w, e1), Step(c, Step(c, w, e1), e2));
    assert [e1, e2, e3][1..] == [e2, e3] && [e2, e3][1..] == [e3] && [e3][1..] == [];
    assert Run(c, w2, [e3]) == Run(c, Step(c, w2, e3), []);
    assert Run(c, w1, [e2, e3]) == Run(c, w2, [e3]);
  }

  /** The promise is about signing keys only: a rotation that breaks off between
      its two moves leaves the MAC secret behind, and the next load writes over it. */
  lemma InterruptedRotationLosesMacSecret(c: Crypto, r1: Draws, r2: Draws, r3: Draws, stamp: string)
    requires LawfulKeys(c) && r1.hmac != r3.hmac
    ensures
      var w := Run(c, World(Dir(map[], {}), {}, {}), [PlainLoad(r1), PlainRotate(stamp, r2, 2), PlainLoad(r3)]);
      forall path | path in w.dir.files && path.name == HmacFile :: w.dir.files[path] != r1.hmac
  {
    hide PemBytes, Step;
    var w0 := World(Dir(map[], {}), {}, {});
    var events := [PlainLoad(r1), PlainRotate(stamp, r2, 2), PlainLoad(r3)];
    LoadFromNothing(c, w0, r1);
    var w1 := Step(c, w0, events[0]);
    HalfRotation(c, w1, r1.signing, r1.hmac, stamp, r2);
    var w2 := Step(c, w1, events[1]);
    LoadFromNothing(c, w2, r3);
    RunOfThree(c, w0, events[0], events[1], events[2]);
  }

  lemma HalfRotation(c: Crypto, w: World, k: SigningKey, hmac: Bytes, stamp: string, r: Draws)
    requires w.dir == PlainDir(c, k, hmac, map[], {})
    ensures Step(c, w, PlainRotate(stamp, r, 2)).dir ==
      Dir(map[Active(HmacFile) := hmac, Archived(stamp, Ed25519File) := PemBytes(c, k)], {stamp})
  {
    hide PemBytes, PlanRotate, ApplyAll;
    RotatePlain(c, k, hmac, map[], {}, stamp, r);
    RotateHead(c, w.dir, None, stamp, r);
    var ops := PlanRotate(c, w.dir, None, stamp, r).value.ops;
    assert Done(ops, 2) == ops[..2];
    var make, move := MakeArchive(stamp), Rename(Active(Ed25519File), Archived(stamp, Ed25519File));
    ApplyTwo(w.dir, make, move);
    assert ops[..2] == [make, move];
    assert Apply(Apply(w.dir, make), move).files ==
      map[Active(HmacFile) := hmac, Archived(stamp, Ed25519File) := PemBytes(c, k)];
  }

  lemma ShortPlan(c: Crypto, d: Dir, stamp: string, r: Draws)
    requires PlanRotate(c, d, None, stamp, r).Ok?
    ensures |PlanRotate(c, d, None, stamp, r).value.ops| <= 5
    ensures PlanRotate(c, d, None, stamp, r).value.keys.ed25519 == r.signing
  {
    hide PemBytes;
    var (a, b) := ActiveNames(d);
    ArchiveOpsOfTwo(d, a, b, stamp);
  }

  lemma NotHeld(c: Crypto, k: SigningKey, passes: set<string>, other: SigningKey)
    requires LawfulKeys(c) && k != other
    ensures !Holds(c, Ed25519File, PemBytes(c, k), passes, other)
  {
    hide PemBytes;
    PemIsHeld(c, k);
  }

  lemma HmacHoldsNothing(c: Crypto, passes: set<string>, k: SigningKey)
    ensures forall content :: !Holds(c, HmacFile, content, passes, k)
  {
  }
}
