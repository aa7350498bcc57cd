/** The directory refines a small abstract keystore: one active store, in one
    mode, and the history of stores rotated out of it. */
module KeystoreRefinement {
  import opened Prelude
  import opened Crypto
  import opened KeystoreSpec
  import opened KeySafety
  import opened Conversion
  import Blob
  import Sorting

  // ---------- The abstract keystore ----------

  datatype Store = Plain(key: SigningKey, hmac: Bytes) | Sealed(pass: string, key: SigningKey, hmac: Bytes)

  datatype Entry = Entry(stamp: string, store: Store)

  /** The newest entry comes first. */
  datatype State = State(active: Option<Store>, history: seq<Entry>)

  const EMPTY := State(None, [])

  function FreshStore(pass: Option<string>, r: Draws): Store {
    match pass
    case Some(p) => Sealed(p, r.signing, r.hmac)
    case None => Plain(r.signing, r.hmac)
  }

  function Opened(c: Crypto, s: Store, pass: Option<string>): Result<Keys, SealError> {
    match s
    case Plain(key, hmac) => Ok(KeysOf(c, hmac, key))
    case Sealed(p, key, hmac) =>
      if pass.None? then Err(KeyError)
      else if pass.value != p then Err(SealError.Decrypt)
      else Ok(KeysOf(c, hmac, key))
  }

  /** One request on the abstract keystore. */
  function Next(c: Crypto, st: State, q: Request): Result<(State, Keys), SealError> {
    match (q, st.active)
    case (Load(pass, r), None) => Ok((st.(active := Some(FreshStore(pass, r))), KeysOf(c, r.hmac, r.signing)))
    case (Load(pass, r), Some(s)) =>
      (match Opened(c, s, pass)
       case Err(e) => Err(e)
       case Ok(keys) => Ok((st, keys)))
    case (Encrypt(pass, r), Some(Plain(key, hmac))) =>
      Ok((st.(active := Some(Sealed(pass, key, hmac))), KeysOf(c, hmac, key)))
    case (Decrypt(pass), Some(Sealed(p, key, hmac))) =>
      if pass == p then Ok((st.(active := Some(Plain(key, hmac))), KeysOf(c, hmac, key))) else Err(SealError.Decrypt)
    case (Rotate(pass, stamp, r), Some(s)) =>
      if s.Sealed? && pass.None? then
        Err(KeyError)
      else
        Ok((State(Some(FreshStore(if s.Sealed? then pass else None, r)), [Entry(stamp, s)] + st.history),
            KeysOf(c, r.hmac, r.signing)))
    case _ => Err(KeyError)
  }

  // ---------- The abstraction relation ----------

  /** The active files, or one archive entry. */
  function At(place: Option<string>, name: Name): Path {
    match place
    case None => Active(name)
    case Some(stamp) => Archived(stamp, name)
  }

  /** The files at a place are exactly those of the store. */
  ghost predicate Represented(c: Crypto, files: map<Path, Bytes>, place: Option<string>, s: Option<Store>) {
    match s
    case None => forall name: Name :: At(place, name) !in files
    case Some(Plain(key, hmac)) =>
      && At(place, EncFile) !in files && At(place, PublicFile) !in files
      && At(place, Ed25519File) in files && files[At(place, Ed25519File)] == PemBytes(c, key)
      && At(place, HmacFile) in files && files[At(place, HmacFile)] == hmac
    case Some(Sealed(pass, key, hmac)) =>
      && At(place, Ed25519File) !in files && At(place, HmacFile) !in files
      && At(place, EncFile) in files && Seals(c, files[At(place, EncFile)], pass, key, hmac)
      && At(place, PublicFile) in files && files[At(place, PublicFile)] == PublicBytes(c, key)
  }

  function Stamps(history: seq<Entry>): seq<string> {
    seq(|history|, i requires 0 <= i < |history| => history[i].stamp)
  }

  ghost predicate HistoryHolds(c: Crypto, files: map<Path, Bytes>, history: seq<Entry>) {
    forall i | 0 <= i < |history| :: Represented(c, files, Some(history[i].stamp), Some(history[i].store))
  }

  ghost predicate Represents(c: Crypto, d: Dir, st: State) {
    && Represented(c, d.files, None, st.active)
    && HistoryHolds(c, d.files, st.history)
    && (forall stamp :: stamp in d.stamps <==> stamp in Stamps(st.history))
    && Sorting.Ascending(Stamps(st.history), Sorting.TextGreater)
    && StampsWithin(d, d.stamps)
  }

  /** The stamp is later than every stamp of the history. */
  predicate Later(stamp: string, history: seq<Entry>) {
    forall i | 0 <= i < |history| :: Sorting.TextLess(history[i].stamp, stamp)
  }

  predicate InTime(q: Request, history: seq<Entry>) {
    q.Rotate? ==> Later(q.stamp, history)
  }

  // ---------- Simulation ----------

  ghost predicate SameArchive(d: Dir, d': Dir) {
    && d.stamps == d'.stamps
    && (forall path: Path | path.Archived? :: (path in d.files) == (path in d'.files))
    && (forall path: Path | path.Archived? && path in d.files && path in d'.files :: d.files[path] == d'.files[path])
  }

  lemma {:induction false} WritesKeepArchive(d: Dir, ops: seq<FileOp>)
    requires forall op | op in ops :: WritesActive(op)
    ensures SameArchive(d, ApplyAll(d, ops))
    decreases |ops|
  {
    if ops != [] {
      assert WritesActive(ops[0]);
      WritesKeepArchive(Apply(d, ops[0]), ops[1..]);
    }
  }

  lemma ActiveChanges(c: Crypto, d: Dir, st: State, ops: seq<FileOp>, s: Store)
    requires Represents(c, d, st) && forall op | op in ops :: WritesActive(op)
    requires Represented(c, ApplyAll(d, ops).files, None, Some(s))
    ensures Represents(c, ApplyAll(d, ops), st.(active := Some(s)))
  {
    hide Seals, PemBytes, PublicBytes, ApplyAll;
    WritesKeepArchive(d, ops);
  }

  /** Writing fresh files where there are none makes the fresh store. */
  lemma FreshIsRepresented(c: Crypto, d: Dir, pass: Option<string>, r: Draws)
    requires IdealCipher(c) && CipherFits(c, r)
    requires Represented(c, d.files, None, None)
    ensures Represented(c, ApplyAll(d, FreshOps(c, pass, r)).files, None, Some(FreshStore(pass, r)))
  {
    hide Seals, PemBytes, PublicBytes, ApplyAll, IdealCipher, Blob.EncryptSecret;
    var ops := FreshOps(c, pass, r);
    ApplyTwo(d, ops[0], ops[1]);
    if pass.Some? {
      EncryptSecretSeals(c, r.signing, r.hmac, pass.value, r);
    }
    assert At(None, Ed25519File) !in d.files && At(None, HmacFile) !in d.files && At(None, EncFile) !in d.files &&
      At(None, PublicFile) !in d.files;
  }

  lemma ApplyFour(d: Dir, ops: seq<FileOp>)
    requires |ops| == 4
    ensures ApplyAll(d, ops) == Apply(Apply(Apply(Apply(d, ops[0]), ops[1]), ops[2]), ops[3])
  {
    hide Apply;
    assert ops == [ops[0], ops[1]] + [ops[2], ops[3]];
    ApplyAllAppend(d, [ops[0], ops[1]], [ops[2], ops[3]]);
    ApplyTwo(d, ops[0], ops[1]);
    ApplyTwo(ApplyAll(d, [ops[0], ops[1]]), ops[2], ops[3]);
  }

  lemma LoadSimulates(c: Crypto, d: Dir, st: State, pass: Option<string>, r: Draws)
    requires LawfulKeys(c) && IdealCipher(c) && CipherFits(c, r) && Represents(c, d, st)
    ensures Matches(c, d, PlanLoad(c, d, pass, r), Next(c, st, Load(pass, r)))
  {
    hide Seals, PemBytes, PublicBytes, IdealCipher, LawfulKeys;
    match st.active
    case None =>
      assert At(None, EncFile) !in d.files && At(None, Ed25519File) !in d.files;
      FreshIsRepresented(c, d, pass, r);
      FreshWrites(c, pass, r);
      ActiveChanges(c, d, st, FreshOps(c, pass, r), FreshStore(pass, r));
    case Some(Plain(key, hmac)) => PlaintextLoads(c, d, key, hmac, pass, r);
    case Some(Sealed(p, key, hmac)) => SealedLoads(c, d, p, key, hmac, pass, r);
  }

  /** The directory's outcome of a request matches the abstract one. */
  ghost predicate Matches(c: Crypto, d: Dir, concrete: Result<Plan, SealError>, model: Result<(State, Keys), SealError>) {
    match (concrete, model)
    case (Err(e), Err(f)) => e == f
    case (Ok(plan), Ok((st', keys))) => plan.keys == keys && Represents(c, ApplyAll(d, plan.ops), st')
    case _ => false
  }

  lemma EncryptSimulates(c: Crypto, d: Dir, st: State, pass: string, r: Draws)
    requires LawfulKeys(c) && IdealCipher(c) && CipherFits(c, r) && Represents(c, d, st)
    ensures Matches(c, d, PlanEncrypt(c, d, pass, r), Next(c, st, Encrypt(pass, r)))
  {
    hide Seals, PemBytes, PublicBytes, IdealCipher, LawfulKeys, Blob.EncryptSecret, ApplyAll, HistoryHolds;
    match st.active
    case None => assert At(None, Ed25519File) !in d.files;
    case Some(Plain(key, hmac)) => EncryptPlain(c, d, st, pass, r);
    case Some(Sealed(p, key, hmac)) =>
  }

  lemma EncryptPlain(c: Crypto, d: Dir, st: State, pass: string, r: Draws)
    requires LawfulKeys(c) && IdealCipher(c) && CipherFits(c, r) && Represents(c, d, st)
    requires st.active.Some? && st.active.value.Plain?
    ensures Matches(c, d, PlanEncrypt(c, d, pass, r), Next(c, st, Encrypt(pass, r)))
  {
    hide Seals, PemBytes, PublicBytes, IdealCipher, LawfulKeys, ApplyAll, HistoryHolds, LoadPlaintext, EncryptedOps;
    var Plain(key, hmac) := st.active.value;
    PlaintextLoads(c, d, key, hmac, None, r);
    var ops := EncryptedOps(c, key, hmac, pass, r.salt, r.nonce) + [Remove(Active(Ed25519File)), Remove(Active(HmacFile))];
    FreshIsEncrypted(c, pass, r.(signing := key, hmac := hmac));
    FreshWrites(c, Some(pass), r.(signing := key, hmac := hmac));
    EncryptedFiles(c, d, key, hmac, pass, r);
    assert forall op | op in ops :: WritesActive(op);
    ActiveChanges(c, d, st, ops, Sealed(pass, key, hmac));
  }

  lemma EncryptedFiles(c: Crypto, d: Dir, key: SigningKey, hmac: Bytes, pass: string, r: Draws)
    requires IdealCipher(c) && CipherFits(c, r)
    ensures
      var ops := EncryptedOps(c, key, hmac, pass, r.salt, r.nonce) + [Remove(Active(Ed25519File)), Remove(Active(HmacFile))];
      Represented(c, ApplyAll(d, ops).files, None, Some(Sealed(pass, key, hmac)))
  {
    hide Seals, PublicBytes, IdealCipher, ApplyAll, Blob.EncryptSecret, SecretOf;
    EncryptSecretSeals(c, key, hmac, pass, r);
    ApplyFour(d, EncryptedOps(c, key, hmac, pass, r.salt, r.nonce) + [Remove(Active(Ed25519File)), Remove(Active(HmacFile))]);
  }

  lemma DecryptSimulates(c: Crypto, d: Dir, st: State, pass: string)
    requires LawfulKeys(c) && Represents(c, d, st)
    ensures Matches(c, d, PlanDecrypt(c, d, pass), Next(c, st, Request.Decrypt(pass)))
  {
    hide Seals, PemBytes, PublicBytes, LawfulKeys, LoadEncrypted, ApplyAll, HistoryHolds;
    match st.active
    case None => assert At(None, EncFile) !in d.files;
    case Some(Plain(key, hmac)) =>
    case Some(Sealed(p, key, hmac)) =>
      SealedLoads(c, d, p, key, hmac, Some(pass), Draws([], [], [], []));
      if pass == p {
        var ops := PlanDecrypt(c, d, pass).value.ops;
        ApplyFour(d, ops);
        assert forall op | op in ops :: WritesActive(op);
        ActiveChanges(c, d, st, ops, Plain(key, hmac));
      }
  }

  /** The archive entry is new. */
  predicate FreshStamp(d: Dir, stamp: string) {
    forall path | path in d.files && path.Archived? :: path.stamp != stamp
  }

  /** A new stamp is in use nowhere. */
  lemma LaterIsFresh(c: Crypto, d: Dir, st: State, stamp: string)
    requires Represents(c, d, st) && Later(stamp, st.history)
    ensures stamp !in d.stamps && FreshStamp(d, stamp)
  {
    hide Represented, Sorting.TextLess;
    Sorting.TextOrders();
    forall i | 0 <= i < |st.history| ensures Stamps(st.history)[i] != stamp {
      assert Sorting.TextLess(st.history[i].stamp, stamp);
    }
  }

  function Moved(d: Dir, stamp: string): Dir {
    var (a, b) := ActiveNames(d);
    Apply(Apply(Apply(d, MakeArchive(stamp)), Rename(Active(a), Archived(stamp, a))),
          Rename(Active(b), Archived(stamp, b)))
  }

  predicate SameElsewhere(d: Dir, d': Dir, stamp: string) {
    && d'.stamps == d.stamps + {stamp}
    && (forall path | path in d.files && path.Archived? :: path in d'.files && d'.files[path] == d.files[path])
    && (forall path | path in d'.files && path.Archived? :: path in d.files || path.stamp == stamp)
  }

  lemma MovedFiles(d: Dir, stamp: string)
    requires Active(ActiveNames(d).0) in d.files && Active(ActiveNames(d).1) in d.files && FreshStamp(d, stamp)
    ensures
      var ((a, b), files) := (ActiveNames(d), Moved(d, stamp).files);
      (forall path: Path ::
        path in files <==>
          if path.Active? then path in d.files && path.name != a && path.name != b
          else path in d.files || (path.stamp == stamp && (path.name == a || path.name == b))) &&
      (forall path: Path | path in d.files && path in files :: files[path] == d.files[path]) &&
      files[Archived(stamp, a)] == d.files[Active(a)] && files[Archived(stamp, b)] == d.files[Active(b)]
    ensures Moved(d, stamp).stamps == d.stamps + {stamp}
  {
  }

  /** The moves of a rotation carry the active store into its archive entry. */
  lemma MovesCarry(c: Crypto, d: Dir, s: Store, stamp: string)
    requires Represented(c, d.files, None, Some(s)) && FreshStamp(d, stamp)
    ensures Represented(c, Moved(d, stamp).files, None, None)
    ensures Represented(c, Moved(d, stamp).files, Some(stamp), Some(s))
    ensures SameElsewhere(d, Moved(d, stamp), stamp)
  {
    hide Seals, PemBytes, PublicBytes, Moved;
    var (a, b) := ActiveNames(d);
    assert Active(a) in d.files && Active(b) in d.files;
    MovedFiles(d, stamp);
    forall name: Name ensures At(None, name) !in Moved(d, stamp).files {
      assert name == a || name == b || At(None, name) !in d.files;
    }
    forall name: Name ensures Archived(stamp, name) !in d.files {
      assert Archived(stamp, name).stamp == stamp;
    }
  }

  lemma RotatePlanIs(c: Crypto, d: Dir, s: Store, pass: Option<string>, stamp: string, r: Draws)
    requires Represented(c, d.files, None, Some(s)) && !(s.Sealed? && pass.None?)
    ensures
      var writes := FreshOps(c, if s.Sealed? then pass else None, r);
      PlanRotate(c, d, pass, stamp, r).Ok? &&
      PlanRotate(c, d, pass, stamp, r).value.keys == KeysOf(c, r.hmac, r.signing) &&
      ApplyAll(d, PlanRotate(c, d, pass, stamp, r).value.ops) == ApplyAll(Moved(d, stamp), writes)
  {
    hide Seals, PemBytes, PublicBytes, ApplyAll, FreshOps, Apply;
    var (a, b) := ActiveNames(d);
    var writes := FreshOps(c, if s.Sealed? then pass else None, r);
    ArchiveOpsOfTwo(d, a, b, stamp);
    assert ActiveFiles(d) == [a, b] && ActiveFiles(d)[0] == a && Active(a) in d.files && Active(b) in d.files;
    var moves := ArchiveOps(d, [a, b], stamp);
    assert moves == [moves[0], moves[1]];
    ApplyAllAppend(d, [MakeArchive(stamp)] + moves, writes);
    ApplyAllAppend(d, [MakeArchive(stamp)], moves);
    ApplyOne(d, MakeArchive(stamp));
    ApplyTwo(Apply(d, MakeArchive(stamp)), moves[0], moves[1]);
  }

  lemma HistoryGrows(c: Crypto, d: Dir, d': Dir, st: State, stamp: string, before: Store, now: Store)
    requires Represents(c, d, st) && Later(stamp, st.history) && stamp !in d.stamps
    requires SameElsewhere(d, d', stamp)
    requires Represented(c, d'.files, Some(stamp), Some(before)) && Represented(c, d'.files, None, Some(now))
    ensures Represents(c, d', State(Some(now), [Entry(stamp, before)] + st.history))
  {
    hide Represented, HistoryHolds, Sorting.TextLess;
    var history := [Entry(stamp, before)] + st.history;
    assert Stamps(history) == [stamp] + Stamps(st.history);
    assert forall i | 0 <= i < |st.history| :: Stamps(st.history)[i] == st.history[i].stamp;
    HistoryIsKept(c, d, d', st.history, stamp, before);
  }

  lemma HistoryIsKept(c: Crypto, d: Dir, d': Dir, kept: seq<Entry>, stamp: string, before: Store)
    requires HistoryHolds(c, d.files, kept) && SameElsewhere(d, d', stamp)
    requires forall i | 0 <= i < |kept| :: kept[i].stamp != stamp
    requires Represented(c, d'.files, Some(stamp), Some(before))
    ensures HistoryHolds(c, d'.files, [Entry(stamp, before)] + kept)
  {
    hide Represented, SameElsewhere;
    var history := [Entry(stamp, before)] + kept;
    forall i | 0 <= i < |history| ensures Represented(c, d'.files, Some(history[i].stamp), Some(history[i].store)) {
      if i > 0 {
        EntryIsSpared(c, d, d', stamp, kept[i - 1]);
      }
    }
  }

  lemma EntryIsSpared(c: Crypto, d: Dir, d': Dir, stamp: string, e: Entry)
    requires SameElsewhere(d, d', stamp) && e.stamp != stamp
    requires Represented(c, d.files, Some(e.stamp), Some(e.store))
    ensures Represented(c, d'.files, Some(e.stamp), Some(e.store))
  {
    hide Seals, PemBytes, PublicBytes;
  }

  lemma RotateSimulates(c: Crypto, d: Dir, st: State, pass: Option<string>, stamp: string, r: Draws)
    requires LawfulKeys(c) && IdealCipher(c) && CipherFits(c, r) && Represents(c, d, st)
    requires Later(stamp, st.history)
    ensures Matches(c, d, PlanRotate(c, d, pass, stamp, r), Next(c, st, Rotate(pass, stamp, r)))
  {
    hide Seals, PemBytes, PublicBytes, IdealCipher, LawfulKeys, ApplyAll, HistoryHolds, FreshOps, Moved, Sorting.TextLess;
    match st.active
    case None => assert At(None, Ed25519File) !in d.files && At(None, HmacFile) !in d.files && At(None, EncFile) !in d.files;
    case Some(s) =>
      if !(s.Sealed? && pass.None?) {
        var mode := if s.Sealed? then pass else None;
        var d' := ApplyAll(Moved(d, stamp), FreshOps(c, mode, r));
        LaterIsFresh(c, d, st, stamp);
        MovesCarry(c, d, s, stamp);
        RotatePlanIs(c, d, s, pass, stamp, r);
        FreshIsRepresented(c, Moved(d, stamp), mode, r);
        FreshWrites(c, mode, r);
        WritesKeepArchive(Moved(d, stamp), FreshOps(c, mode, r));
        HistoryGrows(c, d, d', st, stamp, s, FreshStore(mode, r));
      }
  }

  // ---------- Runs ----------

  function After(c: Crypto, d: Dir, q: Request): Dir {
    match PlanOf(c, d, q)
    case Err(_) => d
    case Ok(plan) => ApplyAll(d, plan.ops)
  }

  function Answer(c: Crypto, d: Dir, q: Request): Result<Keys, SealError> {
    match PlanOf(c, d, q)
    case Err(e) => Err(e)
    case Ok(plan) => Ok(plan.keys)
  }

  /** The directory and the answers of a run of completed requests. */
  function Perform(c: Crypto, d: Dir, qs: seq<Request>): (Dir, seq<Result<Keys, SealError>>)
    decreases |qs|
  {
    if qs == [] then
      (d, [])
    else
      var (end, answers) := Perform(c, After(c, d, qs[0]), qs[1..]);
      (end, [Answer(c, d, qs[0])] + answers)
  }

  function NextState(c: Crypto, st: State, q: Request): State {
    match Next(c, st, q)
    case Err(_) => st
    case Ok((st', _)) => st'
  }

  function NextAnswer(c: Crypto, st: State, q: Request): Result<Keys, SealError> {
    match Next(c, st, q)
    case Err(e) => Err(e)
    case Ok((_, keys)) => Ok(keys)
  }

  function Simulate(c: Crypto, st: State, qs: seq<Request>): (State, seq<Result<Keys, SealError>>)
    decreases |qs|
  {
    if qs == [] then
      (st, [])
    else
      var (end, answers) := Simulate(c, NextState(c, st, qs[0]), qs[1..]);
      (end, [NextAnswer(c, st, qs[0])] + answers)
  }

  predicate RisingStamps(qs: seq<Request>) {
    forall i, j | 0 <= i < j < |qs| && qs[i].Rotate? && qs[j].Rotate? :: Sorting.TextLess(qs[i].stamp, qs[j].stamp)
  }

  predicate AllFit(c: Crypto, qs: seq<Request>) {
    forall i | 0 <= i < |qs| :: DrawsFit(c, qs[i])
  }

  predicate AllInTime(qs: seq<Request>, history: seq<Entry>) {
    forall i | 0 <= i < |qs| :: InTime(qs[i], history)
  }

  /** One completed or refused request follows the abstract keystore. */
  lemma RequestSimulates(c: Crypto, d: Dir, st: State, q: Request)
    requires LawfulKeys(c) && IdealCipher(c) && DrawsFit(c, q) && InTime(q, st.history)
    requires Represents(c, d, st)
    ensures Answer(c, d, q) == NextAnswer(c, st, q)
    ensures Represents(c, After(c, d, q), NextState(c, st, q))
  {
    hide PlanLoad, PlanEncrypt, PlanDecrypt, PlanRotate, Next, Represents, CipherFits, LawfulKeys, IdealCipher;
    match q
    case Load(pass, r) => LoadSimulates(c, d, st, pass, r);
    case Encrypt(pass, r) => EncryptSimulates(c, d, st, pass, r);
    case Decrypt(pass) => DecryptSimulates(c, d, st, pass);
    case Rotate(pass, stamp, r) => RotateSimulates(c, d, st, pass, stamp, r);
  }

  lemma HistoryStaysEarlier(c: Crypto, st: State, q: Request, rest: seq<Request>)
    requires RisingStamps([q] + rest) && AllInTime([q] + rest, st.history)
    ensures RisingStamps(rest) && AllInTime(rest, NextState(c, st, q).history)
  {
    hide Sorting.TextLess;
    var qs := [q] + rest;
    assert qs[0] == q && forall i | 0 <= i < |rest| :: qs[i + 1] == rest[i];
    var history := NextState(c, st, q).history;
    assert history == st.history || (q.Rotate? && |history| == |st.history| + 1 && history[0].stamp == q.stamp &&
                                     history[1..] == st.history);
    forall i | 0 <= i < |rest| ensures InTime(rest[i], history) {
      assert InTime(qs[i + 1], st.history);
      if rest[i].Rotate? && history != st.history {
        assert forall j | 0 < j < |history| :: history[j] == st.history[j - 1];
      }
    }
    forall i, j | 0 <= i < j < |rest| && rest[i].Rotate? && rest[j].Rotate?
      ensures Sorting.TextLess(rest[i].stamp, rest[j].stamp)
    {
      assert Sorting.TextLess(qs[i + 1].stamp, qs[j + 1].stamp);
    }
  }

  lemma {:induction false} RunSimulates(c: Crypto, d: Dir, st: State, qs: seq<Request>)
    requires LawfulKeys(c) && IdealCipher(c) && AllFit(c, qs) && RisingStamps(qs) && AllInTime(qs, st.history)
    requires Represents(c, d, st)
    ensures Perform(c, d, qs).1 == Simulate(c, st, qs).1
    ensures Represents(c, Perform(c, d, qs).0, Simulate(c, st, qs).0)
    decreases |qs|
  {
    hide Represents, After, Answer, NextState, NextAnswer, RisingStamps, AllInTime, DrawsFit, InTime, LawfulKeys, IdealCipher;
    if qs != [] {
      assert qs == [qs[0]] + qs[1..];
      HeadInTime(qs, st.history);
      RequestSimulates(c, d, st, qs[0]);
      HistoryStaysEarlier(c, st, qs[0], qs[1..]);
      RunSimulates(c, After(c, d, qs[0]), NextState(c, st, qs[0]), qs[1..]);
    }
  }

  lemma HeadInTime(qs: seq<Request>, history: seq<Entry>)
    requires qs != [] && AllInTime(qs, history)
    ensures InTime(qs[0], history)
  {
  }

  /** The refinement: from an empty directory, with stamps that increase, every
      run of completed requests answers as the abstract keystore does and ends in
      a directory that represents the abstract state. */
  lemma KeystoreRefines(c: Crypto, qs: seq<Request>)
    requires LawfulKeys(c) && IdealCipher(c) && AllFit(c, qs) && RisingStamps(qs)
    ensures Perform(c, Dir(map[], {}), qs).1 == Simulate(c, EMPTY, qs).1
    ensures Represents(c, Perform(c, Dir(map[], {}), qs).0, Simulate(c, EMPTY, qs).0)
  {
    hide Sorting.TextLess;
    assert Stamps([]) == [];
    RunSimulates(c, Dir(map[], {}), EMPTY, qs);
  }

  /** Exactly one mode's pair of files is active, or none. */
  predicate OneMode(d: Dir) {
    || (IsEncrypted(d) && Active(PublicFile) in d.files && Active(Ed25519File) !in d.files && Active(HmacFile) !in d.files)
    || (HasPlaintext(d) && !IsEncrypted(d) && Active(PublicFile) !in d.files)
    || (forall name <- [Ed25519File, HmacFile, EncFile, PublicFile] :: Active(name) !in d.files)
  }

  lemma RepresentsOneMode(c: Crypto, d: Dir, st: State)
    requires Represents(c, d, st)
    ensures OneMode(d)
    ensures IsEncrypted(d) <==> st.active.Some? && st.active.value.Sealed?
    ensures HasPlaintext(d) <==> st.active.Some? && st.active.value.Plain?
  {
    hide Seals, PemBytes, PublicBytes, HistoryHolds;
    if st.active == None {
      assert forall name: Name :: At(None, name) == Active(name);
    }
  }

  /** In every directory such a run reaches one mode is active, and once a store
      is active its mode changes exactly when a conversion succeeds. */
  lemma ModeIsStable(c: Crypto, d: Dir, st: State, q: Request)
    requires LawfulKeys(c) && IdealCipher(c) && DrawsFit(c, q) && InTime(q, st.history)
    requires Represents(c, d, st)
    ensures OneMode(d) && OneMode(After(c, d, q))
    ensures IsEncrypted(d) || HasPlaintext(d) ==>
              IsEncrypted(After(c, d, q)) || HasPlaintext(After(c, d, q))
    ensures IsEncrypted(d) || HasPlaintext(d) ==>
              (IsEncrypted(After(c, d, q)) != IsEncrypted(d) <==> Answer(c, d, q).Ok? && (q.Encrypt? || q.Decrypt?))
  {
    hide Represents, LawfulKeys, IdealCipher, PlanOf, Answer, After, OneMode, IsEncrypted, HasPlaintext;
    RequestSimulates(c, d, st, q);
    RepresentsOneMode(c, d, st);
    RepresentsOneMode(c, After(c, d, q), NextState(c, st, q));
  }
}
