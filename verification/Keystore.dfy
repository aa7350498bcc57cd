/** The keystore directory as the program changes it, file by file. After
    `budget` more file operations the next one fails: an I/O error or a crash. */
module Keystore {
  import opened Prelude
  import opened Crypto
  import opened KeystoreSpec
  import KeySafety
  import KeystoreInfo
  import Blob
  import Sorting

  datatype Failure = Refused(error: SealError) | Io

  /** From `d` with budget `b` the operations ran as far as the budget allows,
      and `ok` tells whether it covered them all. */
  predicate Ran(ok: bool, d: Dir, b: nat, ops: seq<FileOp>, d': Dir, b': nat) {
    && ok == (|ops| <= b)
    && d' == ApplyAll(d, KeySafety.Done(ops, b))
    && b' == if ok then b - |ops| else 0
  }

  /** A refusal changes nothing; anything else runs the plan, and answers with its
      keys if the budget covers it. */
  predicate Follows(plan: Result<Plan, SealError>, d: Dir, b: nat, d': Dir, b': nat, answer: Result<Keys, Failure>) {
    match plan
    case Err(e) => d' == d && b' == b && answer == Err(Refused(e))
    case Ok(p) => Ran(answer.Ok?, d, b, p.ops, d', b') && answer == if |p.ops| <= b then Ok(p.keys) else Err(Io)
  }

  lemma RanNothing(d: Dir, b: nat)
    ensures Ran(true, d, b, [], d, b)
  {
  }

  lemma RanOne(d: Dir, b: nat, op: FileOp)
    ensures Ran(b > 0, d, b, [op], if b > 0 then Apply(d, op) else d, if b > 0 then b - 1 else b)
  {
    hide Apply;
    KeySafety.ApplyOne(d, op);
  }

  /** What follows runs only if what came first succeeded. */
  lemma RanThen(first: bool, d: Dir, b: nat, ops: seq<FileOp>, d1: Dir, b1: nat,
                ok: bool, more: seq<FileOp>, d2: Dir, b2: nat)
    requires Ran(first, d, b, ops, d1, b1)
    requires if first then Ran(ok, d1, b1, more, d2, b2) else !ok && d2 == d1 && b2 == b1
    ensures Ran(ok, d, b, ops + more, d2, b2)
  {
    hide ApplyAll;
    if first {
      assert KeySafety.Done(ops + more, b) == ops + KeySafety.Done(more, b1);
      ApplyAllAppend(d, ops, KeySafety.Done(more, b1));
    } else {
      assert (ops + more)[..b] == ops[..b];
    }
  }

  lemma {:induction false} ArchiveOpsAppend(d: Dir, names: seq<Name>, name: Name, stamp: string)
    ensures ArchiveOps(d, names + [name], stamp) == ArchiveOps(d, names, stamp) +
      (if Active(name) in d.files then [Rename(Active(name), Archived(stamp, name))] else [])
  {
    if names == [] {
      assert names + [name] == [name] && [name][1..] == [];
    } else {
      assert (names + [name])[1..] == names[1..] + [name];
      ArchiveOpsAppend(d, names[1..], name, stamp);
    }
  }

  class Keystore {
    const c: Crypto
    var files: map<Path, Bytes>
    var stamps: set<string>
    var budget: nat

    constructor (c: Crypto, files: map<Path, Bytes>, stamps: set<string>, budget: nat)
      ensures this.c == c && Now() == Dir(files, stamps) && this.budget == budget
    {
      this.c, this.files, this.stamps, this.budget := c, files, stamps, budget;
    }

    function Now(): Dir
      reads this
    {
      Dir(files, stamps)
    }

    // ---------- Single file operations ----------

    method WriteFile(path: Path, content: Bytes) returns (ok: bool)
      modifies this
      ensures Ran(ok, old(Now()), old(budget), [Write(path, content)], Now(), budget)
    {
      RanOne(Now(), budget, Write(path, content));
      ok := budget > 0;
      if ok {
        files, budget := files[path := content], budget - 1;
      }
    }

    method RemoveFile(path: Path) returns (ok: bool)
      modifies this
      ensures Ran(ok, old(Now()), old(budget), [Remove(path)], Now(), budget)
    {
      RanOne(Now(), budget, Remove(path));
      ok := budget > 0;
      if ok {
        files, budget := files - {path}, budget - 1;
      }
    }

    method RenameFile(from: Path, to: Path) returns (ok: bool)
      requires from in files
      modifies this
      ensures Ran(ok, old(Now()), old(budget), [Rename(from, to)], Now(), budget)
    {
      RanOne(Now(), budget, Rename(from, to));
      ok := budget > 0;
      if ok {
        files, budget := (files - {from})[to := files[from]], budget - 1;
      }
    }

    method CreateArchive(stamp: string) returns (ok: bool)
      modifies this
      ensures Ran(ok, old(Now()), old(budget), [MakeArchive(stamp)], Now(), budget)
    {
      RanOne(Now(), budget, MakeArchive(stamp));
      ok := budget > 0;
      if ok {
        stamps, budget := stamps + {stamp}, budget - 1;
      }
    }

    /** One more operation after `ops`, if those succeeded. */
    method AndRemove(first: bool, path: Path, ghost d: Dir, ghost b: nat, ghost ops: seq<FileOp>) returns (ok: bool)
      requires Ran(first, d, b, ops, Now(), budget)
      modifies this
      ensures Ran(ok, d, b, ops + [Remove(path)], Now(), budget)
    {
      hide Ran;
      ghost var d1, b1 := Now(), budget;
      ok := false;
      if first {
        ok := RemoveFile(path);
      }
      RanThen(first, d, b, ops, d1, b1, ok, [Remove(path)], Now(), budget);
    }

    // ---------- Writing a store ----------

    method WritePlaintext(signing: SigningKey, hmac: Bytes) returns (ok: bool)
      modifies this
      ensures Ran(ok, old(Now()), old(budget), PlaintextOps(c, signing, hmac), Now(), budget)
    {
      hide Ran;
      ghost var d, b := Now(), budget;
      ghost var ops := PlaintextOps(c, signing, hmac);
      assert ops == [ops[0]] + [ops[1]];
      var first := WriteFile(Active(Ed25519File), PemBytes(c, signing));
      ghost var d1, b1 := Now(), budget;
      ok := false;
      if first {
        ok := WriteFile(Active(HmacFile), hmac);
      }
      RanThen(first, d, b, [ops[0]], d1, b1, ok, [ops[1]], Now(), budget);
    }

    method WriteEncrypted(signing: SigningKey, hmac: Bytes, pass: string, salt: Bytes, nonce: Bytes) returns (ok: bool)
      modifies this
      ensures Ran(ok, old(Now()), old(budget), EncryptedOps(c, signing, hmac, pass, salt, nonce), Now(), budget)
    {
      hide Ran, Blob.EncryptSecret;
      ghost var d, b := Now(), budget;
      ghost var ops := EncryptedOps(c, signing, hmac, pass, salt, nonce);
      assert ops == [ops[0]] + [ops[1]];
      var blob := Blob.WriteBlob(c, SecretOf(c, signing, hmac), pass, salt, nonce);
      var first := WriteFile(Active(EncFile), blob);
      ghost var d1, b1 := Now(), budget;
      ok := false;
      if first {
        ok := WriteFile(Active(PublicFile), PublicBytes(c, signing));
      }
      RanThen(first, d, b, [ops[0]], d1, b1, ok, [ops[1]], Now(), budget);
    }

    method WriteFresh(pass: Option<string>, r: Draws) returns (ok: bool)
      modifies this
      ensures Ran(ok, old(Now()), old(budget), FreshOps(c, pass, r), Now(), budget)
    {
      hide Ran, PlaintextOps, EncryptedOps;
      match pass
      case Some(p) => ok := WriteEncrypted(r.signing, r.hmac, p, r.salt, r.nonce);
      case None => ok := WritePlaintext(r.signing, r.hmac);
    }

    // ---------- The operations ----------

    /** Load the active keys, or generate and store fresh ones. */
    method LoadOrGenerate(pass: Option<string>, r: Draws) returns (answer: Result<Keys, Failure>)
      modifies this
      ensures Follows(PlanLoad(c, old(Now()), pass, r), old(Now()), old(budget), Now(), budget, answer)
    {
      hide FreshOps, LoadEncrypted, LoadPlaintext;
      RanNothing(Now(), budget);
      if IsEncrypted(Now()) {
        answer := Answer(LoadEncrypted(c, Now(), pass));
      } else if HasPlaintext(Now()) {
        answer := Answer(LoadPlaintext(c, Now()));
      } else {
        var ok := WriteFresh(pass, r);
        answer := if ok then Ok(KeysOf(c, r.hmac, r.signing)) else Err(Io);
      }
    }

    /** Turn a plaintext keystore into an encrypted one. */
    method EncryptKeystore(pass: string, r: Draws) returns (answer: Result<Keys, Failure>)
      modifies this
      ensures Follows(PlanEncrypt(c, old(Now()), pass, r), old(Now()), old(budget), Now(), budget, answer)
    {
      hide EncryptedOps, LoadPlaintext;
      ghost var d, b := Now(), budget;
      if IsEncrypted(Now()) || !HasPlaintext(Now()) {
        return Err(Refused(KeyError));
      }
      match LoadPlaintext(c, Now())
      case Err(e) => answer := Err(Refused(e));
      case Ok(keys) =>
        var ok := WriteEncrypted(keys.ed25519, keys.hmac, pass, r.salt, r.nonce);
        ghost var ops := EncryptedOps(c, keys.ed25519, keys.hmac, pass, r.salt, r.nonce);
        ok := AndRemove(ok, Active(Ed25519File), d, b, ops);
        ok := AndRemove(ok, Active(HmacFile), d, b, ops + [Remove(Active(Ed25519File))]);
        answer := if ok then Ok(keys) else Err(Io);
        assert ops + [Remove(Active(Ed25519File))] + [Remove(Active(HmacFile))] ==
          ops + [Remove(Active(Ed25519File)), Remove(Active(HmacFile))];
    }

    /** Turn an encrypted keystore back into a plaintext one. */
    method DecryptKeystore(pass: string) returns (answer: Result<Keys, Failure>)
      modifies this
      ensures Follows(PlanDecrypt(c, old(Now()), pass), old(Now()), old(budget), Now(), budget, answer)
    {
      hide LoadEncrypted, Ran;
      ghost var d, b := Now(), budget;
      if !IsEncrypted(Now()) {
        return Err(Refused(KeyError));
      }
      match LoadEncrypted(c, Now(), Some(pass))
      case Err(e) => answer := Err(Refused(e));
      case Ok(keys) =>
        var ok := WritePlaintext(keys.ed25519, keys.hmac);
        ghost var ops := PlaintextOps(c, keys.ed25519, keys.hmac);
        ok := AndRemove(ok, Active(EncFile), d, b, ops);
        ghost var most := ops + [Remove(Active(EncFile))];
        if ok {
          RanSpares(d, b, most, Now(), budget, Active(PublicFile));
          if Active(PublicFile) in files {
            ok := AndRemove(ok, Active(PublicFile), d, b, most);
          }
        } else if Active(PublicFile) in d.files {
          RanThen(false, d, b, most, Now(), budget, false, [Remove(Active(PublicFile))], Now(), budget);
        }
        answer := if ok then Ok(keys) else Err(Io);
        ghost var last := if Active(PublicFile) in d.files then [Remove(Active(PublicFile))] else [];
        assert PlanDecrypt(c, d, pass) == Ok(Plan(most + last, keys));
        assert most + [] == most;
        RanIsFollowed(ok, d, b, Plan(most + last, keys), Now(), budget);
    }

    /** Move the active store into a new archive entry and write fresh keys. */
    method RotateKeys(pass: Option<string>, stamp: string, r: Draws) returns (answer: Result<Keys, Failure>)
      modifies this
      ensures Follows(PlanRotate(c, old(Now()), pass, stamp, r), old(Now()), old(budget), Now(), budget, answer)
    {
      hide Ran, FreshOps, ArchiveOps;
      ghost var d, b := Now(), budget;
      var encrypted := IsEncrypted(Now());
      var names := ActiveFiles(Now());
      if forall i | 0 <= i < |names| :: Active(names[i]) !in files {
        return Err(Refused(KeyError));
      }
      if encrypted && pass.None? {
        return Err(Refused(KeyError));
      }
      var ok := CreateArchive(stamp);
      OneStep(d, b, MakeArchive(stamp), ok, Now(), budget);
      ok := MoveAll(ok, names, stamp, d, b);
      ghost var d1, b1 := Now(), budget;
      var done := false;
      var mode := if encrypted then pass else None;
      if ok {
        done := WriteFresh(mode, r);
      }
      var keys := KeysOf(c, r.hmac, r.signing);
      answer := if done then Ok(keys) else Err(Io);
      ghost var moves := [MakeArchive(stamp)] + ArchiveOps(d, names, stamp);
      RanThen(ok, d, b, moves, d1, b1, done, FreshOps(c, mode, r), Now(), budget);
      RanIsFollowed(done, d, b, Plan(moves + FreshOps(c, mode, r), keys), Now(), budget);
    }

    /** The loop of a rotation over the active files. */
    method MoveAll(made: bool, names: seq<Name>, stamp: string, ghost d: Dir, ghost b: nat) returns (ok: bool)
      requires forall i, j | 0 <= i < j < |names| :: names[i] != names[j]
      requires forall i | 0 <= i < |names| :: (Active(names[i]) in files) == (Active(names[i]) in d.files)
      requires Ran(made, d, b, [MakeArchive(stamp)], Now(), budget)
      modifies this
      ensures Ran(ok, d, b, [MakeArchive(stamp)] + ArchiveOps(d, names, stamp), Now(), budget)
    {
      hide Ran;
      ok := made;
      assert [MakeArchive(stamp)] + ArchiveOps(d, names[..0], stamp) == [MakeArchive(stamp)];
      for i := 0 to |names|
        invariant Ran(ok, d, b, [MakeArchive(stamp)] + ArchiveOps(d, names[..i], stamp), Now(), budget)
        invariant forall j | i <= j < |names| :: (Active(names[j]) in files) == (Active(names[j]) in d.files)
      {
        var name := names[i];
        ghost var before := [MakeArchive(stamp)] + ArchiveOps(d, names[..i], stamp);
        ghost var d1, b1, first := Now(), budget, ok;
        assert names[..i + 1] == names[..i] + [name];
        ArchiveOpsAppend(d, names[..i], name, stamp);
        if Active(name) in files {
          if ok {
            ok := MoveOne(name, stamp, names[i + 1..]);
          }
          RanThen(first, d, b, before, d1, b1, ok, [Rename(Active(name), Archived(stamp, name))], Now(), budget);
          assert before + [Rename(Active(name), Archived(stamp, name))] ==
            [MakeArchive(stamp)] + ArchiveOps(d, names[..i + 1], stamp);
        } else {
          assert before == [MakeArchive(stamp)] + ArchiveOps(d, names[..i + 1], stamp);
        }
        assert forall j | i + 1 <= j < |names| :: names[i + 1..][j - (i + 1)] == names[j];
      }
      assert names[..|names|] == names;
    }

    method MoveOne(name: Name, stamp: string, ghost others: seq<Name>) returns (ok: bool)
      requires Active(name) in files && name !in others
      modifies this
      ensures Ran(ok, old(Now()), old(budget), [Rename(Active(name), Archived(stamp, name))], Now(), budget)
      ensures forall i | 0 <= i < |others| :: (Active(others[i]) in files) == old(Active(others[i]) in files)
    {
      hide Ran;
      RanOne(Now(), budget, Rename(Active(name), Archived(stamp, name)));
      ghost var d, b := Now(), budget;
      ok := RenameFile(Active(name), Archived(stamp, name));
      OneStep(d, b, Rename(Active(name), Archived(stamp, name)), ok, Now(), budget);
    }

    // ---------- Telling without the passphrase ----------

    /** Collect the archive entries as the directory lists them, then sort. */
    method ListArchived(entries: seq<string>) returns (listed: Result<seq<KeystoreInfo.Listed>, SealError>)
      ensures listed == KeystoreInfo.ListArchived(c, Now(), entries)
    {
      var out := [];
      assert entries[0..] == entries;
      OntoNothing(KeystoreInfo.Listing(c, Now(), entries));
      for i := 0 to |entries|
        invariant KeystoreInfo.Listing(c, Now(), entries) == Onto(out, KeystoreInfo.Listing(c, Now(), entries[i..]))
      {
        assert entries[i..][0] == entries[i] && entries[i..][1..] == entries[i + 1..];
        match KeystoreInfo.ArchivedFingerprint(c, Now(), entries[i])
        case Err(e) => return Err(e);
        case Ok(fingerprint) =>
          OntoTwice(out, [KeystoreInfo.Listed(entries[i], fingerprint)], KeystoreInfo.Listing(c, Now(), entries[i + 1..]));
          out := out + [KeystoreInfo.Listed(entries[i], fingerprint)];
      }
      assert out + [] == out;
      out := Sorting.Sort(out, Sorting.By(KeystoreInfo.ArchivedAt, Sorting.TextGreater));
      listed := Ok(out);
    }

    method Info(entries: seq<string>) returns (info: Result<KeystoreInfo.Info, SealError>)
      ensures info == KeystoreInfo.InfoOf(c, Now(), entries)
    {
      var archived := ListArchived(entries);
      match KeystoreInfo.ActiveFingerprint(c, Now())
      case Err(e) => info := Err(e);
      case Ok(active) =>
        match archived
        case Err(e) => info := Err(e);
        case Ok(l) => info := Ok(KeystoreInfo.Info(IsEncrypted(Now()), active, l));
    }
  }

  /** Operations on other paths do not decide whether a file is there. */
  lemma {:induction false} WritesSpare(d: Dir, ops: seq<FileOp>, path: Path)
    requires forall op | op in ops :: (op.Write? || op.Remove?) && op.path != path
    ensures path in ApplyAll(d, ops).files <==> path in d.files
    decreases |ops|
  {
    if ops != [] {
      assert (ops[0].Write? || ops[0].Remove?) && ops[0].path != path;
      WritesSpare(Apply(d, ops[0]), ops[1..], path);
    }
  }

  lemma RanSpares(d: Dir, b: nat, ops: seq<FileOp>, d': Dir, b': nat, path: Path)
    requires Ran(true, d, b, ops, d', b')
    requires forall op | op in ops :: (op.Write? || op.Remove?) && op.path != path
    ensures path in d'.files <==> path in d.files
  {
    WritesSpare(d, ops, path);
  }

  lemma OneStep(d: Dir, b: nat, op: FileOp, ok: bool, d': Dir, b': nat)
    requires Ran(ok, d, b, [op], d', b')
    ensures d' == if ok then Apply(d, op) else d
  {
    hide Apply;
    KeySafety.ApplyOne(d, op);
  }

  lemma RanIsFollowed(ok: bool, d: Dir, b: nat, plan: Plan, d': Dir, b': nat)
    requires Ran(ok, d, b, plan.ops, d', b')
    ensures Follows(Ok(plan), d, b, d', b', if ok then Ok(plan.keys) else Err(Io))
  {
  }

  /** What a method of the keystore does is one step of the runs of `KeySafety`:
      the budget is where the request breaks off, and only an answer returns a key. */
  lemma MethodIsStep(c: Crypto, w: KeySafety.World, q: Request, b: nat, d': Dir, b': nat, answer: Result<Keys, Failure>)
    requires Follows(PlanOf(c, w.dir, q), w.dir, b, d', b', answer)
    ensures KeySafety.Step(c, w, KeySafety.Event(q, b)) ==
      KeySafety.World(d', if answer.Ok? then w.returned + {answer.value.ed25519} else w.returned,
                      w.passes + KeySafety.Passes(q))
  {
    hide PlanOf;
  }

  /** The answer of an operation that changes no file. */
  function Answer(r: Result<Keys, SealError>): Result<Keys, Failure> {
    match r
    case Err(e) => Err(Refused(e))
    case Ok(keys) => Ok(keys)
  }
}
