/** Encrypting or decrypting a keystore is invisible to a load with that
    passphrase, at every point where the conversion may break off. */
module Conversion {
  import opened Prelude
  import opened Crypto
  import opened KeystoreSpec
  import opened KeySafety
  import Blob
  import Hex

  /** The blob opens to these keys under `pass`, and under no other passphrase. */
  ghost predicate Seals(c: Crypto, blob: Bytes, pass: string, k: SigningKey, hmac: Bytes) {
    forall p :: Blob.DecryptSecret(c, blob, p) == if p == pass then Ok(SecretOf(c, k, hmac)) else Err(SealError.Decrypt)
  }

  lemma EncryptSecretSeals(c: Crypto, k: SigningKey, hmac: Bytes, pass: string, r: Draws)
    requires IdealCipher(c) && CipherFits(c, r)
    ensures Seals(c, Blob.EncryptSecret(c, SecretOf(c, k, hmac), pass, r.salt, r.nonce), pass, k, hmac)
  {
    hide Blob.EncryptSecret, Blob.DecryptSecret, SecretOf, IdealCipher;
    forall p {
      Blob.DecryptOfEncrypt(c, SecretOf(c, k, hmac), pass, r.salt, r.nonce, p);
    }
  }

  /** What a load finds in a sealed store. */
  lemma SealedLoads(c: Crypto, d: Dir, pass: string, k: SigningKey, hmac: Bytes, given: Option<string>, r: Draws)
    requires LawfulKeys(c) && IsEncrypted(d) && Seals(c, d.files[Active(EncFile)], pass, k, hmac)
    ensures PlanLoad(c, d, given, r) ==
      (if given.None? then Err(KeyError) else if given.value != pass then Err(SealError.Decrypt) else Ok(Plan([], KeysOf(c, hmac, k))))
    ensures PlanLoad(c, d, given, r).Ok? ==> LoadEncrypted(c, d, given) == Ok(KeysOf(c, hmac, k))
    ensures PlanLoad(c, d, given, r).Err? ==> LoadEncrypted(c, d, given) == Err(PlanLoad(c, d, given, r).error)
  {
    hide Blob.DecryptSecret;
    Hex.DecodeOfEncode(hmac);
  }

  /** What a load finds in a plaintext store. */
  lemma PlaintextLoads(c: Crypto, d: Dir, k: SigningKey, hmac: Bytes, given: Option<string>, r: Draws)
    requires LawfulKeys(c) && !IsEncrypted(d) && HasPlaintext(d)
    requires d.files[Active(Ed25519File)] == PemBytes(c, k) && d.files[Active(HmacFile)] == hmac
    ensures PlanLoad(c, d, given, r) == Ok(Plan([], KeysOf(c, hmac, k)))
    ensures LoadPlaintext(c, d) == Ok(KeysOf(c, hmac, k))
  {
    hide PemBytes;
    PemIsHeld(c, k);
  }

  lemma {:induction false} EncIsSpared(d: Dir, ops: seq<FileOp>)
    requires forall op | op in ops :: SparesEnc(op)
    requires IsEncrypted(d)
    ensures IsEncrypted(ApplyAll(d, ops)) && ApplyAll(d, ops).files[Active(EncFile)] == d.files[Active(EncFile)]
    decreases |ops|
  {
    if ops != [] {
      assert SparesEnc(ops[0]);
      EncIsSpared(Apply(d, ops[0]), ops[1..]);
    }
  }

  /** However far `encrypt_keystore` gets, a load with its passphrase returns the
      keys that were there. */
  lemma EncryptIsTransparent(c: Crypto, d: Dir, pass: string, r: Draws, n: nat, later: Draws)
    requires LawfulKeys(c) && IdealCipher(c) && CipherFits(c, r)
    requires PlanEncrypt(c, d, pass, r).Ok?
    ensures
      var plan := PlanEncrypt(c, d, pass, r).value;
      PlanLoad(c, ApplyAll(d, Done(plan.ops, n)), Some(pass), later) == Ok(Plan([], plan.keys)) &&
      PlanLoad(c, d, Some(pass), later) == Ok(Plan([], plan.keys))
  {
    hide Blob.EncryptSecret, Blob.DecryptSecret, Seals;
    var plan := PlanEncrypt(c, d, pass, r).value;
    if n > 0 {
      var (k, hmac) := (plan.keys.ed25519, plan.keys.hmac);
      var d1 := Apply(d, plan.ops[0]);
      var rest := Done(plan.ops, n)[1..];
      assert forall op | op in rest :: op in plan.ops[1..];
      assert forall op | op in plan.ops[1..] :: SparesEnc(op);
      EncryptSecretSeals(c, k, hmac, pass, r);
      EncIsSpared(d1, rest);
      assert ApplyAll(d, Done(plan.ops, n)) == ApplyAll(d1, rest);
      SealedLoads(c, ApplyAll(d1, rest), pass, k, hmac, Some(pass), later);
    }
  }

  /** However far `decrypt_keystore` gets, a load with its passphrase returns the
      keys that were there. */
  lemma DecryptIsTransparent(c: Crypto, d: Dir, pass: string, n: nat, later: Draws)
    requires LawfulKeys(c)
    requires PlanDecrypt(c, d, pass).Ok?
    ensures
      var plan := PlanDecrypt(c, d, pass).value;
      PlanLoad(c, ApplyAll(d, Done(plan.ops, n)), Some(pass), later) == Ok(Plan([], plan.keys)) &&
      PlanLoad(c, d, Some(pass), later) == Ok(Plan([], plan.keys))
  {
    hide Blob.DecryptSecret, PemBytes, ApplyAll;
    var plan := PlanDecrypt(c, d, pass).value;
    var (k, hmac) := (plan.keys.ed25519, plan.keys.hmac);
    var ops := Done(plan.ops, n);
    assert plan.keys == KeysOf(c, hmac, k);
    if n <= 2 {
      assert forall op | op in plan.ops[..2] :: SparesEnc(op);
      assert ops == plan.ops[..n];
      EncIsSpared(d, ops);
    } else {
      DecryptEnd(c, d, pass, n);
      var writes := PlaintextOps(c, k, hmac);
      ApplyTwo(d, writes[0], writes[1]);
      PlaintextLoads(c, ApplyAll(d, ops), k, hmac, Some(pass), later);
    }
  }
}
