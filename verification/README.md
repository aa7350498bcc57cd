# Verified model of the sealchain core

Apohara sealchain seals files into self-contained receipts. A receipt binds a
canonical preimage of its payload with an HMAC and an Ed25519 signature, and can
carry a C2PA manifest, an RFC 3161 timestamp and a transparency-log anchor. This
project models the logic the promises rest on and proves them.

* **Canonical preimage** (`Utf8`, `KeyOrder`, `JsonString`, `Doubles`, `JsonNumber`,
  `Json`, `JsonAccess`, `JsonRoundTrip`, `JsonCompact`, `JsonBytes`, `Jcs`, `Excluded`,
  `Preimage`, `Hex`). The serializer of section 3.2 of RFC 8785 and a strict JSON reader are written
  out, with the IEEE doubles, the rounding of a decimal to the nearest one and the
  shortest text that ECMAScript gives it. Reading undoes printing; canonical text has its
  keys in the order of their UTF-16 code units, minimal escapes and no white space; it is
  equal exactly when the data are; and two preimages are equal exactly when the times
  are equal and the payloads differ only in member order, excluded members and the
  writing of a double (so `1e-07` and `1e-7`, `1.0` and `1`, `-0.0` and `0` are the same).
* **Keystore** (`Crypto`, `Blob`, `KeystoreSpec`, `Keystore`, `KeySafety`, `SecretLoss`,
  `Conversion`, `KeystoreRefinement`, `KeystoreInfo`). An operation is a list of
  single file operations; the class `Keystore` performs them one by one and may be
  cut short after any of them. `KeySafety` proves that over any run, from any
  directory and with crashes anywhere, no signing key that was returned is lost,
  provided no rotation moves a file over an archived one. `SecretLoss` gives the exact
  condition for both kinds of secret: wherever a request breaks off, a signing key or a
  MAC secret that some file held is lost if and only if the request overwrote its only
  file and did not put it back, and which file that is can be told before the call.
  `Conversion` proves that encrypting and decrypting are invisible to loads at every
  intermediate state. `KeystoreRefinement` relates completed runs to a small abstract
  keystore, and `KeystoreInfo` shows that `info` reports it.
* **Merkle inclusion** (`Merkle`, `Inclusion`, `Rekor`). The tree and the audit paths
  of sections 2.1 and 2.1.1 of RFC 6962 are functions; the check of section 2.1.3.2
  of RFC 9162 is the loop on the bits of index and size. A proof with any claimed index
  and size is accepted exactly when it is the audit path of a leaf for which the real
  size calls for the same steps, and `Rekor` carries this to anchors.
* **Seal and verify** (`Record`, `Seal`, `Artifact`, `LayerMeaning`, `Sealing`,
  `SealingMeaning`, `IdealServices`, `Policy`). Both verifiers, their agreement, the exact
  effect of tampering, what each layer's result means in terms of the file, the receipt
  and the answers of the services, when a receipt is made and what it says, "what was
  sealed verifies", and the meaning of policies.
* **Batch and index** (`Paths`, `Sorting`, `Expand`, `Batch`, `BatchEnd`, `BatchMeaning`,
  `Index`, `IndexAgreement`). Expansion of the inputs, the seal loop over a mutable file
  system, its end state, when a seal succeeds and how it fails otherwise, the exit code,
  and an index that says what was sealed and agrees with the receipts on disk.

`dafny verify dfyconfig.toml` checks the whole project.

## Assumptions

Cryptography enters as the function values of the datatype `Crypto`; nothing is
assumed of them except what a lemma's `requires` says: `LawfulKeys` (signatures verify,
PEM forms round-trip), `IdealCipher` (an ideal KDF and AEAD; `IdealCrypto` has an
instance of both), `Inclusion.NoClash` (no
hash collision between the strings an inclusion check hashes and those the tree hashes) and
`Seal.NoForgery` (about the two messages at hand only). `Sealing.Honest` says that
sidecars, manifests and tokens verify for what they were made for, and that the log
answers a submission with a leaf of a log, its audit path and a checkpoint of the root
signed by a pinned key; that such an anchor is accepted is proved. `IdealServices` has an
instance in which every service succeeds. Random values, clocks, directory order and
glob results are parameters.

Strings are sequences of Unicode scalar values, JSON objects have no repeated key, and
a JSON number is an integer within 2^53 - 1, the negative zero, or another finite double.
A single file operation is atomic.

The following facts of the code are kept as they are. The record's method tag, the MAC
algorithm name and the key ids are never compared. An anchor's tree size is not compared
with the checkpoint's: `Inclusion.IndexNeedsTheSize` shows what that allows, and
`Rekor.AnchorIsSound` what holds all the same. Archive stamps have a resolution of one
second: `KeySafety.SameSecondRotationLosesKey` shows that two rotations in one second
lose a key, so the premise of conservation is that a rotation finds its archive entry
without the files it moves, which distinct stamps ensure. MAC secrets are not promised
the same: `KeySafety.InterruptedRotationLosesMacSecret` is a run that loses one. The comment on `exit_code_for` ranks a
usage error above a network error, but the code takes the smallest code, and the comment
in `verify_anchor` speaks of selecting the checkpoint signature by origin, but the code
tries every signature; the model follows the code.

## Model

| member | source | states |
|---|---|---|
| Utf8.DecodeOfEncode | crates/apohara-sealchain-core/src/jcs.rs:11-18 | canonical text survives its UTF-8 form, for every string of scalar values |
| Utf8.EncodeOfDecode | crates/apohara-sealchain-core/src/jcs.rs:11-18 | the decoder accepts no second form: whatever decodes is the encoding of its text |
| KeyOrder.FromUnitsOfUnits | crates/apohara-sealchain-core/src/jcs.rs:13-14 | decoding the code units of a key by the surrogate formula gives the key back, so they are its UTF-16 form |
| KeyOrder.LessIs | crates/apohara-sealchain-core/src/jcs.rs:13-14 | one key comes before another if and only if their code units agree up to a position where the first ends or has the smaller unit |
| KeyOrder.LessIsStrictTotal | crates/apohara-sealchain-core/src/jcs.rs:13-14 | the order of keys by UTF-16 code units is a strict total order on strings |
| JsonString.BodyOfEscapeAll | crates/apohara-sealchain-core/src/jcs.rs:13-18 | string escaping is undone by reading, for every string, and what follows the string is left |
| JsonString.EscapeIsMinimal | crates/apohara-sealchain-core/src/jcs.rs:14-15 | no spelling of a character is shorter than its escape, and one as short differs at most in the case of its hex digits, which are written in lower case |
| Doubles.RoundIsDouble | crates/apohara-sealchain-core/src/jcs.rs:13-14 | rounding any fraction gives a double |
| Doubles.RoundIsNearest | crates/apohara-sealchain-core/src/jcs.rs:13-14 | no double is closer to a fraction than the one it is rounded to |
| Doubles.TiesToEven | crates/apohara-sealchain-core/src/jcs.rs:13-14 | of two doubles equally close the even multiple at their exponent is taken |
| Doubles.RoundIsMonotone | crates/apohara-sealchain-core/src/jcs.rs:13-14 | rounding to the nearest double keeps the order of fractions |
| Doubles.DigitsAreShortest | crates/apohara-sealchain-core/src/jcs.rs:13-14 | no decimal with a larger exponent, hence none with fewer digits, rounds to the double |
| Doubles.DigitsAreClosest | crates/apohara-sealchain-core/src/jcs.rs:13-14 | of the decimals with that exponent which round to the double, the chosen one is closest |
| JsonNumber.ClassifyOfText | crates/apohara-sealchain-core/src/jcs.rs:13-18 | every safe integer and every finite double is read back from its text, in the layout of Number.prototype.toString |
| JsonNumber.LayoutByMagnitude | crates/apohara-sealchain-core/src/jcs.rs:13-14 | the exponent is written, with its sign, exactly from 10^21 on and below 10^-6; between them digits are padded, split or led by zeros |
| JsonNumber.ClassifyRounds | crates/apohara-sealchain-core/src/jcs.rs:13-18 | whatever text is read as a number, it is the double nearest to what the text says |
| JsonNumber.OneDoubleManyTexts | crates/apohara-sealchain-core/src/jcs.rs:13-14 | two texts are one canonical number if and only if the doubles nearest to them are the same |
| JsonNumber.WritingsOfOneDouble | crates/apohara-sealchain-core/src/jcs.rs:13-14 | 1e-07 and 1e-7 are one number, and so are 1.0 and 1 |
| JsonRoundTrip.ParseOfPrint | crates/apohara-sealchain-core/src/jcs.rs:11-18 | the strict reader returns every printed tree and uses up the whole text |
| JsonRoundTrip.ParseIsWF | crates/apohara-sealchain-core/src/jcs.rs:11-18 | whatever the reader accepts has no repeated key at any depth, and its numbers are safe integers or finite doubles |
| Jcs.NormalizeKeepsMeaning | crates/apohara-sealchain-core/src/jcs.rs:13-18 | sorting the members and taking numbers as doubles gives a normal tree with the same data |
| Jcs.NormalIsUnique | crates/apohara-sealchain-core/src/jcs.rs:13-18 | two normal trees with the same data are the same tree |
| Jcs.CanonicalRoundTrip | crates/apohara-sealchain-core/src/jcs.rs:11-18 | reading canonical bytes returns the normal tree and consumes every byte |
| Jcs.CanonicalIsInOrder | crates/apohara-sealchain-core/src/jcs.rs:13-14 | in every object of what canonical bytes say, at any depth, each key precedes the next by its code units |
| Jcs.CanonicalIsCompact | crates/apohara-sealchain-core/src/jcs.rs:11-18 | canonical text has no white space outside its strings |
| Jcs.CanonicalIffSameData | crates/apohara-sealchain-core/src/jcs.rs:11-18 | canonical bytes are equal if and only if the data are equal, objects as maps and numbers as doubles |
| Jcs.CanonicalIsIdempotent | crates/apohara-sealchain-core/src/jcs.rs:11-18 | canonicalizing what canonical bytes say gives the same bytes |
| Jcs.CanonicalBytesAreUnique | crates/apohara-sealchain-core/src/jcs.rs:11-18 | no other bytes decode to the canonical text |
| Excluded.Strip | crates/apohara-sealchain-core/src/excluded.rs:26-41 | the loops that skip excluded keys compute the recursive removal at every depth |
| Excluded.StripKeepsWF | crates/apohara-sealchain-core/src/excluded.rs:26-41 | stripping keeps objects free of repeated keys |
| Excluded.DataIffSame | crates/apohara-sealchain-core/src/excluded.rs:23-41 | stripped payloads have the same data exactly when the payloads match position by position and key by key, numbers as doubles and excluded keys aside |
| Excluded.SameNumbers | crates/apohara-sealchain-core/src/jcs.rs:4-5 | two numbers match if and only if they are one double, both zeros being one |
| Preimage.PreimageEqualIff | crates/apohara-sealchain-core/src/seal.rs:27-40 | two preimages are the same bytes if and only if the times are equal and the payloads differ by noise only |
| Preimage.PreimageText | crates/apohara-sealchain-core/src/seal.rs:27-40 | the text of a preimage is method tag, canonical stripped payload and time, under these keys and in this order |
| Preimage.PreimageIsReadable | crates/apohara-sealchain-core/src/seal.rs:27-40 | a preimage read back gives the method tag, the time and the data of the stripped payload |
| Preimage.PreimageIgnoresExcludedMember | crates/apohara-sealchain-core/src/excluded.rs:23-41 | inserting an excluded member anywhere, at any depth, leaves the preimage unchanged |
| Preimage.NewMemberCounts | crates/apohara-sealchain-core/src/excluded.rs:8-41 | a new member leaves the preimage unchanged if and only if its key is one of the six |
| Preimage.PreimageIgnoresMemberOrder | crates/apohara-sealchain-core/src/jcs.rs:13-18 | permuting the members of any object, at any depth, leaves the preimage unchanged |
| Preimage.StripIsIdempotent | crates/apohara-sealchain-core/src/excluded.rs:26-41 | stripping twice is stripping once |
| Hex.DecodeExact | crates/apohara-sealchain-core/src/artifact.rs:72-76 | a text decodes to given bytes exactly when in lower case it is their encoding |
| Hex.Decode0xOfEncode0x | crates/apohara-sealchain-core/src/seal.rs:19-25 | the prefixed form written by a seal is decoded to the same bytes |
| Hex.Decode0xExact | crates/apohara-sealchain-core/src/artifact.rs:72-76 | a text is taken for given bytes exactly if it, or what follows a prefix 0x, is their encoding up to case |
| Merkle.SplitIsLargest | crates/apohara-sealchain-core/src/layers/rekor.rs:472-501 | the tree is split at the largest power of two below its size |
| Merkle.RootIs | crates/apohara-sealchain-core/src/layers/rekor.rs:472-501 | the root is the hash of 1 and the roots of the two parts at the largest power of two, and that of a leaf the hash of 0 and the leaf |
| Merkle.VerifyInclusion | crates/apohara-sealchain-core/src/layers/rekor.rs:472-501 | the loop on index and size bits accepts exactly when hashing up the step list gives the root |
| Merkle.StepsOfHalf | crates/apohara-sealchain-core/src/layers/rekor.rs:472-501 | the steps read off the bits follow the recursive split of the tree |
| Inclusion.InclusionIsSound | crates/apohara-sealchain-core/src/layers/rekor.rs:463-501 | with any claimed index and size a proof is accepted if and only if it is the audit path of a leaf with that body and the claim calls for the same steps as that leaf's real place |
| Inclusion.StepsTellIndex | crates/apohara-sealchain-core/src/layers/rekor.rs:472-501 | for one size, equal steps mean equal indices |
| Inclusion.IndexIsRight | crates/apohara-sealchain-core/src/layers/rekor.rs:472-512 | the claimed index is the leaf's if and only if the real size calls for the same steps as the claimed size, as it does if they are equal |
| Inclusion.InclusionIsComplete | crates/apohara-sealchain-core/src/layers/rekor.rs:463-501 | the recursive audit path of every leaf is accepted by the loop |
| Inclusion.InclusionIsExact | crates/apohara-sealchain-core/src/layers/rekor.rs:463-501 | at the real size a proof is accepted if and only if it is the leaf at that index with its audit path |
| Inclusion.IndexNeedsTheSize | crates/apohara-sealchain-core/src/layers/rekor.rs:502-512 | without comparing sizes one proof is accepted for two different indices |
| Rekor.ResolveShard | crates/apohara-sealchain-core/src/layers/rekor.rs:215-218 | the first pinned shard with the log id, or none if there is none |
| Rekor.ParseHashes | crates/apohara-sealchain-core/src/layers/rekor.rs:472-490 | all proof hashes as 32-byte strings, or the index of the first that is not one |
| Rekor.DecodeHashes | crates/apohara-sealchain-core/src/layers/rekor.rs:480-490 | the loop over the proof hashes computes that |
| Rekor.VerifyAnchor | crates/apohara-sealchain-core/src/layers/rekor.rs:463-543 | the checks in order, each failure with its own outcome |
| Rekor.CheckSignatures | crates/apohara-sealchain-core/src/layers/rekor.rs:514-537 | the loop finds a good signature exactly when one of the checkpoint's signatures verifies |
| Rekor.VerifiedShows | crates/apohara-sealchain-core/src/layers/rekor.rs:463-543 | an anchor is accepted if and only if inclusion, root equality and a signature by the pinned key all hold |
| Rekor.AnchorIsSound | crates/apohara-sealchain-core/src/layers/rekor.rs:463-543 | if the signed root is that of a leaf list, body and hashes are those of one leaf; the index is its index exactly when the real size calls for the claimed steps, and does if the claimed size is the one in a truthful checkpoint |
| Rekor.AnchorIsComplete | crates/apohara-sealchain-core/src/layers/rekor.rs:463-543 | every leaf of a signed log has an accepted anchor |
| Rekor.AnchorRoundTrip | crates/apohara-sealchain-core/src/layers/rekor.rs:128-186 | every field of an anchor survives its form in a receipt |
| Rekor.NoFieldNoAnchor | crates/apohara-sealchain-core/src/layers/rekor.rs:148-186 | an anchor without one of its fields is not read |
| Rekor.NoFieldNoProof | crates/apohara-sealchain-core/src/layers/rekor.rs:148-155 | nor is an inclusion proof |
| Blob.UnframeOfFrame | crates/apohara-sealchain-core/src/keystore.rs:258-284 | unframing gives back header and ciphertext if and only if the header is shorter than 2^32 |
| Blob.FrameOfUnframe | crates/apohara-sealchain-core/src/keystore.rs:270-284 | every accepted blob is the frame of its parts |
| Blob.WriteBlob | crates/apohara-sealchain-core/src/keystore.rs:234-266 | the blob assembled piece by piece |
| Blob.DecryptSecret | crates/apohara-sealchain-core/src/keystore.rs:268-314 | total on every byte string, and any failure is a decryption error |
| Blob.DecryptsExactly | crates/apohara-sealchain-core/src/keystore.rs:268-314 | a blob decrypts to a secret if and only if it is the frame of an scrypt header with accepted parameters, salt and 24-byte nonce, and a ciphertext that opens to that secret |
| Blob.BlobSays | crates/apohara-sealchain-core/src/keystore.rs:234-266 | the header of a blob names scrypt, its costs 15, 8 and 1, the salt and the nonce, and the ciphertext is made under the derived key |
| Blob.DecryptOfEncrypt | crates/apohara-sealchain-core/src/keystore.rs:234-314 | decrypting an encrypted secret returns it under its passphrase and a decryption error under every other |
| Blob.OnePassphrase | crates/apohara-sealchain-core/src/keystore.rs:268-314 | no blob opens under two passphrases |
| KeySafety.StepIsSafe | crates/apohara-sealchain-core/src/keystore.rs:338-581 | any request, completed, refused or cut short anywhere, keeps every returned key stored |
| KeySafety.NoReturnedKeyIsLost | crates/apohara-sealchain-core/src/keystore.rs:338-581 | over any run in which no rotation moves a file over an archived one, every returned signing key is still in a file, as a PEM or sealed under a supplied passphrase |
| KeySafety.DistinctStampsAreClear | crates/apohara-sealchain-core/src/keystore.rs:553-571 | rotations with different stamps move no file over an archived one |
| KeySafety.SameSecondRotationLosesKey | crates/apohara-sealchain-core/src/keystore.rs:553-571 | two rotations with one stamp lose the key that was loaded first |
| KeySafety.InterruptedRotationLosesMacSecret | crates/apohara-sealchain-core/src/keystore.rs:350-366 | a load after an interrupted rotation overwrites the only copy of a MAC secret |
| SecretLoss.LoadLosesExactly | crates/apohara-sealchain-core/src/keystore.rs:338-366 | a load loses a held secret exactly when it generates plaintext keys over the stray file that is its only copy |
| SecretLoss.EncryptLosesNothing | crates/apohara-sealchain-core/src/keystore.rs:474-495 | an encryption, completed or cut short, loses no signing key and no MAC secret |
| SecretLoss.DecryptLosesExactly | crates/apohara-sealchain-core/src/keystore.rs:502-521 | a decryption loses a held secret exactly when a stray plaintext file beside the blob was its only copy |
| SecretLoss.RotateLosesExactly | crates/apohara-sealchain-core/src/keystore.rs:530-581 | a rotation loses a held secret exactly when it moves a file over the archived one that was its only copy |
| SecretLoss.LosesExactly | crates/apohara-sealchain-core/src/keystore.rs:338-581 | for every request and every point at which it breaks off, a held signing key or MAC secret is held afterwards if and only if its only file was not overwritten or is written back |
| SecretLoss.KeptExactly | crates/apohara-sealchain-core/src/keystore.rs:338-581 | over any run with crashes anywhere, a secret is held throughout if and only if no request loses it |
| SecretLoss.SecretsAreKept | crates/apohara-sealchain-core/src/keystore.rs:338-581 | over any run that overwrites no such file, every held secret of either kind stays held |
| SecretLoss.ReturnedSecretIsKept | crates/apohara-sealchain-core/src/keystore.rs:338-581 | the MAC secret and the signing key a completed request returned stay held over any such run |
| SecretLoss.OverwritingRotationLosesKey | crates/apohara-sealchain-core/src/keystore.rs:553-571 | a rotation whose first move lands on the only file of a key loses that key |
| Conversion.SealedLoads | crates/apohara-sealchain-core/src/keystore.rs:382-397 | a sealed store loads under its passphrase, is refused without one, and is a decryption error under another |
| Conversion.PlaintextLoads | crates/apohara-sealchain-core/src/keystore.rs:369-379 | a plaintext store loads whatever passphrase is given |
| Conversion.EncryptIsTransparent | crates/apohara-sealchain-core/src/keystore.rs:474-495 | at every intermediate state of an encryption a load with its passphrase returns the same keys |
| Conversion.DecryptIsTransparent | crates/apohara-sealchain-core/src/keystore.rs:502-521 | at every intermediate state of a decryption a load with its passphrase returns the same keys |
| KeystoreRefinement.LoadSimulates | crates/apohara-sealchain-core/src/keystore.rs:338-366 | a load of a represented directory returns the abstract keys, or generates in the asked mode |
| KeystoreRefinement.EncryptSimulates | crates/apohara-sealchain-core/src/keystore.rs:474-495 | an encryption takes the abstract store to the sealed one, or is refused as it is |
| KeystoreRefinement.DecryptSimulates | crates/apohara-sealchain-core/src/keystore.rs:502-521 | a decryption takes the abstract store to the plaintext one, or is refused as it is |
| KeystoreRefinement.RotateSimulates | crates/apohara-sealchain-core/src/keystore.rs:530-581 | a rotation puts the active store at the head of the history and fresh keys in its place |
| KeystoreRefinement.RequestSimulates | crates/apohara-sealchain-core/src/keystore.rs:338-581 | one request answers as the abstract keystore and ends in a directory that represents its state |
| KeystoreRefinement.KeystoreRefines | crates/apohara-sealchain-core/src/keystore.rs:338-581 | from an empty directory with increasing stamps every run answers as the abstract keystore and represents its state |
| KeystoreRefinement.ModeIsStable | crates/apohara-sealchain-core/src/keystore.rs:326-336 | exactly one mode is active, and it changes exactly when a conversion succeeds |
| KeystoreInfo.InfoIsCorrect | crates/apohara-sealchain-core/src/keystore.rs:610-694 | info reports the mode, the active fingerprint and the history newest first, in whatever order the archive is listed |
| KeystoreInfo.InfoNamesEntries | crates/apohara-sealchain-core/src/keystore.rs:625-675 | in any directory the listing names every archive entry, with a fingerprint exactly if a key file is there |
| KeystoreInfo.InfoFailsExactly | crates/apohara-sealchain-core/src/keystore.rs:610-694 | in any directory info fails if and only if a key file it consults cannot be read |
| Keystore.Keystore.WritePlaintext | crates/apohara-sealchain-core/src/keystore.rs:400-407 | the plaintext pair is written in order, as far as the file operations succeed |
| Keystore.Keystore.WriteEncrypted | crates/apohara-sealchain-core/src/keystore.rs:410-436 | blob, then public key, as far as the file operations succeed |
| Keystore.Keystore.LoadOrGenerate | crates/apohara-sealchain-core/src/keystore.rs:338-366 | the load of the specification; a refusal changes nothing |
| Keystore.Keystore.EncryptKeystore | crates/apohara-sealchain-core/src/keystore.rs:474-495 | the encryption of the specification, up to the operation that fails; a refusal changes nothing |
| Keystore.Keystore.DecryptKeystore | crates/apohara-sealchain-core/src/keystore.rs:502-521 | the decryption of the specification, up to the operation that fails; a refusal changes nothing |
| Keystore.Keystore.RotateKeys | crates/apohara-sealchain-core/src/keystore.rs:530-581 | the rotation of the specification, up to the operation that fails; a refusal changes nothing |
| Keystore.Keystore.MoveAll | crates/apohara-sealchain-core/src/keystore.rs:557-571 | the loop moves the present active files into the archive entry, in order |
| Keystore.Keystore.ListArchived | crates/apohara-sealchain-core/src/keystore.rs:651-675 | the loop over the archive entries computes the sorted list, or the first error |
| Keystore.Keystore.Info | crates/apohara-sealchain-core/src/keystore.rs:610-623 | mode, active fingerprint and archived keys in one answer |
| Keystore.MethodIsStep | crates/apohara-sealchain-core/src/keystore.rs:338-581 | what a keystore method does, completed or cut short, is one step of the runs of KeySafety |
| Record.RecordRoundTrip | crates/apohara-sealchain-core/src/schema.rs:21-113 | every field of a record survives its JSON form |
| Record.RecordFields | crates/apohara-sealchain-core/src/schema.rs:21-113 | where payload, time, preimage, tag, signature, key and siblings stand in the JSON form |
| Record.NullIsAbsent | crates/apohara-sealchain-core/src/schema.rs:58-104 | an optional field that is null reads as if it were not there |
| Record.RequiredFields | crates/apohara-sealchain-core/src/schema.rs:46-57 | a block without a required field is not read |
| Record.UnknownFieldIsIgnored | crates/apohara-sealchain-core/src/schema.rs:44-105 | a member that is not a field changes nothing |
| Record.LayersFromLists | crates/apohara-sealchain-core/src/schema.rs:22-42 | the hmac and ed25519 layers are also read from the list of their fields |
| Record.WrittenIsCurrent | crates/apohara-sealchain-core/src/schema.rs:115-139 | every written record passes the schema gate and reads back |
| Seal.AppendCryptoLayers | crates/apohara-sealchain-core/src/artifact.rs:537-597 | the hmac result and, if present, the ed25519 result are appended, or a structural error is returned |
| Seal.VerifiersAgree | crates/apohara-sealchain-core/src/verify.rs:41-103 | the record-level verifier is the conjunction of the layers, and parts from them only by a mismatch measured before a missing or unusable public key |
| Seal.VerifyMeans | crates/apohara-sealchain-core/src/verify.rs:41-103 | the answer is yes if and only if stored preimage, tag and, if present, signature are those of payload and time, the signature under the key passed, or under the embedded one if none was |
| Seal.SealedRecordVerifies | crates/apohara-sealchain-core/src/verify.rs:41-103 | a record that was sealed and written verifies under its keys, and under another MAC key exactly if that gives the same tag |
| Seal.ExplicitKeyDecides | crates/apohara-sealchain-core/src/verify.rs:56-61 | with a key passed, replacing the embedded key does not change the answer |
| Seal.OldRecordsAreRefused | crates/apohara-sealchain-core/src/schema.rs:115-139 | the old schema is reported exactly for a time at the top and none in a seal block |
| Seal.TamperIsMeasured | crates/apohara-sealchain-core/src/artifact.rs:537-597 | with payload and time replaced both layers stay ok if and only if the time is equal and the payload differs by noise only, and otherwise both fail |
| Seal.RewritingPreimageIsMeasured | crates/apohara-sealchain-core/src/artifact.rs:537-597 | the same when the stored preimage is rewritten too, up to hex case and the optional prefix |
| Artifact.VerifyArtifactBytes | crates/apohara-sealchain-core/src/artifact.rs:329-386 | the layers in order, pushed one by one, with the first structural error returned |
| LayerMeaning.VerificationFails | crates/apohara-sealchain-core/src/artifact.rs:280-535 | a verification fails exactly on a receipt or an answer that cannot be read, with the first such fault in the order of the layers; a mismatch is never an error |
| LayerMeaning.CoreMeans | crates/apohara-sealchain-core/src/artifact.rs:329-350 | content is ok exactly for the recorded hash, hmac and ed25519 exactly when preimage, tag and signature are those of payload and time |
| LayerMeaning.C2paMeans | crates/apohara-sealchain-core/src/artifact.rs:435-535 | c2pa is ok exactly when the in-file manifest is valid and signed by the embedded key, or the sidecar is bound to the hash of the canonical stripped payload |
| LayerMeaning.PayloadHashBinds | crates/apohara-sealchain-core/src/artifact.rs:518-535 | that hash is the same for another payload exactly when the two differ by noise only |
| LayerMeaning.TsaMeans | crates/apohara-sealchain-core/src/artifact.rs:416-433 | tsa is ok exactly when the token verifies for the bytes of the MAC followed by those of the signature |
| LayerMeaning.TokenFitsExactly | crates/apohara-sealchain-core/src/artifact.rs:262-279 | a token that fits only its own bytes is ok exactly for the MAC and the signature that were stamped |
| LayerMeaning.RekorMeans | crates/apohara-sealchain-core/src/artifact.rs:402-415 | rekor is ok exactly when the anchor parses, its log is pinned, and inclusion, root and signature hold under that shard's key |
| LayerMeaning.RekorLayerShowsLeaf | crates/apohara-sealchain-core/src/layers/rekor.rs:463-543 | if the signed root is that of a leaf list, an ok rekor layer holds the body and the audit path of one of its leaves |
| Artifact.ListPresentLayers | crates/apohara-sealchain-core/src/index.rs:43-62 | a layer is listed if and only if the receipt carries it, in the order of the chain and each once |
| Artifact.PresentLayersAre | crates/apohara-sealchain-core/src/index.rs:43-62 | the same of the specification that verification and policies use |
| Artifact.ResultsNamePresentLayers | crates/apohara-sealchain-core/src/artifact.rs:329-386 | a successful verification names the content layer and then exactly the present layers |
| SealingMeaning.PayloadSays | crates/apohara-sealchain-core/src/artifact.rs:157-173 | the payload records hash, name, size and media type of the file |
| SealingMeaning.FinalBytesAre | crates/apohara-sealchain-core/src/artifact.rs:147-155 | the bytes sealed are the file's, or the asset made from them, for an embeddable extension only |
| SealingMeaning.RecordIsMade | crates/apohara-sealchain-core/src/artifact.rs:175-220 | a receipt is made if and only if every layer asked for is delivered, and otherwise the error names the first that is not |
| SealingMeaning.ReceiptSays | crates/apohara-sealchain-core/src/artifact.rs:175-181 | the receipt holds payload, time, preimage, MAC, signature and public key |
| SealingMeaning.ReceiptCarries | crates/apohara-sealchain-core/src/artifact.rs:183-218 | it carries exactly the optional layers asked for, each as delivered for this payload, MAC and signature |
| SealingMeaning.TokenSays | crates/apohara-sealchain-core/src/artifact.rs:195-202 | authority, time and token stand in the receipt as the service gave them |
| SealingMeaning.StampedBytes | crates/apohara-sealchain-core/src/artifact.rs:262-279 | what is stamped is the MAC of the preimage followed by its signature |
| SealingMeaning.TokenIsBound | crates/apohara-sealchain-core/src/artifact.rs:416-433 | a token moved to another receipt is ok there exactly if MAC and signature are the same |
| Sealing.SiblingsDoNotMatter | crates/apohara-sealchain-core/src/artifact.rs:91-95 | the optional layers ride beside the seal and change nothing that is checked or stamped |
| Sealing.CoreVerifies | crates/apohara-sealchain-core/src/artifact.rs:122-178 | a receipt's content layer is ok for exactly the bytes with the sealed hash, and its crypto layers are ok |
| Sealing.ActivenessIsANote | crates/apohara-sealchain-core/src/artifact.rs:206-218 | the activeness put into an anchor changes no field that is read from it |
| SealingMeaning.NoteSays | crates/apohara-sealchain-core/src/artifact.rs:213-215 | the activeness stands beside the anchor under its key |
| Sealing.SealedArtifactVerifies | crates/apohara-sealchain-core/src/artifact.rs:122-220 | what was sealed, embedded or not, passes every requested layer and carries no other |
| Sealing.SealedIsWritable | crates/apohara-sealchain-core/src/artifact.rs:122-220 | every receipt made can be written as JSON and read back |
| Policy.Evaluate | crates/apohara-sealchain-core/src/policy.rs:102-164 | the loops list every violation, and there is none if and only if each requirement holds |
| Policy.ViolationsAre | crates/apohara-sealchain-core/src/policy.rs:102-164 | each kind of violation is listed if and only if what it says is the case |
| Policy.PassesOnItsResults | crates/apohara-sealchain-core/src/policy.rs:102-164 | on the results of verifying the receipt itself a policy reads exactly the results after the content layer |
| Policy.FreshnessWindow | crates/apohara-sealchain-core/src/policy.rs:207-235 | a limit of m days accepts exactly the times strictly between one day ahead and m + 1 days ago; a negative limit accepts none |
| Policy.TooOldStaysTooOld | crates/apohara-sealchain-core/src/policy.rs:207-235 | a receipt that is too old is too old at every later time |
| Policy.QualifiedMeans | crates/apohara-sealchain-core/src/policy.rs:176-205 | a qualified timestamp is one whose authority is, up to ASCII case, in the policy's own list if it has one, else in the known one |
| Policy.LongerListsPass | crates/apohara-sealchain-core/src/policy.rs:176-205 | an empty list refuses every receipt and a longer list refuses no more |
| Policy.MergePasses | crates/apohara-sealchain-core/src/policy.rs:102-164 | two policies with one allowlist are both passed if and only if their merge is |
| Policy.FullImpliesOthers | crates/apohara-sealchain-core/trust-profile.json:11-40 | full implies offline-basic and transparency, and legal-grade exactly when the timestamp host is listed |
| Policy.ProfilesMean | crates/apohara-sealchain-core/trust-profile.json:11-40 | each named profile passes if and only if its layers are carried and verified, and for legal-grade the timestamp host is a known one |
| Paths.ReceiptsDiffer | crates/apohara-sealchain-core/src/artifact.rs:607-611 | different artifacts have different receipt paths |
| Paths.ReceiptsAre | crates/apohara-sealchain/src/cli.rs:902-908 | a path counts as a receipt if and only if it is that of the receipt of some path |
| Sorting.TextLessIs | crates/apohara-sealchain-core/src/index.rs:174-185 | the order of texts is decided by the first character that differs, a proper prefix coming first |
| Paths.PathLessIs | crates/apohara-sealchain/src/cli.rs:865-868 | paths are ordered component by component in that way |
| Expand.CollectDir | crates/apohara-sealchain/src/cli.rs:879-900 | the walk terminates and appends the collected files, or returns the first failure |
| Expand.CollectIs | crates/apohara-sealchain/src/cli.rs:879-900 | the walk finds exactly the files under the directory, and fails exactly when it meets an unreadable one |
| Expand.ExpandInputs | crates/apohara-sealchain/src/cli.rs:839-870 | inputs resolved in turn, receipts dropped, sorted, duplicates removed |
| Expand.ExpansionIs | crates/apohara-sealchain/src/cli.rs:826-870 | the artifacts are strictly sorted, contain no receipt and are exactly the other files the inputs stand for; the missing inputs are exactly the literal paths that do not exist |
| Expand.ExpansionInOrder | crates/apohara-sealchain/src/cli.rs:865-868 | each artifact precedes the next component by component |
| Expand.ExpansionFailsWith | crates/apohara-sealchain/src/cli.rs:839-870 | a failure has the code of the first input that cannot be expanded, 2 for a bad pattern and 3 for a directory |
| Expand.ExpansionIsStable | crates/apohara-sealchain/src/cli.rs:826-870 | after receipts were written the same inputs expand to the same artifacts |
| Batch.Workspace.SealArtifact | crates/apohara-sealchain-core/src/artifact.rs:122-220 | the receipt of a file, which embedding rewrites first |
| Batch.Workspace.SealOne | crates/apohara-sealchain/src/cli.rs:707-765 | seal, write the receipt, index it; each failure with its category |
| Batch.Workspace.SealEach | crates/apohara-sealchain/src/cli.rs:646-660 | the loop over the artifacts performs the seals in turn and stops at the first failure if asked |
| Batch.Workspace.SealInputs | crates/apohara-sealchain/src/cli.rs:618-664 | missing inputs are reported first, then the artifacts are sealed, stopping at the first failure if asked |
| Batch.Workspace.ResolveKeys | crates/apohara-sealchain/src/cli.rs:912-937 | overrides if given, else the keystore's load, a failure with its exit code |
| BatchMeaning.NoKeysIsFour | crates/apohara-sealchain/src/cli.rs:512-520 | a keystore that does not give its keys ends the run with code 4 |
| Batch.Workspace.RunSeal | crates/apohara-sealchain/src/cli.rs:553-664 | option clash, expansion, empty and ambiguous inputs and keys each end the run with their code and seal nothing; otherwise the outcomes and their exit code |
| Batch.ExitCodeFor | crates/apohara-sealchain/src/cli.rs:669-685 | 0 if and only if nothing failed, else the least code of a failure |
| BatchMeaning.ExitCodeTells | crates/apohara-sealchain/src/cli.rs:530-537 | 1 exactly for a network failure, else 2 for an embedding failure, else 3, and 0 for none |
| Batch.ExitCodeIgnoresOrder | crates/apohara-sealchain/src/cli.rs:669-685 | the code does not depend on the order of the outcomes |
| BatchMeaning.StepResult | crates/apohara-sealchain/src/cli.rs:707-765 | a seal succeeds if and only if the artifact can be sealed and its receipt written; otherwise the category follows from what failed and what was asked for |
| BatchMeaning.OutIsUsed | crates/apohara-sealchain/src/cli.rs:649-652 | a receipt path that is given is where the receipt goes |
| BatchMeaning.RunSucceeds | crates/apohara-sealchain/src/cli.rs:646-660 | if every artifact can be sealed and every receipt written, all are, whatever the others do |
| BatchMeaning.RunEndsWithZero | crates/apohara-sealchain/src/cli.rs:553-664 | and such a run ends with code 0 |
| BatchMeaning.SealIsIndexed | crates/apohara-sealchain-core/src/index.rs:67-88 | after an indexed seal the row of the receipt says the artifact's name, the hash of its final bytes, the time and the receipt's layers, and other rows are as before |
| BatchMeaning.SealedIsFound | crates/apohara-sealchain-core/src/index.rs:187-202 | the search then returns that row for the beginning of the hash, a part of the name or a layer |
| BatchEnd.StepIs | crates/apohara-sealchain/src/cli.rs:707-765 | one seal touches its artifact only to embed, writes a receipt that verifies, and on failure leaves the receipt path as it was |
| BatchEnd.SealAllEnds | crates/apohara-sealchain/src/cli.rs:621-664 | after the run every success has a receipt that verifies against the final bytes, every failure left its receipt path untouched, nothing else changed, and fail-fast ends at the first failure |
| BatchEnd.RunEnds | crates/apohara-sealchain/src/cli.rs:621-664 | missing inputs are reported first as failures, then the artifacts, fail-fast stops at the first failure of either kind, and every other path is untouched |
| BatchEnd.SealAllWritesReceipts | crates/apohara-sealchain/src/cli.rs:621-664 | without embedding a run writes nothing but receipts, so no artifact is overwritten |
| BatchEnd.ReexpansionIsStable | crates/apohara-sealchain/src/cli.rs:839-870 | expanding the inputs again after the run gives the artifacts that were sealed |
| BatchEnd.SealAllKeepsIndex | crates/apohara-sealchain/src/cli.rs:756-762 | a run that indexes its receipts keeps the index derived from the receipts on disk |
| Index.ReceiptReadsBack | crates/apohara-sealchain-core/src/index.rs:292-297 | a written receipt parses to the record it was written from |
| Index.ScanInto | crates/apohara-sealchain-core/src/index.rs:267-282 | the walk collects the parseable receipts under a directory, or fails at a path that is not a readable directory |
| Index.Index.Insert | crates/apohara-sealchain-core/src/index.rs:144-171 | inserting refreshes the row of the receipt's path |
| Index.RowSays | crates/apohara-sealchain-core/src/index.rs:67-88 | a row takes name and hash from the payload, the time from the seal and the layers the receipt carries |
| Index.Index.Rebuild | crates/apohara-sealchain-core/src/index.rs:239-252 | the table is replaced by the rows of the scanned receipts, each with the time of its indexing, and a failed scan changes nothing |
| Index.Index.List | crates/apohara-sealchain-core/src/index.rs:174-185 | exactly the rows of the table, each once, by time descending and then by path, in whatever order they are stored |
| Index.Index.Find | crates/apohara-sealchain-core/src/index.rs:187-202 | exactly the rows that match, case folded, in the order of the list |
| Index.LatestInsertStands | crates/apohara-sealchain-core/src/index.rs:144-171 | after any inserts, each at its own time, there is one row per receipt path, equal to the latest insert |
| IndexAgreement.RebuildIsDerived | crates/apohara-sealchain-core/src/index.rs:232-252 | a rebuild gives exactly one row per receipt under the directory, whatever the table held |
| IndexAgreement.SealKeepsDerived | crates/apohara-sealchain-core/src/index.rs:141-147 | writing a receipt and inserting its row keeps the table derived from the receipts |
| IndexAgreement.RunKeepsDerived | crates/apohara-sealchain-core/src/index.rs:144-252 | over any run of seals and rebuilds the table stays derived from the receipts on disk |
| IndexAgreement.RebuildReproduces | crates/apohara-sealchain-core/src/index.rs:232-252 | after such a run a rebuild gives the same rows but for the time of indexing |
| Index.ListIs | crates/apohara-sealchain-core/src/index.rs:174-185 | sorting stored rows by time descending and path gives exactly the rows of the table, strictly ordered |
| Index.ListOrder | crates/apohara-sealchain-core/src/index.rs:174-185 | of two listed rows the first has the later time, or the same time and the smaller path |
| Index.FindIs | crates/apohara-sealchain-core/src/index.rs:187-202 | the search result is the subsequence of exactly the matching rows |
| Index.FoundBy | crates/apohara-sealchain-core/src/index.rs:187-202 | a query returns a row exactly for a part of its name, the beginning of its hash or the name of a layer, in lower case |

## Left out

- The insides of SHA-256, HMAC, Ed25519, scrypt and XChaCha20-Poly1305, and PEM, base64 and checkpoint text: function values with the laws stated above.
- C2PA manifests, X.509, RFC 3161 tokens and every network call, including the check of active shards: function values of `Services`.
- The parsing of RFC 3339 times: a time is a count of nanoseconds.
- The last bit of a number read from a long decimal text, where the JSON library's default reader may miss the nearest double: the model rounds correctly.
- White space of pretty-printed receipts, and the reason texts of results and errors: receipts are written without spaces and results carry a name and a verdict.
- Seal blocks, records and proofs written as JSON arrays, repeated keys and integers beyond 2^53 - 1, which the JSON library accepts in places: such texts are rejected, and such integers are read as doubles.
- Sealing.SealedArtifactVerifies: is about files of at most 2^53 - 1 bytes, whose size a JSON number holds exactly.
- KeySafety.NoReturnedKeyIsLost: is about signing keys, because for MAC secrets it is false (`KeySafety.InterruptedRotationLosesMacSecret`); when a MAC secret is lost is `SecretLoss.LosesExactly`.
- Creation and resolution of the configuration directory, the reading of override keys (its result enters as a value), file permissions, symbolic links, path aliasing and paths with `.` or `..` components.
- SQLite: the table is a map keyed by the receipt path, and a row keeps its layers as a list; an index write either succeeds or changes nothing.
- Torn writes: a file operation happens as a whole or not at all.
- `classify_shard`, `from_toml_str`, `render_chain`, the WebAssembly build's placeholder layers, the command line, the MCP server, the dashboard and the SDKs, which would add easy members only.
