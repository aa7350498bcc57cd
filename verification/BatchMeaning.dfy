/** When a seal of a batch succeeds, how it fails otherwise, what the exit code
    tells, and what an indexed seal leaves in the index. */
module BatchMeaning {
  import opened Prelude
  import opened Crypto
  import opened Record
  import opened Paths
  import opened Sealing
  import opened Batch
  import Artifact
  import BatchEnd
  import Hex
  import Index
  import KeystoreSpec
  import Preimage
  import SealingMeaning
  import Sorting

  // ---------- One seal ----------

  /** Every layer that was asked for is delivered for the final bytes. */
  ghost predicate Delivered(g: Config, a: Path, bytes: Bytes) {
    var (p, key) := (PayloadOf(g.s, g.c, a, bytes), g.keys.ed25519);
    var m := Preimage.BuildPreimage(p, g.sealedAt(a));
    && (g.o.c2pa && !g.o.embed ==> g.s.emitSidecar(p, key, g.o.aiGenerated).Some?)
    && (g.o.tsa.Some? ==> g.s.requestToken(g.c.mac(g.keys.hmac, m) + g.c.sign(key, m), g.o.tsa.value).Some?)
    && (g.o.rekor.Some? ==> g.s.checkShard(g.o.rekor.value).Some? && g.s.submit(m, key, g.o.rekor.value).Some?)
  }

  /** The manifest cannot be embedded, or embedding and the manifest exclude each other. */
  ghost predicate CannotEmbed(g: Config, files: map<Path, Bytes>, a: Path) {
    ((g.o.embed || g.o.aiGenerated) && !g.o.c2pa) || (a in files && FinalBytes(g.s, a, files[a], g.keys.ed25519, g.o).Err?)
  }

  /** The artifact exists, its final bytes can be made and written, and every
      layer is delivered. */
  ghost predicate Sealable(g: Config, files: map<Path, Bytes>, a: Path) {
    && !((g.o.embed || g.o.aiGenerated) && !g.o.c2pa) && a in files
    && FinalBytes(g.s, a, files[a], g.keys.ed25519, g.o).Ok?
    && (g.o.embed ==> g.canWrite(a))
    && Delivered(g, a, FinalBytes(g.s, a, files[a], g.keys.ed25519, g.o).value)
  }

  lemma RecordIsDelivered(g: Config, a: Path, bytes: Bytes)
    ensures RecordOf(g.s, g.c, a, bytes, g.keys, g.sealedAt(a), g.o).Ok? <==> Delivered(g, a, bytes)
    ensures g.o.embed ==> RecordOf(g.s, g.c, a, bytes, g.keys, g.sealedAt(a), g.o) != Err(SealError.C2pa)
  {
    hide RecordOf, PayloadOf, Preimage.BuildPreimage;
    var m := Preimage.BuildPreimage(PayloadOf(g.s, g.c, a, bytes), g.sealedAt(a));
    SealingMeaning.RecordIsMade(g.s, g.c, a, bytes, g.keys, g.sealedAt(a), g.o, m, g.c.mac(g.keys.hmac, m),
                                g.c.sign(g.keys.ed25519, m));
  }

  lemma AttemptSucceeds(g: Config, files: map<Path, Bytes>, a: Path)
    ensures Attempt(g, files, a).1.Ok? <==> Sealable(g, files, a)
    ensures g.o.embed ==> (Attempt(g, files, a).1 == Err(SealError.C2pa) <==> CannotEmbed(g, files, a))
  {
    hide RecordOf, FinalBytes, Delivered;
    if a in files {
      FailsForEmbedding(g, a, files[a]);
      if FinalBytes(g.s, a, files[a], g.keys.ed25519, g.o).Ok? {
        RecordIsDelivered(g, a, FinalBytes(g.s, a, files[a], g.keys.ed25519, g.o).value);
      }
    }
  }

  lemma FailsForEmbedding(g: Config, a: Path, bytes: Bytes)
    ensures FinalBytes(g.s, a, bytes, g.keys.ed25519, g.o).Err? ==>
              FinalBytes(g.s, a, bytes, g.keys.ed25519, g.o) == Err(SealError.C2pa)
  {
  }

  /** A seal succeeds exactly if the artifact can be sealed and its receipt can be
      written. Otherwise it is a usage error if embedding was asked for and is not
      possible, else a network error if a network layer was asked for, else a
      schema error; a receipt that cannot be written is a schema error. */
  lemma StepResult(g: Config, st: State, a: Path, out: Path)
    ensures
      var (result, sealable) := (SealStep(g, st, a, out).1, Sealable(g, st.files, a));
      var usage := g.o.embed && CannotEmbed(g, st.files, a);
      && (result.Ok? <==> sealable && g.canWrite(out))
      && (result == Err(Usage) <==> !sealable && usage)
      && (result == Err(Network) <==> !sealable && !usage && (g.o.tsa.Some? || g.o.rekor.Some?))
      && (result == Err(Schema) <==>
            (sealable && !g.canWrite(out)) || (!sealable && !usage && g.o.tsa.None? && g.o.rekor.None?))
  {
    hide Attempt, Sealable, CannotEmbed, Index.ReceiptBytes, Index.RowOf, Artifact.PresentLayers;
    AttemptSucceeds(g, st.files, a);
  }

  /** A seal writes at most its artifact and its receipt, wherever that goes. */
  lemma StepTouches(g: Config, st: State, a: Path, out: Path, p: Path)
    requires p != a && p != out
    ensures BatchEnd.SameAt(st.files, SealStep(g, st, a, out).0.files, p)
  {
    hide RecordOf, FinalBytes, Index.ReceiptBytes, Index.RowOf, Artifact.PresentLayers;
  }

  /** A receipt written where it was asked to go reads back, and nothing is
      written beside the artifact instead. */
  lemma OutIsUsed(g: Config, st: State, a: Path, out: Path, failFast: bool)
    requires BatchEnd.Sound(g) && BatchEnd.Sizable(g, st.files, a)
    ensures
      var (end, outcomes) := SealAll(g, st, [a], Some(out), failFast);
      && |outcomes| == 1 && outcomes[0].artifact == a
      && (forall p | p != a && p != out :: BatchEnd.SameAt(st.files, end.files, p))
      && (outcomes[0].result.Ok? ==> out in end.files && Index.ReadReceipt(end.files[out]).Some?)
  {
    hide SealStep, BatchEnd.Sound, BatchEnd.Sizable, Index.ReadReceipt, BatchEnd.SameAt;
    assert [a][1..] == [];
    var (next, result) := SealStep(g, st, a, out);
    assert SealAll(g, next, [], Some(out), failFast) == (next, []);
    assert [Outcome(a, result)] + [] == [Outcome(a, result)];
    forall p | p != a && p != out ensures BatchEnd.SameAt(st.files, next.files, p) {
      StepTouches(g, st, a, out, p);
    }
    ReceiptIsWritten(g, st, a, out);
  }

  lemma ReceiptIsWritten(g: Config, st: State, a: Path, out: Path)
    requires BatchEnd.Sound(g) && BatchEnd.Sizable(g, st.files, a)
    ensures var (next, result) := SealStep(g, st, a, out);
      result.Ok? ==> out in next.files && Index.ReadReceipt(next.files[out]).Some? &&
                     Attempt(g, st.files, a).1 == Ok(Index.ReadReceipt(next.files[out]).value)
  {
    hide Attempt, BatchEnd.Sound, BatchEnd.Sizable, Index.ReadReceipt, Index.ReceiptBytes, Index.RowOf, Artifact.VerifyBytes, Writable;
    BatchEnd.AttemptIs(g, st.files, a);
    if Attempt(g, st.files, a).1.Ok? {
      Index.ReceiptReadsBack(Attempt(g, st.files, a).1.value);
    }
  }

  // ---------- A whole run ----------

  lemma AttemptIsLocal(g: Config, f: map<Path, Bytes>, f': map<Path, Bytes>, a: Path)
    requires BatchEnd.SameAt(f, f', a)
    ensures Sealable(g, f, a) <==> Sealable(g, f', a)
  {
    hide FinalBytes, Delivered;
  }

  /** If every artifact can be sealed and every receipt written, all of them are. */
  lemma {:induction false} RunSucceeds(g: Config, st: State, artifacts: seq<Path>, failFast: bool)
    requires BatchEnd.AllArtifacts(artifacts)
    requires forall i | 0 <= i < |artifacts| :: Sealable(g, st.files, artifacts[i]) && g.canWrite(ReceiptOf(artifacts[i]))
    ensures
      var outcomes := SealAll(g, st, artifacts, None, failFast).1;
      |outcomes| == |artifacts| && forall i | 0 <= i < |outcomes| :: outcomes[i].artifact == artifacts[i] && outcomes[i].result.Ok?
    decreases |artifacts|
  {
    hide SealStep, Sealable, ReceiptOf, IsReceipt, BatchEnd.SameAt;
    if artifacts != [] {
      var (next, result) := SealStep(g, st, artifacts[0], ReceiptOf(artifacts[0]));
      StepResult(g, st, artifacts[0], ReceiptOf(artifacts[0]));
      BatchEnd.TailIsApart(artifacts);
      ReceiptIsReceipt(artifacts[0]);
      forall i | 0 <= i < |artifacts[1..]|
        ensures Sealable(g, next.files, artifacts[1..][i]) && g.canWrite(ReceiptOf(artifacts[1..][i]))
      {
        assert artifacts[1..][i] == artifacts[i + 1];
        StepTouches(g, st, artifacts[0], ReceiptOf(artifacts[0]), artifacts[i + 1]);
        AttemptIsLocal(g, st.files, next.files, artifacts[i + 1]);
      }
      RunSucceeds(g, next, artifacts[1..], failFast);
    }
  }

  // ---------- Exit codes ----------

  predicate SomeFailure(outcomes: seq<Outcome>, kind: FailureKind) {
    exists i | 0 <= i < |outcomes| :: outcomes[i].result == Err(kind)
  }

  /** 0 if nothing failed; 1 if a network layer did; else 2 if embedding did; else 3. */
  lemma ExitCodeTells(outcomes: seq<Outcome>, code: int)
    requires IsExitCode(outcomes, code)
    ensures code == 0 <==> forall i | 0 <= i < |outcomes| :: outcomes[i].result.Ok?
    ensures code == 1 <==> SomeFailure(outcomes, Network)
    ensures code == 2 <==> !SomeFailure(outcomes, Network) && SomeFailure(outcomes, Usage)
    ensures code == 3 <==> !SomeFailure(outcomes, Network) && !SomeFailure(outcomes, Usage) && SomeFailure(outcomes, Schema)
  {
    if code != 0 {
      var i :| 0 <= i < |outcomes| && outcomes[i].result.Err? && CodeOf(outcomes[i].result.error) == code;
      assert outcomes[i].result == Err(outcomes[i].result.error);
    }
  }

  /** A keystore that does not give its keys ends the run with code 4. */
  lemma NoKeysIsFour(c: Crypto, pass: Option<string>, r: KeystoreSpec.Draws, d: KeystoreSpec.Dir, budget: nat)
    ensures KeysFrom(c, Stored(pass, r), d, budget).Err? ==> KeysFrom(c, Stored(pass, r), d, budget) == Err(4)
  {
  }

  /** A run of sealable artifacts, with no input missing, ends with code 0. */
  lemma RunEndsWithZero(g: Config, st: State, artifacts: seq<Path>, failFast: bool, code: int)
    requires BatchEnd.AllArtifacts(artifacts)
    requires forall i | 0 <= i < |artifacts| :: Sealable(g, st.files, artifacts[i]) && g.canWrite(ReceiptOf(artifacts[i]))
    requires IsExitCode(RunAll(g, st, artifacts, [], None, failFast).1, code)
    ensures code == 0
  {
    hide SealAll, Sealable;
    RunSucceeds(g, st, artifacts, failFast);
    var outcomes := SealAll(g, st, artifacts, None, failFast).1;
    assert MissingOutcomes([]) + outcomes == outcomes;
    ExitCodeTells(outcomes, code);
  }

  // ---------- The index ----------

  /** After a seal that is indexed, the row under the receipt's path says what was
      sealed: the artifact's name, the hash of its final bytes, the time and the
      layers of the receipt. */
  lemma SealIsIndexed(g: Config, st: State, a: Path, out: Path, bytes: Bytes)
    requires a != [] && SealStep(g, st, a, out).1.Ok? && g.indexing && g.canIndex(out)
    requires a in st.files && FinalBytes(g.s, a, st.files[a], g.keys.ed25519, g.o) == Ok(bytes)
    ensures
      var (end, result) := SealStep(g, st, a, out);
      Join(out) in end.table &&
      var row := end.table[Join(out)];
      && row.artifactPath == a[|a| - 1] && row.artifactSha256 == Hex.Encode(g.c.sha256(bytes))
      && row.sealedAt == g.sealedAt(a) && row.receiptPath == Join(out) && row.indexedAt == g.indexedAt(out)
      && (forall layer :: layer in row.layers <==> layer in result.value)
    ensures forall k | k in st.table && k != Join(out) ::
      k in SealStep(g, st, a, out).0.table && SealStep(g, st, a, out).0.table[k] == st.table[k]
  {
    hide Attempt, RecordOf, Join, Artifact.PresentLayers, Artifact.Carries, Index.RowOf, PayloadOf, Hex.Encode, Index.ReceiptBytes;
    var r := Attempt(g, st.files, a).1.value;
    AttemptRecord(g, st.files, a, bytes);
    PayloadIs(g, a, bytes, r);
    Index.RowSays(r, out, g.indexedAt(out));
    SealingMeaning.PayloadSays(g.s, g.c, a, bytes);
    Artifact.PresentLayersAre(r.seal);
  }

  lemma AttemptRecord(g: Config, files: map<Path, Bytes>, a: Path, bytes: Bytes)
    requires a in files && FinalBytes(g.s, a, files[a], g.keys.ed25519, g.o) == Ok(bytes) && Attempt(g, files, a).1.Ok?
    ensures Attempt(g, files, a).1 == RecordOf(g.s, g.c, a, bytes, g.keys, g.sealedAt(a), g.o)
  {
    hide RecordOf, FinalBytes;
  }

  lemma PayloadIs(g: Config, a: Path, bytes: Bytes, r: SealedRecord)
    requires RecordOf(g.s, g.c, a, bytes, g.keys, g.sealedAt(a), g.o) == Ok(r)
    ensures r.payload == PayloadOf(g.s, g.c, a, bytes) && r.seal.sealedAt == g.sealedAt(a)
  {
    hide RecordOf, PayloadOf, Preimage.BuildPreimage;
    var m := Preimage.BuildPreimage(PayloadOf(g.s, g.c, a, bytes), g.sealedAt(a));
    SealingMeaning.ReceiptSays(g.s, g.c, a, bytes, g.keys, g.sealedAt(a), g.o, m, g.c.mac(g.keys.hmac, m),
                               g.c.sign(g.keys.ed25519, m));
  }

  /** The search then finds the receipt by the beginning of the hash, by a part of
      the artifact's name, and by each of its layers. */
  lemma SealedIsFound(g: Config, st: State, a: Path, out: Path, bytes: Bytes, lower: string -> string, query: string, scan: seq<string>)
    requires a != [] && SealStep(g, st, a, out).1.Ok? && g.indexing && g.canIndex(out) && Index.WellKeyed(st.table)
    requires a in st.files && FinalBytes(g.s, a, st.files[a], g.keys.ed25519, g.o) == Ok(bytes)
    requires Sorting.Distinct(scan) && forall k :: k in scan <==> k in SealStep(g, st, a, out).0.table
    requires lower(query) <= lower(Hex.Encode(g.c.sha256(bytes))) || Index.IsPart(lower(query), lower(a[|a| - 1])) ||
             lower(query) in SealStep(g, st, a, out).1.value
    ensures
      var table := SealStep(g, st, a, out).0.table;
      Join(out) in table && table[Join(out)] in Index.Filter(lower, lower(query), Index.Listed(table, scan))
  {
    hide SealStep, Join, Hex.Encode, Index.Filter, Index.Listed, Index.IsPart, Index.WellKeyed;
    SealIsIndexed(g, st, a, out, bytes);
    StepKeepsKeys(g, st, a, out);
    var table := SealStep(g, st, a, out).0.table;
    Index.FoundBy(lower, query, table, scan, table[Join(out)]);
  }

  lemma StepKeepsKeys(g: Config, st: State, a: Path, out: Path)
    requires Index.WellKeyed(st.table)
    ensures Index.WellKeyed(SealStep(g, st, a, out).0.table)
  {
    hide Attempt, Join, Index.ReceiptBytes, Artifact.PresentLayers, Index.WellKeyed, Index.RowOf, Index.Upsert;
    if Attempt(g, st.files, a).1.Ok? {
      Index.UpsertKeyed(st.table, Attempt(g, st.files, a).1.value, out, g.indexedAt(out));
    }
  }
}
