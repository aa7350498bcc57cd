/** What a batch leaves behind, when each receipt goes next to its artifact. */
module BatchEnd {
  import opened Prelude
  import opened JsonNumber
  import opened Crypto
  import opened Record
  import opened Paths
  import opened Sealing
  import opened Batch
  import Artifact
  import Expand
  import Index
  import IndexAgreement
  import KeystoreSpec
  import Sorting

  predicate SameAt(f: map<Path, Bytes>, f': map<Path, Bytes>, p: Path) {
    (p in f <==> p in f') && (p in f && p in f' ==> f[p] == f'[p])
  }

  /** There is a receipt next to the artifact; it reads back, and the artifact as
      it is now passes every requested layer. */
  ghost predicate Receipted(g: Config, files: map<Path, Bytes>, a: Path, layers: seq<string>) {
    && a in files && ReceiptOf(a) in files
    && Index.ReadReceipt(files[ReceiptOf(a)]).Some?
    && (var r := Index.ReadReceipt(files[ReceiptOf(a)]).value;
        layers == Artifact.PresentLayers(r.seal) &&
        Artifact.VerifyBytes(g.s, g.c, files[a], r, Some(g.keys.hmac)) == Ok(AllPassed(ExpectedLayers(g.o))))
  }

  /** Lawful cryptography, honest services, and keys that belong together. */
  ghost predicate Sound(g: Config) {
    LawfulKeys(g.c) && Honest(g.s, g.c) && g.keys == KeystoreSpec.KeysOf(g.c, g.keys.hmac, g.keys.ed25519)
  }

  /** The bytes to seal have a length that a JSON number holds exactly. */
  ghost predicate Sizable(g: Config, files: map<Path, Bytes>, a: Path) {
    a in files ==>
      var bytes := FinalBytes(g.s, a, files[a], g.keys.ed25519, g.o);
      bytes.Ok? ==> |bytes.value| <= MAX_SAFE
  }

  /** An artifact is a file of its own: not a receipt. */
  predicate IsArtifact(a: Path) {
    a != [] && !IsReceipt(a)
  }

  // ---------- One seal ----------

  lemma AttemptIs(g: Config, files: map<Path, Bytes>, a: Path)
    requires Sound(g) && Sizable(g, files, a)
    ensures var (files', sealed) := Attempt(g, files, a);
      && (forall p | p != a :: SameAt(files, files', p)) && (!g.o.embed ==> files' == files)
      && (sealed.Ok? ==>
            a in files && a in files' && Writable(sealed.value) &&
            Artifact.VerifyBytes(g.s, g.c, files'[a], sealed.value, Some(g.keys.hmac)) == Ok(AllPassed(ExpectedLayers(g.o))))
  {
    hide RecordOf, FinalBytes, Honest, LawfulKeys, Writable, Artifact.VerifyBytes, AllPassed, ExpectedLayers;
    var (files', sealed) := Attempt(g, files, a);
    if sealed.Ok? {
      var bytes := FinalBytes(g.s, a, files[a], g.keys.ed25519, g.o).value;
      FinalWithoutEmbed(g.s, a, files[a], g.keys.ed25519, g.o);
      SealedArtifactVerifies(g.s, g.c, a, files[a], bytes, g.keys, g.sealedAt(a), g.o);
      SealedIsWritable(g.s, g.c, a, bytes, g.keys, g.sealedAt(a), g.o);
    }
  }

  lemma FinalWithoutEmbed(s: Artifact.Services, a: Path, bytes: Bytes, key: SigningKey, o: Options)
    ensures !o.embed ==> FinalBytes(s, a, bytes, key, o) == Ok(bytes)
  {
  }

  /** A seal touches its artifact (only to embed a manifest) and its receipt; if
      it succeeds the receipt is good, and if it fails the receipt's path is left
      as it was. */
  lemma StepIs(g: Config, st: State, a: Path)
    requires Sound(g) && Sizable(g, st.files, a) && IsArtifact(a)
    ensures var (st', result) := SealStep(g, st, a, ReceiptOf(a));
      && (forall p | p != a && p != ReceiptOf(a) :: SameAt(st.files, st'.files, p))
      && (!g.o.embed ==> SameAt(st.files, st'.files, a))
      && (result.Ok? ==> Receipted(g, st'.files, a, result.value) && g.canWrite(ReceiptOf(a)) && a in st.files)
      && (result.Err? ==> SameAt(st.files, st'.files, ReceiptOf(a)))
  {
    hide Attempt, Sound, Sizable, Writable, Index.ReceiptBytes, Index.ReadReceipt, Artifact.VerifyBytes, AllPassed;
    hide ExpectedLayers, Artifact.PresentLayers, Index.RowOf;
    AttemptIs(g, st.files, a);
    ReceiptIsReceipt(a);
    var (files, sealed) := Attempt(g, st.files, a);
    var end := SealStep(g, st, a, ReceiptOf(a)).0;
    forall p | p != a && p != ReceiptOf(a) ensures SameAt(st.files, end.files, p) {
      assert SameAt(st.files, files, p);
    }
    if sealed.Ok? {
      Index.ReceiptReadsBack(sealed.value);
    }
  }

  // ---------- The whole run ----------

  predicate AllArtifacts(artifacts: seq<Path>) {
    Sorting.Distinct(artifacts) && forall i | 0 <= i < |artifacts| :: IsArtifact(artifacts[i])
  }

  ghost predicate AllSizable(g: Config, files: map<Path, Bytes>, artifacts: seq<Path>) {
    forall i | 0 <= i < |artifacts| :: Sizable(g, files, artifacts[i])
  }

  predicate Untouched(artifacts: seq<Path>, p: Path) {
    forall i | 0 <= i < |artifacts| :: p != artifacts[i] && p != ReceiptOf(artifacts[i])
  }

  /** The outcome of an artifact agrees with the files. */
  ghost predicate OutcomeHolds(g: Config, before: map<Path, Bytes>, after: map<Path, Bytes>, a: Path, result: SealResult) {
    match result
    case Ok(layers) => Receipted(g, after, a, layers)
    case Err(_) => SameAt(before, after, ReceiptOf(a))
  }

  /** The outcomes are those of a prefix of the artifacts, cut short only by the
      first failure under `failFast`. */
  predicate Aligned(artifacts: seq<Path>, outcomes: seq<Outcome>, failFast: bool) {
    && |outcomes| <= |artifacts|
    && (forall i | 0 <= i < |outcomes| :: outcomes[i].artifact == artifacts[i])
    && (|outcomes| < |artifacts| ==> failFast && outcomes != [] && outcomes[|outcomes| - 1].result.Err?)
    && (failFast ==> forall i | 0 <= i < |outcomes| - 1 :: outcomes[i].result.Ok?)
  }

  lemma TailIsApart(artifacts: seq<Path>)
    requires AllArtifacts(artifacts) && artifacts != []
    ensures AllArtifacts(artifacts[1..])
    ensures Untouched(artifacts[1..], artifacts[0]) && Untouched(artifacts[1..], ReceiptOf(artifacts[0]))
  {
    hide IsReceipt, ReceiptOf;
    var a := artifacts[0];
    ReceiptIsReceipt(a);
    forall i | 0 < i < |artifacts| ensures ReceiptOf(artifacts[i]) != ReceiptOf(a) && IsReceipt(ReceiptOf(artifacts[i])) {
      ReceiptIsReceipt(artifacts[i]);
      if ReceiptOf(artifacts[i]) == ReceiptOf(a) {
        ReceiptsDiffer(artifacts[i], a);
      }
    }
  }

  lemma HoldsAfter(g: Config, before: map<Path, Bytes>, mid: map<Path, Bytes>, after: map<Path, Bytes>, a: Path, result: SealResult)
    requires OutcomeHolds(g, before, mid, a, result)
    requires SameAt(mid, after, a) && SameAt(mid, after, ReceiptOf(a))
    ensures OutcomeHolds(g, before, after, a, result)
  {
    hide ReceiptOf, Index.ReadReceipt, Artifact.VerifyBytes, AllPassed, ExpectedLayers, Artifact.PresentLayers;
  }

  lemma HeldBefore(g: Config, before: map<Path, Bytes>, mid: map<Path, Bytes>, after: map<Path, Bytes>, a: Path, result: SealResult)
    requires OutcomeHolds(g, mid, after, a, result) && SameAt(before, mid, ReceiptOf(a))
    ensures OutcomeHolds(g, before, after, a, result)
  {
    hide ReceiptOf, Receipted;
  }

  lemma SizableLater(g: Config, st: State, artifacts: seq<Path>)
    requires Sound(g) && AllArtifacts(artifacts) && artifacts != [] && AllSizable(g, st.files, artifacts)
    ensures AllSizable(g, SealStep(g, st, artifacts[0], ReceiptOf(artifacts[0])).0.files, artifacts[1..])
  {
    hide SealStep, Sound, IsReceipt, ReceiptOf, Receipted, FinalBytes;
    StepIs(g, st, artifacts[0]);
    TailIsApart(artifacts);
    ReceiptIsReceipt(artifacts[0]);
    var files := SealStep(g, st, artifacts[0], ReceiptOf(artifacts[0])).0.files;
    forall i | 0 <= i < |artifacts[1..]| ensures Sizable(g, files, artifacts[1..][i]) {
      assert artifacts[1..][i] == artifacts[i + 1];
      assert SameAt(st.files, files, artifacts[i + 1]);
    }
  }

  /** The end state of a run: every success has a receipt on disk that verifies
      against the artifact's final bytes, every failure left its receipt's path
      as it was, nothing else was touched, and the outcomes are those of the
      artifacts in order, up to the first failure under `failFast`. */
  lemma {:induction false} SealAllEnds(g: Config, st: State, artifacts: seq<Path>, failFast: bool)
    requires Sound(g) && AllArtifacts(artifacts) && AllSizable(g, st.files, artifacts)
    ensures var (end, outcomes) := SealAll(g, st, artifacts, None, failFast);
      && Aligned(artifacts, outcomes, failFast)
      && (forall i | 0 <= i < |outcomes| ::
            OutcomeHolds(g, st.files, end.files, outcomes[i].artifact, outcomes[i].result))
      && (forall p | Untouched(artifacts[..|outcomes|], p) :: SameAt(st.files, end.files, p))
    decreases |artifacts|
  {
    hide SealStep, Sound, OutcomeHolds, AllSizable, AllArtifacts, Untouched, ReceiptOf, SameAt;
    if artifacts != [] {
      var a := artifacts[0];
      var (next, result) := SealStep(g, st, a, ReceiptOf(a));
      FirstOutcome(g, st, artifacts);
      if !(result.Err? && failFast) {
        TailIsApart(artifacts);
        SizableLater(g, st, artifacts);
        SealAllEnds(g, next, artifacts[1..], failFast);
        var (end, rest) := SealAll(g, next, artifacts[1..], None, failFast);
        var outcomes := [Outcome(a, result)] + rest;
        UntouchedPrefix(artifacts[1..], |rest|, a);
        UntouchedPrefix(artifacts[1..], |rest|, ReceiptOf(a));
        HoldsAfter(g, st.files, next.files, end.files, a, result);
        forall i | 0 <= i < |rest| ensures OutcomeHolds(g, st.files, end.files, rest[i].artifact, rest[i].result) {
          LaterReceipt(g, st, artifacts, i + 1);
          HeldBefore(g, st.files, next.files, end.files, rest[i].artifact, rest[i].result);
        }
        assert forall i | 0 < i < |outcomes| :: outcomes[i] == rest[i - 1];
        forall p | Untouched(artifacts[..|outcomes|], p) ensures SameAt(st.files, end.files, p) {
          UntouchedSplits(artifacts, |outcomes|, p);
          SameThrough(st.files, next.files, end.files, p);
        }
      } else {
        forall p | Untouched(artifacts[..1], p) ensures SameAt(st.files, next.files, p) {
          UntouchedSplits(artifacts, 1, p);
        }
      }
    } else {
      forall p ensures SameAt(st.files, st.files, p) { SameThrough(st.files, st.files, st.files, p); }
    }
  }

  lemma SameThrough(f: map<Path, Bytes>, g: map<Path, Bytes>, h: map<Path, Bytes>, p: Path)
    ensures SameAt(f, f, p)
    ensures SameAt(f, g, p) && SameAt(g, h, p) ==> SameAt(f, h, p)
  {
  }

  lemma UntouchedPrefix(artifacts: seq<Path>, n: nat, p: Path)
    requires n <= |artifacts| && Untouched(artifacts, p)
    ensures Untouched(artifacts[..n], p)
  {
    hide ReceiptOf;
  }

  lemma UntouchedSplits(artifacts: seq<Path>, n: nat, p: Path)
    requires 0 < n <= |artifacts| && Untouched(artifacts[..n], p)
    ensures p != artifacts[0] && p != ReceiptOf(artifacts[0]) && Untouched(artifacts[1..][..n - 1], p)
  {
    hide ReceiptOf;
    var head := artifacts[..n];
    assert head[0] == artifacts[0];
    var tail := artifacts[1..][..n - 1];
    forall i | 0 <= i < |tail| ensures p != tail[i] && p != ReceiptOf(tail[i]) {
      assert tail[i] == head[i + 1];
    }
  }

  /** The first seal, as the run sees it. */
  lemma FirstOutcome(g: Config, st: State, artifacts: seq<Path>)
    requires Sound(g) && AllArtifacts(artifacts) && AllSizable(g, st.files, artifacts) && artifacts != []
    ensures var (next, result) := SealStep(g, st, artifacts[0], ReceiptOf(artifacts[0]));
      && OutcomeHolds(g, st.files, next.files, artifacts[0], result)
      && (forall p | p != artifacts[0] && p != ReceiptOf(artifacts[0]) :: SameAt(st.files, next.files, p))
      && (!g.o.embed ==> SameAt(st.files, next.files, artifacts[0]))
      && (result.Ok? ==> g.canWrite(ReceiptOf(artifacts[0])) && artifacts[0] in st.files)
  {
    hide SealStep, Sound, Receipted, ReceiptOf, SameAt, Sizable;
    StepIs(g, st, artifacts[0]);
    var (next, result) := SealStep(g, st, artifacts[0], ReceiptOf(artifacts[0]));
    if result.Ok? {
      assert Receipted(g, next.files, artifacts[0], result.value);
    }
  }

  /** The receipts of later artifacts are not touched by the first seal. */
  lemma LaterReceipt(g: Config, st: State, artifacts: seq<Path>, i: nat)
    requires Sound(g) && AllArtifacts(artifacts) && AllSizable(g, st.files, artifacts) && 0 < i < |artifacts|
    ensures SameAt(st.files, SealStep(g, st, artifacts[0], ReceiptOf(artifacts[0])).0.files, ReceiptOf(artifacts[i]))
  {
    hide SealStep, Sound, ReceiptOf, SameAt, AllSizable, OutcomeHolds, IsReceipt;
    FirstOutcome(g, st, artifacts);
    ReceiptIsReceipt(artifacts[i]);
    if ReceiptOf(artifacts[i]) == ReceiptOf(artifacts[0]) {
      ReceiptsDiffer(artifacts[i], artifacts[0]);
    }
  }

  /** A whole run reports the missing inputs as failures, then what happened to
      the artifacts; under `failFast` it reports the inputs up to the first
      failure and seals nothing after it. Nothing is touched but the artifacts it
      reports and their receipts. */
  lemma RunEnds(g: Config, st: State, artifacts: seq<Path>, missing: seq<Path>, failFast: bool)
    requires Sound(g) && AllArtifacts(artifacts) && AllSizable(g, st.files, artifacts)
    ensures var (end, outcomes) := RunAll(g, st, artifacts, missing, None, failFast);
      && Aligned(missing + artifacts, outcomes, failFast)
      && (forall i | 0 <= i < |outcomes| && i < |missing| :: outcomes[i].result == Err(Schema))
      && (forall i | |missing| <= i < |outcomes| ::
            OutcomeHolds(g, st.files, end.files, outcomes[i].artifact, outcomes[i].result))
      && (failFast && missing != [] ==> end == st)
      && (forall p | Untouched(artifacts[..if |outcomes| > |missing| then |outcomes| - |missing| else 0], p) ::
            SameAt(st.files, end.files, p))
  {
    hide SealAll, Sound, OutcomeHolds, AllSizable, AllArtifacts, Untouched, SameAt;
    forall p ensures SameAt(st.files, st.files, p) { SameThrough(st.files, st.files, st.files, p); }
    var (end, outcomes) := RunAll(g, st, artifacts, missing, None, failFast);
    var all := missing + artifacts;
    if failFast && missing != [] {
      assert outcomes == [Outcome(missing[0], Err(Schema))] && all[0] == missing[0];
    } else {
      SealAllEnds(g, st, artifacts, failFast);
      var sealed := SealAll(g, st, artifacts, None, failFast).1;
      var n := |missing|;
      assert forall i | 0 <= i < n :: outcomes[i] == Outcome(missing[i], Err(Schema)) && all[i] == missing[i];
      assert forall i | n <= i < |outcomes| :: outcomes[i] == sealed[i - n];
      assert forall i | n <= i < |all| :: all[i] == artifacts[i - n];
    }
  }

  // ---------- The tree after the run ----------

  /** Directories are never written as files. */
  ghost predicate WritesFiles(g: Config, t: Expand.Tree) {
    forall p | p in t.dirs :: !g.canWrite(p)
  }

  lemma ReceiptIsThere(g: Config, files: map<Path, Bytes>, a: Path, layers: seq<string>)
    requires Receipted(g, files, a, layers)
    ensures ReceiptOf(a) in files
  {
  }

  lemma OneReceiptWritten(t: Expand.Tree, files: map<Path, Bytes>, out: Path)
    requires Expand.WellFormed(t) && IsReceipt(out)
    requires forall p | p in t.files :: p in files
    requires forall p | p in files :: p in t.files || p == out
    requires out in files ==> out !in t.dirs && out != [] && (|out| > 1 ==> out[..|out| - 1] in t.dirs)
    ensures Expand.WellFormed(t.(files := files)) && Expand.OnlyReceiptsWritten(t, t.(files := files))
  {
    hide IsReceipt;
  }

  lemma StepWritesReceipts(g: Config, t: Expand.Tree, st: State, a: Path)
    requires Sound(g) && Sizable(g, st.files, a) && IsArtifact(a) && !g.o.embed
    requires WritesFiles(g, t) && Expand.WellFormed(TreeOf(t, st))
    ensures var st' := SealStep(g, st, a, ReceiptOf(a)).0;
      Expand.WellFormed(TreeOf(t, st')) && Expand.OnlyReceiptsWritten(TreeOf(t, st), TreeOf(t, st')) &&
      forall p | !IsReceipt(p) :: SameAt(st.files, st'.files, p)
  {
    hide SealStep, Sound, Receipted, Sizable, IsReceipt, ReceiptOf, Expand.OnlyReceiptsWritten;
    StepIs(g, st, a);
    ReceiptIsReceipt(a);
    var (st', result) := SealStep(g, st, a, ReceiptOf(a));
    var (f, f', out) := (st.files, st'.files, ReceiptOf(a));
    forall p | p != out ensures SameAt(f, f', p) {
    }
    if result.Ok? {
      ReceiptIsThere(g, f', a, result.value);
      ReceiptShape(a);
    } else {
      assert SameAt(f, f', out);
    }
    forall p ensures p in f ==> p in f'
             ensures p in f' ==> p in f || p == out
    {
      assert p == out || SameAt(f, f', p);
    }
    OneReceiptWritten(TreeOf(t, st), f', out);
  }

  lemma ReceiptShape(a: Path)
    requires a != []
    ensures |ReceiptOf(a)| == |a| && ReceiptOf(a)[..|a| - 1] == a[..|a| - 1]
  {
  }

  /** Without `embed` a run only adds or rewrites receipts. */
  lemma {:induction false} SealAllWritesReceipts(g: Config, t: Expand.Tree, st: State, artifacts: seq<Path>, failFast: bool)
    requires Sound(g) && AllArtifacts(artifacts) && AllSizable(g, st.files, artifacts) && !g.o.embed
    requires WritesFiles(g, t) && Expand.WellFormed(TreeOf(t, st))
    ensures var end := SealAll(g, st, artifacts, None, failFast).0;
      Expand.WellFormed(TreeOf(t, end)) && Expand.OnlyReceiptsWritten(TreeOf(t, st), TreeOf(t, end)) &&
      forall p | !IsReceipt(p) :: SameAt(st.files, end.files, p)
    decreases |artifacts|
  {
    hide SealStep, Sound, Sizable, IsReceipt, Expand.WellFormed, SameAt, WritesFiles, ReceiptOf;
    if artifacts != [] {
      var (next, result) := SealStep(g, st, artifacts[0], ReceiptOf(artifacts[0]));
      StepWritesReceipts(g, t, st, artifacts[0]);
      var end := SealAll(g, st, artifacts, None, failFast).0;
      if !(result.Err? && failFast) {
        TailIsApart(artifacts);
        SizableLater(g, st, artifacts);
        SealAllWritesReceipts(g, t, next, artifacts[1..], failFast);
      }
      forall p | !IsReceipt(p) ensures SameAt(st.files, end.files, p) {
        SameThrough(st.files, next.files, end.files, p);
      }
    } else {
      forall p ensures SameAt(st.files, st.files, p) { SameThrough(st.files, st.files, st.files, p); }
    }
  }

  /** Expanding the same inputs again after the run gives the same artifacts. */
  lemma ReexpansionIsStable(g: Config, t: Expand.Tree, st: State, l: Expand.Listing, gl: Expand.Globs, recursive: bool,
                            inputs: seq<Path>, failFast: bool, l': Expand.Listing, gl': Expand.Globs)
    requires Sound(g) && !g.o.embed && WritesFiles(g, t)
    requires Expand.WellFormed(TreeOf(t, st)) && Expand.Lists(TreeOf(t, st), l) && Expand.FindsAll(TreeOf(t, st), gl)
    requires Expand.SuffixIsLiteral(gl) && gl'.valid == gl.valid && gl'.matches == gl.matches
    requires Expand.Expansion(TreeOf(t, st), l, gl, recursive, inputs).Ok?
    requires AllSizable(g, st.files, Expand.Expansion(TreeOf(t, st), l, gl, recursive, inputs).value.0)
    requires var artifacts := Expand.Expansion(TreeOf(t, st), l, gl, recursive, inputs).value.0;
             var t' := TreeOf(t, SealAll(g, st, artifacts, None, failFast).0);
             Expand.Lists(t', l') && Expand.FindsAll(t', gl')
    ensures var artifacts := Expand.Expansion(TreeOf(t, st), l, gl, recursive, inputs).value.0;
            var again := Expand.Expansion(TreeOf(t, SealAll(g, st, artifacts, None, failFast).0), l', gl', recursive, inputs);
            again.Ok? && again.value.0 == artifacts
  {
    hide Expand.Expansion, SealAll, Sound, AllSizable, Expand.WellFormed, Expand.Lists, Expand.FindsAll, IsReceipt, PathLess;
    hide Expand.OnlyReceiptsWritten, Expand.SuffixIsLiteral;
    var artifacts := Expand.Expansion(TreeOf(t, st), l, gl, recursive, inputs).value.0;
    var t' := TreeOf(t, SealAll(g, st, artifacts, None, failFast).0);
    ExpandedAreArtifacts(TreeOf(t, st), l, gl, recursive, inputs);
    SealAllWritesReceipts(g, t, st, artifacts, failFast);
    Expand.ExpansionIsStable(TreeOf(t, st), l, gl, t', l', gl', recursive, inputs);
  }

  /** What an expansion gives is what a run needs. */
  lemma ExpandedAreArtifacts(t: Expand.Tree, l: Expand.Listing, gl: Expand.Globs, recursive: bool, inputs: seq<Path>)
    requires Expand.WellFormed(t) && Expand.Lists(t, l) && Expand.FindsAll(t, gl)
    requires Expand.Expansion(t, l, gl, recursive, inputs).Ok?
    ensures AllArtifacts(Expand.Expansion(t, l, gl, recursive, inputs).value.0)
  {
    hide Expand.Expansion, Expand.Lists, Expand.FindsAll, IsReceipt, PathLess, Expand.CanExpand, Expand.HasGlobChar;
    Expand.ExpansionIs(t, l, gl, recursive, inputs);
    PathsAreOrdered();
    var artifacts := Expand.Expansion(t, l, gl, recursive, inputs).value.0;
    forall i | 0 <= i < |artifacts| ensures IsArtifact(artifacts[i]) {
      assert artifacts[i] in artifacts;
    }
  }

  // ---------- The index after the run ----------

  /** Every receipt of the run lies under `dir`, has a plain path and can be indexed. */
  ghost predicate Indexable(g: Config, dir: Path, artifacts: seq<Path>) {
    g.indexing && forall i | 0 <= i < |artifacts| ::
      g.canIndex(ReceiptOf(artifacts[i])) && IndexAgreement.Plain(ReceiptOf(artifacts[i])) &&
      Expand.Under(dir, ReceiptOf(artifacts[i]), true)
  }

  lemma StepKeepsIndex(g: Config, t: Expand.Tree, dir: Path, st: State, a: Path)
    requires Sound(g) && Sizable(g, st.files, a) && IsArtifact(a) && Indexable(g, dir, [a])
    requires IndexAgreement.Derived(TreeOf(t, st), dir, st.table) && IndexAgreement.PlainReceipts(TreeOf(t, st))
    ensures var st' := SealStep(g, st, a, ReceiptOf(a)).0;
      IndexAgreement.Derived(TreeOf(t, st'), dir, st'.table) && IndexAgreement.PlainReceipts(TreeOf(t, st'))
  {
    hide Sound, Sizable, IsReceipt, RecordOf, FinalBytes, ReceiptOf, IndexAgreement.Derived, IndexAgreement.Plain, Expand.Under;
    hide Index.RowOf, Index.ReceiptBytes, Index.Upsert, Writable, Artifact.VerifyBytes, OptionsClash;
    assert [a][0] == a;
    ReceiptIsReceipt(a);
    AttemptIs(g, st.files, a);
    var (files, sealed) := Attempt(g, st.files, a);
    var mid := TreeOf(t, st.(files := files));
    if files != st.files {
      IndexAgreement.OtherFilesKeepDerived(TreeOf(t, st), dir, st.table, a, files[a]);
    }
    assert IndexAgreement.Derived(mid, dir, st.table) && IndexAgreement.PlainReceipts(mid);
    if sealed.Ok? {
      IndexAgreement.SealKeepsDerived(mid, dir, st.table, ReceiptOf(a), sealed.value, g.indexedAt(ReceiptOf(a)));
    }
  }

  /** A run that indexes its receipts keeps the index derived from the receipts on disk. */
  lemma {:induction false} SealAllKeepsIndex(g: Config, t: Expand.Tree, dir: Path, st: State, artifacts: seq<Path>, failFast: bool)
    requires Sound(g) && AllArtifacts(artifacts) && AllSizable(g, st.files, artifacts) && Indexable(g, dir, artifacts)
    requires IndexAgreement.Derived(TreeOf(t, st), dir, st.table) && IndexAgreement.PlainReceipts(TreeOf(t, st))
    ensures var end := SealAll(g, st, artifacts, None, failFast).0;
      IndexAgreement.Derived(TreeOf(t, end), dir, end.table) && IndexAgreement.PlainReceipts(TreeOf(t, end))
    decreases |artifacts|
  {
    hide SealStep, Sound, Sizable, IsReceipt, ReceiptOf, IndexAgreement.Derived, IndexAgreement.PlainReceipts;
    hide IndexAgreement.Plain, Expand.Under;
    if artifacts != [] {
      var (next, result) := SealStep(g, st, artifacts[0], ReceiptOf(artifacts[0]));
      StepKeepsIndex(g, t, dir, st, artifacts[0]);
      if !(result.Err? && failFast) {
        TailIsApart(artifacts);
        SizableLater(g, st, artifacts);
        SealAllKeepsIndex(g, t, dir, next, artifacts[1..], failFast);
      }
    }
  }
}
