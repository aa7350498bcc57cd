/** A batch of seals over the file system: each artifact is sealed in turn and
    its receipt is written and indexed. */
module Batch {
  import opened Prelude
  import opened Crypto
  import opened Record
  import opened Paths
  import opened Sealing
  import Artifact
  import Expand
  import Index
  import Keystore
  import KeystoreSpec

  const EXIT_OK := 0
  const EXIT_FAIL := 1
  const EXIT_KEY := 4

  datatype FailureKind = Usage | Network | Schema

  /** The layers of the receipt written, or why there is none. */
  type SealResult = Result<seq<string>, FailureKind>

  datatype Outcome = Outcome(artifact: Path, result: SealResult)

  /** What one run has to work with: keys, layers, the times at which artifacts
      are sealed and rows indexed, and which files and rows can be written. */
  datatype Config = Config(
    s: Artifact.Services, c: Crypto, keys: KeystoreSpec.Keys, o: Options, sealedAt: Path -> string,
    indexedAt: Path -> string, canWrite: Path -> bool, indexing: bool, canIndex: Path -> bool)

  datatype State = State(files: map<Path, Bytes>, table: Index.Table)

  /** The tree `t` with the files of the state. */
  function TreeOf(t: Expand.Tree, st: State): Expand.Tree {
    t.(files := st.files)
  }

  function Classify(g: Config, e: SealError): FailureKind {
    if g.o.embed && e.C2pa? then Usage else if g.o.tsa.Some? || g.o.rekor.Some? then Network else Schema
  }

  /** Seal one artifact: its receipt, or an error, and the files after a possible
      rewrite of the artifact. */
  function Attempt(g: Config, files: map<Path, Bytes>, a: Path): (map<Path, Bytes>, Result<SealedRecord, SealError>) {
    if OptionsClash(g.o) then
      (files, Err(C2pa))
    else if a !in files then
      (files, Err(Malformed))
    else
      match FinalBytes(g.s, a, files[a], g.keys.ed25519, g.o)
      case Err(e) => (files, Err(e))
      case Ok(bytes) =>
        if g.o.embed && !g.canWrite(a) then
          (files, Err(Malformed))
        else
          (if g.o.embed then files[a := bytes] else files, RecordOf(g.s, g.c, a, bytes, g.keys, g.sealedAt(a), g.o))
  }

  function SealStep(g: Config, st: State, a: Path, out: Path): (State, SealResult) {
    var (files, sealed) := Attempt(g, st.files, a);
    match sealed
    case Err(e) => (st.(files := files), Err(Classify(g, e)))
    case Ok(r) =>
      if !g.canWrite(out) then
        (st.(files := files), Err(Schema))
      else
        (State(files[out := Index.ReceiptBytes(r)],
               if g.indexing && g.canIndex(out) then Index.Upsert(st.table, Index.RowOf(r, out, g.indexedAt(out))) else st.table),
         Ok(Artifact.PresentLayers(r.seal)))
  }

  function OutFor(out: Option<Path>, a: Path): Path {
    if out.Some? then out.value else ReceiptOf(a)
  }

  /** Seal the artifacts in turn; with `failFast` the first failure is the last outcome. */
  function SealAll(g: Config, st: State, artifacts: seq<Path>, out: Option<Path>, failFast: bool): (State, seq<Outcome>)
    decreases |artifacts|
  {
    if artifacts == [] then
      (st, [])
    else
      var (next, result) := SealStep(g, st, artifacts[0], OutFor(out, artifacts[0]));
      var outcome := Outcome(artifacts[0], result);
      if result.Err? && failFast then
        (next, [outcome])
      else
        var (end, rest) := SealAll(g, next, artifacts[1..], out, failFast);
        (end, [outcome] + rest)
  }

  function Following(before: seq<Outcome>, r: (State, seq<Outcome>)): (State, seq<Outcome>) {
    (r.0, before + r.1)
  }

  lemma NothingBefore(r: (State, seq<Outcome>))
    ensures Following([], r) == r
  {
    assert [] + r.1 == r.1;
  }

  lemma SealAllOfNothing(g: Config, st: State, out: Option<Path>, failFast: bool, before: seq<Outcome>)
    ensures Following(before, SealAll(g, st, [], out, failFast)) == (st, before)
  {
    assert before + [] == before;
  }

  lemma SealAllUnfolds(g: Config, st: State, artifacts: seq<Path>, i: nat, out: Option<Path>, failFast: bool, before: seq<Outcome>)
    requires i < |artifacts|
    ensures
      var (next, result) := SealStep(g, st, artifacts[i], OutFor(out, artifacts[i]));
      var more := before + [Outcome(artifacts[i], result)];
      Following(before, SealAll(g, st, artifacts[i..], out, failFast)) ==
        if result.Err? && failFast then (next, more)
        else Following(more, SealAll(g, next, artifacts[i + 1..], out, failFast))
  {
    hide SealStep;
    assert artifacts[i..][0] == artifacts[i] && artifacts[i..][1..] == artifacts[i + 1..];
    var (next, result) := SealStep(g, st, artifacts[i], OutFor(out, artifacts[i]));
    var (o, rest) := (Outcome(artifacts[i], result), SealAll(g, next, artifacts[i + 1..], out, failFast).1);
    assert before + ([o] + rest) == before + [o] + rest;
  }

  /** Missing inputs are failures reported before any artifact is sealed. */
  function MissingOutcomes(missing: seq<Path>): seq<Outcome> {
    seq(|missing|, i requires 0 <= i < |missing| => Outcome(missing[i], Err(Schema)))
  }

  function RunAll(g: Config, st: State, artifacts: seq<Path>, missing: seq<Path>, out: Option<Path>, failFast: bool):
    (State, seq<Outcome>)
  {
    if failFast && missing != [] then
      (st, MissingOutcomes(missing[..1]))
    else
      var (end, outcomes) := SealAll(g, st, artifacts, out, failFast);
      (end, MissingOutcomes(missing) + outcomes)
  }

  // ---------- Exit codes ----------

  function CodeOf(kind: FailureKind): int {
    match kind
    case Usage => Expand.EXIT_USAGE
    case Network => EXIT_FAIL
    case Schema => Expand.EXIT_SCHEMA
  }

  /** The code of a run is 0 if nothing failed, else the least code of a failure. */
  ghost predicate IsExitCode(outcomes: seq<Outcome>, code: int) {
    && (code == EXIT_OK <==> forall i | 0 <= i < |outcomes| :: outcomes[i].result.Ok?)
    && (forall i | 0 <= i < |outcomes| && outcomes[i].result.Err? ::
          code <= CodeOf(outcomes[i].result.error))
    && (code != EXIT_OK ==>
          exists i | 0 <= i < |outcomes| :: outcomes[i].result.Err? && CodeOf(outcomes[i].result.error) == code)
  }

  method ExitCodeFor(outcomes: seq<Outcome>) returns (code: int)
    ensures IsExitCode(outcomes, code)
  {
    code := EXIT_OK;
    for i := 0 to |outcomes|
      invariant IsExitCode(outcomes[..i], code)
      invariant code in {EXIT_OK, EXIT_FAIL, Expand.EXIT_USAGE, Expand.EXIT_SCHEMA}
    {
      ghost var before := code;
      if outcomes[i].result.Err? {
        var k := CodeOf(outcomes[i].result.error);
        if code == EXIT_OK || k < code {
          code := k;
        }
      }
      assert outcomes[..i + 1] == outcomes[..i] + [outcomes[i]];
      ExitCodeStep(outcomes[..i], before, outcomes[i], code);
    }
    assert outcomes[..|outcomes|] == outcomes;
  }

  lemma ExitCodeStep(outcomes: seq<Outcome>, code: int, o: Outcome, next: int)
    requires IsExitCode(outcomes, code) && code in {EXIT_OK, EXIT_FAIL, Expand.EXIT_USAGE, Expand.EXIT_SCHEMA}
    requires next == if o.result.Err? && (code == EXIT_OK || CodeOf(o.result.error) < code) then CodeOf(o.result.error) else code
    ensures IsExitCode(outcomes + [o], next)
  {
    var all := outcomes + [o];
    assert forall i | 0 <= i < |outcomes| :: all[i] == outcomes[i];
    assert all[|outcomes|] == o;
  }

  /** The code does not depend on the order of the outcomes. */
  lemma ExitCodeIgnoresOrder(a: seq<Outcome>, b: seq<Outcome>, x: int, y: int)
    requires multiset(a) == multiset(b) && IsExitCode(a, x) && IsExitCode(b, y)
    ensures x == y
  {
    SameElements(a, b);
    SameElements(b, a);
    if x != EXIT_OK {
      var i :| 0 <= i < |a| && a[i].result.Err? && CodeOf(a[i].result.error) == x;
      var k :| 0 <= k < |b| && b[k] == a[i];
      assert y <= x;
    }
    if y != EXIT_OK {
      var j :| 0 <= j < |b| && b[j].result.Err? && CodeOf(b[j].result.error) == y;
      var k :| 0 <= k < |a| && a[k] == b[j];
      assert x <= y;
    }
  }

  lemma SameElements<T>(a: seq<T>, b: seq<T>)
    requires multiset(a) == multiset(b)
    ensures forall i | 0 <= i < |a| :: a[i] in b
  {
    forall i | 0 <= i < |a| ensures a[i] in b {
      assert a[i] in multiset(a);
    }
  }

  // ---------- A run from its inputs ----------

  /** Keys given on the command line, already read or refused with an exit code,
      or those of the keystore. */
  datatype KeySource =
    | Given(keys: Result<KeystoreSpec.Keys, int>)
    | Stored(pass: Option<string>, draws: KeystoreSpec.Draws)

  function KeyExit(e: SealError): int {
    if e.KeyError? || e.Decrypt? then EXIT_KEY else Expand.EXIT_SCHEMA
  }

  function KeysFrom(c: Crypto, source: KeySource, d: KeystoreSpec.Dir, budget: nat): Result<KeystoreSpec.Keys, int> {
    match source
    case Given(keys) => keys
    case Stored(pass, r) =>
      match KeystoreSpec.PlanLoad(c, d, pass, r)
      case Err(e) => Err(KeyExit(e))
      case Ok(plan) => if |plan.ops| <= budget then Ok(plan.keys) else Err(EXIT_KEY)
  }

  /** What a run was asked to do. */
  datatype Command = Command(inputs: seq<Path>, recursive: bool, out: Option<Path>, failFast: bool)

  /** The artifacts and the missing inputs of a command, or the code with which it
      stops before any key is read. */
  function Prepared(g: Config, t: Expand.Tree, l: Expand.Listing, gl: Expand.Globs, q: Command):
    Result<(seq<Path>, seq<Path>), int>
  {
    if g.o.embed && !g.o.c2pa then
      Err(Expand.EXIT_USAGE)
    else
      match Expand.Expansion(t, l, gl, q.recursive, q.inputs)
      case Err(code) => Err(code)
      case Ok((artifacts, missing)) =>
        if artifacts == [] && missing == [] then Err(Expand.EXIT_USAGE)
        else if q.out.Some? && (|artifacts| > 1 || missing != []) then Err(Expand.EXIT_USAGE)
        else Ok((artifacts, missing))
  }

  class Workspace {
    const dirs: set<Path>
    const unreadable: set<Path>
    var files: map<Path, Bytes>
    var table: Index.Table

    constructor (files: map<Path, Bytes>, dirs: set<Path>, unreadable: set<Path>, table: Index.Table)
      ensures Now() == State(files, table) && Tree() == Expand.Tree(files, dirs, unreadable)
    {
      this.files, this.dirs, this.unreadable, this.table := files, dirs, unreadable, table;
    }

    function Now(): State
      reads this
    {
      State(files, table)
    }

    function Tree(): Expand.Tree
      reads this
    {
      Expand.Tree(files, dirs, unreadable)
    }

    /** Seal the file at `a`; with `embed` the file is rewritten first. */
    method SealArtifact(g: Config, a: Path) returns (r: Result<SealedRecord, SealError>)
      modifies this`files
      ensures (files, r) == Attempt(g, old(files), a)
    {
      if OptionsClash(g.o) {
        return Err(C2pa);
      }
      if a !in files {
        return Err(Malformed);
      }
      var bytes := FinalBytes(g.s, a, files[a], g.keys.ed25519, g.o);
      if bytes.Err? {
        return Err(bytes.error);
      }
      if g.o.embed {
        if !g.canWrite(a) {
          return Err(Malformed);
        }
        files := files[a := bytes.value];
      }
      r := RecordOf(g.s, g.c, a, bytes.value, g.keys, g.sealedAt(a), g.o);
    }

    /** Seal an artifact, write its receipt to `out` and index it. */
    method SealOne(g: Config, a: Path, out: Path) returns (result: SealResult)
      modifies this
      ensures (Now(), result) == SealStep(g, old(Now()), a, out)
    {
      hide Attempt;
      var sealed := SealArtifact(g, a);
      if sealed.Err? {
        return Err(Classify(g, sealed.error));
      }
      if !g.canWrite(out) {
        return Err(Schema);
      }
      files := files[out := Index.ReceiptBytes(sealed.value)];
      if g.indexing && g.canIndex(out) {
        table := table[Join(out) := Index.RowOf(sealed.value, out, g.indexedAt(out))];
      }
      var layers := Artifact.ListPresentLayers(sealed.value.seal);
      return Ok(layers);
    }

    /** The loop over the artifacts. */
    method SealEach(g: Config, artifacts: seq<Path>, out: Option<Path>, failFast: bool) returns (outcomes: seq<Outcome>)
      modifies this
      ensures (Now(), outcomes) == SealAll(g, old(Now()), artifacts, out, failFast)
    {
      hide SealStep, SealAll;
      outcomes := [];
      assert artifacts[0..] == artifacts;
      NothingBefore(SealAll(g, Now(), artifacts, out, failFast));
      for i := 0 to |artifacts|
        invariant Following(outcomes, SealAll(g, Now(), artifacts[i..], out, failFast)) ==
                  SealAll(g, old(Now()), artifacts, out, failFast)
      {
        SealAllUnfolds(g, Now(), artifacts, i, out, failFast, outcomes);
        var result := SealOne(g, artifacts[i], OutFor(out, artifacts[i]));
        outcomes := outcomes + [Outcome(artifacts[i], result)];
        if result.Err? && failFast {
          return;
        }
      }
      assert artifacts[|artifacts|..] == [];
      SealAllOfNothing(g, Now(), out, failFast, outcomes);
    }

    /** A whole run over the expanded inputs: first the missing ones, then the artifacts. */
    method SealInputs(g: Config, artifacts: seq<Path>, missing: seq<Path>, out: Option<Path>, failFast: bool)
      returns (code: int, outcomes: seq<Outcome>)
      modifies this
      ensures (Now(), outcomes) == RunAll(g, old(Now()), artifacts, missing, out, failFast) && IsExitCode(outcomes, code)
    {
      hide SealAll, IsExitCode;
      outcomes := [];
      for i := 0 to |missing|
        invariant outcomes == MissingOutcomes(missing[..i]) && Now() == old(Now())
        invariant failFast ==> i == 0
      {
        outcomes := outcomes + [Outcome(missing[i], Err(Schema))];
        if failFast {
          assert outcomes == MissingOutcomes(missing[..1]);
          code := ExitCodeFor(outcomes);
          return;
        }
      }
      assert missing[..|missing|] == missing;
      var sealed := SealEach(g, artifacts, out, failFast);
      outcomes := outcomes + sealed;
      code := ExitCodeFor(outcomes);
    }

    /** Check the command, expand its inputs, get the keys, then seal. A run that
        stops before sealing changes no file but those of the keystore, and those
        only to store keys it generates. */
    method RunSeal(base: Config, ks: Keystore.Keystore, source: KeySource, l: Expand.Listing, gl: Expand.Globs, q: Command)
      returns (code: int, outcomes: seq<Outcome>)
      requires ks.c == base.c
      modifies this, ks
      ensures
        match Prepared(base, old(Tree()), l, gl, q)
        case Err(e) => code == e && outcomes == [] && Now() == old(Now()) && ks.Now() == old(ks.Now())
        case Ok((artifacts, missing)) =>
          match KeysFrom(base.c, source, old(ks.Now()), old(ks.budget))
          case Err(e) => code == e && outcomes == [] && Now() == old(Now())
          case Ok(keys) =>
            (Now(), outcomes) == RunAll(base.(keys := keys), old(Now()), artifacts, missing, q.out, q.failFast) &&
            IsExitCode(outcomes, code)
      ensures source.Given? ==> ks.Now() == old(ks.Now())
    {
      hide RunAll, IsExitCode, Expand.Expansion;
      outcomes := [];
      if base.o.embed && !base.o.c2pa {
        return Expand.EXIT_USAGE, [];
      }
      var expanded := Expand.ExpandInputs(Tree(), l, gl, q.recursive, q.inputs);
      if expanded.Err? {
        return expanded.error, [];
      }
      var (artifacts, missing) := expanded.value;
      if artifacts == [] && missing == [] {
        return Expand.EXIT_USAGE, [];
      }
      if q.out.Some? && (|artifacts| > 1 || missing != []) {
        return Expand.EXIT_USAGE, [];
      }
      var keys := ResolveKeys(ks, source);
      if keys.Err? {
        return keys.error, [];
      }
      code, outcomes := SealInputs(base.(keys := keys.value), artifacts, missing, q.out, q.failFast);
    }

    /** The keys for sealing, loaded or generated if none are given. */
    method ResolveKeys(ks: Keystore.Keystore, source: KeySource) returns (r: Result<KeystoreSpec.Keys, int>)
      modifies ks
      ensures r == KeysFrom(ks.c, source, old(ks.Now()), old(ks.budget))
      ensures source.Given? ==> ks.Now() == old(ks.Now())
    {
      hide KeystoreSpec.PlanLoad;
      match source
      case Given(keys) => r := keys;
      case Stored(pass, draws) =>
        var answer := ks.LoadOrGenerate(pass, draws);
        match answer
        case Ok(keys) => r := Ok(keys);
        case Err(Refused(e)) => r := Err(KeyExit(e));
        case Err(Io) => r := Err(EXIT_KEY);
    }
  }
}
