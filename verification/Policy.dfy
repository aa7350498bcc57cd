/** Attestation policies, evaluated on a receipt and on the results of its
    verification. */
module Policy {
  import opened Prelude
  import opened JsonAccess
  import opened Record
  import opened Seal
  import opened Artifact
  import Crypto
  import Hex
  import Sorting

  datatype Policy = Policy(
    requireLayers: seq<string>, forbidLayers: seq<string>, minLayers: Option<nat>, requireQualifiedTsa: bool,
    maxAgeDays: Option<int>, tsaAuthorities: Option<seq<string>>)

  datatype Violation =
    | MissingLayer(layer: string)
    | UnverifiedLayer(layer: string)
    | ForbiddenLayer(layer: string)
    | TooFewLayers(count: nat, min: nat)
    | NoTimestamp
    | UnqualifiedTimestamp(authority: string)
    | TooOld(days: int, max: int)
    | InFuture
    | UnreadableTime

  const QUALIFIED_HOSTS: seq<string> := ["timestamp.actalis.it"]

  /** One day in nanoseconds. */
  const DAY: int := 86_400_000_000_000

  // ---------- Evaluation ----------

  function Truncated(n: int, d: int): int
    requires d > 0
  {
    if n >= 0 then n / d else -((-n) / d)
  }

  function AgeDays(now: int, sealedAt: int): int {
    Truncated(now - sealedAt, DAY)
  }

  function VerifiedOk(results: seq<LayerResult>): set<string> {
    set i | 0 <= i < |results| && results[i].ok :: results[i].name
  }

  function RequireViolations(layers: seq<string>, present: seq<string>, verified: set<string>): seq<Violation> {
    if layers == [] then
      []
    else
      var l := layers[|layers| - 1];
      RequireViolations(layers[..|layers| - 1], present, verified) +
      (if l !in present then [MissingLayer(l)] else if l !in verified then [UnverifiedLayer(l)] else [])
  }

  function ForbidViolations(layers: seq<string>, present: seq<string>): seq<Violation> {
    if layers == [] then
      []
    else
      var l := layers[|layers| - 1];
      ForbidViolations(layers[..|layers| - 1], present) + (if l in present then [ForbiddenLayer(l)] else [])
  }

  function CountIn(layers: seq<string>, verified: set<string>): (n: nat)
    ensures n <= |layers|
  {
    if layers == [] then 0 else (if layers[0] in verified then 1 else 0) + CountIn(layers[1..], verified)
  }

  /** Equal but for the case of ASCII letters. */
  predicate SameHost(a: string, b: string) {
    Hex.LowerAll(a) == Hex.LowerAll(b)
  }

  predicate HostListed(authority: string, hosts: seq<string>) {
    exists i | 0 <= i < |hosts| :: SameHost(hosts[i], authority)
  }

  function Authority(seal: SealBlock): string
    requires seal.tsa.Some?
  {
    var a := AsString(Field(seal.tsa.value, "authority"));
    if a.Some? then a.value else ""
  }

  function AllowedHosts(p: Policy): seq<string> {
    if p.tsaAuthorities.Some? then p.tsaAuthorities.value else QUALIFIED_HOSTS
  }

  function TsaViolations(p: Policy, seal: SealBlock): seq<Violation> {
    if !p.requireQualifiedTsa then []
    else if seal.tsa.None? then [NoTimestamp]
    else if HostListed(Authority(seal), AllowedHosts(p)) then []
    else [UnqualifiedTimestamp(Authority(seal))]
  }

  function AgeViolations(p: Policy, sealedAt: Option<int>, now: int): seq<Violation> {
    if p.maxAgeDays.None? then []
    else if sealedAt.None? then [UnreadableTime]
    else
      var days := AgeDays(now, sealedAt.value);
      if days > p.maxAgeDays.value then [TooOld(days, p.maxAgeDays.value)] else if days < 0 then [InFuture] else []
  }

  function CountViolations(p: Policy, present: seq<string>, verified: set<string>): seq<Violation> {
    var count := CountIn(present, verified);
    if p.minLayers.Some? && count < p.minLayers.value then [TooFewLayers(count, p.minLayers.value)] else []
  }

  /** Every failed requirement. `parse` reads a time; `now` is the reference time. */
  function Violations(p: Policy, seal: SealBlock, results: seq<LayerResult>, parse: string -> Option<int>, now: int): seq<Violation> {
    var (present, verified) := (PresentLayers(seal), VerifiedOk(results));
    RequireViolations(p.requireLayers, present, verified) + ForbidViolations(p.forbidLayers, present) +
    CountViolations(p, present, verified) + TsaViolations(p, seal) + AgeViolations(p, parse(seal.sealedAt), now)
  }

  /** Evaluate by pushing onto the list of violations. */
  method Evaluate(p: Policy, seal: SealBlock, results: seq<LayerResult>, parse: string -> Option<int>, now: int)
    returns (passed: bool, violations: seq<Violation>)
    ensures violations == Violations(p, seal, results, parse, now)
    ensures passed <==> Passes(p, seal, results, parse(seal.sealedAt), now)
  {
    hide PresentLayers, AgeViolations, TsaViolations, CountViolations, Passes, Carries, Sorting.IsSubsequence, Sorting.Distinct, CHAIN,
      VerifiedOk;
    var present := ListPresentLayers(seal);
    var verified := VerifiedOk(results);
    violations := [];
    for i := 0 to |p.requireLayers|
      invariant violations == RequireViolations(p.requireLayers[..i], present, verified)
    {
      var layer := p.requireLayers[i];
      assert p.requireLayers[..i + 1][..i] == p.requireLayers[..i];
      if layer !in present {
        violations := violations + [MissingLayer(layer)];
      } else if layer !in verified {
        violations := violations + [UnverifiedLayer(layer)];
      }
    }
    assert p.requireLayers[..|p.requireLayers|] == p.requireLayers;
    ghost var required := violations;
    assert required == required + ForbidViolations(p.forbidLayers[..0], present);
    for i := 0 to |p.forbidLayers|
      invariant violations == required + ForbidViolations(p.forbidLayers[..i], present)
    {
      assert p.forbidLayers[..i + 1][..i] == p.forbidLayers[..i];
      if p.forbidLayers[i] in present {
        violations := violations + [ForbiddenLayer(p.forbidLayers[i])];
      }
    }
    assert p.forbidLayers[..|p.forbidLayers|] == p.forbidLayers;
    violations := violations + CountViolations(p, present, verified);
    violations := violations + TsaViolations(p, seal);
    violations := violations + AgeViolations(p, parse(seal.sealedAt), now);
    passed := violations == [];
    NoViolations(p, seal, results, parse, now);
  }

  // ---------- What passing means ----------

  predicate AgePasses(p: Policy, sealedAt: Option<int>, now: int) {
    p.maxAgeDays.Some? ==> sealedAt.Some? && 0 <= AgeDays(now, sealedAt.value) <= p.maxAgeDays.value
  }

  predicate TsaPasses(p: Policy, seal: SealBlock) {
    p.requireQualifiedTsa ==> seal.tsa.Some? && HostListed(Authority(seal), AllowedHosts(p))
  }

  /** The closed form: each requirement on its own. */
  predicate Passes(p: Policy, seal: SealBlock, results: seq<LayerResult>, sealedAt: Option<int>, now: int) {
    var (present, verified) := (PresentLayers(seal), VerifiedOk(results));
    && (forall i | 0 <= i < |p.requireLayers| :: p.requireLayers[i] in present && p.requireLayers[i] in verified)
    && (forall i | 0 <= i < |p.forbidLayers| :: p.forbidLayers[i] !in present)
    && (p.minLayers.Some? ==> p.minLayers.value <= CountIn(present, verified))
    && TsaPasses(p, seal)
    && AgePasses(p, sealedAt, now)
  }

  lemma {:induction false} RequireEmpty(layers: seq<string>, present: seq<string>, verified: set<string>)
    ensures RequireViolations(layers, present, verified) == [] <==>
      forall i | 0 <= i < |layers| :: layers[i] in present && layers[i] in verified
  {
    if layers != [] {
      RequireEmpty(layers[..|layers| - 1], present, verified);
    }
  }

  lemma {:induction false} ForbidEmpty(layers: seq<string>, present: seq<string>)
    ensures ForbidViolations(layers, present) == [] <==> forall i | 0 <= i < |layers| :: layers[i] !in present
  {
    if layers != [] {
      ForbidEmpty(layers[..|layers| - 1], present);
    }
  }

  lemma NoViolations(p: Policy, seal: SealBlock, results: seq<LayerResult>, parse: string -> Option<int>, now: int)
    ensures Violations(p, seal, results, parse, now) == [] <==> Passes(p, seal, results, parse(seal.sealedAt), now)
  {
    hide PresentLayers, HostListed, AgeDays;
    RequireEmpty(p.requireLayers, PresentLayers(seal), VerifiedOk(results));
    ForbidEmpty(p.forbidLayers, PresentLayers(seal));
  }

  // ---------- Which violations are listed ----------

  /** What each violation says about receipt and results. */
  predicate Holds(v: Violation, p: Policy, seal: SealBlock, results: seq<LayerResult>, sealedAt: Option<int>, now: int) {
    match v
    case MissingLayer(l) => l in p.requireLayers && !Carries(seal, l)
    case UnverifiedLayer(l) => l in p.requireLayers && Carries(seal, l) && LayerResult(l, true) !in results
    case ForbiddenLayer(l) => l in p.forbidLayers && Carries(seal, l)
    case TooFewLayers(count, min) =>
      p.minLayers == Some(min) && count == CountIn(PresentLayers(seal), VerifiedOk(results)) && count < min
    case NoTimestamp => p.requireQualifiedTsa && seal.tsa.None?
    case UnqualifiedTimestamp(a) =>
      p.requireQualifiedTsa && seal.tsa.Some? && a == Authority(seal) && !HostListed(a, AllowedHosts(p))
    case TooOld(days, max) =>
      p.maxAgeDays == Some(max) && sealedAt.Some? && days == AgeDays(now, sealedAt.value) && days > max
    case InFuture =>
      p.maxAgeDays.Some? && sealedAt.Some? && AgeDays(now, sealedAt.value) <= p.maxAgeDays.value &&
      AgeDays(now, sealedAt.value) < 0
    case UnreadableTime => p.maxAgeDays.Some? && sealedAt.None?
  }

  lemma {:induction false} RequiredListed(layers: seq<string>, present: seq<string>, verified: set<string>, v: Violation)
    ensures v in RequireViolations(layers, present, verified) <==>
      (v.MissingLayer? && v.layer in layers && v.layer !in present) ||
      (v.UnverifiedLayer? && v.layer in layers && v.layer in present && v.layer !in verified)
  {
    if layers != [] {
      var init := layers[..|layers| - 1];
      assert layers == init + [layers[|layers| - 1]];
      RequiredListed(init, present, verified, v);
    }
  }

  lemma {:induction false} ForbiddenListed(layers: seq<string>, present: seq<string>, v: Violation)
    ensures v in ForbidViolations(layers, present) <==> v.ForbiddenLayer? && v.layer in layers && v.layer in present
  {
    if layers != [] {
      var init := layers[..|layers| - 1];
      assert layers == init + [layers[|layers| - 1]];
      ForbiddenListed(init, present, v);
    }
  }

  lemma OthersListed(p: Policy, seal: SealBlock, results: seq<LayerResult>, sealedAt: Option<int>, now: int, v: Violation)
    requires v.TooFewLayers? || v.NoTimestamp? || v.UnqualifiedTimestamp? || v.TooOld? || v.InFuture? || v.UnreadableTime?
    ensures
      var listed := CountViolations(p, PresentLayers(seal), VerifiedOk(results)) + TsaViolations(p, seal) + AgeViolations(p, sealedAt, now);
      v in listed <==> Holds(v, p, seal, results, sealedAt, now)
  {
    hide PresentLayers, VerifiedOk, HostListed, AgeDays, CountIn, Authority, AllowedHosts;
  }

  lemma VerifiedHas(results: seq<LayerResult>, l: string)
    ensures l in VerifiedOk(results) <==> LayerResult(l, true) in results
  {
    if LayerResult(l, true) in results {
      var i :| 0 <= i < |results| && results[i] == LayerResult(l, true);
    }
  }

  /** A violation is listed exactly when what it says is the case. */
  lemma ViolationsAre(p: Policy, seal: SealBlock, results: seq<LayerResult>, parse: string -> Option<int>, now: int, v: Violation)
    ensures v in Violations(p, seal, results, parse, now) <==> Holds(v, p, seal, results, parse(seal.sealedAt), now)
  {
    hide PresentLayers, VerifiedOk, HostListed, AgeDays, CountIn, Authority, AllowedHosts, Carries, RequireViolations, ForbidViolations;
    PresentLayersAre(seal);
    RequiredListed(p.requireLayers, PresentLayers(seal), VerifiedOk(results), v);
    ForbiddenListed(p.forbidLayers, PresentLayers(seal), v);
    if v.MissingLayer? || v.UnverifiedLayer? || v.ForbiddenLayer? {
      VerifiedHas(results, v.layer);
    } else {
      hide CountViolations, TsaViolations, AgeViolations, Holds;
      OthersListed(p, seal, results, parse(seal.sealedAt), now, v);
    }
  }

  // ---------- Hosts ----------

  predicate IsUpper(c: char) {
    'A' <= c <= 'Z'
  }

  /** Equal, or the two cases of one ASCII letter. */
  predicate SameLetter(a: char, b: char) {
    a == b || (IsUpper(a) && b as int == a as int + 32) || (IsUpper(b) && a as int == b as int + 32)
  }

  predicate SameButCase(a: string, b: string) {
    |a| == |b| && forall i | 0 <= i < |a| :: SameLetter(a[i], b[i])
  }

  lemma SameHostIs(a: string, b: string)
    ensures SameHost(a, b) <==> SameButCase(a, b)
  {
    if SameHost(a, b) {
      forall i | 0 <= i < |a| ensures SameLetter(a[i], b[i]) {
        assert Hex.LowerAll(a)[i] == Hex.LowerAll(b)[i];
      }
    }
    if SameButCase(a, b) {
      forall i | 0 <= i < |a| ensures Hex.LowerAll(a)[i] == Hex.LowerAll(b)[i] {
      }
    }
  }

  /** The timestamp requirement is met exactly when there is a timestamp whose
      authority is, up to the case of ASCII letters, one of the policy's own hosts
      if it names any list, else one of the known ones. */
  lemma QualifiedMeans(p: Policy, seal: SealBlock)
    requires p.requireQualifiedTsa
    ensures
      var hosts := match p.tsaAuthorities case Some(list) => list case None => ["timestamp.actalis.it"];
      TsaPasses(p, seal) <==>
        seal.tsa.Some? &&
        var a := AsString(Field(seal.tsa.value, "authority"));
        exists i | 0 <= i < |hosts| :: SameButCase(hosts[i], if a.Some? then a.value else "")
  {
    hide SameHost, SameButCase;
    if seal.tsa.Some? {
      forall i | 0 <= i < |AllowedHosts(p)|
        ensures SameHost(AllowedHosts(p)[i], Authority(seal)) <==> SameButCase(AllowedHosts(p)[i], Authority(seal))
      {
        SameHostIs(AllowedHosts(p)[i], Authority(seal));
      }
    }
  }

  /** An empty list of hosts refuses every receipt, and a longer list refuses no more. */
  lemma LongerListsPass(p: Policy, hosts: seq<string>, more: seq<string>, seal: SealBlock)
    requires p.requireQualifiedTsa
    ensures !TsaPasses(p.(tsaAuthorities := Some([])), seal)
    ensures TsaPasses(p.(tsaAuthorities := Some(hosts)), seal) ==> TsaPasses(p.(tsaAuthorities := Some(hosts + more)), seal)
  {
    hide SameHost;
    if TsaPasses(p.(tsaAuthorities := Some(hosts)), seal) {
      var i :| 0 <= i < |hosts| && SameHost(hosts[i], Authority(seal));
      assert (hosts + more)[i] == hosts[i];
    }
  }

  // ---------- On the results of a verification ----------

  function CountOk(results: seq<LayerResult>): nat {
    if results == [] then 0 else (if results[0].ok then 1 else 0) + CountOk(results[1..])
  }

  /** The content layer and the present layers have different names. */
  lemma PresentDiffer(seal: SealBlock)
    ensures Sorting.Distinct(["content"] + PresentLayers(seal))
  {
    hide PresentLayers;
    PresentLayersAre(seal);
    Sorting.SubsequenceDistinct(PresentLayers(seal), CHAIN);
    assert |"content"| == 7 && |"hmac"| == 4 && |"c2pa"| == 4 && |"tsa"| == 3 && |"rekor"| == 5;
    assert "content"[0] != "ed25519"[0];
    assert !Carries(seal, "content");
  }

  lemma {:induction false} CountMatches(names: seq<string>, results: seq<LayerResult>, verified: set<string>)
    requires |names| == |results|
    requires forall i | 0 <= i < |names| :: results[i].name == names[i] && (results[i].ok <==> names[i] in verified)
    ensures CountIn(names, verified) == CountOk(results)
  {
    if names != [] {
      CountMatches(names[1..], results[1..], verified);
    }
  }

  lemma VerifiedAre(results: seq<LayerResult>, i: nat)
    requires i < |results|
    requires forall j | 0 <= j < |results| && j != i :: results[j].name != results[i].name
    ensures results[i].ok <==> results[i].name in VerifiedOk(results)
  {
  }

  /** On the results of verifying the receipt itself, a policy reads the results
      after the content layer: a required layer is one with a good result, a
      forbidden one has none, and the count is the count of good results. */
  lemma PassesOnItsResults(p: Policy, s: Services, c: Crypto.Crypto, bytes: Bytes, r: SealedRecord, key: Option<Bytes>,
                           sealedAt: Option<int>, now: int)
    requires VerifyBytes(s, c, bytes, r, key).Ok?
    ensures
      var results := VerifyBytes(s, c, bytes, r, key).value;
      |results| > 0 &&
      (Passes(p, r.seal, results, sealedAt, now) <==>
        (forall i | 0 <= i < |p.requireLayers| :: LayerResult(p.requireLayers[i], true) in results[1..]) &&
        (forall i, j | 0 <= i < |p.forbidLayers| && 0 < j < |results| :: results[j].name != p.forbidLayers[i]) &&
        (p.minLayers.Some? ==> p.minLayers.value <= CountOk(results[1..])) &&
        TsaPasses(p, r.seal) && AgePasses(p, sealedAt, now))
  {
    hide VerifyBytes, PresentLayers, TsaPasses, AgePasses, VerifiedOk;
    var results := VerifyBytes(s, c, bytes, r, key).value;
    ResultsNamePresentLayers(s, c, bytes, r, key);
    var (present, rest) := (PresentLayers(r.seal), results[1..]);
    assert Names(results)[0] == "content" && Names(results)[1..] == present;
    PresentDiffer(r.seal);
    forall i | 0 <= i < |rest|
      ensures rest[i] == results[i + 1] && rest[i].name == present[i]
      ensures rest[i].ok <==> present[i] in VerifiedOk(results)
    {
      assert Names(results)[i + 1] == present[i];
      assert forall j | 0 <= j < |results| :: results[j].name == Names(results)[j];
      VerifiedAre(results, i + 1);
    }
    CountMatches(present, rest, VerifiedOk(results));
    RequiredAre(p.requireLayers, present, rest, VerifiedOk(results));
    ForbiddenAre(p.forbidLayers, present, results);
  }

  lemma RequiredAre(layers: seq<string>, present: seq<string>, rest: seq<LayerResult>, verified: set<string>)
    requires |rest| == |present|
    requires forall i | 0 <= i < |rest| :: rest[i].name == present[i] && (rest[i].ok <==> present[i] in verified)
    ensures (forall i | 0 <= i < |layers| :: layers[i] in present && layers[i] in verified) <==>
            (forall i | 0 <= i < |layers| :: LayerResult(layers[i], true) in rest)
  {
    forall l: string ensures l in present && l in verified <==> LayerResult(l, true) in rest {
      if l in present {
        var k :| 0 <= k < |present| && present[k] == l;
        assert rest[k].name == l;
      }
    }
  }

  lemma ForbiddenAre(layers: seq<string>, present: seq<string>, results: seq<LayerResult>)
    requires |results| == |present| + 1
    requires forall j | 0 <= j < |present| :: results[j + 1].name == present[j]
    ensures (forall i | 0 <= i < |layers| :: layers[i] !in present) <==>
            (forall i, j | 0 <= i < |layers| && 0 < j < |results| :: results[j].name != layers[i])
  {
    assert forall j | 0 < j < |results| :: results[j].name == present[j - 1];
    if forall i, j | 0 <= i < |layers| && 0 < j < |results| :: results[j].name != layers[i] {
      forall i | 0 <= i < |layers| ensures layers[i] !in present {
        forall j | 0 <= j < |present| ensures present[j] != layers[i] {
          assert results[j + 1].name != layers[i];
        }
      }
    }
  }

  // ---------- Freshness ----------

  /** A limit of `m` whole days accepts exactly the times strictly between one day
      ahead and `m + 1` days ago; a negative limit accepts none. */
  lemma FreshnessWindow(p: Policy, sealedAt: Option<int>, now: int)
    requires p.maxAgeDays.Some?
    ensures
      var m := p.maxAgeDays.value;
      AgePasses(p, sealedAt, now) <==>
        m >= 0 && sealedAt.Some? && -DAY < now - sealedAt.value < (m + 1) * DAY
  {
  }

  /** Once too old, always too old. */
  lemma TooOldStaysTooOld(p: Policy, sealedAt: int, now: int, later: int)
    requires p.maxAgeDays.Some? && now <= later
    requires AgeDays(now, sealedAt) > p.maxAgeDays.value
    ensures AgeViolations(p, Some(sealedAt), later) == [TooOld(AgeDays(later, sealedAt), p.maxAgeDays.value)]
  {
  }

  // ---------- Merging and the named profiles ----------

  function Larger(a: Option<nat>, b: Option<nat>): Option<nat> {
    if a.None? then b else if b.None? then a else if a.value >= b.value then a else b
  }

  function Smaller(a: Option<int>, b: Option<int>): Option<int> {
    if a.None? then b else if b.None? then a else if a.value <= b.value then a else b
  }

  function Merge(p: Policy, q: Policy): Policy {
    Policy(p.requireLayers + q.requireLayers, p.forbidLayers + q.forbidLayers, Larger(p.minLayers, q.minLayers),
           p.requireQualifiedTsa || q.requireQualifiedTsa, Smaller(p.maxAgeDays, q.maxAgeDays), p.tsaAuthorities)
  }

  /** Two policies with the same allowlist are both passed exactly when their merge is. */
  lemma MergePasses(p: Policy, q: Policy, seal: SealBlock, results: seq<LayerResult>, sealedAt: Option<int>, now: int)
    requires p.tsaAuthorities == q.tsaAuthorities
    ensures Passes(Merge(p, q), seal, results, sealedAt, now) <==>
      Passes(p, seal, results, sealedAt, now) && Passes(q, seal, results, sealedAt, now)
  {
    hide PresentLayers, VerifiedOk, HostListed, AgeDays;
    var (a, b) := (p.requireLayers, q.requireLayers);
    assert forall i | 0 <= i < |a| :: (a + b)[i] == a[i];
    assert forall i | 0 <= i < |b| :: (a + b)[|a| + i] == b[i];
    var (f, g) := (p.forbidLayers, q.forbidLayers);
    assert forall i | 0 <= i < |f| :: (f + g)[i] == f[i];
    assert forall i | 0 <= i < |g| :: (f + g)[|f| + i] == g[i];
  }

  function Requiring(layers: seq<string>, min: nat, qualified: bool): Policy {
    Policy(layers, [], Some(min), qualified, None, None)
  }

  const OFFLINE_BASIC := Requiring(["hmac", "ed25519", "c2pa"], 3, false)
  const TRANSPARENCY := Requiring(["ed25519", "rekor"], 2, false)
  const LEGAL_GRADE := Requiring(["ed25519", "tsa"], 2, true)
  const FULL := Requiring(["hmac", "ed25519", "c2pa", "tsa", "rekor"], 5, false)

  /** A policy that asks for no more. */
  lemma WeakerPasses(p: Policy, q: Policy, seal: SealBlock, results: seq<LayerResult>, sealedAt: Option<int>, now: int)
    requires forall i | 0 <= i < |q.requireLayers| :: q.requireLayers[i] in p.requireLayers
    requires q.forbidLayers == [] && q.maxAgeDays == None
    requires q.minLayers.Some? ==> p.minLayers.Some? && q.minLayers.value <= p.minLayers.value
    requires q.requireQualifiedTsa ==> TsaPasses(q, seal)
    requires Passes(p, seal, results, sealedAt, now)
    ensures Passes(q, seal, results, sealedAt, now)
  {
    hide PresentLayers, VerifiedOk, HostListed;
  }

  /** On every receipt `full` implies `offline-basic` and `transparency`, and it
      implies `legal-grade` exactly when the timestamp's host is a listed one. */
  lemma FullImpliesOthers(seal: SealBlock, results: seq<LayerResult>, sealedAt: Option<int>, now: int)
    requires Passes(FULL, seal, results, sealedAt, now)
    ensures Passes(OFFLINE_BASIC, seal, results, sealedAt, now)
    ensures Passes(TRANSPARENCY, seal, results, sealedAt, now)
    ensures Passes(LEGAL_GRADE, seal, results, sealedAt, now) <==>
      seal.tsa.Some? && HostListed(Authority(seal), QUALIFIED_HOSTS)
  {
    hide Passes, HostListed;
    var all := FULL.requireLayers;
    assert all[0] == "hmac" && all[1] == "ed25519" && all[2] == "c2pa" && all[3] == "tsa" && all[4] == "rekor";
    WeakerPasses(FULL, OFFLINE_BASIC, seal, results, sealedAt, now);
    WeakerPasses(FULL, TRANSPARENCY, seal, results, sealedAt, now);
    if TsaPasses(LEGAL_GRADE, seal) {
      WeakerPasses(FULL, LEGAL_GRADE, seal, results, sealedAt, now);
    }
    PassesNeedsTsa(LEGAL_GRADE, seal, results, sealedAt, now);
  }

  lemma PassesNeedsTsa(p: Policy, seal: SealBlock, results: seq<LayerResult>, sealedAt: Option<int>, now: int)
    ensures Passes(p, seal, results, sealedAt, now) ==> TsaPasses(p, seal)
  {
  }

  // ---------- What the named profiles ask ----------

  lemma {:induction false} CountAtLeast(layers: seq<string>, verified: set<string>, some: seq<string>)
    requires Sorting.Distinct(some) && forall x | x in some :: x in layers && x in verified
    ensures CountIn(layers, verified) >= |some|
    decreases |layers|
  {
    if some != [] {
      assert some[0] in layers;
      if layers[0] in some {
        var i :| 0 <= i < |some| && some[i] == layers[0];
        var rest := some[..i] + some[i + 1..];
        forall x | x in rest ensures x in layers[1..] && x in verified {
          assert x in some && x != layers[0];
        }
        CountAtLeast(layers[1..], verified, rest);
      } else {
        forall x | x in some ensures x in layers[1..] {
        }
        CountAtLeast(layers[1..], verified, some);
      }
    }
  }

  /** A policy that only names different layers, and no larger number, asks
      exactly that each is carried and has a good result. */
  lemma NamingMeans(p: Policy, seal: SealBlock, results: seq<LayerResult>, sealedAt: Option<int>, now: int)
    requires Sorting.Distinct(p.requireLayers) && p.forbidLayers == [] && p.maxAgeDays == None
    requires p.minLayers.Some? ==> p.minLayers.value <= |p.requireLayers|
    ensures Passes(p, seal, results, sealedAt, now) <==>
      TsaPasses(p, seal) && forall i | 0 <= i < |p.requireLayers| ::
        Carries(seal, p.requireLayers[i]) && LayerResult(p.requireLayers[i], true) in results
  {
    hide PresentLayers, Carries, TsaPasses, CountIn, VerifiedOk;
    PresentLayersAre(seal);
    forall i | 0 <= i < |p.requireLayers|
      ensures p.requireLayers[i] in VerifiedOk(results) <==> LayerResult(p.requireLayers[i], true) in results
    {
      VerifiedHas(results, p.requireLayers[i]);
    }
    if forall i | 0 <= i < |p.requireLayers| :: p.requireLayers[i] in PresentLayers(seal) && p.requireLayers[i] in VerifiedOk(results) {
      CountAtLeast(PresentLayers(seal), VerifiedOk(results), p.requireLayers);
    }
  }

  /** The receipt carries the layer and it verified. */
  predicate Good(seal: SealBlock, results: seq<LayerResult>, layer: string) {
    Carries(seal, layer) && LayerResult(layer, true) in results
  }

  lemma AllGood(p: Policy, seal: SealBlock, results: seq<LayerResult>, sealedAt: Option<int>, now: int)
    requires Sorting.Distinct(p.requireLayers) && p.forbidLayers == [] && p.maxAgeDays == None
    requires p.minLayers.Some? ==> p.minLayers.value <= |p.requireLayers|
    ensures Passes(p, seal, results, sealedAt, now) <==>
      TsaPasses(p, seal) && forall layer | layer in p.requireLayers :: Good(seal, results, layer)
  {
    hide Carries, TsaPasses, Passes;
    NamingMeans(p, seal, results, sealedAt, now);
    if forall i | 0 <= i < |p.requireLayers| :: Good(seal, results, p.requireLayers[i]) {
      assert forall layer | layer in p.requireLayers :: Good(seal, results, layer);
    }
  }

  /** The named profiles ask for their layers, each carried and verified, and
      `legal-grade` for a known timestamp host besides. */
  lemma ProfilesMean(seal: SealBlock, results: seq<LayerResult>, sealedAt: Option<int>, now: int)
    ensures Passes(OFFLINE_BASIC, seal, results, sealedAt, now) <==>
      forall layer | layer in ["hmac", "ed25519", "c2pa"] :: Good(seal, results, layer)
    ensures Passes(TRANSPARENCY, seal, results, sealedAt, now) <==>
      forall layer | layer in ["ed25519", "rekor"] :: Good(seal, results, layer)
    ensures Passes(LEGAL_GRADE, seal, results, sealedAt, now) <==>
      seal.tsa.Some? && HostListed(Authority(seal), ["timestamp.actalis.it"]) &&
      forall layer | layer in ["ed25519", "tsa"] :: Good(seal, results, layer)
    ensures Passes(FULL, seal, results, sealedAt, now) <==>
      forall layer | layer in ["hmac", "ed25519", "c2pa", "tsa", "rekor"] :: Good(seal, results, layer)
  {
    hide Good, HostListed, TsaPasses, Passes;
    ProfileLayersDiffer();
    ProfileTimestamps(seal);
    AllGood(OFFLINE_BASIC, seal, results, sealedAt, now);
    AllGood(TRANSPARENCY, seal, results, sealedAt, now);
    AllGood(LEGAL_GRADE, seal, results, sealedAt, now);
    AllGood(FULL, seal, results, sealedAt, now);
  }

  lemma ProfileTimestamps(seal: SealBlock)
    ensures TsaPasses(OFFLINE_BASIC, seal) && TsaPasses(TRANSPARENCY, seal) && TsaPasses(FULL, seal)
    ensures TsaPasses(LEGAL_GRADE, seal) <==> seal.tsa.Some? && HostListed(Authority(seal), ["timestamp.actalis.it"])
  {
    hide HostListed;
  }

  lemma ProfileLayersDiffer()
    ensures Sorting.Distinct(OFFLINE_BASIC.requireLayers) && Sorting.Distinct(TRANSPARENCY.requireLayers)
    ensures Sorting.Distinct(LEGAL_GRADE.requireLayers) && Sorting.Distinct(FULL.requireLayers)
  {
    assert |"hmac"| == 4 && |"ed25519"| == 7 && |"c2pa"| == 4 && |"tsa"| == 3 && |"rekor"| == 5 && "hmac"[0] != "c2pa"[0];
  }
}
