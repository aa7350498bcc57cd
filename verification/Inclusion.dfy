/** Soundness and completeness of inclusion proofs, for every hash function that
    has no collision between a string hashed while checking the proof and a
    string hashed while building the tree. */
module Inclusion {
  import opened Prelude
  import opened Merkle

  ghost predicate Sized(h: Hash) {
    forall x :: |h(x)| == DIGEST_LEN
  }

  predicate AllSized(path: seq<Bytes>) {
    forall i | 0 <= i < |path| :: |path[i]| == DIGEST_LEN
  }

  /** The strings hashed while building the tree over `D`. */
  function TreeInputs(h: Hash, D: seq<Bytes>): set<Bytes>
    decreases |D|
  {
    if |D| == 0 then {[]}
    else if |D| == 1 then {LeafInput(D[0])}
    else
      var l, r := D[..Split(|D|)], D[Split(|D|)..];
      {NodeInput(TreeHash(h, l), TreeHash(h, r))} + TreeInputs(h, l) + TreeInputs(h, r)
  }

  function FoldInputs(h: Hash, r: Bytes, steps: seq<Step>): set<Bytes>
    decreases |steps|
  {
    if steps == [] then {} else {StepInput(steps[0], r)} + FoldInputs(h, h(StepInput(steps[0], r)), steps[1..])
  }

  /** The strings hashed while checking that `body` is leaf `m` of `n`. */
  function CheckInputs(h: Hash, body: Bytes, m: nat, n: nat, path: seq<Bytes>): set<Bytes>
    requires m < n
  {
    match Steps(m, n, path)
    case None => {}
    case Some(steps) => StepsInputs(h, body, steps)
  }

  function StepsInputs(h: Hash, body: Bytes, steps: seq<Step>): set<Bytes> {
    {LeafInput(body)} + FoldInputs(h, LeafHash(h, body), steps)
  }

  ghost predicate NoClash(h: Hash, checked: set<Bytes>, built: set<Bytes>) {
    forall x, y | x in checked && y in built && h(x) == h(y) :: x == y
  }

  // ---------- The last step first ----------

  lemma {:induction false} FoldLast(h: Hash, r: Bytes, steps: seq<Step>)
    requires steps != []
    ensures Fold(h, r, steps) == h(StepInput(Last(steps), Fold(h, r, Init(steps))))
    ensures FoldInputs(h, r, steps) ==
            FoldInputs(h, r, Init(steps)) + {StepInput(Last(steps), Fold(h, r, Init(steps)))}
    decreases |steps|
  {
    if |steps| > 1 {
      FoldLast(h, h(StepInput(steps[0], r)), steps[1..]);
      assert Init(steps)[1..] == Init(steps[1..]);
    }
  }

  lemma {:induction false} FoldSized(h: Hash, r: Bytes, steps: seq<Step>)
    requires Sized(h) && |r| == DIGEST_LEN
    ensures |Fold(h, r, steps)| == DIGEST_LEN
  {
    if steps != [] {
      FoldLast(h, r, steps);
    }
  }

  lemma TreeSized(h: Hash, D: seq<Bytes>)
    requires Sized(h)
    ensures |TreeHash(h, D)| == DIGEST_LEN
  {
  }

  lemma {:induction false} AuditPathSized(h: Hash, m: nat, D: seq<Bytes>)
    requires Sized(h) && m < |D|
    ensures AllSized(AuditPath(h, m, D))
    decreases |D|
  {
    if |D| >= 2 {
      var k := Split(|D|);
      TreeSized(h, D[..k]);
      TreeSized(h, D[k..]);
      if m < k {
        AuditPathSized(h, m, D[..k]);
      } else {
        AuditPathSized(h, m - k, D[k..]);
      }
    }
  }

  predicate StepsSized(steps: seq<Step>) {
    forall i | 0 <= i < |steps| :: |steps[i].sibling| == DIGEST_LEN
  }

  lemma {:induction false} StepsAreSized(m: nat, n: nat, path: seq<Bytes>)
    requires m < n && AllSized(path) && Steps(m, n, path).Some?
    ensures StepsSized(Steps(m, n, path).value)
    decreases n
  {
    if n > 1 {
      if m % 2 == 0 && m == n - 1 {
        StepsAreSized(m / 2, (n + 1) / 2, path);
      } else {
        StepsAreSized(m / 2, (n + 1) / 2, path[1..]);
      }
    }
  }

  /** The prefix byte and the fixed digest length make the node input readable. */
  lemma NodeInputInjective(a: Bytes, b: Bytes, c: Bytes, d: Bytes)
    requires |a| == |c| && NodeInput(a, b) == NodeInput(c, d)
    ensures a == c && b == d
  {
    assert NodeInput(a, b)[1..|a| + 1] == a && NodeInput(c, d)[1..|c| + 1] == c;
    assert NodeInput(a, b)[|a| + 1..] == b && NodeInput(c, d)[|c| + 1..] == d;
  }

  // ---------- The root, one level down ----------

  /** The string whose hash is the root of the tree. */
  function RootInput(h: Hash, D: seq<Bytes>): Bytes {
    if |D| == 0 then []
    else if |D| == 1 then LeafInput(D[0])
    else NodeInput(TreeHash(h, D[..Split(|D|)]), TreeHash(h, D[Split(|D|)..]))
  }

  /** The prefix bytes tell leaves from inner nodes. */
  lemma RootInputPrefix(h: Hash, D: seq<Bytes>)
    ensures h(RootInput(h, D)) == TreeHash(h, D) && RootInput(h, D) in TreeInputs(h, D)
    ensures |D| == 1 ==> RootInput(h, D)[0] == 0 && RootInput(h, D)[1..] == D[0]
    ensures |D| >= 2 ==> RootInput(h, D)[0] == 1
  {
    if |D| == 1 {
      assert LeafInput(D[0])[1..] == D[0];
    }
  }

  lemma LeafAlone(h: Hash, body: Bytes, D: seq<Bytes>)
    requires NoClash(h, StepsInputs(h, body, []), TreeInputs(h, D))
    requires LeafHash(h, body) == TreeHash(h, D)
    ensures |D| == 1 && body == D[0]
  {
    var x := LeafInput(body);
    assert x in StepsInputs(h, body, []) && x[0] == 0 && x[1..] == body;
    RootInputPrefix(h, D);
  }

  /** The last step of an accepted climb joins the two halves of the tree. */
  lemma TopStep(h: Hash, body: Bytes, steps: seq<Step>, D: seq<Bytes>)
    requires Sized(h) && StepsSized(steps) && steps != []
    requires NoClash(h, StepsInputs(h, body, steps), TreeInputs(h, D))
    requires Fold(h, LeafHash(h, body), steps) == TreeHash(h, D)
    ensures |D| >= 2
    ensures
      var (l, r) := (D[..Split(|D|)], D[Split(|D|)..]);
      var (mine, other) := if Last(steps).SiblingLeft? then (r, l) else (l, r);
      && Last(steps).sibling == TreeHash(h, other)
      && Fold(h, LeafHash(h, body), Init(steps)) == TreeHash(h, mine)
      && NoClash(h, StepsInputs(h, body, Init(steps)), TreeInputs(h, mine))
  {
    var leaf, init, last := LeafHash(h, body), Init(steps), Last(steps);
    var below := Fold(h, leaf, init);
    FoldLast(h, leaf, steps);
    FoldSized(h, leaf, init);
    var x := StepInput(last, below);
    assert x in StepsInputs(h, body, steps) && x[0] == 1;
    RootInputPrefix(h, D);
    var l, r := D[..Split(|D|)], D[Split(|D|)..];
    TreeSized(h, l);
    if last.SiblingLeft? {
      NodeInputInjective(last.sibling, below, TreeHash(h, l), TreeHash(h, r));
    } else {
      NodeInputInjective(below, last.sibling, TreeHash(h, l), TreeHash(h, r));
    }
  }

  // ---------- Completeness ----------

  /** The tree hash and the audit path, one level down. */
  lemma TreeOfHalves(h: Hash, m: nat, D: seq<Bytes>)
    requires |D| >= 2 && m < |D|
    ensures TreeHash(h, D) == NodeHash(h, TreeHash(h, D[..Split(|D|)]), TreeHash(h, D[Split(|D|)..]))
    ensures m < Split(|D|) ==> AuditPath(h, m, D) == AuditPath(h, m, D[..Split(|D|)]) + [TreeHash(h, D[Split(|D|)..])]
    ensures m >= Split(|D|) ==>
              AuditPath(h, m, D) == AuditPath(h, m - Split(|D|), D[Split(|D|)..]) + [TreeHash(h, D[..Split(|D|)])]
  {
    hide Split;
  }

  lemma OneLeafIsIncluded(h: Hash, D: seq<Bytes>)
    requires |D| == 1
    ensures Included(h, LeafHash(h, D[0]), 0, 1, AuditPath(h, 0, D), TreeHash(h, D))
  {
  }

  /** Completeness: the recursive audit path of every leaf passes the loop. */
  lemma {:induction false} InclusionIsComplete(h: Hash, m: nat, D: seq<Bytes>)
    requires m < |D|
    ensures Included(h, LeafHash(h, D[m]), m, |D|, AuditPath(h, m, D), TreeHash(h, D))
    decreases |D|
  {
    hide Split, AuditPath, TreeHash, Included;
    if |D| == 1 {
      OneLeafIsIncluded(h, D);
    } else {
      var k := Split(|D|);
      TreeOfHalves(h, m, D);
      if m < k {
        InclusionIsComplete(h, m, D[..k]);
        Graft(h, LeafHash(h, D[m]), m, |D|, AuditPath(h, m, D[..k]), TreeHash(h, D[..k]), TreeHash(h, D[k..]));
      } else {
        InclusionIsComplete(h, m - k, D[k..]);
        Graft(h, LeafHash(h, D[m]), m, |D|, AuditPath(h, m - k, D[k..]), TreeHash(h, D[k..]), TreeHash(h, D[..k]));
      }
    }
  }

  /** A proof for one half, followed by the root of the other half. */
  lemma Graft(h: Hash, leaf: Bytes, m: nat, n: nat, path: seq<Bytes>, root: Bytes, other: Bytes)
    requires n >= 2 && m < n
    requires m < Split(n) ==> Included(h, leaf, m, Split(n), path, root)
    requires m >= Split(n) ==> Included(h, leaf, m - Split(n), n - Split(n), path, root)
    ensures Included(h, leaf, m, n, path + [other],
                     if m < Split(n) then NodeHash(h, root, other) else NodeHash(h, other, root))
  {
    hide Split, Steps, Fold;
    var k := Split(n);
    assert Init(path + [other]) == path && Last(path + [other]) == other;
    StepsOfHalf(m, n, path + [other]);
    var steps := if m < k then Steps(m, k, path).value else Steps(m - k, n - k, path).value;
    var last := if m < k then SiblingRight(other) else SiblingLeft(other);
    assert Init(steps + [last]) == steps;
    FoldLast(h, leaf, steps + [last]);
  }

  // ---------- Soundness, whatever size is claimed ----------

  /** The steps of an accepted length, split at the top of the tree. */
  lemma StepsAtTop(m: nat, n: nat, path: seq<Bytes>)
    requires m < n && n >= 2 && Steps(m, n, path).Some?
    ensures path != [] && Steps(m, n, path).value != []
    ensures
      var (k, steps) := (Split(n), Steps(m, n, path).value);
      if m < k then Last(steps) == SiblingRight(Last(path)) && Steps(m, k, Init(path)) == Some(Init(steps))
      else Last(steps) == SiblingLeft(Last(path)) && Steps(m - k, n - k, Init(path)) == Some(Init(steps))
  {
    if path == [] {
      NoStepsLeft(m, n);
    }
    StepsOfHalf(m, n, path);
    var k, steps := Split(n), Steps(m, n, path).value;
    if m < k {
      assert Init(steps) == Steps(m, k, Init(path)).value;
    } else {
      assert Init(steps) == Steps(m - k, n - k, Init(path)).value;
    }
  }

  /** The siblings of a list of steps, in order. */
  function Siblings(steps: seq<Step>): seq<Bytes> {
    seq(|steps|, i requires 0 <= i < |steps| => steps[i].sibling)
  }

  /** The steps hash in exactly the strings of the path. */
  lemma {:induction false} StepsUseThePath(m: nat, n: nat, path: seq<Bytes>)
    requires m < n && Steps(m, n, path).Some?
    ensures Siblings(Steps(m, n, path).value) == path
    decreases n
  {
    if n > 1 {
      if m % 2 == 0 && m == n - 1 {
        StepsUseThePath(m / 2, (n + 1) / 2, path);
      } else {
        StepsUseThePath(m / 2, (n + 1) / 2, path[1..]);
        assert path == [path[0]] + path[1..];
      }
    }
  }

  /** `body` is the leaf `i` of `D`, `path` is its audit path, and `steps` are the
      steps the two call for in a tree of this size. */
  ghost predicate IsLeaf(h: Hash, body: Bytes, path: seq<Bytes>, steps: seq<Step>, D: seq<Bytes>, i: nat) {
    i < |D| && body == D[i] && path == AuditPath(h, i, D) && Steps(i, |D|, path) == Some(steps)
  }

  /** The steps for a leaf of one half, and then the root of the other half. */
  lemma StepsBelow(m: nat, n: nat, path: seq<Bytes>, sibling: Bytes, steps: seq<Step>)
    requires m < n && n >= 2
    requires m < Split(n) ==> Steps(m, Split(n), path) == Some(steps)
    requires m >= Split(n) ==> Steps(m - Split(n), n - Split(n), path) == Some(steps)
    ensures Steps(m, n, path + [sibling]) ==
      Some(steps + [if m < Split(n) then SiblingRight(sibling) else SiblingLeft(sibling)])
  {
    hide Split, Steps;
    var whole := path + [sibling];
    assert Init(whole) == path && Last(whole) == sibling;
    StepsOfHalf(m, n, whole);
  }

  /** A leaf of a half is a leaf of the whole, one step further from the root. */
  lemma LeafOfHalf(h: Hash, body: Bytes, path: seq<Bytes>, steps: seq<Step>, D: seq<Bytes>, m: nat, other: Bytes)
    requires |D| >= 2 && m < |D| && body == D[m]
    requires m < Split(|D|) ==>
               path == AuditPath(h, m, D[..Split(|D|)]) && Steps(m, Split(|D|), path) == Some(steps) &&
               other == TreeHash(h, D[Split(|D|)..])
    requires m >= Split(|D|) ==>
               path == AuditPath(h, m - Split(|D|), D[Split(|D|)..]) &&
               Steps(m - Split(|D|), |D| - Split(|D|), path) == Some(steps) && other == TreeHash(h, D[..Split(|D|)])
    ensures IsLeaf(h, body, path + [other], steps + [if m < Split(|D|) then SiblingRight(other) else SiblingLeft(other)], D, m)
  {
    hide Split, TreeHash, AuditPath, Steps;
    TreeOfHalves(h, m, D);
    StepsBelow(m, |D|, path, other, steps);
  }

  /** If hashing up from the leaf `body` ends in the root of the tree over `D`,
      then `body` is one of the leaves, and what was hashed in is its audit path. */
  lemma {:induction false} LeafIsInTree(h: Hash, body: Bytes, steps: seq<Step>, D: seq<Bytes>)
    returns (i: nat)
    requires Sized(h) && StepsSized(steps)
    requires NoClash(h, StepsInputs(h, body, steps), TreeInputs(h, D))
    requires Fold(h, LeafHash(h, body), steps) == TreeHash(h, D)
    ensures IsLeaf(h, body, Siblings(steps), steps, D, i)
    decreases |steps|
  {
    hide Split, TreeHash, AuditPath, TreeInputs, StepsInputs, NoClash, IsLeaf;
    if steps == [] {
      LeafAlone(h, body, D);
      i := 0;
      AloneIsLeaf(h, D);
    } else {
      TopStep(h, body, steps, D);
      var last := Last(steps);
      var mine := if last.SiblingLeft? then D[Split(|D|)..] else D[..Split(|D|)];
      var below := LeafIsInTree(h, body, Init(steps), mine);
      i := LeafAbove(h, body, steps, D, mine, below);
    }
  }

  lemma LeafAbove(h: Hash, body: Bytes, steps: seq<Step>, D: seq<Bytes>, mine: seq<Bytes>, below: nat) returns (i: nat)
    requires |D| >= 2 && steps != []
    requires mine == if Last(steps).SiblingLeft? then D[Split(|D|)..] else D[..Split(|D|)]
    requires Last(steps).sibling ==
      if Last(steps).SiblingLeft? then TreeHash(h, D[..Split(|D|)]) else TreeHash(h, D[Split(|D|)..])
    requires IsLeaf(h, body, Siblings(Init(steps)), Init(steps), mine, below)
    ensures IsLeaf(h, body, Siblings(steps), steps, D, i)
  {
    hide Split, TreeHash, AuditPath, IsLeaf, Steps;
    var last := Last(steps);
    i := if last.SiblingLeft? then Split(|D|) + below else below;
    LeafIs(h, body, Siblings(Init(steps)), Init(steps), mine, below);
    LeafOfHalf(h, body, Siblings(Init(steps)), Init(steps), D, i, last.sibling);
    assert Siblings(steps) == Siblings(Init(steps)) + [last.sibling] && steps == Init(steps) + [last];
  }

  lemma LeafIs(h: Hash, body: Bytes, path: seq<Bytes>, steps: seq<Step>, D: seq<Bytes>, i: nat)
    requires IsLeaf(h, body, path, steps, D, i)
    ensures i < |D| && body == D[i] && path == AuditPath(h, i, D) && Steps(i, |D|, path) == Some(steps)
  {
  }

  lemma AloneIsLeaf(h: Hash, D: seq<Bytes>)
    requires |D| == 1
    ensures IsLeaf(h, D[0], [], [], D, 0) && Siblings([]) == []
  {
  }

  /** Soundness at any claimed size: a proof is accepted against the root of `D`
      exactly when it is the audit path of a leaf with this body, and the claimed
      index and size call for the same steps as the real ones. */
  lemma InclusionIsSound(h: Hash, body: Bytes, m: nat, n: nat, path: seq<Bytes>, D: seq<Bytes>)
    requires Sized(h) && AllSized(path) && m < n
    requires NoClash(h, CheckInputs(h, body, m, n, path), TreeInputs(h, D))
    ensures Included(h, LeafHash(h, body), m, n, path, TreeHash(h, D)) <==>
            Steps(m, n, path).Some? && exists i :: IsLeaf(h, body, path, Steps(m, n, path).value, D, i)
  {
    hide Split, TreeHash, AuditPath, TreeInputs, StepsInputs, NoClash, Fold, Steps;
    if Included(h, LeafHash(h, body), m, n, path, TreeHash(h, D)) {
      StepsAreSized(m, n, path);
      StepsUseThePath(m, n, path);
      var i := LeafIsInTree(h, body, Steps(m, n, path).value, D);
    }
    if Steps(m, n, path).Some? && exists i :: IsLeaf(h, body, path, Steps(m, n, path).value, D, i) {
      var i :| IsLeaf(h, body, path, Steps(m, n, path).value, D, i);
      InclusionIsComplete(h, i, D);
    }
  }

  /** In a tree of one size, the steps tell the index. */
  lemma {:induction false} StepsTellIndex(i: nat, j: nat, n: nat, path: seq<Bytes>)
    requires i < n && j < n && Steps(i, n, path).Some? && Steps(i, n, path) == Steps(j, n, path)
    ensures i == j
    decreases n
  {
    hide Split, Steps;
    if n >= 2 {
      var k := Split(n);
      StepsAtTop(i, n, path);
      StepsAtTop(j, n, path);
      if i < k {
        StepsTellIndex(i, j, k, Init(path));
      } else {
        StepsTellIndex(i - k, j - k, n - k, Init(path));
      }
    }
  }

  /** The claimed index is that of the leaf exactly when the real size calls for
      the same steps as the claimed one; it does if the sizes are equal. */
  lemma IndexIsRight(h: Hash, body: Bytes, m: nat, n: nat, path: seq<Bytes>, D: seq<Bytes>, i: nat)
    requires m < n && Steps(m, n, path).Some? && IsLeaf(h, body, path, Steps(m, n, path).value, D, i)
    ensures i == m <==> m < |D| && Steps(m, |D|, path) == Steps(m, n, path)
    ensures n == |D| ==> i == m
  {
    hide Steps, AuditPath;
    if m < |D| && Steps(m, |D|, path) == Steps(m, n, path) {
      StepsTellIndex(i, m, |D|, path);
    }
  }

  /** When the claimed size is the real one, only the leaf at the claimed index
      passes, and only with its audit path. */
  lemma InclusionIsExact(h: Hash, body: Bytes, m: nat, path: seq<Bytes>, D: seq<Bytes>)
    requires Sized(h) && AllSized(path) && m < |D|
    requires NoClash(h, CheckInputs(h, body, m, |D|, path), TreeInputs(h, D))
    ensures Included(h, LeafHash(h, body), m, |D|, path, TreeHash(h, D)) <==>
            body == D[m] && path == AuditPath(h, m, D)
  {
    hide Split, TreeHash, AuditPath, TreeInputs, StepsInputs, NoClash, Fold, Steps;
    if body == D[m] && path == AuditPath(h, m, D) {
      InclusionIsComplete(h, m, D);
    }
    if Included(h, LeafHash(h, body), m, |D|, path, TreeHash(h, D)) {
      InclusionIsSound(h, body, m, |D|, path, D);
      var i :| IsLeaf(h, body, path, Steps(m, |D|, path).value, D, i);
      IndexIsRight(h, body, m, |D|, path, D, i);
    }
  }

  /** The index means nothing without the size: the proof for the second of two
      leaves is also accepted as a proof for the third of three. */
  lemma IndexNeedsTheSize(h: Hash, a: Bytes, b: Bytes)
    ensures Included(h, LeafHash(h, b), 1, 2, [LeafHash(h, a)], TreeHash(h, [a, b]))
    ensures Included(h, LeafHash(h, b), 2, 3, [LeafHash(h, a)], TreeHash(h, [a, b]))
  {
    var path := [LeafHash(h, a)];
    var steps := [SiblingLeft(LeafHash(h, a))];
    assert path[1..] == [] && steps[1..] == [];
    assert [a, b][..1] == [a] && [a, b][1..] == [b];
    assert Steps(0, 1, path[1..]) == Some([]);
    assert Steps(1, 2, path) == Before(SiblingLeft(path[0]), Some([]));
    assert [SiblingLeft(path[0])] + [] == steps;
    assert Steps(2, 3, path) == Steps(1, 2, path);
    assert Fold(h, LeafHash(h, b), steps) == Fold(h, NodeHash(h, LeafHash(h, a), LeafHash(h, b)), []);
    assert Split(2) == 1;
    assert TreeHash(h, [a, b]) == NodeHash(h, TreeHash(h, [a]), TreeHash(h, [b]));
  }
}
