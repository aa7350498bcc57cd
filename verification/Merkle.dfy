/** Merkle trees and inclusion proofs: sections 2.1 and 2.1.1 of RFC 6962, and
    the checking loop of section 2.1.3.2 of RFC 9162. The hash is a parameter;
    what the proofs need of it is stated for the strings actually hashed. */
module Merkle {
  import opened Prelude

  const DIGEST_LEN: nat := 32

  type Hash = Bytes -> Bytes

  function LeafInput(d: Bytes): Bytes {
    [0] + d
  }

  function NodeInput(l: Bytes, r: Bytes): Bytes {
    [1] + l + r
  }

  function LeafHash(h: Hash, d: Bytes): Bytes {
    h(LeafInput(d))
  }

  function NodeHash(h: Hash, l: Bytes, r: Bytes): Bytes {
    h(NodeInput(l, r))
  }

  // ---------- The recursive tree ----------

  predicate IsPowerOfTwo(k: nat)
  {
    k == 1 || (k > 1 && k % 2 == 0 && IsPowerOfTwo(k / 2))
  }

  /** The largest power of two smaller than `n`. */
  function Split(n: nat): (k: nat)
    requires n >= 2
    ensures IsPowerOfTwo(k) && 0 < k < n <= 2 * k
  {
    if n == 2 then 1 else 2 * Split((n + 1) / 2)
  }

  lemma {:induction false} SplitIsLargest(n: nat, k: nat)
    requires n >= 2 && IsPowerOfTwo(k) && k < n
    ensures k <= Split(n)
  {
    if k > 1 {
      SplitIsLargest((n + 1) / 2, k / 2);
    }
  }

  function TreeHash(h: Hash, D: seq<Bytes>): Bytes
    decreases |D|
  {
    if |D| == 0 then h([])
    else if |D| == 1 then LeafHash(h, D[0])
    else NodeHash(h, TreeHash(h, D[..Split(|D|)]), TreeHash(h, D[Split(|D|)..]))
  }

  lemma {:induction false} PowersAreApart(a: nat, b: nat)
    requires IsPowerOfTwo(a) && IsPowerOfTwo(b) && a < b
    ensures 2 * a <= b
  {
    if a > 1 {
      PowersAreApart(a / 2, b / 2);
    }
  }

  lemma SplitIs(n: nat, k: nat)
    requires n >= 2 && IsPowerOfTwo(k) && k < n <= 2 * k
    ensures Split(n) == k
  {
    hide Split, IsPowerOfTwo;
    if Split(n) < k {
      PowersAreApart(Split(n), k);
    } else if k < Split(n) {
      PowersAreApart(k, Split(n));
    }
  }

  /** The root as section 2.1 of RFC 6962 defines it, written out. */
  lemma RootIs(h: Hash, D: seq<Bytes>, k: nat)
    requires |D| >= 2 && IsPowerOfTwo(k) && k < |D| <= 2 * k
    ensures TreeHash(h, []) == h([]) && TreeHash(h, [D[0]]) == h([0] + D[0])
    ensures TreeHash(h, D) == h([1] + TreeHash(h, D[..k]) + TreeHash(h, D[k..]))
  {
    hide Split, IsPowerOfTwo;
    SplitIs(|D|, k);
  }

  /** The audit path of leaf `m`, from the leaf's sibling up. */
  function AuditPath(h: Hash, m: nat, D: seq<Bytes>): seq<Bytes>
    requires m < |D|
    decreases |D|
  {
    if |D| == 1 then
      []
    else
      var k := Split(|D|);
      if m < k then AuditPath(h, m, D[..k]) + [TreeHash(h, D[k..])]
      else AuditPath(h, m - k, D[k..]) + [TreeHash(h, D[..k])]
  }

  // ---------- The checking loop ----------

  /** One hashing step: the side on which the sibling stands. */
  datatype Step = SiblingLeft(sibling: Bytes) | SiblingRight(sibling: Bytes)

  function StepInput(s: Step, r: Bytes): Bytes {
    match s
    case SiblingLeft(p) => NodeInput(p, r)
    case SiblingRight(p) => NodeInput(r, p)
  }

  /** The steps that index and size call for; none when the proof has the wrong length. */
  function Steps(m: nat, n: nat, path: seq<Bytes>): Option<seq<Step>>
    requires m < n
    decreases n
  {
    if n == 1 then
      if path == [] then Some([]) else None
    else if m % 2 == 0 && m == n - 1 then
      Steps(m / 2, (n + 1) / 2, path)
    else if path == [] then
      None
    else
      Before(FirstStep(m, path), Steps(m / 2, (n + 1) / 2, path[1..]))
  }

  function FirstStep(m: nat, path: seq<Bytes>): Step
    requires path != []
  {
    if m % 2 == 1 then SiblingLeft(path[0]) else SiblingRight(path[0])
  }

  function Before(s: Step, rest: Option<seq<Step>>): Option<seq<Step>> {
    if rest.Some? then Some([s] + rest.value) else None
  }

  function After(rest: Option<seq<Step>>, s: Step): Option<seq<Step>> {
    if rest.Some? then Some(rest.value + [s]) else None
  }

  lemma BeforeAfter(s: Step, rest: Option<seq<Step>>, t: Step)
    ensures Before(s, After(rest, t)) == After(Before(s, rest), t)
  {
    if rest.Some? {
      assert [s] + (rest.value + [t]) == [s] + rest.value + [t];
    }
  }

  function Fold(h: Hash, r: Bytes, steps: seq<Step>): Bytes
    decreases |steps|
  {
    if steps == [] then r else Fold(h, h(StepInput(steps[0], r)), steps[1..])
  }

  /** The root that a proof computes for the leaf hash `r`. */
  function Climb(h: Hash, m: nat, n: nat, r: Bytes, path: seq<Bytes>): Option<Bytes>
    requires m < n
  {
    match Steps(m, n, path)
    case None => None
    case Some(steps) => Some(Fold(h, r, steps))
  }

  predicate Included(h: Hash, leaf: Bytes, index: nat, size: nat, path: seq<Bytes>, root: Bytes) {
    index < size && Climb(h, index, size, leaf, path) == Some(root)
  }

  lemma {:induction false} NoStepsLeft(m: nat, n: nat)
    requires m < n && n > 1
    ensures Steps(m, n, []) == None
  {
    if m % 2 == 0 && m == n - 1 {
      NoStepsLeft(m / 2, (n + 1) / 2);
    }
  }

  /** The loop of section 2.1.3.2 of RFC 9162, on the bits of index and size. */
  method VerifyInclusion(h: Hash, leaf: Bytes, index: nat, size: nat, path: seq<Bytes>, root: Bytes)
    returns (ok: bool)
    ensures ok == Included(h, leaf, index, size, path, root)
  {
    if index >= size {
      return false;
    }
    var fn: nat, sn: nat, r := index, size - 1, leaf;
    ghost var goal := Climb(h, index, size, leaf, path);
    for i := 0 to |path|
      invariant fn <= sn
      invariant goal == Climb(h, fn, sn + 1, r, path[i..])
    {
      if sn == 0 {
        ClimbEnd(h, r, path[i..]);
        return false;
      }
      assert path[i..][1..] == path[i + 1..];
      fn, sn, r := Absorb(h, fn, sn, r, path[i], path[i..]);
    }
    assert path[|path|..] == [];
    if sn > 0 {
      NoStepsLeft(fn, sn + 1);
    } else {
      ClimbEnd(h, r, []);
    }
    return sn == 0 && r == root;
  }

  /** One round of the loop: hash in `p`, then drop the bits it accounts for. */
  method Absorb(h: Hash, index: nat, last: nat, leaf: Bytes, p: Bytes, ghost path: seq<Bytes>)
    returns (fn: nat, sn: nat, r: Bytes)
    requires index <= last && last > 0
    requires path != [] && path[0] == p
    ensures fn <= sn
    ensures Climb(h, index, last + 1, leaf, path) == Climb(h, fn, sn + 1, r, path[1..])
  {
    fn, sn := index, last;
    if fn % 2 == 1 || fn == sn {
      r := NodeHash(h, p, leaf);
      while fn % 2 == 0 && fn != 0
        invariant 0 < fn <= sn
        invariant fn % 2 == 1 || fn == sn
        invariant Climb(h, index, last + 1, leaf, path) == Climb(h, fn, sn + 1, leaf, path)
      {
        ClimbPromoted(h, fn, leaf, path);
        fn, sn := fn / 2, sn / 2;
      }
    } else {
      r := NodeHash(h, leaf, p);
    }
    ClimbStep(h, fn, sn + 1, leaf, path);
    fn, sn := fn / 2, sn / 2;
  }

  lemma ClimbEnd(h: Hash, r: Bytes, path: seq<Bytes>)
    ensures Climb(h, 0, 1, r, path) == if path == [] then Some(r) else None
  {
  }

  lemma ClimbPromoted(h: Hash, m: nat, r: Bytes, path: seq<Bytes>)
    requires m > 0 && m % 2 == 0
    ensures Climb(h, m, m + 1, r, path) == Climb(h, m / 2, m / 2 + 1, r, path)
  {
    assert (m + 2) / 2 == m / 2 + 1;
  }

  lemma ClimbStep(h: Hash, m: nat, n: nat, r: Bytes, path: seq<Bytes>)
    requires m < n && n > 1 && path != []
    requires m % 2 == 1 || m != n - 1
    ensures Climb(h, m, n, r, path) ==
            Climb(h, m / 2, (n + 1) / 2,
                  if m % 2 == 1 then NodeHash(h, path[0], r) else NodeHash(h, r, path[0]), path[1..])
  {
    var rest := Steps(m / 2, (n + 1) / 2, path[1..]);
    if rest.Some? {
      assert Steps(m, n, path).value[1..] == rest.value;
    }
  }

  // ---------- The loop refines the recursive split ----------

  function Init<T>(s: seq<T>): seq<T>
    requires s != []
  {
    s[..|s| - 1]
  }

  function Last<T>(s: seq<T>): T
    requires s != []
  {
    s[|s| - 1]
  }

  /** The steps in the half of the tree that holds leaf `m`, then one with the other half. */
  function HalfSteps(m: nat, n: nat, path: seq<Bytes>): Option<seq<Step>>
    requires m < n && n >= 2 && path != []
  {
    var k := Split(n);
    if m < k then
      After(Steps(m, k, Init(path)), SiblingRight(Last(path)))
    else
      After(Steps(m - k, n - k, Init(path)), SiblingLeft(Last(path)))
  }

  lemma Halves(m: nat, n: nat)
    requires m < n && n > 2
    ensures Split(n) == 2 * Split((n + 1) / 2)
    ensures m < Split(n) <==> m / 2 < Split((n + 1) / 2)
    ensures m >= Split(n) ==> (m - Split(n)) / 2 == m / 2 - Split((n + 1) / 2) && (m - Split(n)) % 2 == m % 2
    ensures (n - Split(n) + 1) / 2 == (n + 1) / 2 - Split((n + 1) / 2)
    ensures (Split(n) + 1) / 2 == Split((n + 1) / 2)
  {
  }

  /** What the loop does on the bits of index and size is what the recursive
      split at the largest power of two calls for. */
  lemma {:induction false} StepsOfHalf(m: nat, n: nat, path: seq<Bytes>)
    requires m < n && n >= 2 && path != []
    ensures Steps(m, n, path) == HalfSteps(m, n, path)
    decreases n, 1
  {
    if n == 2 {
      StepsOfTwo(m, path);
    } else {
      Halves(m, n);
      if m % 2 == 0 && m == n - 1 {
        StepsOfHalf(m / 2, (n + 1) / 2, path);
      } else if |path| == 1 {
        NoStepsLeft(m / 2, (n + 1) / 2);
        NoStepsLeft(if m < Split(n) then m else m - Split(n), if m < Split(n) then Split(n) else n - Split(n));
      } else {
        StepsOfHalfByPair(m, n, path);
      }
    }
  }

  lemma StepsOfTwo(m: nat, path: seq<Bytes>)
    requires m < 2 && path != []
    ensures Steps(m, 2, path) == HalfSteps(m, 2, path)
  {
    var s := if m == 1 then SiblingLeft(path[0]) else SiblingRight(path[0]);
    assert [s] + [] == [] + [s];
    assert Steps(0, 1, path[1..]) == if |path| == 1 then Some([]) else None;
    assert Steps(0, 1, Init(path)) == if |path| == 1 then Some([]) else None;
  }

  lemma StepsByPair(m: nat, n: nat, path: seq<Bytes>)
    requires m < n && n > 1 && path != [] && (m % 2 == 1 || m != n - 1)
    ensures Steps(m, n, path) == Before(FirstStep(m, path), Steps(m / 2, (n + 1) / 2, path[1..]))
  {
  }

  /** If the steps after the first end as those of the half tree `(a', b')` do,
      then all the steps end as those of `(a, b)` do. */
  lemma PairLifts(m: nat, n: nat, a: nat, b: nat, path: seq<Bytes>, last: Step)
    requires m < n && n > 2 && |path| > 1 && (m % 2 == 1 || m != n - 1)
    requires a < b && b > 1 && (a % 2 == 1 || a != b - 1) && a % 2 == m % 2
    requires Steps(m / 2, (n + 1) / 2, path[1..]) == After(Steps(a / 2, (b + 1) / 2, Init(path[1..])), last)
    ensures Steps(m, n, path) == After(Steps(a, b, Init(path)), last)
  {
    var init := Init(path);
    assert init[1..] == Init(path[1..]) && FirstStep(a, init) == FirstStep(m, path);
    StepsByPair(m, n, path);
    StepsByPair(a, b, init);
    BeforeAfter(FirstStep(m, path), Steps(a / 2, (b + 1) / 2, init[1..]), last);
  }

  lemma {:induction false} StepsOfHalfByPair(m: nat, n: nat, path: seq<Bytes>)
    requires m < n && n > 2 && |path| > 1 && (m % 2 == 1 || m != n - 1)
    ensures Steps(m, n, path) == HalfSteps(m, n, path)
    decreases n, 0
  {
    hide Steps, Split;
    var k := Split(n);
    Halves(m, n);
    StepsOfHalf(m / 2, (n + 1) / 2, path[1..]);
    assert Last(path[1..]) == Last(path);
    if m < k {
      PairLifts(m, n, m, k, path, SiblingRight(Last(path)));
    } else {
      PairLifts(m, n, m - k, n - k, path, SiblingLeft(Last(path)));
    }
  }
}
