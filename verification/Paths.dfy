/** File paths as lists of components, and the names of receipts. */
module Paths {
  import opened Prelude
  import Sorting

  type Path = seq<string>

  const RECEIPT_SUFFIX := ".seal.json"

  /** Component by component, each compared as text. */
  predicate PathLess(a: Path, b: Path) {
    b != [] && (a == [] || Sorting.TextLess(a[0], b[0]) || (a[0] == b[0] && PathLess(a[1..], b[1..])))
  }

  /** Two paths agree up to some component, and there `a` ends or has the smaller one. */
  ghost predicate PathPrecedes(a: Path, b: Path) {
    exists k | 0 <= k <= |a| && k <= |b| ::
      a[..k] == b[..k] && (k == |a| < |b| || (k < |a| && k < |b| && Sorting.Precedes(a[k], b[k])))
  }

  lemma {:induction false} PathLessIs(a: Path, b: Path)
    ensures PathLess(a, b) <==> PathPrecedes(a, b)
  {
    hide Sorting.TextLess, Sorting.Precedes;
    if a == [] {
      assert b != [] ==> a[..0] == b[..0];
    } else if b != [] {
      assert a[..0] == b[..0];
      Sorting.TextLessIs(a[0], b[0]);
      PathLessIs(a[1..], b[1..]);
      if a[0] == b[0] && PathPrecedes(a[1..], b[1..]) {
        var k :| 0 <= k <= |a[1..]| && k <= |b[1..]| && a[1..][..k] == b[1..][..k] &&
          (k == |a[1..]| < |b[1..]| || (k < |a[1..]| && k < |b[1..]| && Sorting.Precedes(a[1..][k], b[1..][k])));
        assert a[..k + 1] == [a[0]] + a[1..][..k] && b[..k + 1] == [b[0]] + b[1..][..k];
      }
      if PathPrecedes(a, b) {
        var k :| 0 <= k <= |a| && k <= |b| && a[..k] == b[..k] &&
          (k == |a| < |b| || (k < |a| && k < |b| && Sorting.Precedes(a[k], b[k])));
        if k > 0 {
          assert a[0] == a[..k][0] == b[..k][0] == b[0];
          assert a[1..][..k - 1] == a[..k][1..] && b[1..][..k - 1] == b[..k][1..];
        }
      }
    }
  }

  predicate EndsWith(s: string, suffix: string) {
    |s| >= |suffix| && s[|s| - |suffix|..] == suffix
  }

  predicate IsReceipt(p: Path) {
    p != [] && EndsWith(p[|p| - 1], RECEIPT_SUFFIX)
  }

  /** The receipt next to an artifact. */
  function ReceiptOf(p: Path): Path {
    if p == [] then [RECEIPT_SUFFIX] else p[..|p| - 1] + [p[|p| - 1] + RECEIPT_SUFFIX]
  }

  function Join(p: Path): string {
    if p == [] then "" else if |p| == 1 then p[0] else p[0] + "/" + Join(p[1..])
  }

  function FileName(p: Path): string {
    if p == [] then Join(p) else p[|p| - 1]
  }

  lemma ReceiptIsReceipt(p: Path)
    ensures IsReceipt(ReceiptOf(p))
  {
    if p != [] {
      var name := p[|p| - 1] + RECEIPT_SUFFIX;
      assert name[|name| - |RECEIPT_SUFFIX|..] == RECEIPT_SUFFIX;
    }
  }

  /** The receipts are exactly the paths of receipts. */
  lemma ReceiptsAre(p: Path)
    requires p != []
    ensures IsReceipt(p) <==> exists q: Path :: q != [] && ReceiptOf(q) == p
  {
    if IsReceipt(p) {
      var name := p[|p| - 1];
      var stem := name[..|name| - |RECEIPT_SUFFIX|];
      assert name == stem + RECEIPT_SUFFIX;
      var q := p[..|p| - 1] + [stem];
      assert ReceiptOf(q) == p;
    }
    if exists q: Path :: q != [] && ReceiptOf(q) == p {
      var q: Path :| q != [] && ReceiptOf(q) == p;
      ReceiptIsReceipt(q);
    }
  }

  /** Different artifacts have different receipts. */
  lemma ReceiptsDiffer(p: Path, q: Path)
    requires p != [] && q != [] && ReceiptOf(p) == ReceiptOf(q)
    ensures p == q
  {
    var (a, b) := (ReceiptOf(p), ReceiptOf(q));
    var (x, y) := (p[|p| - 1], q[|q| - 1]);
    assert a[|a| - 1] == x + RECEIPT_SUFFIX && b[|b| - 1] == y + RECEIPT_SUFFIX;
    assert (x + RECEIPT_SUFFIX)[..|x|] == x && (y + RECEIPT_SUFFIX)[..|y|] == y;
    assert a[..|a| - 1] == p[..|p| - 1] && b[..|b| - 1] == q[..|q| - 1];
    assert p == p[..|p| - 1] + [x] && q == q[..|q| - 1] + [y];
  }

  lemma {:induction false} PathIrreflexive(a: Path)
    ensures !PathLess(a, a)
  {
    hide Sorting.TextLess;
    if a != [] {
      Sorting.TextOrders();
      PathIrreflexive(a[1..]);
    }
  }

  lemma {:induction false} PathTransitive(a: Path, b: Path, c: Path)
    requires PathLess(a, b) && PathLess(b, c)
    ensures PathLess(a, c)
  {
    hide Sorting.TextLess;
    if a != [] {
      Sorting.TextOrders();
      if a[0] == b[0] && b[0] == c[0] && PathLess(a[1..], b[1..]) && PathLess(b[1..], c[1..]) {
        PathTransitive(a[1..], b[1..], c[1..]);
      }
    }
  }

  lemma {:induction false} PathTotal(a: Path, b: Path)
    ensures PathLess(a, b) || a == b || PathLess(b, a)
  {
    hide Sorting.TextLess;
    if a != [] && b != [] {
      Sorting.TextOrders();
      PathTotal(a[1..], b[1..]);
      if a[0] == b[0] && a[1..] == b[1..] {
        assert a == [a[0]] + a[1..] && b == [b[0]] + b[1..];
      }
    }
  }

  lemma PathsAreOrdered()
    ensures Sorting.StrictTotal(PathLess)
  {
    hide PathLess;
    forall a: Path ensures !PathLess(a, a) {
      PathIrreflexive(a);
    }
    forall a: Path, b: Path, c: Path | PathLess(a, b) && PathLess(b, c) ensures PathLess(a, c) {
      PathTransitive(a, b, c);
    }
    forall a: Path, b: Path ensures PathLess(a, b) || a == b || PathLess(b, a) {
      PathTotal(a, b);
    }
  }
}
