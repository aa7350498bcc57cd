/** Sorting by a strict total order, and the order of texts. */
module Sorting {
  import KeyOrder

  ghost predicate StrictTotal<T(!new)>(lt: (T, T) -> bool) {
    && (forall a :: !lt(a, a))
    && (forall a, b, c :: lt(a, b) && lt(b, c) ==> lt(a, c))
    && (forall a, b :: lt(a, b) || a == b || lt(b, a))
  }

  ghost predicate Transitive<T(!new)>(lt: (T, T) -> bool) {
    forall a, b, c :: lt(a, b) && lt(b, c) ==> lt(a, c)
  }

  predicate Ascending<T>(s: seq<T>, lt: (T, T) -> bool) {
    forall i, j | 0 <= i < j < |s| :: lt(s[i], s[j])
  }

  predicate NonDescending<T>(s: seq<T>, lt: (T, T) -> bool) {
    forall i, j | 0 <= i < j < |s| :: !lt(s[j], s[i])
  }

  function Insert<T>(x: T, s: seq<T>, lt: (T, T) -> bool): seq<T> {
    if s == [] || !lt(s[0], x) then [x] + s else [s[0]] + Insert(x, s[1..], lt)
  }

  function Sort<T>(s: seq<T>, lt: (T, T) -> bool): seq<T> {
    if s == [] then [] else Insert(s[0], Sort(s[1..], lt), lt)
  }

  lemma {:induction false} InsertElements<T>(x: T, s: seq<T>, lt: (T, T) -> bool)
    ensures multiset(Insert(x, s, lt)) == multiset(s) + multiset{x}
  {
    if s != [] && lt(s[0], x) {
      InsertElements(x, s[1..], lt);
      assert s == [s[0]] + s[1..];
    }
  }

  lemma {:induction false} InsertOrdered<T(!new)>(x: T, s: seq<T>, lt: (T, T) -> bool)
    requires StrictTotal(lt) && NonDescending(s, lt)
    ensures NonDescending(Insert(x, s, lt), lt)
  {
    if s != [] && lt(s[0], x) {
      InsertOrdered(x, s[1..], lt);
      InsertElements(x, s[1..], lt);
      var t := Insert(x, s[1..], lt);
      forall j | 0 <= j < |t| ensures !lt(t[j], s[0]) {
        assert t[j] in multiset(t);
        assert t[j] == x || t[j] in s[1..];
      }
    }
  }

  /** Inserting an element that compares with all others keeps a strict order. */
  lemma {:induction false} InsertAscends<T(!new)>(x: T, s: seq<T>, lt: (T, T) -> bool)
    requires Transitive(lt) && Ascending(s, lt) && forall y | y in s :: lt(x, y) || lt(y, x)
    ensures Ascending(Insert(x, s, lt), lt)
  {
    if s != [] {
      assert s[0] in s;
      if lt(s[0], x) {
        InsertAscends(x, s[1..], lt);
        InsertElements(x, s[1..], lt);
        var t := Insert(x, s[1..], lt);
        forall j | 0 <= j < |t| ensures lt(s[0], t[j]) {
          assert t[j] in multiset(t);
          assert t[j] == x || t[j] in s[1..];
        }
      }
    }
  }

  /** Sorting orders the elements and keeps them all. */
  lemma SortSorts<T(!new)>(s: seq<T>, lt: (T, T) -> bool)
    requires StrictTotal(lt)
    ensures NonDescending(Sort(s, lt), lt)
    ensures multiset(Sort(s, lt)) == multiset(s)
    ensures forall x :: x in Sort(s, lt) <==> x in s
  {
    SortPermutes(s, lt);
    SortOrders(s, lt);
    assert forall x :: x in Sort(s, lt) <==> x in multiset(Sort(s, lt));
    assert forall x :: x in s <==> x in multiset(s);
  }

  lemma {:induction false} SortPermutes<T>(s: seq<T>, lt: (T, T) -> bool)
    ensures multiset(Sort(s, lt)) == multiset(s)
  {
    if s != [] {
      SortPermutes(s[1..], lt);
      InsertElements(s[0], Sort(s[1..], lt), lt);
      assert s == [s[0]] + s[1..];
    }
  }

  lemma {:induction false} SortOrders<T(!new)>(s: seq<T>, lt: (T, T) -> bool)
    requires StrictTotal(lt)
    ensures NonDescending(Sort(s, lt), lt)
  {
    hide StrictTotal, NonDescending;
    if s == [] {
      EmptyIsOrdered(lt);
    } else {
      SortOrders(s[1..], lt);
      InsertOrdered(s[0], Sort(s[1..], lt), lt);
    }
  }

  lemma EmptyIsOrdered<T>(lt: (T, T) -> bool)
    ensures NonDescending([], lt)
  {
  }

  predicate Distinct<T(==)>(s: seq<T>) {
    forall i, j | 0 <= i < j < |s| :: s[i] != s[j]
  }

  lemma {:induction false} DistinctCounts<T>(s: seq<T>)
    ensures Distinct(s) <==> forall x | x in s :: multiset(s)[x] == 1
  {
    if s != [] {
      DistinctCounts(s[1..]);
      assert s == [s[0]] + s[1..];
      assert multiset(s) == multiset{s[0]} + multiset(s[1..]);
      if Distinct(s) {
        assert s[0] !in s[1..];
      }
      if forall x | x in s :: multiset(s)[x] == 1 {
        assert multiset(s)[s[0]] == 1;
        assert s[0] !in multiset(s[1..]);
        assert s[0] !in s[1..];
        assert forall x | x in s[1..] :: multiset(s)[x] == 1 && multiset(s[1..])[x] == 1;
      }
    }
  }

  /** Sorting distinct elements gives a strictly ascending sequence. */
  lemma SortDistinct<T(!new)>(s: seq<T>, lt: (T, T) -> bool)
    requires StrictTotal(lt) && Distinct(s)
    ensures Ascending(Sort(s, lt), lt)
  {
    SortSorts(s, lt);
    DistinctCounts(s);
    DistinctCounts(Sort(s, lt));
    var t := Sort(s, lt);
    forall i, j | 0 <= i < j < |t| ensures lt(t[i], t[j]) {
      assert t[i] != t[j];
    }
  }

  /** A strictly ascending sequence is determined by its elements. */
  lemma {:induction false} AscendingIsUnique<T(!new)>(s: seq<T>, t: seq<T>, lt: (T, T) -> bool)
    requires StrictTotal(lt) && Ascending(s, lt) && Ascending(t, lt)
    requires forall x :: x in s <==> x in t
    ensures s == t
  {
    if t != [] {
      assert t[0] in t;
    }
    if s != [] {
      assert s[0] in s;
      assert s[0] == t[0];
      AscendingTail(s, lt);
      AscendingTail(t, lt);
      AscendingIsUnique(s[1..], t[1..], lt);
      assert s == [s[0]] + s[1..] && t == [t[0]] + t[1..];
    }
  }

  lemma AscendingTail<T(!new)>(s: seq<T>, lt: (T, T) -> bool)
    requires StrictTotal(lt) && Ascending(s, lt) && s != []
    ensures forall x :: x in s[1..] <==> x in s && x != s[0]
  {
    assert s == [s[0]] + s[1..];
    assert forall j | 0 < j < |s| :: lt(s[0], s[j]) && s[j] != s[0];
  }

  predicate IsSubsequence<T(==)>(a: seq<T>, b: seq<T>) {
    a == [] || (b != [] && ((a[0] == b[0] && IsSubsequence(a[1..], b[1..])) || IsSubsequence(a, b[1..])))
  }

  /** What is chosen from different elements, in their order, is different. */
  lemma {:induction false} SubsequenceDistinct<T>(a: seq<T>, b: seq<T>)
    requires IsSubsequence(a, b) && Distinct(b)
    ensures Distinct(a) && forall x | x in a :: x in b
    decreases |b|
  {
    if a != [] {
      if a[0] == b[0] && IsSubsequence(a[1..], b[1..]) {
        SubsequenceDistinct(a[1..], b[1..]);
        assert a[0] !in a[1..];
        forall x | x in a ensures x in b {
          assert x == a[0] || x in a[1..];
        }
        forall i, j | 0 <= i < j < |a| ensures a[i] != a[j] {
          assert a[j] == a[1..][j - 1] && (i > 0 ==> a[i] == a[1..][i - 1]);
        }
      } else {
        SubsequenceDistinct(a, b[1..]);
      }
    }
  }

  // ---------- Sorting by a key ----------

  function By<T, K>(key: T -> K, lt: (K, K) -> bool): (T, T) -> bool {
    (a, b) => lt(key(a), key(b))
  }

  function Map<K, T>(f: K -> T, s: seq<K>): seq<T> {
    seq(|s|, i requires 0 <= i < |s| => f(s[i]))
  }

  /** Sorting records by the key they were made from sorts the keys. */
  lemma {:induction false} SortByKey<K, T>(s: seq<K>, f: K -> T, key: T -> K, lt: (K, K) -> bool)
    requires forall x | x in s :: key(f(x)) == x
    ensures Sort(Map(f, s), By(key, lt)) == Map(f, Sort(s, lt))
  {
    if s != [] {
      SortByKey(s[1..], f, key, lt);
      SortPermutes(s[1..], lt);
      assert Map(f, s)[1..] == Map(f, s[1..]);
      forall x | x in Sort(s[1..], lt) ensures key(f(x)) == x {
        assert x in multiset(Sort(s[1..], lt));
        assert x in s[1..];
      }
      InsertByKey(s[0], Sort(s[1..], lt), f, key, lt);
    }
  }

  lemma {:induction false} InsertByKey<K, T>(x: K, s: seq<K>, f: K -> T, key: T -> K, lt: (K, K) -> bool)
    requires key(f(x)) == x && forall y | y in s :: key(f(y)) == y
    ensures Insert(f(x), Map(f, s), By(key, lt)) == Map(f, Insert(x, s, lt))
  {
    if s != [] {
      assert key(f(s[0])) == s[0];
      assert Map(f, s)[1..] == Map(f, s[1..]);
      InsertByKey(x, s[1..], f, key, lt);
    }
    assert Map(f, s) == if s == [] then [] else [f(s[0])] + Map(f, s[1..]);
    assert Map(f, Insert(x, s, lt)) ==
      if s == [] || !lt(s[0], x) then [f(x)] + Map(f, s) else [f(s[0])] + Map(f, Insert(x, s[1..], lt));
  }

  // ---------- Texts ----------

  function Codes(s: string): seq<int> {
    seq(|s|, i requires 0 <= i < |s| => s[i] as int)
  }

  /** Texts compared by code points, which is how their UTF-8 bytes compare. */
  predicate TextLess(a: string, b: string) {
    KeyOrder.LexLess(Codes(a), Codes(b))
  }

  predicate TextGreater(a: string, b: string) {
    TextLess(b, a)
  }

  /** Two texts agree up to some position, and there `a` ends or has the smaller character. */
  ghost predicate Precedes(a: string, b: string) {
    exists k | 0 <= k <= |a| && k <= |b| ::
      a[..k] == b[..k] && (k == |a| < |b| || (k < |a| && k < |b| && a[k] < b[k]))
  }

  lemma SamePrefix(a: string, b: string, k: nat)
    requires k <= |a| && k <= |b|
    ensures Codes(a)[..k] == Codes(b)[..k] <==> a[..k] == b[..k]
  {
    assert Codes(a)[..k] == Codes(a[..k]) && Codes(b)[..k] == Codes(b[..k]);
    if Codes(a[..k]) == Codes(b[..k]) {
      CodesInjective(a[..k], b[..k]);
    }
  }

  lemma TextLessIs(a: string, b: string)
    ensures TextLess(a, b) <==> Precedes(a, b)
  {
    var (x, y) := (Codes(a), Codes(b));
    KeyOrder.LexLessIs(x, y);
    forall k | 0 <= k <= |a| && k <= |b| ensures x[..k] == y[..k] <==> a[..k] == b[..k] {
      SamePrefix(a, b, k);
    }
    if Precedes(a, b) {
      var k :| 0 <= k <= |a| && k <= |b| && a[..k] == b[..k] && (k == |a| < |b| || (k < |a| && k < |b| && a[k] < b[k]));
      assert x[..k] == y[..k];
    }
    if KeyOrder.Precedes(x, y) {
      var k :| 0 <= k <= |x| && k <= |y| && x[..k] == y[..k] && (k == |x| < |y| || (k < |x| && k < |y| && x[k] < y[k]));
      assert a[..k] == b[..k];
    }
  }

  lemma CodesInjective(a: string, b: string)
    requires Codes(a) == Codes(b)
    ensures a == b
  {
    forall i | 0 <= i < |a| ensures a[i] == b[i] {
      assert Codes(a)[i] == Codes(b)[i];
    }
  }

  lemma TextOrders()
    ensures StrictTotal(TextLess) && StrictTotal(TextGreater)
  {
    forall a: string ensures !TextLess(a, a) {
      KeyOrder.LexIrreflexive(Codes(a));
    }
    forall a: string, b: string, c: string | TextLess(a, b) && TextLess(b, c) ensures TextLess(a, c) {
      KeyOrder.LexTransitive(Codes(a), Codes(b), Codes(c));
    }
    forall a: string, b: string ensures TextLess(a, b) || a == b || TextLess(b, a) {
      KeyOrder.LexTotal(Codes(a), Codes(b));
      if Codes(a) == Codes(b) {
        CodesInjective(a, b);
      }
    }
  }
}
