/** The index agrees with the receipts it was built from. */
module IndexAgreement {
  import opened Prelude
  import opened Record
  import opened Paths
  import opened Expand
  import opened Index

  // ---------- Path texts ----------

  /** A path whose text determines it. */
  predicate Plain(p: Path) {
    p != [] && forall i | 0 <= i < |p| :: '/' !in p[i]
  }

  function FirstSlash(s: string): (k: nat)
    ensures k <= |s|
  {
    if s == "" || s[0] == '/' then 0 else 1 + FirstSlash(s[1..])
  }

  lemma {:induction false} SlashAfter(a: string, b: string)
    requires '/' !in a && (b == "" || b[0] == '/')
    ensures FirstSlash(a + b) == |a|
  {
    if a == "" {
      assert a + b == b;
    } else {
      assert (a + b)[1..] == a[1..] + b;
      SlashAfter(a[1..], b);
    }
  }

  lemma {:induction false} JoinIsInjective(p: Path, q: Path)
    requires Plain(p) && Plain(q) && Join(p) == Join(q)
    ensures p == q
  {
    JoinSplits(p);
    JoinSplits(q);
    if |p| > 1 && |q| > 1 {
      JoinIsInjective(p[1..], q[1..]);
      assert p == [p[0]] + p[1..] && q == [q[0]] + q[1..];
    }
  }

  lemma JoinSplits(p: Path)
    requires Plain(p)
    ensures var (s, k) := (Join(p), FirstSlash(Join(p)));
            s[..k] == p[0] && (|p| == 1 <==> k == |s|) && (|p| > 1 ==> s[k + 1..] == Join(p[1..]))
  {
    if |p| == 1 {
      SlashAfter(p[0], "");
      assert p[0] + "" == p[0];
    } else {
      SlashAfter(p[0], "/" + Join(p[1..]));
      assert Join(p) == p[0] + ("/" + Join(p[1..]));
    }
  }

  // ---------- Agreement with the receipts on disk ----------

  ghost predicate PlainReceipts(t: Tree) {
    forall p | p in t.files && IsReceipt(p) :: Plain(p)
  }

  predicate SameButTime(a: Row, b: Row) {
    a == b.(indexedAt := a.indexedAt)
  }

  /** A receipt of the tree that a scan of `dir` finds. */
  predicate Scannable(t: Tree, dir: Path, p: Path) {
    IsReceiptFile(t, p) && Under(dir, p, true)
  }

  /** There is one row per receipt under `dir`, and it is the row of that receipt. */
  ghost predicate Derived(t: Tree, dir: Path, table: Table) {
    && WellKeyed(table)
    && (forall p | p in t.files && Scannable(t, dir, p) ::
          Join(p) in table && SameButTime(table[Join(p)], RowOf(ReadReceipt(t.files[p]).value, p, "")))
    && (forall k | k in table :: exists p | p in t.files :: Scannable(t, dir, p) && Join(p) == k)
  }

  lemma {:induction false} ReceiptsAre(t: Tree, ps: seq<Path>)
    ensures forall i | 0 <= i < |Receipts(t, ps)| ::
              var (p, r) := Receipts(t, ps)[i]; p in ps && IsReceiptFile(t, p) && Some(r) == ReadReceipt(t.files[p])
    ensures forall p | p in ps && IsReceiptFile(t, p) :: (p, ReadReceipt(t.files[p]).value) in Receipts(t, ps)
  {
    hide IsReceipt, ReadReceipt;
    if ps != [] {
      ReceiptsAre(t, ps[1..]);
      assert ps == [ps[0]] + ps[1..];
    }
  }

  lemma StampedAre(t: Tree, ps: seq<Path>, clock: Path -> string)
    ensures
      var rs := Stamped(Receipts(t, ps), clock);
      && (forall i | 0 <= i < |rs| ::
            rs[i].path in ps && IsReceiptFile(t, rs[i].path) && Some(rs[i].record) == ReadReceipt(t.files[rs[i].path]))
      && (forall p | p in ps && IsReceiptFile(t, p) :: exists j | 0 <= j < |rs| :: rs[j].path == p)
  {
    hide IsReceipt, ReadReceipt;
    ReceiptsAre(t, ps);
    var (found, rs) := (Receipts(t, ps), Stamped(Receipts(t, ps), clock));
    forall p | p in ps && IsReceiptFile(t, p) ensures exists j | 0 <= j < |rs| :: rs[j].path == p {
      var j :| 0 <= j < |found| && found[j] == (p, ReadReceipt(t.files[p]).value);
      assert rs[j].path == p;
    }
  }

  /** The last insert under a key. */
  lemma {:induction false} LastWithKey(rs: seq<Insertion>, k: string) returns (i: nat)
    requires exists j | 0 <= j < |rs| :: Join(rs[j].path) == k
    ensures i < |rs| && Join(rs[i].path) == k && forall j | i < j < |rs| :: Join(rs[j].path) != k
    decreases |rs|
  {
    hide Join;
    var last := |rs| - 1;
    if Join(rs[last].path) == k {
      i := last;
    } else {
      var j :| 0 <= j < |rs| && Join(rs[j].path) == k;
      assert rs[..last][j] == rs[j];
      i := LastWithKey(rs[..last], k);
      assert forall m | i < m < last :: rs[..last][m] == rs[m];
    }
  }

  /** A rebuild derives the table from the receipts, whatever it held before. */
  lemma RebuildIsDerived(t: Tree, l: Listing, dir: Path, clock: Path -> string)
    requires WellFormed(t) && Lists(t, l) && PlainReceipts(t)
    requires Collect(t, l, dir, true).Ok?
    ensures Derived(t, dir, UpsertAll(map[], Stamped(Receipts(t, Collect(t, l, dir, true).value), clock)))
  {
    hide IsReceipt, ReadReceipt, RowOf, Join, Collect, Lists, WellFormed, Plain, Under;
    var ps := Collect(t, l, dir, true).value;
    var rs := Stamped(Receipts(t, ps), clock);
    var table := UpsertAll(map[], rs);
    CollectIs(t, l, dir, true);
    LatestInsertStands(map[], rs, "");
    forall p | p in t.files && Scannable(t, dir, p)
      ensures Join(p) in table && SameButTime(table[Join(p)], RowOf(ReadReceipt(t.files[p]).value, p, ""))
    {
      RebuiltRow(t, ps, clock, p);
    }
    forall k | k in table ensures exists p | p in t.files :: Scannable(t, dir, p) && Join(p) == k {
      RebuiltKey(t, ps, clock, k);
      var p :| p in ps && IsReceiptFile(t, p) && Join(p) == k;
      assert Scannable(t, dir, p);
    }
  }

  lemma RebuiltKey(t: Tree, ps: seq<Path>, clock: Path -> string, k: string)
    requires k in UpsertAll(map[], Stamped(Receipts(t, ps), clock))
    ensures exists p | p in ps :: IsReceiptFile(t, p) && Join(p) == k
  {
    hide IsReceiptFile, Join, UpsertAll, RowOf;
    var rs := Stamped(Receipts(t, ps), clock);
    StampedAre(t, ps, clock);
    LatestInsertStands(map[], rs, k);
    var i :| 0 <= i < |rs| && Join(rs[i].path) == k;
    assert rs[i].path in ps;
  }

  lemma RebuiltRow(t: Tree, ps: seq<Path>, clock: Path -> string, p: Path)
    requires PlainReceipts(t) && p in ps && IsReceiptFile(t, p)
    ensures
      var table := UpsertAll(map[], Stamped(Receipts(t, ps), clock));
      Join(p) in table && SameButTime(table[Join(p)], RowOf(ReadReceipt(t.files[p]).value, p, ""))
  {
    hide IsReceipt, ReadReceipt, Join, Plain, UpsertAll, Receipts;
    var rs := Stamped(Receipts(t, ps), clock);
    StampedAre(t, ps, clock);
    LatestInsertStands(map[], rs, Join(p));
    var j :| 0 <= j < |rs| && rs[j].path == p;
    assert Join(rs[j].path) == Join(p);
    var i := LastWithKey(rs, Join(p));
    JoinIsInjective(rs[i].path, p);
  }

  /** Writing a receipt and inserting its row keeps the agreement. */
  lemma SealKeepsDerived(t: Tree, dir: Path, table: Table, p: Path, r: SealedRecord, at: string)
    requires Derived(t, dir, table) && PlainReceipts(t)
    requires Writable(r) && IsReceipt(p) && Plain(p) && Under(dir, p, true)
    ensures Derived(t.(files := t.files[p := ReceiptBytes(r)]), dir, Upsert(table, RowOf(r, p, at)))
  {
    hide IsReceipt, ReadReceipt, ReceiptBytes, Join, Plain, Under, RowOf, WellKeyed, Scannable, SameButTime, Upsert;
    var t' := t.(files := t.files[p := ReceiptBytes(r)]);
    ReceiptReadsBack(r);
    UpsertKeyed(table, r, p, at);
    NewReceipt(t, dir, p, r, at);
    forall q | q in t.files && q != p && IsReceipt(q) ensures Join(q) != Join(p) {
      if Join(q) == Join(p) {
        JoinIsInjective(p, q);
      }
    }
    forall q | q in t'.files && q != p ensures Scannable(t', dir, q) <==> Scannable(t, dir, q) {
      SameFileScans(t, t', dir, q);
    }
    forall q | q in t.files && Scannable(t, dir, q) ensures IsReceipt(q) {
      ScannedIsReceipt(t, dir, q);
    }
  }

  lemma NewReceipt(t: Tree, dir: Path, p: Path, r: SealedRecord, at: string)
    requires ReadReceipt(ReceiptBytes(r)) == Some(r) && IsReceipt(p) && Under(dir, p, true)
    ensures Scannable(t.(files := t.files[p := ReceiptBytes(r)]), dir, p)
    ensures SameButTime(RowOf(r, p, at), RowOf(r, p, ""))
  {
    hide IsReceipt, ReadReceipt, ReceiptBytes, Join, Under;
  }

  lemma SameFileScans(t: Tree, t': Tree, dir: Path, q: Path)
    requires q in t.files && q in t'.files && t.files[q] == t'.files[q]
    ensures Scannable(t', dir, q) <==> Scannable(t, dir, q)
  {
    hide IsReceipt, ReadReceipt;
  }

  lemma ScannedIsReceipt(t: Tree, dir: Path, q: Path)
    requires q in t.files && Scannable(t, dir, q)
    ensures IsReceipt(q)
  {
    hide ReadReceipt;
  }

  /** Writing any other file that is not a receipt keeps it too. */
  lemma OtherFilesKeepDerived(t: Tree, dir: Path, table: Table, p: Path, content: Bytes)
    requires Derived(t, dir, table) && !IsReceipt(p)
    ensures Derived(t.(files := t.files[p := content]), dir, table)
  {
    hide IsReceipt, ReadReceipt, RowOf, Join, Under;
    var t' := t.(files := t.files[p := content]);
    assert forall q | q in t.files && Scannable(t, dir, q) :: q in t'.files && Scannable(t', dir, q);
    assert forall q | q in t'.files && Scannable(t', dir, q) :: Scannable(t, dir, q);
  }

  /** Two tables derived from the same receipts have the same rows but for the
      time of indexing. */
  lemma DerivedIsUnique(t: Tree, dir: Path, a: Table, b: Table)
    requires Derived(t, dir, a) && Derived(t, dir, b)
    ensures a.Keys == b.Keys && forall k | k in a :: SameButTime(a[k], b[k])
  {
    hide IsReceipt, ReadReceipt, RowOf, Join, Under, WellKeyed, Scannable;
    forall k | k in a ensures k in b && SameButTime(a[k], b[k]) {
      var p :| p in t.files && Scannable(t, dir, p) && Join(p) == k;
    }
    forall k | k in b ensures k in a {
      var p :| p in t.files && Scannable(t, dir, p) && Join(p) == k;
    }
  }

  // ---------- Runs ----------

  /** A receipt written and indexed under its path, or a rebuild with the order
      in which the directories are listed. */
  datatype Event = Sealed(path: Path, record: SealedRecord, at: string) | Rebuilt(listing: Listing, clock: Path -> string)

  function Step(t: Tree, table: Table, dir: Path, e: Event): (r: (Tree, Table))
    ensures r.0.dirs == t.dirs
  {
    match e
    case Sealed(p, r, at) => (t.(files := t.files[p := ReceiptBytes(r)]), Upsert(table, RowOf(r, p, at)))
    case Rebuilt(l, clock) =>
      match Scanned(t, Collect(t, l, dir, true))
      case Err(_) => (t, table)
      case Ok(rs) => (t, UpsertAll(map[], Stamped(rs, clock)))
  }

  /** The event can happen: receipts go to new or existing files in directories
      under `dir`, and a rebuild lists the tree as it is. */
  ghost predicate Possible(t: Tree, dir: Path, e: Event) {
    match e
    case Sealed(p, r, at) =>
      Writable(r) && IsReceipt(p) && Plain(p) && Under(dir, p, true) && p !in t.dirs && (|p| > 1 ==> p[..|p| - 1] in t.dirs)
    case Rebuilt(l, clock) => Lists(t, l)
  }

  ghost predicate AllPossible(t: Tree, table: Table, dir: Path, es: seq<Event>)
    decreases |es|
  {
    es == [] || (Possible(t, dir, es[0]) && AllPossible(Step(t, table, dir, es[0]).0, Step(t, table, dir, es[0]).1, dir, es[1..]))
  }

  function Run(t: Tree, table: Table, dir: Path, es: seq<Event>): (r: (Tree, Table))
    ensures r.0.dirs == t.dirs
    decreases |es|
  {
    if es == [] then (t, table) else Run(Step(t, table, dir, es[0]).0, Step(t, table, dir, es[0]).1, dir, es[1..])
  }

  lemma StepKeepsDerived(t: Tree, table: Table, dir: Path, e: Event)
    requires WellFormed(t) && PlainReceipts(t) && Derived(t, dir, table) && Possible(t, dir, e)
    ensures var (t', table') := Step(t, table, dir, e); WellFormed(t') && PlainReceipts(t') && Derived(t', dir, table')
  {
    hide Derived, Collect, Receipts, IsReceipt, ReceiptBytes, RowOf, Under, Lists, UpsertAll, Upsert;
    match e
    case Sealed(p, r, at) => SealKeepsDerived(t, dir, table, p, r, at);
    case Rebuilt(l, clock) =>
      if Collect(t, l, dir, true).Ok? {
        RebuildIsDerived(t, l, dir, clock);
      }
  }

  /** Agreement over runs: however receipts are sealed, resealed and the index
      rebuilt, it stays derived from the receipts on disk. */
  lemma {:induction false} RunKeepsDerived(t: Tree, table: Table, dir: Path, es: seq<Event>)
    requires WellFormed(t) && PlainReceipts(t) && Derived(t, dir, table)
    requires AllPossible(t, table, dir, es)
    ensures var (t', table') := Run(t, table, dir, es); WellFormed(t') && PlainReceipts(t') && Derived(t', dir, table')
    decreases |es|
  {
    hide Derived, Step, Possible, WellFormed, PlainReceipts;
    if es != [] {
      StepKeepsDerived(t, table, dir, es[0]);
      RunKeepsDerived(Step(t, table, dir, es[0]).0, Step(t, table, dir, es[0]).1, dir, es[1..]);
    }
  }

  /** After such a run a rebuild, whatever table it starts from, gives the same
      rows but for the time of indexing. */
  lemma RebuildReproduces(t: Tree, table: Table, dir: Path, es: seq<Event>, l: Listing, clock: Path -> string)
    requires WellFormed(t) && PlainReceipts(t) && Derived(t, dir, table)
    requires AllPossible(t, table, dir, es)
    requires Lists(Run(t, table, dir, es).0, l)
    requires Collect(Run(t, table, dir, es).0, l, dir, true).Ok?
    ensures
      var (t', before) := Run(t, table, dir, es);
      var after := UpsertAll(map[], Stamped(Receipts(t', Collect(t', l, dir, true).value), clock));
      after.Keys == before.Keys && forall k | k in before :: SameButTime(before[k], after[k])
  {
    hide Derived, Run, AllPossible, Collect, Receipts, UpsertAll, WellFormed, PlainReceipts, Lists, SameButTime;
    RunKeepsDerived(t, table, dir, es);
    var (t', before) := Run(t, table, dir, es);
    RebuildIsDerived(t', l, dir, clock);
    DerivedIsUnique(t', dir, before, UpsertAll(map[], Stamped(Receipts(t', Collect(t', l, dir, true).value), clock)));
  }
}
