/** The local receipt index: a table keyed by receipt path, derived from the
    receipts on disk. */
module Index {
  import opened Prelude
  import opened JsonAccess
  import opened Record
  import opened Paths
  import opened Expand
  import Artifact
  import Json
  import JsonBytes
  import Sorting

  datatype Row = Row(
    artifactPath: string, artifactSha256: string, sealedAt: string, layers: seq<string>, receiptPath: string,
    indexedAt: string)

  type Table = map<string, Row>

  function TextAt(v: Json.Json, key: string): string {
    var t := AsString(Field(v, key));
    if t.Some? then t.value else ""
  }

  /** The row of a receipt written at `path`, indexed at time `at`. */
  function RowOf(r: SealedRecord, path: Path, at: string): Row {
    Row(TextAt(r.payload, "path"), TextAt(r.payload, "artifactSha256"), r.seal.sealedAt, Artifact.PresentLayers(r.seal),
        Join(path), at)
  }

  function Upsert(t: Table, row: Row): Table {
    t[row.receiptPath := row]
  }

  function ReadReceipt(content: Bytes): Option<SealedRecord> {
    match JsonBytes.FromBytes(content)
    case None => None
    case Some(v) => RecordFromJson(v)
  }

  function ReceiptBytes(r: SealedRecord): Bytes {
    JsonBytes.ToBytes(RecordJson(r))
  }

  lemma ReceiptReadsBack(r: SealedRecord)
    requires Writable(r)
    ensures ReadReceipt(ReceiptBytes(r)) == Some(r)
  {
    hide RecordJson, RecordFromJson, JsonBytes.FromBytes, JsonBytes.ToBytes;
    RecordRoundTrip(r);
    JsonBytes.FromBytesOfToBytes(RecordJson(r));
  }

  // ---------- Scanning ----------

  predicate IsReceiptFile(t: Tree, p: Path) {
    IsReceipt(p) && p in t.files && ReadReceipt(t.files[p]).Some?
  }

  /** The receipts among some paths, parsed; anything else is skipped. */
  function Receipts(t: Tree, ps: seq<Path>): seq<(Path, SealedRecord)> {
    if ps == [] then
      []
    else
      (if IsReceiptFile(t, ps[0]) then [(ps[0], ReadReceipt(t.files[ps[0]]).value)] else []) + Receipts(t, ps[1..])
  }

  function Scanned(t: Tree, r: Result<seq<Path>, int>): Result<seq<(Path, SealedRecord)>, int> {
    match r
    case Err(e) => Err(e)
    case Ok(ps) => Ok(Receipts(t, ps))
  }

  lemma {:induction false} ReceiptsAppend(t: Tree, ps: seq<Path>, qs: seq<Path>)
    ensures Receipts(t, ps + qs) == Receipts(t, ps) + Receipts(t, qs)
  {
    hide IsReceiptFile;
    if ps == [] {
      assert ps + qs == qs;
    } else {
      assert (ps + qs)[1..] == ps[1..] + qs;
      ReceiptsAppend(t, ps[1..], qs);
    }
  }

  lemma ScannedOnto(t: Tree, first: seq<Path>, r: Result<seq<Path>, int>)
    ensures Scanned(t, Onto(first, r)) == Onto(Receipts(t, first), Scanned(t, r))
  {
    if r.Ok? {
      ReceiptsAppend(t, first, r.value);
    }
  }

  /** Walk the directory depth first, appending the receipts that parse. */
  method ScanInto(t: Tree, l: Listing, dir: Path, out: seq<(Path, SealedRecord)>)
    returns (r: Result<seq<(Path, SealedRecord)>, int>)
    ensures r == Onto(out, Scanned(t, Collect(t, l, dir, true)))
    decreases |Below(t, dir)|
  {
    hide IsReceipt, ReadReceipt;
    if dir !in t.dirs || dir in t.unreadable {
      return Err(EXIT_SCHEMA);
    }
    var names, all := l(dir), out;
    for i := 0 to |names|
      invariant Onto(out, Scanned(t, CollectEntries(t, l, dir, true, names))) ==
                Onto(all, Scanned(t, CollectEntries(t, l, dir, true, names[i..])))
    {
      var path := dir + [names[i]];
      var rest := names[i + 1..];
      assert names[i..][0] == names[i] && names[i..][1..] == rest;
      ghost var entry := CollectEntry(t, l, dir, true, names[i]);
      ghost var after := CollectEntries(t, l, dir, true, rest);
      if path in t.dirs {
        BelowShrinks(t, dir, names[i]);
        var sub := ScanInto(t, l, path, all);
        if sub.Err? {
          return sub;
        }
        ScannedOnto(t, entry.value, after);
        OntoTwice(all, Receipts(t, entry.value), Scanned(t, after));
        all := sub.value;
      } else {
        ScannedOnto(t, [path], after);
        OntoTwice(all, Receipts(t, [path]), Scanned(t, after));
        OneReceipt(t, path);
        if IsReceiptFile(t, path) {
          all := all + [(path, ReadReceipt(t.files[path]).value)];
        } else {
          assert all + [] == all;
        }
      }
    }
    assert all + [] == all;
    return Ok(all);
  }

  lemma OneReceipt(t: Tree, p: Path)
    ensures Receipts(t, [p]) == if IsReceiptFile(t, p) then [(p, ReadReceipt(t.files[p]).value)] else []
  {
    assert [p][1..] == [];
  }

  // ---------- The table ----------

  /** A receipt to index, and the time at which it is indexed. */
  datatype Insertion = Insertion(path: Path, record: SealedRecord, at: string)

  /** Insert the rows of some receipts in turn. */
  function UpsertAll(t: Table, rs: seq<Insertion>): Table
    decreases |rs|
  {
    if rs == [] then t else UpsertAll(Upsert(t, RowOf(rs[0].record, rs[0].path, rs[0].at)), rs[1..])
  }

  /** The receipts of a scan, each indexed at the time the clock shows for it. */
  function Stamped(rs: seq<(Path, SealedRecord)>, clock: Path -> string): seq<Insertion> {
    seq(|rs|, i requires 0 <= i < |rs| => Insertion(rs[i].0, rs[i].1, clock(rs[i].0)))
  }

  /** Every row is stored under its own path. */
  ghost predicate WellKeyed(t: Table) {
    forall k | k in t :: t[k].receiptPath == k
  }

  lemma UpsertKeyed(t: Table, r: SealedRecord, p: Path, at: string)
    requires WellKeyed(t)
    ensures WellKeyed(Upsert(t, RowOf(r, p, at)))
    ensures Upsert(t, RowOf(r, p, at)) == t[Join(p) := RowOf(r, p, at)]
  {
    hide Join;
  }

  /** After any inserts, each at its own time, there is one row per receipt path:
      that of the latest insert, or the row that was there. */
  lemma {:induction false} LatestInsertStands(t: Table, rs: seq<Insertion>, k: string)
    requires WellKeyed(t)
    ensures WellKeyed(UpsertAll(t, rs))
    ensures k in UpsertAll(t, rs) <==> k in t || exists i | 0 <= i < |rs| :: Join(rs[i].path) == k
    ensures (forall i | 0 <= i < |rs| :: Join(rs[i].path) != k) && k in t ==> UpsertAll(t, rs)[k] == t[k]
    ensures forall i | 0 <= i < |rs| && Join(rs[i].path) == k && (forall j | i < j < |rs| :: Join(rs[j].path) != k) ::
              UpsertAll(t, rs)[k] == RowOf(rs[i].record, rs[i].path, rs[i].at)
    decreases |rs|
  {
    hide Join, RowOf, WellKeyed, Upsert;
    if rs != [] {
      var next := Upsert(t, RowOf(rs[0].record, rs[0].path, rs[0].at));
      UpsertKeyed(t, rs[0].record, rs[0].path, rs[0].at);
      LatestInsertStands(next, rs[1..], k);
      assert forall i | 0 < i < |rs| :: rs[1..][i - 1] == rs[i];
    }
  }

  // ---------- Listing and finding ----------

  function RowKey(r: Row): (string, string) {
    (r.sealedAt, r.receiptPath)
  }

  /** Latest first, then by path. */
  predicate KeyLess(a: (string, string), b: (string, string)) {
    Sorting.TextGreater(a.0, b.0) || (a.0 == b.0 && Sorting.TextLess(a.1, b.1))
  }

  function Stored(t: Table, scan: seq<string>): seq<Row>
    requires forall k | k in scan :: k in t
  {
    seq(|scan|, i requires 0 <= i < |scan| => t[scan[i]])
  }

  function Listed(t: Table, scan: seq<string>): seq<Row>
    requires forall k | k in scan :: k in t
  {
    Sorting.Sort(Stored(t, scan), Sorting.By(RowKey, KeyLess))
  }

  predicate Contains(s: string, part: string) {
    part <= s || (s != "" && Contains(s[1..], part))
  }

  /** A substring of the artifact path, a prefix of the hash, or a layer name. */
  predicate Matches(lower: string -> string, needle: string, r: Row) {
    Contains(lower(r.artifactPath), needle) || needle <= lower(r.artifactSha256) || needle in r.layers
  }

  function Filter(lower: string -> string, needle: string, rows: seq<Row>): seq<Row> {
    if rows == [] then
      []
    else
      (if Matches(lower, needle, rows[0]) then [rows[0]] else []) + Filter(lower, needle, rows[1..])
  }

  lemma KeysAreOrdered()
    ensures Sorting.StrictTotal(KeyLess)
  {
    hide Sorting.TextLess;
    Sorting.TextOrders();
  }

  /** The list holds exactly the rows of the table, each once, latest first and
      then by path, in whatever order they are stored. */
  lemma ListIs(t: Table, scan: seq<string>)
    requires WellKeyed(t) && Sorting.Distinct(scan) && forall k :: k in scan <==> k in t
    ensures Sorting.Ascending(Sorting.Map(RowKey, Listed(t, scan)), KeyLess)
    ensures forall r :: r in Listed(t, scan) <==> r.receiptPath in t && t[r.receiptPath] == r
  {
    hide KeyLess, Sorting.Sort;
    KeysAreOrdered();
    var keys := seq(|scan|, i requires 0 <= i < |scan| => RowKey(t[scan[i]]));
    var f := (k: (string, string)) => if k.1 in t then t[k.1] else Row("", "", "", [], "", "");
    assert Sorting.Map(f, keys) == Stored(t, scan);
    forall x | x in keys ensures RowKey(f(x)) == x {
      var i :| 0 <= i < |keys| && keys[i] == x;
      assert t[scan[i]].receiptPath == scan[i];
    }
    forall i, j | 0 <= i < j < |keys| ensures keys[i] != keys[j] {
      assert keys[i].1 == scan[i] && keys[j].1 == scan[j];
    }
    Sorting.SortByKey(keys, f, RowKey, KeyLess);
    Sorting.SortDistinct(keys, KeyLess);
    Sorting.SortSorts(keys, KeyLess);
    var sorted := Sorting.Sort(keys, KeyLess);
    forall i | 0 <= i < |sorted| ensures RowKey(f(sorted[i])) == sorted[i] {
      assert sorted[i] in keys;
    }
    assert Sorting.Map(RowKey, Listed(t, scan)) == sorted;
    forall r ensures r in Listed(t, scan) <==> r.receiptPath in t && t[r.receiptPath] == r {
      ListedRow(t, scan, keys, f, sorted, r);
    }
  }

  lemma ListedRow(t: Table, scan: seq<string>, keys: seq<(string, string)>, f: ((string, string)) -> Row,
                  sorted: seq<(string, string)>, r: Row)
    requires WellKeyed(t) && |keys| == |scan| && forall k :: k in scan <==> k in t
    requires forall i | 0 <= i < |scan| :: keys[i] == RowKey(t[scan[i]]) && f(keys[i]) == t[scan[i]]
    requires forall x :: x in sorted <==> x in keys
    ensures r in Sorting.Map(f, sorted) <==> r.receiptPath in t && t[r.receiptPath] == r
  {
    if r in Sorting.Map(f, sorted) {
      var i :| 0 <= i < |sorted| && f(sorted[i]) == r;
      assert sorted[i] in keys;
      var j :| 0 <= j < |keys| && keys[j] == sorted[i];
      assert r == t[scan[j]] && scan[j] in t;
    }
    if r.receiptPath in t && t[r.receiptPath] == r {
      var j :| 0 <= j < |scan| && scan[j] == r.receiptPath;
      assert keys[j] in sorted;
      var i :| 0 <= i < |sorted| && sorted[i] == keys[j];
      assert Sorting.Map(f, sorted)[i] == r;
    }
  }

  /** The search keeps exactly the matching rows, in their order. */
  lemma {:induction false} FindIs(lower: string -> string, needle: string, rows: seq<Row>)
    ensures Sorting.IsSubsequence(Filter(lower, needle, rows), rows)
    ensures forall r :: r in Filter(lower, needle, rows) <==> r in rows && Matches(lower, needle, r)
  {
    hide Matches;
    if rows != [] {
      FindIs(lower, needle, rows[1..]);
      assert rows == [rows[0]] + rows[1..];
      var rest := Filter(lower, needle, rows[1..]);
      var found := Filter(lower, needle, rows);
      if Matches(lower, needle, rows[0]) {
        assert found == [rows[0]] + rest && found[1..] == rest;
      } else {
        assert found == rest;
      }
    }
  }

  lemma FilterOfNothing(lower: string -> string, needle: string)
    ensures Filter(lower, needle, []) == []
  {
  }

  lemma FilterStep(lower: string -> string, needle: string, found: seq<Row>, all: seq<Row>, i: nat)
    requires i < |all|
    ensures found + Filter(lower, needle, all[i..]) ==
      (if Matches(lower, needle, all[i]) then found + [all[i]] else found) + Filter(lower, needle, all[i + 1..])
  {
    hide Matches;
    assert all[i..][0] == all[i] && all[i..][1..] == all[i + 1..];
    var rest := Filter(lower, needle, all[i + 1..]);
    assert found + ([all[i]] + rest) == found + [all[i]] + rest;
  }

  // ---------- What is in a row, and what finds it ----------

  /** A row says what the receipt records: name, hash, time and layers. */
  lemma RowSays(r: SealedRecord, path: Path, at: string)
    ensures
      var row := RowOf(r, path, at);
      && (AsString(Field(r.payload, "path")).Some? ==> Some(row.artifactPath) == AsString(Field(r.payload, "path")))
      && (AsString(Field(r.payload, "artifactSha256")).Some? ==>
            Some(row.artifactSha256) == AsString(Field(r.payload, "artifactSha256")))
      && (AsString(Field(r.payload, "path")).None? ==> row.artifactPath == "")
      && (AsString(Field(r.payload, "artifactSha256")).None? ==> row.artifactSha256 == "")
      && row.sealedAt == r.seal.sealedAt && row.receiptPath == Join(path) && row.indexedAt == at
      && forall layer :: layer in row.layers <==> Artifact.Carries(r.seal, layer)
  {
    hide Artifact.PresentLayers, Artifact.Carries, Join;
    Artifact.PresentLayersAre(r.seal);
  }

  ghost predicate IsPart(part: string, s: string) {
    exists before, after :: s == before + part + after
  }

  lemma {:induction false} ContainsIs(s: string, part: string)
    ensures Contains(s, part) <==> IsPart(part, s)
  {
    if part <= s {
      assert s == "" + part + s[|part|..];
    }
    if s != "" {
      ContainsIs(s[1..], part);
      if IsPart(part, s[1..]) {
        var before, after :| s[1..] == before + part + after;
        assert s == [s[0]] + before + part + after;
      }
    }
    if IsPart(part, s) {
      var before, after :| s == before + part + after;
      if before == "" {
        assert s[..|part|] == part;
      } else {
        assert s[1..] == before[1..] + part + after;
      }
    }
  }

  /** A query finds a row exactly by a part of its name, by the beginning of its
      hash, or by the name of a layer. */
  lemma FoundBy(lower: string -> string, query: string, t: Table, scan: seq<string>, row: Row)
    requires WellKeyed(t) && Sorting.Distinct(scan) && forall k :: k in scan <==> k in t
    requires row.receiptPath in t && t[row.receiptPath] == row
    ensures
      var (needle, name, hash) := (lower(query), lower(row.artifactPath), lower(row.artifactSha256));
      row in Filter(lower, needle, Listed(t, scan)) <==>
        IsPart(needle, name) ||
        (|needle| <= |hash| && hash[..|needle|] == needle) || needle in row.layers
  {
    hide Contains, Listed, Filter, WellKeyed, IsPart;
    FindIs(lower, lower(query), Listed(t, scan));
    ListIs(t, scan);
    ContainsIs(lower(row.artifactPath), lower(query));
  }

  /** In the list a later time comes first, and at equal times the smaller path. */
  lemma ListOrder(t: Table, scan: seq<string>, i: nat, j: nat)
    requires WellKeyed(t) && Sorting.Distinct(scan) && forall k :: k in scan <==> k in t
    requires i < j < |Listed(t, scan)|
    ensures
      var (a, b) := (Listed(t, scan)[i], Listed(t, scan)[j]);
      Sorting.Precedes(b.sealedAt, a.sealedAt) ||
      (a.sealedAt == b.sealedAt && Sorting.Precedes(a.receiptPath, b.receiptPath))
  {
    hide Listed, WellKeyed, Sorting.TextLess, Sorting.Precedes;
    ListIs(t, scan);
    var (a, b) := (Listed(t, scan)[i], Listed(t, scan)[j]);
    var keys := Sorting.Map(RowKey, Listed(t, scan));
    assert KeyLess(keys[i], keys[j]);
    Sorting.TextLessIs(b.sealedAt, a.sealedAt);
    Sorting.TextLessIs(a.receiptPath, b.receiptPath);
  }

  class Index {
    var table: Table

    ghost predicate Valid()
      reads this
    {
      WellKeyed(table)
    }

    constructor ()
      ensures Valid() && table == map[]
    {
      table := map[];
    }

    /** Record a receipt, refreshing the row of its path if there is one. */
    method Insert(r: SealedRecord, path: Path, at: string)
      requires Valid()
      modifies this
      ensures Valid() && table == Upsert(old(table), RowOf(r, path, at))
    {
      UpsertKeyed(table, r, path, at);
      table := table[Join(path) := RowOf(r, path, at)];
    }

    /** Replace the table by the receipts under `dir`. If the scan fails nothing
        changes. */
    method Rebuild(t: Tree, l: Listing, dir: Path, clock: Path -> string) returns (count: Option<nat>)
      requires Valid()
      modifies this
      ensures Valid()
      ensures
        match Scanned(t, Collect(t, l, dir, true))
        case Err(_) => count == None && table == old(table)
        case Ok(rs) => count == Some(|rs|) && table == UpsertAll(map[], Stamped(rs, clock))
    {
      hide RowOf, Receipts;
      var found := ScanInto(t, l, dir, []);
      OntoNothing(Scanned(t, Collect(t, l, dir, true)));
      if found.Err? {
        return None;
      }
      var rs := found.value;
      ghost var all := Stamped(rs, clock);
      table := map[];
      for i := 0 to |rs|
        invariant Valid() && UpsertAll(map[], all) == UpsertAll(table, all[i..])
      {
        assert all[i..][0] == all[i] && all[i..][1..] == all[i + 1..];
        Insert(rs[i].1, rs[i].0, clock(rs[i].0));
      }
      return Some(|rs|);
    }

    /** Every row of the table once, the latest sealed first and then by path,
        whatever the order `scan` in which the rows are stored. */
    method List(scan: seq<string>) returns (rows: seq<Row>)
      requires Valid() && Sorting.Distinct(scan) && forall k :: k in scan <==> k in table
      ensures rows == Listed(table, scan)
      ensures Sorting.Ascending(Sorting.Map(RowKey, rows), KeyLess)
      ensures forall r :: r in rows <==> r.receiptPath in table && table[r.receiptPath] == r
    {
      rows := Sorting.Sort(Stored(table, scan), Sorting.By(RowKey, KeyLess));
      ListIs(table, scan);
    }

    /** The listed rows that match a query, in the order of the list. */
    method Find(lower: string -> string, query: string, scan: seq<string>) returns (found: seq<Row>)
      requires Valid() && Sorting.Distinct(scan) && forall k :: k in scan <==> k in table
      ensures Sorting.IsSubsequence(found, Listed(table, scan))
      ensures forall r :: r in found <==>
                r.receiptPath in table && table[r.receiptPath] == r && Matches(lower, lower(query), r)
    {
      hide Matches, Listed, Filter;
      FilterOfNothing(lower, lower(query));
      var all := List(scan);
      found := [];
      assert all[0..] == all;
      for i := 0 to |all|
        invariant Filter(lower, lower(query), all) == found + Filter(lower, lower(query), all[i..])
      {
        FilterStep(lower, lower(query), found, all, i);
        if Matches(lower, lower(query), all[i]) {
          found := found + [all[i]];
        }
      }
      assert all[|all|..] == [] && found + [] == found;
      FindIs(lower, lower(query), all);
    }
  }
}
