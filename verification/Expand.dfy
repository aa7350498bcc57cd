/** Turning the inputs of a seal run (files, directories, globs) into the list
    of artifacts to seal. */
module Expand {
  import opened Prelude
  import opened Paths
  import Sorting

  const EXIT_USAGE := 2
  const EXIT_SCHEMA := 3

  /** Files with their contents, directories, and the directories that cannot be read. */
  datatype Tree = Tree(files: map<Path, Bytes>, dirs: set<Path>, unreadable: set<Path>)

  /** The names in a directory, in the order the system lists them. */
  type Listing = Path -> seq<string>

  /** The glob library: which patterns it accepts, what they match and in which
      order it reports the existing paths. */
  datatype Globs = Globs(valid: string -> bool, matches: (string, Path) -> bool, found: string -> seq<Path>)

  ghost predicate WellFormed(t: Tree) {
    && t.files.Keys !! t.dirs && [] !in t.files
    && (forall p | p in t.files || p in t.dirs :: |p| > 1 ==> p[..|p| - 1] in t.dirs)
  }

  predicate Exists(t: Tree, p: Path) {
    p in t.files || p in t.dirs
  }

  ghost predicate Lists(t: Tree, l: Listing) {
    forall d, name | d in t.dirs :: name in l(d) <==> Exists(t, d + [name])
  }

  ghost predicate FindsAll(t: Tree, g: Globs) {
    forall pattern, p | g.valid(pattern) && p in t.files :: p in g.found(pattern) <==> g.matches(pattern, p)
  }

  // ---------- The directory walk ----------

  function Below(t: Tree, dir: Path): set<Path> {
    set d | d in t.dirs && dir <= d
  }

  lemma BelowShrinks(t: Tree, dir: Path, name: string)
    requires dir in t.dirs
    ensures |Below(t, dir + [name])| < |Below(t, dir)|
  {
    assert dir in Below(t, dir) && dir !in Below(t, dir + [name]);
    assert Below(t, dir + [name]) < Below(t, dir) by {
      forall d | d in Below(t, dir + [name]) ensures d in Below(t, dir) {
        assert d[..|dir|] == (dir + [name])[..|dir|] == dir;
      }
    }
    SmallerSet(Below(t, dir + [name]), Below(t, dir));
  }

  lemma SmallerSet<T>(a: set<T>, b: set<T>)
    requires a < b
    ensures |a| < |b|
  {
    assert b == a + (b - a);
  }

  /** The files of a directory, with those of its subdirectories if `recursive`;
      what is not a directory, or cannot be read, is an error. */
  function Collect(t: Tree, l: Listing, dir: Path, recursive: bool): Result<seq<Path>, int>
    decreases |Below(t, dir)|, |l(dir)| + 1
  {
    if dir !in t.dirs || dir in t.unreadable then Err(EXIT_SCHEMA) else CollectEntries(t, l, dir, recursive, l(dir))
  }

  function CollectEntry(t: Tree, l: Listing, dir: Path, recursive: bool, name: string): Result<seq<Path>, int>
    requires dir in t.dirs
    decreases |Below(t, dir)|, 0
  {
    var path := dir + [name];
    BelowShrinks(t, dir, name);
    if path !in t.dirs then Ok([path])
    else if recursive then Collect(t, l, path, recursive)
    else Ok([])
  }

  function CollectEntries(t: Tree, l: Listing, dir: Path, recursive: bool, names: seq<string>): Result<seq<Path>, int>
    requires dir in t.dirs
    decreases |Below(t, dir)|, |names|, 1
  {
    if names == [] then
      Ok([])
    else
      match CollectEntry(t, l, dir, recursive, names[0])
      case Err(e) => Err(e)
      case Ok(first) =>
        match CollectEntries(t, l, dir, recursive, names[1..])
        case Err(e) => Err(e)
        case Ok(rest) => Ok(first + rest)
  }

  /** Walk a directory, appending the files to `out`. */
  method CollectDir(t: Tree, l: Listing, dir: Path, recursive: bool, out: seq<Path>) returns (r: Result<seq<Path>, int>)
    ensures r == Onto(out, Collect(t, l, dir, recursive))
    decreases |Below(t, dir)|
  {
    if dir !in t.dirs || dir in t.unreadable {
      return Err(EXIT_SCHEMA);
    }
    var names, all := l(dir), out;
    for i := 0 to |names|
      invariant Onto(out, CollectEntries(t, l, dir, recursive, names)) ==
                Onto(all, CollectEntries(t, l, dir, recursive, names[i..]))
    {
      var path := dir + [names[i]];
      var rest := names[i + 1..];
      assert names[i..][0] == names[i] && names[i..][1..] == rest;
      if path in t.dirs {
        if recursive {
          BelowShrinks(t, dir, names[i]);
          var sub := CollectDir(t, l, path, recursive, all);
          if sub.Err? {
            return sub;
          }
          OntoTwice(all, Collect(t, l, path, recursive).value, CollectEntries(t, l, dir, recursive, rest));
          all := sub.value;
        } else {
          OntoTwice(all, [], CollectEntries(t, l, dir, recursive, rest));
          assert all + [] == all;
        }
      } else {
        OntoTwice(all, [path], CollectEntries(t, l, dir, recursive, rest));
        all := all + [path];
      }
    }
    assert all + [] == all;
    return Ok(all);
  }

  // ---------- What the walk finds ----------

  predicate Under(dir: Path, p: Path, recursive: bool) {
    |p| > |dir| && p[..|dir|] == dir && (recursive || |p| == |dir| + 1)
  }

  /** The walk starts at a directory, and every directory it enters can be read. */
  ghost predicate CanWalk(t: Tree, dir: Path, recursive: bool) {
    dir in t.dirs && dir !in t.unreadable && (recursive ==> forall d | d in t.dirs && Under(dir, d, true) :: d !in t.unreadable)
  }

  lemma {:induction false} EntriesAre(t: Tree, l: Listing, dir: Path, recursive: bool, names: seq<string>)
    requires dir in t.dirs
    ensures
      var r := CollectEntries(t, l, dir, recursive, names);
      (r.Ok? <==> forall i | 0 <= i < |names| :: CollectEntry(t, l, dir, recursive, names[i]).Ok?) &&
      (r.Ok? ==> forall p :: p in r.value <==>
        exists i | 0 <= i < |names| :: p in CollectEntry(t, l, dir, recursive, names[i]).value)
    decreases |names|
  {
    if names != [] {
      EntriesAre(t, l, dir, recursive, names[1..]);
      assert forall i | 0 < i < |names| :: names[1..][i - 1] == names[i];
    }
  }

  /** The walk fails exactly when it meets no directory or an unreadable one, and otherwise
      finds exactly the files under its directory. */
  lemma {:induction false} CollectIs(t: Tree, l: Listing, dir: Path, recursive: bool)
    requires WellFormed(t) && Lists(t, l)
    ensures Collect(t, l, dir, recursive).Ok? <==> CanWalk(t, dir, recursive)
    ensures Collect(t, l, dir, recursive).Ok? ==>
              forall p :: p in Collect(t, l, dir, recursive).value <==> p in t.files && Under(dir, p, recursive)
    decreases |Below(t, dir)|
  {
    hide CollectEntries, WellFormed;
    if dir in t.dirs && dir !in t.unreadable {
      EntriesAre(t, l, dir, recursive, l(dir));
      forall i | 0 <= i < |l(dir)|
        ensures
          var r := CollectEntry(t, l, dir, recursive, l(dir)[i]);
          (r.Ok? <==> CanEnter(t, dir, recursive, l(dir)[i])) &&
          (r.Ok? ==> forall p :: p in r.value <==> p in t.files && Through(dir, p, recursive, l(dir)[i]))
      {
        var path := dir + [l(dir)[i]];
        assert Exists(t, path);
        if path in t.dirs {
          BelowShrinks(t, dir, l(dir)[i]);
          if recursive {
            CollectIs(t, l, path, recursive);
          }
        }
        EntryIs(t, l, dir, recursive, l(dir)[i]);
      }
      WalkSplits(t, l, dir, recursive);
    }
  }

  /** The entry `name` can be walked. */
  ghost predicate CanEnter(t: Tree, dir: Path, recursive: bool, name: string) {
    dir + [name] in t.dirs && recursive ==> CanWalk(t, dir + [name], recursive)
  }

  /** `p` is the entry `name` of the directory, or lies under it. */
  predicate Through(dir: Path, p: Path, recursive: bool, name: string) {
    Under(dir, p, recursive) && p[|dir|] == name
  }

  lemma EntryIs(t: Tree, l: Listing, dir: Path, recursive: bool, name: string)
    requires WellFormed(t) && dir in t.dirs && Exists(t, dir + [name])
    requires dir + [name] in t.dirs && recursive ==>
               (Collect(t, l, dir + [name], recursive).Ok? <==> CanWalk(t, dir + [name], recursive)) &&
               (Collect(t, l, dir + [name], recursive).Ok? ==>
                  forall p :: p in Collect(t, l, dir + [name], recursive).value <==>
                    p in t.files && Under(dir + [name], p, recursive))
    ensures
      var r := CollectEntry(t, l, dir, recursive, name);
      (r.Ok? <==> CanEnter(t, dir, recursive, name)) &&
      (r.Ok? ==> forall p :: p in r.value <==> p in t.files && Through(dir, p, recursive, name))
  {
    hide Collect, CanWalk;
    forall p | p in t.files
      ensures Through(dir, p, recursive, name) <==> p == dir + [name] || (recursive && Under(dir + [name], p, true))
    {
      if Through(dir, p, recursive, name) {
        assert p[..|dir| + 1] == dir + [name];
        assert |p| == |dir| + 1 ==> p == p[..|dir| + 1];
      }
      if Under(dir + [name], p, true) {
        assert p[..|dir|] == p[..|dir| + 1][..|dir|] && p[|dir|] == p[..|dir| + 1][|dir|];
      }
    }
    FilesAreLeaves(t, dir + [name]);
  }

  /** Nothing lies under a file. */
  lemma FilesAreLeaves(t: Tree, f: Path)
    requires WellFormed(t)
    ensures f in t.files && f != [] ==> forall p | Exists(t, p) :: !Under(f, p, true)
  {
    if f in t.files && f != [] {
      forall p | Exists(t, p) ensures !Under(f, p, true) {
        if Under(f, p, true) {
          Ancestors(t, p, |f|);
        }
      }
    }
  }

  /** Every proper non-empty prefix of an existing path is a directory. */
  lemma {:induction false} Ancestors(t: Tree, p: Path, n: nat)
    requires WellFormed(t) && Exists(t, p) && 0 < n < |p|
    ensures p[..n] in t.dirs
    decreases |p|
  {
    var parent := p[..|p| - 1];
    if n < |parent| {
      Ancestors(t, parent, n);
      assert parent[..n] == p[..n];
    }
  }

  /** What a walk reaches is reached through one of the directory's entries. */
  lemma WalkSplits(t: Tree, l: Listing, dir: Path, recursive: bool)
    requires WellFormed(t) && Lists(t, l) && dir in t.dirs && dir !in t.unreadable
    ensures CanWalk(t, dir, recursive) <==> forall i | 0 <= i < |l(dir)| :: CanEnter(t, dir, recursive, l(dir)[i])
    ensures forall p | p in t.files :: Under(dir, p, recursive) <==>
              exists i | 0 <= i < |l(dir)| :: Through(dir, p, recursive, l(dir)[i])
  {
    forall p | Exists(t, p) && Under(dir, p, true)
      ensures p[|dir|] in l(dir) && (p == dir + [p[|dir|]] || (Under(dir + [p[|dir|]], p, true) && dir + [p[|dir|]] in t.dirs))
    {
      assert p[..|dir| + 1] == dir + [p[|dir|]];
      if |p| > |dir| + 1 {
        Ancestors(t, p, |dir| + 1);
      } else {
        assert p == p[..|dir| + 1];
      }
    }
    forall p, name | Under(dir + [name], p, true) ensures Under(dir, p, true) {
      assert p[..|dir|] == p[..|dir| + 1][..|dir|];
    }
    forall p | p in t.files && Under(dir, p, recursive)
      ensures exists i | 0 <= i < |l(dir)| :: Through(dir, p, recursive, l(dir)[i])
    {
      assert Exists(t, p) && Under(dir, p, true);
      var i :| 0 <= i < |l(dir)| && l(dir)[i] == p[|dir|];
      assert Through(dir, p, recursive, l(dir)[i]);
    }
  }

  // ---------- All inputs ----------

  function HasGlobChar(s: string): bool {
    exists i | 0 <= i < |s| :: s[i] == '*' || s[i] == '?' || s[i] == '['
  }

  predicate IsMissing(t: Tree, input: Path) {
    !Exists(t, input) && !HasGlobChar(Join(input))
  }

  function FilesOf(t: Tree, ps: seq<Path>): seq<Path> {
    if ps == [] then [] else (if ps[0] in t.files then [ps[0]] else []) + FilesOf(t, ps[1..])
  }

  /** The paths one input contributes. */
  function Contribution(t: Tree, l: Listing, g: Globs, recursive: bool, input: Path): Result<seq<Path>, int> {
    if input in t.files then Ok([input])
    else if input in t.dirs then Collect(t, l, input, recursive)
    else if !HasGlobChar(Join(input)) then Ok([])
    else if !g.valid(Join(input)) then Err(EXIT_USAGE)
    else Ok(FilesOf(t, g.found(Join(input))))
  }

  function Gather(t: Tree, l: Listing, g: Globs, recursive: bool, inputs: seq<Path>): Result<seq<Path>, int> {
    if inputs == [] then
      Ok([])
    else
      match Contribution(t, l, g, recursive, inputs[0])
      case Err(e) => Err(e)
      case Ok(first) => Onto(first, Gather(t, l, g, recursive, inputs[1..]))
  }

  function Missing(t: Tree, inputs: seq<Path>): seq<Path> {
    if inputs == [] then [] else (if IsMissing(t, inputs[0]) then [inputs[0]] else []) + Missing(t, inputs[1..])
  }

  function DropReceipts(ps: seq<Path>): seq<Path> {
    if ps == [] then [] else (if IsReceipt(ps[0]) then [] else [ps[0]]) + DropReceipts(ps[1..])
  }

  /** Drop elements equal to the one before them. */
  function Dedup<T(==)>(s: seq<T>): seq<T> {
    if |s| <= 1 then s else if s[0] == s[1] then Dedup(s[1..]) else [s[0]] + Dedup(s[1..])
  }

  function Tidy(ps: seq<Path>): seq<Path> {
    Dedup(Sorting.Sort(DropReceipts(ps), PathLess))
  }

  /** The artifacts and the missing inputs, or the exit code of a failure. */
  function Expansion(t: Tree, l: Listing, g: Globs, recursive: bool, inputs: seq<Path>): Result<(seq<Path>, seq<Path>), int> {
    match Gather(t, l, g, recursive, inputs)
    case Err(e) => Err(e)
    case Ok(ps) => Ok((Tidy(ps), Missing(t, inputs)))
  }

  /** Resolve the inputs in turn, then drop receipts, sort and remove duplicates. */
  method ExpandInputs(t: Tree, l: Listing, g: Globs, recursive: bool, inputs: seq<Path>)
    returns (r: Result<(seq<Path>, seq<Path>), int>)
    ensures r == Expansion(t, l, g, recursive, inputs)
  {
    hide Contribution, IsMissing, Tidy;
    var artifacts: seq<Path>, missing: seq<Path> := [], [];
    OntoNothing(Gather(t, l, g, recursive, inputs));
    assert inputs[0..] == inputs && missing + Missing(t, inputs[0..]) == Missing(t, inputs);
    for i := 0 to |inputs|
      invariant Gather(t, l, g, recursive, inputs) == Onto(artifacts, Gather(t, l, g, recursive, inputs[i..]))
      invariant Missing(t, inputs) == missing + Missing(t, inputs[i..])
    {
      var input := inputs[i];
      assert inputs[i..][0] == input && inputs[i..][1..] == inputs[i + 1..];
      var more := ExpandOne(t, l, g, recursive, input, artifacts);
      if more.Err? {
        return Err(more.error);
      }
      OntoTwice(artifacts, Contribution(t, l, g, recursive, input).value, Gather(t, l, g, recursive, inputs[i + 1..]));
      artifacts := more.value;
      if IsMissing(t, input) {
        missing := missing + [input];
      }
    }
    assert missing + [] == missing && artifacts + [] == artifacts;
    return Ok((Tidy(artifacts), missing));
  }

  /** Append what one input contributes. */
  method ExpandOne(t: Tree, l: Listing, g: Globs, recursive: bool, input: Path, artifacts: seq<Path>)
    returns (r: Result<seq<Path>, int>)
    ensures r == Onto(artifacts, Contribution(t, l, g, recursive, input))
  {
    hide Collect, HasGlobChar;
    if input in t.files {
      r := Ok(artifacts + [input]);
    } else if input in t.dirs {
      r := CollectDir(t, l, input, recursive, artifacts);
    } else if HasGlobChar(Join(input)) {
      if !g.valid(Join(input)) {
        return Err(EXIT_USAGE);
      }
      var all := AppendFiles(t, g.found(Join(input)), artifacts);
      r := Ok(all);
    } else {
      assert artifacts + [] == artifacts;
      r := Ok(artifacts);
    }
  }

  /** Keep the glob's entries that are files. */
  method AppendFiles(t: Tree, entries: seq<Path>, out: seq<Path>) returns (all: seq<Path>)
    ensures all == out + FilesOf(t, entries)
  {
    all := out;
    assert entries[0..] == entries;
    for i := 0 to |entries|
      invariant out + FilesOf(t, entries) == all + FilesOf(t, entries[i..])
    {
      assert entries[i..][1..] == entries[i + 1..];
      if entries[i] in t.files {
        all := all + [entries[i]];
      }
    }
  }

  // ---------- What the expansion is ----------

  /** The characters that make a literal path a pattern. */
  predicate IsPattern(s: string) {
    '*' in s || '?' in s || '[' in s
  }

  lemma GlobCharIs(s: string)
    ensures HasGlobChar(s) <==> IsPattern(s)
  {
  }

  /** The input stands for the file `p`. */
  predicate StandsFor(t: Tree, g: Globs, recursive: bool, input: Path, p: Path) {
    p in t.files &&
    if input in t.files then p == input
    else if input in t.dirs then Under(input, p, recursive)
    else IsPattern(Join(input)) && g.matches(Join(input), p)
  }

  ghost predicate CanExpand(t: Tree, g: Globs, recursive: bool, input: Path) {
    input in t.files ||
    (if input in t.dirs then CanWalk(t, input, recursive)
     else IsPattern(Join(input)) ==> g.valid(Join(input)))
  }

  lemma {:induction false} FilesOfAre(t: Tree, ps: seq<Path>)
    ensures forall p :: p in FilesOf(t, ps) <==> p in ps && p in t.files
  {
    if ps != [] {
      FilesOfAre(t, ps[1..]);
      assert ps == [ps[0]] + ps[1..];
    }
  }

  lemma {:induction false} GatherIs(t: Tree, l: Listing, g: Globs, recursive: bool, inputs: seq<Path>)
    requires WellFormed(t) && Lists(t, l) && FindsAll(t, g)
    ensures
      var r := Gather(t, l, g, recursive, inputs);
      (r.Ok? <==> forall i | 0 <= i < |inputs| :: CanExpand(t, g, recursive, inputs[i])) &&
      (r.Ok? ==> forall p :: p in r.value <==> exists i | 0 <= i < |inputs| :: StandsFor(t, g, recursive, inputs[i], p))
  {
    hide WellFormed, Lists, Collect, HasGlobChar, StandsFor, CanExpand, FindsAll;
    if inputs != [] {
      GatherIs(t, l, g, recursive, inputs[1..]);
      assert forall i | 0 < i < |inputs| :: inputs[1..][i - 1] == inputs[i];
      ContributionIs(t, l, g, recursive, inputs[0]);
    }
  }

  lemma ContributionIs(t: Tree, l: Listing, g: Globs, recursive: bool, input: Path)
    requires WellFormed(t) && Lists(t, l) && FindsAll(t, g)
    ensures
      var r := Contribution(t, l, g, recursive, input);
      (r.Ok? <==> CanExpand(t, g, recursive, input)) &&
      (r.Ok? ==> forall p :: p in r.value <==> StandsFor(t, g, recursive, input, p))
  {
    hide Lists, Collect, HasGlobChar, CanWalk, IsPattern;
    GlobCharIs(Join(input));
    if input in t.dirs {
      CollectIs(t, l, input, recursive);
    } else if g.valid(Join(input)) {
      FilesOfAre(t, g.found(Join(input)));
    }
  }

  lemma {:induction false} KeptPaths(ps: seq<Path>)
    ensures forall p :: p in DropReceipts(ps) <==> p in ps && !IsReceipt(p)
  {
    hide IsReceipt;
    if ps != [] {
      KeptPaths(ps[1..]);
      assert ps == [ps[0]] + ps[1..];
    }
  }

  /** Removing adjacent duplicates of an ordered sequence leaves no duplicates. */
  lemma {:induction false} DedupAscends<T(!new)>(s: seq<T>, lt: (T, T) -> bool)
    requires Sorting.StrictTotal(lt) && Sorting.NonDescending(s, lt)
    ensures Sorting.Ascending(Dedup(s), lt)
    ensures forall x :: x in Dedup(s) <==> x in s
    ensures s != [] ==> Dedup(s) != [] && Dedup(s)[0] == s[0]
  {
    if |s| > 1 {
      DedupAscends(s[1..], lt);
      assert s == [s[0]] + s[1..];
      var rest := Dedup(s[1..]);
      if s[0] != s[1] {
        assert lt(s[0], s[1]);
        assert forall j | 0 < j < |rest| :: lt(rest[0], rest[j]);
      }
    }
  }

  lemma TidyIs(ps: seq<Path>)
    ensures Sorting.Ascending(Tidy(ps), PathLess)
    ensures forall p :: p in Tidy(ps) <==> p in ps && !IsReceipt(p)
  {
    hide IsReceipt, PathLess, DropReceipts, Sorting.Sort, Dedup;
    PathsAreOrdered();
    KeptPaths(ps);
    Sorting.SortSorts(DropReceipts(ps), PathLess);
    DedupAscends(Sorting.Sort(DropReceipts(ps), PathLess), PathLess);
  }

  /** The artifacts are strictly sorted, hence without duplicates; none is a
      receipt; and they are exactly the other files the inputs stand for. The
      expansion fails exactly when some input cannot be expanded. */
  lemma ExpansionIs(t: Tree, l: Listing, g: Globs, recursive: bool, inputs: seq<Path>)
    requires WellFormed(t) && Lists(t, l) && FindsAll(t, g)
    ensures
      var r := Expansion(t, l, g, recursive, inputs);
      (r.Ok? <==> forall i | 0 <= i < |inputs| :: CanExpand(t, g, recursive, inputs[i])) &&
      (r.Ok? ==>
        Sorting.Ascending(r.value.0, PathLess) &&
        (forall p :: p in r.value.0 <==>
          !IsReceipt(p) && exists i | 0 <= i < |inputs| :: StandsFor(t, g, recursive, inputs[i], p)) &&
        (forall p :: p in r.value.1 <==> p in inputs && !Exists(t, p) && !IsPattern(Join(p))))
  {
    hide Gather, Missing, Tidy, StandsFor, IsReceipt, PathLess, WellFormed, Lists, FindsAll, IsMissing;
    hide IsPattern, Exists;
    GatherIs(t, l, g, recursive, inputs);
    MissingAre(t, inputs);
    forall p ensures IsMissing(t, p) <==> !Exists(t, p) && !IsPattern(Join(p)) {
      MissingIs(t, p);
    }
    if Gather(t, l, g, recursive, inputs).Ok? {
      TidyIs(Gather(t, l, g, recursive, inputs).value);
    }
  }

  lemma MissingIs(t: Tree, p: Path)
    ensures IsMissing(t, p) <==> !Exists(t, p) && !IsPattern(Join(p))
  {
    GlobCharIs(Join(p));
  }

  /** The artifacts stand in the order of their paths, component by component. */
  lemma ExpansionInOrder(t: Tree, l: Listing, g: Globs, recursive: bool, inputs: seq<Path>, i: nat, j: nat)
    requires WellFormed(t) && Lists(t, l) && FindsAll(t, g) && Expansion(t, l, g, recursive, inputs).Ok?
    requires i < j < |Expansion(t, l, g, recursive, inputs).value.0|
    ensures PathPrecedes(Expansion(t, l, g, recursive, inputs).value.0[i], Expansion(t, l, g, recursive, inputs).value.0[j])
  {
    hide Expansion, StandsFor, IsReceipt, PathLess, PathPrecedes, WellFormed, Lists, FindsAll, CanExpand;
    ExpansionIs(t, l, g, recursive, inputs);
    PathLessIs(Expansion(t, l, g, recursive, inputs).value.0[i], Expansion(t, l, g, recursive, inputs).value.0[j]);
  }

  /** An expansion that fails does so with the code of the first input that cannot
      be expanded: 2 for a pattern that is not valid, 3 for a directory that
      cannot be walked. */
  lemma {:induction false} ExpansionFailsWith(t: Tree, l: Listing, g: Globs, recursive: bool, inputs: seq<Path>)
    requires WellFormed(t) && Lists(t, l) && FindsAll(t, g) && Expansion(t, l, g, recursive, inputs).Err?
    ensures exists i | 0 <= i < |inputs| ::
      !CanExpand(t, g, recursive, inputs[i]) && (forall k | 0 <= k < i :: CanExpand(t, g, recursive, inputs[k])) &&
      Expansion(t, l, g, recursive, inputs) == Err(if inputs[i] in t.dirs then 3 else 2)
    decreases |inputs|
  {
    hide Contribution, Tidy, Missing, CanExpand, WellFormed, Lists, FindsAll;
    ContributionIs(t, l, g, recursive, inputs[0]);
    if Contribution(t, l, g, recursive, inputs[0]).Ok? {
      assert Gather(t, l, g, recursive, inputs[1..]).Err?;
      ExpansionFailsWith(t, l, g, recursive, inputs[1..]);
      var i :| 0 <= i < |inputs[1..]| && !CanExpand(t, g, recursive, inputs[1..][i]) &&
        (forall k | 0 <= k < i :: CanExpand(t, g, recursive, inputs[1..][k])) &&
        Expansion(t, l, g, recursive, inputs[1..]) == Err(if inputs[1..][i] in t.dirs then 3 else 2);
      assert inputs[i + 1] == inputs[1..][i];
      forall k | 0 <= k < i + 1 ensures CanExpand(t, g, recursive, inputs[k]) {
        assert k > 0 ==> inputs[k] == inputs[1..][k - 1];
      }
    } else {
      FailureCode(t, l, g, recursive, inputs[0]);
    }
  }

  lemma FailureCode(t: Tree, l: Listing, g: Globs, recursive: bool, input: Path)
    requires Contribution(t, l, g, recursive, input).Err?
    ensures Contribution(t, l, g, recursive, input) == Err(if input in t.dirs then 3 else 2)
  {
    hide HasGlobChar;
    if input in t.dirs {
      WalkFailsWith(t, l, input, recursive);
    }
  }

  lemma {:induction false} WalkFailsWith(t: Tree, l: Listing, dir: Path, recursive: bool)
    ensures Collect(t, l, dir, recursive).Err? ==> Collect(t, l, dir, recursive) == Err(3)
    decreases |Below(t, dir)|, |l(dir)| + 1
  {
    if dir in t.dirs {
      EntriesFailWith(t, l, dir, recursive, l(dir));
    }
  }

  lemma {:induction false} EntriesFailWith(t: Tree, l: Listing, dir: Path, recursive: bool, names: seq<string>)
    requires dir in t.dirs
    ensures CollectEntries(t, l, dir, recursive, names).Err? ==> CollectEntries(t, l, dir, recursive, names) == Err(3)
    decreases |Below(t, dir)|, |names|
  {
    hide Below;
    if names != [] {
      BelowShrinks(t, dir, names[0]);
      WalkFailsWith(t, l, dir + [names[0]], recursive);
      EntriesFailWith(t, l, dir, recursive, names[1..]);
    }
  }

  lemma {:induction false} MissingAre(t: Tree, inputs: seq<Path>)
    ensures forall p :: p in Missing(t, inputs) <==> p in inputs && IsMissing(t, p)
  {
    hide IsMissing;
    if inputs != [] {
      MissingAre(t, inputs[1..]);
      assert inputs == [inputs[0]] + inputs[1..];
    }
  }

  // ---------- Stability ----------

  /** Between two trees only receipts were added or rewritten. */
  ghost predicate OnlyReceiptsWritten(t: Tree, t': Tree) {
    && t'.dirs == t.dirs && t'.unreadable == t.unreadable && t.files.Keys <= t'.files.Keys
    && (forall p | p in t'.files && !IsReceipt(p) :: p in t.files)
  }

  /** A glob whose text ends like a receipt's name matches receipts only. */
  ghost predicate SuffixIsLiteral(g: Globs) {
    forall input, p | IsReceipt(input) && g.matches(Join(input), p) :: IsReceipt(p)
  }

  /** Writing receipts does not change what a later expansion of the same inputs
      finds, whatever order directories and globs are listed in. */
  lemma ExpansionIsStable(t: Tree, l: Listing, g: Globs, t': Tree, l': Listing, g': Globs, recursive: bool, inputs: seq<Path>)
    requires WellFormed(t) && Lists(t, l) && FindsAll(t, g) && WellFormed(t') && Lists(t', l') && FindsAll(t', g')
    requires g'.valid == g.valid && g'.matches == g.matches && SuffixIsLiteral(g)
    requires OnlyReceiptsWritten(t, t')
    requires Expansion(t, l, g, recursive, inputs).Ok?
    ensures Expansion(t', l', g', recursive, inputs).Ok?
    ensures Expansion(t', l', g', recursive, inputs).value.0 == Expansion(t, l, g, recursive, inputs).value.0
  {
    hide Expansion, WellFormed, Lists, FindsAll, IsReceipt, PathLess, CanExpand, StandsFor;
    ExpansionIs(t, l, g, recursive, inputs);
    ExpansionIs(t', l', g', recursive, inputs);
    forall i, p | 0 <= i < |inputs| && !IsReceipt(p)
      ensures StandsFor(t, g, recursive, inputs[i], p) <==> StandsFor(t', g', recursive, inputs[i], p)
    {
      StandsForIsStable(t, g, t', g', recursive, inputs[i], p);
    }
    forall i | 0 <= i < |inputs| ensures CanExpand(t', g', recursive, inputs[i]) {
      CanExpandIsStable(t, g, t', g', recursive, inputs[i]);
    }
    PathsAreOrdered();
    Sorting.AscendingIsUnique(Expansion(t', l', g', recursive, inputs).value.0,
                              Expansion(t, l, g, recursive, inputs).value.0, PathLess);
  }

  lemma StandsForIsStable(t: Tree, g: Globs, t': Tree, g': Globs, recursive: bool, input: Path, p: Path)
    requires WellFormed(t') && g'.matches == g.matches && SuffixIsLiteral(g) && OnlyReceiptsWritten(t, t') && !IsReceipt(p)
    ensures StandsFor(t, g, recursive, input, p) <==> StandsFor(t', g', recursive, input, p)
  {
    hide IsReceipt, HasGlobChar;
  }

  lemma CanExpandIsStable(t: Tree, g: Globs, t': Tree, g': Globs, recursive: bool, input: Path)
    requires WellFormed(t') && g'.valid == g.valid && OnlyReceiptsWritten(t, t') && CanExpand(t, g, recursive, input)
    ensures CanExpand(t', g', recursive, input)
  {
    hide IsReceipt, HasGlobChar;
  }
}
