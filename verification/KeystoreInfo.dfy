/** What can be told about a keystore without its passphrase. */
module KeystoreInfo {
  import opened Prelude
  import opened Crypto
  import opened KeystoreSpec
  import opened KeySafety
  import opened KeystoreRefinement
  import Sorting
  import Utf8

  datatype Listed = Listed(archivedAt: string, fingerprint: Option<string>)

  datatype Info = Info(encrypted: bool, active: Option<string>, archived: seq<Listed>)

  function PublicFingerprint(c: Crypto, content: Bytes): Result<Option<string>, SealError> {
    match Utf8.Decode(content)
    case None => Err(KeyError)
    case Some(text) =>
      match c.parsePublicPem(text)
      case None => Err(KeyError)
      case Some(pk) => Ok(Some(c.fingerprint(pk)))
  }

  function SecretFingerprint(c: Crypto, content: Bytes): Result<Option<string>, SealError> {
    match ParsePem(c, content)
    case None => Err(KeyError)
    case Some(key) => Ok(Some(c.fingerprint(c.publicOf(key))))
  }

  function ActiveFingerprint(c: Crypto, d: Dir): Result<Option<string>, SealError> {
    if IsEncrypted(d) then
      if Active(PublicFile) in d.files then PublicFingerprint(c, d.files[Active(PublicFile)]) else Ok(None)
    else
      if Active(Ed25519File) in d.files then SecretFingerprint(c, d.files[Active(Ed25519File)]) else Ok(None)
  }

  function ArchivedFingerprint(c: Crypto, d: Dir, stamp: string): Result<Option<string>, SealError> {
    if Archived(stamp, PublicFile) in d.files then
      PublicFingerprint(c, d.files[Archived(stamp, PublicFile)])
    else if Archived(stamp, Ed25519File) in d.files then
      SecretFingerprint(c, d.files[Archived(stamp, Ed25519File)])
    else
      Ok(None)
  }

  /** The entries in the order the directory lists them; the first unreadable one fails. */
  function Listing(c: Crypto, d: Dir, entries: seq<string>): Result<seq<Listed>, SealError> {
    if entries == [] then
      Ok([])
    else
      match ArchivedFingerprint(c, d, entries[0])
      case Err(e) => Err(e)
      case Ok(fingerprint) =>
        match Listing(c, d, entries[1..])
        case Err(e) => Err(e)
        case Ok(rest) => Ok([Listed(entries[0], fingerprint)] + rest)
  }

  function ArchivedAt(l: Listed): string {
    l.archivedAt
  }

  function ListArchived(c: Crypto, d: Dir, entries: seq<string>): Result<seq<Listed>, SealError> {
    match Listing(c, d, entries)
    case Err(e) => Err(e)
    case Ok(listed) => Ok(Sorting.Sort(listed, Sorting.By(ArchivedAt, Sorting.TextGreater)))
  }

  function InfoOf(c: Crypto, d: Dir, entries: seq<string>): Result<Info, SealError> {
    match ActiveFingerprint(c, d)
    case Err(e) => Err(e)
    case Ok(active) =>
      match ListArchived(c, d, entries)
      case Err(e) => Err(e)
      case Ok(archived) => Ok(Info(IsEncrypted(d), active, archived))
  }

  // ---------- Info tells the abstract state ----------

  function KeyPrint(c: Crypto, s: Store): string {
    c.fingerprint(c.publicOf(s.key))
  }

  function Prints(c: Crypto, history: seq<Entry>): seq<Listed> {
    seq(|history|, i requires 0 <= i < |history| => Listed(history[i].stamp, Some(KeyPrint(c, history[i].store))))
  }

  /** The fingerprint the history gives for a stamp. */
  function PrintAt(c: Crypto, history: seq<Entry>, stamp: string): Listed {
    if history == [] then Listed(stamp, None)
    else if history[0].stamp == stamp then Listed(stamp, Some(KeyPrint(c, history[0].store)))
    else PrintAt(c, history[1..], stamp)
  }

  lemma StorePrints(c: Crypto, d: Dir, place: Option<string>, s: Store)
    requires LawfulKeys(c) && Represented(c, d.files, place, Some(s))
    ensures place == None ==> ActiveFingerprint(c, d) == Ok(Some(KeyPrint(c, s)))
    ensures place.Some? ==> ArchivedFingerprint(c, d, place.value) == Ok(Some(KeyPrint(c, s)))
  {
    hide Conversion.Seals;
    Utf8.DecodeOfEncode(c.publicPem(c.publicOf(s.key)));
    Utf8.DecodeOfEncode(c.privatePem(s.key));
  }

  lemma {:induction false} ListingIs(c: Crypto, d: Dir, entries: seq<string>, f: string -> Listed)
    requires forall stamp | stamp in entries ::
               f(stamp).archivedAt == stamp && ArchivedFingerprint(c, d, stamp) == Ok(f(stamp).fingerprint)
    ensures Listing(c, d, entries) == Ok(Sorting.Map(f, entries))
  {
    if entries != [] {
      ListingIs(c, d, entries[1..], f);
      assert Sorting.Map(f, entries) == [f(entries[0])] + Sorting.Map(f, entries[1..]);
    }
  }

  lemma {:induction false} PrintAtIs(c: Crypto, history: seq<Entry>, i: nat)
    requires i < |history| && Sorting.Ascending(Stamps(history), Sorting.TextGreater)
    ensures PrintAt(c, history, history[i].stamp) == Listed(history[i].stamp, Some(KeyPrint(c, history[i].store)))
  {
    hide Sorting.TextGreater;
    if i > 0 {
      Sorting.TextOrders();
      assert Sorting.TextGreater(Stamps(history)[0], Stamps(history)[i]);
      assert Stamps(history[1..]) == Stamps(history)[1..];
      PrintAtIs(c, history[1..], i - 1);
    }
  }

  /** In every represented directory, and whatever order the archive is listed in,
      `info` tells the mode, the active key and the history, newest first. */
  lemma InfoIsCorrect(c: Crypto, d: Dir, st: State, entries: seq<string>)
    requires LawfulKeys(c) && Represents(c, d, st)
    requires Sorting.Distinct(entries) && forall stamp :: stamp in entries <==> stamp in d.stamps
    ensures InfoOf(c, d, entries) ==
      Ok(Info(st.active.Some? && st.active.value.Sealed?,
              if st.active.Some? then Some(KeyPrint(c, st.active.value)) else None,
              Prints(c, st.history)))
  {
    hide Represented, Sorting.TextGreater, Sorting.TextLess, Sorting.Sort, PrintAt, LawfulKeys;
    RepresentsOneMode(c, d, st);
    if st.active.Some? {
      StorePrints(c, d, None, st.active.value);
    }
    var f := stamp => PrintAt(c, st.history, stamp);
    var stamps := Stamps(st.history);
    forall i | 0 <= i < |stamps|
      ensures f(stamps[i]) == Prints(c, st.history)[i]
      ensures ArchivedFingerprint(c, d, stamps[i]) == Ok(f(stamps[i]).fingerprint)
    {
      PrintAtIs(c, st.history, i);
      StorePrints(c, d, Some(stamps[i]), st.history[i].store);
    }
    ListingIs(c, d, entries, f);
    Sorting.TextOrders();
    Sorting.SortByKey(entries, f, ArchivedAt, Sorting.TextGreater);
    Sorting.SortDistinct(entries, Sorting.TextGreater);
    Sorting.SortSorts(entries, Sorting.TextGreater);
    Sorting.AscendingIsUnique(Sorting.Sort(entries, Sorting.TextGreater), stamps, Sorting.TextGreater);
    assert Sorting.Map(f, stamps) == Prints(c, st.history);
  }

  // ---------- Any directory ----------

  predicate HasKeyFile(d: Dir, stamp: string) {
    Archived(stamp, PublicFile) in d.files || Archived(stamp, Ed25519File) in d.files
  }

  lemma {:induction false} ListingSays(c: Crypto, d: Dir, entries: seq<string>)
    requires Listing(c, d, entries).Ok?
    ensures
      var listed := Listing(c, d, entries).value;
      |listed| == |entries| && forall i | 0 <= i < |entries| ::
        listed[i].archivedAt == entries[i] && (listed[i].fingerprint.Some? <==> HasKeyFile(d, entries[i]))
  {
    hide ParsePem;
    if entries != [] {
      ListingSays(c, d, entries[1..]);
    }
  }

  /** Whatever a crash left behind, a listing names every archive entry, with a
      fingerprint exactly if a public or a private key file is there. */
  lemma InfoNamesEntries(c: Crypto, d: Dir, entries: seq<string>)
    requires InfoOf(c, d, entries).Ok?
    ensures
      var info := InfoOf(c, d, entries).value;
      && (info.encrypted <==> Active(EncFile) in d.files)
      && (info.active.Some? <==> Active(if info.encrypted then PublicFile else Ed25519File) in d.files)
      && |info.archived| == |entries|
      && (forall l | l in info.archived :: l.archivedAt in entries && (l.fingerprint.Some? <==> HasKeyFile(d, l.archivedAt)))
      && (forall stamp | stamp in entries :: exists l | l in info.archived :: l.archivedAt == stamp)
  {
    hide Listing, HasKeyFile, Sorting.Sort, Sorting.TextGreater, ParsePem;
    ListingSays(c, d, entries);
    var listed := Listing(c, d, entries).value;
    Sorting.SortPermutes(listed, Sorting.By(ArchivedAt, Sorting.TextGreater));
    var archived := InfoOf(c, d, entries).value.archived;
    assert |archived| == |multiset(archived)| == |multiset(listed)| == |listed|;
    forall l ensures l in archived <==> l in listed {
      assert l in archived <==> l in multiset(archived);
      assert l in listed <==> l in multiset(listed);
    }
    forall stamp | stamp in entries ensures exists l | l in archived :: l.archivedAt == stamp {
      var i :| 0 <= i < |entries| && entries[i] == stamp;
      assert listed[i] in archived;
    }
  }

  predicate IsPublicKey(c: Crypto, content: Bytes) {
    Utf8.Decode(content).Some? && c.parsePublicPem(Utf8.Decode(content).value).Some?
  }

  /** The key file that is consulted, if there is one, can be read: for an archive
      entry the public key first, for the active store the one its mode keeps. */
  predicate EntryReads(c: Crypto, d: Dir, stamp: string) {
    var (pub, pem) := (Archived(stamp, PublicFile), Archived(stamp, Ed25519File));
    if pub in d.files then IsPublicKey(c, d.files[pub]) else pem in d.files ==> ParsePem(c, d.files[pem]).Some?
  }

  predicate ActiveReads(c: Crypto, d: Dir) {
    var (pub, pem) := (Active(PublicFile), Active(Ed25519File));
    if Active(EncFile) in d.files then pub in d.files ==> IsPublicKey(c, d.files[pub])
    else pem in d.files ==> ParsePem(c, d.files[pem]).Some?
  }

  lemma EntryIs(c: Crypto, d: Dir, stamp: string)
    ensures ArchivedFingerprint(c, d, stamp).Ok? <==> EntryReads(c, d, stamp)
  {
    hide ParsePem;
  }

  lemma {:induction false} ListingReads(c: Crypto, d: Dir, entries: seq<string>)
    ensures Listing(c, d, entries).Ok? <==> forall stamp | stamp in entries :: EntryReads(c, d, stamp)
  {
    hide ArchivedFingerprint, EntryReads;
    if entries != [] {
      assert entries == [entries[0]] + entries[1..];
      EntryIs(c, d, entries[0]);
      ListingReads(c, d, entries[1..]);
    }
  }

  /** In any directory `info` fails exactly if a key file it consults cannot be
      read; an entry without key files is no failure. */
  lemma InfoFailsExactly(c: Crypto, d: Dir, entries: seq<string>)
    ensures InfoOf(c, d, entries).Ok? <==> ActiveReads(c, d) && forall stamp | stamp in entries :: EntryReads(c, d, stamp)
  {
    hide Listing, EntryReads, ParsePem, Sorting.Sort;
    ListingReads(c, d, entries);
  }
}
