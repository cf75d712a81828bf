/**
 What a sweep can read from the dump directories, and a listing of any tree that makes a sweep take a given old file.
 */
module DumpListings {
  import opened Bytes
  import opened Wrappers
  import opened Text
  import opened Sorting
  import opened MinuteLabels
  import opened PacketDump
  import opened Retention

  /** Sweeps take only labelled files older than the previous minute. */
  predicate Sweepable(minute: int, now: int) {
    minute < now - 1 && Labelable(minute)
  }

  ghost predicate Lists(dirs: seq<DirEntry>, dir: string, e: FileEntry) {
    exists d :: d in dirs && ListedIn(d, dir, e)
  }

  predicate ListedIn(d: DirEntry, dir: string, e: FileEntry) {
    d.SourceDir? && d.name == dir && e in d.files
  }

  function EntryOf(files: map<FileId, seq<byte>>, f: FileId): FileEntry
    requires f in files
  {
    File(FileBase(f.minute), Some(|files[f]|))
  }

  /**
   What reading the dump directories can give: every file of the tree is listed, the names of the dumper's plain files
   stand for files of the tree with their true sizes, and nothing is listed twice. Other names may be there too.
   */
  ghost predicate Honest(files: map<FileId, seq<byte>>, dirs: seq<DirEntry>) {
    && (forall f <- files :: Lists(dirs, f.dir, EntryOf(files, f)))
    && (forall f: FileId, size :: Lists(dirs, f.dir, File(FileBase(f.minute), size)) ==>
          f in files && size == Some(|files[f]|))
    && (forall i, j :: 0 <= i < j < |dirs| && dirs[i].SourceDir? && dirs[j].SourceDir? ==> dirs[i].name != dirs[j].name)
    && (forall d :: d in dirs && d.SourceDir? ==> NamesDiffer(d.files))
  }

  predicate NamesDiffer(files: seq<FileEntry>) {
    forall i, j :: 0 <= i < j < |files| && files[i].File? && files[j].File? ==> files[i].name != files[j].name
  }

  /** The true listing of the tree, with a 2 MiB compressed file of f's minute beside f. */
  ghost function TrueListing(files: map<FileId, seq<byte>>, f: FileId): (dirs: seq<DirEntry>)
    ensures var names := Elements(DirsOf(files));
            |dirs| == |names| && forall i :: 0 <= i < |dirs| ==> dirs[i] == DirListing(files, f, names[i])
  {
    var names := Elements(DirsOf(files));
    seq(|names|, i requires 0 <= i < |names| => DirListing(files, f, names[i]))
  }

  lemma ListedDirs(files: map<FileId, seq<byte>>, f: FileId, d: DirEntry)
    ensures d in TrueListing(files, f) <==> exists dir :: dir in DirsOf(files) && d == DirListing(files, f, dir)
  {
    var names, dirs := Elements(DirsOf(files)), TrueListing(files, f);
    if dir :| dir in DirsOf(files) && d == DirListing(files, f, dir) {
      var i :| 0 <= i < |names| && names[i] == dir;
      assert dirs[i] == d;
    }
  }

  function DirsOf(files: map<FileId, seq<byte>>): set<string> {
    set g | g in files :: g.dir
  }

  function MinutesOf(files: map<FileId, seq<byte>>, dir: string): set<int> {
    set g | g in files && g.dir == dir :: g.minute
  }

  ghost function DirListing(files: map<FileId, seq<byte>>, f: FileId, dir: string): DirEntry {
    SourceDir(dir, PlainFiles(files, dir) + if dir == f.dir then [BigNeighbour(f)] else [])
  }

  ghost function PlainFiles(files: map<FileId, seq<byte>>, dir: string): (es: seq<FileEntry>)
    ensures var ms := Elements(MinutesOf(files, dir));
            |es| == |ms| && forall i :: 0 <= i < |es| ==>
              FileId(dir, ms[i]) in files && es[i] == EntryOf(files, FileId(dir, ms[i]))
  {
    var ms := Elements(MinutesOf(files, dir));
    assert forall i :: 0 <= i < |ms| ==> ms[i] in MinutesOf(files, dir);
    seq(|ms|, i requires 0 <= i < |ms| => EntryOf(files, FileId(dir, ms[i])))
  }

  /** A plain name is listed in a directory exactly when the tree has the file, with its size. */
  lemma PlainFilesAre(files: map<FileId, seq<byte>>, g: FileId, size: Option<nat>)
    ensures File(FileBase(g.minute), size) in PlainFiles(files, g.dir) <==> g in files && size == Some(|files[g]|)
  {
    var ms, es := Elements(MinutesOf(files, g.dir)), PlainFiles(files, g.dir);
    var e := File(FileBase(g.minute), size);
    if e in es {
      var i :| 0 <= i < |es| && es[i] == e;
      if ms[i] != g.minute {
        BasesDiffer(ms[i], g.minute);
      }
      assert FileId(g.dir, ms[i]) == g;
    }
    if g in files && size == Some(|files[g]|) {
      assert g.minute in MinutesOf(files, g.dir);
      var i :| 0 <= i < |ms| && ms[i] == g.minute;
      assert es[i] == e;
    }
  }

  lemma PlainNamesDiffer(files: map<FileId, seq<byte>>, dir: string)
    ensures NamesDiffer(PlainFiles(files, dir))
  {
    var ms, es := Elements(MinutesOf(files, dir)), PlainFiles(files, dir);
    forall i, j | 0 <= i < j < |es| ensures es[i].name != es[j].name {
      BasesDiffer(ms[i], ms[j]);
    }
  }

  function BigNeighbour(f: FileId): FileEntry {
    File(FileBase(f.minute) + ".snappy", Some(2 * MIB))
  }

  lemma BasesDiffer(a: int, b: int)
    requires a != b
    ensures FileBase(a) != FileBase(b)
  {
    if FileBase(a) == FileBase(b) {
      SuffixSplit(MinuteLabel(a), ".pcap", MinuteLabel(b), ".pcap");
      LabelInjective(a, b);
    }
  }

  lemma NeighbourIsNotPlain(f: FileId, m: int)
    ensures FileBase(m) != BigNeighbour(f).name
  {
    var a, b := FileBase(m), BigNeighbour(f).name;
    assert a[|a| - 1] == 'p' && b[|b| - 1] == 'y';
  }

  lemma PlainFilesListed(files: map<FileId, seq<byte>>, f: FileId, g: FileId, size: Option<nat>)
    ensures Lists(TrueListing(files, f), g.dir, File(FileBase(g.minute), size))
            <==> g in files && size == Some(|files[g]|)
  {
    var dirs, e := TrueListing(files, f), File(FileBase(g.minute), size);
    NeighbourIsNotPlain(f, g.minute);
    PlainFilesAre(files, g, size);
    if Lists(dirs, g.dir, e) {
      var d :| d in dirs && ListedIn(d, g.dir, e);
      ListedDirs(files, f, d);
    }
    if g in files && size == Some(|files[g]|) {
      ListedDirs(files, f, DirListing(files, f, g.dir));
      assert g.dir in DirsOf(files);
      assert ListedIn(DirListing(files, f, g.dir), g.dir, e);
    }
  }

  lemma AddedNameDiffers(es: seq<FileEntry>, e: FileEntry)
    requires NamesDiffer(es) && e.File? && forall i :: 0 <= i < |es| ==> es[i].File? && es[i].name != e.name
    ensures NamesDiffer(es + [e])
  {
  }

  lemma DirNamesDiffer(files: map<FileId, seq<byte>>, f: FileId, dir: string)
    ensures NamesDiffer(DirListing(files, f, dir).files)
  {
    var ms, plain := Elements(MinutesOf(files, dir)), PlainFiles(files, dir);
    PlainNamesDiffer(files, dir);
    forall i | 0 <= i < |plain| ensures plain[i].File? && plain[i].name != BigNeighbour(f).name {
      NeighbourIsNotPlain(f, ms[i]);
    }
    AddedNameDiffers(plain, BigNeighbour(f));
    assert plain + [] == plain;
  }

  lemma TrueListingIsHonest(files: map<FileId, seq<byte>>, f: FileId)
    ensures Honest(files, TrueListing(files, f))
  {
    var names, dirs := Elements(DirsOf(files)), TrueListing(files, f);
    forall g <- files ensures Lists(dirs, g.dir, EntryOf(files, g)) {
      PlainFilesListed(files, f, g, Some(|files[g]|));
    }
    forall g: FileId, size | Lists(dirs, g.dir, File(FileBase(g.minute), size))
      ensures g in files && size == Some(|files[g]|)
    {
      PlainFilesListed(files, f, g, size);
    }
    forall i, j | 0 <= i < j < |dirs| ensures dirs[i].name != dirs[j].name {
      assert names[i] != names[j];
    }
    forall d | d in dirs ensures NamesDiffer(d.files) {
      ListedDirs(files, f, d);
      DirNamesDiffer(files, f, d.name);
    }
  }

  const ONE_MIB := Config(0, 1)

  function PlainCandidate(files: map<FileId, seq<byte>>, f: FileId): Candidate
    requires f in files
  {
    Candidate(Path(f.dir, FileBase(f.minute)), f.minute, |files[f]|)
  }

  function BigCandidate(f: FileId): Candidate {
    Candidate(Path(f.dir, FileBase(f.minute) + ".snappy"), f.minute, 2 * MIB)
  }

  lemma ListedIsEligible(dirs: seq<DirEntry>, dir: string, e: FileEntry, cutoff: int, c: Candidate)
    requires Lists(dirs, dir, e) && Offers(dir, e, cutoff, c)
    ensures c in Eligible(dirs, cutoff)
  {
    EligibleExactly(dirs, cutoff, c);
    var d :| d in dirs && ListedIn(d, dir, e);
    assert Listed(d.name, d.files, cutoff, c);
    assert DirOffers(d, cutoff, c);
  }

  lemma BothAreEligible(files: map<FileId, seq<byte>>, f: FileId, now: int)
    requires f in files && Sweepable(f.minute, now)
    ensures PlainCandidate(files, f) in Eligible(TrueListing(files, f), RaceCutoff(now))
    ensures BigCandidate(f) in Eligible(TrueListing(files, f), RaceCutoff(now))
  {
    var dirs := TrueListing(files, f);
    DumpedFilesAreRecognised(f.minute);
    CompressedFilesAreRecognised(f.minute);
    PlainFilesListed(files, f, f, Some(|files[f]|));
    ListedIsEligible(dirs, f.dir, EntryOf(files, f), RaceCutoff(now), PlainCandidate(files, f));
    ListedDirs(files, f, DirListing(files, f, f.dir));
    assert f.dir in DirsOf(files);
    assert ListedIn(DirListing(files, f, f.dir), f.dir, BigNeighbour(f));
    ListedIsEligible(dirs, f.dir, BigNeighbour(f), RaceCutoff(now), BigCandidate(f));
  }

  lemma PlainComesFirst(files: map<FileId, seq<byte>>, f: FileId)
    requires f in files
    ensures !OlderFirst(BigCandidate(f), PlainCandidate(files, f))
  {
    var name := FileBase(f.minute);
    LexConcat(name, name, "", ".snappy");
    LexTotal(name, name);
    assert name + "" == name;
  }

  lemma SortedIndices(queue: seq<Candidate>, a: Candidate, b: Candidate) returns (k: nat, j: nat)
    requires Ascending((x: Candidate, y: Candidate) => OlderFirst(x, y), queue)
    requires a in queue && b in queue && a != b && !OlderFirst(b, a)
    ensures k < j < |queue| && queue[k] == a && queue[j] == b
  {
    k :| 0 <= k < |queue| && queue[k] == a;
    j :| 0 <= j < |queue| && queue[j] == b;
    var le := (x: Candidate, y: Candidate) => OlderFirst(x, y);
    assert !le(queue[j], queue[k]);
  }

  /** The sweep of that listing under a cap of 1 MiB tries f, whatever else is there and however the unlinks end. */
  lemma FileIsTried(files: map<FileId, seq<byte>>, f: FileId, now: int, age: Unlink, size: Unlink)
    requires f in files && Sweepable(f.minute, now)
    ensures PlainCandidate(files, f) in Tried(TrueListing(files, f), ONE_MIB, now, age, size)
  {
    var dirs := TrueListing(files, f);
    var queue := Queue(dirs, ONE_MIB, now, age);
    BothAreEligible(files, f, now);
    QueueIsSorted(Survivors(dirs, ONE_MIB, now, age));
    PlainComesFirst(files, f);
    var k, j := SortedIndices(queue, PlainCandidate(files, f), BigCandidate(f));
    var t := StopFrom(queue, CapBytes(ONE_MIB), ByteSum(queue), size, 0);
    StopsPast(queue, CapBytes(ONE_MIB), size, t, k, j);
    assert queue[..t][k] == PlainCandidate(files, f);
  }
}
