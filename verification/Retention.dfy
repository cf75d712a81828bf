/**
 The retention sweeper (server/h-capture/src/pcap_retention.rs): eligible files, then an age phase, then a size phase.
 Directory listings and the outcome of each unlink are inputs.
 */
module Retention {
  import opened Wrappers
  import opened Text
  import opened MinuteLabels
  import opened PacketDump
  import opened Sorting

  datatype UnlinkOutcome = Removed | AlreadyGone | Failed

  /** A dump file's path below the dump root, which all candidates share: its source directory and its name. */
  datatype Path = Path(dir: string, name: string)

  /** One unlink attempt per path and phase. */
  type Unlink = Path -> UnlinkOutcome

  datatype Candidate = Candidate(path: Path, minute: int, size: nat)
  datatype Report = Report(filesDeleted: nat, bytesDeleted: nat, errors: nat)
  datatype Config = Config(maxAgeHours: nat, maxSizeMb: nat)

  /** `size` is None when the file cannot be examined. */
  datatype FileEntry = BadFileEntry | BadName | File(name: string, size: Option<nat>)
  datatype DirEntry = BadDirEntry | NotADir | Unreadable | SourceDir(name: string, files: seq<FileEntry>)
  datatype Listing = Missing | Denied | Entries(dirs: seq<DirEntry>)

  const MIB := 1024 * 1024
  const U64_MAX := 0xFFFF_FFFF_FFFF_FFFF

  // ---- file names ----

  function StripSuffix(s: string, suffix: string): (r: Option<string>)
    ensures r.Some? ==> s == r.value + suffix
  {
    if |suffix| <= |s| && s[|s| - |suffix|..] == suffix then
      assert s == s[..|s| - |suffix|] + suffix;
      Some(s[..|s| - |suffix|])
    else
      None
  }

  function ParseDumpFilename(name: string): Option<int> {
    match StripSuffix(name, ".pcap.snappy")
    case Some(stem) => ParseMinuteLabel(stem)
    case None =>
      match StripSuffix(name, ".pcap")
      case Some(stem) => ParseMinuteLabel(stem)
      case None => None
  }

  /** The sweeper recognises only names the dumper prints, with either suffix. */
  lemma OnlyOwnFilesAreRecognised(name: string)
    ensures ParseDumpFilename(name).Some? ==>
              var printed := MinuteLabel(ParseDumpFilename(name).value);
              name == printed + ".pcap" || name == printed + ".pcap.snappy"
  {
    match StripSuffix(name, ".pcap.snappy") {
      case Some(stem) => AcceptedLabelsArePrinted(stem);
      case None =>
        match StripSuffix(name, ".pcap") {
          case Some(stem) => AcceptedLabelsArePrinted(stem);
          case None =>
        }
    }
  }

  lemma NotSnappy(name: string)
    requires name != "" && name[|name| - 1] == 'p'
    ensures StripSuffix(name, ".pcap.snappy") == None
  {
    if |name| >= 12 {
      assert name[|name| - 12..][11] == 'p';
    }
  }

  /** A file the dumper wrote is recognised, with its minute, exactly in the years that labels have room for. */
  lemma DumpedFilesAreRecognised(minute: int)
    ensures ParseDumpFilename(FileBase(minute)) == if Labelable(minute) then Some(minute) else None
  {
    var name := FileBase(minute);
    NotSnappy(name);
    assert name[|name| - 5..] == ".pcap" && name[..|name| - 5] == MinuteLabel(minute);
    LabelRoundTrip(minute);
  }

  /** A file written in the compressed mode is recognised likewise. */
  lemma CompressedFilesAreRecognised(minute: int)
    ensures ParseDumpFilename(FileBase(minute) + ".snappy") == if Labelable(minute) then Some(minute) else None
  {
    CompressedStem(MinuteLabel(minute));
    LabelRoundTrip(minute);
  }

  lemma CompressedStem(stem: string)
    ensures StripSuffix(stem + ".pcap" + ".snappy", ".pcap.snappy") == Some(stem)
  {
    var name := stem + ".pcap" + ".snappy";
    assert ".pcap" + ".snappy" == ".pcap.snappy" && name == stem + (".pcap" + ".snappy");
    assert name[|name| - 12..] == ".pcap.snappy" && name[..|name| - 12] == stem;
  }

  // ---- what a sweep may touch ----

  /** Race protection: the current and the previous minute are out of bounds. */
  function RaceCutoff(nowMinute: int): int {
    nowMinute - 1
  }

  function FileCandidates(dir: string, files: seq<FileEntry>, cutoff: int): seq<Candidate> {
    if files == [] then []
    else FileCandidates(dir, files[..|files| - 1], cutoff) + FileCandidate(dir, files[|files| - 1], cutoff)
  }

  function FileCandidate(dir: string, f: FileEntry, cutoff: int): seq<Candidate> {
    match f
    case File(name, Some(size)) =>
      if ParseDumpFilename(name).Some? && ParseDumpFilename(name).value < cutoff
      then [Candidate(Path(dir, name), ParseDumpFilename(name).value, size)] else []
    case _ => []
  }

  function FileErrors(files: seq<FileEntry>, cutoff: int): nat {
    if files == [] then 0
    else
      FileErrors(files[..|files| - 1], cutoff)
        + match files[|files| - 1]
          case BadFileEntry => 1
          case File(name, None) =>
            if ParseDumpFilename(name).Some? && ParseDumpFilename(name).value < cutoff then 1 else 0
          case _ => 0
  }

  function Eligible(dirs: seq<DirEntry>, cutoff: int): seq<Candidate> {
    if dirs == [] then [] else Eligible(dirs[..|dirs| - 1], cutoff) + DirCandidates(dirs[|dirs| - 1], cutoff)
  }

  function DirCandidates(d: DirEntry, cutoff: int): seq<Candidate> {
    if d.SourceDir? then FileCandidates(d.name, d.files, cutoff) else []
  }

  function ListingErrors(dirs: seq<DirEntry>, cutoff: int): nat {
    if dirs == [] then 0
    else
      ListingErrors(dirs[..|dirs| - 1], cutoff)
        + match dirs[|dirs| - 1]
          case BadDirEntry => 1
          case NotADir => 0
          case Unreadable => 1
          case SourceDir(_, files) => FileErrors(files, cutoff)
  }

  /** The file entry is one of the dumper's, older than the cutoff and readable, and `c` is what it offers in `dir`. */
  predicate Offers(dir: string, f: FileEntry, cutoff: int, c: Candidate) {
    && f.File? && ParseDumpFilename(f.name) == Some(c.minute) && c.minute < cutoff
    && c.path == Path(dir, f.name) && f.size == Some(c.size)
  }

  ghost predicate Listed(dir: string, files: seq<FileEntry>, cutoff: int, c: Candidate) {
    exists f :: f in files && Offers(dir, f, cutoff, c)
  }

  lemma ListedSnoc(dir: string, files: seq<FileEntry>, f: FileEntry, cutoff: int, c: Candidate)
    ensures Listed(dir, files + [f], cutoff, c) <==> Listed(dir, files, cutoff, c) || Offers(dir, f, cutoff, c)
  {
    assert f in files + [f];
  }

  lemma {:induction false} FileCandidatesExactly(dir: string, files: seq<FileEntry>, cutoff: int, c: Candidate)
    ensures c in FileCandidates(dir, files, cutoff) <==> Listed(dir, files, cutoff, c)
  {
    if files != [] {
      var init, last := files[..|files| - 1], files[|files| - 1];
      FileCandidatesExactly(dir, init, cutoff, c);
      assert files == init + [last];
      ListedSnoc(dir, init, last, cutoff, c);
      LastOffers(dir, last, cutoff, c);
    }
  }

  lemma LastOffers(dir: string, f: FileEntry, cutoff: int, c: Candidate)
    ensures c in FileCandidate(dir, f, cutoff) <==> Offers(dir, f, cutoff, c)
  {
  }

  ghost predicate DirOffers(d: DirEntry, cutoff: int, c: Candidate) {
    d.SourceDir? && Listed(d.name, d.files, cutoff, c)
  }

  ghost predicate SomeDirOffers(dirs: seq<DirEntry>, cutoff: int, c: Candidate) {
    exists d :: d in dirs && DirOffers(d, cutoff, c)
  }

  lemma SomeDirOffersSnoc(dirs: seq<DirEntry>, d: DirEntry, cutoff: int, c: Candidate)
    ensures SomeDirOffers(dirs + [d], cutoff, c) <==> SomeDirOffers(dirs, cutoff, c) || DirOffers(d, cutoff, c)
  {
    assert d in dirs + [d];
  }

  lemma DirCandidatesExactly(d: DirEntry, cutoff: int, c: Candidate)
    ensures c in DirCandidates(d, cutoff) <==> DirOffers(d, cutoff, c)
  {
    if d.SourceDir? {
      FileCandidatesExactly(d.name, d.files, cutoff, c);
    }
  }

  /** A file is eligible exactly when a readable source directory lists it, it is the dumper's and it is old enough. */
  lemma {:induction false} EligibleExactly(dirs: seq<DirEntry>, cutoff: int, c: Candidate)
    ensures c in Eligible(dirs, cutoff) <==> SomeDirOffers(dirs, cutoff, c)
  {
    if dirs != [] {
      var init, last := dirs[..|dirs| - 1], dirs[|dirs| - 1];
      EligibleExactly(init, cutoff, c);
      assert dirs == init + [last];
      SomeDirOffersSnoc(init, last, cutoff, c);
      DirCandidatesExactly(last, cutoff, c);
    }
  }

  /** No eligible file is of the current or the previous minute, and each carries the minute that its name says. */
  lemma EligibleAreOld(dirs: seq<DirEntry>, cutoff: int)
    ensures forall c <- Eligible(dirs, cutoff) :: c.minute < cutoff && ParseDumpFilename(c.path.name) == Some(c.minute)
  {
    forall c <- Eligible(dirs, cutoff)
      ensures c.minute < cutoff && ParseDumpFilename(c.path.name) == Some(c.minute)
    {
      EligibleExactly(dirs, cutoff, c);
    }
  }

  // ---- sums over candidates ----

  function ByteSum(cs: seq<Candidate>): nat {
    if cs == [] then 0 else ByteSum(cs[..|cs| - 1]) + cs[|cs| - 1].size
  }

  /** The candidates of `cs` that the unlinks really removed. */
  function Took(cs: seq<Candidate>, unlink: Unlink): seq<Candidate> {
    if cs == [] then []
    else Took(cs[..|cs| - 1], unlink) + (if unlink(cs[|cs| - 1].path).Removed? then [cs[|cs| - 1]] else [])
  }

  function Failures(cs: seq<Candidate>, unlink: Unlink): nat {
    if cs == [] then 0
    else Failures(cs[..|cs| - 1], unlink) + (if unlink(cs[|cs| - 1].path).Failed? then 1 else 0)
  }

  /** Bytes no longer on disk after trying to unlink all of `cs`, whoever removed them. */
  function Freed(cs: seq<Candidate>, unlink: Unlink): nat {
    if cs == [] then 0
    else Freed(cs[..|cs| - 1], unlink) + (if unlink(cs[|cs| - 1].path).Failed? then 0 else cs[|cs| - 1].size)
  }

  /** How each of these grows by one candidate. */
  lemma OneMore(cs: seq<Candidate>, c: Candidate, unlink: Unlink)
    ensures ByteSum(cs + [c]) == ByteSum(cs) + c.size
    ensures Took(cs + [c], unlink) == if unlink(c.path).Removed? then Took(cs, unlink) + [c] else Took(cs, unlink)
    ensures Failures(cs + [c], unlink) == Failures(cs, unlink) + (if unlink(c.path).Failed? then 1 else 0)
    ensures Freed(cs + [c], unlink) == Freed(cs, unlink) + (if unlink(c.path).Failed? then 0 else c.size)
  {
    assert (cs + [c])[..|cs + [c]| - 1] == cs;
  }

  /** `try_unlink`, with the credit its callers give: only a removal counts, only a real failure is an error. */
  method TryUnlink(c: Candidate, unlink: Unlink, before: Report) returns (outcome: UnlinkOutcome, report: Report)
    ensures outcome == unlink(c.path)
    ensures report == match outcome
                      case Removed => Report(before.filesDeleted + 1, before.bytesDeleted + c.size, before.errors)
                      case AlreadyGone => before
                      case Failed => Report(before.filesDeleted, before.bytesDeleted, before.errors + 1)
  {
    outcome := unlink(c.path);
    report := before;
    match outcome {
      case Removed =>
        report := report.(filesDeleted := report.filesDeleted + 1, bytesDeleted := report.bytesDeleted + c.size);
      case AlreadyGone =>
      case Failed =>
        report := report.(errors := report.errors + 1);
    }
  }

  /** `r` credits exactly the removed files, and counts `failures` errors, on top of `before`. */
  predicate Credits(before: Report, r: Report, removed: seq<Candidate>, failures: nat) {
    && r.filesDeleted == before.filesDeleted + |removed|
    && r.bytesDeleted == before.bytesDeleted + ByteSum(removed)
    && r.errors == before.errors + failures
  }

  // ---- age phase ----

  function Expired(cs: seq<Candidate>, cutoff: int): seq<Candidate> {
    if cs == [] then []
    else Expired(cs[..|cs| - 1], cutoff) + (if cs[|cs| - 1].minute < cutoff then [cs[|cs| - 1]] else [])
  }

  function Kept(cs: seq<Candidate>, cutoff: int, unlink: Unlink): seq<Candidate> {
    if cs == [] then []
    else
      var c := cs[|cs| - 1];
      Kept(cs[..|cs| - 1], cutoff, unlink) + (if c.minute >= cutoff || unlink(c.path).Failed? then [c] else [])
  }

  lemma AgeOneMore(cs: seq<Candidate>, c: Candidate, cutoff: int, unlink: Unlink)
    ensures Expired(cs + [c], cutoff) == if c.minute < cutoff then Expired(cs, cutoff) + [c] else Expired(cs, cutoff)
    ensures Kept(cs + [c], cutoff, unlink)
         == if c.minute >= cutoff || unlink(c.path).Failed? then Kept(cs, cutoff, unlink) + [c]
            else Kept(cs, cutoff, unlink)
  {
    assert (cs + [c])[..|cs + [c]| - 1] == cs;
  }

  method AgePhase(cs: seq<Candidate>, cutoff: int, unlink: Unlink, before: Report)
    returns (kept: seq<Candidate>, removed: seq<Candidate>, report: Report)
    ensures kept == Kept(cs, cutoff, unlink)
    ensures removed == Took(Expired(cs, cutoff), unlink)
    ensures Credits(before, report, removed, Failures(Expired(cs, cutoff), unlink))
  {
    kept, removed, report := [], [], before;
    var i := 0;
    while i < |cs|
      invariant i <= |cs|
      invariant kept == Kept(cs[..i], cutoff, unlink)
      invariant removed == Took(Expired(cs[..i], cutoff), unlink)
      invariant Credits(before, report, removed, Failures(Expired(cs[..i], cutoff), unlink))
    {
      var c := cs[i];
      assert cs[..i + 1] == cs[..i] + [c];
      AgeOneMore(cs[..i], c, cutoff, unlink);
      if c.minute >= cutoff {
        kept := kept + [c];
      } else {
        OneMore(Expired(cs[..i], cutoff), c, unlink);
        OneMore(removed, c, unlink);
        var outcome;
        outcome, report := TryUnlink(c, unlink, report);
        match outcome {
          case Removed => removed := removed + [c];
          case AlreadyGone =>
          case Failed => kept := kept + [c];
        }
      }
      i := i + 1;
    }
    assert cs[..i] == cs;
  }

  // ---- size phase ----

  /** `Path::cmp` compares component by component: first the directories, then the names. */
  predicate PathLess(a: Path, b: Path) {
    LexLess(a.dir, b.dir) || (a.dir == b.dir && LexLess(a.name, b.name))
  }

  predicate OlderFirst(a: Candidate, b: Candidate) {
    a.minute < b.minute || (a.minute == b.minute && !PathLess(b.path, a.path))
  }

  function BySeniority(cs: seq<Candidate>): seq<Candidate> {
    SortBy((a, b) => OlderFirst(a, b), cs)
  }

  lemma PathTotal(a: Path, b: Path)
    ensures !(PathLess(a, b) && PathLess(b, a)) && !PathLess(a, a)
    ensures a == b || PathLess(a, b) || PathLess(b, a)
  {
    LexTotal(a.dir, b.dir);
    LexTotal(a.name, b.name);
    LexTotal(a.name, a.name);
    LexTotal(a.dir, a.dir);
  }

  lemma PathTransitive(a: Path, b: Path, c: Path)
    requires PathLess(a, b) && PathLess(b, c)
    ensures PathLess(a, c)
  {
    if LexLess(a.dir, b.dir) && LexLess(b.dir, c.dir) {
      LexTransitive(a.dir, b.dir, c.dir);
    }
    if LexLess(a.name, b.name) && LexLess(b.name, c.name) {
      LexTransitive(a.name, b.name, c.name);
    }
  }

  lemma NoPathLessAcross(a: Path, b: Path, c: Path)
    requires !PathLess(b, a) && !PathLess(c, b)
    ensures !PathLess(c, a)
  {
    PathTotal(a, b);
    PathTotal(b, c);
    if PathLess(c, a) && a != b {
      PathTransitive(c, a, b);
    }
  }

  lemma SeniorityOrders()
    ensures Orders((a: Candidate, b: Candidate) => OlderFirst(a, b))
  {
    var le := (a: Candidate, b: Candidate) => OlderFirst(a, b);
    forall x, y ensures le(x, y) || le(y, x) {
      PathTotal(x.path, y.path);
    }
    forall x, y, z | le(x, y) && le(y, z) ensures le(x, z) {
      if x.minute == y.minute == z.minute {
        NoPathLessAcross(x.path, y.path, z.path);
      }
    }
  }

  lemma Regrouped(dir: string, ext: string, name: string)
    ensures dir + "." + ext + "/" + name == dir + ("." + ext + "/" + name)
    ensures dir + "/" + name == dir + ("/" + name) && dir + "." + ext == dir + ("." + ext) && dir + "" == dir
  {
  }

  /** Why components matter: a directory that extends another's name comes after it, though its path text comes before. */
  lemma ExtendedDirComesLater(dir: string, ext: string, name: string)
    ensures forall other, another :: PathLess(Path(dir, other), Path(dir + "." + ext, another))
    ensures LexLess(dir + "." + ext + "/" + name, dir + "/" + name)
  {
    Regrouped(dir, ext, name);
    LexTotal(dir, dir);
    LexConcat(dir, dir, "", "." + ext);
    LexConcat(dir, dir, "." + ext + "/" + name, "/" + name);
  }

  /**
   The size phase stops after t candidates: before each of them the cap was exceeded, and now it is not (or none are
   left).
   */
  predicate StopsAt(cs: seq<Candidate>, cap: nat, total: nat, unlink: Unlink, t: nat) {
    && t <= |cs|
    && (forall k :: 0 <= k < t ==> total - Freed(cs[..k], unlink) > cap)
    && (t < |cs| ==> total - Freed(cs[..t], unlink) <= cap)
  }

  lemma StopIsUnique(cs: seq<Candidate>, cap: nat, total: nat, unlink: Unlink, t: nat, u: nat)
    requires StopsAt(cs, cap, total, unlink, t) && StopsAt(cs, cap, total, unlink, u)
    ensures t == u
  {
  }

  /** Where the size phase stops, searched from t on. */
  function StopFrom(cs: seq<Candidate>, cap: nat, total: nat, unlink: Unlink, t: nat): (r: nat)
    requires t <= |cs| && forall k :: 0 <= k < t ==> total - Freed(cs[..k], unlink) > cap
    ensures StopsAt(cs, cap, total, unlink, r)
    decreases |cs| - t
  {
    if t == |cs| || total - Freed(cs[..t], unlink) <= cap then t else StopFrom(cs, cap, total, unlink, t + 1)
  }

  /** The size phase never stops before a candidate that a file bigger than the cap follows. */
  lemma StopsPast(cs: seq<Candidate>, cap: nat, unlink: Unlink, t: nat, k: nat, j: nat)
    requires StopsAt(cs, cap, ByteSum(cs), unlink, t) && k < j < |cs| && cs[j].size > cap
    ensures k < t
  {
    if t <= k {
      FreedBefore(cs, t, j, unlink);
    }
  }

  lemma FreedBefore(cs: seq<Candidate>, t: nat, j: nat, unlink: Unlink)
    requires t <= j < |cs|
    ensures Freed(cs[..t], unlink) + cs[j].size <= ByteSum(cs)
  {
    FreedIsMonotone(cs, j, unlink);
    FreedIsMonotone(cs[..j], t, unlink);
    assert cs[..j][..t] == cs[..t];
  }

  lemma {:induction false} FreedIsMonotone(cs: seq<Candidate>, k: nat, unlink: Unlink)
    requires k <= |cs|
    ensures Freed(cs[..k], unlink) <= Freed(cs, unlink) <= ByteSum(cs)
    ensures k < |cs| ==> Freed(cs[..k], unlink) + cs[k].size <= ByteSum(cs)
    decreases |cs|
  {
    if cs != [] {
      var init := cs[..|cs| - 1];
      if k < |cs| {
        FreedIsMonotone(init, k, unlink);
        assert cs[..k] == init[..k];
        if k == |init| { assert cs[..k] == init; }
      } else {
        FreedIsMonotone(init, |init|, unlink);
        assert cs[..k] == cs;
      }
    }
  }

  function SaturatingSub(a: nat, b: nat): nat {
    if b <= a then a - b else 0
  }

  method SizePhase(kept: seq<Candidate>, cap: nat, unlink: Unlink, before: Report)
    returns (removed: seq<Candidate>, report: Report, tried: nat)
    ensures StopsAt(BySeniority(kept), cap, ByteSum(BySeniority(kept)), unlink, tried)
    ensures removed == Took(BySeniority(kept)[..tried], unlink)
    ensures Credits(before, report, removed, Failures(BySeniority(kept)[..tried], unlink))
  {
    var total := TotalBytes(kept);
    BytesIgnoreOrder(kept, BySeniority(kept));
    if total > cap {
      removed, report, tried := Evict(BySeniority(kept), cap, total, unlink, before);
    } else {
      removed, report, tried := [], before, 0;
      assert BySeniority(kept)[..0] == [];
    }
  }

  lemma TryNext(cs: seq<Candidate>, i: nat, removed: seq<Candidate>, unlink: Unlink)
    requires i < |cs|
    ensures var o := unlink(cs[i].path);
            && Took(cs[..i + 1], unlink) == (if o.Removed? then Took(cs[..i], unlink) + [cs[i]] else Took(cs[..i], unlink))
            && Failures(cs[..i + 1], unlink) == Failures(cs[..i], unlink) + (if o.Failed? then 1 else 0)
            && Freed(cs[..i + 1], unlink) == Freed(cs[..i], unlink) + (if o.Failed? then 0 else cs[i].size)
    ensures ByteSum(removed + [cs[i]]) == ByteSum(removed) + cs[i].size
    ensures Freed(cs[..i], unlink) + cs[i].size <= ByteSum(cs)
  {
    assert cs[..i + 1] == cs[..i] + [cs[i]];
    OneMore(cs[..i], cs[i], unlink);
    OneMore(removed, cs[i], unlink);
    FreedIsMonotone(cs, i, unlink);
  }

  /** The loop of the size phase over the sorted candidates. */
  method Evict(candidates: seq<Candidate>, cap: nat, total: nat, unlink: Unlink, before: Report)
    returns (removed: seq<Candidate>, report: Report, tried: nat)
    requires total == ByteSum(candidates)
    ensures StopsAt(candidates, cap, total, unlink, tried)
    ensures removed == Took(candidates[..tried], unlink)
    ensures Credits(before, report, removed, Failures(candidates[..tried], unlink))
  {
    removed, report := [], before;
    var current := total;
    var i := 0;
    while i < |candidates|
      invariant i <= |candidates|
      invariant current == total - Freed(candidates[..i], unlink)
      invariant forall k :: 0 <= k < i ==> total - Freed(candidates[..k], unlink) > cap
      invariant removed == Took(candidates[..i], unlink)
      invariant Credits(before, report, removed, Failures(candidates[..i], unlink))
    {
      if current <= cap {
        break;
      }
      var c := candidates[i];
      TryNext(candidates, i, removed, unlink);
      assert c.size <= current;  // saturating_sub never saturates
      var outcome;
      outcome, report := TryUnlink(c, unlink, report);
      match outcome {
        case Removed =>
          removed := removed + [c];
          current := SaturatingSub(current, c.size);
        case AlreadyGone =>
          current := SaturatingSub(current, c.size);
        case Failed =>
      }
      i := i + 1;
    }
    tried := i;
  }

  method TotalBytes(cs: seq<Candidate>) returns (total: nat)
    ensures total == ByteSum(cs)
  {
    total := 0;
    for i := 0 to |cs|
      invariant total == ByteSum(cs[..i])
    {
      assert cs[..i + 1][..i] == cs[..i];
      total := total + cs[i].size;
    }
    assert cs[..|cs|] == cs;
  }

  lemma WithoutOne(b: seq<Candidate>, x: Candidate) returns (rest: seq<Candidate>)
    requires x in b
    ensures multiset(rest) == multiset(b) - multiset{x} && ByteSum(b) == ByteSum(rest) + x.size
  {
    var i :| 0 <= i < |b| && b[i] == x;
    var before, after := b[..i], b[i + 1..];
    rest := before + after;
    assert b == before + ([x] + after);
    BytesAppend(before, after);
    BytesAppend(before, [x] + after);
    BytesAppend([x], after);
    assert [x][..0] == [];
  }

  lemma {:induction false} BytesIgnoreOrder(a: seq<Candidate>, b: seq<Candidate>)
    requires multiset(a) == multiset(b)
    ensures ByteSum(a) == ByteSum(b)
    decreases |a|
  {
    if a != [] {
      var x, init := a[|a| - 1], a[..|a| - 1];
      assert a == init + [x];
      assert x in multiset(b);
      var rest := WithoutOne(b, x);
      BytesIgnoreOrder(init, rest);
    } else {
      assert |b| == |multiset(b)| == 0;
    }
  }

  lemma {:induction false} BytesAppend(a: seq<Candidate>, b: seq<Candidate>)
    ensures ByteSum(a + b) == ByteSum(a) + ByteSum(b)
  {
    if b == [] {
      assert a + b == a;
    } else {
      BytesAppend(a, b[..|b| - 1]);
      assert (a + b)[..|a + b| - 1] == a + b[..|b| - 1];
    }
  }

  // ---- the whole sweep ----

  method CollectFiles(dir: string, files: seq<FileEntry>, cutoff: int)
    returns (candidates: seq<Candidate>, errors: nat)
    ensures candidates == FileCandidates(dir, files, cutoff) && errors == FileErrors(files, cutoff)
  {
    candidates, errors := [], 0;
    for i := 0 to |files|
      invariant candidates == FileCandidates(dir, files[..i], cutoff) && errors == FileErrors(files[..i], cutoff)
    {
      assert files[..i + 1][..i] == files[..i];
      match files[i] {
        case BadFileEntry => errors := errors + 1;
        case BadName =>
        case File(name, size) =>
          var key := ParseDumpFilename(name);
          if key.Some? && key.value < cutoff {
            match size {
              case None => errors := errors + 1;
              case Some(n) => candidates := candidates + [Candidate(Path(dir, name), key.value, n)];
            }
          }
      }
    }
    assert files[..|files|] == files;
  }

  method CollectCandidates(dirs: seq<DirEntry>, cutoff: int) returns (candidates: seq<Candidate>, errors: nat)
    ensures candidates == Eligible(dirs, cutoff) && errors == ListingErrors(dirs, cutoff)
  {
    candidates, errors := [], 0;
    for i := 0 to |dirs|
      invariant candidates == Eligible(dirs[..i], cutoff) && errors == ListingErrors(dirs[..i], cutoff)
    {
      assert dirs[..i + 1][..i] == dirs[..i];
      match dirs[i] {
        case BadDirEntry => errors := errors + 1;
        case NotADir =>
        case Unreadable => errors := errors + 1;
        case SourceDir(name, files) =>
          var cs, es := CollectFiles(name, files, cutoff);
          candidates, errors := candidates + cs, errors + es;
      }
    }
    assert dirs[..|dirs|] == dirs;
  }

  /** `max_size_mb.saturating_mul(MIB)` on u64. */
  function CapBytes(cfg: Config): nat {
    if cfg.maxSizeMb * MIB <= U64_MAX then cfg.maxSizeMb * MIB else U64_MAX
  }

  function AgeCutoff(cfg: Config, nowMinute: int): int {
    nowMinute - cfg.maxAgeHours * 60
  }

  /** The candidates the age phase tries, those it keeps, and the queue of the size phase; a limit of 0 is no limit. */
  function ToExpire(dirs: seq<DirEntry>, cfg: Config, nowMinute: int): seq<Candidate> {
    if cfg.maxAgeHours == 0 then [] else Expired(Eligible(dirs, RaceCutoff(nowMinute)), AgeCutoff(cfg, nowMinute))
  }

  function Survivors(dirs: seq<DirEntry>, cfg: Config, nowMinute: int, ageUnlink: Unlink): seq<Candidate> {
    var cs := Eligible(dirs, RaceCutoff(nowMinute));
    if cfg.maxAgeHours == 0 then cs else Kept(cs, AgeCutoff(cfg, nowMinute), ageUnlink)
  }

  function Queue(dirs: seq<DirEntry>, cfg: Config, nowMinute: int, ageUnlink: Unlink): seq<Candidate> {
    if cfg.maxSizeMb == 0 then [] else BySeniority(Survivors(dirs, cfg, nowMinute, ageUnlink))
  }

  /**
   What a sweep over readable directories does: the age phase tries everything expired, the size phase tries a prefix
   of the queue and stops as soon as the cap is met, and the report credits exactly the files that were removed.
   */
  predicate Swept(dirs: seq<DirEntry>, cfg: Config, nowMinute: int, ageUnlink: Unlink, sizeUnlink: Unlink,
                  removed: seq<Candidate>, report: Report, tried: nat)
  {
    var expired, queue := ToExpire(dirs, cfg, nowMinute), Queue(dirs, cfg, nowMinute, ageUnlink);
    && StopsAt(queue, CapBytes(cfg), ByteSum(queue), sizeUnlink, tried)
    && removed == Took(expired, ageUnlink) + Took(queue[..tried], sizeUnlink)
    && Credits(Report(0, 0, ListingErrors(dirs, RaceCutoff(nowMinute))), report, removed,
               Failures(expired, ageUnlink) + Failures(queue[..tried], sizeUnlink))
  }

  /** The candidates a sweep tries to unlink, in order. */
  function Tried(dirs: seq<DirEntry>, cfg: Config, nowMinute: int, ageUnlink: Unlink, sizeUnlink: Unlink)
    : seq<Candidate>
  {
    var queue := Queue(dirs, cfg, nowMinute, ageUnlink);
    ToExpire(dirs, cfg, nowMinute) + queue[..StopFrom(queue, CapBytes(cfg), ByteSum(queue), sizeUnlink, 0)]
  }

  /** They are the ones `RunSweep` accounts for. */
  lemma SweptTries(dirs: seq<DirEntry>, cfg: Config, nowMinute: int, ageUnlink: Unlink, sizeUnlink: Unlink,
                   removed: seq<Candidate>, report: Report, tried: nat)
    requires Swept(dirs, cfg, nowMinute, ageUnlink, sizeUnlink, removed, report, tried)
    ensures Tried(dirs, cfg, nowMinute, ageUnlink, sizeUnlink)
         == ToExpire(dirs, cfg, nowMinute) + Queue(dirs, cfg, nowMinute, ageUnlink)[..tried]
    ensures removed == Took(ToExpire(dirs, cfg, nowMinute), ageUnlink)
                       + Took(Queue(dirs, cfg, nowMinute, ageUnlink)[..tried], sizeUnlink)
  {
    var queue := Queue(dirs, cfg, nowMinute, ageUnlink);
    StopIsUnique(queue, CapBytes(cfg), ByteSum(queue), sizeUnlink, tried,
                 StopFrom(queue, CapBytes(cfg), ByteSum(queue), sizeUnlink, 0));
  }

  /** `removed` lists the files this sweep really unlinked. */
  method RunSweep(listing: Listing, cfg: Config, nowMinute: int, ageUnlink: Unlink, sizeUnlink: Unlink)
    returns (report: Report, removed: seq<Candidate>, ghost tried: nat)
    ensures listing.Missing? ==> report == Report(0, 0, 0) && removed == []
    ensures listing.Denied? ==> report == Report(0, 0, 1) && removed == []
    ensures listing.Entries? ==> Swept(listing.dirs, cfg, nowMinute, ageUnlink, sizeUnlink, removed, report, tried)
  {
    report, removed, tried := Report(0, 0, 0), [], 0;
    match listing {
      case Missing => return;
      case Denied =>
        report := report.(errors := 1);
        return;
      case Entries(dirs) =>
        var candidates, errors := CollectCandidates(dirs, RaceCutoff(nowMinute));
        report := report.(errors := errors);
        if cfg.maxAgeHours > 0 {
          candidates, removed, report := AgePhase(candidates, AgeCutoff(cfg, nowMinute), ageUnlink, report);
        }
        assert removed == Took(ToExpire(dirs, cfg, nowMinute), ageUnlink);
        ghost var queue := Queue(dirs, cfg, nowMinute, ageUnlink);
        assert queue[..0] == [];
        if cfg.maxSizeMb > 0 {
          var evicted;
          evicted, report, tried := SizePhase(candidates, CapBytes(cfg), sizeUnlink, report);
          BytesAppend(removed, evicted);
          removed := removed + evicted;
        } else {
          assert removed + [] == removed;
        }
    }
  }

  // ---- what a sweep guarantees ----

  /** Every file a sweep tries to unlink is older than the previous minute and has the name of its minute. */
  lemma SweepsLeaveRecentFiles(dirs: seq<DirEntry>, cfg: Config, nowMinute: int, ageUnlink: Unlink, sizeUnlink: Unlink)
    ensures forall c <- Queue(dirs, cfg, nowMinute, ageUnlink) :: c.minute < RaceCutoff(nowMinute)
    ensures forall c <- Tried(dirs, cfg, nowMinute, ageUnlink, sizeUnlink) ::
              c.minute < RaceCutoff(nowMinute) && ParseDumpFilename(c.path.name) == Some(c.minute)
  {
    var cs := Eligible(dirs, RaceCutoff(nowMinute));
    EligibleAreOld(dirs, RaceCutoff(nowMinute));
    PhasesSelect(cs, AgeCutoff(cfg, nowMinute), ageUnlink);
    SortMembers((a, b) => OlderFirst(a, b), Survivors(dirs, cfg, nowMinute, ageUnlink));
  }

  lemma {:induction false} PhasesSelect(cs: seq<Candidate>, cutoff: int, unlink: Unlink)
    ensures forall c <- Expired(cs, cutoff) :: c in cs && c.minute < cutoff
    ensures forall c :: c in Kept(cs, cutoff, unlink) <==> c in cs && (c.minute >= cutoff || unlink(c.path).Failed?)
  {
    if cs != [] {
      PhasesSelect(cs[..|cs| - 1], cutoff, unlink);
      assert cs == cs[..|cs| - 1] + [cs[|cs| - 1]];
    }
  }

  /** Candidates whose unlink failed: still on disk after being tried. */
  function StillThere(cs: seq<Candidate>, unlink: Unlink): seq<Candidate> {
    if cs == [] then []
    else StillThere(cs[..|cs| - 1], unlink) + if unlink(cs[|cs| - 1].path) == Failed then [cs[|cs| - 1]] else []
  }

  lemma {:induction false} FreedIsGone(cs: seq<Candidate>, unlink: Unlink)
    ensures Freed(cs, unlink) + ByteSum(StillThere(cs, unlink)) == ByteSum(cs)
  {
    if cs != [] {
      var init, last := cs[..|cs| - 1], cs[|cs| - 1];
      FreedIsGone(init, unlink);
      var was := StillThere(init, unlink);
      assert (was + [last])[..|was|] == was && was + [] == was;
    }
  }

  /** Bytes on disk once the first t candidates were tried: those that failed and those not tried yet. */
  function BytesOnDisk(queue: seq<Candidate>, t: nat, unlink: Unlink): nat
    requires t <= |queue|
  {
    LeftOnDisk(queue[..t], queue[t..], unlink)
  }

  function LeftOnDisk(tried: seq<Candidate>, rest: seq<Candidate>, unlink: Unlink): nat {
    ByteSum(StillThere(tried, unlink)) + ByteSum(rest)
  }

  lemma OnDiskIs(queue: seq<Candidate>, tried: seq<Candidate>, rest: seq<Candidate>, unlink: Unlink)
    requires queue == tried + rest
    ensures LeftOnDisk(tried, rest, unlink) == ByteSum(queue) - Freed(tried, unlink)
  {
    FreedIsGone(tried, unlink);
    BytesAppend(tried, rest);
  }

  /**
   Under any outcomes of the unlinks the size phase goes on while more bytes than the cap are on disk - vanished files
   count as gone, failed ones as there - and stops as soon as they are within it, or with every candidate tried.
   */
  lemma StopsByBytesOnDisk(queue: seq<Candidate>, cap: nat, unlink: Unlink, t: nat)
    ensures StopsAt(queue, cap, ByteSum(queue), unlink, t) <==>
            && t <= |queue|
            && (forall k :: 0 <= k < t ==> BytesOnDisk(queue, k, unlink) > cap)
            && (t < |queue| ==> BytesOnDisk(queue, t, unlink) <= cap)
  {
    forall k | 0 <= k <= |queue| ensures BytesOnDisk(queue, k, unlink) == ByteSum(queue) - Freed(queue[..k], unlink) {
      OnDiskIs(queue, queue[..k], queue[k..], unlink);
    }
  }

  /** The unexpired candidates. */
  function Fresh(cs: seq<Candidate>, cutoff: int): seq<Candidate> {
    if cs == [] then []
    else Fresh(cs[..|cs| - 1], cutoff) + (if cs[|cs| - 1].minute >= cutoff then [cs[|cs| - 1]] else [])
  }

  lemma {:induction false} TookAll(cs: seq<Candidate>, unlink: Unlink)
    requires forall c <- cs :: unlink(c.path).Removed?
    ensures Took(cs, unlink) == cs && Freed(cs, unlink) == ByteSum(cs)
  {
    if cs != [] {
      TookAll(cs[..|cs| - 1], unlink);
      assert cs == cs[..|cs| - 1] + [cs[|cs| - 1]];
    }
  }

  lemma {:induction false} KeptAreFresh(cs: seq<Candidate>, cutoff: int, unlink: Unlink)
    requires forall c <- cs :: unlink(c.path).Removed?
    ensures Kept(cs, cutoff, unlink) == Fresh(cs, cutoff)
  {
    if cs != [] {
      KeptAreFresh(cs[..|cs| - 1], cutoff, unlink);
    }
  }

  /** Every candidate is either expired or fresh. */
  lemma {:induction false} ExpiredOrFresh(cs: seq<Candidate>, cutoff: int)
    ensures multiset(Expired(cs, cutoff)) + multiset(Fresh(cs, cutoff)) == multiset(cs)
  {
    if cs != [] {
      ExpiredOrFresh(cs[..|cs| - 1], cutoff);
      assert cs == cs[..|cs| - 1] + [cs[|cs| - 1]];
    }
  }

  /** The shortest prefix of `queue` whose removal brings its bytes down to the cap. */
  predicate ShortestPrefix(queue: seq<Candidate>, cap: nat, t: nat) {
    && t <= |queue|
    && ByteSum(queue) - ByteSum(queue[..t]) <= cap
    && forall k :: 0 <= k < t ==> ByteSum(queue) - ByteSum(queue[..k]) > cap
  }

  lemma StopIsShortest(queue: seq<Candidate>, cap: nat, unlink: Unlink, t: nat)
    requires StopsAt(queue, cap, ByteSum(queue), unlink, t) && forall c <- queue :: unlink(c.path).Removed?
    ensures ShortestPrefix(queue, cap, t) && Took(queue[..t], unlink) == queue[..t]
  {
    forall k | 0 <= k <= |queue|
      ensures Freed(queue[..k], unlink) == ByteSum(queue[..k]) && Took(queue[..k], unlink) == queue[..k]
    {
      TookAll(queue[..k], unlink);
    }
    assert queue[..|queue|] == queue;
  }

  lemma QueueIsSorted(cs: seq<Candidate>)
    ensures multiset(BySeniority(cs)) == multiset(cs)
    ensures Ascending((a: Candidate, b: Candidate) => OlderFirst(a, b), BySeniority(cs))
    ensures forall c :: c in BySeniority(cs) <==> c in cs
  {
    SeniorityOrders();
    SortAscending((a, b) => OlderFirst(a, b), cs);
    SortMembers((a, b) => OlderFirst(a, b), cs);
  }

  /** What is left for the size phase once the age phase has removed everything expired. */
  function Unexpired(dirs: seq<DirEntry>, cfg: Config, nowMinute: int): seq<Candidate> {
    var cs := Eligible(dirs, RaceCutoff(nowMinute));
    if cfg.maxAgeHours == 0 then cs else Fresh(cs, AgeCutoff(cfg, nowMinute))
  }

  lemma SurvivorsAreUnexpired(dirs: seq<DirEntry>, cfg: Config, nowMinute: int, unlink: Unlink)
    requires forall c <- Eligible(dirs, RaceCutoff(nowMinute)) :: unlink(c.path).Removed?
    ensures Survivors(dirs, cfg, nowMinute, unlink) == Unexpired(dirs, cfg, nowMinute)
    ensures forall c <- Unexpired(dirs, cfg, nowMinute) :: unlink(c.path).Removed?
    ensures Took(ToExpire(dirs, cfg, nowMinute), unlink) == ToExpire(dirs, cfg, nowMinute)
  {
    var cs, cutoff := Eligible(dirs, RaceCutoff(nowMinute)), AgeCutoff(cfg, nowMinute);
    KeptAreFresh(cs, cutoff, unlink);
    PhasesSelect(cs, cutoff, unlink);
    TookAll(ToExpire(dirs, cfg, nowMinute), unlink);
  }

  /**
   When every unlink succeeds, a sweep deletes exactly the expired files and then the shortest prefix, oldest first with
   ties by path, of the rest that brings their bytes down to the cap.
   */
  lemma SweepIsExact(dirs: seq<DirEntry>, cfg: Config, nowMinute: int, unlink: Unlink, removed: seq<Candidate>,
                     report: Report, tried: nat)
    requires Swept(dirs, cfg, nowMinute, unlink, unlink, removed, report, tried)
    requires forall c <- Eligible(dirs, RaceCutoff(nowMinute)) :: unlink(c.path).Removed?
    ensures var expired := ToExpire(dirs, cfg, nowMinute);
            var rest := Unexpired(dirs, cfg, nowMinute);
            if cfg.maxSizeMb == 0 then removed == expired
            else
              var queue := BySeniority(rest);
              && ShortestPrefix(queue, CapBytes(cfg), tried)
              && removed == expired + queue[..tried]
              && multiset(queue) == multiset(rest)
              && Ascending((a: Candidate, b: Candidate) => OlderFirst(a, b), queue)
  {
    var rest := Unexpired(dirs, cfg, nowMinute);
    SurvivorsAreUnexpired(dirs, cfg, nowMinute, unlink);
    if cfg.maxSizeMb == 0 {
      assert removed == ToExpire(dirs, cfg, nowMinute) + [];
    } else {
      QueueIsSorted(rest);
      StopIsShortest(BySeniority(rest), CapBytes(cfg), unlink, tried);
    }
  }

  // ---- the limits in hours and bytes ----

  lemma {:induction false} ExpiredExactly(cs: seq<Candidate>, cutoff: int, c: Candidate)
    ensures c in Expired(cs, cutoff) <==> c in cs && c.minute < cutoff
  {
    if cs != [] {
      ExpiredExactly(cs[..|cs| - 1], cutoff, c);
      assert cs == cs[..|cs| - 1] + [cs[|cs| - 1]];
    }
  }

  /** The file is more than the limit of hours old at minute `now`; a limit of 0 is no limit. */
  predicate TooOld(c: Candidate, now: int, maxAgeHours: nat) {
    maxAgeHours > 0 && now - c.minute > 60 * maxAgeHours
  }

  lemma ExpiredAreTooOld(dirs: seq<DirEntry>, cfg: Config, now: int, c: Candidate)
    ensures c in ToExpire(dirs, cfg, now) <==> c in Eligible(dirs, now - 1) && TooOld(c, now, cfg.maxAgeHours)
  {
    ExpiredExactly(Eligible(dirs, now - 1), AgeCutoff(cfg, now), c);
  }

  /** Without a size limit, a sweep whose unlinks succeed removes exactly the eligible files past the age limit. */
  lemma AgeLimitIsExact(dirs: seq<DirEntry>, cfg: Config, now: int, unlink: Unlink, removed: seq<Candidate>,
                        report: Report, tried: nat)
    requires Swept(dirs, cfg, now, unlink, unlink, removed, report, tried) && cfg.maxSizeMb == 0
    requires forall c <- Eligible(dirs, now - 1) :: unlink(c.path).Removed?
    ensures forall c :: c in removed <==> c in Eligible(dirs, now - 1) && TooOld(c, now, cfg.maxAgeHours)
  {
    SweepIsExact(dirs, cfg, now, unlink, removed, report, tried);
    forall c ensures c in removed <==> c in Eligible(dirs, now - 1) && TooOld(c, now, cfg.maxAgeHours) {
      ExpiredAreTooOld(dirs, cfg, now, c);
    }
  }

  lemma EligibleBytes(dirs: seq<DirEntry>, cfg: Config, now: int)
    ensures ByteSum(Eligible(dirs, now - 1)) == ByteSum(ToExpire(dirs, cfg, now)) + ByteSum(Unexpired(dirs, cfg, now))
  {
    var cs := Eligible(dirs, now - 1);
    var expired, rest := ToExpire(dirs, cfg, now), Unexpired(dirs, cfg, now);
    ExpiredOrFresh(cs, AgeCutoff(cfg, now));
    BytesIgnoreOrder(cs, expired + rest);
    BytesAppend(expired, rest);
  }

  lemma LastOfPrefix(queue: seq<Candidate>, t: nat)
    requires 1 <= t <= |queue|
    ensures ByteSum(queue[..t]) == ByteSum(queue[..t - 1]) + queue[t - 1].size
  {
    assert queue[..t][..t - 1] == queue[..t - 1];
  }

  lemma PrefixBytes(expired: seq<Candidate>, queue: seq<Candidate>, cap: nat, t: nat, removed: seq<Candidate>, total: nat)
    requires ShortestPrefix(queue, cap, t) && removed == expired + queue[..t]
    requires total == ByteSum(expired) + ByteSum(queue)
    ensures ByteSum(removed) <= total && total - ByteSum(removed) <= cap
    ensures t > 0 ==> removed != [] && total - ByteSum(removed) + removed[|removed| - 1].size > cap
    ensures t == 0 ==> removed == expired
  {
    BytesAppend(expired, queue[..t]);
    BytesAppend(queue[..t], queue[t..]);
    assert queue == queue[..t] + queue[t..];
    if t > 0 {
      LastOfPrefix(queue, t);
    }
  }

  /** Bytes of eligible files that a sweep leaves. */
  function BytesLeft(dirs: seq<DirEntry>, now: int, removed: seq<Candidate>): int {
    ByteSum(Eligible(dirs, now - 1)) - ByteSum(removed)
  }

  /** The last removal was needed: with that file, the bytes left would pass the limit (or any u64 count of bytes). */
  predicate LastWasNeeded(left: int, removed: seq<Candidate>, maxSizeMb: nat) {
    && removed != []
    && var more := left + removed[|removed| - 1].size;
    more > maxSizeMb * 1_048_576 || more > 0xFFFF_FFFF_FFFF_FFFF
  }

  /** The removed files keep to the limits: see `SizeLimitIsExact`. */
  ghost predicate KeepsTheLimits(dirs: seq<DirEntry>, cfg: Config, now: int, removed: seq<Candidate>) {
    && 0 <= BytesLeft(dirs, now, removed) <= cfg.maxSizeMb * 1_048_576
    && (forall c :: c in Eligible(dirs, now - 1) && TooOld(c, now, cfg.maxAgeHours) ==> c in removed)
    && ((forall c :: c in removed ==> TooOld(c, now, cfg.maxAgeHours))
        || LastWasNeeded(BytesLeft(dirs, now, removed), removed, cfg.maxSizeMb))
  }

  lemma LimitsFromParts(dirs: seq<DirEntry>, cfg: Config, now: int, removed: seq<Candidate>, queue: seq<Candidate>,
                        tried: nat)
    requires ShortestPrefix(queue, CapBytes(cfg), tried) && removed == ToExpire(dirs, cfg, now) + queue[..tried]
    requires ByteSum(Eligible(dirs, now - 1)) == ByteSum(ToExpire(dirs, cfg, now)) + ByteSum(queue)
    ensures KeepsTheLimits(dirs, cfg, now, removed)
  {
    CapInBytes(cfg);
    PrefixBytes(ToExpire(dirs, cfg, now), queue, CapBytes(cfg), tried, removed, ByteSum(Eligible(dirs, now - 1)));
    ExpiredRemoved(dirs, cfg, now, removed, queue[..tried]);
  }

  /**
   With a size limit, a sweep whose unlinks succeed removes every eligible file past the age limit, leaves at most that
   many MiB of eligible files, and removes nothing else unless its last removal was needed for that.
   */
  lemma SizeLimitIsExact(dirs: seq<DirEntry>, cfg: Config, now: int, unlink: Unlink, removed: seq<Candidate>,
                         report: Report, tried: nat)
    requires Swept(dirs, cfg, now, unlink, unlink, removed, report, tried) && cfg.maxSizeMb > 0
    requires forall c <- Eligible(dirs, now - 1) :: unlink(c.path).Removed?
    ensures KeepsTheLimits(dirs, cfg, now, removed)
  {
    SweptParts(dirs, cfg, now, unlink, removed, report, tried);
    QueueBytes(dirs, cfg, now);
    LimitsFromParts(dirs, cfg, now, removed, BySeniority(Unexpired(dirs, cfg, now)), tried);
  }

  lemma SweptParts(dirs: seq<DirEntry>, cfg: Config, now: int, unlink: Unlink, removed: seq<Candidate>, report: Report,
                   tried: nat)
    requires Swept(dirs, cfg, now, unlink, unlink, removed, report, tried) && cfg.maxSizeMb > 0
    requires forall c <- Eligible(dirs, now - 1) :: unlink(c.path).Removed?
    ensures ShortestPrefix(BySeniority(Unexpired(dirs, cfg, now)), CapBytes(cfg), tried)
    ensures removed == ToExpire(dirs, cfg, now) + BySeniority(Unexpired(dirs, cfg, now))[..tried]
  {
    SweepIsExact(dirs, cfg, now, unlink, removed, report, tried);
  }

  lemma QueueBytes(dirs: seq<DirEntry>, cfg: Config, now: int)
    ensures ByteSum(Eligible(dirs, now - 1))
         == ByteSum(ToExpire(dirs, cfg, now)) + ByteSum(BySeniority(Unexpired(dirs, cfg, now)))
  {
    EligibleBytes(dirs, cfg, now);
    BytesIgnoreOrder(Unexpired(dirs, cfg, now), BySeniority(Unexpired(dirs, cfg, now)));
  }

  lemma CapInBytes(cfg: Config)
    ensures CapBytes(cfg) <= cfg.maxSizeMb * 1_048_576
    ensures CapBytes(cfg) == cfg.maxSizeMb * 1_048_576 || CapBytes(cfg) == 0xFFFF_FFFF_FFFF_FFFF
  {
  }

  lemma ExpiredRemoved(dirs: seq<DirEntry>, cfg: Config, now: int, removed: seq<Candidate>, evicted: seq<Candidate>)
    requires removed == ToExpire(dirs, cfg, now) + evicted
    ensures forall c :: c in Eligible(dirs, now - 1) && TooOld(c, now, cfg.maxAgeHours) ==> c in removed
    ensures evicted == [] ==> forall c :: c in removed ==> TooOld(c, now, cfg.maxAgeHours)
  {
    forall c ensures c in ToExpire(dirs, cfg, now) <==> c in Eligible(dirs, now - 1) && TooOld(c, now, cfg.maxAgeHours) {
      ExpiredAreTooOld(dirs, cfg, now, c);
    }
  }

  // ---- what counts as an error ----

  /** An old file of the dumper's that could not be examined. */
  predicate IsUnexamined(e: FileEntry, cutoff: int) {
    e.File? && e.size == None && ParseDumpFilename(e.name).Some? && ParseDumpFilename(e.name).value < cutoff
  }

  function Unexamined(files: seq<FileEntry>, cutoff: int): set<nat> {
    set i: nat | i < |files| && IsUnexamined(files[i], cutoff)
  }

  lemma CountGrows(was: set<nat>, now: set<nat>, n: nat, hit: bool)
    requires n !in was && forall i: nat :: i in now <==> i in was || (i == n && hit)
    ensures |now| == |was| + if hit then 1 else 0
  {
    if hit {
      assert now == was + {n};
    } else {
      assert now == was;
    }
  }

  lemma UnexaminedSnoc(init: seq<FileEntry>, last: FileEntry, cutoff: int)
    ensures |Unexamined(init + [last], cutoff)| == |Unexamined(init, cutoff)| + if IsUnexamined(last, cutoff) then 1 else 0
  {
    CountGrows(Unexamined(init, cutoff), Unexamined(init + [last], cutoff), |init|, IsUnexamined(last, cutoff));
  }

  lemma {:induction false} FileErrorsCount(files: seq<FileEntry>, cutoff: int)
    ensures FileErrors(files, cutoff) == multiset(files)[BadFileEntry] + |Unexamined(files, cutoff)|
  {
    if files != [] {
      var init, last := files[..|files| - 1], files[|files| - 1];
      FileErrorsCount(init, cutoff);
      assert files == init + [last];
      UnexaminedSnoc(init, last, cutoff);
    }
  }

  /** Errors inside the readable source directories. */
  function ErrorsInside(dirs: seq<DirEntry>, cutoff: int): nat {
    if dirs == [] then 0
    else
      ErrorsInside(dirs[..|dirs| - 1], cutoff)
        + match dirs[|dirs| - 1]
          case SourceDir(_, files) => multiset(files)[BadFileEntry] + |Unexamined(files, cutoff)|
          case _ => 0
  }

  /** A sweep's listing errors are its broken entries, its unreadable directories and what is broken inside the others. */
  lemma {:induction false} ListingErrorsCount(dirs: seq<DirEntry>, cutoff: int)
    ensures ListingErrors(dirs, cutoff)
         == multiset(dirs)[BadDirEntry] + multiset(dirs)[Unreadable] + ErrorsInside(dirs, cutoff)
  {
    if dirs != [] {
      var init, last := dirs[..|dirs| - 1], dirs[|dirs| - 1];
      ListingErrorsCount(init, cutoff);
      assert dirs == init + [last];
      if last.SourceDir? {
        FileErrorsCount(last.files, cutoff);
      }
    }
  }
}
