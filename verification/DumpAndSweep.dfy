/**
 The dumper and the retention sweeper running side by side on one dump tree. A sweep reads the clock and lists the tree
 once, then unlinks its targets one by one, with packet writes, clock ticks and other sweeps in between.

 A source keeps its minute file open. Once something unlinks that file the source is detached: it goes on writing into
 a file that no directory lists, until it opens another.
 */
module DumpAndSweep {
  import opened Wrappers
  import opened Bytes
  import opened Packets
  import opened MinuteLabels
  import opened PcapFormat
  import opened PacketDump
  import opened Retention
  import opened DumpListings

  /** A record appended to a file: the files already unlinked at that moment, and whether it went into one of them. */
  datatype Append = Append(pkt: RawPacket, file: FileId, gone: set<FileId>, lost: bool)

  /** `sweeps` holds the targets of every sweep that has started, `detached` the sources whose open file is unlinked. */
  datatype System = System(
    hist: History,
    now: int,
    sweeps: seq<seq<Candidate>>,
    unlinked: set<FileId>,
    detached: set<string>,
    appends: seq<Append>)

  datatype Action =
    | Tick(minutes: nat)
    | Write(pkt: RawPacket, io: Io)
    | RestartDumper
    | StartSweep(dirs: seq<DirEntry>, cfg: Config, ageUnlink: Unlink, sizeUnlink: Unlink)
    | UnlinkTarget(sweep: nat, target: nat)

  const EMPTY_DUMP := DumpState(map[], {}, map[])

  function Boot(now: int): System {
    System(History(EMPTY_DUMP, map[], map[]), now, [], {}, {}, [])
  }

  /** The packet's record goes into an unlinked file: its source is detached and does not open another file first. */
  predicate Loses(s: System, p: RawPacket, io: Io) {
    && p.sourceId in s.detached && !Rotates(s.hist.st, p, io) && Target(s.hist.st, p, io).Some?
  }

  function AfterWriting(s: System, p: RawPacket, io: Io): System {
    var appends := match Target(s.hist.st, p, io)
                   case Some(f) => s.appends + [Append(p, f, s.unlinked, Loses(s, p, io))]
                   case None => s.appends;
    if p.sourceId in s.detached && !Rotates(s.hist.st, p, io) then s.(appends := appends)
    else s.(hist := AfterWrite(s.hist, p, io), detached := s.detached - {p.sourceId}, appends := appends)
  }

  /** The sources that have `f` open. */
  function Holders(writers: map<string, SourceWriter>, f: FileId): set<string> {
    set id | id in writers && Holds(writers[id], f)
  }

  predicate Holds(w: SourceWriter, f: FileId) {
    w.dir == f.dir && w.current == Some(f.minute)
  }

  function AfterUnlink(s: System, f: FileId): System {
    var h := s.hist;
    s.(hist := History(h.st.(files := h.st.files - {f}), h.heads - {f}, h.records - {f}),
       unlinked := s.unlinked + {f},
       detached := s.detached + Holders(h.st.writers, f))
  }

  /** The dumper's file that a target names, if it does. */
  function FileOf(c: Candidate): Option<FileId> {
    if c.path.name == FileBase(c.minute) then Some(FileId(c.path.dir, c.minute)) else None
  }

  function After(s: System, a: Action): System {
    match a
    case Tick(n) => s.(now := s.now + n)
    case Write(p, io) => AfterWriting(s, p, io)
    case RestartDumper => s.(hist := AfterStep(s.hist, Restart), detached := {})
    case StartSweep(dirs, cfg, age, size) => s.(sweeps := s.sweeps + [Tried(dirs, cfg, s.now, age, size)])
    case UnlinkTarget(i, k) =>
      if i < |s.sweeps| && k < |s.sweeps[i]| then
        match FileOf(s.sweeps[i][k])
        case Some(f) => if f in s.hist.st.files then AfterUnlink(s, f) else s
        case None => s
      else s
  }

  function Run(now: int, actions: seq<Action>): System {
    if actions == [] then Boot(now)
    else After(Run(now, actions[..|actions| - 1]), actions[|actions| - 1])
  }

  lemma RunSnoc(now: int, actions: seq<Action>, a: Action)
    ensures Run(now, actions + [a]) == After(Run(now, actions), a)
  {
    assert (actions + [a])[..|actions|] == actions;
  }

  // ---- what sweeps put at risk ----

  /** Everything that sweeps have unlinked or may still unlink is older than the previous minute, and of an `ok` minute. */
  ghost predicate AtRisk(s: System, ok: int -> bool) {
    && (forall f <- s.unlinked :: f.minute < s.now - 1 && ok(f.minute))
    && (forall i, k :: 0 <= i < |s.sweeps| && 0 <= k < |s.sweeps[i]| ==> TargetIsOld(s.sweeps[i][k], s.now, ok))
  }

  predicate TargetIsOld(c: Candidate, now: int, ok: int -> bool) {
    c.minute < now - 1 && (FileOf(c).Some? ==> ok(c.minute))
  }

  function Labelled(): int -> bool {
    m => Labelable(m)
  }

  ghost predicate OnlyOldAtRisk(s: System) {
    AtRisk(s, Labelled())
  }

  lemma TargetsAreOld(dirs: seq<DirEntry>, cfg: Config, now: int, ageUnlink: Unlink, sizeUnlink: Unlink)
    ensures forall c <- Tried(dirs, cfg, now, ageUnlink, sizeUnlink) :: TargetIsOld(c, now, Labelled())
  {
    SweepsLeaveRecentFiles(dirs, cfg, now, ageUnlink, sizeUnlink);
    forall c <- Tried(dirs, cfg, now, ageUnlink, sizeUnlink) ensures TargetIsOld(c, now, Labelled()) {
      OwnNameIsOld(c, now);
    }
  }

  lemma OwnNameIsOld(c: Candidate, now: int)
    requires c.minute < now - 1 && ParseDumpFilename(c.path.name) == Some(c.minute)
    ensures TargetIsOld(c, now, Labelled())
  {
    DumpedFilesAreRecognised(c.minute);
  }

  lemma UnlinkIs(s: System, i: nat, k: nat, f: FileId)
    requires i < |s.sweeps| && k < |s.sweeps[i]| && FileOf(s.sweeps[i][k]) == Some(f)
    ensures After(s, UnlinkTarget(i, k)) == if f in s.hist.st.files then AfterUnlink(s, f) else s
  {
  }

  lemma TargetAtRisk(s: System, i: nat, k: nat, ok: int -> bool)
    requires AtRisk(s, ok) && i < |s.sweeps| && k < |s.sweeps[i]|
    ensures TargetIsOld(s.sweeps[i][k], s.now, ok)
  {
  }

  lemma TakenKeepsRecentSafe(s: System, f: FileId, ok: int -> bool)
    requires AtRisk(s, ok) && f.minute < s.now - 1 && ok(f.minute)
    ensures AtRisk(AfterUnlink(s, f), ok)
  {
  }

  lemma UnlinkKeepsRecentSafe(s: System, i: nat, k: nat, ok: int -> bool)
    requires AtRisk(s, ok)
    ensures AtRisk(After(s, UnlinkTarget(i, k)), ok)
  {
    if i < |s.sweeps| && k < |s.sweeps[i]| && FileOf(s.sweeps[i][k]).Some? {
      var f := FileOf(s.sweeps[i][k]).value;
      TargetAtRisk(s, i, k, ok);
      UnlinkIs(s, i, k, f);
      TakenKeepsRecentSafe(s, f, ok);
    } else {
      assert After(s, UnlinkTarget(i, k)) == s;
    }
  }

  lemma StartKeepsRecentSafe(s: System, tried: seq<Candidate>, ok: int -> bool)
    requires AtRisk(s, ok) && forall c <- tried :: TargetIsOld(c, s.now, ok)
    ensures AtRisk(s.(sweeps := s.sweeps + [tried]), ok)
  {
    var s' := s.(sweeps := s.sweeps + [tried]);
    forall i, k | 0 <= i < |s'.sweeps| && 0 <= k < |s'.sweeps[i]| ensures TargetIsOld(s'.sweeps[i][k], s'.now, ok) {
      if i == |s.sweeps| {
        assert tried[k] in tried;
      }
    }
  }

  lemma StepKeepsRecentSafe(s: System, a: Action)
    requires OnlyOldAtRisk(s)
    ensures OnlyOldAtRisk(After(s, a))
  {
    match a {
      case StartSweep(dirs, cfg, age, size) =>
        TargetsAreOld(dirs, cfg, s.now, age, size);
        StartKeepsRecentSafe(s, Tried(dirs, cfg, s.now, age, size), Labelled());
      case UnlinkTarget(i, k) => UnlinkKeepsRecentSafe(s, i, k, Labelled());
      case _ =>
    }
  }

  /** In every interleaving, timely or not, no file of the current or the previous minute has been unlinked. */
  lemma {:induction false} RecentFilesSurvive(now: int, actions: seq<Action>)
    ensures OnlyOldAtRisk(Run(now, actions))
  {
    if actions != [] {
      RecentFilesSurvive(now, actions[..|actions| - 1]);
      StepKeepsRecentSafe(Run(now, actions[..|actions| - 1]), actions[|actions| - 1]);
    }
  }

  // ---- what the tree holds ----

  /** A detached source has a file open, and that file has been unlinked. */
  predicate DetachedTrue(s: System) {
    forall id <- s.detached :: id in s.hist.st.writers && OpenFileGone(s.hist.st.writers[id], s.unlinked)
  }

  predicate OpenFileGone(w: SourceWriter, unlinked: set<FileId>) {
    w.current.Some? && FileId(w.dir, w.current.value) in unlinked
  }

  /** The packets appended to `f`, in order. */
  function AppendedTo(appends: seq<Append>, f: FileId): seq<RawPacket> {
    if appends == [] then []
    else
      AppendedTo(appends[..|appends| - 1], f)
        + (if appends[|appends| - 1].file == f then [appends[|appends| - 1].pkt] else [])
  }

  /** Every file that was never unlinked holds all that was ever appended to it. */
  ghost predicate RecordsTrue(s: System) {
    forall f :: f !in s.unlinked ==> RecordsOf(s.hist, f) == AppendedTo(s.appends, f)
  }

  ghost predicate TreeTrue(s: System) {
    TreeIsRecords(s.hist, s.detached) && DetachedTrue(s) && RecordsTrue(s)
  }

  lemma AppendedSnoc(appends: seq<Append>, a: Append, f: FileId)
    ensures AppendedTo(appends + [a], f)
         == if a.file == f then AppendedTo(appends, f) + [a.pkt] else AppendedTo(appends, f)
  {
    assert (appends + [a])[..|appends|] == appends;
  }

  /** A detached source that does not rotate writes to its unlinked file or not at all. */
  lemma LostTarget(s: System, p: RawPacket, io: Io)
    requires DetachedTrue(s) && p.sourceId in s.detached && !Rotates(s.hist.st, p, io)
    ensures Target(s.hist.st, p, io).Some? ==> Target(s.hist.st, p, io).value in s.unlinked
  {
  }

  lemma RecordsAfterWrite(h: History, p: RawPacket, io: Io, f: FileId)
    ensures RecordsOf(AfterWrite(h, p, io), f)
         == if Target(h.st, p, io) == Some(f) then RecordsOf(h, f) + [p] else RecordsOf(h, f)
  {
  }

  /** Only the packet's own source gets another file. */
  lemma OtherWritersStay(h: History, p: RawPacket, io: Io)
    ensures forall id <- h.st.writers :: id != p.sourceId ==>
              id in AfterWrite(h, p, io).st.writers && AfterWrite(h, p, io).st.writers[id] == h.st.writers[id]
  {
  }

  lemma WritingKeepsTheTree(s: System, p: RawPacket, io: Io)
    requires TreeTrue(s)
    ensures TreeTrue(AfterWriting(s, p, io))
  {
    var s' := AfterWriting(s, p, io);
    if p.sourceId in s.detached && !Rotates(s.hist.st, p, io) {
      LostTarget(s, p, io);
    } else {
      WriteKeepsTree(s.hist, p, io, s.detached);
      OtherWritersStay(s.hist, p, io);
    }
    forall f | f !in s'.unlinked ensures RecordsOf(s'.hist, f) == AppendedTo(s'.appends, f) {
      WritingRecords(s, p, io, f);
    }
  }

  lemma WritingRecords(s: System, p: RawPacket, io: Io, f: FileId)
    requires TreeTrue(s) && f !in s.unlinked
    ensures RecordsOf(AfterWriting(s, p, io).hist, f) == AppendedTo(AfterWriting(s, p, io).appends, f)
  {
    var t := Target(s.hist.st, p, io);
    RecordsAfterWrite(s.hist, p, io, f);
    if t.Some? {
      AppendedSnoc(s.appends, Append(p, t.value, s.unlinked, Loses(s, p, io)), f);
    }
    if p.sourceId in s.detached && !Rotates(s.hist.st, p, io) {
      LostTarget(s, p, io);
    }
  }

  lemma UnlinkKeepsTheTree(s: System, f: FileId)
    requires TreeTrue(s)
    ensures TreeTrue(AfterUnlink(s, f))
  {
    var s' := AfterUnlink(s, f);
    FilesWithout(s.hist, s'.hist, f);
    ListedWithout(s.hist.st.writers, s.hist.heads, f, s.detached);
  }

  lemma FilesWithout(h: History, h': History, f: FileId)
    requires FilesAreRecords(h)
    requires h'.heads == h.heads - {f} && h'.records == h.records - {f} && h'.st.files == h.st.files - {f}
    ensures FilesAreRecords(h') && forall g :: g != f ==> RecordsOf(h', g) == RecordsOf(h, g)
  {
    assert forall g :: g != f ==> RecordsOf(h', g) == RecordsOf(h, g);
    forall g <- h'.heads ensures h'.st.files[g] == FileBytes(h'.heads[g], RecordsOf(h', g)) {
      KeptFile(h, h', f, g);
    }
  }

  lemma KeptFile(h: History, h': History, f: FileId, g: FileId)
    requires FilesAreRecords(h) && g in h.heads && g != f && RecordsOf(h', g) == RecordsOf(h, g)
    requires h'.heads == h.heads - {f} && h'.st.files == h.st.files - {f}
    ensures g in h'.st.files && h'.st.files[g] == FileBytes(h'.heads[g], RecordsOf(h', g))
  {
  }

  lemma ListedWithout(writers: map<string, SourceWriter>, heads: map<FileId, u32>, f: FileId, detached: set<string>)
    requires OpenFilesListed(writers, heads, detached)
    ensures OpenFilesListed(writers, heads - {f}, detached + Holders(writers, f))
  {
    forall id <- writers ensures id in detached + Holders(writers, f) || OpenFileListed(writers[id], heads - {f}) {
      assert id in detached || OpenFileListed(writers[id], heads);
    }
  }

  lemma StepKeepsTheTree(s: System, a: Action)
    requires TreeTrue(s)
    ensures TreeTrue(After(s, a))
  {
    match a {
      case Write(p, io) => WritingKeepsTheTree(s, p, io);
      case RestartDumper => SameFiles(s.hist, After(s, a).hist);
      case UnlinkTarget(i, k) =>
        if After(s, a) != s {
          UnlinkKeepsTheTree(s, FileOf(s.sweeps[i][k]).value);
        }
      case _ =>
    }
  }

  /**
   In every interleaving of writes, restarts, failures, clock ticks and sweeps the tree is exactly one header per file
   followed by its records, and a file that was never unlinked holds every record ever appended to it, in order.
   */
  lemma {:induction false} SweptTreeIsRecords(now: int, actions: seq<Action>)
    ensures TreeTrue(Run(now, actions))
  {
    if actions != [] {
      SweptTreeIsRecords(now, actions[..|actions| - 1]);
      StepKeepsTheTree(Run(now, actions[..|actions| - 1]), actions[|actions| - 1]);
    }
  }

  /** So every such file reads back as the packets appended to it. */
  lemma SurvivorsReadBack(now: int, actions: seq<Action>, f: FileId)
    requires f in Run(now, actions).hist.st.files && f !in Run(now, actions).unlinked
    requires forall p <- AppendedTo(Run(now, actions).appends, f) :: Representable(p)
    ensures var s := Run(now, actions);
            && f in s.hist.heads
            && ReadCapture(s.hist.st.files[f]) == Some(Capture(s.hist.heads[f], AllStripped(AppendedTo(s.appends, f))))
  {
    SweptTreeIsRecords(now, actions);
    var s := Run(now, actions);
    FileRoundTrip(s.hist.heads[f], RecordsOf(s.hist, f));
  }

  // ---- which writes can be lost ----

  /** The record would go, without rotation, into a labelled file older than the previous minute. */
  predicate Exposed(s: System, p: RawPacket, io: Io) {
    && !Rotates(s.hist.st, p, io)
    && Target(s.hist.st, p, io).Some?
    && Sweepable(Target(s.hist.st, p, io).value.minute, s.now)
  }

  predicate IsSweeping(a: Action) {
    a.StartSweep? || a.UnlinkTarget?
  }

  predicate SweepsOnly(actions: seq<Action>) {
    forall i :: 0 <= i < |actions| ==> IsSweeping(actions[i])
  }

  /** Where a packet goes depends on writers and muted sources only. */
  lemma SameTarget(s: DumpState, s': DumpState, p: RawPacket, io: Io)
    requires s'.writers == s.writers && s'.disabled == s.disabled
    ensures Target(s', p, io) == Target(s, p, io) && Rotates(s', p, io) == Rotates(s, p, io)
  {
  }

  predicate SameWriters(s: System, s': System) {
    s'.hist.st.writers == s.hist.st.writers && s'.hist.st.disabled == s.hist.st.disabled && s'.now == s.now
  }

  lemma SweepingStep(s: System, a: Action)
    requires IsSweeping(a)
    ensures SameWriters(s, After(s, a))
  {
  }

  lemma {:induction false} SweepingMovesNoWriter(now: int, actions: seq<Action>, more: seq<Action>)
    requires SweepsOnly(more)
    ensures SameWriters(Run(now, actions), Run(now, actions + more))
    decreases |more|
  {
    if more == [] {
      assert actions + more == actions;
    } else {
      var init, last := more[..|more| - 1], more[|more| - 1];
      SweepingMovesNoWriter(now, actions, init);
      assert actions + more == actions + init + [last];
      RunSnoc(now, actions + init, last);
      SweepingStep(Run(now, actions + init), last);
    }
  }

  /** A lost record's file is sweepable. */
  lemma LostIsExposed(s: System, p: RawPacket, io: Io)
    requires OnlyOldAtRisk(s) && DetachedTrue(s) && Loses(s, p, io)
    ensures Exposed(s, p, io)
  {
    LostTarget(s, p, io);
  }

  // ---- honest sweeps ----

  function Unlinks(sweep: nat, n: nat): seq<Action> {
    seq(n, k requires 0 <= k < n => UnlinkTarget(sweep, k))
  }

  /** One whole sweep of an honest listing: it starts and tries each of its candidates in order. */
  ghost predicate HonestSweep(s: System, acts: seq<Action>) {
    && acts != [] && acts[0].StartSweep?
    && Honest(s.hist.st.files, acts[0].dirs)
    && var a := acts[0];
    acts[1..] == Unlinks(|s.sweeps|, |Tried(a.dirs, a.cfg, s.now, a.ageUnlink, a.sizeUnlink)|)
  }

  /** The actions of that whole sweep. */
  ghost function SweepOf(s: System, f: FileId, age: Unlink, size: Unlink): seq<Action> {
    var dirs := TrueListing(s.hist.st.files, f);
    [StartSweep(dirs, ONE_MIB, age, size)] + Unlinks(|s.sweeps|, |Tried(dirs, ONE_MIB, s.now, age, size)|)
  }

  lemma SweepOfIsHonest(s: System, f: FileId, age: Unlink, size: Unlink)
    ensures HonestSweep(s, SweepOf(s, f, age, size))
  {
    TrueListingIsHonest(s.hist.st.files, f);
  }

  lemma HonestSweepsOnlySweep(s: System, acts: seq<Action>)
    requires HonestSweep(s, acts)
    ensures SweepsOnly(acts)
  {
    forall i | 0 <= i < |acts| ensures IsSweeping(acts[i]) {
      if i > 0 {
        assert acts[i] == acts[1..][i - 1];
      }
    }
  }

  // ---- a sweep of the open file detaches its source ----

  /** Candidate k of sweep i is the file that source `id` has open. */
  predicate IsOpenFile(s: System, i: nat, k: int, id: string) {
    && i < |s.sweeps| && 0 <= k < |s.sweeps[i]| && id in s.hist.st.writers
    && FileOf(s.sweeps[i][k]).Some? && Holds(s.hist.st.writers[id], FileOf(s.sweeps[i][k]).value)
  }

  lemma UnlinkDetaches(s: System, i: nat, k: nat, id: string)
    requires TreeTrue(s) && IsOpenFile(s, i, k, id)
    ensures id in After(s, UnlinkTarget(i, k)).detached
  {
    assert id in s.detached || OpenFileListed(s.hist.st.writers[id], s.hist.heads);
    var f := FileOf(s.sweeps[i][k]).value;
    UnlinkIs(s, i, k, f);
    HolderDetached(s, id, f);
  }

  lemma HolderDetached(s: System, id: string, f: FileId)
    requires id in s.hist.st.writers && Holds(s.hist.st.writers[id], f)
    ensures id in AfterUnlink(s, f).detached
  {
  }

  lemma UnlinksSnoc(i: nat, n: nat)
    ensures Unlinks(i, n + 1) == Unlinks(i, n) + [UnlinkTarget(i, n)]
  {
  }

  /** Unlinks move no writer, start no sweep and detach for good. */
  predicate Moved(s: System, s': System) {
    SameWriters(s, s') && s'.sweeps == s.sweeps && s.detached <= s'.detached
  }

  lemma UnlinkStep(s: System, i: nat, k: nat)
    ensures Moved(s, After(s, UnlinkTarget(i, k)))
  {
  }

  /** From s to s' the source's open file was taken if it was among the first n candidates of sweep i. */
  ghost predicate Detaches(s: System, s': System, i: nat, n: nat, id: string) {
    Moved(s, s') && forall k :: k < n && IsOpenFile(s, i, k, id) ==> id in s'.detached
  }

  lemma DetachesStep(s: System, s1: System, i: nat, n: nat, id: string)
    requires Detaches(s, s1, i, n, id) && TreeTrue(s1)
    ensures Detaches(s, After(s1, UnlinkTarget(i, n)), i, n + 1, id)
  {
    UnlinkStep(s1, i, n);
    if IsOpenFile(s1, i, n, id) {
      UnlinkDetaches(s1, i, n, id);
    }
  }

  lemma {:induction false} UnlinksDetach(now: int, actions: seq<Action>, s: System, i: nat, n: nat, id: string)
    requires s == Run(now, actions)
    ensures Detaches(s, Run(now, actions + Unlinks(i, n)), i, n, id)
    decreases n
  {
    if n == 0 {
      assert actions + Unlinks(i, 0) == actions;
    } else {
      var before := actions + Unlinks(i, n - 1);
      UnlinksDetach(now, actions, s, i, n - 1, id);
      SweptTreeIsRecords(now, before);
      DetachesStep(s, Run(now, before), i, n - 1, id);
      UnlinksSnoc(i, n - 1);
      assert actions + Unlinks(i, n) == before + [UnlinkTarget(i, n - 1)];
      RunSnoc(now, before, UnlinkTarget(i, n - 1));
    }
  }

  lemma StartThenUnlinks(actions: seq<Action>, start: Action, rest: seq<Action>)
    ensures actions + ([start] + rest) == actions + [start] + rest
  {
  }

  /** The started sweep has f among its candidates, unless f was gone already and its holder detached. */
  lemma SweepHasTheFile(s: System, s1: System, id: string, f: FileId, tried: seq<Candidate>, age: Unlink, size: Unlink)
    requires TreeTrue(s) && Sweepable(f.minute, s.now)
    requires id in s.hist.st.writers && Holds(s.hist.st.writers[id], f) && id !in s.detached
    requires tried == Tried(TrueListing(s.hist.st.files, f), ONE_MIB, s.now, age, size)
    requires s1 == s.(sweeps := s.sweeps + [tried])
    ensures exists k :: k < |tried| && IsOpenFile(s1, |s.sweeps|, k, id)
  {
    assert OpenFileListed(s.hist.st.writers[id], s.hist.heads);
    FileIsTried(s.hist.st.files, f, s.now, age, size);
    var k :| 0 <= k < |tried| && tried[k] == PlainCandidate(s.hist.st.files, f);
    assert s1.sweeps[|s.sweeps|] == tried && FileOf(tried[k]) == Some(f);
    assert IsOpenFile(s1, |s.sweeps|, k, id);
  }

  /** After the whole sweep the source that had f open is detached. */
  lemma SweepDetaches(now: int, actions: seq<Action>, s: System, id: string, f: FileId, age: Unlink, size: Unlink)
    requires s == Run(now, actions) && Sweepable(f.minute, s.now)
    requires id in s.hist.st.writers && Holds(s.hist.st.writers[id], f)
    ensures var s' := Run(now, actions + SweepOf(s, f, age, size));
            SameWriters(s, s') && id in s'.detached
  {
    var dirs := TrueListing(s.hist.st.files, f);
    var start := StartSweep(dirs, ONE_MIB, age, size);
    var tried := Tried(dirs, ONE_MIB, s.now, age, size);
    var s1 := s.(sweeps := s.sweeps + [tried]);
    RunSnoc(now, actions, start);
    StartThenUnlinks(actions, start, Unlinks(|s.sweeps|, |tried|));
    UnlinksDetach(now, actions + [start], s1, |s.sweeps|, |tried|, id);
    SweptTreeIsRecords(now, actions);
    assert actions + SweepOf(s, f, age, size) == actions + [start] + Unlinks(|s.sweeps|, |tried|);
    if id !in s.detached {
      SweepHasTheFile(s, s1, id, f, tried, age, size);
    }
  }

  /** The target of a write that does not rotate is the file its source has open. */
  lemma TargetIsHeld(s: System, p: RawPacket, io: Io)
    requires !Rotates(s.hist.st, p, io) && Target(s.hist.st, p, io).Some?
    ensures p.sourceId in s.hist.st.writers
    ensures Holds(s.hist.st.writers[p.sourceId], Target(s.hist.st, p, io).value)
  {
  }

  lemma ExposedCanBeLost(now: int, actions: seq<Action>, p: RawPacket, io: Io, age: Unlink, size: Unlink)
    returns (more: seq<Action>)
    requires Exposed(Run(now, actions), p, io)
    ensures HonestSweep(Run(now, actions), more) && Loses(Run(now, actions + more), p, io)
  {
    var s := Run(now, actions);
    var f := Target(s.hist.st, p, io).value;
    TargetIsHeld(s, p, io);
    more := SweepOf(s, f, age, size);
    SweepOfIsHonest(s, f, age, size);
    SweepDetaches(now, actions, s, p.sourceId, f, age, size);
    SameTarget(s.hist.st, Run(now, actions + more).hist.st, p, io);
  }

  /** Sweeping loses no other writes, honest or not. */
  lemma OnlyExposedAreLost(now: int, actions: seq<Action>, more: seq<Action>, p: RawPacket, io: Io)
    requires SweepsOnly(more) && Loses(Run(now, actions + more), p, io)
    ensures Exposed(Run(now, actions), p, io)
  {
    RecentFilesSurvive(now, actions + more);
    SweptTreeIsRecords(now, actions + more);
    LostIsExposed(Run(now, actions + more), p, io);
    SweepingMovesNoWriter(now, actions, more);
    SameTarget(Run(now, actions).hist.st, Run(now, actions + more).hist.st, p, io);
  }

  /**
   Exactly which writes sweeping can lose. In any reachable state a write that would go, without opening a file, into a
   labelled file older than the previous minute is lost after one whole sweep of some honest listing; no other write is
   lost by any further sweeping, whatever the sweeps list and however far they get.
   */
  lemma LosableExactly(now: int, actions: seq<Action>, p: RawPacket, io: Io)
    ensures (exists more :: HonestSweep(Run(now, actions), more) && Loses(Run(now, actions + more), p, io))
            <==> Exposed(Run(now, actions), p, io)
    ensures (exists more :: SweepsOnly(more) && Loses(Run(now, actions + more), p, io))
            <==> Exposed(Run(now, actions), p, io)
  {
    forall more | SweepsOnly(more) && Loses(Run(now, actions + more), p, io) ensures Exposed(Run(now, actions), p, io) {
      OnlyExposedAreLost(now, actions, more, p, io);
    }
    forall more | HonestSweep(Run(now, actions), more) ensures SweepsOnly(more) {
      HonestSweepsOnlySweep(Run(now, actions), more);
    }
    if Exposed(Run(now, actions), p, io) {
      var more := ExposedCanBeLost(now, actions, p, io, _ => UnlinkOutcome.Removed, _ => UnlinkOutcome.Removed);
    }
  }

  // ---- timely packets ----

  /** The packet is of the current or the previous minute when it is written. */
  predicate Timely(s: System, a: Action) {
    a.Write? ==> MinuteOf(a.pkt) >= s.now - 1
  }

  predicate AllTimely(now: int, actions: seq<Action>) {
    forall i :: 0 <= i < |actions| ==> Timely(Run(now, actions[..i]), actions[i])
  }

  /** The record goes to a file no older than the packet. */
  lemma TargetIsNoOlder(d: DumpState, p: RawPacket, io: Io)
    ensures Target(d, p, io).Some? ==> Target(d, p, io).value.minute >= MinuteOf(p)
  {
  }

  /** No write whose target is of the current or the previous minute meets an unlinked file, whatever came before. */
  lemma RecentTargetsAreSafe(now: int, actions: seq<Action>, p: RawPacket, io: Io)
    requires var s := Run(now, actions);
             Target(s.hist.st, p, io).Some? ==> Target(s.hist.st, p, io).value.minute >= s.now - 1
    ensures var s := Run(now, actions);
            && !Loses(s, p, io)
            && (Target(s.hist.st, p, io).Some? ==> Target(s.hist.st, p, io).value !in s.unlinked)
  {
    RecentFilesSurvive(now, actions);
    SweptTreeIsRecords(now, actions);
    if Loses(Run(now, actions), p, io) {
      LostIsExposed(Run(now, actions), p, io);
    }
  }

  /**
   In every interleaving of writes, restarts, failures, clock ticks and sweeps in which packets are timely, no record
   is ever appended to a file that a sweep has unlinked.
   */
  lemma {:induction false} NoRecordGoesToAnUnlinkedFile(now: int, actions: seq<Action>)
    requires AllTimely(now, actions)
    ensures forall a <- Run(now, actions).appends :: a.file !in a.gone && !a.lost
  {
    if actions != [] {
      var init, last := actions[..|actions| - 1], actions[|actions| - 1];
      forall i | 0 <= i < |init| ensures Timely(Run(now, init[..i]), init[i]) {
        assert init[..i] == actions[..i] && Timely(Run(now, actions[..i]), actions[i]);
      }
      NoRecordGoesToAnUnlinkedFile(now, init);
      var s := Run(now, init);
      assert Timely(s, last);
      if last.Write? {
        TargetIsNoOlder(s.hist.st, last.pkt, last.io);
        RecentTargetsAreSafe(now, init, last.pkt, last.io);
      }
    }
  }

  // ---- a run that loses a record ----

  /** The source of `p` still has the file of p's minute open, and that file has been unlinked. */
  predicate OpenFileUnlinked(s: System, p: RawPacket) {
    && p.sourceId in s.hist.st.writers && p.sourceId !in s.hist.st.disabled && p.sourceId in s.detached
    && var w := s.hist.st.writers[p.sourceId];
    && w.linkType == p.linkType && w.current == Some(MinuteOf(p))
    && FileId(w.dir, MinuteOf(p)) in s.unlinked
  }

  /** A late packet of the same source, link type and minute is then lost: the tree stays as it is. */
  lemma LatePacketGoesToAnUnlinkedFile(s: System, p: RawPacket, late: RawPacket)
    requires OpenFileUnlinked(s, p) && !IsHeartbeat(late)
    requires late.sourceId == p.sourceId && late.linkType == p.linkType && MinuteOf(late) == MinuteOf(p)
    ensures var s' := After(s, Action.Write(late, ALL_OK));
            && |s'.appends| == |s.appends| + 1 && s'.hist == s.hist
            && var a := s'.appends[|s.appends|];
            && a.pkt == late && a.file in a.gone && a.lost
  {
  }

  /** A packet is written and its source falls silent for three minutes. */
  function SilentFor3(p: RawPacket): seq<Action> {
    [Action.Write(p, ALL_OK), Tick(3)]
  }

  lemma SilentState(p: RawPacket)
    requires !IsHeartbeat(p) && Sanitize(p.sourceId).Some?
    ensures var s := Run(MinuteOf(p), SilentFor3(p));
            && s.now == MinuteOf(p) + 3
            && p.sourceId in s.hist.st.writers && p.sourceId !in s.hist.st.disabled
            && s.hist.st.writers[p.sourceId]
               == SourceWriter(Sanitize(p.sourceId).value, p.linkType, Some(MinuteOf(p)))
  {
    var write := Action.Write(p, ALL_OK);
    RunSnoc(MinuteOf(p), [], write);
    RunSnoc(MinuteOf(p), [write], Tick(3));
    assert [] + [write] == [write] && [write] + [Tick(3)] == SilentFor3(p);
  }

  /**
   Every source with a usable name can get there, from its first packet in any minute that labels have room for: three
   silent minutes, then one whole sweep of an honest listing, however its unlinks end.
   */
  lemma SilentSourceExample(p: RawPacket, age: Unlink, size: Unlink)
    requires !IsHeartbeat(p) && Sanitize(p.sourceId).Some? && Labelable(MinuteOf(p))
    ensures var s := Run(MinuteOf(p), SilentFor3(p));
            var sweep := SweepOf(s, FileId(Sanitize(p.sourceId).value, MinuteOf(p)), age, size);
            && HonestSweep(s, sweep)
            && OpenFileUnlinked(Run(MinuteOf(p), SilentFor3(p) + sweep), p)
  {
    var now, quiet := MinuteOf(p), SilentFor3(p);
    var s, f := Run(now, quiet), FileId(Sanitize(p.sourceId).value, MinuteOf(p));
    SilentState(p);
    SweepOfIsHonest(s, f, age, size);
    SweepDetaches(now, quiet, s, p.sourceId, f, age, size);
    SweptTreeIsRecords(now, quiet + SweepOf(s, f, age, size));
  }
}
