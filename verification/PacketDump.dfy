/**
 The packet dumper (server/h-capture/src/pcap_dump.rs): one pcap file per source and minute, plain (uncompressed) mode.
 The dump tree maps (source directory, minute) to file contents; the operating system's answers are inputs.
 */
module PacketDump {
  import opened Bytes
  import opened Wrappers
  import opened Packets
  import opened Text
  import opened MinuteLabels
  import opened PcapFormat

  const MICROS_PER_MINUTE := 60_000_000

  /** Dafny's `/` by a positive divisor is Rust's `div_euclid`. */
  function MinuteOf(p: RawPacket): int {
    p.timestampUs / MICROS_PER_MINUTE
  }

  // ---- names ----

  predicate SafeChar(c: char) {
    'a' <= c <= 'z' || 'A' <= c <= 'Z' || IsDigit(c) || c == '.' || c == '_' || c == '-'
  }

  function Scrub(s: string): (r: string)
    ensures |r| == |s|
    ensures forall i :: 0 <= i < |s| ==> SafeChar(r[i]) && r[i] == if SafeChar(s[i]) then s[i] else '_'
  {
    seq(|s|, i requires 0 <= i < |s| => if SafeChar(s[i]) then s[i] else '_')
  }

  /** `sanitize_path_component` of server/h-common/src/path.rs. */
  function Sanitize(s: string): (r: Option<string>)
    ensures r.Some? ==> r.value != "" && r.value != "." && r.value != ".." && forall c <- r.value :: SafeChar(c)
  {
    if s == "" then None
    else if Scrub(s) == "." || Scrub(s) == ".." then None
    else Some(Scrub(s))
  }

  datatype FileId = FileId(dir: string, minute: int)

  function FileBase(minute: int): string {
    MinuteLabel(minute) + ".pcap"
  }

  function PathOf(f: FileId): string {
    f.dir + "/" + FileBase(f.minute)
  }

  /** Distinct (directory, minute) pairs are distinct paths below the dump directory, so the tree is a faithful map. */
  lemma PathsDistinct(f: FileId, g: FileId)
    requires '/' !in f.dir && '/' !in g.dir && PathOf(f) == PathOf(g)
    ensures f == g
  {
    FirstMark(f.dir, FileBase(f.minute), g.dir, FileBase(g.minute), '/');
    SuffixSplit(MinuteLabel(f.minute), ".pcap", MinuteLabel(g.minute), ".pcap");
    LabelInjective(f.minute, g.minute);
  }

  // ---- the dumper as a value ----

  datatype SourceWriter = SourceWriter(dir: string, linkType: u32, current: Option<int>)

  datatype DumpState = DumpState(
    writers: map<string, SourceWriter>,
    disabled: set<string>,
    files: map<FileId, seq<byte>>)

  /** What the operating system answers during one call: mkdir, open (with header), record write. */
  datatype Io = Io(mkdirOk: bool, openOk: bool, writeOk: bool)

  const ALL_OK := Io(true, true, true)

  function Disable(s: DumpState, id: string): DumpState {
    s.(disabled := s.disabled + {id})
  }

  /** Phase 1: the source's writer, created on its first packet. */
  function WithWriter(s: DumpState, p: RawPacket, io: Io): DumpState {
    if p.sourceId in s.writers then s
    else
      match Sanitize(p.sourceId)
      case None => Disable(s, p.sourceId)
      case Some(dir) =>
        if io.mkdirOk then s.(writers := s.writers[p.sourceId := SourceWriter(dir, p.linkType, None)])
        else Disable(s, p.sourceId)
  }

  predicate NeedsNewFile(w: SourceWriter, p: RawPacket) {
    w.current.None? || MinuteOf(p) > w.current.value
  }

  /** Opening for append: an absent or empty file gets the global header first. */
  function Opened(files: map<FileId, seq<byte>>, f: FileId, linkType: u32): map<FileId, seq<byte>> {
    if f in files && files[f] != [] then files else files[f := GlobalHeader(linkType)]
  }

  /** Phases 3 and 4: rotation. A failed open closes the old file and mutes the source. */
  function Rotated(s: DumpState, p: RawPacket, io: Io): DumpState
    requires p.sourceId in s.writers
  {
    var w := s.writers[p.sourceId];
    if !NeedsNewFile(w, p) then s
    else if io.openOk then
      s.(writers := s.writers[p.sourceId := w.(current := Some(MinuteOf(p)))],
         files := Opened(s.files, FileId(w.dir, MinuteOf(p)), w.linkType))
    else
      Disable(s.(writers := s.writers[p.sourceId := w.(current := None)]), p.sourceId)
  }

  /** Phase 5: the record goes to the file that is open, whatever the packet's own minute. */
  function Appended(s: DumpState, p: RawPacket, io: Io): DumpState
    requires p.sourceId in s.writers && s.writers[p.sourceId].current.Some?
  {
    var w := s.writers[p.sourceId];
    var f := FileId(w.dir, w.current.value);
    if io.writeOk then
      s.(files := s.files[f := (if f in s.files then s.files[f] else []) + RecordBytes(p)])
    else s
  }

  /** The packet gets past the heartbeat, mute, sanitise and link-type checks. */
  predicate Admitted(s: DumpState, p: RawPacket, io: Io) {
    && !IsHeartbeat(p) && p.sourceId !in s.disabled
    && p.sourceId in WithWriter(s, p, io).writers
    && WithWriter(s, p, io).writers[p.sourceId].linkType == p.linkType
  }

  function WriteNext(s: DumpState, p: RawPacket, io: Io): DumpState {
    if IsHeartbeat(p) || p.sourceId in s.disabled then s
    else
      var s1 := WithWriter(s, p, io);
      if !Admitted(s, p, io) then s1
      else
        var s2 := Rotated(s1, p, io);
        if s2.writers[p.sourceId].current.None? then s2 else Appended(s2, p, io)
  }

  /** The file that takes the packet's record, if one does. */
  function Target(s: DumpState, p: RawPacket, io: Io): Option<FileId> {
    if !Admitted(s, p, io) then None
    else
      var w := Rotated(WithWriter(s, p, io), p, io).writers[p.sourceId];
      if w.current.Some? && io.writeOk then Some(FileId(w.dir, w.current.value)) else None
  }

  /** The packet makes its source close the file it has open and try to open another. */
  predicate Rotates(s: DumpState, p: RawPacket, io: Io) {
    Admitted(s, p, io) && NeedsNewFile(WithWriter(s, p, io).writers[p.sourceId], p)
  }

  /** The dumper itself. `tree` stands for the file system, buffers included. */
  class PacketDumper {
    var writers: map<string, SourceWriter>
    var disabled: set<string>
    var tree: map<FileId, seq<byte>>

    constructor (tree: map<FileId, seq<byte>>)
      ensures State() == DumpState(map[], {}, tree)
    {
      writers, disabled, this.tree := map[], {}, tree;
    }

    ghost function State(): DumpState
      reads this
    {
      DumpState(writers, disabled, tree)
    }

    method Write(p: RawPacket, io: Io)
      modifies this
      ensures State() == WriteNext(old(State()), p, io)
    {
      if IsHeartbeat(p) || p.sourceId in disabled {
        return;
      }
      if p.sourceId !in writers {
        var made := OpenSourceDir(p.sourceId, p.linkType, io);
        match made {
          case Some(sw) => writers := writers[p.sourceId := sw];
          case None => return;
        }
      }
      if writers[p.sourceId].linkType != p.linkType {
        return;
      }
      var minute := MinuteOf(p);
      var source := writers[p.sourceId];
      if source.current.None? || minute > source.current.value {
        writers := writers[p.sourceId := source.(current := None)];
        var ok := OpenMinuteFile(source.dir, minute, source.linkType, io);
        if !ok {
          disabled := disabled + {p.sourceId};
          return;
        }
        writers := writers[p.sourceId := source.(current := Some(minute))];
      }
      source := writers[p.sourceId];
      var f := FileId(source.dir, source.current.value);
      if io.writeOk {
        tree := tree[f := (if f in tree then tree[f] else []) + RecordBytes(p)];
      }
    }

    method OpenSourceDir(sourceId: string, linkType: u32, io: Io) returns (r: Option<SourceWriter>)
      modifies this`disabled
      ensures Sanitize(sourceId).Some? && io.mkdirOk ==>
                r == Some(SourceWriter(Sanitize(sourceId).value, linkType, None)) && disabled == old(disabled)
      ensures !(Sanitize(sourceId).Some? && io.mkdirOk) ==> r == None && disabled == old(disabled) + {sourceId}
    {
      match Sanitize(sourceId) {
        case None =>
          disabled := disabled + {sourceId};
          r := None;
        case Some(dir) =>
          if io.mkdirOk {
            r := Some(SourceWriter(dir, linkType, None));
          } else {
            disabled := disabled + {sourceId};
            r := None;
          }
      }
    }

    method OpenMinuteFile(dir: string, minute: int, linkType: u32, io: Io) returns (ok: bool)
      modifies this`tree
      ensures ok == io.openOk
      ensures tree == if ok then Opened(old(tree), FileId(dir, minute), linkType) else old(tree)
    {
      if !io.openOk {
        return false;
      }
      var f := FileId(dir, minute);
      if f !in tree {
        tree := tree[f := []];
      }
      if tree[f] == [] {
        tree := tree[f := GlobalHeader(linkType)];
      }
      ok := true;
    }
  }

  // ---- failures ----

  /** A name is kept up to unsafe characters, each of which becomes an underscore; empty and dot names are refused. */
  lemma SanitizeExactly(s: string, t: string)
    ensures Sanitize(s) == Some(t) <==>
            && s != "" && |t| == |s| && t != "." && t != ".."
            && forall i :: 0 <= i < |s| ==>
                 t[i] == if 'a' <= s[i] <= 'z' || 'A' <= s[i] <= 'Z' || '0' <= s[i] <= '9' || s[i] in "._-" then s[i] else '_'
  {
    if |t| == |s| && forall i :: 0 <= i < |s| ==> t[i] == Scrub(s)[i] {
      assert t == Scrub(s);
    }
  }

  /** A source that cannot get its directory or its file is muted: until a restart nothing of it is written. */
  lemma FailuresMute(s: DumpState, p: RawPacket, io: Io, q: RawPacket, later: Io)
    requires !IsHeartbeat(p) && p.sourceId !in s.disabled && q.sourceId == p.sourceId
    requires || (p.sourceId !in s.writers && (Sanitize(p.sourceId).None? || !io.mkdirOk))
             || (Rotates(s, p, io) && !io.openOk)
    ensures var s' := WriteNext(s, p, io);
            p.sourceId in s'.disabled && s'.files == s.files && WriteNext(s', q, later) == s'
  {
  }

  /** A failed write loses its record only: the source is not muted and keeps its file. */
  lemma FailedWritesDoNot(s: DumpState, p: RawPacket, io: Io)
    requires Admitted(s, p, io) && io.openOk && !io.writeOk
    ensures var s' := WriteNext(s, p, io);
            && p.sourceId !in s'.disabled && p.sourceId in s'.writers
            && s'.writers[p.sourceId].current.Some? && s'.writers[p.sourceId].current.value >= MinuteOf(p)
            && Target(s, p, io) == None
  {
  }

  // ---- any run: restarts, failures, shared directories ----

  datatype Step =
    | Write(pkt: RawPacket, io: Io)
    | Restart

  /** The dumper, and for every file the link type it was created with and the packets appended to it, in order. */
  datatype History = History(st: DumpState, heads: map<FileId, u32>, records: map<FileId, seq<RawPacket>>)

  function RecordsOf(h: History, f: FileId): seq<RawPacket> {
    if f in h.records then h.records[f] else []
  }

  /** The history between rotation and append. */
  function HalfWay(h: History, p: RawPacket, io: Io): History
    requires Admitted(h.st, p, io)
  {
    var s1 := WithWriter(h.st, p, io);
    var w := s1.writers[p.sourceId];
    var f := FileId(w.dir, MinuteOf(p));
    History(Rotated(s1, p, io),
            if io.openOk && NeedsNewFile(w, p) && f !in h.heads then h.heads[f := w.linkType] else h.heads,
            h.records)
  }

  function AfterWrite(h: History, p: RawPacket, io: Io): History {
    if !Admitted(h.st, p, io) then h.(st := WriteNext(h.st, p, io))
    else
      var half := HalfWay(h, p, io);
      match Target(h.st, p, io)
      case None => half
      case Some(f) => History(Appended(half.st, p, io), half.heads, half.records[f := RecordsOf(half, f) + [p]])
  }

  /** The history follows the dumper. */
  lemma HistoryFollows(h: History, p: RawPacket, io: Io)
    ensures AfterWrite(h, p, io).st == WriteNext(h.st, p, io)
  {
  }

  function AfterStep(h: History, step: Step): History {
    match step
    case Restart => h.(st := DumpState(map[], {}, h.st.files))
    case Write(p, io) => AfterWrite(h, p, io)
  }

  function RunSteps(steps: seq<Step>): History {
    if steps == [] then History(DumpState(map[], {}, map[]), map[], map[])
    else AfterStep(RunSteps(steps[..|steps| - 1]), steps[|steps| - 1])
  }

  /**
   The tree is exactly one header per file followed by that file's records, and every source has its open file in the
   tree, except those in `detached`, whose open file something else has unlinked.
   */
  ghost predicate TreeIsRecords(h: History, detached: set<string>) {
    FilesAreRecords(h) && OpenFilesListed(h.st.writers, h.heads, detached)
  }

  ghost predicate FilesAreRecords(h: History) {
    && h.st.files.Keys == h.heads.Keys
    && h.records.Keys <= h.heads.Keys
    && (forall f <- h.heads :: h.st.files[f] == FileBytes(h.heads[f], RecordsOf(h, f)))
  }

  ghost predicate OpenFilesListed(writers: map<string, SourceWriter>, heads: map<FileId, u32>, detached: set<string>) {
    forall id <- writers :: id in detached || OpenFileListed(writers[id], heads)
  }

  predicate OpenFileListed(w: SourceWriter, heads: map<FileId, u32>) {
    w.current.Some? ==> FileId(w.dir, w.current.value) in heads
  }

  lemma SameFiles(h: History, h': History)
    requires FilesAreRecords(h) && h'.heads == h.heads && h'.records == h.records && h'.st.files == h.st.files
    ensures FilesAreRecords(h')
  {
    assert forall f <- h.heads :: RecordsOf(h', f) == RecordsOf(h, f);
  }

  lemma RecordAdded(linkType: u32, ps: seq<RawPacket>, p: RawPacket)
    ensures FileBytes(linkType, ps + [p]) == FileBytes(linkType, ps) + RecordBytes(p)
  {
    assert (ps + [p])[..|ps|] == ps;
  }

  lemma NewFileIsAHeader(linkType: u32)
    ensures FileBytes(linkType, []) == GlobalHeader(linkType) != []
  {
  }

  lemma OpenKeepsTree(h: History, h': History, id: string, w: SourceWriter, minute: int, detached: set<string>)
    requires TreeIsRecords(h, detached)
    requires var f := FileId(w.dir, minute);
             && h'.heads == (if f in h.heads then h.heads else h.heads[f := w.linkType])
             && h'.records == h.records
             && h'.st.files == Opened(h.st.files, f, w.linkType)
             && h'.st.writers == h.st.writers[id := w.(current := Some(minute))]
    ensures TreeIsRecords(h', detached - {id})
  {
    var f := FileId(w.dir, minute);
    if f in h.heads {
      NewFileIsAHeader(h.heads[f]);
      assert h.st.files[f] == FileBytes(h.heads[f], RecordsOf(h, f)) != [];
      SameFiles(h, h');
    } else {
      HeaderAdded(h, h', f, w.linkType);
    }
    ListedAfterOpening(h.st.writers, h.heads, h'.heads, id, w.(current := Some(minute)), detached);
  }

  lemma HeaderAdded(h: History, h': History, f: FileId, linkType: u32)
    requires FilesAreRecords(h) && f !in h.heads && h'.heads == h.heads[f := linkType] && h'.records == h.records
    requires h'.st.files == h.st.files[f := GlobalHeader(linkType)]
    ensures FilesAreRecords(h')
  {
    NewFileIsAHeader(linkType);
    assert forall g <- h'.heads :: RecordsOf(h', g) == RecordsOf(h, g);
  }

  lemma ListedAfterOpening(writers: map<string, SourceWriter>, heads: map<FileId, u32>, heads': map<FileId, u32>,
                           id: string, w: SourceWriter, detached: set<string>)
    requires OpenFilesListed(writers, heads, detached) && heads.Keys <= heads'.Keys && OpenFileListed(w, heads')
    ensures OpenFilesListed(writers[id := w], heads', detached - {id})
  {
    forall k <- writers[id := w] ensures k in detached - {id} || OpenFileListed(writers[id := w][k], heads') {
      if k != id {
        assert k in detached || OpenFileListed(writers[k], heads);
      }
    }
  }

  lemma WriterKeepsTree(h: History, p: RawPacket, io: Io, detached: set<string>)
    requires TreeIsRecords(h, detached)
    ensures TreeIsRecords(h.(st := WithWriter(h.st, p, io)), detached)
  {
    var st := WithWriter(h.st, p, io);
    if st.writers != h.st.writers {
      NewWriterKeepsTree(h, st, p.sourceId, st.writers[p.sourceId], detached);
    } else {
      SameFiles(h, h.(st := st));
    }
  }

  lemma NewWriterKeepsTree(h: History, st: DumpState, id: string, w: SourceWriter, detached: set<string>)
    requires TreeIsRecords(h, detached) && w.current.None?
    requires st.files == h.st.files && st.writers == h.st.writers[id := w]
    ensures TreeIsRecords(h.(st := st), detached)
  {
    SameFiles(h, h.(st := st));
    ListedAfterOpening(h.st.writers, h.heads, h.heads, id, w, detached);
  }

  /** Changing which file a source has open, or muting it, leaves the tree alone. */
  lemma CloseKeepsTree(h: History, h': History, id: string, w: SourceWriter, detached: set<string>)
    requires TreeIsRecords(h, detached) && id in h.st.writers && h.st.writers[id] == w
    requires h'.heads == h.heads && h'.records == h.records && h'.st.files == h.st.files
    requires (h'.st.writers == h.st.writers && id !in detached)
          || h'.st.writers == h.st.writers[id := w.(current := None)]
    ensures TreeIsRecords(h', detached - {id})
  {
    SameFiles(h, h');
    if h'.st.writers == h.st.writers && id !in detached {
      assert detached - {id} == detached;
    } else {
      ListedAfterOpening(h.st.writers, h.heads, h.heads, id, w.(current := None), detached);
    }
  }

  lemma RotationKeepsTree(h: History, p: RawPacket, io: Io, detached: set<string>)
    requires TreeIsRecords(h, detached) && Admitted(h.st, p, io)
    requires p.sourceId in detached ==> Rotates(h.st, p, io)
    ensures TreeIsRecords(HalfWay(h, p, io), detached - {p.sourceId})
  {
    var h1 := h.(st := WithWriter(h.st, p, io));
    WriterKeepsTree(h, p, io, detached);
    var w := h1.st.writers[p.sourceId];
    if NeedsNewFile(w, p) && io.openOk {
      OpenKeepsTree(h1, HalfWay(h, p, io), p.sourceId, w, MinuteOf(p), detached);
    } else {
      CloseKeepsTree(h1, HalfWay(h, p, io), p.sourceId, w, detached);
    }
  }

  lemma AppendKeepsTree(h: History, h': History, p: RawPacket, f: FileId, detached: set<string>)
    requires TreeIsRecords(h, detached) && f in h.heads
    requires h'.st == h.st.(files := h.st.files[f := h.st.files[f] + RecordBytes(p)])
    requires h'.heads == h.heads && h'.records == h.records[f := RecordsOf(h, f) + [p]]
    ensures TreeIsRecords(h', detached)
  {
    var ps := RecordsOf(h, f);
    RecordAdded(h.heads[f], ps, p);
    assert h'.st.files[f] == FileBytes(h'.heads[f], RecordsOf(h', f));
    forall g <- h'.heads ensures h'.st.files[g] == FileBytes(h'.heads[g], RecordsOf(h', g)) {
      if g != f {
        OtherRecords(h, h', f, ps + [p], g);
      }
    }
  }

  lemma OtherRecords(h: History, h': History, f: FileId, ps: seq<RawPacket>, g: FileId)
    requires h'.records == h.records[f := ps] && g != f
    ensures RecordsOf(h', g) == RecordsOf(h, g)
  {
  }

  lemma WriteKeepsTree(h: History, p: RawPacket, io: Io, detached: set<string>)
    requires TreeIsRecords(h, detached) && (p.sourceId in detached ==> Rotates(h.st, p, io))
    ensures TreeIsRecords(AfterWrite(h, p, io), detached - {p.sourceId})
  {
    if Admitted(h.st, p, io) {
      RotationKeepsTree(h, p, io, detached);
      if Target(h.st, p, io).Some? {
        TargetKeepsTree(h, p, io, HalfWay(h, p, io), Target(h.st, p, io).value, detached - {p.sourceId});
      }
    } else {
      WriterKeepsTree(h, p, io, detached);
      assert detached - {p.sourceId} == detached;
    }
  }

  lemma TargetKeepsTree(h: History, p: RawPacket, io: Io, half: History, f: FileId, detached: set<string>)
    requires Admitted(h.st, p, io) && half == HalfWay(h, p, io) && TreeIsRecords(half, detached)
    requires Target(h.st, p, io) == Some(f) && p.sourceId !in detached
    ensures TreeIsRecords(AfterWrite(h, p, io), detached)
  {
    assert OpenFileListed(half.st.writers[p.sourceId], half.heads);
    AppendKeepsTree(half, AfterWrite(h, p, io), p, f, detached);
  }

  /**
   After any number of writes, I/O failures and restarts, every file of the dump tree is one global header followed by
   exactly the records that were appended to it, in order.
   */
  lemma {:induction false} OneHeaderPerFile(steps: seq<Step>)
    ensures TreeIsRecords(RunSteps(steps), {})
  {
    if steps != [] {
      OneHeaderPerFile(steps[..|steps| - 1]);
      match steps[|steps| - 1] {
        case Write(p, io) => WriteKeepsTree(RunSteps(steps[..|steps| - 1]), p, io, {});
        case Restart =>
      }
    }
  }

  /** So every file whose packets are representable reads back as those packets. */
  lemma EveryFileReadsBack(steps: seq<Step>, f: FileId)
    requires f in RunSteps(steps).st.files
    requires forall p <- RecordsOf(RunSteps(steps), f) :: Representable(p)
    ensures var h := RunSteps(steps);
            && f in h.heads
            && ReadCapture(h.st.files[f]) == Some(Capture(h.heads[f], AllStripped(RecordsOf(h, f))))
  {
    OneHeaderPerFile(steps);
    var h := RunSteps(steps);
    FileRoundTrip(h.heads[f], RecordsOf(h, f));
  }
}
