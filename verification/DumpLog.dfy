/**
 Rotation refines a simple log. The log of a source looks at the packets alone: its packets of the link type it started
 with, in arrival order, each filed under the greatest minute seen so far.
 */
module DumpLog {
  import opened Bytes
  import opened Wrappers
  import opened Packets
  import opened Text
  import opened Calendar
  import opened MinuteLabels
  import opened PcapFormat
  import opened PacketDump

  // ---- the log ----

  predicate Relevant(p: RawPacket, id: string) {
    !IsHeartbeat(p) && p.sourceId == id
  }

  /** The link type of the source's first packet. */
  function Pinned(pkts: seq<RawPacket>, id: string): Option<u32> {
    if pkts == [] then None
    else
      match Pinned(pkts[..|pkts| - 1], id)
      case Some(t) => Some(t)
      case None => if Relevant(pkts[|pkts| - 1], id) then Some(pkts[|pkts| - 1].linkType) else None
  }

  /** The source's packets of its pinned link type, in arrival order. */
  function Log(pkts: seq<RawPacket>, id: string): seq<RawPacket> {
    if pkts == [] then []
    else
      var last := pkts[|pkts| - 1];
      Log(pkts[..|pkts| - 1], id)
        + (if Relevant(last, id) && Pinned(pkts, id) == Some(last.linkType) then [last] else [])
  }

  function MaxMinute(log: seq<RawPacket>): int
    requires log != []
  {
    var m := MinuteOf(log[|log| - 1]);
    if |log| == 1 then m
    else if m > MaxMinute(log[..|log| - 1]) then m
    else MaxMinute(log[..|log| - 1])
  }

  /** The minutes at which the running maximum rises: the keys of the source's files. */
  function Keys(log: seq<RawPacket>): seq<int> {
    if log == [] then []
    else if |log| == 1 || MaxMinute(log) > MaxMinute(log[..|log| - 1]) then Keys(log[..|log| - 1]) + [MaxMinute(log)]
    else Keys(log[..|log| - 1])
  }

  /** The packets filed under minute m: those that arrived while the running maximum was m. */
  function Filed(log: seq<RawPacket>, m: int): seq<RawPacket> {
    if log == [] then []
    else Filed(log[..|log| - 1], m) + (if MaxMinute(log) == m then [log[|log| - 1]] else [])
  }

  /** The contents of the files with the given keys, one after the other. */
  function ReadFiles(keys: seq<int>, log: seq<RawPacket>): seq<RawPacket> {
    if keys == [] then [] else ReadFiles(keys[..|keys| - 1], log) + Filed(log, keys[|keys| - 1])
  }

  lemma {:induction false} KeysIncrease(log: seq<RawPacket>)
    ensures forall i, j :: 0 <= i < j < |Keys(log)| ==> Keys(log)[i] < Keys(log)[j]
    ensures log != [] ==> Keys(log) != [] && Keys(log)[|Keys(log)| - 1] == MaxMinute(log)
    ensures forall m :: m !in Keys(log) ==> Filed(log, m) == []
  {
    if log != [] {
      KeysIncrease(log[..|log| - 1]);
    }
  }

  lemma {:induction false} OtherFilesUntouched(keys: seq<int>, log: seq<RawPacket>)
    requires log != [] && MaxMinute(log) !in keys
    ensures ReadFiles(keys, log) == ReadFiles(keys, log[..|log| - 1])
  {
    if keys != [] {
      OtherFilesUntouched(keys[..|keys| - 1], log);
    }
  }

  lemma ReadLast(before: seq<int>, k: int, log: seq<RawPacket>)
    ensures ReadFiles(before + [k], log) == ReadFiles(before, log) + Filed(log, k)
  {
    assert (before + [k])[..|before + [k]| - 1] == before;
  }

  /** Filing one more packet under the last key extends what the files read back to by that packet. */
  lemma OneMoreFiled(before: seq<int>, log: seq<RawPacket>, init: seq<RawPacket>, top: int)
    requires log != [] && init == log[..|log| - 1] && top == MaxMinute(log) && top !in before
    ensures ReadFiles(before + [top], log) == ReadFiles(before + [top], init) + [log[|log| - 1]]
  {
    ReadLast(before, top, log);
    ReadLast(before, top, init);
    OtherFilesUntouched(before, log);
    var a, b, c := ReadFiles(before, init), Filed(init, top), [log[|log| - 1]];
    assert a + (b + c) == (a + b) + c;
  }

  /** The keys before the last one. */
  function Earlier(log: seq<RawPacket>): seq<int> {
    var ks := Keys(log);
    if ks == [] then [] else ks[..|ks| - 1]
  }

  lemma KeysEndAtTheTop(log: seq<RawPacket>)
    requires log != []
    ensures Keys(log) == Earlier(log) + [MaxMinute(log)] && MaxMinute(log) !in Earlier(log)
  {
    KeysIncrease(log);
  }

  predicate Rises(init: seq<RawPacket>, top: int) {
    init == [] || top > MaxMinute(init)
  }

  lemma KeysUnfold(log: seq<RawPacket>, init: seq<RawPacket>)
    requires log != [] && init == log[..|log| - 1]
    ensures Keys(log) == if Rises(init, MaxMinute(log)) then Keys(init) + [MaxMinute(log)] else Keys(init)
  {
  }

  /** Nothing is filed above the running maximum. */
  lemma NothingAbove(init: seq<RawPacket>, top: int)
    requires Rises(init, top)
    ensures Filed(init, top) == []
  {
    KeysIncrease(init);
    if top in Keys(init) {
      assert top <= MaxMinute(init);
    }
  }

  lemma InitReads(log: seq<RawPacket>, init: seq<RawPacket>, keys: seq<int>)
    requires log != [] && init == log[..|log| - 1] && keys == Keys(init) && ReadFiles(keys, init) == init
    ensures ReadFiles(Keys(log), init) == init
  {
    var top := MaxMinute(log);
    KeysUnfold(log, init);
    if Rises(init, top) {
      NothingAbove(init, top);
      ReadLast(keys, top, init);
    }
  }

  /** Reading a source's files in key order gives its log, in arrival order; the keys strictly increase. */
  lemma {:induction false} FilesInKeyOrderAreTheLog(log: seq<RawPacket>)
    ensures ReadFiles(Keys(log), log) == log
    ensures forall i, j :: 0 <= i < j < |Keys(log)| ==> Keys(log)[i] < Keys(log)[j]
  {
    KeysIncrease(log);
    ReadBack(log, Keys(log));
  }

  lemma {:induction false} ReadBack(log: seq<RawPacket>, keys: seq<int>)
    requires keys == Keys(log)
    ensures ReadFiles(keys, log) == log
    decreases |log|
  {
    if log != [] {
      var init := log[..|log| - 1];
      ReadBack(init, Keys(init));
      InitReads(log, init, Keys(init));
      KeysEndAtTheTop(log);
      OneMoreRead(log, init, keys, Earlier(log), MaxMinute(log));
    }
  }

  lemma OneMoreRead(log: seq<RawPacket>, init: seq<RawPacket>, keys: seq<int>, earlier: seq<int>, top: int)
    requires log != [] && init == log[..|log| - 1] && top == MaxMinute(log)
    requires keys == earlier + [top] && top !in earlier && ReadFiles(keys, init) == init
    ensures ReadFiles(keys, log) == log
  {
    OneMoreFiled(earlier, log, init, top);
    assert init + [log[|log| - 1]] == log;
  }

  // ---- the dumper, without I/O failures ----

  function Run(pkts: seq<RawPacket>): DumpState {
    if pkts == [] then DumpState(map[], {}, map[])
    else WriteNext(Run(pkts[..|pkts| - 1]), pkts[|pkts| - 1], ALL_OK)
  }

  /** The sources of a run, none of which share a directory. */
  ghost predicate DistinctNames(ids: set<string>) {
    forall a <- ids, b <- ids :: a != b && Sanitize(a).Some? ==> Sanitize(a) != Sanitize(b)
  }

  predicate From(pkts: seq<RawPacket>, ids: set<string>) {
    forall p <- pkts :: p.sourceId in ids
  }

  /** Writer, mute set and files of one source say what its log says. */
  ghost predicate SourceTrue(s: DumpState, pkts: seq<RawPacket>, id: string) {
    var log := Log(pkts, id);
    && (log == [] <==> Pinned(pkts, id) == None)
    && (id in s.writers <==> log != [] && Sanitize(id).Some?)
    && (id in s.disabled <==> log != [] && Sanitize(id).None?)
    && (id in s.writers ==>
          s.writers[id] == SourceWriter(Sanitize(id).value, Pinned(pkts, id).value, Some(MaxMinute(log))))
    && (Sanitize(id).Some? ==>
          DirTrue(s.files, Sanitize(id).value, if log == [] then 0 else Pinned(pkts, id).value, log))
  }

  lemma PinnedStep(pkts: seq<RawPacket>, id: string)
    requires pkts != [] && !Relevant(pkts[|pkts| - 1], id)
    ensures Pinned(pkts, id) == Pinned(pkts[..|pkts| - 1], id) && Log(pkts, id) == Log(pkts[..|pkts| - 1], id)
  {
  }

  /** A write touches only its own source's writer, mute flag and directory. */
  lemma OthersUntouched(s: DumpState, p: RawPacket, id: string)
    requires id != p.sourceId
    requires Sanitize(p.sourceId) != Sanitize(id) || Sanitize(id) == None
    requires p.sourceId in s.writers ==> Sanitize(p.sourceId) == Some(s.writers[p.sourceId].dir)
    ensures var s' := WriteNext(s, p, ALL_OK);
            && (id in s'.writers <==> id in s.writers) && (id in s.writers ==> s'.writers[id] == s.writers[id])
            && (id in s'.disabled <==> id in s.disabled)
            && (Sanitize(id).Some? ==> forall m :: var f := FileId(Sanitize(id).value, m);
                  && (f in s'.files <==> f in s.files)
                  && (f in s.files ==> s'.files[f] == s.files[f]))
  {
    if Sanitize(id).Some? {
      forall m {
        OtherFileUntouched(s, p, FileId(Sanitize(id).value, m));
      }
    }
  }

  lemma OtherFileUntouched(s: DumpState, p: RawPacket, f: FileId)
    requires Sanitize(p.sourceId) != Some(f.dir)
    requires p.sourceId in s.writers ==> Sanitize(p.sourceId) == Some(s.writers[p.sourceId].dir)
    ensures var s' := WriteNext(s, p, ALL_OK);
            && (f in s'.files <==> f in s.files)
            && (f in s.files ==> s'.files[f] == s.files[f])
  {
  }

  lemma KeysStep(log: seq<RawPacket>, p: RawPacket)
    ensures var log' := log + [p];
            && log'[..|log| + 1 - 1] == log
            && MaxMinute(log') == (if log == [] || MinuteOf(p) > MaxMinute(log) then MinuteOf(p) else MaxMinute(log))
            && Keys(log') == (if log == [] || MinuteOf(p) > MaxMinute(log) then Keys(log) + [MinuteOf(p)] else Keys(log))
            && forall m :: Filed(log', m) == if m == MaxMinute(log') then Filed(log, m) + [p] else Filed(log, m)
  {
    assert (log + [p])[..|log| + 1 - 1] == log;
  }

  /** A packet of the open file's minute or earlier is appended to that file. */
  lemma WriteToOpen(s: DumpState, p: RawPacket, w: SourceWriter, top: int)
    requires !IsHeartbeat(p) && p.sourceId !in s.disabled && p.sourceId in s.writers
    requires s.writers[p.sourceId] == w && w.linkType == p.linkType && w.current == Some(top) && MinuteOf(p) <= top
    requires FileId(w.dir, top) in s.files
    ensures var f := FileId(w.dir, top);
            WriteNext(s, p, ALL_OK) == s.(files := s.files[f := s.files[f] + RecordBytes(p)])
  {
  }

  /** A packet of a later minute, or the first one, starts a file of its own. */
  lemma WriteToNew(s: DumpState, p: RawPacket, dir: string)
    requires !IsHeartbeat(p) && p.sourceId !in s.disabled
    requires if p.sourceId in s.writers then
               var w := s.writers[p.sourceId];
               w.dir == dir && w.linkType == p.linkType && w.current.Some? && MinuteOf(p) > w.current.value
             else Sanitize(p.sourceId) == Some(dir)
    requires FileId(dir, MinuteOf(p)) !in s.files
    ensures WriteNext(s, p, ALL_OK)
         == s.(writers := s.writers[p.sourceId := SourceWriter(dir, p.linkType, Some(MinuteOf(p)))],
               files := s.files[FileId(dir, MinuteOf(p)) := GlobalHeader(p.linkType) + RecordBytes(p)])
  {
  }

  /** The files of one directory hold what the log files under their keys. */
  ghost predicate DirTrue(files: map<FileId, seq<byte>>, dir: string, linkType: u32, log: seq<RawPacket>) {
    && (forall m :: FileId(dir, m) in files <==> m in Keys(log))
    && (forall m <- Keys(log) :: files[FileId(dir, m)] == FileBytes(linkType, Filed(log, m)))
  }

  lemma DirStep(files: map<FileId, seq<byte>>, dir: string, linkType: u32, log: seq<RawPacket>, log': seq<RawPacket>,
                p: RawPacket, top: int, added: seq<byte>)
    requires DirTrue(files, dir, linkType, log) && log' == log + [p] && top == MaxMinute(log')
    requires added == FileBytes(linkType, Filed(log', top))
    ensures DirTrue(files[FileId(dir, top) := added], dir, linkType, log')
  {
    KeysStep(log, p);
    TopIsAKey(log);
    PutFile(files, dir, linkType, log, log', top, added);
  }

  lemma TopIsAKey(log: seq<RawPacket>)
    ensures log != [] ==> MaxMinute(log) in Keys(log)
  {
    KeysIncrease(log);
  }

  lemma PutFile(files: map<FileId, seq<byte>>, dir: string, linkType: u32, log: seq<RawPacket>, log': seq<RawPacket>,
                top: int, added: seq<byte>)
    requires DirTrue(files, dir, linkType, log)
    requires forall m :: m in Keys(log') <==> m == top || m in Keys(log)
    requires forall m :: m != top ==> Filed(log', m) == Filed(log, m)
    requires added == FileBytes(linkType, Filed(log', top))
    ensures DirTrue(files[FileId(dir, top) := added], dir, linkType, log')
  {
    var files' := files[FileId(dir, top) := added];
    forall m <- Keys(log') ensures files'[FileId(dir, m)] == FileBytes(linkType, Filed(log', m)) {
      assert m == top || m in Keys(log);
    }
  }

  /** The state after an accepted packet was filed under the new running maximum. */
  ghost predicate Accepted(s: DumpState, s': DumpState, p: RawPacket, dir: string, log': seq<RawPacket>)
    requires log' != []
  {
    && s'.disabled == s.disabled
    && s'.writers == s.writers[p.sourceId := SourceWriter(dir, p.linkType, Some(MaxMinute(log')))]
    && s'.files == s.files[FileId(dir, MaxMinute(log')) := FileBytes(p.linkType, Filed(log', MaxMinute(log')))]
  }

  lemma StandingMaximum(s: DumpState, p: RawPacket, dir: string, log: seq<RawPacket>)
    requires !IsHeartbeat(p) && p.sourceId !in s.disabled && p.sourceId in s.writers
    requires log != [] && s.writers[p.sourceId] == SourceWriter(dir, p.linkType, Some(MaxMinute(log)))
    requires DirTrue(s.files, dir, p.linkType, log) && MinuteOf(p) <= MaxMinute(log)
    ensures Accepted(s, WriteNext(s, p, ALL_OK), p, dir, log + [p])
  {
    var top := MaxMinute(log);
    KeysStep(log, p);
    TopIsAKey(log);
    RecordAdded(p.linkType, Filed(log, top), p);
    WriteToOpen(s, p, s.writers[p.sourceId], top);
    assert s.writers[p.sourceId := s.writers[p.sourceId]] == s.writers;
  }

  lemma RisingMaximum(s: DumpState, p: RawPacket, dir: string, log: seq<RawPacket>)
    requires !IsHeartbeat(p) && p.sourceId !in s.disabled && Sanitize(p.sourceId) == Some(dir)
    requires if log == [] then p.sourceId !in s.writers
             else p.sourceId in s.writers && MinuteOf(p) > MaxMinute(log)
                  && s.writers[p.sourceId] == SourceWriter(dir, p.linkType, Some(MaxMinute(log)))
    requires DirTrue(s.files, dir, p.linkType, log)
    ensures Accepted(s, WriteNext(s, p, ALL_OK), p, dir, log + [p])
  {
    KeysStep(log, p);
    AboveTheTop(log, MinuteOf(p));
    RecordAdded(p.linkType, [], p);
    NewFileIsAHeader(p.linkType);
    WriteToNew(s, p, dir);
  }

  lemma AboveTheTop(log: seq<RawPacket>, m: int)
    requires log != [] ==> m > MaxMinute(log)
    ensures m !in Keys(log) && Filed(log, m) == []
  {
    KeysIncrease(log);
  }

  /** The write of an accepted packet to the file of the new running maximum. */
  lemma AcceptedWrite(s: DumpState, p: RawPacket, dir: string, log: seq<RawPacket>)
    requires !IsHeartbeat(p) && p.sourceId !in s.disabled && Sanitize(p.sourceId) == Some(dir)
    requires if log == [] then p.sourceId !in s.writers
             else p.sourceId in s.writers
                  && s.writers[p.sourceId] == SourceWriter(dir, p.linkType, Some(MaxMinute(log)))
    requires DirTrue(s.files, dir, p.linkType, log)
    ensures var s' := WriteNext(s, p, ALL_OK);
            && s'.disabled == s.disabled
            && s'.writers == s.writers[p.sourceId := SourceWriter(dir, p.linkType, Some(MaxMinute(log + [p])))]
            && DirTrue(s'.files, dir, p.linkType, log + [p])
  {
    var log' := log + [p];
    if log != [] && MinuteOf(p) <= MaxMinute(log) {
      StandingMaximum(s, p, dir, log);
    } else {
      RisingMaximum(s, p, dir, log);
    }
    DirStep(s.files, dir, p.linkType, log, log', p, MaxMinute(log'), FileBytes(p.linkType, Filed(log', MaxMinute(log'))));
  }

  lemma LogStep(pkts: seq<RawPacket>, id: string)
    requires pkts != [] && Relevant(pkts[|pkts| - 1], id)
    ensures var init, last := pkts[..|pkts| - 1], pkts[|pkts| - 1];
            if Pinned(init, id) == None || Pinned(init, id) == Some(last.linkType)
            then Log(pkts, id) == Log(init, id) + [last] && Pinned(pkts, id) == Some(last.linkType)
            else Log(pkts, id) == Log(init, id) && Pinned(pkts, id) == Pinned(init, id)
  {
  }

  /** One write keeps its own source's account. */
  lemma OwnStep(s: DumpState, pkts: seq<RawPacket>, id: string)
    requires pkts != [] && pkts[|pkts| - 1].sourceId == id
    requires SourceTrue(s, pkts[..|pkts| - 1], id)
    ensures SourceTrue(WriteNext(s, pkts[|pkts| - 1], ALL_OK), pkts, id)
  {
    var init, p := pkts[..|pkts| - 1], pkts[|pkts| - 1];
    var log := Log(init, id);
    if IsHeartbeat(p) {
      PinnedStep(pkts, id);
    } else {
      LogStep(pkts, id);
      if Sanitize(id).None? {
        NamelessStep(s, p);
      } else if log == [] || Pinned(init, id) == Some(p.linkType) {
        AcceptedWrite(s, p, Sanitize(id).value, log);
      } else {
        OtherLinkStep(s, p);
      }
    }
  }

  lemma NamelessStep(s: DumpState, p: RawPacket)
    requires !IsHeartbeat(p) && Sanitize(p.sourceId) == None && p.sourceId !in s.writers
    ensures var s' := WriteNext(s, p, ALL_OK);
            s'.writers == s.writers && s'.files == s.files && s'.disabled == s.disabled + {p.sourceId}
  {
  }

  lemma OtherLinkStep(s: DumpState, p: RawPacket)
    requires p.sourceId in s.writers && s.writers[p.sourceId].linkType != p.linkType
    ensures WriteNext(s, p, ALL_OK) == s
  {
  }

  /**
   In a run without I/O failures over sources that share no directory: each source's open file is that of its running
   maximum minute, its directory has exactly the files of its log's keys, and each file is one header and the packets
   the log files there.
   */
  lemma {:induction false} RotationRefinesTheLog(pkts: seq<RawPacket>, ids: set<string>, id: string)
    requires DistinctNames(ids) && From(pkts, ids) && id in ids
    ensures SourceTrue(Run(pkts), pkts, id)
  {
    if pkts != [] {
      var init, p := pkts[..|pkts| - 1], pkts[|pkts| - 1];
      RotationRefinesTheLog(init, ids, id);
      if p.sourceId == id {
        OwnStep(Run(init), pkts, id);
      } else {
        RotationRefinesTheLog(init, ids, p.sourceId);
        PinnedStep(pkts, id);
        OthersUntouched(Run(init), p, id);
      }
    }
  }

  /** A reader over the minute files of a directory, in the order of `keys`: every file's records, joined. */
  function ReadDump(files: map<FileId, seq<byte>>, dir: string, keys: seq<int>): Option<seq<Record>> {
    if keys == [] then Some([])
    else
      var f := FileId(dir, keys[|keys| - 1]);
      match ReadDump(files, dir, keys[..|keys| - 1])
      case None => None
      case Some(before) => if f in files then WithFile(before, ReadCapture(files[f])) else None
  }

  function WithFile(before: seq<Record>, last: Option<Capture>): Option<seq<Record>> {
    match last
    case None => None
    case Some(c) => Some(before + c.records)
  }

  lemma {:induction false} ReadDumpJoinsTheFiles(files: map<FileId, seq<byte>>, dir: string, linkType: u32,
                                                 log: seq<RawPacket>, keys: seq<int>)
    requires DirTrue(files, dir, linkType, log) && forall m <- keys :: m in Keys(log)
    requires forall p <- log :: Representable(p)
    ensures ReadDump(files, dir, keys) == Some(AllStripped(ReadFiles(keys, log)))
  {
    if keys != [] {
      var init, m := keys[..|keys| - 1], keys[|keys| - 1];
      ReadDumpJoinsTheFiles(files, dir, linkType, log, init);
      FileReads(files, dir, linkType, log, m);
      StrippedJoin(ReadFiles(init, log), Filed(log, m));
    }
  }

  lemma FileReads(files: map<FileId, seq<byte>>, dir: string, linkType: u32, log: seq<RawPacket>, m: int)
    requires DirTrue(files, dir, linkType, log) && m in Keys(log) && forall p <- log :: Representable(p)
    ensures FileId(dir, m) in files
    ensures ReadCapture(files[FileId(dir, m)]) == Some(Capture(linkType, AllStripped(Filed(log, m))))
  {
    FiledIsFromTheLog(log, m);
    FileRoundTrip(linkType, Filed(log, m));
  }

  lemma StrippedJoin(a: seq<RawPacket>, b: seq<RawPacket>)
    ensures AllStripped(a + b) == AllStripped(a) + AllStripped(b)
  {
  }

  /** The whole dump of a source, read file by file in the order of their minutes, is its log. */
  lemma WholeDumpReadsBack(pkts: seq<RawPacket>, ids: set<string>, id: string)
    requires DistinctNames(ids) && From(pkts, ids) && id in ids && Sanitize(id).Some?
    requires forall p <- pkts :: Representable(p)
    ensures var log := Log(pkts, id);
            ReadDump(Run(pkts).files, Sanitize(id).value, Keys(log)) == Some(AllStripped(log))
  {
    var log := Log(pkts, id);
    RotationRefinesTheLog(pkts, ids, id);
    FilesInKeyOrderAreTheLog(log);
    LogIsFromThePackets(pkts, id);
    ReadDumpJoinsTheFiles(Run(pkts).files, Sanitize(id).value, if log == [] then 0 else Pinned(pkts, id).value, log,
                          Keys(log));
  }

  /** And each of its files is the part of the log filed there; there are no others. */
  lemma DumpReadsBack(pkts: seq<RawPacket>, ids: set<string>, id: string, m: int)
    requires DistinctNames(ids) && From(pkts, ids) && id in ids && Sanitize(id).Some?
    requires forall p <- pkts :: Representable(p)
    ensures var log := Log(pkts, id);
            var f := FileId(Sanitize(id).value, m);
            && ReadFiles(Keys(log), log) == log
            && (f in Run(pkts).files <==> m in Keys(log))
            && (m in Keys(log) ==>
                  Pinned(pkts, id).Some? &&
                  ReadCapture(Run(pkts).files[f]) == Some(Capture(Pinned(pkts, id).value, AllStripped(Filed(log, m)))))
  {
    var log := Log(pkts, id);
    RotationRefinesTheLog(pkts, ids, id);
    FilesInKeyOrderAreTheLog(log);
    LogIsFromThePackets(pkts, id);
    FiledIsFromTheLog(log, m);
    if m in Keys(log) {
      FileRoundTrip(Pinned(pkts, id).value, Filed(log, m));
    }
  }

  lemma {:induction false} LogIsFromThePackets(pkts: seq<RawPacket>, id: string)
    ensures forall p <- Log(pkts, id) :: p in pkts && Relevant(p, id) && Some(p.linkType) == Pinned(pkts, id)
  {
    if pkts != [] {
      LogIsFromThePackets(pkts[..|pkts| - 1], id);
    }
  }

  lemma {:induction false} FiledIsFromTheLog(log: seq<RawPacket>, m: int)
    ensures forall p <- Filed(log, m) :: p in log
  {
    if log != [] {
      FiledIsFromTheLog(log[..|log| - 1], m);
    }
  }

  // ---- minutes and timestamps ----

  /** The timestamp lies in the minute that starts m minutes after the epoch. */
  predicate InMinute(p: RawPacket, m: int) {
    60_000_000 * m <= p.timestampUs < 60_000_000 * (m + 1)
  }

  lemma MinuteOfIs(p: RawPacket, m: int)
    ensures MinuteOf(p) == m <==> InMinute(p, m)
  {
  }

  lemma MinuteOfAtMost(p: RawPacket, m: int)
    ensures MinuteOf(p) <= m <==> p.timestampUs < 60_000_000 * (m + 1)
  {
  }

  lemma {:induction false} MaxMinuteIsReached(log: seq<RawPacket>)
    requires log != []
    ensures exists p :: p in log && MinuteOf(p) == MaxMinute(log)
  {
    var init, last := log[..|log| - 1], log[|log| - 1];
    if |log| > 1 && MinuteOf(last) <= MaxMinute(init) {
      MaxMinuteIsReached(init);
      var p :| p in init && MinuteOf(p) == MaxMinute(init);
      assert p in log;
    } else {
      assert last in log;
    }
  }

  lemma {:induction false} KeysAreMinutes(log: seq<RawPacket>, m: int)
    requires m in Keys(log)
    ensures exists p :: p in log && MinuteOf(p) == m
  {
    var init := log[..|log| - 1];
    KeysUnfold(log, init);
    if m == MaxMinute(log) {
      MaxMinuteIsReached(log);
    } else {
      KeysAreMinutes(init, m);
      var p :| p in init && MinuteOf(p) == m;
      assert p in log;
    }
  }

  lemma {:induction false} FiledNoLater(log: seq<RawPacket>, m: int)
    ensures forall p <- Filed(log, m) :: MinuteOf(p) <= m
  {
    if log != [] {
      FiledNoLater(log[..|log| - 1], m);
    }
  }

  /** Every file of a source has the minute of one of the source's packets, by the packet's own timestamp. */
  lemma EveryFileHasAPacketOfItsMinute(pkts: seq<RawPacket>, ids: set<string>, id: string, m: int)
    requires DistinctNames(ids) && From(pkts, ids) && id in ids && Sanitize(id).Some?
    requires FileId(Sanitize(id).value, m) in Run(pkts).files
    ensures exists p :: p in pkts && Relevant(p, id) && InMinute(p, m)
  {
    RotationRefinesTheLog(pkts, ids, id);
    KeysAreMinutes(Log(pkts, id), m);
    var p :| p in Log(pkts, id) && MinuteOf(p) == m;
    LogIsFromThePackets(pkts, id);
    MinuteOfIs(p, m);
  }

  /** No record in a file is from after the file's minute, as a pcap reader sees the timestamps. */
  lemma NoRecordIsFromLater(pkts: seq<RawPacket>, ids: set<string>, id: string, m: int)
    requires DistinctNames(ids) && From(pkts, ids) && id in ids && Sanitize(id).Some?
    requires forall p <- pkts :: Representable(p)
    requires FileId(Sanitize(id).value, m) in Run(pkts).files
    ensures var c := ReadCapture(Run(pkts).files[FileId(Sanitize(id).value, m)]);
            c.Some? && c.value.records != []
            && forall r <- c.value.records :: r.timestampUs < 60_000_000 * (m + 1)
  {
    var log := Log(pkts, id);
    DumpReadsBack(pkts, ids, id, m);
    FiledNoLater(log, m);
    KeysAreFiled(log, m);
    forall p <- Filed(log, m) ensures p.timestampUs < 60_000_000 * (m + 1) {
      MinuteOfAtMost(p, m);
    }
  }

  lemma {:induction false} KeysAreFiled(log: seq<RawPacket>, m: int)
    requires m in Keys(log)
    ensures Filed(log, m) != []
  {
    var init := log[..|log| - 1];
    KeysUnfold(log, init);
    if m != MaxMinute(log) {
      KeysAreFiled(init, m);
    }
  }

  /** The time of day and date that a timestamp stands for: days since 1970, hours, minutes and the microseconds left. */
  predicate ClockOf(timestampUs: int, days: int, h: nat, mi: nat, rest: nat) {
    && h < 24 && mi < 60 && rest < 60_000_000
    && timestampUs == days * 86_400_000_000 + h * 3_600_000_000 + mi * 60_000_000 + rest
  }

  /** Every timestamp is some time of some day. */
  lemma EveryTimestampHasAClock(timestampUs: int) returns (days: int, h: nat, mi: nat, rest: nat)
    ensures ClockOf(timestampUs, days, h, mi, rest)
  {
    days := timestampUs / 86_400_000_000;
    var left := timestampUs % 86_400_000_000;
    h, mi, rest := left / 3_600_000_000, left % 3_600_000_000 / 60_000_000, left % 60_000_000;
    assert left == h * 3_600_000_000 + mi * 60_000_000 + left % 3_600_000_000 % 60_000_000;
    assert left % 3_600_000_000 % 60_000_000 == rest;
  }

  /** The digits of a file name read as this date and time. */
  ghost predicate NameReads(name: string, date: Date, h: nat, mi: nat) {
    && |name| == 18 && name[8] == 'T' && name[13..] == ".pcap"
    && AllDigits(name[0..4]) && AllDigits(name[4..6]) && AllDigits(name[6..8])
    && AllDigits(name[9..11]) && AllDigits(name[11..13])
    && Number(name[0..4]) == date.y && Number(name[4..6]) == date.m && Number(name[6..8]) == date.d
    && Number(name[9..11]) == h && Number(name[11..13]) == mi
  }

  lemma NameOfClock(c: Civil)
    requires 0 <= c.date.y < 10_000 && ValidDate(c.date) && c.h < 24 && c.mi < 60
    ensures NameReads(Label(c) + ".pcap", c.date, c.h, c.mi)
  {
    LabelFields(c);
    FourDigits(c.date.y);
    TwoDigits(c.date.m);
    TwoDigits(c.date.d);
    TwoDigits(c.h);
    TwoDigits(c.mi);
    SameSlices(Label(c), ".pcap");
  }

  lemma SameSlices(s: string, t: string)
    requires |s| == 13
    ensures var n := s + t;
            && n[0..4] == s[0..4] && n[4..6] == s[4..6] && n[6..8] == s[6..8] && n[8] == s[8]
            && n[9..11] == s[9..11] && n[11..13] == s[11..13] && n[13..] == t
  {
  }

  lemma MinuteOfClock(p: RawPacket, days: int, h: nat, mi: nat, rest: nat)
    requires ClockOf(p.timestampUs, days, h, mi, rest)
    ensures MinuteOf(p) == days * 1440 + h * 60 + mi
  {
    MinuteOfIs(p, days * 1440 + h * 60 + mi);
  }

  /** A file opened for a packet is named after the Gregorian date, the hour and the minute of the packet's timestamp. */
  lemma OpenedFileShowsTheTime(s: DumpState, p: RawPacket, io: Io, f: FileId, days: int, h: nat, mi: nat, rest: nat)
    requires Rotates(s, p, io) && Target(s, p, io) == Some(f) && ClockOf(p.timestampUs, days, h, mi, rest)
    ensures ValidDate(DaysToYmd(days))
    ensures 0 <= DaysToYmd(days).y < 10_000 ==> NameReads(FileBase(f.minute), DaysToYmd(days), h, mi)
  {
    DaysRoundTrip(days);
    OpensItsMinute(s, p, io, f);
    MinuteOfClock(p, days, h, mi, rest);
    NameOfMinute(f.minute, days, Civil(DaysToYmd(days), h, mi));
  }

  lemma OpensItsMinute(s: DumpState, p: RawPacket, io: Io, f: FileId)
    requires Rotates(s, p, io) && Target(s, p, io) == Some(f)
    ensures f.minute == MinuteOf(p)
  {
  }

  lemma NameOfMinute(minute: int, days: int, c: Civil)
    requires c.date == DaysToYmd(days) && ValidDate(c.date) && c.h < 24 && c.mi < 60
    requires minute == days * 1440 + c.h * 60 + c.mi
    ensures 0 <= c.date.y < 10_000 ==> NameReads(FileBase(minute), c.date, c.h, c.mi)
  {
    BaseIsTheLabel(minute, days, c);
    if 0 <= c.date.y < 10_000 {
      LabelledName(FileBase(minute), c);
    }
  }

  lemma LabelledName(name: string, c: Civil)
    requires 0 <= c.date.y < 10_000 && ValidDate(c.date) && c.h < 24 && c.mi < 60
    requires name == Label(c) + ".pcap"
    ensures NameReads(name, c.date, c.h, c.mi)
  {
    NameOfClock(c);
  }

  lemma BaseIsTheLabel(minute: int, days: int, c: Civil)
    requires c.date == DaysToYmd(days) && c.h < 24 && c.mi < 60
    requires minute == days * 1440 + c.h * 60 + c.mi
    ensures FileBase(minute) == Label(c) + ".pcap"
  {
    CivilOfParts(days, c);
    BaseOf(minute, c);
  }

  lemma BaseOf(minute: int, c: Civil)
    requires CivilOf(minute) == c
    ensures FileBase(minute) == Label(c) + ".pcap"
  {
  }
}
