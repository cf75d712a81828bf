# Heron capture, verified in Dafny

A Dafny model of the capture side of Heron and of two pure helpers of its console, with proofs about whole runs.

| modules | what they model |
|---|---|
| `SslProbe`, `FlowSynth`, `Frames`, `FlowWire`, `FlowRuns`, `TlsCapture`, `ProbeHistory`, `TlsTheorems` | TLS plaintext to TCP frames: the eBPF probes cut each SSL call into at most eight 32 KiB events stamped with an absolute stream offset, the ring accepts or refuses each event, and the synthesizer turns delivered events into Ethernet/IP/TCP frames |
| `Calendar`, `MinuteLabels`, `PcapFormat`, `PacketDump`, `DumpLog` | pcap dump files: civil calendar, minute labels, file bytes, and per-source rotation by minute |
| `Retention`, `DumpListings`, `DumpAndSweep` | the age and size sweep over dump files, what a sweep can read from the dump tree, and sweeps interleaved with the writer |
| `BpfFilter`, `BpfPieces`, `BpfRoundTrip`, `BpfLanguage` | the console's filter printer and parser, and the language the parser accepts |
| `CallPairs`, `CallFolding` | the console's greedy clustering of captured legs of one logical call |
| `CloudBatch`, `CloudProbe` | cloud-probe batches, per-source virtual time and routing |
| `Bytes`, `Text`, `Sorting`, `Wrappers`, `Packets` | shared data: machine integers and their byte encodings, strings, sorting, packets |

How the pieces fit:

- Code that updates state (`FlowSynthesizer`, the probes, `PacketDumper`, `HeartbeatTracker`, `RoutingSender`, the sweep, the parsers' loops) is a class or method proved equal to a specification function; the theorems are about those functions, over every input or every run.
- `TlsCapture.World` is the protocol as a state machine. A step is an SSL call with the set of chunks the ring refuses, or one delivery. Plaintext, teardown counts and refused closes are recorded beside the machine so that the theorems can speak of the truth.
- `DumpAndSweep.System` interleaves packet writes, clock ticks, dumper restarts, sweep starts and single unlinks. A started sweep may try any of its candidates at any later time, any number of times, and may have listed anything: more than the real one does. Where a run is exhibited, its sweep is a whole one, in order, over an honest listing: every file of the tree at its true size. A source whose open file is unlinked is detached: it goes on writing into a file that no directory lists until it opens another.
- Specification functions are pinned from outside: `ProbeHistory` reads the list of hooked calls alone, `FlowWire` and the frame reader look at bytes on the wire, timestamps are compared with file minutes in microseconds, limits are stated in hours and bytes, and the accepted filter texts are described without the parser's scan.
- Machine integers are integers with an explicit modulus where the source wraps: u16 ports and lengths, u32 sequence numbers, generations and pcap seconds.

Where the source's comments and its code differ, the model follows the code:

- `synthetic_tuple_gen` says successive connections on one id never share a 4-tuple. They do not within 33 reuses; 34 apart, two clamped ports can coincide (`NearbyGenerationsDiffer`, `ThirtyFourGenerationsCollide`, `PortsCollideExactly`).
- A refused CLOSE event lets the next stream on the same `SSL*` start at offset 0 inside the old flow (`RefusedCloseSplicesStreams`). Frames still show only true bytes of their own stream, and each frame lags its own epoch by exactly the closes refused before it.
- `open` on a connection that already carries data forgets the high-water mark, so its FIN precedes data already sent (`ReopenForgetsTheMark`), unless later data reaches as far (`DataEndsBeforeFinExactly`). At 2^32 - 1 bytes the FIN's sequence wraps to 0 (`FinWrapsToZero`).
- The filter round trip fails for hosts named `or`, and for hosts named `and` when there are no ports, unless that host is last. `Readable` is the exact condition (`PrintThenParse`), and `SeparatorsAsHosts` stands at those inputs.
- Minute labels of years outside 0 to 9999 are printed but not parsed back, so such files are never swept (`LabelRoundTrip`, `DumpedFilesAreRecognised`).
- A silent source keeps its minute file open. A sweep may then unlink that file, and a late packet is lost in it (`SilentSourceExample`, `LatePacketGoesToAnUnlinkedFile`). `LosableExactly` says which writes this can happen to: those that would go, without opening a file, into a labelled file older than the previous minute. Packets of the current or previous minute are never among them.
- The heading comment of `groupCalls` lists wire API, model, finish reason and path as part of the fingerprint; the code keys on stream flag, status and token counts only (`ContentKeyIsTheFingerprint`).
- `HeartbeatTracker` uses 0 for "no baseline yet", so packets stamped 0 leave a source without one; a baseline is the first real packet before which the source showed no time other than 0 (`Mark`).

## Model

| member | source | states |
|---|---|---|
| Packets.HeartbeatPacket | server/h-capture/src/packet.rs:44-78 | the sentinel built for a source is recognised as a heartbeat and keeps time and source |
| Packets.Heartbeat | server/h-capture/src/packet.rs:63-78 | filling a local 14-byte array builds that sentinel |
| Packets.HeartbeatExactly | server/h-capture/src/packet.rs:44-59 | a packet is a heartbeat if and only if it is Ethernet and starts with twelve zero bytes and FF FF |
| Bytes.ByteOrders | server/h-capture/src/synth.rs:451-462 | network order puts the most significant byte first, the order of pcap files last |
| Frames.FrameBuffer.PushIpv4 | server/h-capture/src/synth.rs:423-434 | the in-place filled array is appended as the IPv4 header of the given addresses and length, length truncated to 16 bits |
| Frames.FrameBuffer.PushIpv6 | server/h-capture/src/synth.rs:438-448 | same for the IPv6 header |
| Frames.FrameBuffer.PushIp | server/h-capture/src/synth.rs:380-391 | IPv4 only when both addresses are IPv4, otherwise IPv6 with mapped addresses |
| Frames.FrameBuffer.PushTcp | server/h-capture/src/synth.rs:451-462 | same for the TCP header |
| Frames.Frame | server/h-capture/src/synth.rs:359-408 | the buffer grown piece by piece is the whole frame, with its length as both capture lengths |
| Frames.FrameRoundTrip | server/h-capture/src/synth.rs:359-462 | a decoder written from section 3.1 of RFC 791, section 3 of RFC 8200 and section 3.1 of RFC 9293 reads back addresses, ports, sequence, flags and payload if and only if the 16-bit length field holds the length |
| Frames.SynthesizedFrameDecodes | server/h-capture/src/synth.rs:359-462 | every payload up to the segment limit decodes, so the length fields never truncate |
| Frames.SynthesizedFrameIsTraffic | server/h-capture/src/synth.rs:369-407 | no synthesized frame is a heartbeat, and both capture lengths are the exact frame length |
| Frames.EndpointsRecovered | server/h-capture/src/synth.rs:380-418 | for every pair of families, decoding a frame and unmapping v4-mapped addresses (section 2.5.5.2 of RFC 4291) returns an original endpoint if and only if that endpoint was not a v4-mapped address itself |
| FlowSynth.EffectiveSegment | server/h-capture/src/synth.rs:113-118 | a configured size of 1 to 60000 is kept, a larger one becomes 60000, 0 becomes 16384 |
| FlowSynth.PortsCollideExactly | server/h-capture/src/synth.rs:346-352 | two generations share a client port exactly when they agree modulo 2^16 or both raw ports are at or below the clamp |
| FlowSynth.NearbyGenerationsDiffer | server/h-capture/src/synth.rs:336-355 | generations fewer than 34 apart have different client ports, through the 16-bit wrap, the clamp and the 32-bit wrap of the generation |
| FlowSynth.ThirtyFourGenerationsCollide | server/h-capture/src/synth.rs:336-355 | that bound is tight: a connection id whose generations 0 and 34 have the same 4-tuple |
| FlowWire.PlaceholderFrame | server/h-capture/src/synth.rs:339-408 | a data frame on a placeholder tuple decodes to a client in 127.64.x.y with the low 16 bits of the id and the port of its generation, and the server 192.0.2.z:443, on the right sides for its direction |
| FlowWire.PlaceholdersDiffer | server/h-capture/src/synth.rs:336-355 | decoded frames of generations fewer than 34 apart have different client ports, of the same generation the same two endpoints |
| FlowWire.FirstPorts | server/h-capture/src/synth.rs:346-352 | small connection ids use client port 1024 in their first life and 41527 in their second |
| FlowWire.FramesAreStamped | server/h-capture/src/synth.rs:395-407 | every packet of an open, a data and a close call carries the call's time and the configured source on an Ethernet link |
| FlowSynth.SequenceAt | server/h-capture/src/synth.rs:279-286 | the two wrapping additions give 1 plus the absolute offset modulo 2^32 |
| FlowSynth.CutIsExact | server/h-capture/src/synth.rs:281-290 | the segments of a chunk join to the chunk, none is empty or over the segment size, each carries the bytes at its own offset and follows directly on the one before |
| FlowSynth.FlowSynthesizer.Open | server/h-capture/src/synth.rs:229-241 | state and frames after registering: marks reset, a handshake exactly when configured |
| FlowSynth.FlowSynthesizer.Data | server/h-capture/src/synth.rs:251-296 | state and frames after a chunk: lazy open with the current generation's tuple, nothing for an empty chunk, high-water mark raised only |
| FlowSynth.FlowSynthesizer.Segments | server/h-capture/src/synth.rs:281-290 | the while loop emits exactly the pieces of the cut, in order |
| FlowSynth.FlowSynthesizer.Close | server/h-capture/src/synth.rs:305-321 | state and frames after a close: generation advanced (modulo 2^32) even for unknown ids, connection forgotten, two FINs for a known one |
| FlowRuns.StateMirrorsHistory | server/h-capture/src/synth.rs:211-321 | after every run of operations the generation is the number of closes, the table holds the live connections, each mark is the greatest end since the opening, and a lazily opened connection has its current generation's tuple |
| FlowRuns.MaxEndIsTheGreatest | server/h-capture/src/synth.rs:160-169 | that end bounds every chunk delivered since the connection was last registered or closed, and one of those chunks reaches it |
| FlowRuns.CloseAfterRun | server/h-capture/src/synth.rs:305-321 | a close after any run emits one FIN and ACK per direction, decoded between the tuple's client and server, at 1 plus the greatest end, and nothing for a connection that is not live |
| FlowRuns.HandshakeDecodes | server/h-capture/src/synth.rs:229-241 | the handshake decodes as SYN and SYN-ACK at sequence 0 |
| FlowRuns.DataEndsBeforeFinExactly | server/h-capture/src/synth.rs:160-169 | for ends of at most 2^32 - 2 bytes, all segments of a chunk of the closing life lie after the SYN's sequence and none beyond the FIN's if and only if some chunk of its direction delivered since the last registration reaches at least as far; chunks delivered since then share the FIN's 4-tuple |
| FlowRuns.CountedShareTheFlow | server/h-capture/src/synth.rs:266-321 | every chunk delivered since the last registration or close was sent on the 4-tuple that a close sends its FINs on |
| FlowRuns.DataEndsBeforeFin | server/h-capture/src/synth.rs:160-169 | up to 2^32 - 2 bytes, every segment delivered since the connection was last registered lies after the SYN's sequence, ends at or before the FIN, and travels on the FIN's 4-tuple |
| FlowRuns.FinWrapsToZero | server/h-capture/src/synth.rs:313-314 | that bound is tight: a run of 2^32 - 1 bytes whose FIN has sequence 0 |
| FlowRuns.ReopenForgetsTheMark | server/h-capture/src/synth.rs:226-241 | a run in which registering again puts the FIN before data already sent, in the same flow exactly when the new tuple is the placeholder the data went out on |
| FlowRuns.ReuseChangesTheFlow | server/h-capture/src/synth.rs:262-321 | in every run the packets returned for two chunks of unregistered lives fewer than 34 closes apart decode to different client ports, and of one life to the same endpoints |
| SslProbe.Probe.OnSslWrite | server/h-ebpf-prog/src/main.rs:90-98 | kernel maps and ring after a write call, for every set of refused chunks |
| SslProbe.Probe.OnReadEnter | server/h-ebpf-prog/src/main.rs:101-108 | the stash is keyed by thread and replaced |
| SslProbe.Probe.OnReadExit | server/h-ebpf-prog/src/main.rs:111-130 | a positive return emits data, 0 emits a close, a negative return or a missing stash nothing; the stash is consumed |
| SslProbe.Probe.OnShutdown | server/h-ebpf-prog/src/main.rs:133-137 | a shutdown is a close |
| SslProbe.Probe.OnFree | server/h-ebpf-prog/src/main.rs:144-148 | a free is a close |
| SslProbe.Probe.EmitChunkAt | server/h-ebpf-prog/src/main.rs:164-194 | one chunk gives one event, or none when it is past the end or refused |
| SslProbe.Probe.EmitData | server/h-ebpf-prog/src/main.rs:211-228 | eight chunk attempts, then the offset advances by the full length whatever was refused |
| SslProbe.Probe.EmitClose | server/h-ebpf-prog/src/main.rs:230-254 | both offsets are forgotten even when the close event is refused |
| SslProbe.EventsPlacedRight | server/h-ebpf-prog/src/main.rs:164-228 | whatever is refused, each event that gets through carries a non-empty stretch of the call's bytes at its true absolute offset |
| SslProbe.UnrefusedCallBytes | server/h-ebpf-prog/src/main.rs:150-228 | with nothing refused the first n chunks join to the first n * 32768 bytes |
| SslProbe.UnrefusedCallOffsets | server/h-ebpf-prog/src/main.rs:211-228 | with nothing refused the events lie back to back |
| SslProbe.OnlyTheTailIsLost | server/h-ebpf-prog/src/main.rs:150-153 | a larger call loses exactly its bytes past 262144 |
| ProbeHistory.StashIsThePendingEnter | server/h-ebpf-prog/src/main.rs:100-117 | the stash of a thread is the last read it entered and has not left, read off the list of calls |
| ProbeHistory.CallIsReadRight | server/h-ebpf-prog/src/main.rs:89-148 | a call carries client bytes if and only if it is a write of that memory, server bytes if and only if it is the exit of a read into that memory, and ends a connection if and only if it is a shutdown, a free or a read that returned 0 |
| ProbeHistory.OffsetsCountTheBytes | server/h-ebpf-prog/src/main.rs:62-87 | after any list of calls the kernel's two offsets of a connection are the numbers of bytes written and read on it since it last ended |
| ProbeHistory.PlaintextIsTheCalls | server/h-ebpf-prog/src/main.rs:89-254 | in every run the recorded plaintext of a stream is exactly the bytes that the calls moved in that life and direction |
| TlsCapture.SentAreTheSynthesizersFrames | server/h-capture/src/synth.rs:251-296 | the frames the machine records at a delivery are the ones the synthesizer returns |
| TlsCapture.InvHolds | server/h-ebpf-prog/src/main.rs:90-254 | invariant of every run: kernel offsets are plaintext lengths, queued events and sent frames show the plaintext, teardowns are closes delivered, queued and refused |
| TlsTheorems.LossNeverShiftsAByte | server/h-ebpf-prog/src/main.rs:164-254 | in every run, whatever the call sizes and refusals, a decoder reads from every frame only plaintext bytes of its stream at the offset its sequence number stands for |
| TlsTheorems.EveryFrameShowsTheCalls | server/h-ebpf-prog/src/main.rs:89-254 | from the list of calls to the wire: a frame toward port 443 shows bytes the application wrote, any other frame bytes it read, in one life of the connection, at the position its sequence number says |
| TlsTheorems.FlowsDifferOnTheWire | server/h-capture/src/synth.rs:298-321 | frames of one connection sent fewer than 34 delivered closes apart decode to different client ports, frames sent between the same two closes to the same endpoints |
| TlsTheorems.SentIsStamped | server/h-capture/src/synth.rs:395-407 | every frame carries the time of its delivery and the configured source |
| TlsTheorems.FlowIsTheEpochUnlessClosesWereRefused | server/h-ebpf-prog/src/main.rs:230-240 | a frame's flow lags its stream's epoch by the closes refused before its call; they agree if and only if there were none |
| TlsTheorems.OverlapsAgree | server/h-capture/src/synth.rs:243-250 | two frames of one flow that claim the same sequence number (within 2^32 of each other, same number of refused closes) carry the same byte there |
| TlsTheorems.RefusedCloseSplicesStreams | server/h-ebpf-prog/src/main.rs:230-240 | a run with one refused close in which two frames of one flow claim the same sequence number with different bytes |
| TlsTheorems.LosslessStream | server/h-ebpf-prog/src/main.rs:196-228 | with nothing refused and calls of at most 262144 bytes, what a stream has sent is always a prefix of its plaintext, and all of it once the ring is drained |
| TlsTheorems.LosslessFrame | server/h-capture/src/synth.rs:271-290 | in such runs each frame starts where its stream's earlier frames ended, has 1 to segment-size bytes and travels in its own epoch's flow |
| Calendar.DaysRoundTrip | server/h-capture/src/pcap_dump.rs:429-459 | every integer day has a valid Gregorian date, which leads back to the day |
| Calendar.DateRoundTrip | server/h-capture/src/pcap_dump.rs:421-459 | year, month and day survive the trip through day numbers if and only if they are a Gregorian date (month lengths and leap rule) |
| Calendar.DayZero | server/h-capture/src/pcap_dump.rs:447-459 | day 0 is 1970-01-01 |
| Calendar.NextDay | server/h-capture/src/pcap_dump.rs:447-459 | the next day has the Gregorian successor of the date, which with day 0 fixes every date |
| Calendar.DatesIncrease | server/h-capture/src/pcap_dump.rs:447-459 | later days have later dates in (year, month, day) order, negative eras included |
| Calendar.YearFitsI32 | server/h-capture/src/pcap_dump.rs:458 | the cast of the year to i32 is lossless for every i64 microsecond timestamp |
| MinuteLabels.LabelRoundTrip | server/h-capture/src/pcap_dump.rs:387-427 | parsing a printed label gives its key for every minute of the years 0 to 9999, and nothing for every other minute |
| MinuteLabels.AcceptedLabelsArePrinted | server/h-capture/src/pcap_dump.rs:398-427 | every accepted string is the printed label of the key it parses to |
| MinuteLabels.LabelInjective | server/h-capture/src/pcap_dump.rs:389-396 | different minutes have different labels, in any year |
| MinuteLabels.LabelOrder | server/h-capture/src/pcap_dump.rs:389-396 | for the years 0 to 9999 label order is time order |
| PcapFormat.TimestampSurvives | server/h-capture/src/pcap_dump.rs:474-476 | the two time fields stand for the timestamp if and only if it lies in the 32-bit range of seconds |
| PcapFormat.GlobalHeaderBytes | server/h-capture/src/pcap_dump.rs:461-471 | the 24 header bytes |
| PcapFormat.FileRoundTrip | server/h-capture/src/pcap_dump.rs:461-483 | one global header and any records of representable packets read back as exactly those packets in order |
| PacketDump.SanitizeExactly | server/h-common/src/path.rs:10-28 | a name is accepted as the text with every other character than letters, digits, dot, underscore and dash replaced, if and only if it is neither empty nor comes out as a dot name |
| PacketDump.PathsDistinct | server/h-capture/src/pcap_dump.rs:320-328 | different (directory, minute) pairs have different paths |
| PacketDump.PacketDumper.Write | server/h-capture/src/pcap_dump.rs:141-240 | writers, muted sources and file tree after one packet, for every outcome of mkdir, open and write |
| PacketDump.PacketDumper.OpenSourceDir | server/h-capture/src/pcap_dump.rs:259-293 | a source without a usable name or directory is muted |
| PacketDump.PacketDumper.OpenMinuteFile | server/h-capture/src/pcap_dump.rs:314-356 | an absent or empty file gets one header; an existing one is kept as it is |
| PacketDump.FailuresMute | server/h-capture/src/pcap_dump.rs:141-212 | an unusable name, a failed mkdir and a failed open mute the source: nothing of it is written until a restart |
| PacketDump.FailedWritesDoNot | server/h-capture/src/pcap_dump.rs:234-239 | a failed record write loses that record only |
| PacketDump.OneHeaderPerFile | server/h-capture/src/pcap_dump.rs:295-356 | after any number of writes, failures and restarts every file is one global header and the records appended to it, as recorded beside the dumper (`HistoryFollows`) |
| PacketDump.EveryFileReadsBack | server/h-capture/src/pcap_dump.rs:295-356 | so every such file of representable packets reads back as them |
| DumpLog.KeysIncrease | server/h-capture/src/pcap_dump.rs:177-184 | the minutes at which a source's files are opened strictly increase, so each is opened once |
| DumpLog.FilesInKeyOrderAreTheLog | server/h-capture/src/pcap_dump.rs:177-226 | filing each packet under the running-maximum minute and reading the files in key order gives the log back |
| DumpLog.RotationRefinesTheLog | server/h-capture/src/pcap_dump.rs:141-240 | over sources that share no directory, each directory has exactly the log's minute files, each one header and the packets filed there, and the open file is that of the running maximum |
| DumpLog.WholeDumpReadsBack | server/h-capture/src/pcap_dump.rs:141-240 | reading a source's files one after the other in the order of their minutes and joining their records gives exactly its non-heartbeat packets of the pinned link type in arrival order |
| DumpLog.DumpReadsBack | server/h-capture/src/pcap_dump.rs:141-240 | each file of a source reads back as the part of its log filed under that minute, and there are no other files |
| DumpLog.EveryFileHasAPacketOfItsMinute | server/h-capture/src/pcap_dump.rs:159-184 | every file minute m of a source has a packet of that source with 60000000 m <= timestamp < 60000000 (m + 1) |
| DumpLog.NoRecordIsFromLater | server/h-capture/src/pcap_dump.rs:177-226 | every record a pcap reader finds in the file of minute m has a timestamp below 60000000 (m + 1), and there is at least one |
| DumpLog.OpenedFileShowsTheTime | server/h-capture/src/pcap_dump.rs:387-396 | the name of a file opened for a packet reads as the Gregorian date, hour and minute of the packet's timestamp |
| DumpLog.EveryTimestampHasAClock | server/h-capture/src/pcap_dump.rs:157-160 | every timestamp, before 1970 too, is one time of one day, so the law of the file names covers every packet |
| Retention.OnlyOwnFilesAreRecognised | server/h-capture/src/pcap_retention.rs:252-260 | a recognised name is a printed label with one of the two suffixes; foreign names never are |
| Retention.DumpedFilesAreRecognised | server/h-capture/src/pcap_retention.rs:252-260 | every plain file name the dumper prints is recognised with its minute, if and only if the year fits the label |
| Retention.CompressedFilesAreRecognised | server/h-capture/src/pcap_retention.rs:252-260 | the same for names with the compressed suffix |
| Retention.CollectFiles | server/h-capture/src/pcap_retention.rs:138-180 | the inner loop's candidates and error count |
| Retention.CollectCandidates | server/h-capture/src/pcap_retention.rs:101-181 | the outer loop's candidates and error count over every kind of unreadable entry |
| Retention.ListingErrorsCount | server/h-capture/src/pcap_retention.rs:105-174 | the listing errors are one per broken entry, one per unreadable directory, and inside readable ones one per broken entry and per old dump file that cannot be examined |
| Retention.EligibleExactly | server/h-capture/src/pcap_retention.rs:101-181 | a file is a candidate if and only if a readable source directory lists it under one of the dumper's names, its minute is before the cutoff and its size can be read |
| Retention.EligibleAreOld | server/h-capture/src/pcap_retention.rs:157-163 | every candidate is older than the race cutoff and has the minute its name says |
| Retention.TryUnlink | server/h-capture/src/pcap_retention.rs:270-283 | only a removal is credited, only a real failure is an error |
| Retention.AgePhase | server/h-capture/src/pcap_retention.rs:183-206 | removes what is expired and unlinkable, keeps what failed for the size phase, and credits exactly the removed files |
| Retention.SizePhase | server/h-capture/src/pcap_retention.rs:208-240 | tries candidates by minute, ties by path component, and stops exactly when the cap is met or none are left |
| Retention.Evict | server/h-capture/src/pcap_retention.rs:222-238 | the loop's stopping point under every outcome of the unlinks; the saturating subtraction never saturates |
| Retention.StopsByBytesOnDisk | server/h-capture/src/pcap_retention.rs:208-240 | under any outcomes the size phase goes on exactly while more bytes than the cap are on disk, vanished files counting as gone and failed ones as there |
| Retention.RunSweep | server/h-capture/src/pcap_retention.rs:70-250 | a whole sweep under every listing and every outcome: what was tried, what was removed, and a report that is the count and byte sum of the removed files |
| Retention.SweptTries | server/h-capture/src/pcap_retention.rs:190-240 | the candidates a sweep tries are the expired ones and the queue up to its unique stopping point, and the removed files are those of them whose unlink removed something |
| Retention.SweepsLeaveRecentFiles | server/h-capture/src/pcap_retention.rs:74-80 | neither phase tries a file of the current or previous minute |
| Retention.ExpiredOrFresh | server/h-capture/src/pcap_retention.rs:190-205 | expired and kept candidates partition the eligible ones |
| Retention.SweepIsExact | server/h-capture/src/pcap_retention.rs:183-240 | when every unlink succeeds the deleted files are the expired ones plus the shortest prefix of the rest, by minute and then directory and name, that brings the bytes to the cap |
| Retention.AgeLimitIsExact | server/h-capture/src/pcap_retention.rs:190-206 | without a size limit the removed files are exactly the eligible ones more than 60 minutes per configured hour old, and none without an age limit |
| Retention.SizeLimitIsExact | server/h-capture/src/pcap_retention.rs:212-240 | with a size limit of n MiB at most n * 1048576 bytes of eligible files are left, every file past the age limit is gone, and any other removal ended with one that was needed |
| Retention.SeniorityOrders | server/h-capture/src/pcap_retention.rs:217-221 | that order is total and transitive |
| Retention.ExtendedDirComesLater | server/h-capture/src/pcap_retention.rs:217-221 | for every directory name and a longer one that extends it by a dot, as eth0 and eth0.100, the component order is the opposite of the order of the path texts |
| DumpAndSweep.RecentFilesSurvive | server/h-capture/src/pcap_retention.rs:74-80 | in every interleaving no file of the current or previous minute has been unlinked or is a target of a started sweep |
| DumpAndSweep.NoRecordGoesToAnUnlinkedFile | server/h-capture/src/pcap_retention.rs:74-80 | in every interleaving in which packets are of the current or previous minute when written, no record is appended to a file that a sweep has unlinked, under its name or through an open handle |
| DumpAndSweep.RecentTargetsAreSafe | server/h-capture/src/pcap_retention.rs:74-80 | in every reachable state a write whose file is of the current or previous minute meets no unlinked file, even when its packet is late |
| DumpListings.TrueListingIsHonest | server/h-capture/src/pcap_retention.rs:101-181 | any tree has an honest listing with one big compressed file added: complete, with true sizes, nothing twice |
| DumpListings.FileIsTried | server/h-capture/src/pcap_retention.rs:208-240 | whatever else that listing holds and however the unlinks end, the size phase under a 1 MiB cap tries the chosen old file, because the big file sorts behind it |
| DumpAndSweep.LosableExactly | server/h-capture/src/pcap_dump.rs:177-226 | in every reachable state a write that opens no file and whose target is a labelled file older than the previous minute is lost after one whole sweep of an honest listing, and no other write is lost by any sweeping whatever; both directions are equivalences |
| DumpAndSweep.SweptTreeIsRecords | server/h-capture/src/pcap_dump.rs:295-356 | in every interleaving of writes, failures, restarts and sweeps each file in the tree is one header and its records, and a file never unlinked holds every record ever appended to it |
| DumpAndSweep.SurvivorsReadBack | server/h-capture/src/pcap_dump.rs:295-356 | so each such file of representable packets reads back as the packets appended to it |
| DumpAndSweep.LatePacketGoesToAnUnlinkedFile | server/h-capture/src/pcap_dump.rs:177-226 | once a source's open file is unlinked, a packet of the file's minute is written to it and the tree does not change |
| DumpAndSweep.SilentSourceExample | server/h-capture/src/pcap_retention.rs:208-240 | every first packet of a labelled minute has a run that leads there: three silent minutes and one whole sweep of an honest listing, however its unlinks end |
| BpfFilter.SplitTopLevel | console/src/lib/bpf.ts:147-172 | the loop over depth, start and position computes the pieces that `CutsAtTheFirstSeparators` describes |
| BpfPieces.CutsAtTheFirstSeparators | console/src/lib/bpf.ts:147-172 | the text is cut at the first separators, in any case, with white space around them and as many parentheses opened as closed before them, and nowhere else; pieces are trimmed and blank ones dropped |
| BpfPieces.StripsTheEnclosingPair | console/src/lib/bpf.ts:132-144 | one pair of parentheses goes if and only if no prefix of what it encloses closes more than it opens |
| BpfPieces.TrimTakesTheEnds | console/src/lib/bpf.ts:61-74 | trimming takes white space off both ends and leaves none there |
| BpfFilter.StripOuterParens | console/src/lib/bpf.ts:132-144 | the depth loop computes the stripped text that `StripsTheEnclosingPair` describes |
| BpfFilter.MatchPortIsThePattern | console/src/lib/bpf.ts:111-119 | the port matcher accepts exactly the texts that split into an optional tcp, port and one to five digits with white space between, in any case, with the number in 1 to 65535 |
| BpfFilter.MatchHostIsThePattern | console/src/lib/bpf.ts:121-128 | the host matcher accepts exactly the word host, white space and a host token, and yields that token |
| BpfFilter.Clause | console/src/lib/bpf.ts:81-96 | the token loop of one clause, mixed kinds rejected |
| BpfFilter.ParseBpf | console/src/lib/bpf.ts:59-107 | the loops compute the reading that `ParsesExactly` and `PrintThenParse` speak of |
| BpfRoundTrip.PrintThenParse | console/src/lib/bpf.ts:36-107 | for ports 1 to 65535 and host tokens, parsing a printed filter gives its normal form if and only if the filter is readable, and nothing otherwise |
| BpfRoundTrip.SeparatorsAsHosts | console/src/lib/bpf.ts:36-179 | the failing inputs: a host spelled or before another host is never read back, a host spelled and only when there are ports (both are host tokens, `SeparatorsAreHosts`) |
| BpfRoundTrip.PrintedTexts | console/src/lib/bpf.ts:36-46 | the printed texts of up to two ports and hosts, word for word, parentheses only around several |
| BpfRoundTrip.PortsReadBack | console/src/lib/bpf.ts:111-119 | a printed port reads back as itself if and only if it lies in 1 to 65535 |
| BpfRoundTrip.NormalForm | console/src/lib/bpf.ts:174-179 | the normal form has strictly ascending ports and distinct hosts, the same members, and is its own normal form |
| BpfRoundTrip.AcceptedIsNormal | console/src/lib/bpf.ts:59-128 | whatever raw text is accepted yields valid ports and hosts in normal form |
| BpfRoundTrip.AcceptedFiltersAreStable | console/src/lib/bpf.ts:36-107 | an accepted raw filter re-parses to itself after printing, if and only if it is readable |
| BpfLanguage.ParsesExactly | console/src/lib/bpf.ts:59-128 | a text is read as a result if and only if it is blank, or its one or two top-level and-parts are a clause of port tokens, a clause of host tokens or one of each in either order, and the result lists exactly the named ports ascending and the named hosts by first mention |
| Sorting.DistinctInOrder | console/src/lib/bpf.ts:177-179 | removing repetitions keeps first mentions in their order |
| CallPairs.ContentKeyIsTheFingerprint | console/src/lib/call-pair.ts:52-90 | equal keys mean equal stream flag, status and token counts, absent ones included, and nothing else |
| CallPairs.NetViewIsTheTuple | console/src/lib/call-pair.ts:92-94 | for addresses without '>' equal views mean equal 4-tuples |
| CallPairs.FillBuckets | console/src/lib/call-pair.ts:117-124 | the map holds each key's calls in input order, keys in order of first appearance |
| CallPairs.CollectPeers | console/src/lib/call-pair.ts:139-149 | the inner loop with its continue and break is the greedy selection |
| CallPairs.PickCanonical | console/src/lib/call-pair.ts:152-162 | the loop's choice is the recursive one |
| CallPairs.FoldCluster | console/src/lib/call-pair.ts:152-170 | claim set, hop map and hop sequences after one cluster |
| CallPairs.ClusterBucket | console/src/lib/call-pair.ts:132-175 | the outer loop over one sorted bucket adds exactly its groups |
| CallPairs.ClusterBuckets | console/src/lib/call-pair.ts:126-176 | the accumulators after all buckets are those of the groups |
| CallPairs.GroupCalls | console/src/lib/call-pair.ts:116-185 | the four results are the visible calls, hop map, hop sequences and hop count of the groups, of which `TheResultIsSound` speaks |
| CallFolding.PeersAreGenuine | console/src/lib/call-pair.ts:139-149 | peers are unclaimed, in the window, and of pairwise different views |
| CallFolding.PeersAreAll | console/src/lib/call-pair.ts:139-149 | over ascending times nothing in the window is passed over except views the cluster already has |
| CallFolding.CanonicalIsWidest | console/src/lib/call-pair.ts:152-162 | the canonical leg has the widest span, and the least id among the widest |
| CallFolding.GroupsAreGenuine | console/src/lib/call-pair.ts:126-176 | members of a group share the fingerprint, have pairwise different views and lie within 100 ms of each other; hops are the group without its canonical leg, in time order; no call is in two groups |
| CallFolding.GroupingIsMaximal | console/src/lib/call-pair.ts:131-176 | two calls left ungrouped with the same fingerprint and within 100 ms have the same view |
| CallFolding.FoldIsAPartition | console/src/lib/call-pair.ts:163-184 | with unique ids and sequences, visible count plus hop count is the input length, visible calls are exactly those that are not hops, and every canonical leg is visible |
| CallFolding.HopsAreFiledUnderTheirCanonical | console/src/lib/call-pair.ts:163-166 | the hop map has exactly the canonical ids as keys, each with its own group's hops |
| CallFolding.TheResultIsSound | console/src/lib/call-pair.ts:116-185 | about the returned value: visible and hidden calls partition the input, each key is a visible call that leads its hops (same fingerprint, distinct views, within 100 ms, widest span), no call is hidden twice, and no two calls left alone belong together |
| CallFolding.TheResultInFields | console/src/lib/call-pair.ts:52-185 | in the fields of the calls: visible calls keep the input order; a hidden call has its leader's stream flag, status and tokens, another view, a request within 100 ms, and a shorter life to its last known time, or an equal one and not the lesser id; no two calls left alone agree in content and time but differ in view |
| CloudBatch.ReadRecord | server/h-capture/src/cloud_probe.rs:71-109 | one record or the exact truncation error; the offset never passes the end |
| CloudBatch.ParseRecords | server/h-capture/src/cloud_probe.rs:70-110 | the record loop, with its early returns |
| CloudBatch.ParseBatch | server/h-capture/src/cloud_probe.rs:54-113 | the whole parser, as the specification of the round trip |
| CloudBatch.EncodedBatchParses | server/h-capture/src/cloud_probe.rs:54-113 | a well-formed batch followed by anything parses to its uuid and packets, version and keybit ignored |
| CloudBatch.AcceptedAreBatches | server/h-capture/src/cloud_probe.rs:54-113 | a message is accepted if and only if it starts with a well-formed batch, and yields that batch's packets |
| CloudBatch.NeededIsExact | server/h-capture/src/cloud_probe.rs:58-102 | have and offset describe the input's rest; with fewer bytes appended than needed the same field stays short by the difference, with that many the parser gets past it |
| CloudBatch.UuidsDiffer | server/h-capture/src/cloud_probe.rs:115-124 | different uuids have different source ids |
| CloudBatch.UuidReadsBack | server/h-capture/src/cloud_probe.rs:115-124 | the 32 digits of a source id, read in pairs as hexadecimal, are the 16 bytes in order, with dashes at 8, 13, 18 and 23 |
| CloudBatch.ParsedRecordDumps | server/h-capture/src/cloud_probe.rs:99-109 | a parsed packet has the record's lengths and data, and its time is the record's seconds and microseconds |
| CloudBatch.UuidsDumpApart | server/h-capture/src/cloud_probe.rs:115-124 | a uuid is unchanged by sanitising, so cloud-probe sources never share a dump directory |
| CloudProbe.HeartbeatTracker.OnPacket | server/h-capture/src/heartbeat.rs:48-72 | the source's slot and the synthesized heartbeat, other slots unchanged |
| CloudProbe.Index | server/h-capture/src/routing.rs:53-61 | the channel is the same with and without the single-channel shortcut |
| CloudProbe.ChannelsByHash | server/h-capture/src/routing.rs:53-61 | two sources share a channel if and only if their hashes agree modulo the number of channels |
| CloudProbe.RoutingSender.Send | server/h-capture/src/routing.rs:36-46 | the packet is appended to its source's channel and to no other |
| CloudProbe.CloudProbeSource.OnPacket | server/h-capture/src/cloud_probe.rs:208-266 | one packet keeps the channels and the tracker equal to those of the packet history |
| CloudProbe.CloudProbeSource.OnMessage | server/h-capture/src/cloud_probe.rs:203-300 | a message extends the history by its packets with the uuid as source, a malformed one by nothing |
| CloudProbe.ReceivedExactly | server/h-capture/src/cloud_probe.rs:203-210 | a message that starts with a batch is received as one packet per record, with the record's time, lengths and data under the batch's uuid, and no other message yields anything |
| CloudProbe.SourcesAreIndependent | server/h-capture/src/heartbeat.rs:24-72 | what is sent for a source, and its clock, depend on its own packets only |
| CloudProbe.EverythingIsForwarded | server/h-capture/src/cloud_probe.rs:208-266 | without the synthesized heartbeats the packets sent are the packets received, in order |
| CloudProbe.RoutedInOrder | server/h-capture/src/routing.rs:37-61 | a source's packets all reach one channel in sending order, and no other channel |
| CloudProbe.VirtualTimeKeepsUp | server/h-capture/src/heartbeat.rs:34-72 | in every interleaving of non-negative timestamps each forwarded real packet is less than 1 s past a heartbeat or baseline of its source, and each synthesized heartbeat is at least 1 s after all earlier ones and directly before its packet |
| CloudProbe.EveryMessageSequenceIsPaced | server/h-capture/src/cloud_probe.rs:203-266 | the same for every sequence of messages, on the source's own channel, with no assumption on their contents |

## Left out

- eBPF program: map inserts that fail (more than 10240 entries), reads of user memory that fail, process attribution (pid, comm, executable), kernel timestamps, and offsets past 2^64.
- Events of several processes at once and Connect events: the probes' maps are keyed by the `SSL*` value alone and the eBPF program emits no Connect event.
- FlowSynth.FlowSynthesizer.Close: the generation counter wraps modulo 2^32, as an optimised build does; a build with overflow checks would stop there.
- FlowRuns.DataEndsBeforeFinExactly: compares 32-bit sequence numbers of ends up to 2^32 - 2 bytes; FinWrapsToZero is the first end past that.
- TlsTheorems.OverlapsAgree: asks for the same number of refused closes before both frames; RefusedCloseSplicesStreams shows why.
- Snappy compression, buffering and flushing of dump files: a write reaches the file at once and a failed write leaves no partial record.
- Removal of a dump file whose first header write fails, and the retry after recreating a missing directory: both are one open that succeeds or fails.
- DumpLog.RotationRefinesTheLog: assumes no I/O failure and no two sources with the same sanitised name; the code gives such sources one directory and two writers.
- PacketDump.OneHeaderPerFile: holds also when sources share a directory, but then says nothing of which source a record came from.
- The dump directory's path check after joining a sanitised name, which cannot fail.
- Retention: paths are a directory and a name below the dump root that all candidates share; directory listing, file sizes and outcomes of unlinking are inputs; the u64 sum of file sizes is unbounded; the timer that starts sweeps is not part of this model.
- DumpAndSweep.SweptTreeIsRecords: plain-mode files; buffered bytes that reach a file later are not modelled. Compressed files beside the plain ones are known to sweeps through their listings only.
- BPF filters: characters are whole Unicode characters, lower-casing is per character, and isValidPort and isValidHost of the settings page are not part of this model.
- CallPairs.NetViewIsTheTuple: needs addresses without '>', which the joined string does not escape.
- CallFolding.GroupsAreGenuine: needs unique call ids, as the claim set does; times are real numbers, and a call id is compared character by character.
- Idempotence of groupCalls: folding can expose a new pair, so it is not a property of the code.
- Cloud probe: sockets, cancellation, closed channels, backpressure, counters, and the dump tap of the receive loop (PacketDump models the dumper on its own).
- Wall-clock heartbeats of live capture, libpcap sources, protocol decoding, the console's pages and the server's API.
