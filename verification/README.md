# Verified model of the transcoding proxy

This project models the stateful parts of filestreamproxy and proves what they keep, in Dafny 4.11.
`dafny verify dfyconfig.toml` checks all of it.

| file | part of the proxy |
|---|---|
| `TsPacket.dfy` | one MPEG transport packet: which clock value get_pts takes from it |
| `SampleIndex.dfy` | the std::map of samples from time to file offset |
| `Widths.dfy`, `SeekMath.dfy` | C++ integer conversions, and the arithmetic of a time seek in them |
| `TimeLine.dfy` | what a scan of a file finds: stamps, the two ends, real samples, the result of a round |
| `Sampling.dfy` | what the loop of take_samples gathers, and when the index it leaves is in order |
| `SeekRounds.dfy` | the rounds of a seek as values: which entries each uses, what it enters, when the next follows |
| `MpegFile.dfy` | class Mpeg: cached reads, stamp scan, duration cache, sampling, time seek |
| `MpegRuns.dfy` | any calls on an Mpeg object in any order |
| `Recordings.dfy` | concrete recordings, and what the index makes of them |
| `SessionTable.dfy` | the table of encoder sessions as values, and runs of registrations |
| `SessionMap.dfy` | the table's loops over the shared array, and the Encoder constructor |
| `SessionSteps.dfy` | many processes, each going through constructor and destructor in single steps around one semaphore |
| `UriDecoder.dfy` | percent decoding in place |
| `Streaming.dfy` | the thread that copies encoder output to the client, and the rewrite loop of the other thread |
| `Watchdog.dfy` | the loop that notices a stalled transcoder |
| `Util.dfy`, `Demuxer.dfy` | the parser of the web interface's PID list |

## How things are modelled

The file behind a descriptor is a sequence of bytes with a kernel position. The index methods promise
two kinds of things: `Valid` holds whatever the file contains and however it changes between calls;
`Linked` and `Indexed` tie the cached values to the file while it stays as it is, wherever somebody else
has moved its position. `Honest` says that a read at an offset gets what is there. A PES header that
reaches past its packet is undefined in C++; the scan may then answer anything. 64-bit and 32-bit
conversions are written out; a signed overflow is taken to wrap. get_pts with its third argument 0 is
`ScanPts`, with 1 it is `GetPtsFixed`. The long functions calc_end, calc_length, take_samples and
get_offset are cut into several methods along their loops and calls. A pack header in a PES extension is
counted as one byte, as the code does; section 2.4.3.7 of ISO/IEC 13818-1 puts its contents behind that
length byte. Numbers from the outside (pid snapshots, poll and write results,
file times) are arguments.

## What does not hold, and when it does

* A second time seek. On a synced file that stays as it is, the first seek is answered exactly when
  the file has two ends (and, if it asks for the duration first, the last one is not at offset 0), a
  later one exactly when the last one is not at offset 0 and they are less than a second apart
  (`SeekRun`): a file with a duration is searched once, as in `SeekTwice`. fix_pts clears m_end_valid,
  already while sampling, and the cached duration keeps calc_end from setting it again; nothing in
  between helps (`SeekAgain`).
* A duration for every recording. A synced file gets one exactly when it is longer than 1 MiB, has a stamp
  in its first window and one in its last nine, and these two are at least 90000 ticks apart
  (`CalcLength`). On any other file the ends are what the scans with their steps back to a sync byte hit
  (`FirstHearing`). Up to 1 MiB m_last_filelength stays 0 and the probe for the end finds the start.
* A read right after the probe for the file length can use the wrong kernel position (`StaleRead`). The
  scan then fails (`ScanPts`). How many windows calc_end misses that way is exact in `CalcEnd`;
  `MissesAWindow` is a run in which it misses one.
* One monotone index. take_samples leaves one, on any synced file whose scans all see it, exactly when no
  sampling position leads to a time later than that of the end (`FreshIndexInOrder`); a sample below the
  first key is never met there. In general a sample keeps the order exactly when it is in order at the two
  ends, where take_sample compares it with at most one neighbour or none (`PutMonotoneIff`,
  `PutBelowCanBreak`).
* Nested brackets during a seek: in keys and offsets on a seekable file (`GoodTurnsNest`). On any stream,
  whatever is out of order or overflows, the keys and the upper offset nest while the samples are not taken
  again, and below 2^62 the lower offset moves out by the alignment at most, 187 bytes a round
  (`RoundsNest`): exactly when a sample overwrites the lower entry with a smaller offset (`NestedIff`,
  `LowerEndMovesOut`).
* The fallback on the average bit rate. get_offset takes it exactly when no round has reported a time
  (`GetOffset`), and it has a rate exactly when the end is still valid and the rate between 10 kbit/s and
  100 Mbit/s (`CalcBitrate`). Sampling a synced file clears m_end_valid; the rate is then -1, and the answer
  for any positive time lies behind any file (`FallbackWithoutRate`). `SeekIntoDisorder` is such a run:
  on a recording whose clock runs back, five rounds take the same samples again.
* "The returned encoder is the registered slot": exactly when no free slot lies below the one update
  clears (`RegisterId`, `ServeKeepsIds`); otherwise two sessions can get one encoder
  (`MovedSessionSharesEncoder`).
* One slot per address under concurrency: exactly when no Add meets its own address and a free slot
  (`OneSlotPerAddress`). Constructors that do not overlap never do (`SerialConstructors`,
  `RunsKeepOrder`); two that do can lose it (`AddressTwice`).
* Mutual exclusion: exactly while no Encoder destructor has posted the semaphore (`ExclusiveIff`);
  `DestructorBreaksExclusion` loses a registration that way.
* A raw plus sign behind an escape is decoded as a space; the round trip holds exactly without one
  (`RoundTrip`). The newline modes agree exactly on inputs without a raw LF (`ModesAgree`).
* The rewrite loop towards the encoder skips bytes exactly when a poll without POLLOUT follows a
  non-empty rewrite, and then, unless a write fails, never completes (`RewriteToEncoder`,
  `SkipsAByte`). A failed write moves it back by a byte, which is sent again (`ResendsAByte`).
* A PCR base is read with bit 9 cleared (`StampOfPcr`).

## Model

| member | source | states |
|---|---|---|
| TsPacket.PtsRoundTrip | src/Mpeg.cpp:542-546 | the five PTS bytes of any 33-bit time give that time back |
| TsPacket.PcrRoundTrip | src/Mpeg.cpp:460-464 | the PCR bytes of any base give it back without bit 9 |
| TsPacket.StampOfPts | src/Mpeg.cpp:451-550 | any packet that opens an audio or video PES with a PTS is stamped with exactly that time |
| TsPacket.StampOfPcr | src/Mpeg.cpp:455-469 | any packet with a PCR is stamped with its base, low by 0 or 512 ticks |
| TsPacket.StampOfPrivatePts | src/Mpeg.cpp:481-534 | a private stream, with any optional header and extension fields, is stamped if and only if its stream id extension is VC-1, AC3/DTS or DTS-HD |
| TsPacket.StampNeedsClock | src/Mpeg.cpp:451-550 | nothing but a PCR or a flagged PTS behind a start code makes a stamp |
| TsPacket.PlainPackets | src/Mpeg.cpp:451-475 | without a payload nothing is stamped, a PCR always is, and a payload that opens no unit never |
| TsPacket.OpeningPackets | src/Mpeg.cpp:475-550 | by the bytes of a packet that opens a payload unit: no start code, another stream, a private stream with no usable extension or no PTS flag leaves it unstamped; the code looks behind its end if and only if it is over before the bytes that would decide that |
| TsPacket.UnwrapIs | src/Mpeg.cpp:192-200 | up to ten seconds before the first value a clock value stays, any other becomes its distance modulo 2^33 |
| TsPacket.UnwrapIsElapsed | src/Mpeg.cpp:192-200 | an unwrapped clock value is the elapsed time if and only if it is not a wrapped one in the ten seconds before the start |
| TsPacket.AheadIsModular | src/Mpeg.cpp:562-567 | the length computation is the difference modulo 2^33, at most 95443 seconds |
| SampleIndex.LowerBound | src/Mpeg.cpp:247-248 | every key before the result is below p, the one at it is not |
| SampleIndex.FitsIff | src/Mpeg.cpp:247-258 | the test of take_sample passes if and only if the offset lies between those of any two neighbours around the time |
| SampleIndex.PutIsUpdate | src/Mpeg.cpp:261 | entering a sample binds its key, keeps all others and the key order |
| SampleIndex.PutMonotoneIff | src/Mpeg.cpp:247-261 | a sample that passes the test keeps a monotone index monotone if and only if it is in order with the first entries and with the last |
| SampleIndex.PutBelowCanBreak | src/Mpeg.cpp:250-258 | a sample below the first key can break the order |
| SampleIndex.NestedIff | src/Mpeg.cpp:359-403 | on any index in key order the next bracket lies inside the last one, keys and upper offset; the lower offset moves out by more than slack if and only if a sample overwrites the lower entry with one that much smaller |
| SampleIndex.BracketsNest | src/Mpeg.cpp:359-403 | so it does not when the sample lies no more than slack below the lower entry |
| SeekMath.InterpolateExact | src/Mpeg.cpp:391-394 | inside the C++ ranges the advance is the floor of ticks times rate over 720000 and at most the segment |
| SeekMath.ExtrapolateExact | src/Mpeg.cpp:391-394 | beyond the segment the advance is the same floor, while product and sum fit |
| SeekMath.InterpolationBound | src/Mpeg.cpp:391-394 | a multiple of 188 in the bracket less alignment, never above the exact line and below it by less than ahead/720000 + 188 |
| SeekMath.InterpolateBack | src/Mpeg.cpp:391-394 | whatever overflows, an offset below 2^62 is not left backwards by more than the alignment |
| SeekMath.InterpolateModular | src/Mpeg.cpp:391-394 | whatever overflows, the advance is the product modulo 2^64, over 720000 and rounded down to a packet |
| SeekMath.RateModular | src/Mpeg.cpp:391 | the rate of a segment is the quotient modulo 2^32 as an int, 0 for a segment without time |
| SeekMath.FallbackWithoutRate | src/Mpeg.cpp:417-420 | without a bit rate the fallback lies behind any file below 2^44 bytes |
| SeekMath.FallbackExact | src/Mpeg.cpp:417-420 | with a rate and without overflow the fallback is the packet boundary at or before pts * rate / 720000 |
| SeekMath.AverageRateExact | src/Mpeg.cpp:281-284 | the whole-file bit rate is bytes * 720000 / ticks rounded down when nothing overflows |
| MpegFile.Mpeg.constructor | src/Mpeg.cpp:651-663 | a new object is valid, linked to any file and fresh: positions equal, nothing found, no length recorded, no flag set |
| MpegFile.Mpeg.SeekInternal | src/Mpeg.cpp:68-71 | lseek moves to a non-negative target or fails and moves nothing |
| MpegFile.Mpeg.SwitchOffset | src/Mpeg.cpp:110-128 | an lseek happens only when the offset differs from the last one |
| MpegFile.Mpeg.ReadInternal | src/Mpeg.cpp:85-108 | from an honest state a read returns the bytes at the offset and leaves the three positions equal; what every other state does |
| MpegFile.Mpeg.Inspect | src/Mpeg.cpp:441-551 | one packet gives its stamp or the distance moved, 188 less the position of its first sync byte |
| TimeLine.ScanOfSynced | src/Mpeg.cpp:426-553 | on a synced file the scan of n packets ends at the first stamp among them, or there is none |
| TimeLine.HitIsRead | src/Mpeg.cpp:426-553 | on any bytes a scan hits a packet within its reach that starts with the sync byte and is stamped with the reported time |
| MpegFile.Mpeg.ScanPts | src/Mpeg.cpp:426-553 | at an honest offset, on any bytes, the scan of 1394 packets with its steps back to a sync byte; at another one a failure, when the stale position is at the end of the file; on a synced file it succeeds if and only if the position is honest and one of the packets is stamped, and returns the first such packet and its stamp; at most 1394 reads |
| MpegFile.Mpeg.CalcBegin | src/Mpeg.cpp:131-143 | on any bytes the start is what the scan from 0 hits, and futile is set if and only if it hits nothing; a known start never changes; a valid start clears m_end_valid |
| MpegFile.Mpeg.ProbeEnd | src/Mpeg.cpp:166-179 | one probe scans the n-th window from the end; on any bytes the end is what that scan hits |
| MpegFile.Mpeg.ProbeBackwards | src/Mpeg.cpp:156-180 | at most 9 probes, until the end is known or futile is set |
| MpegFile.Mpeg.CalcEnd | src/Mpeg.cpp:145-181 | on any bytes the end is what the scan of the window nearest the end hits, but for windows missed through a stale kernel position, and not found if and only if the scans of nine windows, or all down to offset 0, hit nothing |
| TimeLine.FirstLook | src/Mpeg.cpp:145-181 | the first look at a file finds its two ends if and only if it has them |
| TimeLine.Relook | src/Mpeg.cpp:145-181 | a later look finds the same end, even when it misses windows |
| TimeLine.WindowStartIs | src/Mpeg.cpp:166-172 | the j-th window from the end starts at the packet boundary at or before j times 256 KiB from it, or at 0 |
| TimeLine.FirstHearing | src/Mpeg.cpp:131-181 | the first look at any file whose scans are all defined finds the start the scan from 0 hits and the hit of the nearest of nine windows from the end, or there are no such hits |
| TimeLine.HeardOnce | src/Mpeg.cpp:131-181 | those ends are unique |
| TimeLine.HeardIsLocated | src/Mpeg.cpp:131-181 | on a synced file they are the first stamp, and the first one of the nearest window that has one |
| MpegFile.Mpeg.FindEnds | src/Mpeg.cpp:559 | both calculations one after the other: on any bytes which scan gives the start, which window the end, how many windows are probed, and which of them are missed |
| MpegFile.Mpeg.Look | src/Mpeg.cpp:559 | a new object finds the two ends the scans of any file hit, if and only if there are both; one that has found those of a synced file does so again unless the end is at offset 0; one that has given up there never does |
| TimeLine.MeasuredBy | src/Mpeg.cpp:145-181 | the two ends a look finds decide whether the file is measurable |
| TimeLine.WindowGap | src/Mpeg.cpp:166-172 | two consecutive unclamped windows leave 0 or 188 bytes unseen |
| MpegFile.Mpeg.FixPts | src/Mpeg.cpp:184-203 | succeeds if and only if the start is known, clears m_end_valid, and gives the value itself up to ten seconds before the start, else its distance modulo 2^33 |
| MpegFile.Mpeg.CalcLength | src/Mpeg.cpp:556-572 | the cached duration is the clock distance in seconds, computed once, -1 while unknown; on any bytes from a new object that of the two ends the scans hit, from any other one as its start and the probes for the end, less the missed ones, decide; on a synced file positive if and only if it is measurable |
| MpegFile.Mpeg.GetPtsFixed | src/Mpeg.cpp:465-467 | what a scan from an honest offset finds, on any bytes, counted from the first stamp of the file, with the value in ticks |
| MpegFile.Mpeg.TakeSample | src/Mpeg.cpp:239-265 | on any bytes, enters what a scan from the aligned offset finds if and only if it fits between its neighbours; a monotone index stays so if and only if the sample is in order at the ends; otherwise the index stays |
| TimeLine.SampledAfter | src/Mpeg.cpp:239-265 | whatever the answer, the time of the first stamp from that position is in the index afterwards |
| TimeLine.SampleStepIs | src/Mpeg.cpp:216-221 | the sampling step is the thirtieth part of the bytes between the ends, or 40 MiB if that is more, cut to whole packets |
| TimeLine.StepsStride | src/Mpeg.cpp:216-232 | between ends at least 30 times 40 MiB apart there are 30 or 31 positions, between others one every 41942988 bytes |
| Sampling.GatherTells | src/Mpeg.cpp:226-232 | on any file the gathered index is in key order, every entry is what the scan from a position hits, and every time hit is reached |
| Sampling.GatherRises | src/Mpeg.cpp:226-232 | on any synced file, its clock in order or not, the gathered offsets rise but for time 0 |
| Sampling.FreshIndexInOrder | src/Mpeg.cpp:206-235 | the index that take_samples leaves is in order if and only if no sampling position leads to a time later than that of the end |
| MpegFile.Mpeg.SampleAll | src/Mpeg.cpp:226-232 | at most 31 positions with at most 3 tries, from the start past the end; on any file every entry is one the code has read there, and when the scans are defined the index is what each of them hits, entered in turn where it fits; m_end_valid is cleared when anything is entered, and else left |
| TimeLine.GenuineIsMonotone | src/Mpeg.cpp:206-235 | on a file of non-decreasing stamps an index of real stamps is monotone |
| TimeLine.IndexComplete | src/Mpeg.cpp:233-234 | with both ends entered the index is real, anchored at both ends and monotone |
| MpegFile.Mpeg.EnterEnds | src/Mpeg.cpp:233-234 | the two end entries are the last updates |
| MpegFile.Mpeg.FillIndex | src/Mpeg.cpp:216-234 | on any file both ends are entered, and all else is read from it: when the scans are defined exactly the hits from 30 or 31 positions, or from one every 41942988 bytes of a shorter file |
| MpegFile.Mpeg.TakeSamples | src/Mpeg.cpp:206-235 | on any file the rebuilt index has both ends and exactly what the scans from those positions hit, where they are defined, and is read from it all the same where not; on an ordered one real, complete, anchored and monotone; empty exactly when the duration is not positive; bounded reads |
| MpegFile.Mpeg.CalcBitrate | src/Mpeg.cpp:268-289 | the average rate if and only if both ends are valid, their times differ and it lies between 10000 and 100000000; else -1 |
| MpegFile.Mpeg.BitrateIs | src/Mpeg.cpp:268-289 | within 12 TB the rate is the quotient of the bits and the clock distance of the ends when that lies between 10000 and 100000000, else -1 |
| MpegFile.Mpeg.PickBracket | src/Mpeg.cpp:361-378 | the entries around a time, the last segment behind the end, never end() unless there are not enough entries |
| TimeLine.RoundIsInside | src/Mpeg.cpp:359-394 | on a real index a round for a time on the time line finds a bracket in order and interpolates inside it |
| TimeLine.SampleKeepsIndex | src/Mpeg.cpp:397 | refinement keeps the index real and anchored |
| TimeLine.RoundResult | src/Mpeg.cpp:391-403 | an interpolated offset and what take_sample did there give a valid answer and a bracket inside the last one |
| TimeLine.RoundOnAnyIndex | src/Mpeg.cpp:391-403 | one round on any index in key order nests keys and upper offset, and below 2^62 the lower offset up to 187 bytes |
| SeekRounds.RoundsNest | src/Mpeg.cpp:355-408 | over any rounds on any stream, while the samples are not taken again, the bracket stays inside the first one by keys and upper offset, and below 2^62 up to 187 bytes a round by the lower offset |
| SeekRounds.LowerEndMovesOut | src/Mpeg.cpp:391-403 | a round whose sample lies 60 bytes below the entry it overwrites |
| SeekRounds.TrueIsSmall | src/Mpeg.cpp:391-394 | in a file of at most 2^62 bytes all offsets are below that bound |
| SeekRounds.SeenIsFirst | src/Mpeg.cpp:397 | on a synced file what a look-up reports is the first stamp from its offset, or there is none in reach |
| TimeLine.FarInTicks | src/Mpeg.cpp:398-402 | two times are too far apart if and only if they differ by 27090 ticks or more |
| SeekRounds.RoundsInTicks | src/Mpeg.cpp:355-408 | in ticks: a round is followed by another if and only if the samples were taken again, or the time found was entered and is 27090 ticks off or more, up to five rounds |
| SeekRounds.ChainIs | src/Mpeg.cpp:355-408 | each round starts from the index the one before leaves |
| SeekRounds.AnsweredIs | src/Mpeg.cpp:355-415 | the answer is that of the last look-up |
| SeekRounds.GoodTurnsNest | src/Mpeg.cpp:355-408 | over the rounds on a seekable file it stays inside exactly |
| SeekRounds.BehindTheEnd | src/Mpeg.cpp:367-394 | a time behind the last entry continues the last segment at its rate; the offset leaves the file if and only if the time is ahead by at least what the rest of the file takes at that rate, and then the answer is the wanted time |
| SeekRounds.AtTheStart | src/Mpeg.cpp:361-394 | a time not behind the first entry tries the offset of that entry |
| MpegFile.Mpeg.TryBetween | src/Mpeg.cpp:380-405 | the look-up at the offset interpolated between the two given entries, entered if and only if it is found and fits |
| MpegFile.Mpeg.SeekRound | src/Mpeg.cpp:359-408 | on any file one round: it uses the entries around the wanted time, reports what a scan from the offset interpolated between them finds, enters what fits, and goes on exactly when that is 27090 ticks off or more or the samples were taken again; then both ends are there, all else is read from the file, and it is what take_samples gathers |
| MpegFile.Mpeg.Prepare | src/Mpeg.cpp:346-353 | whether a seek is answered at all: for a new object if and only if the scans of the file hit two ends, for a known duration if and only if the end is valid |
| MpegFile.Mpeg.Refine | src/Mpeg.cpp:356-415 | on any file a sequence of such rounds, each from the index the last one left; with fewer than five a last look-up that was entered is less than 27090 ticks off, and every earlier one that was entered is not; the answer is the last look-up's; every index on the way is read from the file; one scan a round, 93 when the samples are taken again |
| MpegFile.Mpeg.Locate | src/Mpeg.cpp:355-422 | the rounds, or the average bit rate exactly when they give no time |
| MpegFile.Mpeg.GetOffset | src/Mpeg.cpp:344-423 | answered if and only if the end is valid, or for a new object the scans of the file hit two ends; then by those rounds on any file, going on by the same 27090 ticks, from an index that covers the file; on the time line of a seekable file a packet boundary between real entries around the time, with the time found there or the wanted one where no stamp is in reach; it leaves m_end_valid cleared |
| MpegRuns.ReadRun | src/Mpeg.cpp:85-128 | any run of positioned reads on a coherent object returns exactly the requested bytes |
| MpegRuns.AnyRun | src/Mpeg.cpp:131-204 | after any calls, moves of the file position and file changes a positive duration is floor(((end - begin) mod 2^33)/90000) at most 95443, and it and both ends never change again |
| MpegRuns.SeekRun | src/Mpeg.cpp:25-65 | over any run of absolute and relative seeks on a new object and a synced file, with the position moved after each: which seeks are answered, exactly |
| Recordings.SeekTwice | src/Mpeg.cpp:344-423 | on a new object for a concrete recording any first seek is answered and any second one refused |
| Recordings.MixedIndex | src/Mpeg.cpp:206-235 | the index take_samples leaves for a recording whose clock runs back, out of order |
| Recordings.SeekIntoDisorder | src/Mpeg.cpp:355-422 | a seek in that recording for which all five rounds take the samples again, and which answers behind any file |
| MpegRuns.SeekAgain | src/Mpeg.cpp:344-349 | once a seek has refined an answer or sampled a coherent object, every later seek returns -1, whatever happens in between |
| Recordings.StaleRead | src/Mpeg.cpp:85-128 | a seek to the end behind the cached offsets makes the next read return nothing |
| Recordings.MissesAWindow | src/Mpeg.cpp:145-181 | a run of two length calculations in the second of which a window is missed that way |
| Recordings.RecordingIsSeekable | src/Mpeg.cpp:344-423 | a concrete file that meets every condition of the seek and has a duration |
| SessionTable.FirstFree | src/SessionMap.cpp:100-101 | the lowest slot with pid 0 |
| SessionTable.FirstIp | src/SessionMap.cpp:150-151 | the lowest slot of an address |
| SessionTable.CountIpIs | src/SessionMap.cpp:165-176 | the count of an address is the number of its slots |
| SessionTable.RetainIsExact | src/SessionMap.cpp:53-67 | cleanup drops no session of a living process, leaves none of a dead one, and zeroes the rest |
| SessionTable.RetainTwice | src/SessionMap.cpp:53-67 | two cleanups are one with the processes alive at both |
| SessionTable.RegisterIsUpdate | src/Encoder.cpp:40-50 | registering clears the caller's old slot and takes the lowest free one |
| SessionTable.RegisterKeepsOrder | src/Encoder.cpp:40-50 | slots stay all zero or fully filled, and no address has two |
| SessionTable.RegisterIsSafe | src/Encoder.cpp:40-50 | the caller has exactly one slot afterwards unless the table is full without it; every other slot is as after the cleanup |
| SessionTable.PlaceExists | src/SessionMap.cpp:94-111 | there is a slot to take if and only if the address is known or a slot is free |
| SessionTable.RegisterId | src/SessionMap.cpp:143-162 | the returned id is the slot taken if and only if no free slot lies below the cleared one |
| SessionTable.RunsKeepOrder | src/Encoder.cpp:34-51 | the table stays well formed over any run of constructors |
| SessionTable.ServeKeepsIds | src/Encoder.cpp:40-50 | one constructor keeps every session on its own encoder if and only if it moves none down |
| SessionTable.SmoothRunsGiveDistinctIds | src/Encoder.cpp:34-51 | over a run that moves none down, sessions have pairwise distinct encoder ids |
| SessionTable.MovedSessionSharesEncoder | src/SessionMap.cpp:160-161 | a run after which two sessions hold encoder 1 |
| SessionMap.SessionMap.Terminated | src/SessionMap.cpp:83-91 | true if and only if the pid is not in the list |
| SessionMap.SessionMap.Erase | src/SessionMap.cpp:130-140 | zeroes the first slot of a pid and nothing else |
| SessionMap.SessionMap.Cleanup | src/SessionMap.cpp:53-67 | an exact filter by the snapshot, duplicate pids included |
| SessionMap.SessionMap.AlreadyExist | src/SessionMap.cpp:165-176 | the number of slots of an address |
| SessionMap.SessionMap.GetPidByIp | src/SessionMap.cpp:43-50 | the pid of the lowest slot of an address, 0 without one |
| SessionMap.SessionMap.Add | src/SessionMap.cpp:94-112 | fills the lowest free slot and returns it, or -1 and no change |
| SessionMap.SessionMap.Remove | src/SessionMap.cpp:115-127 | zeroes the lowest slot of an address |
| SessionMap.SessionMap.Update | src/SessionMap.cpp:143-162 | signals the old process, clears its slot, adds the new one, returns the cleared slot |
| SessionMap.Encoder.constructor | src/Encoder.cpp:34-51 | the constructor's table and id are those of Register |
| SessionSteps.SectionMeans | src/SessionMap.cpp:53-176 | a critical section left alone does in its single steps what its operation means on the whole table |
| SessionSteps.StepConserves | src/SharedMemory.h:67-82 | semaphore plus processes inside equals one plus destructor posts, kept by every step |
| SessionSteps.StepIsSerial | src/SharedMemory.h:67-82 | before a destructor post every step keeps the table on the way from the logged sections to the next one |
| SessionSteps.EveryRun | src/SharedMemory.h:67-82 | every interleaving of constructors and destructors: the conservation law; and before the first destructor post at most one process inside, and the run is a schedule of whole sections in lock order, with the same processes, results and unlocked table |
| SessionSteps.EverySchedule | src/SharedMemory.h:67-82 | conversely any schedule of sections is a run |
| SessionSteps.SectionKeepsOrder | src/SessionMap.cpp:53-176 | a section keeps one slot per address if and only if it is not an add that meets its address and a free slot |
| SessionSteps.OneSlotPerAddress | src/Encoder.cpp:40-50 | a schedule keeps one slot per address throughout if and only if no section of it is such an add |
| SessionSteps.WholeIsRegister | src/Encoder.cpp:40-50 | a process left alone goes through its three or four sections to the table and id of Register |
| SessionSteps.SerialConstructors | src/Encoder.cpp:34-51 | constructors that do not overlap give the table and ids of ServeAll |
| SessionSteps.AddressTwice | src/Encoder.cpp:40-50 | an undisturbed run of two overlapping constructors after which their address has two slots |
| SessionSteps.ExclusiveIff | src/SharedMemory.h:67-82 | from any consistent state on, mutual exclusion lasts if and only if no destructor has posted |
| SessionSteps.DestructorBreaksExclusion | src/Encoder.cpp:59-72 | a run of three constructors and the destructor of the first, after which the other two report slot 0 and one registration is lost |
| UriDecoder.HexDigit | src/UriDecoder.cpp:14-45 | h2i inverts hex digits of either case |
| UriDecoder.HexDigitsAre | src/UriDecoder.cpp:65-110 | an escape takes the digits 0 to 9 and the letters a to f of either case |
| UriDecoder.EscapeTextIs | src/UriDecoder.cpp:112-186 | what each escaped code becomes in each newline mode |
| UriDecoder.PlainStays | src/UriDecoder.cpp:188-231 | an input without a complete escape is left as it is |
| UriDecoder.PutEscape | src/UriDecoder.cpp:112-186 | an escape is replaced by its text, nothing unread is overwritten |
| UriDecoder.PutPair | src/UriDecoder.cpp:188-198 | a percent sign with one hex digit is copied as it is |
| UriDecoder.PutLiteral | src/UriDecoder.cpp:201-231 | a character is copied, a plus becomes a space only behind a decoded escape |
| UriDecoder.Turn | src/UriDecoder.cpp:58-233 | one turn appends the next token's text, never overtakes the reader, and never shrinks the gap |
| UriDecoder.DecodeUri | src/UriDecoder.cpp:48-235 | the buffer ends up holding what the pure left-to-right decoder gives, in every newline mode, nothing behind the terminator touched |
| UriDecoder.Decode | src/UriDecoder.cpp:238-260 | the narrowed decoding up to its first NUL |
| UriDecoder.TokensOfEncoding | src/UriDecoder.cpp:65-186 | the decoder sees exactly the tokens that were sent |
| UriDecoder.RoundTrip | src/UriDecoder.cpp:48-260 | with every percent sign escaped, decoding gives the original bytes if and only if no plus is left raw behind an escape |
| UriDecoder.DecodedBytes | src/UriDecoder.cpp:48-260 | byte by byte: what was sent, but 32 for a raw plus behind an escape |
| UriDecoder.EncodeThenDecode | src/UriDecoder.cpp:238-260 | with every percent and plus sign escaped, decode returns the original string, on platforms with signed and unsigned char |
| UriDecoder.LfModeCounts | src/UriDecoder.cpp:116-175 | each escaped CRLF, CR or LF gives one LF in the LF mode |
| UriDecoder.ModesAgree | src/UriDecoder.cpp:116-175 | the CRLF and CR results are the LF result with each LF replaced, if and only if the input has no raw LF |
| Streaming.SendAll | src/main.cpp:444-456 | whatever the write results, the client got a prefix of the block, and all of it on a normal end; is_terminated is looked at twice before each further write, and the look that sees it is the last |
| Streaming.BlockIsPrefix | src/main.cpp:436-437 | a read delivers the first bytes of what is there, at most 48127 |
| Streaming.StreamingThreadMain | src/main.cpp:415-467 | for every trace: the i-th block is the first bytes, at most 48127, of the i-th non-empty offer of the encoder; the bytes sent are a prefix of the blocks, and of the offers when none is longer, as many as the writes report, each block in full before the next; the looks at is_terminated, none behind the one that sees it; and the reason for stopping |
| Streaming.InOrderIsPrefix | src/main.cpp:424-467 | sending in order is sending a prefix of the concatenated reads |
| Streaming.RewriteToEncoder | src/main.cpp:509-529 | why the loop ends; the encoder got the first bytes plus those the writes took; both counts are off by exactly the failed writes and the bytes skipped; without either the encoder got a prefix, and without a failure it completes only without a skip |
| Streaming.SkipsAByte | src/main.cpp:511-529 | a run after which one byte is left by the count and two were not sent |
| Streaming.ResendsAByte | src/main.cpp:511-529 | a run with a failed write that completes with five bytes sent of four |
| Watchdog.TspChecker | src/main.cpp:164-199 | SIGUSR2 is requested at poll n if and only if n is the first poll with n >= 11 and the file missing, or n >= 13 and five equal times |
| Util.Split | src/Util.cpp:58-63 | the trimmed pieces getline delivers |
| Util.DroppedIs | src/Util.h:29 | trimmed are space, tab, line feed, vertical tab and carriage return |
| Util.TrimIs | src/Util.cpp:51-56 | trimming takes those off both ends and nothing else |
| Util.PiecesJoin | src/Util.cpp:58-63 | the pieces hold no delimiter, and joined they are the string less a delimiter at the very end |
| Util.StrToULOfHex | src/Demuxer.cpp:193 | strtoul in base 16 inverts the hex form of every number it can hold |
| Demuxer.Demuxer.AlreadyExist | src/Demuxer.cpp:104-111 | membership of the pid after its passage through int |
| Demuxer.Demuxer.Enter | src/Demuxer.cpp:187-213 | one token: which field its pid goes to by its type, unless pmt, video and audio are all set, and whether it joins the list |
| Demuxer.Demuxer.ParseWebifResponse | src/Demuxer.cpp:170-217 | the line is taken from the last plus sign and folded token by token, or refused without effect |
| Demuxer.FreezesForGood | src/Demuxer.cpp:196-209 | once pmt, video and audio are non-zero no token changes the four pids |
| Demuxer.NameAllAssigns | src/Demuxer.cpp:196-209 | each of the four pids is that of the last entry of its type, or the old one, among as many entries as it takes until pmt, video and audio are all known |
| Demuxer.FirstOccurrencesHasAll | src/Demuxer.cpp:210-212 | the kept list has every pid, each once |
| Demuxer.FirstOccurrencesGrow | src/Demuxer.cpp:210-212 | a part of the list gives the first part of the kept list |
| Demuxer.PiecesOfList | src/Util.cpp:58-63 | splitting undoes joining |
| Demuxer.ParseOfPrint | src/Demuxer.cpp:170-217 | parsing a printed list gives the demux id, the pids in order of first occurrence, and in each of the four fields the pid of the last entry of its type among as many as it takes until pmt, video and audio are known |
| Demuxer.ReadBack | src/Demuxer.cpp:170-217 | the same through the demuxer object |

## Left out

- Sockets, ioctl, fork, signals, /proc and /dev scans and logging: their results are arguments.
- The multi-file branches of the reader and find_pmt: never reached in the repository.
- Mpeg::seek's parsing of request parameters, and read_ts_meta.
- MpegFile.Mpeg.ReadInternal: does not model I/O errors or interrupted reads of a regular file.
- MpegFile.Mpeg.ScanPts: behind a PES header that leaves its packet, which is undefined in C++, it promises the bounds and the sync byte only.
- MpegFile.Mpeg.TakeSamples: where a scan meets a PES header that leaves its packet, which is undefined in C++, it says where each entry was read, not from which position.
- MpegFile.Mpeg.GetOffset: how far off a look-up is, in ticks, is claimed for times within 23 days of the start, where the milliseconds fit an int; behind the last entry only the extrapolated offset and when it leaves the file are claimed (`BehindTheEnd`), not how far it is from the time; on the time line the file must be below 8 TiB with bit rates that fit an int, since the code overflows otherwise.
- MpegRuns.SeekRun: the file is synced and stays as it is; with changes in between only the refusals of SeekAgain are claimed.
- SessionMap.SessionMap.Update: the process that receives SIGINT is recorded, not modelled.
- SessionMap.SessionMap.Add: addresses are strings without the 16-byte limit of the shared slot.
- SessionSteps.EveryRun: processes do not die inside a critical section; each one has one Encoder; remove, which nothing calls, has no steps of its own; get_pid_by_ip reads without the lock.
- UriDecoder.Decode: requires inputs below 1024 characters, the size of the fixed buffer.
- Streaming.StreamingThreadMain: a trace ends at the first write that reports an error; the code would then count back before its buffer.
- Streaming.RewriteToEncoder: a trace ends at a write outside of its buffer, which a failed first write leads to.
- Watchdog.TspChecker: what happens after the request (unlink, SIGKILL) is not modelled, and is_terminated stays false.
- The first poll of source_thread_main, which drops a whole buffer when the encoder is not writable.
- set_filter and the other ioctl loops of the demuxer.
- HTTP parsing and response text.
