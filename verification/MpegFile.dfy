/** The time index of src/Mpeg.cpp: cached reads, stamp scan, duration cache, samples, seek.

    m_nrfiles and m_splitsize stay 0, as the constructor sets them, so only the single-file
    branches exist.  file and pos are the file behind the descriptor and its kernel position. */
module MpegFile {
  import opened TsPacket
  import opened SampleIndex
  import opened SeekMath
  import opened Widths
  import opened TimeLine
  import opened Sampling
  import opened SeekRounds

  datatype Whence = Set | End

  class Mpeg {
    var file: seq<Byte>
    var pos: int

    var currentOffset: int
    var lastOffset: int

    var ptsBegin: int
    var ptsEnd: int
    var offsetBegin: int
    var offsetEnd: int
    var lastFilelength: int
    var beginValid: bool
    var endValid: bool
    var futile: bool

    var samplesTaken: bool
    var samples: Index
    var duration: int

    ghost var readCount: nat  // calls of read_internal so far

    constructor (contents: seq<Byte>)
      ensures file == contents && Valid() && Fresh() && Indexed()
      ensures duration == 0 && !samplesTaken && samples == [] && readCount == 0
    {
      file, pos := contents, 0;
      currentOffset, lastOffset := 0, 0;
      ptsBegin, ptsEnd, offsetBegin, offsetEnd, lastFilelength := 0, 0, 0, 0, 0;
      beginValid, endValid, futile, samplesTaken := false, false, false, false;
      samples, duration, readCount := [], 0, 0;
    }

    // ----- positioned reads

    /** The cached offsets and the kernel position agree. */
    ghost predicate Coherent()
      reads `pos, `currentOffset, `lastOffset
    {
      pos == currentOffset == lastOffset
    }

    ghost predicate IoRange()
      reads `pos, `currentOffset, `lastOffset
    {
      pos >= 0 && currentOffset >= -1 && lastOffset >= 0
    }

    /** A read at offset will seek, or need not. */
    ghost predicate Honest(offset: int)
      reads `pos, `currentOffset, `lastOffset
    {
      offset != currentOffset || currentOffset != lastOffset || pos == currentOffset
    }

    /** The kernel position a read at offset uses. */
    ghost function ReadPoint(offset: int): int
      reads `pos, `currentOffset, `lastOffset
    {
      if 0 <= offset && (offset != currentOffset || currentOffset != lastOffset) then offset else pos
    }

    /** At most count bytes of the file from at. */
    ghost function Slice(at: int, count: nat): seq<Byte>
      requires at >= 0
      reads `file
    {
      if at >= |file| then [] else if at + count <= |file| then file[at..at + count] else file[at..]
    }

    /** A read that gets any bytes gets those at the offset it asked for. */
    ghost predicate ReadsOk()
      reads `file, `pos, `currentOffset, `lastOffset
    {
      IoRange() && (currentOffset == lastOffset ==> pos == currentOffset || pos >= |file|)
    }

    /** A read at offset gets the bytes that are there, or none. */
    ghost predicate Reliable(offset: int)
      reads `file, `pos, `currentOffset, `lastOffset
    {
      ReadsOk() || Honest(offset)
    }

    /** lseek: a negative target fails and moves nothing. */
    method SeekInternal(offset: int, whence: Whence) returns (at: int)
      requires pos >= 0
      modifies `pos
      ensures var target := if whence.End? then |file| + offset else offset;
              if target >= 0 then at == pos == target else at == -1 && pos == old(pos)
    {
      var target := if whence.End? then |file| + offset else offset;
      if target < 0 {
        return -1;
      }
      pos := target;
      return target;
    }

    /** lseek only when the file offset in use is not the wanted one. */
    method SwitchOffset(off: int)
      requires pos >= 0
      modifies `pos, `lastOffset
      ensures if off == old(lastOffset) then pos == old(pos) && lastOffset == off
              else if off >= 0 then pos == lastOffset == off
              else pos == old(pos) && lastOffset == -1
    {
      if off != lastOffset {
        lastOffset := SeekInternal(off, Set);
      }
    }

    method ReadInternal(offset: int, count: nat) returns (ret: int, buf: seq<Byte>)
      requires pos >= 0 && currentOffset >= -1
      modifies `pos, `currentOffset, `lastOffset, `readCount
      ensures readCount == old(readCount) + 1
      ensures offset < 0 && offset != old(currentOffset) ==>
                ret == -1 && buf == [] && pos == old(pos) && currentOffset == -1 && lastOffset == old(lastOffset)
      ensures offset >= 0 || offset == old(currentOffset) ==>
                && buf == old(Slice(ReadPoint(offset), count)) && ret == |buf|
                && pos == old(ReadPoint(offset)) + ret
                && currentOffset == lastOffset == offset + ret
      ensures offset >= 0 && old(Honest(offset)) ==> buf == old(Slice(offset, count)) && Coherent()
    {
      readCount := readCount + 1;
      if offset != currentOffset {
        currentOffset := SeekInternal(offset, Set);
        if currentOffset < 0 {
          return currentOffset, [];
        }
      }
      SwitchOffset(currentOffset);
      buf := if pos >= |file| then [] else if pos + count <= |file| then file[pos..pos + count] else file[pos..];
      ret := |buf|;
      pos := pos + ret;
      if ret > 0 {
        lastOffset := lastOffset + ret;
        currentOffset := lastOffset;
      }
    }

    /** A read of one packet, in terms of the file. */
    method ReadPacket(offset: int) returns (n: int, packet: seq<Byte>)
      requires IoRange() && offset != -1
      modifies `pos, `currentOffset, `lastOffset, `readCount
      ensures IoRange() && (old(Reliable(offset)) ==> ReadsOk())
      ensures readCount == old(readCount) + 1
      ensures n == PACKET_SIZE ==>
                |packet| == PACKET_SIZE && offset >= 0 && currentOffset == lastOffset == offset + PACKET_SIZE
      ensures n == PACKET_SIZE && old(Reliable(offset)) ==>
                Whole(file, offset) && packet == file[offset..offset + PACKET_SIZE]
      ensures n != PACKET_SIZE && offset >= 0 && old(Honest(offset)) ==> !Whole(file, offset)
      ensures old(ReadsOk()) && !old(Honest(offset)) ==>
                && n != PACKET_SIZE
                && pos == old(pos) && currentOffset == old(currentOffset) && lastOffset == old(lastOffset)
      ensures offset >= 0 && old(Honest(offset)) ==> Coherent()
    {
      n, packet := ReadInternal(offset, PACKET_SIZE);
    }

    // ----- the stamp scan

    /** get_pts with fixed = 0: the first stamp found in the budget, and the offset the scan
        stopped at.  A PES header that leaves its packet is undefined in C++: any outcome. */
    method ScanPts(offset0: int, pts0: int) returns (ret: int, offset: int, pts: int)
      requires IoRange()
      modifies `pos, `currentOffset, `lastOffset, `readCount
      ensures IoRange() && (old(Reliable(Align(offset0))) ==> ReadsOk())
      ensures ret == 0 || ret == -1
      ensures readCount <= old(readCount) + PACKETS
      ensures Align(offset0) <= offset
      ensures ret == 0 ==> 0 <= Align(offset0) && 0 <= pts < CLOCK && currentOffset == lastOffset == offset + PACKET_SIZE
      ensures ret == -1 ==> pts == pts0
      ensures ret == 0 && old(Reliable(Align(offset0))) ==>
                Whole(file, offset) && file[offset] == SYNC
                && (StampAt(file, offset) == Stamped(pts) || StampAt(file, offset).Outside?)
      ensures old(Honest(Align(offset0))) ==>
                Agrees(ScanFrom(file, Align(offset0), PACKETS), ret, offset, pts) && (offset0 >= 0 ==> Coherent())
      ensures old(ReadsOk()) && !old(Honest(Align(offset0))) ==>
                && ret == -1 && offset == Align(offset0)
                && pos == old(pos) && currentOffset == old(currentOffset) && lastOffset == old(lastOffset)
      ensures ret == 0 && old(Reliable(Align(offset0))) && Synced(file) ==>
                && FirstStamp(file, Align(offset0), offset) && StampAt(file, offset) == Stamped(pts)
                && offset < Align(offset0) + WINDOW
      ensures offset0 >= 0 && old(Reliable(Align(offset0))) && Synced(file) ==>
                (ret == 0 <==> old(Honest(Align(offset0)))
                               && !NoStamp(file, Align(offset0), Align(offset0) + WINDOW))
    {
      hide PacketStamp, Align, ScanFrom, FirstSync, NoStamp, Synced;
      var left := BUDGET;
      offset, pts := Align(offset0), pts0;
      ghost var start, k, ok := offset, PACKETS, old(Reliable(Align(offset0)));
      ghost var honest := old(Honest(start));
      AlignFloors(offset0);
      ScanOutcome(file, start);
      while left >= PACKET_SIZE
        invariant IoRange() && (ok ==> Reliable(offset)) && (ok && k < PACKETS ==> ReadsOk())
        invariant start <= offset && offset != -1 && pts == pts0
        invariant 0 <= k == PACKETS - (readCount - old(readCount)) && left == BUDGET - 188 * (PACKETS - k)
        invariant k == PACKETS ==> currentOffset == old(currentOffset) && lastOffset == old(lastOffset)
                                   && pos == old(pos) && offset == start
        invariant k < PACKETS && honest ==> Honest(offset) && start >= 0 && Coherent()
        invariant ok && !honest ==> k == PACKETS
        invariant honest ==> ScanFrom(file, start, PACKETS) in {ScanFrom(file, offset, k), Undefined}
        decreases left
      {
        var n, packet := ReadPacket(offset);
        if n != PACKET_SIZE {
          if honest {
            ScanEnds(file, offset, k);
          }
          return -1, offset, pts;
        }
        if ok {
          ScanStep(file, offset, k, packet);
        }
        left, k := left - PACKET_SIZE, k - 1;
        var found, ticks, step := Inspect(packet);
        if found {
          return 0, offset, ticks;
        }
        offset := offset + step;
      }
      ScanEnds(file, offset, k);
      return -1, offset, pts;
    }

    /** The body of the scan loop: the stamp of a packet, or how far to move on.  A packet off
        the sync byte is left by 188 bytes less the position of its first sync byte. */
    method Inspect(packet: seq<Byte>) returns (found: bool, ticks: int, step: nat)
      requires |packet| == PACKET_SIZE
      ensures found ==> packet[0] == SYNC && 0 <= ticks < CLOCK
      ensures found ==> PacketStamp(packet) == Stamped(ticks) || PacketStamp(packet).Outside?
      ensures !found && packet[0] == SYNC ==> step == PACKET_SIZE && !PacketStamp(packet).Stamped?
      ensures packet[0] != SYNC ==> !found && step == PACKET_SIZE - FirstSync(packet)
    {
      step := PACKET_SIZE;
      if packet[0] != SYNC {
        var i := 0;
        while i < PACKET_SIZE && packet[i] != SYNC
          invariant 0 <= i <= PACKET_SIZE && step == PACKET_SIZE - i
          invariant SYNC !in packet[..i]
        {
          step, i := step - 1, i + 1;
        }
        FirstSyncIs(packet, i);
        return false, 0, step;
      }
      var outcome := PacketStamp(packet);
      if outcome.Outside? {
        outcome :| !outcome.Outside? && (outcome.Stamped? ==> 0 <= outcome.ticks < CLOCK);
      }
      if outcome.Stamped? {
        return true, outcome.ticks, step;
      }
      return false, 0, step;
    }

    // ----- the file's clock and duration

    /** What every method keeps, whatever the file holds and however it changes in between. */
    ghost predicate Valid()
      reads `pos, `currentOffset, `lastOffset, `ptsBegin, `ptsEnd, `lastFilelength, `duration, `beginValid, `offsetBegin,
            `samples
    {
      && IoRange() && (beginValid ==> 0 <= offsetBegin)
      && 0 <= ptsBegin < CLOCK && 0 <= ptsEnd < CLOCK && 0 <= lastFilelength && 0 <= duration
      && (duration > 0 ==> beginValid && duration == Ahead(ptsBegin, ptsEnd) / 90000)
      && Sorted(samples) && (samples != [] ==> duration > 0)
    }

    /** A known start is the first stamp of the file. */
    ghost predicate BeginTrue()
      reads `file, `beginValid, `offsetBegin, `ptsBegin
    {
      beginValid && Synced(file) ==> FirstStamp(file, 0, offsetBegin) && StampAt(file, offsetBegin) == Stamped(ptsBegin)
    }

    /** Behind a known duration the end is a stamp. */
    ghost predicate EndTrue()
      reads `file, `duration, `offsetEnd, `ptsEnd
    {
      duration > 0 && Synced(file) ==> StampedAt(file, offsetEnd) && StampAt(file, offsetEnd) == Stamped(ptsEnd)
    }

    /** How the index reflects the file while the file does not change: the first stamp is known, or
        can still be looked for, and what is known is true. */
    ghost predicate Linked()
      reads `file, `pos, `currentOffset, `lastOffset,
            `beginValid, `offsetBegin, `ptsBegin, `duration, `offsetEnd, `ptsEnd
    {
      (beginValid || Reliable(0)) && BeginTrue() && EndTrue()
    }

    method CalcBegin()
      requires Valid()
      modifies `pos, `currentOffset, `lastOffset, `readCount,
               `offsetBegin, `ptsBegin, `beginValid, `endValid, `futile
      ensures Valid() && (old(Linked()) ==> Linked()) && (old(ReadsOk()) ==> ReadsOk())
      ensures beginValid || futile
      ensures old(beginValid) ==>
                && beginValid && offsetBegin == old(offsetBegin) && ptsBegin == old(ptsBegin)
                && futile == old(futile) && readCount == old(readCount)
                && pos == old(pos) && currentOffset == old(currentOffset) && lastOffset == old(lastOffset)
      ensures !old(beginValid) && !old(futile) && old(Honest(0)) ==>
                BeginHeard(file, beginValid, offsetBegin, ptsBegin) && futile == !beginValid
      ensures !old(beginValid) && (old(futile) || (old(ReadsOk()) && !old(Honest(0)))) ==> !beginValid
      ensures endValid == (old(endValid) && !beginValid)
      ensures !old(beginValid) && beginValid ==> !futile
      ensures !old(beginValid) && beginValid ==> 0 <= offsetBegin && currentOffset == lastOffset == offsetBegin + PACKET_SIZE
      ensures !old(beginValid) && beginValid && old(Reliable(0)) && Synced(file) ==>
                FirstStamp(file, 0, offsetBegin) && offsetBegin < WINDOW && StampAt(file, offsetBegin) == Stamped(ptsBegin)
      ensures old(Coherent()) ==> Coherent()
      ensures !old(beginValid) && !old(futile) && old(Reliable(0)) && Synced(file) ==>
                (beginValid <==> old(Honest(0)) && !NoStamp(file, 0, WINDOW))
      ensures readCount <= old(readCount) + PACKETS
    {
      hide PacketStamp, Synced, NoStamp, FirstStamp, StampAt, StampedAt, ScanFrom, Sorted, Ahead;
      if !(beginValid || futile) {
        offsetBegin := 0;
        var ret;
        ret, offsetBegin, ptsBegin := ScanPts(offsetBegin, ptsBegin);
        if ret == 0 {
          beginValid := true;
        } else {
          futile := true;
        }
      }
      if beginValid {
        endValid := false;
      }
    }

    method FixPts(now0: int) returns (ret: int, now: int)
      requires Valid()
      modifies `pos, `currentOffset, `lastOffset, `readCount,
               `offsetBegin, `ptsBegin, `beginValid, `endValid, `futile
      ensures Valid() && (old(Linked()) ==> Linked()) && (old(ReadsOk()) ==> ReadsOk())
      ensures old(beginValid) ==>
                && beginValid && offsetBegin == old(offsetBegin) && ptsBegin == old(ptsBegin)
                && futile == old(futile) && readCount == old(readCount)
                && pos == old(pos) && currentOffset == old(currentOffset) && lastOffset == old(lastOffset)
      ensures ret == 0 <==> beginValid
      ensures ret == 0 ==> now == Unwrap(ptsBegin, now0) && !endValid
      ensures ret == 0 && 0 <= now0 < CLOCK ==>
                0 <= now < CLOCK
                && now == if ptsBegin - 900000 < now0 < ptsBegin then now0 else (now0 - ptsBegin) % 0x2_0000_0000
      ensures ret != 0 ==> now == now0 && ret == -1 && endValid == old(endValid)
      ensures readCount <= old(readCount) + PACKETS
    {
      now := now0;
      CalcBegin();
      if !beginValid {
        return -1, now;
      }
      if now < ptsBegin && ptsBegin - now < 90000 * 10 {
        return 0, now;
      }
      now := if now < ptsBegin then now + CLOCK - ptsBegin else now - ptsBegin;
      return 0, now;
    }

    /** One turn of calc_end's loop: step back and scan, for the n-th time. */
    method ProbeEnd(ghost n: nat)
      requires Valid() && duration == 0 && !endValid && !futile && n > 0
      requires offsetEnd == Max(0, lastFilelength - (n - 1) * BUDGET)
      modifies `pos, `currentOffset, `lastOffset, `readCount, `offsetEnd, `ptsEnd, `endValid, `futile
      ensures Valid() && (old(ReadsOk()) ==> ReadsOk())
      ensures readCount <= old(readCount) + PACKETS
      ensures !endValid ==> offsetEnd == Max(0, lastFilelength - n * BUDGET) && (futile <==> offsetEnd == 0)
      ensures endValid ==> 0 <= offsetEnd == currentOffset - PACKET_SIZE && (futile <==> offsetEnd == 0)
      ensures endValid && old(ReadsOk()) ==> Coherent()
      ensures old(Honest(WindowStart(lastFilelength, n))) ==>
                && Coherent()
                && match ScanFrom(file, WindowStart(lastFilelength, n), PACKETS)
                   case Hit(at, ticks) => endValid && offsetEnd == at && ptsEnd == ticks
                   case Miss(_) => !endValid
                   case Undefined => true
      ensures old(ReadsOk()) && !old(Honest(WindowStart(lastFilelength, n))) ==>
                && !endValid
                && pos == old(pos) && currentOffset == old(currentOffset) && lastOffset == old(lastOffset)
    {
      hide PacketStamp, StampAt, StampedAt, NoStamp, Synced, Sorted, Ahead, Align, ScanFrom, ReadsOk, WindowStart, Max;
      ProbeStart(lastFilelength, n);
      offsetEnd := Max(0, offsetEnd - BUDGET);
      var off := offsetEnd;
      var ret;
      ret, offsetEnd, ptsEnd := ScanPts(offsetEnd, ptsEnd);
      if ret == 0 {
        endValid := true;
      } else {
        offsetEnd := off;
      }
      if offsetEnd == 0 {
        futile := true;
      }
    }

    /** How many probes of a file of the given recorded length use a stale kernel position and
        fail unseen, right after the seek to the end of the file. */
    ghost function Missed(len: int): nat
      reads `file, `currentOffset, `lastOffset
    {
      if currentOffset != lastOffset then 0 else MissedAt(file, currentOffset, len)
    }

    /** The loop of calc_end, right after the seek to the end: probes counts its turns. */
    method ProbeBackwards() returns (ghost probes: nat)
      requires Valid() && ReadsOk() && duration == 0 && pos == |file| && offsetEnd == lastFilelength >= 0
      modifies `pos, `currentOffset, `lastOffset, `readCount, `offsetEnd, `ptsEnd, `endValid, `futile
      ensures Valid() && ReadsOk()
      ensures endValid || futile
      ensures probes <= 9 && readCount <= old(readCount) + probes * PACKETS
      ensures probes == 0 <==> old(endValid) || old(futile)
      ensures probes == 0 ==> endValid == old(endValid) && futile == old(futile)
      ensures probes > 0 && endValid ==>
                0 <= offsetEnd == currentOffset - PACKET_SIZE && (futile <==> offsetEnd == 0) && Coherent()
      ensures probes > old(Missed(lastFilelength)) ==> Coherent()
      ensures probes > 0 ==>
                && Heard(file, lastFilelength, old(Missed(lastFilelength)), probes, endValid, offsetEnd, ptsEnd)
                && (endValid || probes == 9 || WindowStart(lastFilelength, probes) == 0)
    {
      hide Valid, ReadsOk, IoRange, ScanFrom, WindowStart, Mute;
      var maxiter := 10;
      probes := 0;
      ghost var missed := Missed(lastFilelength);
      NothingHeard(file, lastFilelength, missed);
      EqualWindows(lastFilelength);
      while !(endValid || futile)
        invariant Valid() && ReadsOk() && duration == 0
        invariant probes == 10 - maxiter <= 9 && readCount <= old(readCount) + probes * PACKETS
        invariant probes == 0 ==> old(endValid) == endValid && old(futile) == futile
        invariant probes > 0 ==> !old(endValid) && !old(futile)
        invariant !endValid ==> offsetEnd == Max(0, lastFilelength - probes * BUDGET)
        invariant probes > 0 ==> (futile <==> offsetEnd == 0)
        invariant probes > 0 && endValid ==> 0 <= offsetEnd == currentOffset - PACKET_SIZE && Coherent()
        invariant probes <= missed ==>
                    pos == old(pos) && currentOffset == old(currentOffset) && lastOffset == old(lastOffset)
        invariant probes > missed ==> Coherent()
        invariant Heard(file, lastFilelength, missed, probes, endValid && probes > 0, offsetEnd, ptsEnd)
        decreases maxiter
      {
        maxiter := maxiter - 1;
        if maxiter == 0 {
          futile := true;
          return;
        }
        probes := probes + 1;
        ProbeEnd(probes);
        HeardStep(file, lastFilelength, missed, probes, endValid, offsetEnd, ptsEnd);
      }
      WindowAtStart(lastFilelength, probes);
    }

    /** Looks for the last stamp in windows stepping back from the end: probes counts them. */
    method CalcEnd() returns (ghost probes: nat)
      requires Valid() && duration == 0
      modifies `pos, `currentOffset, `lastOffset, `readCount,
               `lastFilelength, `offsetEnd, `ptsEnd, `endValid, `futile
      ensures Valid() && ReadsOk() && (old(Linked()) ==> Linked())
      ensures endValid || futile
      ensures probes <= 9 && readCount <= old(readCount) + probes * PACKETS
      ensures lastFilelength == if -1048576 <= |file| - old(lastFilelength) <= 1048576 then old(lastFilelength) else |file|
      ensures probes == 0 <==> (old(endValid) || old(futile)) && lastFilelength == old(lastFilelength)
      ensures probes == 0 ==> endValid == old(endValid) && futile == old(futile)
      ensures probes > 0 && endValid ==>
                0 <= offsetEnd == currentOffset - PACKET_SIZE && (futile <==> offsetEnd == 0) && Coherent()
      ensures var len := lastFilelength; probes > old(Missed(len)) ==> Coherent()
      ensures var len := lastFilelength;
              probes > 0 ==>
                && Heard(file, len, old(Missed(len)), probes, endValid, offsetEnd, ptsEnd)
                && (endValid || probes == 9 || WindowStart(len, probes) == 0)
    {
      hide StampAt, Synced, Sorted, Ahead, FirstStamp, StampedAt, Heard, WindowStart;
      var end := SeekInternal(0, End);
      if Abs(end - lastFilelength) > MEGABYTE {
        lastFilelength, endValid, futile := end, false, false;
      }
      offsetEnd := lastFilelength;
      probes := ProbeBackwards();
    }

    /** A new object that has looked at nothing yet. */
    ghost predicate Fresh()
      reads `pos, `currentOffset, `lastOffset, `beginValid, `endValid, `futile, `lastFilelength, `duration, `samplesTaken
    {
      Coherent() && !beginValid && !endValid && !futile && lastFilelength == 0 && duration == 0 && !samplesTaken
    }

    /** The ends are those the scans of the file hit, the last one in the n-th window. */
    ghost predicate HeardAt(n: nat)
      reads `file, `offsetBegin, `ptsBegin, `offsetEnd, `ptsEnd
    {
      EndsHeard(file, offsetBegin, ptsBegin, offsetEnd, ptsEnd, n)
    }

    /** What a new object makes of the ends of any legible file. */
    lemma ReadFirst(probes: nat, missed: nat)
      requires Legible(file) && lastFilelength == RecordedLength(file) && probes <= 9
      requires BeginHeard(file, beginValid, offsetBegin, ptsBegin)
      requires beginValid ==> 0 < probes && missed == MissedAt(file, offsetBegin + PACKET_SIZE, lastFilelength)
      requires beginValid ==>
                 && Heard(file, lastFilelength, missed, probes, endValid, offsetEnd, ptsEnd)
                 && (endValid || probes == 9 || WindowStart(lastFilelength, probes) == 0)
      ensures (beginValid && endValid <==> HasEnds(file)) && (beginValid && endValid ==> HeardAt(probes))
    {
      hide WindowStart, Heard, EndsHeard, ScanFrom;
      HitIsRead(file, 0, PACKETS);
      if beginValid {
        FirstWindowIsAhead(file, offsetBegin);
        FirstHearing(file, offsetBegin, ptsBegin, probes, endValid, offsetEnd, ptsEnd);
      } else {
        NoBeginHeard(file);
      }
    }

    /** The ends are those a first look at the file finds. */
    ghost predicate EndsLocated()
      reads `file, `offsetBegin, `offsetEnd
    {
      exists n :: Located(file, offsetBegin, offsetEnd, n)
    }

    /** The object has found both ends of its synced file, wherever the kernel position is now.  An
        end at offset 0 was marked futile all the same. */
    ghost predicate Looked()
      reads `file, `currentOffset, `lastFilelength,
            `beginValid, `offsetBegin, `ptsBegin, `duration, `offsetEnd, `ptsEnd, `futile
    {
      && BeginTrue() && EndTrue() && Synced(file) && beginValid && lastFilelength == RecordedLength(file)
      && currentOffset == offsetEnd + PACKET_SIZE && (futile <==> offsetEnd == 0)
      && EndsLocated()
    }

    /** The object has looked for the ends of its synced file and has given up. */
    ghost predicate Barren()
      reads `file, `currentOffset, `lastFilelength, `beginValid, `duration, `endValid, `futile
    {
      && Synced(file) && duration == 0 && lastFilelength == RecordedLength(file)
      && if beginValid then futile && !endValid else NoStamp(file, 0, WINDOW) && (futile || currentOffset != 0)
    }

    /** It has found ends less than a second apart, and will find them at every look. */
    ghost predicate Repeats()
      reads `file, `currentOffset, `lastFilelength,
            `beginValid, `offsetBegin, `ptsBegin, `duration, `offsetEnd, `ptsEnd, `futile
    {
      Looked() && duration == 0 && offsetEnd != 0 && !Measurable(file)
    }

    /** Both ends of the time line: probes counts the looks for the last one, missed those of them
        that saw nothing. */
    method FindEnds() returns (ghost probes: nat, ghost missed: nat)
      requires Valid() && duration == 0
      modifies `pos, `currentOffset, `lastOffset, `readCount,
               `offsetBegin, `ptsBegin, `beginValid, `lastFilelength, `offsetEnd, `ptsEnd, `endValid, `futile
      ensures Valid() && ReadsOk() && (old(Linked()) ==> Linked())
      ensures readCount <= old(readCount) + 10 * PACKETS
      ensures lastFilelength == if -1048576 <= |file| - old(lastFilelength) <= 1048576 then old(lastFilelength) else |file|
      ensures old(beginValid) ==> beginValid && offsetBegin == old(offsetBegin) && ptsBegin == old(ptsBegin)
      ensures !old(beginValid) && old(Reliable(0)) && Synced(file) ==>
                && (beginValid <==> !old(futile) && old(Honest(0)) && !NoStamp(file, 0, WINDOW))
                && (beginValid ==> FirstStamp(file, 0, offsetBegin) && offsetBegin < WINDOW
                                   && StampAt(file, offsetBegin) == Stamped(ptsBegin))
      ensures !old(beginValid) && !old(futile) && old(Honest(0)) ==> BeginHeard(file, beginValid, offsetBegin, ptsBegin)
      ensures !old(beginValid) && (old(futile) || (old(ReadsOk()) && !old(Honest(0)))) ==> !beginValid
      ensures endValid || futile
      ensures !beginValid ==> futile || 0 <= offsetEnd == currentOffset - PACKET_SIZE
      ensures beginValid ==>
                && (probes == 0 <==> old(beginValid) && old(futile) && lastFilelength == old(lastFilelength))
                && (probes == 0 ==> futile && !endValid)
      ensures old(beginValid) ==> var len := lastFilelength; missed == old(Missed(len))
      ensures !old(beginValid) && beginValid ==>
                0 <= offsetBegin && missed == MissedAt(file, offsetBegin + PACKET_SIZE, lastFilelength)
      ensures probes <= 9
      ensures probes > 0 && endValid ==>
                0 <= offsetEnd == currentOffset - PACKET_SIZE && (futile <==> offsetEnd == 0) && Coherent()
      ensures probes > 0 ==>
                && Heard(file, lastFilelength, missed, probes, endValid, offsetEnd, ptsEnd)
                && (endValid || probes == 9 || WindowStart(lastFilelength, probes) == 0)
                && (probes > missed ==> Coherent())
    {
      hide StampAt, StampedAt, NoStamp, Synced, Sorted, Ahead, FirstStamp, WindowStart, Heard, BeginHeard;
      CalcBegin();
      ghost var len := if -1048576 <= |file| - lastFilelength <= 1048576 then lastFilelength else |file|;
      missed := Missed(len);
      probes := CalcEnd();
    }

    /** The same, in terms of what the file holds. */
    method Look() returns (ghost probes: nat, ghost missed: nat)
      requires Valid() && duration == 0
      modifies `pos, `currentOffset, `lastOffset, `readCount,
               `offsetBegin, `ptsBegin, `beginValid, `lastFilelength, `offsetEnd, `ptsEnd, `endValid, `futile
      ensures Valid() && ReadsOk() && (old(Linked()) ==> Linked())
      ensures readCount <= old(readCount) + 10 * PACKETS
      ensures lastFilelength == if -1048576 <= |file| - old(lastFilelength) <= 1048576 then old(lastFilelength) else |file|
      ensures beginValid && endValid ==> Coherent()
      ensures old(Linked()) && Synced(file) && beginValid && endValid ==>
                && StampedAt(file, offsetEnd) && StampAt(file, offsetEnd) == Stamped(ptsEnd)
                && (lastFilelength == 0 ==> ptsBegin == ptsEnd)
      // any object
      ensures !old(beginValid) && !old(futile) && old(Honest(0)) ==> BeginHeard(file, beginValid, offsetBegin, ptsBegin)
      ensures !old(beginValid) && (old(futile) || (old(ReadsOk()) && !old(Honest(0)))) ==> !beginValid
      ensures !old(beginValid) && old(Reliable(0)) && Synced(file) ==>
                (beginValid <==> !old(futile) && old(Honest(0)) && !NoStamp(file, 0, WINDOW))
      ensures old(beginValid) ==> var len := lastFilelength; beginValid && missed == old(Missed(len))
      ensures !old(beginValid) && beginValid ==>
                0 <= offsetBegin && missed == MissedAt(file, offsetBegin + PACKET_SIZE, lastFilelength)
      ensures beginValid ==>
                if old(beginValid && futile) && lastFilelength == old(lastFilelength) then !endValid
                else Heard(file, lastFilelength, missed, probes, endValid, offsetEnd, ptsEnd) && 0 < probes <= 9
                     && (endValid || probes == 9 || WindowStart(lastFilelength, probes) == 0)
      // a new one, and one that has looked before
      ensures old(Fresh()) && Legible(file) ==>
                (beginValid && endValid <==> HasEnds(file)) && (beginValid && endValid ==> HeardAt(probes))
      ensures old(Fresh()) && Synced(file) ==>
                if beginValid && endValid then Looked() else Barren() && !Locatable(file)
      ensures old(Looked()) ==>
                if old(offsetEnd) != 0 then Looked() && endValid && offsetEnd == old(offsetEnd) else Barren()
      ensures old(Barren()) ==> Barren() && !(beginValid && endValid)
    {
      hide StampAt, StampedAt, NoStamp, Synced, Sorted, Ahead, FirstStamp, WindowStart, HitIn, Quiet, Located, Locatable,
           ScanFrom, EndsHeard, HasEnds, Heard, Legible, HeardAt, BeginHeard;
      probes, missed := FindEnds();
      if old(Fresh()) && Legible(file) {
        ReadFirst(probes, missed);
      }
      if Synced(file) && beginValid && probes > 0 {
        HeardOnSynced(file, lastFilelength, missed, probes, endValid, offsetEnd, ptsEnd);
      }
      if old(Linked()) && Synced(file) && beginValid && endValid {
        HitIsStamp(file, lastFilelength, probes, offsetBegin, offsetEnd);
      }
      if old(Fresh()) && Synced(file) {
        if beginValid {
          FirstWindowIsAhead(file, offsetBegin);
          FirstLook(file, offsetBegin, probes, endValid, offsetEnd, ptsEnd);
        } else {
          NotLocated(file);
        }
      }
      if old(Looked()) && old(offsetEnd) != 0 {
        ghost var n :| Located(file, offsetBegin, old(offsetEnd), n);
        LocatedHit(file, offsetBegin, old(offsetEnd), n);
        EndIsInWindow(file, RecordedLength(file), n, old(offsetEnd));
        Relook(file, offsetBegin, old(offsetEnd), n, missed, probes, endValid, offsetEnd, ptsEnd);
      }
    }

    /** The next scan behind a known duration sees the file or nothing: any one of the seek, or on a
        synced file the first one of the sampling, after which the positions agree. */
    ghost predicate Trusted()
      reads `file, `pos, `currentOffset, `lastOffset, `duration, `samplesTaken, `offsetBegin
    {
      duration > 0 ==> ReadsOk() || (Synced(file) && !samplesTaken && Honest(offsetBegin))
    }

    /** ... and it sees the file. */
    ghost predicate Settled()
      reads `file, `pos, `currentOffset, `lastOffset, `duration, `samplesTaken, `offsetBegin
    {
      duration > 0 ==> Coherent() || (Synced(file) && !samplesTaken && Honest(offsetBegin))
    }

    /** The duration in seconds, computed once; -1 while the clock of the file is not known.  The
        first look at a file finds both ends exactly when it has them, and a duration exactly
        when it is measurable. */
    method CalcLength() returns (ret: int, ghost probes: nat, ghost missed: nat)
      requires Valid()
      modifies `pos, `currentOffset, `lastOffset, `readCount,
               `offsetBegin, `ptsBegin, `beginValid, `lastFilelength, `offsetEnd, `ptsEnd, `endValid, `futile,
               `duration
      ensures Valid() && (old(Linked()) ==> Linked())
      ensures old(duration) > 0 ==>
                && ret == duration == old(duration) && endValid == old(endValid) && readCount == old(readCount)
                && beginValid == old(beginValid) && ptsBegin == old(ptsBegin) && ptsEnd == old(ptsEnd)
                && offsetBegin == old(offsetBegin) && offsetEnd == old(offsetEnd)
                && pos == old(pos) && currentOffset == old(currentOffset) && lastOffset == old(lastOffset)
      ensures old(duration) == 0 ==>
                if beginValid && endValid then ret == duration == Ahead(ptsBegin, ptsEnd) / 90000
                else ret == -1 && duration == 0
      ensures old(duration) == 0 && !old(beginValid) && !old(futile) && old(Honest(0)) ==>
                BeginHeard(file, beginValid, offsetBegin, ptsBegin)
      ensures old(duration) == 0 && !old(beginValid) && (old(futile) || (old(ReadsOk()) && !old(Honest(0)))) ==> ret == -1
      ensures old(duration) == 0 && !old(beginValid) && old(Reliable(0)) && Synced(file) ==>
                (beginValid <==> !old(futile) && old(Honest(0)) && !NoStamp(file, 0, WINDOW))
      ensures old(duration) == 0 && old(beginValid) ==> var len := lastFilelength; missed == old(Missed(len))
      ensures old(duration) == 0 && !old(beginValid) && beginValid ==>
                0 <= offsetBegin && missed == MissedAt(file, offsetBegin + PACKET_SIZE, lastFilelength)
      ensures old(duration) == 0 && beginValid ==>
                if old(beginValid && futile) && lastFilelength == old(lastFilelength) then !endValid
                else Heard(file, lastFilelength, missed, probes, endValid, offsetEnd, ptsEnd) && 0 < probes <= 9
                     && (endValid || probes == 9 || WindowStart(lastFilelength, probes) == 0)
      ensures old(Fresh()) && Legible(file) ==> (ret >= 0 <==> HasEnds(file)) && (ret >= 0 ==> HeardAt(probes))
      ensures old(duration) == 0 ==> ReadsOk() && (ret >= 0 ==> Coherent())
      ensures readCount <= old(readCount) + 10 * PACKETS
      ensures old(Fresh()) && Synced(file) ==>
                && (ret >= 0 <==> Locatable(file)) && (if ret >= 0 then Looked() else Barren())
                && (duration > 0 <==> Measurable(file)) && (duration > 0 ==> offsetBegin < offsetEnd)
      ensures old(Looked()) && old(duration) == 0 ==>
                if old(offsetEnd) != 0 then
                  Looked() && ret >= 0 && (duration > 0 <==> Measurable(file)) && offsetEnd == old(offsetEnd)
                else ret == -1 && Barren()
      ensures old(Repeats()) ==> Repeats() && ret == 0
      ensures old(Barren()) ==> Barren() && ret == -1
      ensures old(Linked()) && Synced(file) && |file| <= MEGABYTE && old(lastFilelength) == 0 && old(duration) == 0 ==>
                lastFilelength == 0 && duration == 0
    {
      hide StampAt, StampedAt, NoStamp, Synced, Sorted, WindowStart, Located, Locatable, Measurable, Heard, HitIn,
           IoRange, FirstStamp, BeginHeard, HeardAt, HasEnds, Legible;
      probes, missed := 0, 0;
      if duration <= 0 {
        probes, missed := Look();
        NotMeasured(file);
        if !(beginValid && endValid) {
          return -1, probes, missed;
        }
        if Looked() {
          MeasuredByEnds(file, offsetBegin, offsetEnd);
        }
        var len := ptsEnd - ptsBegin;
        if len < 0 {
          len := len + CLOCK;
        }
        AheadIsModular(ptsBegin, ptsEnd);
        duration := Int32(len / 90000);
      }
      return duration, probes, missed;
    }

    // ----- samples

    /** get_pts with fixed = 1: the stamp counts from the first one of the file. */
    method GetPtsFixed(offset0: int, pts0: int) returns (ret: int, offset: int, pts: int)
      requires Valid()
      modifies `pos, `currentOffset, `lastOffset, `readCount,
               `offsetBegin, `ptsBegin, `beginValid, `endValid, `futile
      ensures Valid() && (old(Reliable(Align(offset0))) ==> ReadsOk())
      ensures old(Linked()) && old(beginValid || Reliable(Align(offset0))) ==> Linked()
      ensures old(beginValid) ==>
                && beginValid && offsetBegin == old(offsetBegin) && ptsBegin == old(ptsBegin)
                && readCount <= old(readCount) + PACKETS
      ensures ret == 0 || ret == -1
      ensures ret == 0 ==> beginValid && !endValid && 0 <= Align(offset0) <= offset && 0 <= pts < CLOCK
      ensures ret == -1 && old(beginValid) ==> endValid == old(endValid) && pts == pts0
      ensures old(beginValid) && old(Honest(Align(offset0))) ==>
                AgreesFixed(ScanFrom(file, Align(offset0), PACKETS), ptsBegin, ret, offset, pts)
      ensures ret == 0 && old(Reliable(Align(offset0))) ==> Named(file, ptsBegin, Sample(pts, offset))
      ensures ret == 0 && old(Linked()) && old(Reliable(Align(offset0))) && Synced(file) ==>
                && FirstStamp(file, Align(offset0), offset) && offset < Align(offset0) + WINDOW
                && pts == Unwrap(ptsBegin, StampAt(file, offset).ticks)
      ensures old(beginValid) && offset0 >= 0 && old(Honest(Align(offset0))) ==> Coherent()
      ensures ret == -1 && old(beginValid) && offset0 >= 0 && old(Honest(Align(offset0))) && Synced(file) ==>
                NoStamp(file, Align(offset0), Align(offset0) + WINDOW)
      ensures readCount <= old(readCount) + 2 * PACKETS
    {
      hide PacketStamp, Synced, NoStamp, Unwrap, Align, Ahead, ScanFrom, Sorted, StampAt;
      ret, offset, pts := ScanPts(offset0, pts0);
      if ret == 0 {
        ret, pts := FixPts(pts);
      }
    }

    /** Looks up the stamp at an offset and enters it unless it contradicts its neighbours. */
    method TakeSample(off0: int, p0: int) returns (ret: int, p: int, ghost off: int)
      requires Valid() && duration > 0
      modifies `pos, `currentOffset, `lastOffset, `readCount,
               `offsetBegin, `ptsBegin, `beginValid, `endValid, `futile, `samples
      ensures Valid() && (old(Linked()) ==> Linked()) && (old(Reliable(Align(off0))) ==> ReadsOk())
      ensures offsetBegin == old(offsetBegin) && ptsBegin == old(ptsBegin)
      ensures readCount <= old(readCount) + PACKETS
      ensures ret == 0 || ret == 1 || ret == -1
      ensures samples == if ret == 0 then Put(old(samples), p, off) else old(samples)
      ensures ret == 0 ==> samples != []
      ensures ret == 0 ==> Fits(old(samples), p, off)
      ensures ret == 1 ==> !Fits(old(samples), p, off)
      ensures ret == 0 && Monotone(old(samples)) && old(samples) != [] ==>
                (Monotone(samples) <==> EndsInOrder(old(samples), p, off))
      ensures ret >= 0 ==> !endValid && 0 <= Align(off0) <= off && 0 <= p < CLOCK
      ensures ret == -1 ==> endValid == old(endValid) && p == p0
      ensures old(Honest(Align(off0))) ==>
                AgreesFixed(ScanFrom(file, Align(off0), PACKETS), ptsBegin, if ret >= 0 then 0 else -1, off, p)
      ensures ret >= 0 && old(Reliable(Align(off0))) ==> Named(file, ptsBegin, Sample(p, off))
      ensures ret >= 0 && old(Linked()) && old(Reliable(Align(off0))) && Synced(file) ==>
                && FirstStamp(file, Align(off0), off) && off < Align(off0) + WINDOW
                && p == Unwrap(ptsBegin, StampAt(file, off).ticks)
      ensures off0 >= 0 && old(Honest(Align(off0))) ==> Coherent()
      ensures ret == -1 && off0 >= 0 && old(Honest(Align(off0))) && Synced(file) ==>
                NoStamp(file, Align(off0), Align(off0) + WINDOW)
    {
      hide PacketStamp, Synced, NoStamp, Unwrap, Align, Ahead, Put, FirstStamp, Sorted, Monotone, EndsInOrder,
           StampAt, StampedAt, ScanFrom, AgreesFixed, Named;
      var found, at;
      found, at, p := GetPtsFixed(off0, p0);
      off := at;
      if found == 0 {
        var l := LowerBound(samples, p);
        var u := l;
        if l != 0 {
          l := l - 1;
          if u != |samples| {
            if samples[l].off > at || samples[u].off < at {
              return 1, p, off;
            }
          }
        }
        EnterSample(samples, p, at);
        samples := Put(samples, p, at);
        return 0, p, off;
      }
      return -1, p, off;
    }

    /** The index reflects the file: entries read from it, real stamps and both ends where it is in
        order. */
    ghost predicate Indexed()
      reads `file, `pos, `currentOffset, `lastOffset,
            `beginValid, `offsetBegin, `ptsBegin, `duration, `offsetEnd, `ptsEnd, `samples
    {
      && Linked()
      && (samples != [] ==>
            && duration > 0
            && RealBut(file, ptsBegin, samples, Sample(0, offsetBegin), Sample(ptsEnd - ptsBegin, offsetEnd))
            && (Synced(file) && Ordered(file) ==>
                  Genuine(file, ptsBegin, samples) && Anchored(samples, ptsEnd - ptsBegin, offsetEnd)))
    }

    /** What a linked object knows of the ends of a synced file. */
    lemma EndsOfFile()
      requires Valid() && duration > 0 && Linked()
      ensures Synced(file) ==>
                && FirstStamp(file, 0, offsetBegin) && StampAt(file, offsetBegin) == Stamped(ptsBegin)
                && StampedAt(file, offsetEnd) && StampAt(file, offsetEnd) == Stamped(ptsEnd)
                && offsetBegin < offsetEnd && Align(offsetBegin) == offsetBegin
                && !NoStamp(file, Align(offsetBegin), Align(offsetBegin) + WINDOW)
    {
      hide PacketStamp, StampAt, NoStamp, Align, Ahead;
      if Synced(file) {
        StampIsFound(file, offsetBegin);
        EndIsBehind(file, offsetBegin, ptsBegin, offsetEnd, ptsEnd);
      }
    }

    /** What the scan of a position before the end hits is what take_sample reports. */
    lemma SampleIsTold(ob: int, step: int, k: nat, offset: int, r: int, p: int, off: int)
      requires LegibleAlong(file, ob, step, offsetEnd) && StepsFrom(ob, step, k) == offset < offsetEnd && 0 <= ptsBegin < CLOCK
      requires AgreesFixed(ScanFrom(file, Align(offset), PACKETS), ptsBegin, if r >= 0 then 0 else -1, off, p)
      ensures match ScanFrom(file, SampleAt(ob, step, k), PACKETS)
              case Hit(at, ticks) => r >= 0 && off == at && p == Unwrap(ptsBegin, ticks)
              case Miss(_) => r < 0
              case Undefined => false
    {
      hide ScanFrom, Align, Unwrap, StepsFrom;
      FixedIsUnwrapped(file, Align(offset), ptsBegin, if r >= 0 then 0 else -1, off, p);
    }

    /** The sampling loop: from the first stamp to the last in steps, each position tried at
        most three times. */
    method SampleAll(step: int) returns (ghost visited: nat)
      requires Valid() && duration > 0 && samples == [] && step > 0 && step * 31 >= offsetEnd - offsetBegin
      modifies `pos, `currentOffset, `lastOffset, `readCount,
               `offsetBegin, `ptsBegin, `beginValid, `endValid, `futile, `samples
      ensures Valid() && (old(Linked()) ==> Linked())
      ensures ptsBegin == old(ptsBegin) && offsetBegin == old(offsetBegin) && (endValid ==> old(endValid))
      ensures visited <= 31 && readCount <= old(readCount) + visited * 3 * PACKETS
      ensures StepsFrom(offsetBegin, step, visited) >= offsetEnd
      ensures visited > 0 ==> StepsFrom(offsetBegin, step, visited - 1) < offsetEnd
      ensures (old(ReadsOk()) ==> ReadsOk()) && (old(Coherent()) ==> Coherent())
      ensures old(Linked()) ==>
                SoFar(file, ptsBegin, offsetBegin, step, visited, samples, old(Reliable(Align(offsetBegin))),
                      old(Honest(Align(offsetBegin))) && LegibleAlong(file, offsetBegin, step, offsetEnd))
      ensures if samples == [] then endValid == old(endValid) else !endValid
      ensures old(Linked()) && old(Reliable(Align(offsetBegin))) && Synced(file) ==> ReadsOk() && visited > 0
      ensures old(Linked()) && old(Honest(Align(offsetBegin))) && Synced(file) ==> Coherent() && !endValid
    {
      hide PacketStamp, Synced, StampAt, StampedAt, NoStamp, FirstStamp, Unwrap, Align, Ahead, Sorted, Put, Fits, SoFar, Named,
           AgreesFixed, ScanFrom, Linked, ReadsOk, IoRange, LegibleAlong;
      ghost var b, ob := ptsBegin, offsetBegin;
      ghost var linked, named, honest := old(Linked()), old(Reliable(Align(offsetBegin))), old(Honest(Align(offsetBegin)));
      ghost var seen := honest && LegibleAlong(file, offsetBegin, step, offsetEnd);
      if linked {
        EndsOfFile();
      }
      SyncedIsLegible(file, offsetBegin, step, offsetEnd);
      var offset, retries := offsetBegin, 2;
      visited := 0;
      NothingSoFar(file, b, ob, step, named, seen);
      while offset < offsetEnd
        invariant Valid() && (linked ==> Linked())
        invariant ptsBegin == b && offsetBegin == ob && (endValid ==> old(endValid))
        invariant 0 <= retries <= 2 && visited <= 31
        invariant StepsFrom(ob, step, visited) == offset >= ob
        invariant offset < offsetEnd ==> visited < 31
        invariant visited > 0 ==> StepsFrom(ob, step, visited - 1) < offsetEnd
        invariant readCount <= old(readCount) + (visited * 3 + 2 - retries) * PACKETS
        invariant offset >= offsetEnd ==> retries == 2
        invariant (old(ReadsOk()) ==> ReadsOk()) && (old(Coherent()) ==> Coherent())
        invariant named ==> if visited > 0 || retries < 2 then ReadsOk() else Reliable(Align(ob))
        invariant honest ==> if visited > 0 || retries < 2 then Coherent() else Honest(Align(ob))
        invariant linked && Synced(file) && honest && (visited > 0 || retries < 2) ==> !endValid
        invariant if samples == [] then endValid == old(endValid) else !endValid
        invariant linked ==> SoFar(file, b, ob, step, visited, samples, named, seen)
        decreases offsetEnd - offset, retries
      {
        ghost var before := samples;
        var r, p, off := TakeSample(offset, 0);
        AnythingFits(p, off);
        if linked {
          if seen {
            SampleIsTold(ob, step, visited, offset, r, p, off);
          }
          SoFarMore(file, b, ob, step, visited, before, samples, r, p, off, named, seen);
        }
        if r != 0 {
          var again := retries != 0;
          retries := retries - 1;
          if again {
            continue;
          }
        }
        retries := 2;
        offset, visited := offset + step, visited + 1;
        StepsCover(ob, step, visited, offsetEnd);
      }
    }

    /** The part of take_samples behind its test of the duration: samples, then the two ends. */
    method FillIndex() returns (ghost visited: nat, ghost step: int)
      requires Valid() && duration > 0 && samples == []
      modifies `pos, `currentOffset, `lastOffset, `readCount,
               `offsetBegin, `ptsBegin, `beginValid, `endValid, `futile, `samples
      ensures Valid() && (old(Linked()) ==> Linked())
      ensures ptsBegin == old(ptsBegin) && offsetBegin == old(offsetBegin) && (endValid ==> old(endValid))
      ensures (old(ReadsOk()) ==> ReadsOk()) && (old(Coherent()) ==> Coherent())
      ensures samples != [] && Sample(0, offsetBegin) in samples && Sample(ptsEnd - ptsBegin, offsetEnd) in samples
      ensures old(Linked()) && old(Reliable(Align(offsetBegin))) ==>
                Indexed() && (Synced(file) ==> ReadsOk()) && (Synced(file) && Ordered(file) ==> Monotone(samples))
      ensures Strided(offsetEnd - offsetBegin, step, visited)
      ensures old(Linked()) && old(Honest(Align(offsetBegin))) && Scannable(file, offsetBegin, offsetEnd) ==>
                FreshIndex(file, ptsBegin, ptsEnd, offsetBegin, offsetEnd, samples)
      ensures old(Linked()) && old(Honest(Align(offsetBegin))) && Synced(file) ==> Coherent() && !endValid
      ensures old(Linked()) && old(Honest(Align(offsetBegin))) && Synced(file) && Ordered(file) ==>
                CoveredBy(file, ptsBegin, samples, offsetBegin, offsetEnd, visited)
      ensures readCount <= old(readCount) + 31 * 3 * PACKETS
    {
      hide IoRange, ReadsOk, Synced, Ordered, StampAt, StampedAt, NoStamp, FirstStamp, SampleStep,
           Sorted, Put, Genuine, Anchored, Monotone, StepsFrom, Complete, Coherent, Gather, AllNamed, RealBut, LegibleAlong,
           Strided;
      var stride := SampleStep(offsetEnd - offsetBegin);
      StepIsEnough(offsetEnd - offsetBegin);
      visited := SampleAll(stride);
      step := stride;
      StepsStride(offsetBegin, offsetEnd, visited);
      SyncedIsLegible(file, offsetBegin, step, offsetEnd);
      ghost var before := samples;
      ghost var named, honest := old(Reliable(Align(offsetBegin))), old(Honest(Align(offsetBegin)));
      EndsEntered(file, ptsBegin, ptsEnd, offsetBegin, offsetEnd, before, old(Linked()) && named);
      if old(Linked()) && named && Synced(file) && Ordered(file) {
        IndexComplete(file, ptsBegin, ptsEnd, offsetBegin, offsetEnd, before);
        CompleteWithEnds(file, ptsBegin, before, offsetBegin, step, visited, ptsEnd - ptsBegin, offsetEnd);
      }
      EnterEnds();
      if old(Linked()) && honest && Scannable(file, offsetBegin, offsetEnd) {
        assert TakenAt(file, ptsBegin, ptsEnd, offsetBegin, offsetEnd, samples, visited);
      }
    }

    /** Rebuilds the index, unless the duration is not positive. */
    method TakeSamples() returns (ghost visited: nat, ghost step: int)
      requires Valid()
      modifies `pos, `currentOffset, `lastOffset, `readCount,
               `offsetBegin, `ptsBegin, `beginValid, `lastFilelength, `offsetEnd, `ptsEnd, `endValid, `futile,
               `duration, `samples, `samplesTaken
      ensures Valid() && samplesTaken && (old(Linked()) ==> Linked())
      ensures old(duration) > 0 ==>
                && duration == old(duration) && ptsBegin == old(ptsBegin) && ptsEnd == old(ptsEnd)
                && offsetBegin == old(offsetBegin) && offsetEnd == old(offsetEnd) && (endValid ==> old(endValid))
      ensures (old(ReadsOk()) ==> ReadsOk()) && (old(duration) > 0 && old(Coherent()) ==> Coherent())
      ensures old(duration) == 0 ==> ReadsOk() && (duration > 0 ==> Coherent())
      ensures duration > 0 <==> samples != []
      ensures duration > 0 ==>
                Sample(0, offsetBegin) in samples && Sample(ptsEnd - ptsBegin, offsetEnd) in samples
      ensures old(Linked()) && old(duration > 0 ==> Reliable(Align(offsetBegin))) ==>
                Indexed() && (Synced(file) ==> ReadsOk()) && (Synced(file) && Ordered(file) ==> Monotone(samples))
      ensures duration > 0 ==> Strided(offsetEnd - offsetBegin, step, visited)
      ensures duration > 0 && old(Linked()) && old(duration > 0 ==> Honest(Align(offsetBegin)))
              && Scannable(file, offsetBegin, offsetEnd) ==>
                FreshIndex(file, ptsBegin, ptsEnd, offsetBegin, offsetEnd, samples)
      ensures duration > 0 && old(Linked()) && old(duration > 0 ==> Honest(Align(offsetBegin))) && Synced(file) ==>
                Coherent() && !endValid
      ensures duration > 0 && old(Linked()) && old(duration > 0 ==> Honest(Align(offsetBegin))) && Synced(file) && Ordered(file)
              ==> CoveredBy(file, ptsBegin, samples, offsetBegin, offsetEnd, visited)
      ensures old(Repeats()) ==> Repeats()
      ensures old(Looked()) && old(duration) == 0 && old(offsetEnd) == 0 ==> Barren()
      ensures old(Barren()) ==> Barren()
      ensures readCount <= old(readCount) + (if old(duration) > 0 then 0 else 10 * PACKETS) + 31 * 3 * PACKETS
    {
      hide IoRange, Synced, Ordered, StampAt, StampedAt, NoStamp, FirstStamp, Ahead, SampleStep, RealBut, FreshIndex,
           Sorted, Genuine, Anchored, Monotone, StepsFrom, Complete, Repeats, Looked, Barren, Fresh, BeginTrue, EndTrue,
           Measurable, Scannable, Strided;
      samplesTaken, samples, visited, step := true, [], 0, 0;
      EmptyIndex();
      var dummy, _, _ := CalcLength();
      if dummy <= 0 {
        return;
      }
      visited, step := FillIndex();
    }

    method EnterEnds()
      requires Valid() && duration > 0
      modifies `samples
      ensures Valid() && samples != []
      ensures samples == Put(Put(old(samples), 0, offsetBegin), ptsEnd - ptsBegin, offsetEnd)
    {
      hide Sorted, Put;
      PutSorted(samples, 0, offsetBegin);
      samples := Put(samples, 0, offsetBegin);
      PutSorted(samples, ptsEnd - ptsBegin, offsetEnd);
      PutAt(samples, ptsEnd - ptsBegin, offsetEnd, 0);
      samples := Put(samples, ptsEnd - ptsBegin, offsetEnd);
    }

    // ----- the seek

    /** Average bits per second between the two ends; -1 when unknown or out of proportion. */
    ghost function Bitrate(): int
      reads `beginValid, `endValid, `ptsBegin, `ptsEnd, `offsetBegin, `offsetEnd
    {
      var ticks := Ahead(ptsBegin, ptsEnd);
      if beginValid && endValid && ticks != 0 && Plausible(AverageRate(offsetEnd - offsetBegin, ticks))
        then AverageRate(offsetEnd - offsetBegin, ticks) else -1
    }

    /** Within 12 TB that is the quotient of bits and seconds. */
    lemma BitrateIs()
      requires Valid()
      ensures !beginValid || !endValid || ptsBegin == ptsEnd ==> Bitrate() == -1
      ensures Bitrate() == -1 || 10000 <= Bitrate() <= 100000000
      ensures beginValid && endValid && ptsBegin != ptsEnd && 0 <= offsetEnd - offsetBegin <= 12000000000000 ==>
                var rate := (offsetEnd - offsetBegin) * 720000 / ((ptsEnd - ptsBegin) % 0x2_0000_0000);
                Bitrate() == if 10000 <= rate <= 100000000 then rate else -1
    {
      hide AverageRate;
      AheadIsModular(ptsBegin, ptsEnd);
      if 0 <= offsetEnd - offsetBegin <= 12000000000000 && ptsBegin != ptsEnd {
        AverageRateExact(offsetEnd - offsetBegin, Ahead(ptsBegin, ptsEnd));
      }
    }

    method CalcBitrate() returns (ret: int)
      requires Valid()
      modifies `pos, `currentOffset, `lastOffset, `readCount,
               `offsetBegin, `ptsBegin, `beginValid, `lastFilelength, `offsetEnd, `ptsEnd, `endValid, `futile,
               `duration
      ensures Valid() && (old(Indexed()) ==> Indexed())
      ensures old(duration) > 0 ==>
                && duration == old(duration) && ptsBegin == old(ptsBegin) && ptsEnd == old(ptsEnd)
                && offsetBegin == old(offsetBegin) && offsetEnd == old(offsetEnd) && endValid == old(endValid)
      ensures old(Repeats()) ==> Repeats()
      ensures old(Looked()) && old(duration) == 0 && old(offsetEnd) == 0 ==> Barren()
      ensures old(Barren()) ==> Barren()
      ensures readCount <= old(readCount) + if old(duration) > 0 then 0 else 10 * PACKETS
      ensures ret == Bitrate()
      ensures !beginValid || !endValid || ptsBegin == ptsEnd ==> ret == -1
      ensures ret == -1 || 10000 <= ret <= 100000000
    {
      hide Synced, Ordered, StampAt, StampedAt, NoStamp, FirstStamp, Sorted, Genuine, Anchored, AverageRate, Located,
           Locatable, Measurable, Legible, HasEnds, BeginHeard, Heard, HeardAt;
      var dummy, _, _ := CalcLength();
      BitrateIs();
      if !beginValid || !endValid {
        return -1;
      }
      var ptsLen := ptsEnd - ptsBegin;
      if ptsLen < 0 {
        ptsLen := ptsLen + CLOCK;
      }
      if ptsLen == 0 {
        return -1;
      }
      var bitrate := AverageRate(offsetEnd - offsetBegin, ptsLen);
      if bitrate < 10000 || bitrate > 100000000 {
        return -1;
      }
      return bitrate;
    }

    /** The entries before and after a point in time, or the last segment behind the end; u is
        the size of the index when there are not enough entries. */
    method PickBracket(pts: int) returns (l: nat, u: nat)
      ensures var k := LowerBound(samples, pts);
              if k < |samples| then u == k && l == if k != 0 then k - 1 else k
              else if k >= 2 then u == k - 1 && l == k - 2
              else u == |samples|
      ensures BracketOf(samples, pts) == if u < |samples| then Around(l, u) else TooFew
    {
      l := LowerBound(samples, pts);
      u := l;
      if l != 0 {
        l := l - 1;
      }
      if u == |samples| && l != 0 {
        u, l := u - 1, l - 1;
      }
    }

    /** Something went wrong when taking samples: take them again. */
    method Resample()
      requires Valid() && duration > 0
      modifies `pos, `currentOffset, `lastOffset, `readCount,
               `offsetBegin, `ptsBegin, `beginValid, `lastFilelength, `offsetEnd, `ptsEnd, `endValid, `futile,
               `duration, `samples, `samplesTaken
      ensures Valid() && (old(Linked()) ==> Linked()) && samples != [] && samplesTaken
      ensures duration == old(duration) && ptsBegin == old(ptsBegin) && ptsEnd == old(ptsEnd)
      ensures offsetBegin == old(offsetBegin) && offsetEnd == old(offsetEnd) && (endValid ==> old(endValid))
      ensures (old(ReadsOk()) ==> ReadsOk()) && (old(Coherent()) ==> Coherent())
      ensures Sample(0, offsetBegin) in samples && Sample(ptsEnd - ptsBegin, offsetEnd) in samples
      ensures old(Linked()) && old(ReadsOk()) ==> Indexed()
      ensures old(Linked()) && old(Coherent()) && Scannable(file, offsetBegin, offsetEnd) ==>
                FreshIndex(file, ptsBegin, ptsEnd, offsetBegin, offsetEnd, samples)
      ensures readCount <= old(readCount) + 93 * PACKETS
    {
      hide Sorted, IoRange, Ahead, BeginTrue, EndTrue, Genuine, Anchored, Looked, Barren, Repeats, Complete, RealBut, FreshIndex,
           Scannable, Strided;
      samples := [];
      EmptyIndex();
      ghost var visited, step := TakeSamples();
    }

    /** A seek to pts is one on the time line of a file that has what it takes. */
    ghost predicate OnTimeLine(pts: int)
      reads `file, `pos, `currentOffset, `lastOffset,
            `beginValid, `offsetBegin, `ptsBegin, `duration, `offsetEnd, `ptsEnd, `samples
    {
      Indexed() && ReadsOk() && Seekable(file) && samples != [] && 0 <= pts <= ptsEnd - ptsBegin
    }

    /** The look-up of one turn, between two entries whose offsets are in order. */
    method TryBetween(pts: int, l: nat, u: nat) returns (again: bool, offset: int, p: int, ghost turn: Turn)
      requires Valid() && BracketOf(samples, pts) == Around(l, u) && samples[l].off <= samples[u].off
      modifies `pos, `currentOffset, `lastOffset, `readCount,
               `offsetBegin, `ptsBegin, `beginValid, `endValid, `futile, `samples
      ensures Valid() && (old(Linked()) ==> Linked()) && (old(ReadsOk()) ==> ReadsOk()) && samples != []
      ensures ptsBegin == old(ptsBegin) && offsetBegin == old(offsetBegin) && (endValid ==> old(endValid) && p == pts)
      ensures readCount <= old(readCount) + PACKETS
      ensures turn.Tried? && turn.s == old(samples) && turn.t == samples && IsTurn(turn, pts) && again == GoesOn(turn, pts)
      ensures offset == turn.offset && p == turn.p
      ensures -0x2B_0000_0000 < pts < 0x2B_0000_0000 ==> (again <==> Refined(turn, pts))
      ensures old(Coherent()) ==> Seen(file, ptsBegin, pts, turn) && (Coherent() || (turn.offset < 0 && !again))
      ensures old(Indexed()) && old(ReadsOk()) ==>
                Indexed() && TrueTurn(file, ptsBegin, ptsEnd, offsetBegin, offsetEnd, turn, old(Coherent()))
      ensures old(OnTimeLine(pts)) ==> GoodTurn(file, ptsBegin, offsetBegin, offsetEnd, pts, turn, old(Coherent()))
      ensures old(OnTimeLine(pts)) && old(Coherent()) ==> Coherent()
    {
      hide IoRange, PacketStamp, Synced, Ordered, RateFits, StampAt, StampedAt, NoStamp, Sorted, Genuine, RealBut, Named,
           Anchored, Rate, Interpolate, Put, Fits, Unwrap, Align, Far, Inside, FirstStamp, RoundOffset, Monotone, IsTurn,
           Seen, GoodTurn, Ahead, AgreesFixed, ScanFrom, ReadsOk;
      ghost var sane, s := OnTimeLine(pts), samples;
      if sane {
        RoundIsInside(file, ptsBegin, offsetBegin, offsetEnd, samples, ptsEnd - ptsBegin, pts);
      }
      var ptsDiff, offDiff := samples[u].pts - samples[l].pts, samples[u].off - samples[l].off;
      offset := Interpolate(samples[l].off, pts - samples[l].pts, Rate(ptsDiff, offDiff));
      OnGrid(samples[l].off, pts - samples[l].pts, Rate(ptsDiff, offDiff));
      UnfoldRound(samples, l, u, pts);
      var r;
      ghost var off;
      r, p, off := TakeSample(offset, pts);
      turn := Tried(s, samples, offset, p, off, r == 0);
      TriedTurn(turn, l, u, pts);
      SeenTurn(file, ptsBegin, pts, turn, r);
      if old(Indexed()) && old(ReadsOk()) && r == 0 {
        PutReal(file, ptsBegin, s, Sample(0, offsetBegin), Sample(ptsEnd - ptsBegin, offsetEnd), p, off);
        if Synced(file) && Ordered(file) {
          SampleKeepsIndex(file, ptsBegin, ptsEnd, offsetBegin, offsetEnd, s, p, off);
        }
      }
      if sane {
        TurnIsGood(file, ptsBegin, offsetBegin, offsetEnd, pts, turn, r, old(Coherent()));
      }
      again := r == 0 && Far(pts, p);
      if -0x2B_0000_0000 < pts < 0x2B_0000_0000 {
        RefinedInTicks(turn, pts);
      }
    }

    /** What a round may start from. */
    lemma RoundStart(pts: int)
      requires Valid()
      ensures Indexed() ==>
                && Linked()
                && (samples != [] ==>
                      && RealBut(file, ptsBegin, samples, Sample(0, offsetBegin), Sample(ptsEnd - ptsBegin, offsetEnd))
                      && (Synced(file) && Ordered(file) ==> Genuine(file, ptsBegin, samples) && Monotone(samples)))
      ensures OnTimeLine(pts) ==> Indexed() && ReadsOk() && samples != [] && BracketOf(samples, pts).Around? && Monotone(samples)
    {
      hide IoRange, Synced, Ordered, RateFits, Sorted, Genuine, Anchored, Monotone, BeginTrue, EndTrue, Ahead, RealBut, ReadsOk,
           Reliable;
      if Indexed() && Synced(file) && Ordered(file) && samples != [] {
        GenuineIsMonotone(file, ptsBegin, samples);
      }
      if OnTimeLine(pts) {
        TimeIsInside(samples, ptsEnd - ptsBegin, offsetEnd, pts);
      }
    }

    /** One turn of get_offset's loop: again says whether the loop goes on. */
    method SeekRound(pts: int, offset0: int, p0: int) returns (again: bool, offset: int, p: int, ghost turn: Turn)
      requires Valid() && duration > 0
      modifies `pos, `currentOffset, `lastOffset, `readCount,
               `offsetBegin, `ptsBegin, `beginValid, `lastFilelength, `offsetEnd, `ptsEnd, `endValid, `futile,
               `duration, `samples, `samplesTaken
      ensures Valid() && (old(Linked()) ==> Linked()) && (old(ReadsOk()) ==> ReadsOk())
      ensures duration == old(duration) && ptsBegin == old(ptsBegin) && ptsEnd == old(ptsEnd)
      ensures offsetBegin == old(offsetBegin) && offsetEnd == old(offsetEnd) && (endValid ==> old(endValid))
      ensures old(samples) != [] ==> samples != []
      // any file
      ensures turn.s == old(samples) && After(turn) == samples && IsTurn(turn, pts) && again == GoesOn(turn, pts)
      ensures -0x2B_0000_0000 < pts < 0x2B_0000_0000 ==> (again <==> Refined(turn, pts))
      ensures if turn.Tried? then offset == turn.offset && p == turn.p else offset == offset0 && p == p0
      ensures turn.Cleared? ==> Sample(0, offsetBegin) in samples && Sample(ptsEnd - ptsBegin, offsetEnd) in samples
      ensures readCount <= old(readCount) + Scans([turn]) * PACKETS
      ensures endValid ==> p == p0 || p == pts
      ensures old(Coherent()) ==>
                Seen(file, ptsBegin, pts, turn) && (Coherent() || (turn.Tried? && turn.offset < 0 && !again))
      // a file that the index reflects
      ensures old(Indexed()) && old(ReadsOk()) && old(samples) != [] ==>
                Indexed() && TrueTurn(file, ptsBegin, ptsEnd, offsetBegin, offsetEnd, turn, old(Coherent()))
      ensures old(Indexed()) && Synced(file) && Ordered(file) && old(samples) != [] ==>
                RealTurn(file, ptsBegin, turn)
      ensures old(OnTimeLine(pts)) ==> GoodTurn(file, ptsBegin, offsetBegin, offsetEnd, pts, turn, old(Coherent()))
      ensures old(OnTimeLine(pts)) && old(Coherent()) ==> Coherent()
    {
      hide IoRange, Synced, Ordered, RateFits, Sorted, Genuine, Anchored, Far, Monotone, IsTurn, Seen, GoodTurn, BeginTrue,
           EndTrue, Ahead, RealBut, FreshIndex, Scannable, ReadsOk, Reliable, TrueTurn, RealTurn, Scans, Refined, Linked,
           Indexed, OnTimeLine;
      offset, p := offset0, p0;
      var l, u := PickBracket(pts);
      ghost var s := samples;
      RoundStart(pts);
      if u == |samples| {
        StuckTurn(file, ptsBegin, ptsEnd, offsetBegin, offsetEnd, s, pts, old(Coherent()));
        turn := Stuck(s);
        return false, offset, p, turn;
      }
      var offDiff := samples[u].off - samples[l].off;
      if offDiff < 0 {
        OutOfOrder(samples, l, u);
        Resample();
        RoundStart(pts);
        ClearedTurn(file, ptsBegin, ptsEnd, offsetBegin, offsetEnd, s, samples, l, u, pts, old(Coherent()));
        turn := Cleared(s, samples);
        return true, offset, p, turn;
      }
      again, offset, p, turn := TryBetween(pts, l, u);
      RealTry(file, ptsBegin, turn);
    }

    /** The rounds of get_offset, at most five: p is the time found by the last look-up, or -1. */
    method Refine(pts: int, offset0: int) returns (offset: int, p: int, ghost turns: seq<Turn>)
      requires Valid() && samples != []
      modifies `pos, `currentOffset, `lastOffset, `readCount,
               `offsetBegin, `ptsBegin, `beginValid, `lastFilelength, `offsetEnd, `ptsEnd, `endValid, `futile,
               `duration, `samples, `samplesTaken
      ensures Valid() && (old(Linked()) ==> Linked()) && (old(ReadsOk()) ==> ReadsOk())
      ensures duration == old(duration) > 0 && ptsBegin == old(ptsBegin) && ptsEnd == old(ptsEnd)
      ensures offsetBegin == old(offsetBegin) && offsetEnd == old(offsetEnd) && (endValid ==> old(endValid))
      ensures samples != []
      // any file
      ensures Rounds(turns, old(samples), samples, pts) && (offset, p) == Answered(turns, offset0)
      ensures -0x2B_0000_0000 < pts < 0x2B_0000_0000 ==> InTicks(turns, pts)
      ensures readCount <= old(readCount) + Scans(turns) * PACKETS
      ensures NoneCleared(turns) ==>
                KeysNested(old(samples), samples, pts)
                && (AllSmall(turns) ==> NestedUpTo(old(samples), samples, pts, 187 * |turns|))
      ensures p != -1 && p != pts ==> !endValid
      ensures old(Coherent()) ==> AllSeen(file, ptsBegin, pts, turns)
      // a file that the index reflects
      ensures old(Indexed()) && old(ReadsOk()) ==>
                Indexed() && AllTrue(file, ptsBegin, ptsEnd, offsetBegin, offsetEnd, turns, old(Coherent()))
      ensures old(Indexed()) && old(ReadsOk()) && Synced(file) && Ordered(file) ==> AllReal(file, ptsBegin, turns)
      ensures old(OnTimeLine(pts)) ==>
                AllGood(file, ptsBegin, offsetBegin, offsetEnd, pts, turns, old(Coherent()))
                && Nested(old(samples), samples, pts)
      ensures old(OnTimeLine(pts)) && old(Coherent()) ==> Coherent()
    {
      hide Indexed, Synced, Ordered, RateFits, NestedUpTo, KeysNested, Coherent, ReadsOk, NoneCleared, AllSmall, Ahead, Far, Told,
           Answered, Scans, Seen, GoesOn, Genuine, GoodTurn, RealTurn, TrueTurn, Linked, Sorted, IsTurn, Chain, After, LastIndex,
           InTicks, Refined;
      offset, p, turns := offset0, -1, [];
      var maxtries := 5;
      ghost var sure, trusted := old(Coherent()), old(Indexed()) && old(ReadsOk());
      ghost var genuine, sane := trusted && Synced(file) && Ordered(file), old(OnTimeLine(pts));
      ghost var first := samples;
      NoTurns(file, ptsBegin, ptsEnd, offsetBegin, offsetEnd, pts, first, offset0, sure, trusted, genuine, sane);
      while maxtries > 0
        invariant Valid() && (old(Linked()) ==> Linked()) && (old(ReadsOk()) ==> ReadsOk()) && duration == old(duration)
        invariant ptsBegin == old(ptsBegin) && ptsEnd == old(ptsEnd)
        invariant offsetBegin == old(offsetBegin) && offsetEnd == old(offsetEnd) && (endValid ==> old(endValid))
        invariant samples != [] && |turns| == 5 - maxtries <= 5 && LastIndex(turns, first) == samples
        invariant |turns| > 0 ==> GoesOn(turns[|turns| - 1], pts)
        invariant (offset, p) == Answered(turns, offset0) && (p != -1 && p != pts ==> !endValid)
        invariant readCount <= old(readCount) + Scans(turns) * PACKETS
        invariant (trusted ==> Indexed()) && (sure ==> Coherent())
        invariant Told(file, ptsBegin, ptsEnd, offsetBegin, offsetEnd, pts, turns, first, sure, trusted, genuine, sane)
        decreases maxtries
      {
        maxtries := maxtries - 1;
        var again;
        ghost var turn;
        again, offset, p, turn := SeekRound(pts, offset, p);
        GoodAnyway(file, ptsBegin, offsetBegin, offsetEnd, pts, turn);
        TrueAnyway(file, ptsBegin, ptsEnd, offsetBegin, offsetEnd, turn);
        ToldMore(file, ptsBegin, ptsEnd, offsetBegin, offsetEnd, pts, turns, first, turn, sure, trusted, genuine, sane);
        AnsweredOne(turns, offset0, turn);
        turns := turns + [turn];
        if !again {
          break;
        }
      }
      ToldAll(file, ptsBegin, ptsEnd, offsetBegin, offsetEnd, pts, turns, first, sure, trusted, genuine, sane);
      if -0x2B_0000_0000 < pts < 0x2B_0000_0000 {
        RoundsInTicks(turns, first, samples, pts);
      }
    }

    /** What get_offset needs first: both ends, and an index. */
    method Prepare() returns (ready: bool)
      requires Valid()
      modifies `pos, `currentOffset, `lastOffset, `readCount,
               `offsetBegin, `ptsBegin, `beginValid, `lastFilelength, `offsetEnd, `ptsEnd, `endValid, `futile,
               `duration, `samples, `samplesTaken
      ensures Valid() && (old(Linked()) ==> Linked()) && (old(Indexed()) && old(Trusted()) ==> Indexed())
      ensures old(duration) > 0 ==>
                && duration == old(duration) && ptsBegin == old(ptsBegin) && ptsEnd == old(ptsEnd)
                && offsetBegin == old(offsetBegin) && offsetEnd == old(offsetEnd)
                && (ready <==> old(endValid)) && (endValid ==> old(endValid))
      ensures !ready ==> !(beginValid && endValid)
      ensures !ready || old(samplesTaken) ==> samples == old(samples)
      ensures ready && duration > 0 && (!old(samplesTaken) || old(samples) != []) ==> samples != []
      ensures readCount <= old(readCount) + if old(duration) > 0 && old(samplesTaken) then 0 else 113 * PACKETS
      ensures old(Linked()) && old(Trusted()) && ready && samples != [] ==> ReadsOk()
      ensures old(Linked()) && old(Settled()) && ready && samples != [] ==> Coherent()
      ensures ready && !old(samplesTaken) && samples != [] ==>
                Sample(0, offsetBegin) in samples && Sample(ptsEnd - ptsBegin, offsetEnd) in samples
      ensures old(Linked()) && old(Settled()) && ready && samples != [] && !old(samplesTaken)
              && Scannable(file, offsetBegin, offsetEnd) ==>
                FreshIndex(file, ptsBegin, ptsEnd, offsetBegin, offsetEnd, samples)
      ensures old(Linked()) && old(Settled()) && Synced(file) && ready && samples != [] && !old(samplesTaken) ==>
                !endValid && (Ordered(file) ==> Covering(file, ptsBegin, samples, offsetBegin, offsetEnd))
      ensures old(Fresh()) && Legible(file) ==> (ready <==> HasEnds(file))
      ensures old(Fresh()) && Synced(file) ==>
                && (ready <==> Locatable(file)) && (duration > 0 <==> Measurable(file))
                && if Measurable(file) then samples != [] && !endValid && EndsLocated()
                   else samples == [] && if Repeatable(file) then Repeats() else Barren()
      ensures old(Repeats()) ==> ready && Repeats() && samples == []
      ensures old(Looked()) && old(duration) == 0 && old(offsetEnd) == 0 ==> !ready && Barren()
      ensures old(Barren()) ==> !ready && Barren()
    {
      hide Synced, Ordered, StampAt, StampedAt, NoStamp, FirstStamp, Sorted, Genuine, Anchored, Monotone, Ahead,
           Located, Locatable, Measurable, Repeatable, SampleStep, StepsFrom, Complete, EndTrue, IoRange, RealBut, FreshIndex,
           Scannable, Strided, Legible, HasEnds, HeardAt;
      var dummy, _, _ := CalcLength();
      NotMeasured(file);
      NotRepeatable(file);
      if !beginValid || !endValid {
        return false;
      }
      if Looked() {
        RepeatableByEnds(file, offsetBegin, offsetEnd);
      }
      if !samplesTaken {
        if Linked() && Synced(file) && duration > 0 {
          FirstOnGrid(file, offsetBegin);
        }
        ghost var visited, step := TakeSamples();
      }
      return true;
    }

    /** The part of get_offset behind the preparation: the rounds, or the average bit rate when they
        find no time. */
    method Locate(pts0: int, offset0: int) returns (offset: int, pts: int, ghost turns: seq<Turn>)
      requires Valid()
      modifies `pos, `currentOffset, `lastOffset, `readCount,
               `offsetBegin, `ptsBegin, `beginValid, `lastFilelength, `offsetEnd, `ptsEnd, `endValid, `futile,
               `duration, `samples, `samplesTaken
      ensures Valid() && (old(Linked()) ==> Linked())
      ensures old(Indexed()) && (old(samples) != [] ==> old(ReadsOk())) ==> Indexed()
      ensures old(duration) > 0 ==>
                && duration == old(duration) && ptsBegin == old(ptsBegin) && ptsEnd == old(ptsEnd)
                && offsetBegin == old(offsetBegin) && offsetEnd == old(offsetEnd) && (endValid ==> old(endValid))
      ensures old(Repeats()) ==> Repeats()
      ensures old(Barren()) ==> Barren()
      ensures pts != pts0 ==> duration > 0 && !endValid
      // on any file
      ensures if old(samples) == [] then turns == [] && samples == []
              else samples != [] && Rounds(turns, old(samples), samples, pts0)
      ensures -0x2B_0000_0000 < pts0 < 0x2B_0000_0000 ==> InTicks(turns, pts0)
      ensures var (o, p) := Answered(turns, offset0);
              if p != -1 then offset == o && pts == p
              else pts == pts0 && offset == Fallback(pts0, Bitrate())
      ensures readCount <= old(readCount) + (if old(duration) > 0 then 0 else 10 * PACKETS) + Scans(turns) * PACKETS
      ensures NoneCleared(turns) ==>
                KeysNested(old(samples), samples, pts0)
                && (AllSmall(turns) ==> NestedUpTo(old(samples), samples, pts0, 187 * |turns|))
      ensures (old(samples) != [] ==> old(Coherent())) ==> AllSeen(file, ptsBegin, pts0, turns)
      // on a file that the index reflects
      ensures old(Indexed()) && (old(samples) != [] ==> old(ReadsOk())) ==>
                AllTrue(file, ptsBegin, ptsEnd, offsetBegin, offsetEnd, turns, old(Coherent()))
      ensures old(Indexed()) && (old(samples) != [] ==> old(ReadsOk())) && Synced(file) && Ordered(file) ==>
                AllReal(file, ptsBegin, turns)
      ensures old(OnTimeLine(pts0)) ==>
                && AllGood(file, ptsBegin, offsetBegin, offsetEnd, pts0, turns, old(Coherent()))
                && Nested(old(samples), samples, pts0)
                && SeekResult(file, ptsBegin, offsetBegin, offsetEnd, pts0, offset, pts)
                && (old(Coherent()) ==> Coherent() && Answer(file, ptsBegin, pts0, offset, pts))
    {
      hide Synced, Ordered, RateFits, StampAt, StampedAt, NoStamp, FirstStamp, Sorted, Genuine, Anchored, Monotone,
           SeekResult, Ahead, Far, Align, Answer, NestedUpTo, LandsAt, Locatable, Measurable, Bitrate, Looked,
           AllSeen, AllTrue, AllReal, AllGood, Rounds, Answered, NoneCleared, AllSmall, KeysNested, BeginTrue, EndTrue,
           Reliable, ReadsOk, IoRange, Coherent, RealBut;
      offset, pts, turns := offset0, pts0, [];
      NestedSelf(samples, pts, 0);
      SelfNested(samples, pts);
      if samples != [] {
        var p;
        offset, p, turns := Refine(pts, offset);
        LastIsGood(file, ptsBegin, offsetBegin, offsetEnd, pts0, turns, old(samples), samples, offset0, old(Coherent()));
        if p != -1 {
          pts := p;
          return;
        }
      }
      var bitrate := CalcBitrate();
      NothingAnswered(file, ptsBegin, ptsEnd, offsetBegin, offsetEnd, pts, offset0);
      offset := Align(Int64(UInt64(pts * bitrate) / 8 / 90000));
    }

    /** The byte offset of a point in time, refined in at most five rounds; pts becomes the time
        found there.  first is the index the rounds start from. */
    method GetOffset(offset0: int, pts0: int)
      returns (ret: int, offset: int, pts: int, ghost turns: seq<Turn>, ghost first: Index)
      requires Valid()
      modifies `pos, `currentOffset, `lastOffset, `readCount,
               `offsetBegin, `ptsBegin, `beginValid, `lastFilelength, `offsetEnd, `ptsEnd, `endValid, `futile,
               `duration, `samples, `samplesTaken
      ensures Valid() && (old(Linked()) ==> Linked()) && (old(Indexed()) && old(Trusted()) ==> Indexed())
      ensures ret == 0 || ret == -1
      ensures old(duration) > 0 ==>
                && duration == old(duration) && ptsBegin == old(ptsBegin) && ptsEnd == old(ptsEnd)
                && offsetBegin == old(offsetBegin) && offsetEnd == old(offsetEnd)
      // when it is answered
      ensures old(duration) > 0 ==> (ret == 0 <==> old(endValid)) && (endValid ==> old(endValid))
      ensures old(Fresh()) && Synced(file) ==>
                (ret == 0 <==> Locatable(file)) && (duration > 0 <==> Measurable(file))
      ensures old(Fresh()) && Legible(file) ==> (ret == 0 <==> HasEnds(file))
      ensures old(Repeats()) ==> ret == 0 && Repeats()
      ensures old(Looked()) && old(duration) == 0 && old(offsetEnd) == 0 ==> ret == -1 && Barren()
      ensures old(Barren()) ==> ret == -1 && Barren()
      ensures ret == -1 ==> offset == offset0 && pts == pts0 && samples == old(samples) && !(beginValid && endValid)
      // what it leaves
      ensures old(Fresh()) && Synced(file) ==>
                if Measurable(file) then duration > 0 && samples != [] && !endValid && EndsLocated()
                else if Repeatable(file) then Repeats() else Barren()
      ensures old(duration) > 0 && old(Settled()) && old(Linked()) && Synced(file) && !old(samplesTaken) ==> !endValid
      ensures ret == 0 && pts != pts0 ==> duration > 0 && !endValid
      ensures old(samples) != [] ==> samples != []
      ensures ret == 0 && old(duration) > 0 && !old(samplesTaken) ==> samples != []
      // how it answers, on any file
      ensures ret == 0 ==> if first == [] then turns == [] && samples == [] else Rounds(turns, first, samples, pts0)
      ensures -0x2B_0000_0000 < pts0 < 0x2B_0000_0000 ==> InTicks(turns, pts0)
      ensures ret == 0 ==>
                var (o, p) := Answered(turns, offset0);
                if p != -1 then offset == o && pts == p
                else pts == pts0 && offset == Fallback(pts0, Bitrate())
      ensures ret == 0 && old(samplesTaken) ==> first == old(samples)
      ensures readCount <= old(readCount)
                           + (if old(duration) > 0 && old(samplesTaken) then 0 else 123 * PACKETS) + Scans(turns) * PACKETS
      ensures ret == 0 && NoneCleared(turns) ==>
                KeysNested(first, samples, pts0)
                && (AllSmall(turns) ==> NestedUpTo(first, samples, pts0, 187 * |turns|))
      ensures ret == 0 && !old(samplesTaken) && first != [] ==>
                Sample(0, offsetBegin) in first && Sample(ptsEnd - ptsBegin, offsetEnd) in first
      ensures ret == 0 && old(Linked()) && old(Settled()) ==> AllSeen(file, ptsBegin, pts0, turns)
      // what it answers, on a file that the index reflects
      ensures ret == 0 && old(Indexed()) && old(Trusted()) ==>
                AllTrue(file, ptsBegin, ptsEnd, offsetBegin, offsetEnd, turns, old(Settled()))
      ensures ret == 0 && old(Linked()) && old(Settled()) && !old(samplesTaken) && first != []
              && Scannable(file, offsetBegin, offsetEnd) ==>
                FreshIndex(file, ptsBegin, ptsEnd, offsetBegin, offsetEnd, first)
      ensures ret == 0 && old(Linked()) && old(Settled()) && Synced(file) && Ordered(file) && !old(samplesTaken) && first != [] ==>
                Covering(file, ptsBegin, first, offsetBegin, offsetEnd)
      ensures ret == 0 && old(Indexed()) && old(Trusted()) && Synced(file) && Ordered(file) ==>
                AllReal(file, ptsBegin, turns)
      ensures old(Indexed()) && old(Trusted()) && Seekable(file) && ret == 0 && samples != [] && 0 <= pts0 <= ptsEnd - ptsBegin ==>
                && AllGood(file, ptsBegin, offsetBegin, offsetEnd, pts0, turns, old(Settled())) && Nested(first, samples, pts0)
                && SeekResult(file, ptsBegin, offsetBegin, offsetEnd, pts0, offset, pts)
                && (old(Settled()) ==> Coherent() && Answer(file, ptsBegin, pts0, offset, pts))
    {
      hide Synced, Ordered, RateFits, StampAt, StampedAt, NoStamp, FirstStamp, Sorted, Genuine, Anchored, Monotone,
           SeekResult, Ahead, Far, Align, Answer, NestedUpTo, LandsAt, Locatable, Measurable, Repeatable, Bitrate,
           Looked, Fresh, Covering, AllSeen, AllTrue, AllReal, AllGood, Rounds, Answered, Scans, NoneCleared, AllSmall,
           KeysNested, BeginTrue, EndTrue, Reliable, ReadsOk, IoRange, RealBut, FreshIndex, Scannable, Legible, HasEnds;
      offset, pts, turns, first := offset0, pts0, [], samples;
      var ready := Prepare();
      NothingAnswered(file, ptsBegin, ptsEnd, offsetBegin, offsetEnd, pts, offset0);
      if !ready {
        return -1, offset, pts, turns, first;
      }
      ret, first := 0, samples;
      offset, pts, turns := Locate(pts, offset);
      AllGoodAnyway(file, ptsBegin, offsetBegin, offsetEnd, pts0, turns);
      AllTrueAnyway(file, ptsBegin, ptsEnd, offsetBegin, offsetEnd, turns);
      NothingAnswered(file, ptsBegin, ptsEnd, offsetBegin, offsetEnd, pts0, offset0);
    }
  }
}
