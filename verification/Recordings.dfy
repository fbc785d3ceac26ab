/** Concrete recordings, and what the time index makes of them. */
module Recordings {
  import opened TsPacket
  import opened SampleIndex
  import opened SeekMath
  import opened TimeLine
  import opened Sampling
  import opened SeekRounds
  import opened MpegFile
  import opened MpegRuns

  /** A recording of count packets, of which the first and two later ones, or one, carry a PCR: its
      highest byte is 0, then midTop and top. */
  datatype Tape = Tape(count: nat, mid: nat, midTop: Byte, at: nat, top: Byte)

  predicate Sane(tape: Tape) {
    0 < tape.mid <= tape.at < tape.count && (tape.mid == tape.at ==> tape.midTop == tape.top)
  }

  function Top(packet: int, tape: Tape): Byte {
    if packet == tape.mid then tape.midTop else if packet == tape.at then tape.top else 0
  }

  predicate Clocked(packet: int, tape: Tape) { packet == 0 || packet == tape.mid || packet == tape.at }

  function RecordedByte(packet: int, i: int, tape: Tape): Byte {
    if i == 0 then SYNC
    else if !Clocked(packet, tape) then 0
    else if i == 3 then 0x20 else if i == 4 then 7 else if i == 5 then 0x10
    else if i == 6 then Top(packet, tape) else 0
  }

  function Recording(tape: Tape): (file: seq<Byte>)
    ensures |file| == 188 * tape.count
    ensures forall i :: 0 <= i < |file| ==> file[i] == RecordedByte(i / 188, i % 188, tape)
  {
    seq(188 * tape.count, i requires 0 <= i < 188 * tape.count => RecordedByte(i / 188, i % 188, tape))
  }

  lemma RecordedAt(k: nat, i: nat, tape: Tape)
    requires k < tape.count && i < 188
    ensures 188 * k + i < 188 * tape.count && Recording(tape)[188 * k + i] == RecordedByte(k, i, tape)
  {
    hide RecordedByte;
    assert (188 * k + i) / 188 == k && (188 * k + i) % 188 == i;
  }

  lemma PlainPacket(p: seq<Byte>)
    requires |p| == PACKET_SIZE && p[1] == 0 && p[3] == 0
    ensures PacketStamp(p) == Unstamped
  {}

  lemma PcrPacket(p: seq<Byte>)
    requires |p| == PACKET_SIZE && p[3] == 0x20 && p[4] == 7 && p[5] == 0x10
    ensures PacketStamp(p) == Stamped(PcrTicks(p[6], p[7], p[8], p[9], p[10]) as int)
  {
    hide PcrTicks;
  }

  function Ticks(top: Byte): int { PcrTicks(top, 0, 0, 0, 0) as int }

  lemma RecordedPacket(k: nat, tape: Tape)
    requires k < tape.count && Sane(tape)
    ensures var file := Recording(tape);
            && file[188 * k] == SYNC
            && StampAt(file, 188 * k) == if Clocked(k, tape) then Stamped(Ticks(Top(k, tape))) else Unstamped
  {
    hide PcrTicks, PacketStamp, Recording, RecordedByte;
    var p := Recording(tape)[188 * k..188 * k + PACKET_SIZE];
    forall i | 0 <= i < 11 ensures p[i] == RecordedByte(k, i, tape) {
      RecordedAt(k, i, tape);
    }
    RecordedAt(k, 0, tape);
    RecordedBytes(k, tape);
    if Clocked(k, tape) {
      PcrPacket(p);
    } else {
      PlainPacket(p);
    }
  }

  lemma RecordedBytes(k: nat, tape: Tape)
    ensures RecordedByte(k, 0, tape) == SYNC && RecordedByte(k, 1, tape) == 0
    ensures if Clocked(k, tape) then
              && RecordedByte(k, 3, tape) == 0x20 && RecordedByte(k, 4, tape) == 7 && RecordedByte(k, 5, tape) == 0x10
              && RecordedByte(k, 6, tape) == Top(k, tape)
              && forall i :: 7 <= i < 11 ==> RecordedByte(k, i, tape) == 0
            else RecordedByte(k, 3, tape) == 0
  {}

  lemma SomeTicks()
    ensures Ticks(0) == 0 && Ticks(1) == 0x200_0000 && Ticks(2) == 0x400_0000
  {}

  lemma RecordingStamps(o: int, tape: Tape)
    requires o % 188 == 0 && Sane(tape)
    ensures var file := Recording(tape);
            && (StampedAt(file, o) <==> o == 0 || o == 188 * tape.mid || o == 188 * tape.at)
            && (Whole(file, o) ==> file[o] == SYNC && !StampAt(file, o).Outside?)
  {
    hide PacketStamp, Recording, RecordedByte, Ticks, Top;
    if 0 <= o < 188 * tape.count {
      RecordedPacket(o / 188, tape);
    }
  }

  lemma {:induction false} RecordingIsSynced(tape: Tape)
    requires Sane(tape)
    ensures var file := Recording(tape);
            && Synced(file) && (forall o :: StampedAt(file, o) <==> o == 0 || o == 188 * tape.mid || o == 188 * tape.at)
            && StampAt(file, 0) == Stamped(0) && StampAt(file, 188 * tape.mid) == Stamped(Ticks(tape.midTop))
            && StampAt(file, 188 * tape.at) == Stamped(Ticks(tape.top))
  {
    hide PacketStamp, RecordedByte, Recording, Ticks;
    var file := Recording(tape);
    forall o | o % 188 == 0 ensures
      && (StampedAt(file, o) <==> o == 0 || o == 188 * tape.mid || o == 188 * tape.at)
      && (Whole(file, o) ==> file[o] == SYNC && !StampAt(file, o).Outside?)
    {
      RecordingStamps(o, tape);
    }
    SomeTicks();
    RecordedPacket(0, tape);
    RecordedPacket(tape.mid, tape);
    RecordedPacket(tape.at, tape);
  }

  const LONG: Tape := Tape(6000, 5000, 1, 5000, 1)

  /** The conditions of the seek can be met: this recording has two ends 372 seconds apart. */
  lemma {:induction false} RecordingIsSeekable()
    ensures var file := Recording(LONG);
            Seekable(file) && Located(file, 0, 940000, 1) && Measurable(file) && !Repeatable(file)
  {
    hide PacketStamp, StampAt, RecordedByte, Recording, Ticks;
    var file := Recording(LONG);
    RecordingIsSynced(LONG);
    SomeTicks();
    assert Located(file, 0, 940000, 1);
    MeasurableOrRepeatable(file);
  }

  /** On a new object for this recording the first seek is answered and the second one refused. */
  method SeekTwice(seek1: Seek, seek2: Seek) returns (ret1: int, ret2: int)
    ensures ret1 == 0 && ret2 == -1
  {
    hide Recording, Seekable, Measurable, Repeatable, Located, Mpeg.Indexed;
    RecordingIsSeekable();
    var m := new Mpeg(Recording(LONG));
    SeekableIsSynced(m.file);
    MeasurableOrRepeatable(m.file);
    var rets := SeekRun(m, [seek1, seek2]);
    ret1, ret2 := rets[0], rets[1];
  }

  lemma SeekableIsSynced(file: seq<Byte>)
    requires Seekable(file)
    ensures Synced(file)
  {}

  /** A read that gets nothing although its bytes are there: the kernel position was moved to the
      end of the file behind the cached offsets. */
  method StaleRead(file: seq<Byte>) returns (ret: int)
    requires |file| >= 2 * PACKET_SIZE
    ensures ret == 0
  {
    var m := new Mpeg(file);
    var buf, at;
    ret, buf := m.ReadInternal(0, PACKET_SIZE);
    at := m.SeekInternal(0, End);
    ret, buf := m.ReadInternal(PACKET_SIZE, PACKET_SIZE);
  }

  const BRIEF: Tape := Tape(6000, 4604, 0, 4604, 0)

  /** This recording ends, for the index, right before the last window: its second stamp is the last
      packet of the window before, at the time of the first. */
  lemma {:induction false} BriefRecordingIsLocated()
    ensures var file := Recording(BRIEF);
            Synced(file) && Located(file, 0, 865552, 2) && WindowStart(|file|, 1) == 865740 && Locatable(file)
  {
    hide PacketStamp, StampAt, RecordedByte, Recording, Ticks;
    var file := Recording(BRIEF);
    RecordingIsSynced(BRIEF);
    QuietOnce(file, |file|);
    assert Located(file, 0, 865552, 2);
  }

  lemma QuietOnce(file: seq<Byte>, len: int)
    ensures Quiet(file, len, 0, 1) <==> NoStamp(file, WindowStart(len, 1), WindowStart(len, 1) + WINDOW)
  {
    hide NoStamp, WindowStart;
    assert Quiet(file, len, 0, 0);
  }

  lemma BriefRecordingIsShort(b: int, e: int)
    requires exists n :: Located(Recording(BRIEF), b, e, n)
    ensures b == 0 && e == 865552 && !Measurable(Recording(BRIEF))
  {
    hide Recording, Located, Measurable, Ticks;
    BriefRecordingIsLocated();
    RecordingIsSynced(BRIEF);
    SomeTicks();
    var n :| Located(Recording(BRIEF), b, e, n);
    LocatedOnce(Recording(BRIEF), b, e, n, 0, 865552, 2);
    MeasuredBy(Recording(BRIEF), 0, 865552, 2);
  }

  /** A run of calc_length in which calc_end misses a window: the scan that found the end stopped
      where the next look for it begins. */
  method MissesAWindow() returns (ret1: int, ret2: int, ghost missed: nat)
    ensures ret1 == ret2 == 0 && missed == 1
  {
    hide Recording, Located, Measurable, Mpeg.Indexed, Mpeg.BeginTrue, Mpeg.EndTrue, Synced, Locatable, WindowStart, Probed,
         NoStamp, Ahead, Mpeg.Repeats, Mpeg.Barren;
    BriefRecordingIsLocated();
    var m := new Mpeg(Recording(BRIEF));
    ghost var probes;
    ret1, probes, missed := m.CalcLength();
    BriefRecordingIsShort(m.offsetBegin, m.offsetEnd);
    SecondWindow();
    ret2, probes, missed := m.CalcLength();
  }

  lemma SecondWindow()
    ensures WindowStart(188 * 6000, 2) != WindowStart(188 * 6000, 1)
  {}

  // ----- a clock out of order

  /** Its second stamp, on a sampling position, is later than its last one. */
  const MIXED: Tape := Tape(227000, 223101, 2, 226000, 1)
  const MID: int := 188 * 223101
  const LAST: int := 188 * 226000

  lemma {:induction false} MixedRecordingIsMeasurable()
    ensures var file := Recording(MIXED);
            Synced(file) && Located(file, 0, LAST, 1) && Measurable(file)
  {
    hide PacketStamp, StampAt, RecordedByte, Recording, Ticks;
    var file := Recording(MIXED);
    RecordingIsSynced(MIXED);
    SomeTicks();
    assert Located(file, 0, LAST, 1);
  }

  lemma MixedEnds(b: int, begin: int, e: int, end: int)
    requires exists n :: Located(Recording(MIXED), b, e, n)
    requires StampAt(Recording(MIXED), b) == Stamped(begin) && StampAt(Recording(MIXED), e) == Stamped(end)
    ensures b == begin == 0 && e == LAST && end == 0x200_0000
  {
    hide PacketStamp, StampAt, RecordedByte, Recording, Ticks, Located;
    MixedRecordingIsMeasurable();
    RecordingIsSynced(MIXED);
    SomeTicks();
    var n :| Located(Recording(MIXED), b, e, n);
    LocatedOnce(Recording(MIXED), b, e, n, 0, LAST, 1);
  }

  /** The index of that recording: the last entry lies before the one of the end. */
  const OUT_OF_ORDER: Index := [Sample(0, 0), Sample(0x200_0000, LAST), Sample(0x400_0000, MID)]

  lemma MixedEntry(n: nat, e: Sample)
    requires Sourced(Recording(MIXED), 0, 0, MID, n, e)
    ensures e in OUT_OF_ORDER
  {
    hide PacketStamp, StampAt, RecordedByte, Recording, Ticks, FoundAt, SampleAt, Synced, NoStamp;
    RecordingIsSynced(MIXED);
    SomeTicks();
    var k: nat :| k < n && FoundAt(Recording(MIXED), 0, MID, k, e.off);
    FoundIsFirst(Recording(MIXED), 0, MID, k, e.off);
  }

  lemma MixedPositions()
    ensures SampleStep(LAST) == MID && SampleAt(0, MID, 1) == MID && StepsFrom(0, MID, 0) == 0 && StepsFrom(0, MID, 1) == MID
  {
    assert StepsFrom(0, MID, 0) == 0;
  }

  lemma MidIsFound()
    ensures var file := Recording(MIXED);
            FoundAt(file, 0, MID, 1, MID) && TimeAt(file, 0, MID) == 0x400_0000
  {
    hide PacketStamp, StampAt, RecordedByte, Recording, Ticks, StepsFrom, ScanFrom, FoundAt;
    RecordingIsSynced(MIXED);
    SomeTicks();
    MixedPositions();
    FoundIsFirst(Recording(MIXED), 0, MID, 1, MID);
  }

  function Rank(e: Sample, a: Sample, b: Sample): nat { if e == a then 0 else if e == b then 1 else 2 }

  lemma {:induction false} RankGrows(s: Index, a: Sample, b: Sample, c: Sample, i: nat)
    requires Sorted(s) && a.pts < b.pts < c.pts && i < |s|
    requires forall j :: 0 <= j < |s| ==> s[j] == a || s[j] == b || s[j] == c
    ensures i <= Rank(s[i], a, b)
  {
    if i > 0 {
      RankGrows(s, a, b, c, i - 1);
    }
  }

  lemma ThreeSorted(s: Index, a: Sample, b: Sample, c: Sample)
    requires Sorted(s) && a.pts < b.pts < c.pts && a in s && b in s && c in s
    requires forall i :: 0 <= i < |s| ==> s[i] == a || s[i] == b || s[i] == c
    ensures s == [a, b, c]
  {
    hide Sorted;
    var i, j, k :| 0 <= i < |s| && 0 <= j < |s| && 0 <= k < |s| && s[i] == a && s[j] == b && s[k] == c;
    RankGrows(s, a, b, c, i);
    RankGrows(s, a, b, c, j);
    RankGrows(s, a, b, c, k);
    RankGrows(s, a, b, c, |s| - 1);
    assert i == 0 && j != 0 && k != 0 && j != k;
  }

  /** take_samples leaves exactly that index. */
  lemma {:induction false} MixedIndex(s: Index)
    requires FreshIndex(Recording(MIXED), 0, 0x200_0000, 0, LAST, s)
    ensures s == OUT_OF_ORDER && !Monotone(s)
  {
    hide PacketStamp, StampAt, RecordedByte, Recording, Ticks, Put, StepsFrom, SampleStep, FoundAt, Sourced, TimeAt, Gather, With;
    var file := Recording(MIXED);
    MixedPositions();
    MidIsFound();
    var n: nat :| TakenAt(file, 0, 0x200_0000, 0, LAST, s, n);
    var g := Gather(file, 0, 0, MID, n);
    GatherTells(file, 0, 0, MID, n);
    StepsBefore(0, LAST, MID, n, 1);
    LaterEntry(g, 0x400_0000);
    forall e | e in g ensures e in OUT_OF_ORDER {
      MixedEntry(n, e);
    }
    var t := Put(g, 0, 0);
    PutIsUpdate(g, 0, 0);
    PutIsUpdate(t, 0x200_0000, LAST);
    forall i | 0 <= i < |s| ensures s[i] in OUT_OF_ORDER {
      assert s[i] in s;
    }
    ThreeSorted(s, OUT_OF_ORDER[0], OUT_OF_ORDER[1], OUT_OF_ORDER[2]);
  }

  /** Every round for a time between the two last keys takes the samples again. */
  lemma {:induction false} AlwaysCleared(turns: seq<Turn>, s: Index, pts: int)
    requires Chain(turns, s, pts) && s == OUT_OF_ORDER && 0x200_0000 < pts <= 0x400_0000
    requires AllTrue(Recording(MIXED), 0, 0x200_0000, 0, LAST, turns, true) && Synced(Recording(MIXED))
    ensures LastIndex(turns, s) == OUT_OF_ORDER
    ensures forall i :: 0 <= i < |turns| ==> turns[i].Cleared?
    ensures Answered(turns, 0) == (0, -1)
  {
    hide Recording, Synced, GoesOn, IsTurn, TrueTurn, After;
    if |turns| > 0 {
      var before, last := turns[..|turns| - 1], turns[|turns| - 1];
      forall i | 0 <= i < |before| ensures TrueTurn(Recording(MIXED), 0, 0x200_0000, 0, LAST, before[i], true) {
        assert before[i] == turns[i];
      }
      AlwaysCleared(before, s, pts);
      ClearedAgain(last, pts);
    }
  }

  lemma ClearedAgain(turn: Turn, pts: int)
    requires IsTurn(turn, pts) && turn.s == OUT_OF_ORDER && 0x200_0000 < pts <= 0x400_0000
    requires TrueTurn(Recording(MIXED), 0, 0x200_0000, 0, LAST, turn, true) && Synced(Recording(MIXED))
    ensures turn.Cleared? && After(turn) == OUT_OF_ORDER
  {
    hide Recording, Synced, FreshIndex, RealBut, IsTurn, Scannable;
    DisorderIsCleared(turn, pts);
    SyncedIsScannable(Recording(MIXED), 0, LAST);
    MixedIndex(turn.t);
  }

  lemma DisorderIsCleared(turn: Turn, pts: int)
    requires IsTurn(turn, pts) && turn.s == OUT_OF_ORDER && 0x200_0000 < pts <= 0x400_0000
    ensures turn.Cleared?
  {
    hide RoundOffset, Put, Fits;
    LowerBoundIs(OUT_OF_ORDER, pts, 2);
  }

  /** A seek on a new object for that recording, to a time between the two last keys: five rounds take
      the samples again, m_end_valid is cleared, so that there is no bit rate, and the answer is the
      wanted time at an offset behind any file. */
  method SeekIntoDisorder(pts: int) returns (ret: int, offset: int, got: int, ghost turns: seq<Turn>)
    requires 0x200_0000 < pts <= 0x400_0000
    ensures ret == 0 && got == pts && offset >= 0x1000_0000_0000
    ensures |turns| == 5 && forall i :: 0 <= i < |turns| ==> turns[i].Cleared?
  {
    hide Recording, Located, Measurable, Repeatable, Synced, Locatable, NoStamp, FreshIndex, RealBut, AllSeen, AllReal,
         AllGood, Fallback, Mpeg.Repeats, Mpeg.Barren, Answered, Chain, SeekResult, Ordered, Covering, Scannable, Legible,
         HasEnds, InTicks;
    MixedRecordingIsMeasurable();
    var m := new Mpeg(Recording(MIXED));
    ghost var first;
    ret, offset, got, turns, first := m.GetOffset(0, pts);
    MixedEnds(m.offsetBegin, m.ptsBegin, m.offsetEnd, m.ptsEnd);
    SyncedIsScannable(m.file, 0, LAST);
    MixedIndex(first);
    AlwaysCleared(turns, first, pts);
    FallbackWithoutRate(pts);
  }
}
