/** What the time index of src/Mpeg.cpp has to do with the file: stamps found by a scan, the two ends
    of the time line, samples that name real stamps, and what one round of the seek makes of them. */
module TimeLine {
  import opened TsPacket
  import opened SampleIndex
  import opened SeekMath
  import opened Widths

  const BUDGET: int := 256 * 1024
  const PACKETS: int := 1394            // whole packets in the budget
  const WINDOW: int := 1394 * 188       // bytes one scan covers
  const MEGABYTE: int := 1024 * 1024

  function Max(a: int, b: int): int { if a > b then a else b }

  function Abs(a: int): int { if a < 0 then -a else a }

  // ----- what a scan finds

  /** The position of the first sync byte; the length when there is none. */
  function FirstSync(p: seq<Byte>): (k: nat)
    ensures k <= |p| && SYNC !in p[..k] && (k < |p| ==> p[k] == SYNC)
  {
    if |p| == 0 || p[0] == SYNC then 0
    else
      var k := 1 + FirstSync(p[1..]);
      assert p[..k] == [p[0]] + p[1..][..k - 1];
      k
  }

  lemma FirstSyncIs(p: seq<Byte>, k: nat)
    requires k <= |p| && SYNC !in p[..k] && (k < |p| ==> p[k] == SYNC)
    ensures FirstSync(p) == k
  {
    if k > 0 {
      assert p[0] == p[..k][0] && forall i :: 0 < i < k ==> p[1..][i - 1] == p[..k][i];
      FirstSyncIs(p[1..], k - 1);
    }
  }

  /** What a scan of n packets from o ends with: the first stamp, or the offset it gave up at.
      Off the sync byte it goes back by as many bytes as stand before the first one, so that it
      may read the same packet again.  Undefined: a PES header that leaves its packet. */
  datatype Outcome = Hit(at: int, ticks: int) | Miss(at: int) | Undefined

  ghost function ScanFrom(file: seq<Byte>, o: int, n: nat): Outcome
    decreases n
  {
    if n == 0 || !Whole(file, o) then Miss(o)
    else if file[o] != SYNC then ScanFrom(file, o + PACKET_SIZE - FirstSync(file[o..o + PACKET_SIZE]), n - 1)
    else match StampAt(file, o)
      case Stamped(ticks) => Hit(o, ticks)
      case Unstamped => ScanFrom(file, o + PACKET_SIZE, n - 1)
      case Outside => Undefined
  }

  lemma ScanStep(file: seq<Byte>, o: int, n: nat, packet: seq<Byte>)
    requires n > 0 && Whole(file, o) && packet == file[o..o + PACKET_SIZE]
    ensures packet[0] == file[o] && PacketStamp(packet) == StampAt(file, o)
    ensures ScanFrom(file, o, n) ==
            if packet[0] != SYNC then ScanFrom(file, o + PACKET_SIZE - FirstSync(packet), n - 1)
            else match PacketStamp(packet)
              case Stamped(ticks) => Hit(o, ticks)
              case Unstamped => ScanFrom(file, o + PACKET_SIZE, n - 1)
              case Outside => Undefined
  {
    hide PacketStamp;
  }

  lemma ScanEnds(file: seq<Byte>, o: int, n: nat)
    requires n == 0 || !Whole(file, o)
    ensures ScanFrom(file, o, n) == Miss(o)
  {}

  /** The result of get_pts is the outcome; behind an undefined read it may be anything. */
  predicate Agrees(outcome: Outcome, ret: int, offset: int, pts: int) {
    match outcome
    case Hit(at, ticks) => ret == 0 && offset == at && pts == ticks
    case Miss(at) => ret == -1 && offset == at
    case Undefined => true
  }

  /** The same for get_pts with fixed = 1, which counts from the first stamp of the file: up to ten
      seconds before that one a time stays as it is. */
  predicate AgreesFixed(outcome: Outcome, begin: int, ret: int, offset: int, pts: int) {
    match outcome
    case Hit(at, ticks) =>
      ret == 0 && offset == at && pts == if begin - 900000 < ticks < begin then ticks else (ticks - begin) % 0x2_0000_0000
    case Miss(_) => ret == -1
    case Undefined => true
  }

  /** A hit is a packet within n packets from o, with a stamp. */
  lemma {:induction false} HitIsRead(file: seq<Byte>, o: int, n: nat)
    ensures var outcome := ScanFrom(file, o, n);
            outcome.Hit? ==>
              && o <= outcome.at < o + n * PACKET_SIZE && Whole(file, outcome.at) && file[outcome.at] == SYNC
              && StampAt(file, outcome.at) == Stamped(outcome.ticks) && 0 <= outcome.ticks < CLOCK
    decreases n
  {
    hide PacketStamp;
    if n > 0 && Whole(file, o) {
      if file[o] != SYNC {
        HitIsRead(file, o + PACKET_SIZE - FirstSync(file[o..o + PACKET_SIZE]), n - 1);
      } else if StampAt(file, o).Unstamped? {
        HitIsRead(file, o + PACKET_SIZE, n - 1);
      }
    }
  }

  lemma FixedIsUnwrapped(file: seq<Byte>, o: int, begin: int, ret: int, offset: int, pts: int)
    requires AgreesFixed(ScanFrom(file, o, PACKETS), begin, ret, offset, pts) && 0 <= begin < CLOCK
    ensures match ScanFrom(file, o, PACKETS)
            case Hit(at, ticks) => ret == 0 && offset == at && pts == Unwrap(begin, ticks)
            case Miss(_) => ret == -1
            case Undefined => true
  {
    hide Unwrap, PacketStamp, ScanFrom, StampAt;
    HitIsRead(file, o, PACKETS);
    if ScanFrom(file, o, PACKETS).Hit? {
      UnwrapIs(begin, ScanFrom(file, o, PACKETS).ticks);
    }
  }

  /** On a synced file a scan that starts on the grid finds the first stamp of its n packets. */
  lemma {:induction false} ScanOfSynced(file: seq<Byte>, o: int, n: nat)
    requires Synced(file) && o % PACKET_SIZE == 0
    ensures match ScanFrom(file, o, n)
            case Hit(e, ticks) => FirstStamp(file, o, e) && e < o + n * PACKET_SIZE && StampAt(file, e) == Stamped(ticks)
            case Miss(_) => o >= 0 ==> NoStamp(file, o, o + n * PACKET_SIZE)
            case Undefined => false
    decreases n
  {
    hide PacketStamp, NoStamp;
    if n == 0 || !Whole(file, o) {
      NothingBehind(file, o, o + n * PACKET_SIZE);
    } else {
      OnePacket(file, o);
      if StampAt(file, o).Unstamped? {
        ScanOfSynced(file, o + PACKET_SIZE, n - 1);
        JoinNoStamp(file, o, o + PACKET_SIZE, o + n * PACKET_SIZE);
        match ScanFrom(file, o, n) {
          case Hit(e, _) => JoinNoStamp(file, o, o + PACKET_SIZE, e);
          case _ =>
        }
      }
    }
  }

  /** ... so a scan of the whole budget succeeds exactly when its window has one. */
  lemma ScanOutcome(file: seq<Byte>, o: int)
    requires o % PACKET_SIZE == 0
    ensures Synced(file) ==> Found(file, o, ScanFrom(file, o, PACKETS))
  {
    hide PacketStamp;
    if Synced(file) {
      ScanOfSynced(file, o, PACKETS);
    }
  }

  ghost predicate Found(file: seq<Byte>, o: int, outcome: Outcome) {
    match outcome
    case Hit(e, ticks) => FirstStamp(file, o, e) && e < o + WINDOW && StampAt(file, e) == Stamped(ticks)
                          && !NoStamp(file, o, o + WINDOW)
    case Miss(_) => o >= 0 ==> NoStamp(file, o, o + WINDOW)
    case Undefined => false
  }

  /** A stamp lies in its own window. */
  lemma StampIsFound(file: seq<Byte>, o: int)
    requires StampedAt(file, o)
    ensures Align(o) == o && !NoStamp(file, Align(o), Align(o) + WINDOW)
  {}

  lemma FirstOnGrid(file: seq<Byte>, o: int)
    ensures FirstStamp(file, 0, o) ==> Align(o) == o
  {}

  /** A stamp with another time than the first one lies behind it. */
  lemma EndIsBehind(file: seq<Byte>, b: int, begin: int, e: int, end: int)
    requires FirstStamp(file, 0, b) && StampAt(file, b) == Stamped(begin)
    requires StampedAt(file, e) && StampAt(file, e) == Stamped(end) && Ahead(begin, end) > 0
    ensures b < e
  {}

  lemma NothingBehind(file: seq<Byte>, o: int, to: int)
    ensures o == to || (o >= 0 && !Whole(file, o)) ==> NoStamp(file, o, to)
  {}

  /** A packet on the grid of a synced file. */
  lemma OnePacket(file: seq<Byte>, o: int)
    requires Synced(file) && o % PACKET_SIZE == 0 && Whole(file, o)
    ensures file[o] == SYNC && !StampAt(file, o).Outside? && NoStamp(file, o, o)
    ensures StampAt(file, o).Unstamped? ==> NoStamp(file, o, o + PACKET_SIZE)
  {
    hide PacketStamp;
    var s := StampAt(file, o);
  }

  lemma JoinNoStamp(file: seq<Byte>, a: int, b: int, c: int)
    requires NoStamp(file, a, b)
    ensures NoStamp(file, b, c) ==> NoStamp(file, a, c)
  {
    hide StampedAt;
  }

  /** Where the j-th probe of calc_end starts, counted back from the end of the file. */
  function WindowStart(len: int, j: int): int { Align(Max(0, len - j * BUDGET)) }

  /** That is the packet boundary at or before j times 256 KiB from the end, or 0; a scan from there
      takes the whole packets of 256 KiB. */
  lemma WindowStartIs(len: int, j: int)
    ensures WindowStart(len, j) % 188 == 0
    ensures len >= j * 262144 ==> WindowStart(len, j) <= len - j * 262144 < WindowStart(len, j) + 188
    ensures len < j * 262144 ==> WindowStart(len, j) == 0
    ensures PACKETS * 188 == WINDOW <= 262144 < WINDOW + 188
  {
    hide Align;
    AlignFloors(Max(0, len - j * BUDGET));
    AlignOfMultiple(0);
  }

  /** The scan for the first stamp, on any file: the time of a packet with a PES header that leaves it
      may be anything. */
  ghost predicate BeginHeard(file: seq<Byte>, valid: bool, begin: int, ticks: int) {
    match ScanFrom(file, 0, PACKETS)
    case Hit(at, t) => valid && begin == at && ticks == t
    case Miss(_) => !valid
    case Undefined => true
  }

  /** The scans of the probe windows behind the first from ones, up to the n-th, hit nothing. */
  ghost predicate Mute(file: seq<Byte>, len: int, from: nat, n: nat)
    decreases n
  {
    n <= from || (Mute(file, len, from, n - 1) && !ScanFrom(file, WindowStart(len, n), PACKETS).Hit?)
  }

  /** What n probes of any file, of which the first missed saw nothing, know of its end: what the scan
      of the n-th window hits, when those before it hit nothing. */
  ghost predicate Heard(file: seq<Byte>, len: int, missed: nat, n: nat, valid: bool, end: int, ticks: int) {
    if valid then
      && n > missed && Mute(file, len, missed, n - 1)
      && ScanFrom(file, WindowStart(len, n), PACKETS) in {Hit(end, ticks), Undefined}
    else Mute(file, len, missed, n)
  }

  /** One more probe. */
  lemma HeardStep(file: seq<Byte>, len: int, missed: nat, n: nat, valid: bool, end: int, ticks: int)
    requires n > 0 && Mute(file, len, missed, n - 1)
    requires valid ==> n > missed && ScanFrom(file, WindowStart(len, n), PACKETS) in {Hit(end, ticks), Undefined}
    requires !valid && n > missed ==> !ScanFrom(file, WindowStart(len, n), PACKETS).Hit?
    ensures Heard(file, len, missed, n, valid, end, ticks)
  {
    hide ScanFrom, WindowStart;
  }

  lemma NothingHeard(file: seq<Byte>, len: int, missed: nat)
    ensures Mute(file, len, missed, 0)
  {}

  lemma {:induction false} MuteAt(file: seq<Byte>, len: int, from: nat, n: nat, j: nat)
    requires Mute(file, len, from, n) && from < j <= n
    ensures !ScanFrom(file, WindowStart(len, j), PACKETS).Hit?
  {
    hide ScanFrom, WindowStart;
    if j < n {
      MuteAt(file, len, from, n - 1, j);
    }
  }

  /** The two ends of any file: what the scan from 0 hits, and what the scan of the n-th window from
      the end hits, the nearest of nine that hits anything. */
  ghost predicate EndsHeard(file: seq<Byte>, b: int, begin: int, e: int, end: int, n: nat) {
    var len := RecordedLength(file);
    && ScanFrom(file, 0, PACKETS) == Hit(b, begin) && 1 <= n <= 9
    && Mute(file, len, 0, n - 1) && ScanFrom(file, WindowStart(len, n), PACKETS) == Hit(e, end)
  }

  ghost predicate HasEnds(file: seq<Byte>) { exists b, begin, e, end, n :: EndsHeard(file, b, begin, e, end, n) }

  /** No scan for an end meets a PES header that leaves its packet. */
  ghost predicate Legible(file: seq<Byte>) {
    && !ScanFrom(file, 0, PACKETS).Undefined?
    && forall j :: 1 <= j <= 9 ==> !ScanFrom(file, WindowStart(RecordedLength(file), j), PACKETS).Undefined?
  }

  /** A file has at most one pair of ends. */
  lemma HeardOnce(file: seq<Byte>, b: int, begin: int, e: int, end: int, n: nat, b': int, begin': int, e': int, end': int, n': nat)
    requires EndsHeard(file, b, begin, e, end, n) && EndsHeard(file, b', begin', e', end', n')
    ensures b == b' && begin == begin' && e == e' && end == end' && n == n'
  {
    hide ScanFrom, WindowStart, Mute;
    var len := RecordedLength(file);
    if n < n' {
      MuteAt(file, len, 0, n' - 1, n);
    } else if n' < n {
      MuteAt(file, len, 0, n - 1, n');
    }
  }

  /** The first look at any file that is legible finds its two ends, or finds that there are none. */
  lemma {:induction false} FirstHearing(file: seq<Byte>, b: int, begin: int, n: nat, valid: bool, e: int, end: int)
    requires ScanFrom(file, 0, PACKETS) == Hit(b, begin) && 0 < n <= 9 && Legible(file)
    requires Heard(file, RecordedLength(file), 0, n, valid, e, end)
    requires valid || n == 9 || WindowStart(RecordedLength(file), n) == 0
    ensures if valid then EndsHeard(file, b, begin, e, end, n) else !HasEnds(file)
  {
    hide ScanFrom, WindowStart, Mute;
    var len := RecordedLength(file);
    if !valid {
      MuteAt(file, len, 0, n, n);
      forall b', begin', e', end', n' | EndsHeard(file, b', begin', e', end', n') ensures false {
        MuteAt(file, len, 0, n, n');
      }
    }
  }

  lemma NoBeginHeard(file: seq<Byte>)
    requires !ScanFrom(file, 0, PACKETS).Hit?
    ensures !HasEnds(file)
  {
    hide ScanFrom;
  }

  /** On a synced file a window is mute exactly when it is quiet. */
  lemma {:induction false} MuteIsQuiet(file: seq<Byte>, len: int, from: nat, n: nat)
    requires Synced(file)
    ensures Mute(file, len, from, n) <==> Quiet(file, len, from, n)
    decreases n
  {
    hide ScanFrom, WindowStart, NoStamp, Synced, StampAt, FirstStamp;
    if n > from {
      MuteIsQuiet(file, len, from, n - 1);
      WindowOutcome(file, len, n);
    }
  }

  lemma WindowOutcome(file: seq<Byte>, len: int, n: nat)
    requires Synced(file)
    ensures Found(file, WindowStart(len, n), ScanFrom(file, WindowStart(len, n), PACKETS)) && WindowStart(len, n) >= 0
  {
    hide ScanFrom, Found, Synced, Align;
    WindowStartIs(len, n);
    AlignFloors(Max(0, len - n * BUDGET));
    ScanOutcome(file, WindowStart(len, n));
  }

  lemma HeardOnSynced(file: seq<Byte>, len: int, missed: nat, n: nat, valid: bool, end: int, ticks: int)
    requires Synced(file) && Heard(file, len, missed, n, valid, end, ticks)
    ensures Probed(file, len, missed, n, valid, end, ticks)
  {
    hide ScanFrom, WindowStart, NoStamp, Synced, StampAt, FirstStamp, Quiet, Mute;
    MuteIsQuiet(file, len, missed, if valid then n - 1 else n);
    WindowOutcome(file, len, n);
  }

  /** On a synced file those ends are the first stamp of the first window and that of the nearest
      window from the end that has one. */
  lemma HeardIsLocated(file: seq<Byte>, b: int, begin: int, e: int, end: int, n: nat)
    requires Synced(file)
    ensures EndsHeard(file, b, begin, e, end, n)
            <==> Located(file, b, e, n) && StampAt(file, b) == Stamped(begin) && StampAt(file, e) == Stamped(end)
  {
    hide ScanFrom, WindowStart, NoStamp, Synced, StampAt, Quiet, Mute, StampedAt;
    var len := RecordedLength(file);
    if n >= 1 {
      MuteIsQuiet(file, len, 0, n - 1);
      WindowOutcome(file, len, n);
      ScanOutcome(file, 0);
      OneFirst(file, 0, b, ScanFrom(file, 0, PACKETS));
      OneFirst(file, WindowStart(len, n), e, ScanFrom(file, WindowStart(len, n), PACKETS));
    }
  }

  /** A stamp that is the first one of a window is what its scan finds. */
  lemma OneFirst(file: seq<Byte>, o: int, e: int, outcome: Outcome)
    requires Found(file, o, outcome) && o >= 0
    ensures FirstStamp(file, o, e) && e < o + WINDOW ==> outcome.Hit? && outcome.at == e
  {
    hide StampAt, StampedAt;
    if FirstStamp(file, o, e) && e < o + WINDOW {
      assert StampedAt(file, e) && o <= e < o + WINDOW;
    }
  }

  /** The probe windows behind the first from ones, up to the n-th, hold no stamped packet. */
  ghost predicate Quiet(file: seq<Byte>, len: int, from: nat, n: nat)
    decreases n
  {
    n <= from || (Quiet(file, len, from, n - 1) && NoStamp(file, WindowStart(len, n), WindowStart(len, n) + WINDOW))
  }

  /** o is the first stamp of the n-th probe window. */
  ghost predicate HitIn(file: seq<Byte>, len: int, n: nat, o: int) {
    FirstStamp(file, WindowStart(len, n), o) && o < WindowStart(len, n) + WINDOW
  }

  /** How many probes fail unseen when the last read before the seek to the end stopped at at. */
  function MissedAt(file: seq<Byte>, at: int, len: int): nat {
    if at == |file| || at != WindowStart(len, 1) then 0
    else if WindowStart(len, 2) != WindowStart(len, 1) then 1 else 2
  }

  /** What n probes, of which the first missed saw nothing, know of the end of the file. */
  ghost predicate Probed(file: seq<Byte>, len: int, missed: nat, n: nat, valid: bool, end: int, ticks: int) {
    if valid then
      && n > missed && Quiet(file, len, missed, n - 1)
      && HitIn(file, len, n, end) && StampAt(file, end) == Stamped(ticks)
    else Quiet(file, len, missed, n)
  }

  /** The hit of a probe is a stamp; with the recorded length 0 it is the first one. */
  lemma HitIsStamp(file: seq<Byte>, len: int, n: nat, b: int, e: int)
    requires FirstStamp(file, 0, b) && n > 0 && HitIn(file, len, n, e)
    ensures StampedAt(file, e) && (len == 0 ==> e == b)
  {
    hide PacketStamp;
    if len == 0 {
      ShortFileHit(file, n, b, e);
    }
  }

  /** Where one step back from the last probe leads. */
  lemma ProbeStart(len: int, n: nat)
    requires n > 0
    ensures var off := Max(0, Max(0, len - (n - 1) * BUDGET) - BUDGET);
            off == Max(0, len - n * BUDGET) >= 0 && Align(off) == WindowStart(len, n)
  {}

  lemma EqualWindows(len: int)
    ensures len >= 0 && WindowStart(len, 2) == WindowStart(len, 1) ==> Max(0, len - 2 * BUDGET) == 0
  {}

  lemma WindowAtStart(len: int, j: int)
    ensures Max(0, len - j * BUDGET) == 0 ==> WindowStart(len, j) == 0
  {}

  /** What an object that has seen no other length records for the file: up to 1 MiB nothing. */
  function RecordedLength(file: seq<Byte>): int { if |file| > MEGABYTE then |file| else 0 }

  /** Where the first look at a file finds its two ends: the first stamp of the first window, and
      the first stamp of the n-th window from the end, the nearest of nine that has one. */
  ghost predicate Located(file: seq<Byte>, begin: int, end: int, n: nat) {
    && FirstStamp(file, 0, begin) && begin < WINDOW && 1 <= n <= 9
    && Quiet(file, RecordedLength(file), 0, n - 1) && HitIn(file, RecordedLength(file), n, end)
  }

  ghost predicate Locatable(file: seq<Byte>) { exists begin, end, n :: Located(file, begin, end, n) }

  /** The file is longer than 1 MiB, and its two ends are at least a second apart. */
  ghost predicate Measurable(file: seq<Byte>) {
    && |file| > MEGABYTE
    && exists begin, end, n ::
         Located(file, begin, end, n) && Ahead(StampAt(file, begin).ticks, StampAt(file, end).ticks) >= 90000
  }

  /** Its two ends are less than a second apart, and the last one is not at offset 0. */
  ghost predicate Repeatable(file: seq<Byte>) {
    exists begin, end, n ::
      Located(file, begin, end, n) && end != 0 && Ahead(StampAt(file, begin).ticks, StampAt(file, end).ticks) < 90000
  }

  lemma {:induction false} QuietAt(file: seq<Byte>, len: int, from: nat, n: nat, j: nat)
    requires Quiet(file, len, from, n) && from < j <= n
    ensures NoStamp(file, WindowStart(len, j), WindowStart(len, j) + WINDOW)
  {
    hide NoStamp, WindowStart;
    if j < n {
      QuietAt(file, len, from, n - 1, j);
    }
  }

  /** A file has at most one pair of ends. */
  lemma LocatedOnce(file: seq<Byte>, b: int, e: int, n: nat, b': int, e': int, n': nat)
    requires Located(file, b, e, n) && Located(file, b', e', n')
    ensures b == b' && e == e' && n == n'
  {
    hide PacketStamp, StampAt, WindowStart, Quiet;
    var len := RecordedLength(file);
    if n < n' {
      QuietAt(file, len, 0, n' - 1, n);
    } else if n' < n {
      QuietAt(file, len, 0, n - 1, n');
    }
  }

  /** The first look at a file: the first stamp and the probes decide whether it has two ends. */
  lemma FirstLook(file: seq<Byte>, b: int, n: nat, valid: bool, e: int, ticks: int)
    requires FirstStamp(file, 0, b) && b < WINDOW && 0 < n <= 9
    requires Probed(file, RecordedLength(file), 0, n, valid, e, ticks)
    requires valid || n == 9 || WindowStart(RecordedLength(file), n) == 0
    ensures if valid then Located(file, b, e, n) else !Locatable(file)
  {
    hide PacketStamp, StampAt, WindowStart, Quiet;
    var len := RecordedLength(file);
    if !valid {
      QuietAt(file, len, 0, n, n);
      assert WindowStart(len, n) != 0;
      forall b', e', n' | Located(file, b', e', n') ensures false {
        QuietAt(file, len, 0, n, n');
      }
    }
  }

  /** The first window of a fresh probe is never where the scan for the first stamp ended. */
  lemma FirstWindowIsAhead(file: seq<Byte>, b: int)
    requires 0 <= b < WINDOW
    ensures WindowStart(RecordedLength(file), 1) != b + PACKET_SIZE
  {}

  /** A later look at the same file, of whose probes the first missed see nothing, finds the same end. */
  lemma Relook(file: seq<Byte>, b: int, e: int, n: nat, missed: nat, n': nat, valid: bool, e': int, ticks: int)
    requires Located(file, b, e, n) && missed < n && 0 < n' <= 9
    requires Probed(file, RecordedLength(file), missed, n', valid, e', ticks)
    requires valid || n' == 9 || WindowStart(RecordedLength(file), n') == 0
    ensures valid && n' == n && e' == e
  {
    hide PacketStamp, StampAt, WindowStart, Quiet;
    var len := RecordedLength(file);
    if n' < n {
      QuietAt(file, len, 0, n - 1, n');
    } else if n < n' || !valid {
      QuietAt(file, len, missed, if valid then n' - 1 else n', n);
    }
  }

  /** A scan that has just found the end is not in front of a window it has not seen to be quiet. */
  lemma EndIsInWindow(file: seq<Byte>, len: int, n: nat, e: int)
    requires n > 0 && HitIn(file, len, n, e)
    ensures WindowStart(len, 1) == e + PACKET_SIZE ==> n >= 2 && (WindowStart(len, 2) == WindowStart(len, 1) ==> n >= 3)
  {
    hide PacketStamp, StampAt, WindowStart;
  }

  lemma NotLocated(file: seq<Byte>)
    requires NoStamp(file, 0, WINDOW)
    ensures !Locatable(file)
  {}

  lemma NotMeasured(file: seq<Byte>)
    ensures !Locatable(file) ==> !Measurable(file)
  {
    hide Located;
  }

  lemma LocatedHit(file: seq<Byte>, b: int, e: int, n: nat)
    requires Located(file, b, e, n)
    ensures n > 0 && HitIn(file, RecordedLength(file), n, e) && Locatable(file)
  {
    hide HitIn, FirstStamp, Quiet;
  }

  /** The two ends found say whether the file is measurable. */
  lemma MeasuredBy(file: seq<Byte>, b: int, e: int, n: nat)
    requires Located(file, b, e, n)
    ensures Measurable(file) <==> Ahead(StampAt(file, b).ticks, StampAt(file, e).ticks) >= 90000
    ensures Locatable(file) && (Measurable(file) ==> b < e)
  {
    hide PacketStamp, StampAt, StampedAt, WindowStart;
    forall b', e', n' | Located(file, b', e', n') ensures b' == b && e' == e {
      LocatedOnce(file, b, e, n, b', e', n');
    }
    StampsApart(file, b, e, n);
    if |file| <= MEGABYTE {
      ShortFileHit(file, n, b, e);
    }
  }

  lemma MeasuredByEnds(file: seq<Byte>, b: int, e: int)
    requires exists n :: Located(file, b, e, n)
    ensures Measurable(file) <==> Ahead(StampAt(file, b).ticks, StampAt(file, e).ticks) >= 90000
    ensures Locatable(file) && (Measurable(file) ==> b < e)
  {
    hide PacketStamp, StampAt, StampedAt, Located, Measurable, Ahead;
    var n :| Located(file, b, e, n);
    MeasuredBy(file, b, e, n);
  }

  lemma RepeatableByEnds(file: seq<Byte>, b: int, e: int)
    requires exists n :: Located(file, b, e, n)
    ensures Repeatable(file) <==> e != 0 && !Measurable(file)
  {
    hide PacketStamp, StampAt, StampedAt, Located, Measurable, Ahead;
    var n :| Located(file, b, e, n);
    MeasuredBy(file, b, e, n);
    forall b', e', n' | Located(file, b', e', n') ensures b' == b && e' == e {
      LocatedOnce(file, b, e, n, b', e', n');
    }
  }

  lemma MeasurableOrRepeatable(file: seq<Byte>)
    ensures Measurable(file) || Repeatable(file) ==> Locatable(file) && !(Measurable(file) && Repeatable(file))
  {
    hide PacketStamp, StampAt, StampedAt, Located, Ahead;
    if Measurable(file) {
      var b, e, n :| Located(file, b, e, n);
      RepeatableByEnds(file, b, e);
    }
  }

  lemma NotRepeatable(file: seq<Byte>)
    ensures !Locatable(file) ==> !Repeatable(file)
  {
    hide Located;
  }

  lemma StampsApart(file: seq<Byte>, b: int, e: int, n: nat)
    requires Located(file, b, e, n)
    ensures b <= e
  {
    hide PacketStamp, StampAt;
  }

  /** Stamps never decrease along the file; in particular the clock does not wrap. */
  ghost predicate Ordered(file: seq<Byte>) {
    forall a, b :: StampedAt(file, a) && StampedAt(file, b) && a <= b
                   ==> StampAt(file, a).ticks <= StampAt(file, b).ticks
  }

  /** A sample names a stamped packet and its time after the first stamp. */
  ghost predicate Timed(file: seq<Byte>, begin: int, e: Sample) {
    StampedAt(file, e.off) && StampAt(file, e.off).ticks == begin + e.pts
  }

  ghost predicate Genuine(file: seq<Byte>, begin: int, s: Index) {
    forall i :: 0 <= i < |s| ==> Timed(file, begin, s[i])
  }

  ghost predicate HasKey(s: Index, p: int) { exists i :: 0 <= i < |s| && s[i].pts == p }

  /** On any file a sample names a packet that starts with the sync byte, and the time the code reads
      there: behind a PES header that leaves its packet that may be anything. */
  ghost predicate Named(file: seq<Byte>, begin: int, e: Sample) {
    && Whole(file, e.off) && file[e.off] == SYNC && (Synced(file) ==> StampedAt(file, e.off))
    && match StampAt(file, e.off)
       case Stamped(ticks) => e.pts == Unwrap(begin, ticks)
       case Unstamped => false
       case Outside => true
  }

  ghost predicate AllNamed(file: seq<Byte>, begin: int, s: Index) {
    forall i :: 0 <= i < |s| ==> Named(file, begin, s[i])
  }

  /** Every entry is one the code has read from the file, or one of the two ends. */
  ghost predicate RealBut(file: seq<Byte>, begin: int, s: Index, first: Sample, last: Sample) {
    forall i :: 0 <= i < |s| ==> s[i] == first || s[i] == last || Named(file, begin, s[i])
  }

  /** The index knows the time of the first stamp a scan from the given offset finds. */
  ghost predicate Sampled(file: seq<Byte>, begin: int, s: Index, from: int) {
    forall o :: FirstStamp(file, from, o) && o < from + WINDOW ==> HasKey(s, StampAt(file, o).ticks - begin)
  }

  /** ... for every sampling position below the last stamp. */
  ghost predicate Complete(file: seq<Byte>, begin: int, s: Index, start: int, step: int, n: nat) {
    forall k: nat :: k < n ==> Sampled(file, begin, s, Align(StepsFrom(start, step, k)))
  }

  /** ... for n sampling positions all the way from start to end. */
  ghost predicate CoveredBy(file: seq<Byte>, begin: int, s: Index, start: int, end: int, n: nat) {
    var step := SampleStep(end - start);
    StepsFrom(start, step, n) >= end && Complete(file, begin, s, start, step, n)
  }

  ghost predicate Covering(file: seq<Byte>, begin: int, s: Index, start: int, end: int) {
    exists n: nat :: CoveredBy(file, begin, s, start, end, n)
  }

  /** The index holds both ends of the file's time line. */
  ghost predicate Anchored(s: Index, length: int, offsetEnd: int) {
    && |s| > 0 && s[0].pts == 0
    && exists k :: 0 <= k < |s| && s[k].pts == length && s[k].off <= offsetEnd
  }

  /** Between any two stamps the bit rate fits an int, and the file is below 8 TiB. */
  ghost predicate RateFits(file: seq<Byte>) {
    && |file| <= 0x800_0000_0000
    && forall a, b :: StampedAt(file, a) && StampedAt(file, b) && StampAt(file, a).ticks < StampAt(file, b).ticks
                      ==> (b - a) * 720000 < TWO32 / 2 * (StampAt(file, b).ticks - StampAt(file, a).ticks)
  }

  /** What the seek needs of a file: packets on the grid, one ordered clock, sane rates. */
  ghost predicate Seekable(file: seq<Byte>) { Synced(file) && Ordered(file) && RateFits(file) }

  /** The step between two sample positions. */
  function SampleStep(range: int): int {
    var step := Max(Quot(range, 30), 40 * MEGABYTE);
    step - step % 188
  }

  /** The first packet from offset on that has a stamp lies pts after the first stamp of the file. */
  ghost predicate LandsAt(file: seq<Byte>, begin: int, offset: int, pts: int) {
    exists o :: FirstStamp(file, offset, o) && StampAt(file, o).ticks == begin + pts
  }

  /** offset lies on the line between two real samples around the wanted time, rounded down by
      less than a packet and the rounding of the bit rate. */
  ghost predicate Between(file: seq<Byte>, begin: int, lo: Sample, hi: Sample, want: int, offset: int) {
    && Timed(file, begin, lo) && Timed(file, begin, hi)
    && lo.pts <= want <= hi.pts && lo.off <= offset <= hi.off
    && (lo.pts < hi.pts ==> NearLine(lo, hi, want, offset))
  }

  ghost predicate NearLine(lo: Sample, hi: Sample, want: int, offset: int)
    requires lo.pts < hi.pts
  {
    var exact := Linear(hi.pts - lo.pts, lo.off, hi.off - lo.off, want - lo.pts);
    offset as real <= exact < offset as real + (want - lo.pts) as real / 720000.0 + 188.0
  }

  ghost predicate OnSegment(file: seq<Byte>, begin: int, want: int, offset: int) {
    exists lo, hi :: Between(file, begin, lo, hi, want, offset)
  }

  /** More than 300 ms apart, as get_offset counts them. */
  predicate Far(want: int, got: int) { Abs(Int32(Quot(got - want, 90))) > 300 }

  /** That is 27090 ticks or more, while the milliseconds fit an int. */
  lemma FarInTicks(want: int, got: int)
    requires -0x2D_0000_0000 < got - want < 0x2D_0000_0000
    ensures Far(want, got) <==> got - want >= 27090 || want - got >= 27090
  {
    QuotTruncates(got - want, 90);
  }

  /** What a seek to want may answer: a packet boundary between the ends, interpolated between
      real samples, and the time found there. */
  ghost predicate SeekResult(file: seq<Byte>, begin: int, offsetBegin: int, offsetEnd: int, want: int,
        offset: int, got: int) {
    && offset % 188 == 0 && offsetBegin <= offset <= offsetEnd
    && OnSegment(file, begin, want, offset)
    && got >= 0 && (got == want || LandsAt(file, begin, offset, got))
  }

  /** What the time that a seek reports is: the one found at the offset, or, when no stamp is in
      reach of it, the one asked for. */
  ghost predicate Answer(file: seq<Byte>, begin: int, want: int, offset: int, got: int) {
    LandsAt(file, begin, offset, got) || (got == want && NoStamp(file, offset, offset + WINDOW))
  }

  lemma {:induction false} Lands(file: seq<Byte>, begin: int, offsetBegin: int, offset: int, off: int, p: int)
    requires Synced(file) && Ordered(file)
    requires FirstStamp(file, 0, offsetBegin) && StampAt(file, offsetBegin) == Stamped(begin)
    requires Align(offset) == offset
    requires FirstStamp(file, Align(offset), off) && p == Unwrap(begin, StampAt(file, off).ticks)
    ensures LandsAt(file, begin, offset, p) && p >= 0
  {
    hide PacketStamp;
    FoundIsTimed(file, begin, offsetBegin, off);
  }

  /** The bracket a seek inside the time line uses. */
  lemma BracketExists(s: Index, length: int, offsetEnd: int, pts: int)
    requires Sorted(s) && Monotone(s) && Anchored(s, length, offsetEnd) && 0 <= pts <= length
    ensures var u := LowerBound(s, pts);
            var l := if u != 0 then u - 1 else u;
            u < |s| && s[l].pts <= pts <= s[u].pts && s[l].off <= s[u].off <= offsetEnd
            && (l < u ==> s[l].pts < s[u].pts)
  {}

  lemma QuotientBelow(a: int, b: int, c: int)
    requires a >= 0 && b > 0 && a < c * b
    ensures a / b < c
  {}

  /** One interpolation between two samples on the packet grid stays between them. */
  lemma {:induction false} SegmentIsInside(l: Sample, u: Sample, pts: int)
    requires l.off % 188 == 0 && 0 <= l.off <= u.off < 0x800_0000_0000 && l.pts <= pts <= u.pts
    requires l.pts < u.pts ==> (u.off - l.off) * 720000 < TWO32 / 2 * (u.pts - l.pts)
    ensures var o := Interpolate(l.off, pts - l.pts, Rate(u.pts - l.pts, u.off - l.off));
            o % 188 == 0 && l.off <= o <= u.off && (l.pts < u.pts ==> NearLine(l, u, pts, o))
  {
    if l.pts < u.pts {
      QuotientBelow((u.off - l.off) * 720000, u.pts - l.pts, TWO32 / 2);
      BetweenIsInside(u.pts - l.pts, l.off, u.off - l.off, pts - l.pts);
    }
  }

  lemma {:induction false} BetweenIsInside(ptsDiff: int, from: int, offDiff: int, ahead: int)
    requires InRange(ptsDiff, from, offDiff) && 0 <= ahead <= ptsDiff && from % 188 == 0
    ensures var o := Interpolate(from, ahead, Rate(ptsDiff, offDiff));
            && o % 188 == 0 && from <= o <= from + offDiff
            && o as real <= Linear(ptsDiff, from, offDiff, ahead) < o as real + ahead as real / 720000.0 + 188.0
  {
    hide Interpolate, Rate, InRange, Linear;
    InterpolationBound(ptsDiff, from, offDiff, ahead);
  }

  function RoundOffset(s: Index, l: int, u: int, pts: int): int
    requires 0 <= l < |s| && 0 <= u < |s|
  {
    Interpolate(s[l].off, pts - s[l].pts, Rate(s[u].pts - s[l].pts, s[u].off - s[l].off))
  }

  /** A packet boundary between the ends, on the line between two real samples, and not below the
      lower entry around the wanted time. */
  ghost predicate Inside(file: seq<Byte>, begin: int, offsetBegin: int, offsetEnd: int, s: Index, want: int, offset: int) {
    && offset % 188 == 0 && offsetBegin <= offset <= offsetEnd && OnSegment(file, begin, want, offset)
    && (0 < LowerBound(s, want) < |s| ==> s[LowerBound(s, want) - 1].off <= offset)
  }

  /** One round of the seek on a faithful index: the bracket exists, its offsets are in order,
      and the interpolated offset lies on the packet grid inside it. */
  lemma {:induction false} RoundIsInside(file: seq<Byte>, begin: int, offsetBegin: int, offsetEnd: int,
        s: Index, length: int, pts: int)
    requires Seekable(file) && Sorted(s) && Genuine(file, begin, s) && Anchored(s, length, offsetEnd)
    requires FirstStamp(file, 0, offsetBegin) && StampAt(file, offsetBegin) == Stamped(begin)
    requires 0 <= pts <= length
    ensures var u := LowerBound(s, pts);
            var l := if u != 0 then u - 1 else u;
            && Monotone(s) && u < |s| && 0 <= offsetBegin <= s[l].off <= RoundOffset(s, l, u, pts) <= s[u].off
            && Inside(file, begin, offsetBegin, offsetEnd, s, pts, RoundOffset(s, l, u, pts))
  {
    hide PacketStamp, StampAt, StampedAt, NoStamp, Synced, RoundOffset, Interpolate, Rate, Sorted, Monotone, Anchored, NearLine,
         RateFits, Ordered, Genuine, Timed;
    GenuineIsMonotone(file, begin, s);
    BracketExists(s, length, offsetEnd, pts);
    var u := LowerBound(s, pts);
    var l := if u != 0 then u - 1 else u;
    IsTimed(file, begin, s, l);
    IsTimed(file, begin, s, u);
    TimedIsBehind(file, begin, offsetBegin, s[l]);
    RateOfPair(file, begin, s[l], s[u]);
    SegmentIsInside(s[l], s[u], pts);
    UnfoldRound(s, l, u, pts);
    assert Between(file, begin, s[l], s[u], pts, RoundOffset(s, l, u, pts));
  }

  lemma IsTimed(file: seq<Byte>, begin: int, s: Index, i: nat)
    requires Genuine(file, begin, s) && i < |s|
    ensures Timed(file, begin, s[i])
  {}

  lemma TimedIsBehind(file: seq<Byte>, begin: int, offsetBegin: int, e: Sample)
    requires Synced(file) && FirstStamp(file, 0, offsetBegin) && Timed(file, begin, e)
    ensures 0 <= offsetBegin <= e.off && e.off % 188 == 0
  {
    hide PacketStamp;
  }

  lemma RateOfPair(file: seq<Byte>, begin: int, a: Sample, b: Sample)
    requires RateFits(file) && Timed(file, begin, a) && Timed(file, begin, b)
    ensures b.off < 0x800_0000_0000
    ensures a.pts < b.pts ==> (b.off - a.off) * 720000 < TWO32 / 2 * (b.pts - a.pts)
  {
    hide PacketStamp;
  }

  lemma UnfoldRound(s: Index, l: int, u: int, pts: int)
    requires 0 <= l < |s| && 0 <= u < |s|
    ensures RoundOffset(s, l, u, pts) == Interpolate(s[l].off, pts - s[l].pts, Rate(s[u].pts - s[l].pts, s[u].off - s[l].off))
  {}

  /** Offsets a 64-bit signed type can hold, with room to spare. */
  ghost predicate Small(s: Index) { forall i :: 0 <= i < |s| ==> 0 <= s[i].off < TWO64 / 4 }

  /** Entering what was found from the interpolated offset on, or nothing, nests the brackets. */
  lemma RoundNests(s: Index, t: Index, pts: int, offset: int, entered: bool, p: int, off: int, slack: nat)
    requires Sorted(s) && Align(offset) == offset
    requires t == if entered then Put(s, p, off) else s
    requires entered ==> Fits(s, p, off) && Align(offset) <= off
    requires var k := LowerBound(s, pts); 0 < k < |s| ==> s[k - 1].off <= offset + slack
    ensures NestedUpTo(s, t, pts, slack)
  {
    hide Put, Fits, Sorted, Align, NestedUpTo;
    if entered {
      BracketsNest(s, p, off, pts, slack);
    } else {
      NestedSelf(s, pts, slack);
    }
  }

  /** What a round on a faithful index ends with: r is the answer of take_sample for the
      interpolated offset, t the index afterwards. */
  lemma {:induction false} RoundResult(file: seq<Byte>, begin: int, offsetBegin: int, offsetEnd: int, s: Index, t: Index,
        pts: int, offset: int, r: int, p: int, off: int)
    requires Synced(file) && Ordered(file) && Sorted(s) && pts >= 0
    requires FirstStamp(file, 0, offsetBegin) && StampAt(file, offsetBegin) == Stamped(begin)
    requires Align(offset) == offset && Inside(file, begin, offsetBegin, offsetEnd, s, pts, offset)
    requires r >= 0 ==> FirstStamp(file, Align(offset), off) && p == Unwrap(begin, StampAt(file, off).ticks)
    requires r < 0 ==> p == pts
    requires r == 0 ==> Fits(s, p, off)
    requires t == if r == 0 then Put(s, p, off) else s
    ensures SeekResult(file, begin, offsetBegin, offsetEnd, pts, offset, p) && p >= 0
    ensures r == 0 ==> LandsAt(file, begin, offset, p)
    ensures r >= 0 || NoStamp(file, Align(offset), Align(offset) + WINDOW) ==> Answer(file, begin, pts, offset, p)
    ensures Nested(s, t, pts)
  {
    hide PacketStamp, StampAt, StampedAt, NoStamp, Unwrap, Align, OnSegment, Put, Fits, LandsAt, NestedUpTo;
    if r >= 0 {
      assert off >= offset;
      Lands(file, begin, offsetBegin, offset, off, p);
    }
    RoundNests(s, t, pts, offset, r == 0, p, off, 0);
  }

  /** ... and on any index in key order, whatever overflows. */
  lemma RoundOnAnyIndex(s: Index, t: Index, l: int, u: int, pts: int, offset: int, entered: bool, p: int, off: int)
    requires Sorted(s) && 0 <= l <= u < |s| && offset == RoundOffset(s, l, u, pts)
    requires 0 < LowerBound(s, pts) < |s| ==> u == LowerBound(s, pts) && l == u - 1
    requires entered ==> Fits(s, p, off) && offset <= off
    requires t == if entered then Put(s, p, off) else s
    ensures KeysNested(s, t, pts)
    ensures Small(s) ==> NestedUpTo(s, t, pts, 187)
  {
    hide Interpolate, Rate, Align, Put, Fits, Sorted, NestedUpTo, KeysNested;
    OnGrid(s[l].off, pts - s[l].pts, Rate(s[u].pts - s[l].pts, s[u].off - s[l].off));
    if entered {
      NestedIff(s, p, off, pts, 187);
    } else {
      NestedSelf(s, pts, 187);
    }
    if Small(s) {
      InterpolateBack(s[l].off, pts - s[l].pts, Rate(s[u].pts - s[l].pts, s[u].off - s[l].off));
      RoundNests(s, t, pts, offset, entered, p, off, 187);
    }
  }

  /** A sample that fits keeps the index faithful and anchored. */
  lemma {:induction false} SampleKeepsIndex(file: seq<Byte>, begin: int, end: int, offsetBegin: int,
        offsetEnd: int, s: Index, p: int, off: int)
    requires Synced(file) && Ordered(file) && Sorted(s) && Genuine(file, begin, s)
    requires Anchored(s, end - begin, offsetEnd) && Fits(s, p, off)
    requires FirstStamp(file, 0, offsetBegin) && StampAt(file, offsetBegin) == Stamped(begin)
    requires StampedAt(file, offsetEnd) && StampAt(file, offsetEnd) == Stamped(end)
    requires Ahead(begin, end) > 0 && 0 <= begin < CLOCK && 0 <= end < CLOCK
    requires exists from :: FirstStamp(file, from, off)
    requires p == Unwrap(begin, StampAt(file, off).ticks)
    ensures Genuine(file, begin, Put(s, p, off)) && Anchored(Put(s, p, off), end - begin, offsetEnd)
  {
    hide PacketStamp, StampAt;
    SampleIsGenuine(file, begin, offsetBegin, s, p, off);
    FoundIsTimed(file, begin, offsetBegin, offsetEnd);
    PutKeepsAnchors(s, p, off, end - begin, offsetEnd);
  }

  lemma PutKeepsAnchors(s: Index, p: int, off: int, length: int, offsetEnd: int)
    requires Sorted(s) && Anchored(s, length, offsetEnd) && Fits(s, p, off) && p >= 0 && length > 0
    ensures Anchored(Put(s, p, off), length, offsetEnd)
  {
    var t := Put(s, p, off);
    var k :| 0 <= k < |s| && s[k].pts == length && s[k].off <= offsetEnd;
    PutIsUpdate(s, p, off);
    PutAt(s, p, off, 0);
    if p == length {
      LowerBoundIs(s, p, k);
      PutAt(s, p, off, k);
    } else {
      assert s[k] in t;
    }
  }

  /** Start plus n steps. */
  ghost function StepsFrom(start: int, step: int, n: nat): int { if n == 0 then start else StepsFrom(start, step, n - 1) + step }

  lemma {:induction false} StepsFromIs(start: int, step: int, n: nat)
    ensures StepsFrom(start, step, n) == start + n * step
  {
    if n > 0 {
      StepsFromIs(start, step, n - 1);
    }
  }

  lemma StepsCover(start: int, step: int, n: nat, end: int)
    requires step > 0 && step * 31 >= end - start
    ensures n >= 31 ==> StepsFrom(start, step, n) >= end
  {
    StepsFromIs(start, step, n);
    if n >= 31 {
      MulMono(31, n, step);
    }
  }

  /** The thirtieth part of the bytes between the ends, or 40 MiB if that is more, cut to whole
      packets. */
  lemma SampleStepIs(range: int)
    ensures var m := if range > 30 * 41943040 then range / 30 else 41943040;
            SampleStep(range) % 188 == 0 && SampleStep(range) <= m < SampleStep(range) + 188
    ensures range < 30 * 41943040 ==> SampleStep(range) == 41942988
  {}

  /** n steps from one end reach the other and n - 1 do not.  Between ends less than 30 times 40 MiB
      apart a step is 41942988 bytes, between others there are 30 or 31 of them. */
  ghost predicate Strided(range: int, step: int, n: nat) {
    && (n > 0 ==> (n - 1) * step < range) && range <= n * step && step % 188 == 0
    && if range < 1258291200 then step == 41942988 else 30 <= n <= 31 && step <= range / 30 < step + 188
  }

  lemma {:induction false} StepsStride(start: int, end: int, n: nat)
    requires n <= 31 && StepsFrom(start, SampleStep(end - start), n) >= end
    requires n > 0 ==> StepsFrom(start, SampleStep(end - start), n - 1) < end
    ensures Strided(end - start, SampleStep(end - start), n)
  {
    hide SampleStep, StepsFrom;
    var step := SampleStep(end - start);
    SampleStepIs(end - start);
    StepsFromIs(start, step, n);
    if n > 0 {
      StepsFromIs(start, step, n - 1);
    }
    if n < 30 {
      MulMono(n, 29, step);
    }
  }

  lemma StepIsEnough(range: int)
    ensures SampleStep(range) > 0 && SampleStep(range) * 31 >= range
  {}

  /** A sample refused by its neighbours has its time in the index already. */
  lemma ConflictHasKey(file: seq<Byte>, begin: int, s: Index, p: int, off: int)
    requires Ordered(file) && Sorted(s) && Genuine(file, begin, s) && Timed(file, begin, Sample(p, off))
    requires !Fits(s, p, off)
    ensures HasKey(s, p)
  {}

  lemma PutHasKeys(s: Index, p: int, off: int, q: int)
    requires HasKey(s, q) || q == p
    ensures HasKey(Put(s, p, off), q)
  {
    var t := Put(s, p, off);
    if q == p {
      PutAt(s, p, off, 0);
      assert t[LowerBound(s, p)].pts == p;
    } else {
      var i :| 0 <= i < |s| && s[i].pts == q;
      PutKeeps(s, p, off, s[i]);
      var j :| 0 <= j < |t| && t[j] == s[i];
    }
  }

  /** Whatever take_sample answers, the position it was called for is sampled afterwards, and
      positions sampled before still are. */
  lemma {:induction false} SampledAfter(file: seq<Byte>, begin: int, offsetBegin: int, s: Index, t: Index,
        r: int, p: int, off: int, from: int)
    requires Synced(file) && Ordered(file) && Sorted(s) && Genuine(file, begin, s)
    requires FirstStamp(file, 0, offsetBegin) && StampAt(file, offsetBegin) == Stamped(begin)
    requires r >= 0 ==> FirstStamp(file, from, off) && p == Unwrap(begin, StampAt(file, off).ticks)
    requires r < 0 ==> NoStamp(file, from, from + WINDOW)
    requires t == if r == 0 then Put(s, p, off) else s
    requires r > 0 ==> !Fits(s, p, off)
    ensures Sampled(file, begin, t, from)
    ensures forall q :: HasKey(s, q) ==> HasKey(t, q)
  {
    hide PacketStamp, Put, Fits, HasKey;
    if r >= 0 {
      FoundIsTimed(file, begin, offsetBegin, off);
      if r > 0 {
        ConflictHasKey(file, begin, s, p, off);
      }
    }
    forall q | HasKey(s, q) || (r == 0 && q == p) ensures HasKey(t, q) {
      if r == 0 {
        PutHasKeys(s, p, off, q);
      }
    }
    forall o | FirstStamp(file, from, o) && o < from + WINDOW ensures HasKey(t, StampAt(file, o).ticks - begin) {
      assert r >= 0 && o == off;
    }
  }

  lemma CompleteAfter(file: seq<Byte>, begin: int, s: Index, t: Index, start: int, step: int, n: nat)
    requires Complete(file, begin, s, start, step, n) && Sampled(file, begin, t, Align(StepsFrom(start, step, n)))
    requires forall q :: HasKey(s, q) ==> HasKey(t, q)
    ensures Complete(file, begin, t, start, step, n) && Complete(file, begin, t, start, step, n + 1)
  {}

  lemma CompleteWithEnds(file: seq<Byte>, begin: int, s: Index, start: int, step: int, n: nat, length: int, end: int)
    ensures Complete(file, begin, s, start, step, n) ==> Complete(file, begin, Put(Put(s, 0, start), length, end), start, step, n)
  {
    hide PacketStamp, StampAt, FirstStamp, Put, HasKey, Align, StepsFrom;
    if !Complete(file, begin, s, start, step, n) {
      return;
    }
    var t := Put(s, 0, start);
    forall q | HasKey(s, q) ensures HasKey(Put(t, length, end), q) {
      PutHasKeys(s, 0, start, q);
      PutHasKeys(t, length, end, q);
    }
    forall k: nat | k < n ensures Sampled(file, begin, Put(t, length, end), Align(StepsFrom(start, step, k))) {
      assert Sampled(file, begin, s, Align(StepsFrom(start, step, k)));
    }
  }

  lemma SampleIsGenuine(file: seq<Byte>, begin: int, offsetBegin: int, s: Index, p: int, off: int)
    requires Synced(file) && Ordered(file) && Sorted(s) && Genuine(file, begin, s)
    requires FirstStamp(file, 0, offsetBegin) && StampAt(file, offsetBegin) == Stamped(begin)
    requires StampedAt(file, off) && p == Unwrap(begin, StampAt(file, off).ticks)
    ensures Genuine(file, begin, Put(s, p, off)) && p >= 0
  {
    hide PacketStamp, StampAt, Put, Sorted, Genuine;
    FoundIsTimed(file, begin, offsetBegin, off);
    PutGenuine(file, begin, s, p, off);
  }

  /** Entering both ends completes the index. */
  lemma {:induction false} IndexComplete(file: seq<Byte>, begin: int, end: int, offsetBegin: int, offsetEnd: int, s: Index)
    requires Synced(file) && Ordered(file) && Sorted(s) && Genuine(file, begin, s)
    requires FirstStamp(file, 0, offsetBegin) && StampAt(file, offsetBegin) == Stamped(begin)
    requires StampedAt(file, offsetEnd) && StampAt(file, offsetEnd) == Stamped(end)
    requires Ahead(begin, end) > 0 && 0 <= begin < CLOCK && 0 <= end < CLOCK
    ensures var t := Put(Put(s, 0, offsetBegin), end - begin, offsetEnd);
            Genuine(file, begin, t) && Anchored(t, end - begin, offsetEnd) && Monotone(t)
  {
    hide PacketStamp;
    var t0 := Put(s, 0, offsetBegin);
    var t := Put(t0, end - begin, offsetEnd);
    FoundIsTimed(file, begin, offsetBegin, offsetEnd);
    PutGenuine(file, begin, s, 0, offsetBegin);
    PutIsUpdate(s, 0, offsetBegin);
    PutGenuine(file, begin, t0, end - begin, offsetEnd);
    PutIsUpdate(t0, end - begin, offsetEnd);
    assert Sample(0, offsetBegin) in t && Sample(end - begin, offsetEnd) in t;
    assert Timed(file, begin, t[0]);
    FoundIsTimed(file, begin, offsetBegin, t[0].off);
    GenuineIsMonotone(file, begin, t);
  }

  /** On a file whose stamps never decrease, an index of real stamps is monotone. */
  lemma GenuineIsMonotone(file: seq<Byte>, begin: int, s: Index)
    requires Ordered(file) && Sorted(s) && Genuine(file, begin, s)
    ensures Monotone(s)
  {}

  lemma PutGenuine(file: seq<Byte>, begin: int, s: Index, p: int, off: int)
    requires Sorted(s) && Genuine(file, begin, s) && Timed(file, begin, Sample(p, off))
    ensures Genuine(file, begin, Put(s, p, off))
  {
    hide PacketStamp, StampAt, StampedAt;
    var t := Put(s, p, off);
    forall i | 0 <= i < |t| ensures Timed(file, begin, t[i]) {
      PutAt(s, p, off, i);
    }
  }

  /** Behind the first stamp of an ordered file, time is the plain difference of the stamps. */
  lemma FoundIsTimed(file: seq<Byte>, begin: int, offsetBegin: int, off: int)
    requires Synced(file) && Ordered(file)
    requires FirstStamp(file, 0, offsetBegin) && StampAt(file, offsetBegin) == Stamped(begin)
    requires StampedAt(file, off)
    ensures Timed(file, begin, Sample(Unwrap(begin, StampAt(file, off).ticks), off))
    ensures off >= offsetBegin && StampAt(file, off).ticks >= begin
  {}

  /** With the recorded length still 0 every probe starts at 0 and finds the first stamp again. */
  lemma ShortFileHit(file: seq<Byte>, probes: nat, offsetBegin: int, offsetEnd: int)
    requires FirstStamp(file, 0, offsetBegin) && probes > 0 && HitIn(file, 0, probes, offsetEnd)
    ensures offsetBegin == offsetEnd
  {
    hide PacketStamp;
  }

  /** Consecutive probe windows that are not cut at the start of the file leave at most one
      packet between them unseen. */
  lemma WindowGap(len: int, j: int)
    requires 1 <= j && (j + 1) * BUDGET <= len
    ensures WindowStart(len, j) - (WindowStart(len, j + 1) + WINDOW) in {0, 188}
  {}
}
