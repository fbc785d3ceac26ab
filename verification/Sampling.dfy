/** What the loop of take_samples gathers, position by position, and when the index it leaves is in
    order. */
module Sampling {
  import opened TsPacket
  import opened SampleIndex
  import opened SeekMath
  import opened TimeLine

  ghost function SampleAt(start: int, step: int, k: nat): int { Align(StepsFrom(start, step, k)) }

  /** The time of a stamped packet after the first stamp. */
  function TimeAt(file: seq<Byte>, begin: int, o: int): int {
    if StampAt(file, o).Stamped? then Unwrap(begin, StampAt(file, o).ticks) else 0
  }

  /** o is what the scan from the k-th position hits. */
  ghost predicate FoundAt(file: seq<Byte>, start: int, step: int, k: nat, o: int) {
    var outcome := ScanFrom(file, SampleAt(start, step, k), PACKETS);
    outcome.Hit? && outcome.at == o
  }

  /** On a synced file that is the first stamp in its reach. */
  lemma FoundIsFirst(file: seq<Byte>, start: int, step: int, k: nat, o: int)
    requires Synced(file) && start >= 0 && step >= 0
    ensures FoundAt(file, start, step, k, o)
            <==> FirstStamp(file, SampleAt(start, step, k), o) && o < SampleAt(start, step, k) + WINDOW
  {
    hide StampAt, StampedAt, NoStamp, FirstStamp, Synced, Align, ScanFrom;
    StepsFromIs(start, step, k);
    MulMono(0, k, step);
    AlignFloors(StepsFrom(start, step, k));
    ScanOutcome(file, SampleAt(start, step, k));
    OneFirst(file, SampleAt(start, step, k), o, ScanFrom(file, SampleAt(start, step, k), PACKETS));
  }

  /** What one scan adds to the index: its hit, if that fits. */
  ghost function With(s: Index, begin: int, outcome: Outcome): Index {
    if outcome.Hit? && Fits(s, Unwrap(begin, outcome.ticks), outcome.at)
    then Put(s, Unwrap(begin, outcome.ticks), outcome.at) else s
  }

  /** The index of any file before the n-th position. */
  ghost function Gather(file: seq<Byte>, begin: int, start: int, step: int, n: nat): Index {
    if n == 0 then []
    else With(Gather(file, begin, start, step, n - 1), begin, ScanFrom(file, SampleAt(start, step, n - 1), PACKETS))
  }

  /** No scan from a position before the end meets a PES header that leaves its packet. */
  ghost predicate LegibleAlong(file: seq<Byte>, start: int, step: int, end: int) {
    forall k: nat :: StepsFrom(start, step, k) < end ==> !ScanFrom(file, SampleAt(start, step, k), PACKETS).Undefined?
  }

  lemma SyncedIsLegible(file: seq<Byte>, start: int, step: int, end: int)
    ensures Synced(file) ==> LegibleAlong(file, start, step, end)
  {
    hide Synced, Align, ScanFrom;
    forall k: nat ensures Synced(file) ==> !ScanFrom(file, SampleAt(start, step, k), PACKETS).Undefined? {
      AlignFloors(StepsFrom(start, step, k));
      ScanOutcome(file, SampleAt(start, step, k));
    }
  }

  /** The entry was found from one of the first n positions. */
  ghost predicate Sourced(file: seq<Byte>, begin: int, start: int, step: int, n: nat, e: Sample) {
    e.pts == TimeAt(file, begin, e.off) && exists k: nat :: k < n && FoundAt(file, start, step, k, e.off)
  }

  ghost predicate AllSourced(file: seq<Byte>, begin: int, start: int, step: int, n: nat, s: Index) {
    forall i :: 0 <= i < |s| ==> Sourced(file, begin, start, step, n, s[i])
  }

  /** The index has an entry at or behind a time. */
  ghost predicate Reaches(s: Index, p: int) { exists i :: 0 <= i < |s| && s[i].pts >= p }

  /** It reaches every time found from the first n positions. */
  ghost predicate AllReached(file: seq<Byte>, begin: int, start: int, step: int, n: nat, s: Index) {
    forall k: nat, o :: k < n && FoundAt(file, start, step, k, o) ==> Reaches(s, TimeAt(file, begin, o))
  }

  /** Offsets rise with time, but for the entry of time 0, and none lies behind a stamp from the
      given offset on. */
  ghost predicate Rising(file: seq<Byte>, s: Index, from: int) {
    && (|s| > 0 ==> s[0].pts == 0)
    && (forall i, j :: 1 <= i < j < |s| ==> s[i].off <= s[j].off)
    && forall i, o :: 0 <= i < |s| && StampedAt(file, o) && o >= from ==> s[i].off <= o
  }

  /** Such a time is not negative, and 0 for the first stamp. */
  lemma TimeIsPositive(file: seq<Byte>, begin: int, o: int)
    requires 0 <= begin < CLOCK
    ensures TimeAt(file, begin, o) >= 0 && (StampAt(file, o) == Stamped(begin) ==> TimeAt(file, begin, o) == 0)
  {
    hide PacketStamp;
    if Whole(file, o) {
      assert StampAt(file, o) == PacketStamp(file[o..o + PACKET_SIZE]);
    }
  }

  lemma PositionsRise(start: int, step: int, k: nat)
    requires step > 0
    ensures SampleAt(start, step, k) <= SampleAt(start, step, k + 1)
  {
    hide Align;
    AlignRises(StepsFrom(start, step, k), StepsFrom(start, step, k + 1));
  }

  /** Entering the first stamp from a position keeps the offsets rising. */
  lemma {:induction false} PutRises(file: seq<Byte>, s: Index, p: int, off: int, from: int)
    requires Sorted(s) && Rising(file, s, from) && Fits(s, p, off) && FirstStamp(file, from, off) && p >= 0
    requires s == [] ==> p == 0
    ensures Rising(file, Put(s, p, off), from)
  {
    hide StampedAt, NoStamp, Put;
    var k, t := LowerBound(s, p), Put(s, p, off);
    forall i | 0 <= i < |t|
      ensures (i == 0 ==> t[i].pts == 0) && t[i].off <= off
      ensures (1 <= i < k ==> t[i] == s[i]) && (k < i && k >= 1 ==> t[i].off == off)
    {
      PutAt(s, p, off, i);
      if k < i && k >= 1 {
        LateEntries(file, s, from, off, k, i - (|t| - |s|));
      }
    }
    forall i, j | 1 <= i < j < |t| ensures t[i].off <= t[j].off {
      PutAt(s, p, off, i);
      PutAt(s, p, off, j);
    }
    forall i, o | 0 <= i < |t| && StampedAt(file, o) && o >= from ensures t[i].off <= o {
      assert off <= o by {
        FirstIsLeast(file, from, off, o);
      }
    }
  }

  lemma LateEntries(file: seq<Byte>, s: Index, from: int, off: int, k: nat, i: int)
    requires Rising(file, s, from) && StampedAt(file, off) && from <= off && 1 <= k <= i < |s| && off <= s[k].off
    ensures s[i].off == off
  {}

  lemma FirstIsLeast(file: seq<Byte>, from: int, off: int, o: int)
    requires FirstStamp(file, from, off) && StampedAt(file, o) && o >= from
    ensures off <= o
  {}

  lemma OnlyOneFirst(file: seq<Byte>, from: int, a: int, b: int)
    requires FirstStamp(file, from, a) && FirstStamp(file, from, b)
    ensures a == b
  {}

  lemma PutReaches(s: Index, p: int, off: int, q: int)
    requires Reaches(s, q) || q == p
    ensures Reaches(Put(s, p, off), q)
  {
    hide Put;
    if q == p {
      PutAt(s, p, off, 0);
      assert Put(s, p, off)[LowerBound(s, p)].pts >= q;
    } else {
      var i :| 0 <= i < |s| && s[i].pts >= q;
      PutHasKeys(s, p, off, s[i].pts);
      var j :| 0 <= j < |Put(s, p, off)| && Put(s, p, off)[j].pts == s[i].pts;
    }
  }

  /** A sample that is refused, or changes nothing, has its time reached already. */
  lemma RefusedOrReached(s: Index, p: int, off: int)
    requires !Fits(s, p, off) || Put(s, p, off) == s
    ensures Reaches(s, p)
  {
    if Fits(s, p, off) {
      hide Put;
      PutAt(s, p, off, 0);
      assert s[LowerBound(s, p)].pts >= p;
    }
  }

  lemma AtFirst(file: seq<Byte>, ob: int, step: int)
    requires Synced(file) && FirstStamp(file, 0, ob) && step >= 0
    ensures SampleAt(ob, step, 0) == ob && FoundAt(file, ob, step, 0, ob) && FirstStamp(file, ob, ob)
  {
    hide ScanFrom, StampAt, FoundAt;
    assert StepsFrom(ob, step, 0) == ob;
    FoundIsFirst(file, ob, step, 0, ob);
  }

  /** A hit is stamped with its time. */
  lemma HitTime(file: seq<Byte>, begin: int, start: int, step: int, k: nat)
    requires 0 <= begin < CLOCK
    ensures var outcome := ScanFrom(file, SampleAt(start, step, k), PACKETS);
            outcome.Hit? ==>
              && FoundAt(file, start, step, k, outcome.at)
              && Unwrap(begin, outcome.ticks) == TimeAt(file, begin, outcome.at) >= 0
  {
    hide ScanFrom, StampAt, SampleAt, Unwrap;
    var outcome := ScanFrom(file, SampleAt(start, step, k), PACKETS);
    HitIsRead(file, SampleAt(start, step, k), PACKETS);
    if outcome.Hit? {
      UnwrapIs(begin, outcome.ticks);
    }
  }

  /** The index of any file is in key order, every entry is what some scan has hit, and it reaches every
      time that was hit. */
  lemma {:induction false} GatherTells(file: seq<Byte>, begin: int, start: int, step: int, n: nat)
    requires 0 <= begin < CLOCK
    ensures var s := Gather(file, begin, start, step, n);
            Sorted(s) && AllSourced(file, begin, start, step, n, s) && AllReached(file, begin, start, step, n, s)
  {
    hide ScanFrom, SampleAt, Put, Fits, Sorted, AllSourced, AllReached, FoundAt, TimeAt, Unwrap;
    if n > 0 {
      GatherTells(file, begin, start, step, n - 1);
      var s := Gather(file, begin, start, step, n - 1);
      var outcome := ScanFrom(file, SampleAt(start, step, n - 1), PACKETS);
      if outcome.Hit? {
        PutSorted(s, Unwrap(begin, outcome.ticks), outcome.at);
      }
      StillSourced(file, begin, start, step, n - 1, s);
      StillReached(file, begin, start, step, n - 1, s);
    } else {
      EmptyGather(file, begin, start, step);
    }
  }

  lemma EmptyGather(file: seq<Byte>, begin: int, start: int, step: int)
    ensures Sorted([]) && AllSourced(file, begin, start, step, 0, []) && AllReached(file, begin, start, step, 0, [])
  {}

  /** On a synced file, sampled from its first stamp on, its offsets rise. */
  lemma {:induction false} GatherRises(file: seq<Byte>, begin: int, ob: int, step: int, n: nat)
    requires Synced(file) && FirstStamp(file, 0, ob) && StampAt(file, ob) == Stamped(begin) && 0 <= begin < CLOCK && step > 0
    ensures var s := Gather(file, begin, ob, step, n);
            Sorted(s) && Rising(file, s, SampleAt(ob, step, n)) && (s == [] ==> n == 0)
  {
    hide ScanFrom, Align, SampleAt, Put, Fits, Sorted, Rising, FoundAt, TimeAt, Unwrap, Synced, StampAt, FirstStamp;
    if n > 0 {
      GatherRises(file, begin, ob, step, n - 1);
      GatherTells(file, begin, ob, step, n);
      RisesOnce(file, begin, ob, step, n - 1, Gather(file, begin, ob, step, n - 1));
    } else {
      EmptyRises(file, SampleAt(ob, step, 0));
    }
  }

  lemma EmptyRises(file: seq<Byte>, from: int)
    ensures Sorted([]) && Rising(file, [], from)
  {}

  lemma {:induction false} RisesOnce(file: seq<Byte>, begin: int, ob: int, step: int, n: nat, s: Index)
    requires Synced(file) && FirstStamp(file, 0, ob) && StampAt(file, ob) == Stamped(begin) && 0 <= begin < CLOCK && step > 0
    requires Sorted(s) && Rising(file, s, SampleAt(ob, step, n)) && (s == [] ==> n == 0)
    ensures var t := With(s, begin, ScanFrom(file, SampleAt(ob, step, n), PACKETS));
            Rising(file, t, SampleAt(ob, step, n + 1)) && t != []
  {
    hide ScanFrom, SampleAt, Put, Fits, Sorted, Rising, Unwrap, Synced, StampAt, FirstStamp;
    var outcome := ScanFrom(file, SampleAt(ob, step, n), PACKETS);
    var t := With(s, begin, outcome);
    HitTime(file, begin, ob, step, n);
    AtFirst(file, ob, step);
    if outcome.Hit? {
      HitIsFirst(file, ob, step, n, outcome.at);
      if s == [] {
        OnlyOneFirst(file, ob, ob, outcome.at);
        TimeIsPositive(file, begin, ob);
        AnythingFits(Unwrap(begin, outcome.ticks), outcome.at);
      }
      if Fits(s, Unwrap(begin, outcome.ticks), outcome.at) {
        PutRises(file, s, Unwrap(begin, outcome.ticks), outcome.at, SampleAt(ob, step, n));
        PutAt(s, Unwrap(begin, outcome.ticks), outcome.at, 0);
      }
    }
    PositionsRise(ob, step, n);
    RisesOn(file, t, SampleAt(ob, step, n), SampleAt(ob, step, n + 1));
  }

  lemma HitIsFirst(file: seq<Byte>, ob: int, step: int, k: nat, o: int)
    requires Synced(file) && FirstStamp(file, 0, ob) && step > 0 && FoundAt(file, ob, step, k, o)
    ensures FirstStamp(file, SampleAt(ob, step, k), o)
  {
    hide ScanFrom, SampleAt, FoundAt, Synced, StampAt;
    FoundIsFirst(file, ob, step, k, o);
  }

  lemma AnythingFits(p: int, off: int)
    ensures Fits([], p, off)
  {}

  lemma RisesOn(file: seq<Byte>, s: Index, from: int, to: int)
    requires Rising(file, s, from) && from <= to
    ensures Rising(file, s, to)
  {
    hide StampedAt;
  }

  lemma StillSourced(file: seq<Byte>, begin: int, start: int, step: int, n: nat, s: Index)
    requires AllSourced(file, begin, start, step, n, s) && 0 <= begin < CLOCK
    ensures AllSourced(file, begin, start, step, n + 1, With(s, begin, ScanFrom(file, SampleAt(start, step, n), PACKETS)))
  {
    hide ScanFrom, SampleAt, Put, Fits, FoundAt, TimeAt, Unwrap;
    var outcome := ScanFrom(file, SampleAt(start, step, n), PACKETS);
    var t := With(s, begin, outcome);
    HitTime(file, begin, start, step, n);
    forall i | 0 <= i < |t| ensures Sourced(file, begin, start, step, n + 1, t[i]) {
      if t != s {
        PutAt(s, Unwrap(begin, outcome.ticks), outcome.at, i);
        assert t[i] == Sample(Unwrap(begin, outcome.ticks), outcome.at) || exists j :: 0 <= j < |s| && t[i] == s[j];
      }
    }
  }

  lemma StillReached(file: seq<Byte>, begin: int, start: int, step: int, n: nat, s: Index)
    requires AllReached(file, begin, start, step, n, s) && 0 <= begin < CLOCK
    ensures AllReached(file, begin, start, step, n + 1, With(s, begin, ScanFrom(file, SampleAt(start, step, n), PACKETS)))
  {
    hide ScanFrom, SampleAt, Put, Fits, TimeAt, Unwrap, Reaches;
    var outcome := ScanFrom(file, SampleAt(start, step, n), PACKETS);
    var t := With(s, begin, outcome);
    HitTime(file, begin, start, step, n);
    forall k: nat, o | k < n + 1 && FoundAt(file, start, step, k, o) ensures Reaches(t, TimeAt(file, begin, o)) {
      if k == n && t == s {
        RefusedOrReached(s, Unwrap(begin, outcome.ticks), outcome.at);
      }
      if t != s {
        PutReaches(s, Unwrap(begin, outcome.ticks), outcome.at, TimeAt(file, begin, o));
      }
    }
  }

  /** All that is known of the index before the n-th position, as far as the scans could be relied on:
      named when they saw the file or nothing, seen when they saw it. */
  ghost predicate SoFar(file: seq<Byte>, begin: int, ob: int, step: int, n: nat, s: Index, named: bool, seen: bool) {
    && (named ==> AllNamed(file, begin, s))
    && (named && Synced(file) && Ordered(file) ==> Genuine(file, begin, s))
    && (seen && Synced(file) && Ordered(file) ==> Complete(file, begin, s, ob, step, n))
    && (seen ==> s == Gather(file, begin, ob, step, n))
  }

  lemma NothingSoFar(file: seq<Byte>, begin: int, ob: int, step: int, named: bool, seen: bool)
    ensures SoFar(file, begin, ob, step, 0, [], named, seen)
  {
    assert Gather(file, begin, ob, step, 0) == [];
  }

  /** What r, the answer of take_sample for the n-th position, says about the sample at off. */
  ghost predicate AnswerOf(file: seq<Byte>, begin: int, from: int, s: Index, t: Index, r: int, p: int, off: int,
        named: bool, seen: bool)
  {
    && (r == 0 ==> Fits(s, p, off)) && (r > 0 ==> !Fits(s, p, off)) && t == (if r == 0 then Put(s, p, off) else s)
    && (named && r >= 0 ==> Named(file, begin, Sample(p, off)))
    && (named && r >= 0 && Synced(file) ==>
          FirstStamp(file, from, off) && off < from + WINDOW && p == Unwrap(begin, StampAt(file, off).ticks))
    && (seen && r < 0 && Synced(file) ==> NoStamp(file, from, from + WINDOW))
    && (seen ==> match ScanFrom(file, from, PACKETS)
                 case Hit(at, ticks) => r >= 0 && off == at && p == Unwrap(begin, ticks)
                 case Miss(_) => r < 0
                 case Undefined => false)
  }

  lemma {:induction false} SoFarMore(file: seq<Byte>, begin: int, ob: int, step: int, n: nat, s: Index, t: Index,
        r: int, p: int, off: int, named: bool, seen: bool)
    requires Sorted(s) && SoFar(file, begin, ob, step, n, s, named, seen) && step > 0 && 0 <= begin < CLOCK
    requires Synced(file) ==> FirstStamp(file, 0, ob) && StampAt(file, ob) == Stamped(begin)
    requires AnswerOf(file, begin, SampleAt(ob, step, n), s, t, r, p, off, named, seen) && (seen ==> named)
    ensures SoFar(file, begin, ob, step, n + 1, t, named, seen)
  {
    hide PacketStamp, StampAt, StampedAt, NoStamp, FirstStamp, Put, Fits, Sorted, Complete, Genuine, Named, Align,
         StepsFrom, Sampled, Synced, Ordered, Unwrap, ScanFrom;
    if named && r == 0 {
      PutNamed(file, begin, s, p, off);
    }
    if named && Synced(file) && Ordered(file) {
      if r == 0 {
        FirstIsStamped(file, SampleAt(ob, step, n), off);
        SampleIsGenuine(file, begin, ob, s, p, off);
      }
      if seen {
        SampledAfter(file, begin, ob, s, t, r, p, off, SampleAt(ob, step, n));
        CompleteAfter(file, begin, s, t, ob, step, n);
      }
    }
    if seen {
      assert Gather(file, begin, ob, step, n + 1) == t;
    }
  }

  lemma FirstIsStamped(file: seq<Byte>, from: int, off: int)
    requires FirstStamp(file, from, off)
    ensures StampedAt(file, off) && StampAt(file, off).Stamped?
  {}

  lemma PutNamed(file: seq<Byte>, begin: int, s: Index, p: int, off: int)
    requires AllNamed(file, begin, s) && Named(file, begin, Sample(p, off))
    ensures AllNamed(file, begin, Put(s, p, off))
  {
    hide Put, Named;
    forall i | 0 <= i < |Put(s, p, off)| ensures Named(file, begin, Put(s, p, off)[i]) {
      PutAt(s, p, off, i);
    }
  }

  /** Entering what was read, or an end, keeps the index one of read entries and ends. */
  lemma PutReal(file: seq<Byte>, begin: int, s: Index, first: Sample, last: Sample, p: int, off: int)
    requires RealBut(file, begin, s, first, last)
    requires Sample(p, off) == first || Sample(p, off) == last || Named(file, begin, Sample(p, off))
    ensures RealBut(file, begin, Put(s, p, off), first, last)
  {
    hide Put, Named;
    forall i | 0 <= i < |Put(s, p, off)|
      ensures var e := Put(s, p, off)[i]; e == first || e == last || Named(file, begin, e)
    {
      PutAt(s, p, off, i);
    }
  }

  /** Both ends entered, the one of time 0 first. */
  lemma EndsEntered(file: seq<Byte>, begin: int, end: int, ob: int, oe: int, s: Index, named: bool)
    requires Sorted(s) && end != begin && (named ==> AllNamed(file, begin, s))
    ensures var t := Put(Put(s, 0, ob), end - begin, oe);
            && Sorted(t) && t != [] && Sample(0, ob) in t && Sample(end - begin, oe) in t
            && (named ==> RealBut(file, begin, t, Sample(0, ob), Sample(end - begin, oe)))
  {
    hide Put, Named, Sorted;
    var u := Put(s, 0, ob);
    PutIsUpdate(s, 0, ob);
    PutIsUpdate(u, end - begin, oe);
    if named {
      PutReal(file, begin, s, Sample(0, ob), Sample(end - begin, oe), 0, ob);
      PutReal(file, begin, u, Sample(0, ob), Sample(end - begin, oe), end - begin, oe);
    }
  }

  // ----- the finished index

  /** No time found from the first n positions is later than the end. */
  ghost predicate NoneLate(file: seq<Byte>, begin: int, start: int, step: int, n: nat, length: int) {
    forall k: nat, o :: k < n && FoundAt(file, start, step, k, o) ==> TimeAt(file, begin, o) <= length
  }

  /** Entering the end behind all offsets keeps the order exactly when no entry is later, as long as
      a later entry lies before it. */
  lemma {:induction false} EndInOrder(t: Index, d: int, oe: int)
    requires Sorted(t) && Monotone(t) && |t| > 0 && t[0].off < oe
    requires forall i :: 0 <= i < |t| ==> t[i].off <= oe && (t[i].pts > d && d > 0 ==> t[i].off < oe)
    requires t[0].pts == 0 && d != 0
    ensures Monotone(Put(t, d, oe)) <==> forall i :: 0 <= i < |t| ==> t[i].pts <= d
  {
    hide Put;
    var k, u := LowerBound(t, d), Put(t, d, oe);
    var last := |t| - 1;
    if t[last].pts > d {
      PutAt(t, d, oe, k + 1);
      assert u[k].off == oe && k + 1 < |u| && u[k + 1].off < oe;
    } else {
      forall i, j | 0 <= i < j < |u| ensures u[i].off <= u[j].off {
        PutAt(t, d, oe, i);
        PutAt(t, d, oe, j);
      }
    }
  }

  /** The first entry of the index takes the place of the first key. */
  lemma FirstEntry(file: seq<Byte>, s: Index, ob: int, from: int)
    requires Sorted(s) && Rising(file, s, from) && |s| > 0
    requires forall i :: 0 <= i < |s| ==> ob <= s[i].off
    ensures var t := Put(s, 0, ob);
            && t == s[0 := Sample(0, ob)] && Sorted(t) && Monotone(t)
  {
    hide StampedAt;
    LowerBoundIs(s, 0, 0);
  }

  /** An entry found from a position before the end lies in between. */
  lemma {:induction false} SourcedIsInside(file: seq<Byte>, begin: int, ob: int, oe: int, step: int, n: nat, e: Sample)
    requires Synced(file) && Sourced(file, begin, ob, step, n, e) && step > 0 && FirstStamp(file, 0, ob) && StampedAt(file, oe)
    requires n > 0 && StepsFrom(ob, step, n - 1) < oe
    ensures ob <= e.off <= oe
  {
    hide StampAt, StampedAt, NoStamp, TimeAt, Align, FoundAt, ScanFrom, Synced;
    var k: nat :| k < n && FoundAt(file, ob, step, k, e.off);
    StartIsPositive(file, ob);
    FoundIsFirst(file, ob, step, k, e.off);
    StepsFromIs(ob, step, k);
    StepsFromIs(ob, step, n - 1);
    MulMono(k, n - 1, step);
    MulMono(0, k, step);
    AlignFloors(StepsFrom(ob, step, k));
    FirstIsLeast(file, SampleAt(ob, step, k), e.off, oe);
    FirstIsStamped(file, SampleAt(ob, step, k), e.off);
    FirstIsLeast(file, 0, ob, e.off);
  }

  lemma StartIsPositive(file: seq<Byte>, ob: int)
    requires FirstStamp(file, 0, ob)
    ensures ob >= 0
  {}

  lemma EndIsOnTime(begin: int, end: int)
    requires 0 <= begin < CLOCK && 0 <= end < CLOCK
    ensures end >= begin ==> Unwrap(begin, end) == end - begin
  {}

  /** On any synced file, its clock in order or not, the index with both ends is in order exactly when
      no sampled time is later than that of the end. */
  lemma {:induction false} IndexInOrder(file: seq<Byte>, begin: int, end: int, ob: int, oe: int, step: int, n: nat)
    requires Synced(file) && FirstStamp(file, 0, ob) && StampAt(file, ob) == Stamped(begin) && step > 0
    requires StampedAt(file, oe) && StampAt(file, oe) == Stamped(end) && ob < oe
    requires begin != end && 0 <= begin < CLOCK && 0 <= end < CLOCK
    requires n > 0 && StepsFrom(ob, step, n - 1) < oe
    ensures Monotone(Put(Put(Gather(file, begin, ob, step, n), 0, ob), end - begin, oe))
            <==> NoneLate(file, begin, ob, step, n, end - begin)
  {
    hide Synced, StampAt, StampedAt, FirstStamp, Gather, NoneLate, StepsFrom, Put, Sorted, Monotone, SampleAt, Rising,
         AllSourced, AllReached;
    var s := Gather(file, begin, ob, step, n);
    var d, t := end - begin, Put(s, 0, ob);
    EntriesInside(file, begin, end, ob, oe, step, n);
    FirstEntry(file, s, ob, SampleAt(ob, step, n));
    LateEntryOrNone(file, begin, ob, step, n, s, d);
    FirstKept(s, ob, oe, d);
  }

  /** The same index, with the first entry replaced and the end entered. */
  lemma FirstKept(s: Index, ob: int, oe: int, d: int)
    requires |s| > 0 && s[0].pts == 0 && ob < oe && d != 0
    requires forall i :: 0 <= i < |s| ==> s[i].off <= oe && (s[i].off == oe && d > 0 ==> s[i].pts == d)
    requires var t := s[0 := Sample(0, ob)]; Sorted(t) && Monotone(t)
    ensures Monotone(Put(s[0 := Sample(0, ob)], d, oe)) <==> 0 <= d && forall i :: 1 <= i < |s| ==> s[i].pts <= d
  {
    hide Put, Sorted, Monotone;
    EndInOrder(s[0 := Sample(0, ob)], d, oe);
    assert forall i :: 1 <= i < |s| ==> s[0 := Sample(0, ob)][i] == s[i];
  }

  lemma {:induction false} EntriesInside(file: seq<Byte>, begin: int, end: int, ob: int, oe: int, step: int, n: nat)
    requires Synced(file) && FirstStamp(file, 0, ob) && StampAt(file, ob) == Stamped(begin) && step > 0
    requires StampedAt(file, oe) && StampAt(file, oe) == Stamped(end) && 0 <= begin < CLOCK && 0 <= end < CLOCK
    requires n > 0 && StepsFrom(ob, step, n - 1) < oe
    ensures var s := Gather(file, begin, ob, step, n);
            && Sorted(s) && Rising(file, s, SampleAt(ob, step, n)) && |s| > 0 && s[0].pts == 0
            && AllSourced(file, begin, ob, step, n, s) && AllReached(file, begin, ob, step, n, s)
            && forall i :: 0 <= i < |s| ==>
                 ob <= s[i].off <= oe && (s[i].off == oe && end - begin > 0 ==> s[i].pts == end - begin)
  {
    hide Synced, PacketStamp, StampAt, SampleAt, FirstStamp, StepsFrom, Gather, Sorted, FoundAt;
    var s := Gather(file, begin, ob, step, n);
    GatherRises(file, begin, ob, step, n);
    GatherTells(file, begin, ob, step, n);
    forall i | 0 <= i < |s| ensures ob <= s[i].off <= oe && (s[i].off == oe && end - begin > 0 ==> s[i].pts == end - begin) {
      SourcedIsInside(file, begin, ob, oe, step, n, s[i]);
      EndIsOnTime(begin, end);
    }
  }

  /** The entries behind the first one are late exactly when some found time is. */
  lemma LateEntryOrNone(file: seq<Byte>, begin: int, ob: int, step: int, n: nat, s: Index, d: int)
    requires AllSourced(file, begin, ob, step, n, s) && AllReached(file, begin, ob, step, n, s)
    requires |s| > 0 && s[0].pts == 0 && n > 0 && Synced(file) && step > 0
    requires FirstStamp(file, 0, ob) && StampAt(file, ob) == Stamped(begin) && 0 <= begin < CLOCK
    ensures NoneLate(file, begin, ob, step, n, d) <==> 0 <= d && forall i :: 1 <= i < |s| ==> s[i].pts <= d
  {
    hide Synced, StampAt, FirstStamp, FoundAt, SampleAt, TimeAt, Sourced, Reaches;
    AtFirst(file, ob, step);
    TimeIsPositive(file, begin, ob);
    if NoneLate(file, begin, ob, step, n, d) {
      assert FoundAt(file, ob, step, 0, ob);
      forall i | 1 <= i < |s| ensures s[i].pts <= d {
        assert Sourced(file, begin, ob, step, n, s[i]);
        SourcedIsOnTime(file, begin, ob, step, n, s[i], d);
      }
    } else {
      var k: nat, o :| k < n && FoundAt(file, ob, step, k, o) && TimeAt(file, begin, o) > d;
      LaterEntry(s, TimeAt(file, begin, o));
    }
  }

  lemma SourcedIsOnTime(file: seq<Byte>, begin: int, ob: int, step: int, n: nat, e: Sample, d: int)
    requires Sourced(file, begin, ob, step, n, e) && NoneLate(file, begin, ob, step, n, d)
    ensures e.pts <= d
  {
    hide StampAt, StampedAt, FoundAt, TimeAt;
  }

  lemma LaterEntry(s: Index, p: int)
    requires Reaches(s, p)
    ensures exists i :: 0 <= i < |s| && s[i].pts >= p
  {}

  /** No scan of take_samples between the two ends meets a PES header that leaves its packet. */
  ghost predicate Scannable(file: seq<Byte>, ob: int, oe: int) { LegibleAlong(file, ob, SampleStep(oe - ob), oe) }

  lemma SyncedIsScannable(file: seq<Byte>, ob: int, oe: int)
    ensures Synced(file) ==> Scannable(file, ob, oe)
  {
    hide LegibleAlong, Synced;
    SyncedIsLegible(file, ob, SampleStep(oe - ob), oe);
  }

  /** s is what take_samples leaves when every scan saw the file: what n positions gather, as many as
      there are before the end, and both ends. */
  ghost predicate FreshIndex(file: seq<Byte>, begin: int, end: int, ob: int, oe: int, s: Index) {
    exists n: nat :: TakenAt(file, begin, end, ob, oe, s, n)
  }

  ghost predicate TakenAt(file: seq<Byte>, begin: int, end: int, ob: int, oe: int, s: Index, n: nat) {
    var step := SampleStep(oe - ob);
    && (n > 0 ==> StepsFrom(ob, step, n - 1) < oe) && oe <= StepsFrom(ob, step, n)
    && s == Put(Put(Gather(file, begin, ob, step, n), 0, ob), end - begin, oe)
  }

  /** No sampling position before the end leads to a time later than that of the end. */
  ghost predicate OnTime(file: seq<Byte>, begin: int, end: int, ob: int, oe: int) {
    var step := SampleStep(oe - ob);
    forall k: nat, o :: FoundAt(file, ob, step, k, o) && StepsFrom(ob, step, k) < oe ==> TimeAt(file, begin, o) <= end - begin
  }

  lemma StepsBefore(ob: int, oe: int, step: int, n: nat, k: nat)
    requires step > 0 && n > 0 && StepsFrom(ob, step, n - 1) < oe <= StepsFrom(ob, step, n)
    ensures k < n <==> StepsFrom(ob, step, k) < oe
  {
    StepsFromIs(ob, step, n - 1);
    StepsFromIs(ob, step, n);
    StepsFromIs(ob, step, k);
    if k < n {
      MulMono(k, n - 1, step);
    } else {
      MulMono(n, k, step);
    }
  }

  /** On any synced file, its clock in order or not, the index that take_samples leaves is in order
      exactly when no sampled time is later than that of the end. */
  lemma {:induction false} FreshIndexInOrder(file: seq<Byte>, begin: int, end: int, ob: int, oe: int, s: Index)
    requires FreshIndex(file, begin, end, ob, oe, s) && Synced(file)
    requires FirstStamp(file, 0, ob) && StampAt(file, ob) == Stamped(begin)
    requires StampedAt(file, oe) && StampAt(file, oe) == Stamped(end) && ob < oe
    requires begin != end && 0 <= begin < CLOCK && 0 <= end < CLOCK
    ensures Monotone(s) <==> OnTime(file, begin, end, ob, oe)
  {
    hide Synced, FirstStamp, StampAt, StampedAt, FoundAt, TimeAt, Monotone, Sorted, Put, StepsFrom, SampleStep, Gather;
    var step := SampleStep(oe - ob);
    StepIsEnough(oe - ob);
    var n: nat :| TakenAt(file, begin, end, ob, oe, s, n);
    FirstPosition(ob, step);
    IndexInOrder(file, begin, end, ob, oe, step, n);
    forall k: nat ensures k < n <==> StepsFrom(ob, step, k) < oe {
      StepsBefore(ob, oe, step, n, k);
    }
  }

  lemma FirstPosition(start: int, step: int)
    ensures StepsFrom(start, step, 0) == start
  {}
}
