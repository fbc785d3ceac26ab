/** The rounds of get_offset: which entries each one interpolates between, what it does to the
    index, and when the next one follows. */
module SeekRounds {
  import opened TsPacket
  import opened SampleIndex
  import opened SeekMath
  import opened Widths
  import opened TimeLine
  import opened Sampling

  /** The positions of the two entries around a time, or of the last two behind the end. */
  datatype Bracket = Around(l: nat, u: nat) | TooFew

  function BracketOf(s: Index, pts: int): (b: Bracket)
    ensures b.Around? ==> b.l <= b.u < |s|
    ensures 0 < LowerBound(s, pts) < |s| ==> b == Around(LowerBound(s, pts) - 1, LowerBound(s, pts))
  {
    var k := LowerBound(s, pts);
    if k < |s| then Around(if k != 0 then k - 1 else k, k)
    else if k >= 2 then Around(k - 2, k - 1)
    else TooFew
  }

  /** One round that starts from the index s and leaves t: too few entries; entries out of order,
      and the samples taken again; or a look-up at the interpolated offset, which reports the time
      p, found at off, and has entered it or not. */
  datatype Turn =
    | Stuck(s: Index)
    | Cleared(s: Index, t: Index)
    | Tried(s: Index, t: Index, offset: int, p: int, off: int, taken: bool)

  function After(turn: Turn): Index { if turn.Stuck? then turn.s else turn.t }

  /** The round follows from its index: it interpolates between the entries around pts, and enters
      what it finds exactly when that fits. */
  predicate IsTurn(turn: Turn, pts: int) {
    match BracketOf(turn.s, pts)
    case TooFew => turn.Stuck?
    case Around(l, u) =>
      if turn.s[u].off < turn.s[l].off then turn.Cleared?
      else
        && turn.Tried? && turn.offset == RoundOffset(turn.s, l, u, pts)
        && (if turn.taken then Fits(turn.s, turn.p, turn.off) && turn.offset <= turn.off && 0 <= turn.p < CLOCK
            else turn.p == pts || !Fits(turn.s, turn.p, turn.off))
        && turn.t == if turn.taken then Put(turn.s, turn.p, turn.off) else turn.s
  }

  /** Another round is due: the samples were taken again, or the entered one is more than 300 ms off. */
  predicate GoesOn(turn: Turn, pts: int) { turn.Cleared? || (turn.Tried? && turn.taken && Far(pts, turn.p)) }

  function LastIndex(turns: seq<Turn>, s: Index): Index { if |turns| == 0 then s else After(turns[|turns| - 1]) }

  /** Rounds for pts that follow from s one after another. */
  ghost predicate Chain(turns: seq<Turn>, s: Index, pts: int) {
    |turns| > 0 ==>
      var before, last := turns[..|turns| - 1], turns[|turns| - 1];
      && Chain(before, s, pts) && IsTurn(last, pts) && last.s == LastIndex(before, s)
      && (|before| > 0 ==> GoesOn(before[|before| - 1], pts))
  }

  /** A whole seek: it ends with the first round that needs no other, or with the fifth. */
  ghost predicate Rounds(turns: seq<Turn>, s: Index, t: Index, pts: int) {
    && 1 <= |turns| <= 5 && Chain(turns, s, pts) && LastIndex(turns, s) == t
    && (GoesOn(turns[|turns| - 1], pts) ==> |turns| == 5)
  }

  /** A round that a next one follows, in ticks: the samples were taken again, or the time found was
      entered and is 27090 ticks off or more. */
  predicate Refined(turn: Turn, pts: int) {
    turn.Cleared? || (turn.Tried? && turn.taken && !(pts - 27090 < turn.p < pts + 27090))
  }

  /** The rounds go on while that is so, and no longer than for five of them. */
  ghost predicate InTicks(turns: seq<Turn>, pts: int) {
    && |turns| <= 5
    && (forall i :: 0 <= i < |turns| - 1 ==> Refined(turns[i], pts))
    && (0 < |turns| < 5 ==> !Refined(turns[|turns| - 1], pts))
  }

  lemma RefinedInTicks(turn: Turn, pts: int)
    requires -0x2B_0000_0000 < pts < 0x2B_0000_0000 && IsTurn(turn, pts)
    ensures GoesOn(turn, pts) <==> Refined(turn, pts)
  {
    hide Far, RoundOffset, Fits, Put;
    if turn.Tried? && turn.taken {
      FarInTicks(pts, turn.p);
    }
  }

  lemma {:induction false} ChainInTicks(turns: seq<Turn>, s: Index, pts: int)
    requires Chain(turns, s, pts) && -0x2B_0000_0000 < pts < 0x2B_0000_0000
    ensures forall i :: 0 <= i < |turns| - 1 ==> Refined(turns[i], pts)
    ensures |turns| > 0 ==> IsTurn(turns[|turns| - 1], pts)
  {
    hide IsTurn, GoesOn, Refined;
    if |turns| > 1 {
      var before := turns[..|turns| - 1];
      ChainInTicks(before, s, pts);
      RefinedInTicks(before[|before| - 1], pts);
      assert forall i :: 0 <= i < |before| ==> before[i] == turns[i];
    }
  }

  /** When a seek looks again and when it does not: for any time within 22 days of the start. */
  lemma RoundsInTicks(turns: seq<Turn>, s: Index, t: Index, pts: int)
    requires Rounds(turns, s, t, pts) && -0x2B_0000_0000 < pts < 0x2B_0000_0000
    ensures InTicks(turns, pts)
  {
    hide Chain, IsTurn, GoesOn, Refined;
    ChainInTicks(turns, s, pts);
    RefinedInTicks(turns[|turns| - 1], pts);
  }

  /** The offset and time of the last look-up; those before the seek and -1 when there was none. */
  function Answered(turns: seq<Turn>, offset0: int): (int, int) {
    if |turns| == 0 then (offset0, -1)
    else
      var last := turns[|turns| - 1];
      if last.Tried? then (last.offset, last.p) else Answered(turns[..|turns| - 1], offset0)
  }

  /** No round of them has looked up anything, or the last one that has is the i-th. */
  lemma {:induction false} AnsweredIs(turns: seq<Turn>, offset0: int, i: int)
    requires -1 <= i < |turns| && (i >= 0 ==> turns[i].Tried?) && forall j :: i < j < |turns| ==> !turns[j].Tried?
    ensures Answered(turns, offset0) == if i >= 0 then (turns[i].offset, turns[i].p) else (offset0, -1)
  {
    if i < |turns| - 1 {
      AnsweredIs(turns[..|turns| - 1], offset0, i);
    }
  }

  /** Each round starts from what the one before leaves, and follows it only when another one is due. */
  lemma {:induction false} ChainIs(turns: seq<Turn>, s: Index, pts: int)
    ensures Chain(turns, s, pts) <==> forall i :: 0 <= i < |turns| ==> Follows(turns, s, pts, i)
  {
    hide Follows, IsTurn, GoesOn;
    if |turns| > 0 {
      var before := turns[..|turns| - 1];
      ChainIs(before, s, pts);
      forall i | 0 <= i < |before| ensures Follows(turns, s, pts, i) <==> Follows(before, s, pts, i) {
        SameFollows(turns, s, pts, i);
      }
      LastFollows(turns, s, pts);
    }
  }

  ghost predicate Follows(turns: seq<Turn>, s: Index, pts: int, i: nat)
    requires i < |turns|
  {
    && IsTurn(turns[i], pts) && turns[i].s == (if i == 0 then s else After(turns[i - 1]))
    && (i > 0 ==> GoesOn(turns[i - 1], pts))
  }

  lemma SameFollows(turns: seq<Turn>, s: Index, pts: int, i: nat)
    requires i < |turns| - 1
    ensures Follows(turns, s, pts, i) <==> Follows(turns[..|turns| - 1], s, pts, i)
  {
    hide IsTurn, GoesOn, After;
  }

  lemma LastFollows(turns: seq<Turn>, s: Index, pts: int)
    requires |turns| > 0
    ensures Chain(turns, s, pts) <==> Chain(turns[..|turns| - 1], s, pts) && Follows(turns, s, pts, |turns| - 1)
  {
    hide IsTurn, GoesOn, After;
  }

  /** How many scans the rounds may take. */
  function Scans(turns: seq<Turn>): nat {
    if |turns| == 0 then 0
    else Scans(turns[..|turns| - 1]) + match turns[|turns| - 1] case Stuck(_) => 0 case Cleared(_, _) => 93 case _ => 1
  }

  /** On any file the look-up reports what a scan from its offset finds, and enters it exactly when it
      fits; behind a PES header that leaves its packet it may report anything. */
  ghost predicate Seen(file: seq<Byte>, begin: int, pts: int, turn: Turn) {
    turn.Tried? ==>
      match ScanFrom(file, turn.offset, PACKETS)
      case Hit(at, ticks) =>
        turn.off == at && turn.p == Unwrap(begin, ticks) && turn.taken == Fits(turn.s, turn.p, turn.off)
      case Miss(_) => !turn.taken && turn.p == pts
      case Undefined => true
  }

  /** On a synced file that is the first stamp, or there is none in reach. */
  lemma {:induction false} SeenIsFirst(file: seq<Byte>, begin: int, pts: int, turn: Turn)
    requires Synced(file) && turn.Tried? && IsTurn(turn, pts) && Seen(file, begin, pts, turn)
    ensures || (&& FirstStamp(file, turn.offset, turn.off) && turn.p == Unwrap(begin, StampAt(file, turn.off).ticks)
                && turn.taken == Fits(turn.s, turn.p, turn.off))
            || ((turn.offset >= 0 ==> NoStamp(file, turn.offset, turn.offset + WINDOW)) && !turn.taken && turn.p == pts)
  {
    hide StampAt, NoStamp, Unwrap, Fits, ScanFrom, Put;
    TurnOnGrid(turn, pts);
    ScanOutcome(file, turn.offset);
  }

  lemma TurnOnGrid(turn: Turn, pts: int)
    requires turn.Tried? && IsTurn(turn, pts)
    ensures Align(turn.offset) == turn.offset && turn.offset % 188 == 0
  {
    hide Interpolate, Rate, Fits, Put, Align;
    match BracketOf(turn.s, pts)
    case Around(l, u) =>
      OnGrid(turn.s[l].off, pts - turn.s[l].pts, Rate(turn.s[u].pts - turn.s[l].pts, turn.s[u].off - turn.s[l].off));
      AlignFloors(turn.offset);
    case TooFew =>
  }

  ghost predicate AllSeen(file: seq<Byte>, begin: int, pts: int, turns: seq<Turn>) {
    forall i :: 0 <= i < |turns| ==> Seen(file, begin, pts, turns[i])
  }

  /** The round starts from real samples, and need not take them again. */
  ghost predicate RealTurn(file: seq<Byte>, begin: int, turn: Turn) { !turn.Cleared? && Genuine(file, begin, turn.s) }

  ghost predicate AllReal(file: seq<Byte>, begin: int, turns: seq<Turn>) {
    forall i :: 0 <= i < |turns| ==> RealTurn(file, begin, turns[i])
  }

  /** The entries are read from the file, or the two ends; when the samples were taken again, both
      ends are there, and the entries are exactly what take_samples gathers. */
  ghost predicate TrueTurn(file: seq<Byte>, begin: int, end: int, offsetBegin: int, offsetEnd: int, turn: Turn, sure: bool) {
    var first, last := Sample(0, offsetBegin), Sample(end - begin, offsetEnd);
    && RealBut(file, begin, turn.s, first, last) && RealBut(file, begin, After(turn), first, last)
    && (turn.Cleared? ==>
          first in turn.t && last in turn.t
          && (sure && Scannable(file, offsetBegin, offsetEnd) ==>
                FreshIndex(file, begin, end, offsetBegin, offsetEnd, turn.t)))
  }

  ghost predicate AllTrue(file: seq<Byte>, begin: int, end: int, offsetBegin: int, offsetEnd: int, turns: seq<Turn>, sure: bool) {
    forall i :: 0 <= i < |turns| ==> TrueTurn(file, begin, end, offsetBegin, offsetEnd, turns[i], sure)
  }

  /** The round has a valid answer: an offset inside its bracket, and the time found there when it
      was entered, or when the scan was sure to see the file. */
  ghost predicate GoodTurn(file: seq<Byte>, begin: int, offsetBegin: int, offsetEnd: int, pts: int, turn: Turn, sure: bool) {
    && turn.Tried? && turn.p >= 0 && SeekResult(file, begin, offsetBegin, offsetEnd, pts, turn.offset, turn.p)
    && (turn.taken ==> LandsAt(file, begin, turn.offset, turn.p))
    && (sure ==> Answer(file, begin, pts, turn.offset, turn.p))
    && Nested(turn.s, turn.t, pts)
  }

  ghost predicate AllGood(file: seq<Byte>, begin: int, offsetBegin: int, offsetEnd: int, pts: int, turns: seq<Turn>, sure: bool) {
    forall i :: 0 <= i < |turns| ==> GoodTurn(file, begin, offsetBegin, offsetEnd, pts, turns[i], sure)
  }

  lemma ChainOne(turns: seq<Turn>, s: Index, pts: int, turn: Turn)
    requires Chain(turns, s, pts) && IsTurn(turn, pts) && turn.s == LastIndex(turns, s)
    requires |turns| > 0 ==> GoesOn(turns[|turns| - 1], pts)
    ensures Chain(turns + [turn], s, pts) && LastIndex(turns + [turn], s) == After(turn)
    ensures (turns + [turn])[|turns|] == turn && |turns + [turn]| == |turns| + 1
  {
    hide IsTurn, GoesOn;
    assert (turns + [turn])[..|turns|] == turns;
  }

  lemma AnsweredOne(turns: seq<Turn>, offset0: int, turn: Turn)
    ensures Answered(turns + [turn], offset0)
            == if turn.Tried? then (turn.offset, turn.p) else Answered(turns, offset0)
    ensures Scans(turns + [turn]) == Scans(turns) + Scans([turn])
  {
    assert (turns + [turn])[..|turns|] == turns;
  }

  predicate NoneCleared(turns: seq<Turn>) { forall i :: 0 <= i < |turns| ==> !turns[i].Cleared? }

  ghost predicate AllSmall(turns: seq<Turn>) { forall i :: 0 <= i < |turns| ==> Small(turns[i].s) }

  /** One round keeps the brackets of an index in key order nested, whatever its offsets are
      elsewhere and whatever overflows. */
  lemma {:induction false} TurnNests(turn: Turn, pts: int)
    requires Sorted(turn.s) && IsTurn(turn, pts) && !turn.Cleared?
    ensures KeysNested(turn.s, After(turn), pts) && Sorted(After(turn))
    ensures Small(turn.s) ==> NestedUpTo(turn.s, After(turn), pts, 187)
  {
    hide RoundOffset, Put, Fits, Sorted, Small, KeysNested, NestedUpTo;
    match BracketOf(turn.s, pts)
    case TooFew =>
      NestedSelf(turn.s, pts, 187);
      SelfNested(turn.s, pts);
    case Around(l, u) =>
      RoundOnAnyIndex(turn.s, turn.t, l, u, pts, turn.offset, turn.taken, turn.p, turn.off);
      if turn.taken {
        PutSorted(turn.s, turn.p, turn.off);
      }
  }

  lemma SelfNested(s: Index, pts: int)
    ensures KeysNested(s, s, pts)
  {}

  /** Over any number of rounds on any file, while the samples are not taken again, the bracket around
      the time stays inside the first one: its keys and its upper offset exactly, its lower offset up
      to the alignment of each round. */
  lemma {:induction false} RoundsNest(turns: seq<Turn>, s: Index, pts: int)
    requires Chain(turns, s, pts) && Sorted(s) && NoneCleared(turns)
    ensures KeysNested(s, LastIndex(turns, s), pts) && Sorted(LastIndex(turns, s))
    ensures AllSmall(turns) ==> NestedUpTo(s, LastIndex(turns, s), pts, 187 * |turns|)
  {
    hide Sorted, IsTurn, GoesOn, After, Small, KeysNested, NestedUpTo;
    if |turns| == 0 {
      NestedSelf(s, pts, 0);
      SelfNested(s, pts);
    } else {
      var before, last := turns[..|turns| - 1], turns[|turns| - 1];
      RoundsNest(before, s, pts);
      TurnNests(last, pts);
      KeysNestedTrans(s, last.s, After(last), pts);
      if AllSmall(turns) {
        NestedTrans(s, last.s, After(last), pts, 187 * |before|, 187);
      }
    }
  }

  lemma RoundsAlwaysNest(turns: seq<Turn>, s: Index, pts: int)
    requires Chain(turns, s, pts) && Sorted(s)
    ensures NoneCleared(turns) ==>
              KeysNested(s, LastIndex(turns, s), pts)
              && (AllSmall(turns) ==> NestedUpTo(s, LastIndex(turns, s), pts, 187 * |turns|))
  {
    hide Chain, AllSmall, Sorted, NestedUpTo, KeysNested, LastIndex;
    if NoneCleared(turns) {
      RoundsNest(turns, s, pts);
    }
  }

  /** A round whose sample overwrites the lower entry with a smaller offset, the alignment below it. */
  lemma LowerEndMovesOut()
    ensures var s := [Sample(0, 1000), Sample(90000, 5000)];
            var turn := Tried(s, [Sample(0, 940), Sample(90000, 5000)], 940, 0, 940, true);
            IsTurn(turn, 1) && !Nested(s, turn.t, 1) && NestedUpTo(s, turn.t, 1, 60)
  {
    hide Interpolate, Rate, RoundOffset;
    var s := [Sample(0, 1000), Sample(90000, 5000)];
    var t := [Sample(0, 940), Sample(90000, 5000)];
    LowerBoundIs(s, 1, 1);
    LowerBoundIs(t, 1, 1);
    LowerBoundIs(s, 0, 0);
    LowerEndArithmetic();
    UnfoldRound(s, 0, 1, 1);
  }

  lemma LowerEndArithmetic()
    ensures Interpolate(1000, 1, Rate(90000, 4000)) == 940
  {
    assert Rate(90000, 4000) == 32000;
  }

  /** What is known of the rounds so far, as far as the object could be relied on. */
  ghost predicate Told(file: seq<Byte>, begin: int, end: int, offsetBegin: int, offsetEnd: int, pts: int, turns: seq<Turn>,
        s: Index, sure: bool, trusted: bool, genuine: bool, sane: bool)
  {
    && Chain(turns, s, pts) && (sure ==> AllSeen(file, begin, pts, turns))
    && (trusted ==> AllTrue(file, begin, end, offsetBegin, offsetEnd, turns, sure))
    && (genuine ==> AllReal(file, begin, turns))
    && (sane ==> AllGood(file, begin, offsetBegin, offsetEnd, pts, turns, sure))
  }

  lemma NoTurns(file: seq<Byte>, begin: int, end: int, offsetBegin: int, offsetEnd: int, pts: int, s: Index, offset0: int,
        sure: bool, trusted: bool, genuine: bool, sane: bool)
    ensures Told(file, begin, end, offsetBegin, offsetEnd, pts, [], s, sure, trusted, genuine, sane)
    ensures Answered([], offset0) == (offset0, -1) && Scans([]) == 0 && LastIndex([], s) == s
  {}

  lemma ToldMore(file: seq<Byte>, begin: int, end: int, offsetBegin: int, offsetEnd: int, pts: int, turns: seq<Turn>, s: Index,
        turn: Turn, sure: bool, trusted: bool, genuine: bool, sane: bool)
    requires Told(file, begin, end, offsetBegin, offsetEnd, pts, turns, s, sure, trusted, genuine, sane)
    requires IsTurn(turn, pts) && turn.s == LastIndex(turns, s)
    requires |turns| > 0 ==> GoesOn(turns[|turns| - 1], pts)
    requires sure ==> Seen(file, begin, pts, turn)
    requires trusted ==> TrueTurn(file, begin, end, offsetBegin, offsetEnd, turn, sure)
    requires genuine ==> RealTurn(file, begin, turn)
    requires sane ==> GoodTurn(file, begin, offsetBegin, offsetEnd, pts, turn, sure)
    ensures Told(file, begin, end, offsetBegin, offsetEnd, pts, turns + [turn], s, sure, trusted, genuine, sane)
    ensures LastIndex(turns + [turn], s) == After(turn) && (turns + [turn])[|turns|] == turn
  {
    hide IsTurn, GoesOn, Seen, RealTurn, GoodTurn, TrueTurn;
    ChainOne(turns, s, pts, turn);
  }

  lemma ToldAll(file: seq<Byte>, begin: int, end: int, offsetBegin: int, offsetEnd: int, pts: int, turns: seq<Turn>, s: Index,
        sure: bool, trusted: bool, genuine: bool, sane: bool)
    requires Told(file, begin, end, offsetBegin, offsetEnd, pts, turns, s, sure, trusted, genuine, sane) && Sorted(s)
    ensures Chain(turns, s, pts)
    ensures sure ==> AllSeen(file, begin, pts, turns)
    ensures trusted ==> AllTrue(file, begin, end, offsetBegin, offsetEnd, turns, sure)
    ensures genuine ==> AllReal(file, begin, turns)
    ensures sane ==>
              AllGood(file, begin, offsetBegin, offsetEnd, pts, turns, sure) && Nested(s, LastIndex(turns, s), pts)
    ensures NoneCleared(turns) ==>
              KeysNested(s, LastIndex(turns, s), pts)
              && (AllSmall(turns) ==> NestedUpTo(s, LastIndex(turns, s), pts, 187 * |turns|))
  {
    hide Chain, AllSeen, AllTrue, AllReal, AllGood, AllSmall, NoneCleared, Sorted, KeysNested, NestedUpTo;
    RoundsAlwaysNest(turns, s, pts);
    if sane {
      GoodTurnsNest(file, begin, offsetBegin, offsetEnd, pts, turns, s, sure);
    }
  }

  lemma StuckTurn(file: seq<Byte>, begin: int, end: int, offsetBegin: int, offsetEnd: int, s: Index, pts: int, sure: bool)
    requires BracketOf(s, pts) == TooFew
    ensures var turn := Stuck(s);
            && IsTurn(turn, pts) && Seen(file, begin, pts, turn) && Scans([turn]) == 0 && !Refined(turn, pts)
            && (RealBut(file, begin, s, Sample(0, offsetBegin), Sample(end - begin, offsetEnd))
                ==> TrueTurn(file, begin, end, offsetBegin, offsetEnd, turn, sure))
            && (Genuine(file, begin, s) ==> RealTurn(file, begin, turn))
  {
    hide RealBut, Genuine, FreshIndex;
  }

  lemma ClearedTurn(file: seq<Byte>, begin: int, end: int, offsetBegin: int, offsetEnd: int, s: Index, t: Index,
        l: nat, u: nat, pts: int, sure: bool)
    requires BracketOf(s, pts) == Around(l, u) && s[u].off < s[l].off
    ensures var (turn, first, last) := (Cleared(s, t), Sample(0, offsetBegin), Sample(end - begin, offsetEnd));
            && IsTurn(turn, pts) && Seen(file, begin, pts, turn) && Scans([turn]) == 93 && Refined(turn, pts)
            && (first in t && last in t && RealBut(file, begin, s, first, last) && RealBut(file, begin, t, first, last)
                && (sure && Scannable(file, offsetBegin, offsetEnd) ==>
                      FreshIndex(file, begin, end, offsetBegin, offsetEnd, t))
                ==> TrueTurn(file, begin, end, offsetBegin, offsetEnd, turn, sure))
  {
    hide RealBut, FreshIndex, Scannable;
  }

  lemma RealTry(file: seq<Byte>, begin: int, turn: Turn)
    requires turn.Tried?
    ensures (Genuine(file, begin, turn.s) ==> RealTurn(file, begin, turn)) && Scans([turn]) == 1
  {
    hide Genuine;
  }

  /** A time on the time line lies around two entries. */
  lemma TimeIsInside(s: Index, length: int, offsetEnd: int, pts: int)
    requires Sorted(s) && Monotone(s) && Anchored(s, length, offsetEnd) && 0 <= pts <= length
    ensures BracketOf(s, pts).Around?
  {
    BracketExists(s, length, offsetEnd, pts);
  }

  /** The look-up at an offset inside the bracket has a valid answer. */
  lemma TurnIsGood(file: seq<Byte>, begin: int, offsetBegin: int, offsetEnd: int, pts: int, turn: Turn, r: int, sure: bool)
    requires Synced(file) && Ordered(file) && Sorted(turn.s) && pts >= 0 && turn.Tried? && turn.taken == (r == 0)
    requires FirstStamp(file, 0, offsetBegin) && StampAt(file, offsetBegin) == Stamped(begin)
    requires Align(turn.offset) == turn.offset && Inside(file, begin, offsetBegin, offsetEnd, turn.s, pts, turn.offset)
    requires r >= 0 ==> FirstStamp(file, Align(turn.offset), turn.off) && turn.p == Unwrap(begin, StampAt(file, turn.off).ticks)
    requires r < 0 ==> turn.p == pts
    requires sure && r < 0 ==> NoStamp(file, Align(turn.offset), Align(turn.offset) + WINDOW)
    requires r == 0 ==> Fits(turn.s, turn.p, turn.off)
    requires turn.t == if r == 0 then Put(turn.s, turn.p, turn.off) else turn.s
    ensures GoodTurn(file, begin, offsetBegin, offsetEnd, pts, turn, sure)
  {
    hide FirstStamp, StampAt, NoStamp, Fits, Put, Unwrap, Inside, SeekResult, LandsAt, Answer, NestedUpTo, Sorted, Synced, Ordered;
    RoundResult(file, begin, offsetBegin, offsetEnd, turn.s, turn.t, pts, turn.offset, r, turn.p, turn.off);
  }

  lemma GoodAnyway(file: seq<Byte>, begin: int, offsetBegin: int, offsetEnd: int, pts: int, turn: Turn)
    ensures GoodTurn(file, begin, offsetBegin, offsetEnd, pts, turn, true)
            ==> GoodTurn(file, begin, offsetBegin, offsetEnd, pts, turn, false)
  {}

  lemma AllGoodAnyway(file: seq<Byte>, begin: int, offsetBegin: int, offsetEnd: int, pts: int, turns: seq<Turn>)
    ensures AllGood(file, begin, offsetBegin, offsetEnd, pts, turns, true)
            ==> AllGood(file, begin, offsetBegin, offsetEnd, pts, turns, false)
  {
    hide SeekResult, LandsAt, Answer, NestedUpTo;
  }

  lemma TrueAnyway(file: seq<Byte>, begin: int, end: int, offsetBegin: int, offsetEnd: int, turn: Turn)
    ensures TrueTurn(file, begin, end, offsetBegin, offsetEnd, turn, true)
            ==> TrueTurn(file, begin, end, offsetBegin, offsetEnd, turn, false)
  {
    hide RealBut, FreshIndex;
  }

  lemma AllTrueAnyway(file: seq<Byte>, begin: int, end: int, offsetBegin: int, offsetEnd: int, turns: seq<Turn>)
    ensures AllTrue(file, begin, end, offsetBegin, offsetEnd, turns, true)
            ==> AllTrue(file, begin, end, offsetBegin, offsetEnd, turns, false)
  {
    hide RealBut, FreshIndex;
  }

  /** In a file a 64-bit offset can address with room to spare, the offsets of all rounds are small. */
  lemma TrueIsSmall(file: seq<Byte>, begin: int, end: int, offsetBegin: int, offsetEnd: int, turns: seq<Turn>, sure: bool)
    requires AllTrue(file, begin, end, offsetBegin, offsetEnd, turns, sure)
    requires |file| <= TWO64 / 4 && 0 <= offsetBegin < |file| && 0 <= offsetEnd < |file|
    ensures AllSmall(turns)
  {
    hide StampAt, StampedAt, Synced, FreshIndex, Unwrap;
    forall i | 0 <= i < |turns| ensures Small(turns[i].s) {
      assert TrueTurn(file, begin, end, offsetBegin, offsetEnd, turns[i], sure);
    }
  }

  /** On a seekable file the bracket around the time stays inside the first one, offsets included. */
  lemma {:induction false} GoodTurnsNest(file: seq<Byte>, begin: int, offsetBegin: int, offsetEnd: int, pts: int,
        turns: seq<Turn>, s: Index, sure: bool)
    requires Chain(turns, s, pts) && AllGood(file, begin, offsetBegin, offsetEnd, pts, turns, sure)
    ensures Nested(s, LastIndex(turns, s), pts)
  {
    hide SeekResult, LandsAt, Answer, NestedUpTo, IsTurn, GoesOn;
    if |turns| == 0 {
      NestedSelf(s, pts, 0);
    } else {
      var before, last := turns[..|turns| - 1], turns[|turns| - 1];
      GoodTurnsNest(file, begin, offsetBegin, offsetEnd, pts, before, s, sure);
      assert GoodTurn(file, begin, offsetBegin, offsetEnd, pts, last, sure);
      NestedTrans(s, last.s, After(last), pts, 0, 0);
    }
  }

  lemma TriedTurn(turn: Turn, l: nat, u: nat, pts: int)
    requires turn.Tried? && BracketOf(turn.s, pts) == Around(l, u) && turn.s[l].off <= turn.s[u].off
    requires turn.offset == RoundOffset(turn.s, l, u, pts)
    requires if turn.taken then Fits(turn.s, turn.p, turn.off) && turn.offset <= turn.off && 0 <= turn.p < CLOCK
             else turn.p == pts || !Fits(turn.s, turn.p, turn.off)
    requires turn.t == if turn.taken then Put(turn.s, turn.p, turn.off) else turn.s
    ensures IsTurn(turn, pts) && Scans([turn]) == 1
  {
    hide RoundOffset, Fits, Put;
  }

  /** What take_sample answered, r, for the offset of the round. */
  lemma SeenTurn(file: seq<Byte>, begin: int, pts: int, turn: Turn, r: int)
    requires turn.Tried? && turn.taken == (r == 0) && -1 <= r <= 1
    requires r == 0 ==> Fits(turn.s, turn.p, turn.off)
    requires r == 1 ==> !Fits(turn.s, turn.p, turn.off)
    requires r == -1 ==> turn.p == pts
    requires 0 <= begin < CLOCK
    ensures AgreesFixed(ScanFrom(file, turn.offset, PACKETS), begin, if r >= 0 then 0 else -1, turn.off, turn.p)
            ==> Seen(file, begin, pts, turn)
  {
    hide ScanFrom, Fits, Unwrap;
    if AgreesFixed(ScanFrom(file, turn.offset, PACKETS), begin, if r >= 0 then 0 else -1, turn.off, turn.p) {
      FixedIsUnwrapped(file, turn.offset, begin, if r >= 0 then 0 else -1, turn.off, turn.p);
    }
  }

  /** The last round of a seek that is all valid is the one that answers. */
  lemma LastIsGood(file: seq<Byte>, begin: int, offsetBegin: int, offsetEnd: int, pts: int, turns: seq<Turn>,
        s: Index, t: Index, offset0: int, sure: bool)
    requires Rounds(turns, s, t, pts)
    ensures AllGood(file, begin, offsetBegin, offsetEnd, pts, turns, sure) ==>
              var (o, p) := Answered(turns, offset0);
              && SeekResult(file, begin, offsetBegin, offsetEnd, pts, o, p) && p >= 0
              && (sure ==> Answer(file, begin, pts, o, p))
  {
    hide SeekResult, Answer, Chain;
    var last := turns[|turns| - 1];
    assert AllGood(file, begin, offsetBegin, offsetEnd, pts, turns, sure) ==>
             GoodTurn(file, begin, offsetBegin, offsetEnd, pts, last, sure);
  }

  lemma NothingAnswered(file: seq<Byte>, begin: int, end: int, offsetBegin: int, offsetEnd: int, pts: int, offset0: int)
    ensures Answered([], offset0) == (offset0, -1) && Scans([]) == 0
    ensures AllSeen(file, begin, pts, []) && AllReal(file, begin, [])
    ensures forall sure :: AllTrue(file, begin, end, offsetBegin, offsetEnd, [], sure)
  {}

  /** A packet boundary x / 720000 bytes ahead, rounded down, has no whole packet exactly when x is
      what separates the offset from the end of the whole packets, or more. */
  lemma {:induction false} LeavesFile(file: seq<Byte>, from: int, x: int)
    requires from >= 0 && x >= 0
    ensures var o := Align(from + x / 720000);
            !Whole(file, o) <==> x >= 720000 * (|file| - |file| % PACKET_SIZE - from)
  {
    hide Align;
    AlignBelow(from + x / 720000, |file|);
    AlignFloors(from + x / 720000);
  }

  /** The bits per second of the last segment. */
  function LastRate(s: Index): int
    requires |s| >= 2 && s[|s| - 2].pts < s[|s| - 1].pts
  {
    (s[|s| - 1].off - s[|s| - 2].off) * 720000 / (s[|s| - 1].pts - s[|s| - 2].pts)
  }

  /** Bits in ahead ticks at that rate, times the 90000 ticks of a second. */
  function BitsAhead(s: Index, ahead: int): int
    requires |s| >= 2 && s[|s| - 2].pts < s[|s| - 1].pts
  {
    ahead * LastRate(s)
  }

  /** Going on ahead ticks at that rate overflows nothing. */
  ghost predicate FitsAhead(s: Index, ahead: int) {
    && |s| >= 2 && InRange(s[|s| - 1].pts - s[|s| - 2].pts, s[|s| - 2].off, s[|s| - 1].off - s[|s| - 2].off)
    && BitsAhead(s, ahead) < TWO64 && s[|s| - 2].off + BitsAhead(s, ahead) / 720000 < TWO64 / 2
  }

  /** A time behind the last entry: the last segment is continued at its bit rate, and the offset
      leaves the file exactly when the time lies ahead of it by more than the rest of the file takes
      at that rate.  Then nothing is found, and the answer is the wanted time. */
  lemma {:induction false} BehindTheEnd(file: seq<Byte>, begin: int, turn: Turn, pts: int)
    requires LowerBound(turn.s, pts) == |turn.s| >= 2 && IsTurn(turn, pts)
    requires FitsAhead(turn.s, pts - turn.s[|turn.s| - 2].pts)
    ensures var l := turn.s[|turn.s| - 2];
            var bits := BitsAhead(turn.s, pts - l.pts);
            && turn.Tried? && turn.offset == Align(l.off + bits / 720000)
            && (!Whole(file, turn.offset) <==> bits >= 720000 * (|file| - |file| % PACKET_SIZE - l.off))
    ensures !Whole(file, turn.offset) && Seen(file, begin, pts, turn) ==> !turn.taken && turn.p == pts
  {
    hide Align, IsTurn, LowerBound, Whole, Seen, BitsAhead, Interpolate, Rate, LastRate;
    var l := turn.s[|turn.s| - 2];
    SegmentInOrder(turn.s, pts);
    LastOffset(turn, pts);
    AheadIsExact(turn.s, pts - l.pts);
    LeavesFile(file, l.off, BitsAhead(turn.s, pts - l.pts));
    AlignFloors(l.off + BitsAhead(turn.s, pts - l.pts) / 720000);
    Unseen(file, begin, turn, pts);
  }

  /** A time not behind the first entry: its offset is tried, on the packet grid. */
  lemma AtTheStart(turn: Turn, pts: int)
    requires LowerBound(turn.s, pts) == 0 < |turn.s| && IsTurn(turn, pts) && 0 <= turn.s[0].off < TWO64 / 4
    ensures turn.Tried? && turn.offset == turn.s[0].off - turn.s[0].off % 188
  {
    hide Fits, Put, Interpolate;
    var l := turn.s[0];
    assert turn.offset == Interpolate(l.off, pts - l.pts, Rate(0, 0));
    InterpolateModular(l.off, pts - l.pts, 0);
  }

  lemma LastOffset(turn: Turn, pts: int)
    requires |turn.s| >= 2 && IsTurn(turn, pts) && BracketOf(turn.s, pts) == Around(|turn.s| - 2, |turn.s| - 1)
    requires turn.s[|turn.s| - 2].off <= turn.s[|turn.s| - 1].off
    ensures var (l, u) := (turn.s[|turn.s| - 2], turn.s[|turn.s| - 1]);
            turn.Tried? && turn.offset == Interpolate(l.off, pts - l.pts, Rate(u.pts - l.pts, u.off - l.off))
  {
    hide Interpolate, Rate, Fits, Put;
  }

  lemma AheadIsExact(s: Index, ahead: int)
    requires FitsAhead(s, ahead) && ahead >= 0
    ensures var (l, u) := (s[|s| - 2], s[|s| - 1]);
            && 0 <= BitsAhead(s, ahead)
            && Interpolate(l.off, ahead, Rate(u.pts - l.pts, u.off - l.off)) == Align(l.off + BitsAhead(s, ahead) / 720000)
  {
    hide Align, Rate, Interpolate;
    var l, u := s[|s| - 2], s[|s| - 1];
    ExtrapolateExact(u.pts - l.pts, l.off, u.off - l.off, ahead);
    MulMono(0, ahead, LastRate(s));
  }

  /** Nothing can be found from an offset where no whole packet follows. */
  lemma Unseen(file: seq<Byte>, begin: int, turn: Turn, pts: int)
    requires turn.Tried?
    ensures 0 <= turn.offset && !Whole(file, turn.offset) && Seen(file, begin, pts, turn) ==> !turn.taken && turn.p == pts
  {
    hide PacketStamp, Unwrap, Fits;
  }

  lemma SegmentInOrder(s: Index, pts: int)
    requires LowerBound(s, pts) == |s| >= 2 && FitsAhead(s, pts - s[|s| - 2].pts)
    ensures BracketOf(s, pts) == Around(|s| - 2, |s| - 1) && s[|s| - 2].off <= s[|s| - 1].off && 0 <= s[|s| - 2].off
    ensures s[|s| - 2].pts < s[|s| - 1].pts < pts
  {
    hide BitsAhead;
  }
}
