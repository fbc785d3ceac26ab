/** The arithmetic of get_offset: one interpolation step and the bit rate behind it, with the
    widths the C++ types have. */
module SeekMath {
  import opened Widths

  /** offset - offset % 188, where the remainder has the sign of offset. */
  function Align(o: int): int { if o >= 0 then o - o % 188 else o + (-o) % 188 }

  lemma AlignFloors(o: int)
    ensures Align(o) % 188 == 0
    ensures o >= 0 ==> 0 <= Align(o) <= o < Align(o) + 188
    ensures o < 0 ==> o <= Align(o) <= 0 && Align(o) < o + 188
  {}

  lemma AlignRises(x: int, y: int)
    requires x <= y
    ensures Align(x) <= Align(y)
  {
    hide Align;
    AlignFloors(x);
    AlignFloors(y);
    Multiples(Align(x), Align(y));
  }

  lemma Multiples(a: int, b: int)
    requires a % 188 == 0 && b % 188 == 0 && a < b + 188
    ensures a <= b
  {}

  /** Bits per second of a segment, cut to an int. */
  function Rate(ptsDiff: int, offDiff: int): int {
    if ptsDiff != 0 then Int32(Quot(Int64(offDiff * 720000), ptsDiff)) else 0
  }

  /** Bits per second over a whole file, as an unsigned 64-bit number. */
  function AverageRate(bytes: int, ticks: int): int
    requires ticks != 0
  {
    UInt64(Quot(Int64(bytes * 720000), ticks))
  }

  /** A bit rate between 10 kbit/s and 100 Mbit/s. */
  predicate Plausible(rate: int) { 10000 <= rate <= 100000000 }

  /** The byte offset get_offset tries for a point ahead ticks into a segment that starts at from. */
  function Interpolate(from: int, ahead: int, rate: int): int {
    Align(Int64(from + UInt64(ahead * rate) / 8 / 90000))
  }

  lemma AlignOfMultiple(o: int)
    requires o % 188 == 0
    ensures Align(o) == o
  {}

  lemma OnGrid(from: int, ahead: int, rate: int)
    ensures Align(Interpolate(from, ahead, rate)) == Interpolate(from, ahead, rate)
  {
    hide Int64, UInt64, Align;
    AlignFloors(Int64(from + UInt64(ahead * rate) / 8 / 90000));
    AlignOfMultiple(Interpolate(from, ahead, rate));
  }

  lemma {:induction false} MulBound(a: int, b: int, q: int)
    requires 0 <= a && b > 0 && q == a / b
    ensures q * b <= a < q * b + b
  {}

  lemma MulMono(x: int, y: int, z: int)
    requires x <= y && z >= 0
    ensures x * z <= y * z
  {}

  /** No step of the segment arithmetic overflows. */
  ghost predicate InRange(ptsDiff: int, from: int, offDiff: int) {
    && 0 < ptsDiff && 0 <= from && 0 <= offDiff
    && offDiff * 720000 < TWO64 / 2 && offDiff * 720000 / ptsDiff < TWO32 / 2
    && from + offDiff < TWO64 / 2
  }

  lemma RateExact(ptsDiff: int, offDiff: int)
    requires InRange(ptsDiff, 0, offDiff)
    ensures Rate(ptsDiff, offDiff) == offDiff * 720000 / ptsDiff >= 0
  {}

  /** Without overflow the average is eight bits a byte over 90000 ticks a second, rounded down. */
  lemma AverageRateExact(bytes: int, ticks: int)
    requires 0 <= bytes && bytes * 720000 < TWO64 / 2 && ticks > 0
    ensures AverageRate(bytes, ticks) == bytes * 720000 / ticks
  {
    QuotientExact(bytes * 720000, ticks);
  }

  lemma QuotientExact(x: int, ticks: int)
    requires 0 <= x < TWO64 / 2 && ticks > 0
    ensures UInt64(Quot(Int64(x), ticks)) == x / ticks
  {
    hide Int64, UInt64;
    SmallStays(x);
    MulBound(x, ticks, x / ticks);
    QuotientSmall(x, ticks);
    SmallStays(x / ticks);
  }

  lemma QuotientSmall(x: int, ticks: int)
    requires 0 <= x && ticks > 0
    ensures 0 <= x / ticks <= x
  {
    var q := x / ticks;
    MulBound(x, ticks, q);
    if q < 0 {
      MulMono(q + 1, 0, ticks);
    } else {
      MulMono(1, ticks, q);
    }
  }

  lemma SmallStays(x: int)
    requires 0 <= x < TWO64 / 2
    ensures Int64(x) == x && UInt64(x) == x
  {}

  lemma AdvanceExact(from: int, x: int, offDiff: int)
    requires 0 <= x <= offDiff * 720000 < TWO64 / 2 && 0 <= from && from + offDiff < TWO64 / 2
    ensures 0 <= x / 720000 <= offDiff
    ensures Align(Int64(from + UInt64(x) / 8 / 90000)) == Align(from + x / 720000)
  {}

  lemma RateTimesAhead(ptsDiff: int, offDiff: int, ahead: int)
    requires 0 < ptsDiff && 0 <= offDiff && 0 <= ahead <= ptsDiff
    ensures 0 <= ahead * (offDiff * 720000 / ptsDiff) <= offDiff * 720000
  {
    var bits := offDiff * 720000;
    var rate := bits / ptsDiff;
    MulBound(bits, ptsDiff, rate);
    MulMono(ahead, ptsDiff, rate);
    MulMono(0, ahead, rate);
  }

  /** Without overflow the advance is a plain floor of ticks times rate. */
  lemma {:induction false} InterpolateExact(ptsDiff: int, from: int, offDiff: int, ahead: int)
    requires InRange(ptsDiff, from, offDiff) && 0 <= ahead <= ptsDiff
    ensures var rate := Rate(ptsDiff, offDiff);
            && rate == offDiff * 720000 / ptsDiff
            && 0 <= ahead * rate / 720000 <= offDiff
            && Interpolate(from, ahead, rate) == Align(from + ahead * rate / 720000)
  {
    hide Align, Int64, UInt64, Rate;
    RateExact(ptsDiff, offDiff);
    RateTimesAhead(ptsDiff, offDiff, ahead);
    AdvanceExact(from, ahead * (offDiff * 720000 / ptsDiff), offDiff);
  }

  /** ... also beyond the segment, as long as the product and the sum fit. */
  lemma {:induction false} ExtrapolateExact(ptsDiff: int, from: int, offDiff: int, ahead: int)
    requires InRange(ptsDiff, from, offDiff) && ahead >= 0
    requires var rate := offDiff * 720000 / ptsDiff;
             ahead * rate < TWO64 && from + ahead * rate / 720000 < TWO64 / 2
    ensures var rate := offDiff * 720000 / ptsDiff;
            && Rate(ptsDiff, offDiff) == rate >= 0
            && Interpolate(from, ahead, rate) == Align(from + ahead * rate / 720000)
  {
    hide Align, Rate;
    RateExact(ptsDiff, offDiff);
    var rate := offDiff * 720000 / ptsDiff;
    MulMono(0, ahead, rate);
    StepByStep(from, ahead * rate);
  }

  lemma StepByStep(from: int, x: int)
    requires 0 <= x < TWO64 && 0 <= from && from + x / 720000 < TWO64 / 2
    ensures Int64(from + UInt64(x) / 8 / 90000) == from + x / 720000
  {}

  /** A rounded-down offset is that of a whole packet exactly when the offset is below the end of
      the whole packets. */
  lemma AlignBelow(o: int, size: nat)
    requires o >= 0
    ensures Align(o) + 188 <= size <==> o < size - size % 188
  {}

  /** Whatever overflows, an offset below 2^62 is not left backwards by more than the alignment. */
  lemma InterpolateBack(from: int, ahead: int, rate: int)
    requires 0 <= from < TWO64 / 4
    ensures from - 187 <= Interpolate(from, ahead, rate)
  {
    hide Align;
    AdvanceFits(from, ahead * rate);
    AlignFloors(from + UInt64(ahead * rate) / 8 / 90000);
  }

  lemma AdvanceFits(from: int, x: int)
    requires 0 <= from < TWO64 / 4
    ensures UInt64(x) / 8 / 90000 >= 0 && Int64(from + UInt64(x) / 8 / 90000) == from + UInt64(x) / 8 / 90000
  {}

  /** Whatever overflows: the product is taken modulo 2^64. */
  lemma InterpolateModular(from: int, ahead: int, rate: int)
    requires 0 <= from < TWO64 / 4
    ensures Interpolate(from, ahead, rate) == Align(from + ahead * rate % 0x1_0000_0000_0000_0000 / 720000)
  {
    hide Align, Int64, UInt64;
    AdvanceFits(from, ahead * rate);
    AdvanceModular(ahead * rate);
  }

  lemma AdvanceModular(x: int)
    ensures UInt64(x) / 8 / 90000 == x % 0x1_0000_0000_0000_0000 / 720000
  {}

  /** ... and the rate modulo 2^32 into an int. */
  lemma RateModular(ptsDiff: int, offDiff: int)
    requires 0 < ptsDiff && 0 <= offDiff && offDiff * 720000 < TWO64 / 2
    ensures (offDiff * 720000 / ptsDiff - Rate(ptsDiff, offDiff)) % 0x1_0000_0000 == 0
    ensures -0x8000_0000 <= Rate(ptsDiff, offDiff) < 0x8000_0000 && Rate(0, offDiff) == 0
  {
    hide Int32, Int64;
    SmallStays(offDiff * 720000);
    ConversionsAreModular(offDiff * 720000 / ptsDiff);
  }

  /** The offset get_offset falls back on when its rounds find no time. */
  function Fallback(pts: int, rate: int): int { Align(Int64(UInt64(pts * rate) / 8 / 90000)) }

  /** Without a bit rate, -1, that lies behind any file below 2^44 bytes, for any positive time. */
  lemma FallbackWithoutRate(pts: int)
    requires 0 < pts < TWO64 / 4
    ensures Fallback(pts, -1) == Align((TWO64 - pts) / 720000) >= 0x1000_0000_0000
  {}

  /** With a rate and without overflow it is the floor of ticks times rate over 720000, on the packet
      grid. */
  lemma FallbackExact(pts: int, rate: int)
    requires 0 <= pts && 0 <= rate && pts * rate < 0x1_0000_0000_0000_0000
    ensures var o := Fallback(pts, rate);
            o % 188 == 0 && 0 <= o <= pts * rate / 720000 < o + 188
  {
    hide Align;
    MulMono(0, pts, rate);
    StepByStep(0, pts * rate);
    AlignFloors(pts * rate / 720000);
  }

  /** The linear interpolation get_offset approximates. */
  ghost function Linear(ptsDiff: int, from: int, offDiff: int, ahead: int): real
    requires ptsDiff > 0
  {
    from as real + ahead as real * offDiff as real / ptsDiff as real
  }

  lemma GapBelow(ptsDiff: int, bits: int, ahead: int, rate: int, adv: int)
    requires 0 < ptsDiff && 0 <= ahead && rate * ptsDiff <= bits && adv * 720000 <= ahead * rate
    ensures adv * 720000 * ptsDiff <= ahead * bits
  {}

  lemma {:induction false} GapAbove(ptsDiff: int, bits: int, ahead: int, rate: int, adv: int)
    requires 0 < ptsDiff && 0 <= ahead && bits <= rate * ptsDiff + ptsDiff && ahead * rate <= adv * 720000 + 719999
    ensures ahead * bits <= (adv * 720000 + 719999 + ahead) * ptsDiff
  {
    MulMono(ahead * rate, adv * 720000 + 719999, ptsDiff);
    MulMono(bits, rate * ptsDiff + ptsDiff, ahead);
    assert (rate * ptsDiff + ptsDiff) * ahead == (ahead * rate) * ptsDiff + ahead * ptsDiff;
  }

  lemma {:induction false} LinearGap(ptsDiff: int, offDiff: int, ahead: int, rate: int, adv: int)
    requires 0 < ptsDiff && 0 <= offDiff && 0 <= ahead && 0 <= rate
    requires rate == offDiff * 720000 / ptsDiff && adv == ahead * rate / 720000
    ensures adv * 720000 * ptsDiff <= ahead * (offDiff * 720000) <= (adv * 720000 + 719999 + ahead) * ptsDiff
  {
    var bits := offDiff * 720000;
    MulBound(bits, ptsDiff, rate);
    GapBelow(ptsDiff, bits, ahead, rate, adv);
    GapAbove(ptsDiff, bits, ahead, rate, adv);
  }

  lemma RealQuotient(a: int, b: int, lo: int, hi: int)
    requires b > 0 && lo * b <= a <= hi * b
    ensures lo as real <= a as real / b as real <= hi as real
  {}

  lemma ScaledQuotient(a: int, c: int, b: int)
    requires b > 0
    ensures (a * (c * 720000)) as real / b as real == (a as real * c as real / b as real) * 720000.0
  {}

  lemma LinearGapReal(ptsDiff: int, offDiff: int, ahead: int, rate: int, adv: int)
    requires 0 < ptsDiff && 0 <= offDiff && 0 <= ahead && 0 <= rate
    requires rate == offDiff * 720000 / ptsDiff && adv == ahead * rate / 720000
    ensures var exact := ahead as real * offDiff as real / ptsDiff as real;
            adv as real <= exact < adv as real + 1.0 + ahead as real / 720000.0
  {
    LinearGap(ptsDiff, offDiff, ahead, rate, adv);
    RealQuotient(ahead * (offDiff * 720000), ptsDiff, adv * 720000, adv * 720000 + 719999 + ahead);
    ScaledQuotient(ahead, offDiff, ptsDiff);
  }

  /** One interpolation step of the seek: on the packet grid, inside the bracket up to the
      alignment, never above the exact line and below it by less than a packet plus the
      rounding of the rate. */
  lemma {:induction false} InterpolationBound(ptsDiff: int, from: int, offDiff: int, ahead: int)
    requires InRange(ptsDiff, from, offDiff) && 0 <= ahead <= ptsDiff
    ensures var o := Interpolate(from, ahead, Rate(ptsDiff, offDiff));
            && o % 188 == 0
            && from - 187 <= o <= from + offDiff
            && o as real <= Linear(ptsDiff, from, offDiff, ahead)
            && Linear(ptsDiff, from, offDiff, ahead) - o as real < ahead as real / 720000.0 + 188.0
  {
    var rate := Rate(ptsDiff, offDiff);
    var adv := ahead * rate / 720000;
    InterpolateExact(ptsDiff, from, offDiff, ahead);
    AlignFloors(from + adv);
    RateExact(ptsDiff, offDiff);
    LinearGapReal(ptsDiff, offDiff, ahead, rate, adv);
  }
}
