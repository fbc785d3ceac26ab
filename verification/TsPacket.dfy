/** One 188-byte MPEG transport packet: which time stamp, if any, get_pts takes from it.

    Field positions follow ISO/IEC 13818-1, sections 2.4.3.2 (packet), 2.4.3.5 (PCR) and
    2.4.3.7 (PES header).  A 33-bit clock value is a bv33, so the shifts below lose no bit. */
module TsPacket {
  type Byte = bv8

  const PACKET_SIZE: nat := 188
  const SYNC: Byte := 0x47
  const CLOCK: int := 0x2_0000_0000  // 2^33 ticks of 1/90000 s

  /** What one packet yields.  Outside: the code would look at a byte behind the packet. */
  datatype Scan = Unstamped | Stamped(ticks: int) | Outside

  /** The verdict on the PES extension of a private (0xFD) stream. */
  datatype Extension = Accepted | Rejected | Beyond

  // ----- clock fields

  function PcrTicks(b0: Byte, b1: Byte, b2: Byte, b3: Byte, b4: Byte): bv33 {
    ((b0 as bv33) << 25) | ((b1 as bv33) << 17) | (((b2 & 0xFE) as bv33) << 9)
    | ((b3 as bv33) << 1) | (((b4 & 0x80) as bv33) >> 7)
  }

  function PtsTicks(b0: Byte, b1: Byte, b2: Byte, b3: Byte, b4: Byte): bv33 {
    (((b0 & 0xE) as bv33) << 29) | ((b1 as bv33) << 22) | (((b2 & 0xFE) as bv33) << 14)
    | ((b3 as bv33) << 7) | (((b4 & 0xFE) as bv33) >> 1)
  }

  /** The low byte of a clock value. */
  function Low(v: bv33): Byte { (v & 0xFF) as Byte }

  /** The five PTS bytes: a four-bit prefix, three groups of clock bits, each closed by a marker bit. */
  function EncodePts(prefix: Byte, t: bv33): (b: seq<Byte>)
    ensures |b| == 5
  {
    [((prefix << 4) | (Low(t >> 29) & 0xE)) | 1, Low(t >> 22), Low(t >> 14) | 1, Low(t >> 7), Low(t << 1) | 1]
  }

  /** The six PCR bytes: 33 bits of base, six reserved bits, nine bits of extension. */
  function EncodePcr(base: bv33, ext: bv9): (b: seq<Byte>)
    ensures |b| == 6
  {
    [Low(base >> 25), Low(base >> 17), Low(base >> 9), Low(base >> 1),
     (Low(base << 7) & 0x80) | 0x7E | ((ext >> 8) as Byte), (ext & 0xFF) as Byte]
  }

  lemma PtsRoundTrip(prefix: Byte, t: bv33)
    ensures var b := EncodePts(prefix, t); PtsTicks(b[0], b[1], b[2], b[3], b[4]) == t
  {}

  /** A PCR base as the extraction returns it: the mask on the third byte drops bit 9. */
  function WithoutBit9(base: bv33): bv33 { base & 0x1_FFFF_FDFF }

  lemma WithoutBit9IsLow(base: bv33)
    ensures WithoutBit9(base) == if base & 0x200 == 0 then base else base - 0x200
    ensures WithoutBit9(base) <= base
  {}

  lemma PcrRoundTrip(base: bv33, ext: bv9)
    ensures var b := EncodePcr(base, ext); PcrTicks(b[0], b[1], b[2], b[3], b[4]) == WithoutBit9(base)
  {}

  // ----- headers

  predicate Flag(flags: Byte, mask: Byte) { flags & mask != 0 }

  function Bytes(flags: Byte, mask: Byte, n: nat): nat { if Flag(flags, mask) then n else 0 }

  /** Optional PES header fields before the extension, by the flag byte. */
  function OptionalFields(flags: Byte): nat {
    Bytes(flags, 0x80, 5) + Bytes(flags, 0x40, 5) + Bytes(flags, 0x20, 6) + Bytes(flags, 0x10, 3)
    + Bytes(flags, 0x8, 1) + Bytes(flags, 0x4, 1) + Bytes(flags, 0x2, 2)
  }

  /** Optional fields inside the PES extension, by its own flag byte. */
  function ExtensionFields(flags: Byte): nat {
    Bytes(flags, 0x80, 16) + Bytes(flags, 0x40, 1) + Bytes(flags, 0x20, 2) + Bytes(flags, 0x10, 2)
  }

  /** The length of the stream id extension, without its marker bit. */
  function ExtensionLength(b: Byte): nat { (b & 0x7F) as int }

  /** Stream id extensions that carry a clock: VC-1, AC3/DTS, DTS-HD. */
  predicate TimedExtension(id: Byte) { 0x55 <= id <= 0x5F || id == 0x71 || id == 0x72 }

  function PrivateExtension(q: seq<Byte>): Extension {
    if |q| <= 7 then Beyond
    else if !Flag(q[7], 1) then Rejected
    else if |q| <= 8 then Beyond
    else
      var size, at := q[8] as int, OptionalFields(q[7]);
      if size < at then Rejected
      else if |q| <= 9 + at then Beyond
      else if !Flag(q[9 + at], 1) then Rejected
      else
        var len := at + 1 + ExtensionFields(q[9 + at]);
        if size < len then Rejected
        else if |q| <= 9 + len then Beyond
        else
          var n, id := ExtensionLength(q[9 + len]), len + 1;
          if n == 0 || size < id + n then Rejected
          else if |q| <= 9 + id then Beyond
          else if TimedExtension(q[9 + id]) then Accepted
          else Rejected
  }

  predicate AudioOrVideo(id: Byte) { id & 0xE0 == 0xC0 || id & 0xF0 == 0xE0 }

  /** The stamp of a PES header that starts at the beginning of q. */
  function PesStamp(q: seq<Byte>): Scan {
    if (|q| > 0 && q[0] != 0) || (|q| > 1 && q[1] != 0) || (|q| > 2 && q[2] != 1) then Unstamped
    else if |q| <= 3 then Outside
    else
      var ext := if q[3] == 0xFD then PrivateExtension(q)
                 else if AudioOrVideo(q[3]) then Accepted else Rejected;
      if ext.Rejected? then Unstamped
      else if ext.Beyond? || |q| <= 7 then Outside
      else if !Flag(q[7], 0x80) then Unstamped
      else if |q| < 14 then Outside
      else Stamped(PtsTicks(q[9], q[10], q[11], q[12], q[13]) as int)
  }

  /** The stamp of a packet whose first byte is the sync byte. */
  function PacketStamp(p: seq<Byte>): (r: Scan)
    requires |p| == PACKET_SIZE
    ensures r.Stamped? ==> 0 <= r.ticks < CLOCK
  {
    if Flag(p[3], 0x20) && p[4] >= 183 then Unstamped
    else if Flag(p[3], 0x20) && p[4] != 0 && Flag(p[5], 0x10) then
      Stamped(PcrTicks(p[6], p[7], p[8], p[9], p[10]) as int)
    else if !Flag(p[1], 0x40) then Unstamped
    else PesStamp(p[if Flag(p[3], 0x20) then p[4] as int + 5 else 4..])
  }

  // ----- packets built by the standard

  /** p has an adaptation field with the given PCR. */
  ghost predicate CarriesPcr(p: seq<Byte>, base: bv33, ext: bv9) {
    && |p| == PACKET_SIZE
    && Flag(p[3], 0x20) && 7 <= p[4] < 183 && Flag(p[5], 0x10)
    && p[6..12] == EncodePcr(base, ext)
  }

  /** The payload of p starts at byte at; no PCR precedes it. */
  ghost predicate PayloadAt(p: seq<Byte>, at: nat) {
    && |p| == PACKET_SIZE
    && (Flag(p[3], 0x20) ==> p[4] < 183 && (p[4] == 0 || !Flag(p[5], 0x10)))
    && at == if Flag(p[3], 0x20) then p[4] as int + 5 else 4
  }

  /** p opens an audio or video PES packet whose header lies in p and carries the given PTS. */
  ghost predicate CarriesPts(p: seq<Byte>, at: nat, prefix: Byte, t: bv33) {
    && PayloadAt(p, at) && at + 14 <= PACKET_SIZE && Flag(p[1], 0x40)
    && p[at..at + 3] == [0, 0, 1]
    && AudioOrVideo(p[at + 3]) && Flag(p[at + 7], 0x80)
    && p[at + 9..at + 14] == EncodePts(prefix, t)
  }

  /** get_pts reads back exactly the time an encoder put into a PES header. */
  lemma {:induction false} StampOfPts(p: seq<Byte>, at: nat, prefix: Byte, t: bv33)
    requires CarriesPts(p, at, prefix, t)
    ensures PacketStamp(p) == Stamped(t as int)
  {
    var q, b := p[at..], p[at + 9..at + 14];
    assert p[at..at + 3] == q[..3];
    assert q[0] == p[at..at + 3][0] && q[1] == p[at..at + 3][1] && q[2] == p[at..at + 3][2];
    assert b == [q[9], q[10], q[11], q[12], q[13]];
    assert q[3] != 0xFD;
    PtsRoundTrip(prefix, t);
  }

  /** ... and the base of a PCR without its bit 9, which is low by 0 or by 512 ticks. */
  lemma {:induction false} StampOfPcr(p: seq<Byte>, base: bv33, ext: bv9)
    requires CarriesPcr(p, base, ext)
    ensures PacketStamp(p) == Stamped(WithoutBit9(base) as int)
    ensures WithoutBit9(base) == if base & 0x200 == 0 then base else base - 0x200
    ensures WithoutBit9(base) <= base
  {
    var b := p[6..12];
    assert b == [p[6], p[7], p[8], p[9], p[10], p[11]];
    PcrRoundTrip(base, ext);
    WithoutBit9IsLow(base);
  }

  /** The optional PES header fields behind the PTS, each present or empty. */
  datatype Fields = Fields(dts: seq<Byte>, escr: seq<Byte>, rate: seq<Byte>, trick: seq<Byte>, copy: seq<Byte>, crc: seq<Byte>)
  {
    function Bytes(): seq<Byte> { dts + escr + rate + trick + copy + crc }

    /** Field sizes of section 2.4.3.7, by the flag byte. */
    ghost predicate Match(flags: Byte) {
      && Present(dts, flags, 0x40, 5) && Present(escr, flags, 0x20, 6) && Present(rate, flags, 0x10, 3)
      && Present(trick, flags, 0x08, 1) && Present(copy, flags, 0x04, 1) && Present(crc, flags, 0x02, 2)
    }
  }

  /** The fields of the PES extension before its second flag field; the code counts a pack header
      as its length byte alone. */
  datatype Extras = Extras(data: seq<Byte>, pack: seq<Byte>, counter: seq<Byte>, buffer: seq<Byte>)
  {
    function Bytes(): seq<Byte> { data + pack + counter + buffer }

    ghost predicate Match(flags: Byte) {
      && Present(data, flags, 0x80, 16) && Present(pack, flags, 0x40, 1)
      && Present(counter, flags, 0x20, 2) && Present(buffer, flags, 0x10, 2)
    }
  }

  ghost predicate Present(field: seq<Byte>, flags: Byte, mask: Byte, size: nat) {
    |field| == if Flag(flags, mask) then size else 0
  }

  /** The header behind its length byte: a PTS, other optional fields, and an extension that
      names a stream id. */
  function PrivateFields(prefix: Byte, t: bv33, f: Fields, ext: Byte, x: Extras, len: Byte, id: Byte): seq<Byte> {
    EncodePts(prefix, t) + f.Bytes() + [ext] + x.Bytes() + [len, id]
  }

  /** q opens a private stream (id 0xFD) with such a header, all of it present. */
  ghost predicate PrivateHeader(q: seq<Byte>, prefix: Byte, t: bv33, f: Fields, ext: Byte, x: Extras, len: Byte, id: Byte) {
    var fields := PrivateFields(prefix, t, f, ext, x, len, id);
    && 9 + |fields| <= |q| && q[..4] == [0, 0, 1, 0xFD] && fields == q[9..9 + |fields|]
    && Flag(q[7], 0x80) && Flag(q[7], 1) && f.Match(q[7]) && Flag(ext, 1) && x.Match(ext)
    && 1 <= ExtensionLength(len) && |fields| - 1 + ExtensionLength(len) <= q[8] as int
  }

  lemma FieldSizes(flags: Byte, f: Fields, ext: Byte, x: Extras)
    requires Flag(flags, 0x80) && f.Match(flags) && x.Match(ext)
    ensures OptionalFields(flags) == 5 + |f.Bytes()|
    ensures ExtensionFields(ext) == |x.Bytes()|
  {}

  lemma PrivateVerdict(q: seq<Byte>, o: nat, e: nat)
    requires |q| > 11 + o + e && Flag(q[7], 1) && o == OptionalFields(q[7])
    requires Flag(q[9 + o], 1) && e == ExtensionFields(q[9 + o])
    requires 1 <= ExtensionLength(q[10 + o + e]) && o + e + 2 + ExtensionLength(q[10 + o + e]) <= q[8] as int
    ensures PrivateExtension(q) == if TimedExtension(q[11 + o + e]) then Accepted else Rejected
  {
    hide OptionalFields, ExtensionFields, ExtensionLength, Flag, TimedExtension;
  }

  lemma Layout(a: seq<Byte>, f: seq<Byte>, ext: Byte, x: seq<Byte>, len: Byte, id: Byte)
    ensures var h := a + f + [ext] + x + [len, id];
            && |h| == |a| + |f| + |x| + 3 && (forall i :: 0 <= i < |a| ==> h[i] == a[i])
            && h[|a| + |f|] == ext && h[|a| + |f| + |x| + 1] == len && h[|a| + |f| + |x| + 2] == id
  {}

  /** The stamp of a payload whose header has been found acceptable, with a flagged PTS. */
  lemma PesStampOfPrivate(q: seq<Byte>, prefix: Byte, t: bv33)
    requires |q| >= 14 && q[..4] == [0, 0, 1, 0xFD] && Flag(q[7], 0x80) && !PrivateExtension(q).Beyond?
    requires forall i :: 0 <= i < 5 ==> q[9 + i] == EncodePts(prefix, t)[i]
    ensures PesStamp(q) == if PrivateExtension(q).Accepted? then Stamped(t as int) else Unstamped
  {
    hide PrivateExtension, PtsTicks, EncodePts;
    var start := q[..4];
    assert q[0] == start[0] && q[1] == start[1] && q[2] == start[2] && q[3] == start[3];
    PtsRoundTrip(prefix, t);
  }

  lemma InSlice(q: seq<Byte>, h: seq<Byte>, i: nat)
    requires 9 + |h| <= |q| && h == q[9..9 + |h|] && i < |h|
    ensures q[9 + i] == h[i]
  {}

  lemma PrivateExtensionOfHeader(q: seq<Byte>, prefix: Byte, t: bv33, f: Fields, ext: Byte, x: Extras, len: Byte, id: Byte)
    requires PrivateHeader(q, prefix, t, f, ext, x, len, id)
    ensures PrivateExtension(q) == if TimedExtension(id) then Accepted else Rejected
  {
    hide PrivateExtension, TimedExtension, EncodePts, OptionalFields, ExtensionFields, ExtensionLength, Flag, Present,
         Fields.Bytes, Fields.Match, Extras.Bytes, Extras.Match;
    var a, fs, xs := EncodePts(prefix, t), f.Bytes(), x.Bytes();
    var h := PrivateFields(prefix, t, f, ext, x, len, id);
    Layout(a, fs, ext, xs, len, id);
    FieldSizes(q[7], f, ext, x);
    InSlice(q, h, 5 + |fs|);
    InSlice(q, h, 6 + |fs| + |xs|);
    InSlice(q, h, 7 + |fs| + |xs|);
    PrivateVerdict(q, 5 + |fs|, |xs|);
  }

  /** A packet that opens a private stream is stamped exactly when its stream id extension is one
      of the timed ones, whatever other fields its header has. */
  lemma {:induction false} StampOfPrivatePts(p: seq<Byte>, at: nat, prefix: Byte, t: bv33, f: Fields, ext: Byte,
      x: Extras, len: Byte, id: Byte)
    requires PayloadAt(p, at) && Flag(p[1], 0x40)
    requires at <= PACKET_SIZE && PrivateHeader(p[at..], prefix, t, f, ext, x, len, id)
    ensures PacketStamp(p) == if 0x55 <= id <= 0x5F || id == 0x71 || id == 0x72 then Stamped(t as int) else Unstamped
  {
    hide PrivateExtension, EncodePts, PesStamp, Flag, PtsTicks, PcrTicks, Fields.Bytes, Extras.Bytes;
    var q, h := p[at..], PrivateFields(prefix, t, f, ext, x, len, id);
    PrivateExtensionOfHeader(q, prefix, t, f, ext, x, len, id);
    Layout(EncodePts(prefix, t), f.Bytes(), ext, x.Bytes(), len, id);
    assert forall i :: 0 <= i < 5 ==> q[9 + i] == q[9..9 + |h|][i] == h[i] == EncodePts(prefix, t)[i];
    PesStampOfPrivate(q, prefix, t);
  }

  /** A PES header with a flagged PTS behind the start code of an audio, video or private stream. */
  ghost predicate TimedPes(q: seq<Byte>) {
    && |q| >= 14 && q[0] == 0 && q[1] == 0 && q[2] == 1
    && (AudioOrVideo(q[3]) || q[3] == 0xFD) && Flag(q[7], 0x80)
  }

  /** Conversely a stamp comes from a PCR, or from a timed PES header in a packet that opens a
      payload unit. */
  lemma StampNeedsClock(p: seq<Byte>)
    requires |p| == PACKET_SIZE && PacketStamp(p).Stamped?
    ensures (Flag(p[3], 0x20) && 0 < p[4] < 183 && Flag(p[5], 0x10))
            || (Flag(p[1], 0x40) && exists at: nat :: PayloadAt(p, at) && TimedPes(p[at..]))
  {}

  // ----- packets by their bytes

  /** The flags are the bits of their byte. */
  lemma FlagBits(b: Byte)
    ensures (Flag(b, 0x80) <==> b >= 128) && (Flag(b, 0x40) <==> b % 128 >= 64) && (Flag(b, 0x20) <==> b % 64 >= 32)
    ensures (Flag(b, 0x10) <==> b % 32 >= 16) && (Flag(b, 0x8) <==> b % 16 >= 8) && (Flag(b, 0x4) <==> b % 8 >= 4)
    ensures (Flag(b, 0x2) <==> b % 4 >= 2) && (Flag(b, 1) <==> b % 2 == 1)
  {}

  /** Stream ids 110x xxxx are audio, 1110 xxxx video; a length leaves out the marker bit. */
  lemma StreamIds(b: Byte)
    ensures AudioOrVideo(b) <==> 0xC0 <= b <= 0xEF
    ensures ExtensionLength(b) == (b % 128) as int
  {}

  /** A packet without payload, with a clock in its adaptation field, or one that opens no payload
      unit, is never looked at behind its end. */
  lemma PlainPackets(p: seq<Byte>)
    requires |p| == PACKET_SIZE
    ensures Flag(p[3], 0x20) && p[4] >= 183 ==> PacketStamp(p) == Unstamped
    ensures Flag(p[3], 0x20) && 0 < p[4] < 183 && Flag(p[5], 0x10) ==> PacketStamp(p).Stamped?
    ensures forall at: nat :: PayloadAt(p, at) && !Flag(p[1], 0x40) ==> PacketStamp(p) == Unstamped
  {}

  /** A payload that opens in the packet but with no start code, or with the id of another stream. */
  ghost predicate NoPes(q: seq<Byte>) {
    || (|q| >= 1 && q[0] != 0) || (|q| >= 2 && q[1] != 0) || (|q| >= 3 && q[2] != 1)
    || (|q| >= 4 && q[3] != 0xFD && !(0xC0 <= q[3] <= 0xEF))
  }

  /** A private stream whose header has no usable extension: none at all, no second flag field, a
      length too short for its fields, no stream id, or one of another kind. */
  ghost predicate NoTimedExtension(q: seq<Byte>) {
    || (|q| >= 8 && q[7] % 2 == 0)
    || (|q| >= 9 && q[8] as int < OptionalFields(q[7]))
    || (|q| >= 9 && |q| > 9 + OptionalFields(q[7]) && (
          var at := OptionalFields(q[7]);
          var len := at + 1 + ExtensionFields(q[9 + at]);
          || q[9 + at] % 2 == 0 || q[8] as int < len
          || (|q| > 9 + len && (
                var n := (q[9 + len] % 128) as int;
                || n == 0 || (q[8] as int) < len + 1 + n
                || (|q| > 10 + len && !(0x55 <= q[10 + len] <= 0x5F || q[10 + len] == 0x71 || q[10 + len] == 0x72))))))
  }

  /** The packet ends before the bytes the code looks at: the flags, the extension of a private stream,
      a flagged time. */
  ghost predicate HeaderLeaves(q: seq<Byte>) {
    || |q| < 8 || (q[3] == 0xFD && ExtensionLeaves(q)) || (|q| < 14 && q[7] >= 128)
  }

  ghost predicate ExtensionLeaves(q: seq<Byte>) {
    |q| < 9
    || var at := OptionalFields(q[7]);
       |q| <= 9 + at
       || var len := at + 1 + ExtensionFields(q[9 + at]);
          |q| <= 10 + len
  }

  /** A packet that opens a payload unit is unstamped without a PES header of a timed stream or without
      a PTS flag, and undefined exactly when it ends while that is still open. */
  lemma {:induction false} OpeningPackets(p: seq<Byte>, at: nat)
    requires PayloadAt(p, at) && Flag(p[1], 0x40) && at <= PACKET_SIZE
    ensures var q := p[at..];
            && (NoPes(q) ==> PacketStamp(p) == Unstamped)
            && (!NoPes(q) && |q| >= 4 && q[3] == 0xFD && NoTimedExtension(q) ==> PacketStamp(p) == Unstamped)
            && (!NoPes(q) && |q| >= 8 && q[3] != 0xFD && q[7] < 128 ==> PacketStamp(p) == Unstamped)
            && (PacketStamp(p).Outside? <==>
                  !NoPes(q) && !(|q| >= 4 && q[3] == 0xFD && NoTimedExtension(q)) && HeaderLeaves(q))
  {
    var q := p[at..];
    assert PacketStamp(p) == PesStamp(q);
    OpeningHeader(q);
  }

  lemma OpeningHeader(q: seq<Byte>)
    ensures NoPes(q) ==> PesStamp(q) == Unstamped
    ensures !NoPes(q) && |q| >= 4 && q[3] == 0xFD && NoTimedExtension(q) ==> PesStamp(q) == Unstamped
    ensures !NoPes(q) && |q| >= 8 && q[3] != 0xFD && q[7] < 128 ==> PesStamp(q) == Unstamped
    ensures PesStamp(q).Outside? <==>
              !NoPes(q) && !(|q| >= 4 && q[3] == 0xFD && NoTimedExtension(q)) && HeaderLeaves(q)
  {
    hide OptionalFields, ExtensionFields;
    if |q| > 3 {
      StreamIds(q[3]);
    }
    if |q| > 7 {
      FlagBits(q[7]);
      if |q| > 9 + OptionalFields(q[7]) {
        FlagBits(q[9 + OptionalFields(q[7])]);
      }
    }
  }

  // ----- clock arithmetic

  /** Ticks from one clock value forward to another. */
  function Ahead(from: int, to: int): int { if to < from then to - from + CLOCK else to - from }

  lemma AheadIsModular(from: int, to: int)
    requires 0 <= from < CLOCK && 0 <= to < CLOCK
    ensures Ahead(from, to) == (to - from) % CLOCK
    ensures 0 <= Ahead(from, to) / 90000 <= 95443
  {}

  /** What fix_pts makes of a clock value, given the first one of the file. */
  function Unwrap(first: int, now: int): int {
    if now < first && first - now < 90000 * 10 then now
    else if now < first then now + CLOCK - first
    else now - first
  }

  /** What fix_pts makes of it: up to ten seconds before the first value it stays, else it is the clock
      distance. */
  lemma UnwrapIs(first: int, now: int)
    requires 0 <= first < CLOCK && 0 <= now < CLOCK
    ensures Unwrap(first, now) == if first - 900000 < now < first then now else (now - first) % 0x2_0000_0000
    ensures 0 <= Unwrap(first, now) < CLOCK
  {}

  /** The unwrapped value is the elapsed time exactly when the value is not a wrapped one
      in the ten seconds before the first. */
  lemma UnwrapIsElapsed(first: int, elapsed: int)
    requires 0 <= first < CLOCK && 0 <= elapsed < CLOCK
    ensures Unwrap(first, (first + elapsed) % CLOCK) == elapsed
            <==> elapsed <= CLOCK - 900000 || first + elapsed < CLOCK
  {}

  // ----- the file

  predicate Whole(file: seq<Byte>, o: int) { 0 <= o && o + PACKET_SIZE <= |file| }

  function StampAt(file: seq<Byte>, o: int): Scan {
    if Whole(file, o) then PacketStamp(file[o..o + PACKET_SIZE]) else Unstamped
  }

  predicate StampedAt(file: seq<Byte>, o: int) { o % PACKET_SIZE == 0 && StampAt(file, o).Stamped? }

  /** Every packet on the 188-byte grid starts with the sync byte and holds its own PES header. */
  ghost predicate Synced(file: seq<Byte>) {
    forall o {:trigger StampAt(file, o)} ::
      Whole(file, o) && o % PACKET_SIZE == 0 ==> file[o] == SYNC && !StampAt(file, o).Outside?
  }

  ghost predicate NoStamp(file: seq<Byte>, from: int, to: int) {
    forall o {:trigger StampedAt(file, o)} :: from <= o < to ==> !StampedAt(file, o)
  }

  /** o is the first stamped packet of the grid at or behind from. */
  ghost predicate FirstStamp(file: seq<Byte>, from: int, o: int) {
    from <= o && StampedAt(file, o) && NoStamp(file, from, o)
  }
}
