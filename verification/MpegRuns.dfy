/** Whole runs of the time index: any calls in any order. */
module MpegRuns {
  import opened TsPacket
  import opened TimeLine
  import opened MpegFile

  datatype Span = Span(offset: nat, count: nat)

  /** Any run of positioned reads on a fresh object returns the bytes that were asked for. */
  method ReadRun(m: Mpeg, spans: seq<Span>) returns (bufs: seq<seq<Byte>>)
    requires m.Coherent() && m.pos >= 0
    modifies m`pos, m`currentOffset, m`lastOffset, m`readCount
    ensures m.Coherent() && |bufs| == |spans|
    ensures forall i :: 0 <= i < |spans| ==> bufs[i] == m.Slice(spans[i].offset, spans[i].count)
  {
    bufs := [];
    for i := 0 to |spans|
      invariant m.Coherent() && m.pos >= 0 && |bufs| == i
      invariant forall j :: 0 <= j < i ==> bufs[j] == m.Slice(spans[j].offset, spans[j].count)
    {
      var ret, buf := m.ReadInternal(spans[i].offset, spans[i].count);
      bufs := bufs + [buf];
    }
  }

  /** A call from outside, a read or seek by somebody who uses the same descriptor, or a change of
      the file. */
  datatype Call = Length | Bitrate | Offset(offset: int, pts: int) | Position(pos: nat) | Change(contents: seq<Byte>)

  method Perform(m: Mpeg, call: Call)
    requires m.Valid()
    modifies m
    ensures m.Valid()
    ensures old(m.duration) > 0 ==>
              && m.duration == old(m.duration) && m.ptsBegin == old(m.ptsBegin) && m.ptsEnd == old(m.ptsEnd)
              && m.offsetBegin == old(m.offsetBegin) && m.offsetEnd == old(m.offsetEnd)
    ensures old(m.duration) > 0 && !old(m.endValid) ==> !m.endValid
  {
    match call
    case Length => var r, _, _ := m.CalcLength();
    case Bitrate => var r := m.CalcBitrate();
    case Offset(offset, pts) => var r, o, p, turns, first := m.GetOffset(offset, pts);
    case Position(pos) => m.pos := pos;
    case Change(contents) => m.file := contents;
  }

  /** In every state of every run a positive duration is the clock distance of the two ends in
      whole seconds; once it is known it and both ends stay as they are. */
  method AnyRun(m: Mpeg, calls: seq<Call>)
    requires m.Valid()
    modifies m
    ensures m.Valid()
    ensures m.duration > 0 ==>
              && m.beginValid && m.duration == ((m.ptsEnd - m.ptsBegin) % CLOCK) / 90000
              && m.duration <= 95443
    ensures old(m.duration) > 0 ==>
              && m.duration == old(m.duration) && m.ptsBegin == old(m.ptsBegin) && m.ptsEnd == old(m.ptsEnd)
              && m.offsetBegin == old(m.offsetBegin) && m.offsetEnd == old(m.offsetEnd)
    ensures old(m.duration) > 0 && !old(m.endValid) ==> !m.endValid
    decreases |calls|
  {
    if |calls| > 0 {
      Perform(m, calls[0]);
      AnyRun(m, calls[1..]);
    } else {
      AheadIsModular(m.ptsBegin, m.ptsEnd);
    }
  }

  /** A time seek of a client: a relative one asks for the duration first.  Afterwards the answered
      offset is sought and the stream is read from there, which moves the file position. */
  datatype Seek = Seek(relative: bool, pts: int, moved: nat)

  /** Somebody else's reads and seeks do not change what the object has found out. */
  method Move(m: Mpeg, pos: nat)
    requires m.Valid()
    modifies m`pos
    ensures m.Valid() && m.pos == pos
    ensures (old(m.Repeats()) ==> m.Repeats()) && (old(m.Barren()) ==> m.Barren())
  {
    hide Mpeg.Repeats, Mpeg.Barren;
    m.pos := pos;
  }

  /** Seeks on a new object, the file staying as it is.  The first one is answered exactly when the
      file has two ends, and, if it asks for the duration first, the last one is not at offset 0.
      A later one is answered exactly when the last one is not at offset 0 and they are less than a
      second apart.  In particular a file with a duration is searched once. */
  method SeekRun(m: Mpeg, seeks: seq<Seek>) returns (rets: seq<int>)
    requires m.Valid() && m.Fresh() && Synced(m.file)
    modifies m
    ensures m.file == old(m.file) && |rets| == |seeks|
    ensures forall i :: 0 <= i < |seeks| ==> rets[i] == 0 || rets[i] == -1
    ensures |seeks| > 0 ==>
              (rets[0] == 0 <==> if seeks[0].relative then Measurable(m.file) || Repeatable(m.file) else Locatable(m.file))
    ensures forall i :: 1 <= i < |seeks| ==> (rets[i] == 0 <==> Repeatable(m.file))
  {
    hide Synced, Locatable, Repeatable, Measurable, Mpeg.Valid, Mpeg.Fresh, Mpeg.Looked, Mpeg.Repeats,
         Mpeg.Barren, Mpeg.Indexed, Mpeg.Bitrate;
    rets := [];
    MeasurableOrRepeatable(m.file);
    for i := 0 to |seeks|
      invariant m.Valid() && m.file == old(m.file) && |rets| == i
      invariant i == 0 ==> m.Fresh()
      invariant i > 0 ==> if Repeatable(m.file) then m.Repeats() else m.Barren() || (m.duration > 0 && !m.endValid)
      invariant forall j :: 0 <= j < i ==> rets[j] == 0 || rets[j] == -1
      invariant i > 0 ==>
                  (rets[0] == 0 <==> if seeks[0].relative then Measurable(m.file) || Repeatable(m.file) else Locatable(m.file))
      invariant forall j :: 1 <= j < i ==> (rets[j] == 0 <==> Repeatable(m.file))
    {
      var ret := OneSeek(m, seeks[i]);
      rets := rets + [ret];
    }
  }

  /** One of them. */
  method OneSeek(m: Mpeg, seek: Seek) returns (ret: int)
    requires m.Valid()
    modifies m
    ensures m.Valid() && m.file == old(m.file) && (ret == 0 || ret == -1)
    ensures old(m.Fresh()) && Synced(m.file) ==>
              && (ret == 0 <==> if seek.relative then Measurable(m.file) || Repeatable(m.file) else Locatable(m.file))
              && if Repeatable(m.file) then m.Repeats() else m.Barren() || (m.duration > 0 && !m.endValid)
    ensures old(m.Repeats()) ==> ret == 0 && m.Repeats()
    ensures old(m.Barren()) ==> ret == -1 && m.Barren()
    ensures old(m.duration > 0 && !m.endValid) ==> ret == -1 && m.duration > 0 && !m.endValid
  {
    hide Synced, Locatable, Repeatable, Measurable, Mpeg.Valid, Mpeg.BeginTrue, Mpeg.EndTrue, Mpeg.Barren, Mpeg.Indexed,
         Mpeg.Bitrate, Located, NoStamp;
    MeasurableOrRepeatable(m.file);
    if seek.relative {
      var dur, _, _ := m.CalcLength();
      if m.Looked() {
        RepeatableByEnds(m.file, m.offsetBegin, m.offsetEnd);
      }
      NotRepeatable(m.file);
    }
    var offset, pts;
    ghost var turns, first;
    ret, offset, pts, turns, first := m.GetOffset(0, seek.pts);
    Move(m, seek.moved);
  }

  /** Once an answered seek has sampled or refined, every later one is refused and leaves its
      arguments alone, whatever happens in between. */
  method SeekAgain(m: Mpeg, pts1: int, between: seq<Call>, pts2: int)
    returns (ret1: int, got1: int, ret2: int, offset2: int, got2: int)
    requires m.Valid()
    modifies m
    ensures old(m.duration) > 0 ==> (ret1 == 0 <==> old(m.endValid))
    ensures old(m.Fresh() && Synced(m.file) && Measurable(m.file)) ==> ret1 == 0
    ensures old(m.Fresh() && Synced(m.file) && Measurable(m.file)) || (ret1 == 0 && got1 != pts1)
            || old(m.duration > 0 && !m.endValid)
            || old(m.duration > 0 && m.Settled() && m.Linked() && Synced(m.file) && !m.samplesTaken)
            ==> ret2 == -1 && offset2 == 0 && got2 == pts2
  {
    hide Synced, Locatable, Repeatable, Measurable;
    var offset1;
    ghost var turns, first;
    ret1, offset1, got1, turns, first := m.GetOffset(0, pts1);
    AnyRun(m, between);
    ret2, offset2, got2, turns, first := m.GetOffset(0, pts2);
  }
}
