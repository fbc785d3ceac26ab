/** The copying threads of src/main.cpp.

    The environment is a trace: what poll and read reported, what write returned, and how often
    is_terminated is looked at before it is true (it is never reset).  A trace may stop anywhere,
    so a statement about all traces holds at every moment of every run. */
module Streaming {
  const BUFFER_SIZE: nat := 188 * 256

  type Bytes = seq<int>

  function Flat(chunks: seq<Bytes>): Bytes {
    if |chunks| == 0 then [] else Flat(chunks[..|chunks| - 1]) + chunks[|chunks| - 1]
  }

  lemma FlatSnoc(chunks: seq<Bytes>, data: Bytes)
    ensures Flat(chunks + [data]) == Flat(chunks) + data
  {}

  function Sum(ns: seq<int>): int { if |ns| == 0 then 0 else Sum(ns[..|ns| - 1]) + ns[|ns| - 1] }

  lemma SumSnoc(ns: seq<int>, k: nat)
    requires k < |ns|
    ensures Sum(ns[..k + 1]) == Sum(ns[..k]) + ns[k]
  {
    assert ns[..k + 1][..k] == ns[..k];
  }

  // ----- encoder to client

  datatype Poll =
    | Failed                // poll returned -1
    | Readable(data: Bytes) // POLLIN; what the encoder has, nothing when read fails
    | HungUp                // POLLHUP alone
    | Quiet

  datatype End =
    | Complete   // the buffer is sent, or the encoder hung up
    | Terminated // is_terminated was seen
    | Threw      // a trap was thrown
    | BadWrite   // write reported an error, or more than was asked for
    | Cut        // the trace stops

  /** What read puts into the buffer. */
  function Block(available: Bytes): Bytes {
    if |available| < BUFFER_SIZE then available else available[..BUFFER_SIZE - 1]
  }

  lemma BlockFits(available: Bytes)
    ensures |Block(available)| < BUFFER_SIZE && (|Block(available)| > 0 <==> |available| > 0)
  {}

  /** read delivers the first bytes of what is there, at most one less than the buffer holds. */
  lemma BlockIsPrefix(available: Bytes)
    ensures Block(available) <= available
    ensures |Block(available)| == if |available| < 48128 then |available| else 48127
  {}

  /** What the encoder had at each poll that found something to read. */
  ghost function Offered(polls: seq<Poll>): seq<Bytes> {
    if |polls| == 0 then []
    else
      var last := polls[|polls| - 1];
      Offered(polls[..|polls| - 1]) + if last.Readable? && last.data != [] then [last.data] else []
  }

  /** Each block is the first bytes of one offer, in their order. */
  ghost predicate Prefixes(chunks: seq<Bytes>, offers: seq<Bytes>) {
    && |chunks| == |offers|
    && forall i :: 0 <= i < |chunks| ==>
         chunks[i] <= offers[i] && |chunks[i]| == if |offers[i]| < 48128 then |offers[i]| else 48127
  }

  lemma {:induction false} InputsArePrefixes(polls: seq<Poll>)
    ensures Prefixes(Inputs(polls), Offered(polls))
  {
    hide Block;
    if |polls| > 0 {
      InputsArePrefixes(polls[..|polls| - 1]);
      var last := polls[|polls| - 1];
      if last.Readable? {
        BlockIsPrefix(last.data);
      }
    }
  }

  /** When no offer overfills the buffer, nothing is left out. */
  lemma SmallOffersAreBlocks(chunks: seq<Bytes>, offers: seq<Bytes>)
    requires Prefixes(chunks, offers) && forall i :: 0 <= i < |offers| ==> |offers[i]| < 48128
    ensures chunks == offers
  {
    forall i | 0 <= i < |chunks| ensures chunks[i] == offers[i] {
      assert offers[i][..|chunks[i]|] == chunks[i];
    }
  }

  /** The non-empty reads among the polls. */
  function Inputs(polls: seq<Poll>): seq<Bytes> {
    if |polls| == 0 then []
    else
      var last := polls[|polls| - 1];
      Inputs(polls[..|polls| - 1]) + if last.Readable? && |last.data| > 0 then [Block(last.data)] else []
  }

  lemma InputsStep(polls: seq<Poll>, k: nat)
    requires k < |polls|
    ensures Inputs(polls[..k + 1]) ==
            Inputs(polls[..k]) + if polls[k].Readable? && |polls[k].data| > 0 then [Block(polls[k].data)] else []
  {
    assert polls[..k + 1][..k] == polls[..k];
  }

  /** sent is every earlier read in full, then k bytes of the last one. */
  ghost predicate UpTo(chunks: seq<Bytes>, sent: Bytes, k: nat) {
    && |chunks| > 0 && k <= |chunks[|chunks| - 1]|
    && sent == Flat(chunks[..|chunks| - 1]) + chunks[|chunks| - 1][..k]
  }

  /** Each read is sent in full before any of the next one is. */
  ghost predicate InOrder(chunks: seq<Bytes>, sent: Bytes) {
    if |chunks| == 0 then sent == [] else exists k: nat :: UpTo(chunks, sent, k)
  }

  lemma InOrderIsPrefix(chunks: seq<Bytes>, sent: Bytes)
    requires InOrder(chunks, sent)
    ensures sent <= Flat(chunks)
  {}

  /** The looks at is_terminated while one block is sent in n writes: none before the first write,
      two before each further one.  The one that sees it set, in the loop test or behind it, is the
      last. */
  predicate LooksOf(end: End, looks: nat, looks0: nat, n: nat, stopAt: nat) {
    && (if n == 0 then looks == looks0 && (end.Cut? || end.BadWrite?)
        else looks == looks0 + 2 * (n - 1) + if end.Complete? then 0 else if end.Terminated? then 1 else 2)
    && (if end.Terminated? || end.Threw? then looks == stopAt + 1 else looks <= stopAt)
  }

  /** Sends the first rc bytes of the buffer in as many writes as it takes; out is what the
      client accepted, looks counts the looks at is_terminated, used the writes. */
  method SendAll(buffer: array<int>, rc: nat, stopAt: nat, looks0: nat, writes: seq<int>, used0: nat)
    returns (out: Bytes, looks: nat, used: nat, end: End)
    requires 0 < rc <= buffer.Length && used0 <= |writes| && looks0 <= stopAt
    ensures used0 <= used <= |writes| && LooksOf(end, looks, looks0, used - used0, stopAt)
    ensures |out| <= rc && out == buffer[..|out|] && |out| == Sum(writes[..used]) - Sum(writes[..used0])
    ensures end == Complete ==> |out| == rc
    ensures end == Cut ==> used == |writes|
    ensures end == BadWrite ==> used < |writes| && !(0 <= writes[used] <= rc - |out|)
  {
    out, looks, used, end := [], looks0, used0, Complete;
    if used == |writes| {
      return out, looks, used, Cut;
    }
    if !(0 <= writes[used] <= rc) {
      return out, looks, used, BadWrite;
    }
    var wc := writes[used];
    SumSnoc(writes, used);
    out, used := buffer[..wc], used + 1;
    if wc < rc {
      var retry := 0;
      var remain := rc - wc;
      while rc != wc
        invariant 0 <= wc <= rc && used0 < used <= |writes| && looks == looks0 + 2 * (used - used0 - 1) <= stopAt
        invariant remain == rc - wc && out == buffer[..wc] && wc == Sum(writes[..used]) - Sum(writes[..used0])
        decreases |writes| - used
      {
        looks := looks + 1;
        if looks > stopAt {
          return out, looks, used, Terminated;
        }
        looks := looks + 1;
        if looks > stopAt {
          return out, looks, used, Threw;
        }
        if used == |writes| {
          return out, looks, used, Cut;
        }
        if !(0 <= writes[used] <= remain) {
          return out, looks, used, BadWrite;
        }
        SumSnoc(writes, used);
        retry, used := writes[used], used + 1;
        assert buffer[..wc + retry] == buffer[..wc] + buffer[wc..wc + retry];
        out := out + buffer[rc - remain..rc - remain + retry];
        wc := wc + retry;
        remain := remain - retry;
      }
    }
  }

  /** Why the thread stopped, with unsent bytes of its last block left. */
  ghost predicate StopsFor(end: End, stopAt: nat, polls: seq<Poll>, polled: nat, writes: seq<int>, used: nat,
                           looks: nat, unsent: nat)
    requires polled <= |polls| && used <= |writes|
  {
    match end
    case Complete => looks <= stopAt && unsent == 0 && polled > 0 && polls[polled - 1].HungUp?
    case Terminated => looks == stopAt + 1
    case Threw => looks == stopAt + 1 || (looks <= stopAt && unsent == 0 && polled > 0 && polls[polled - 1].Failed?)
    case BadWrite => looks <= stopAt && used < |writes| && (writes[used] < 0 || writes[used] > unsent)
    case Cut => looks <= stopAt && ((unsent == 0 && polled == |polls|) || used == |writes|)
  }

  /** One block read and sent. */
  method Forward(buffer: array<int>, data: Bytes, stopAt: nat, looks0: nat, writes: seq<int>, used0: nat)
    returns (out: Bytes, looks: nat, used: nat, end: End)
    requires 0 < |data| <= buffer.Length && used0 <= |writes| && looks0 <= stopAt
    modifies buffer
    ensures used0 <= used <= |writes| && LooksOf(end, looks, looks0, used - used0, stopAt)
    ensures |out| <= |data| && out == data[..|out|] && |out| == Sum(writes[..used]) - Sum(writes[..used0])
    ensures end == Complete ==> out == data
    ensures end == Cut ==> used == |writes|
    ensures end == BadWrite ==> used < |writes| && !(0 <= writes[used] <= |data| - |out|)
  {
    forall i | 0 <= i < |data| {
      buffer[i] := data[i];
    }
    assert buffer[..|data|] == data;
    out, looks, used, end := SendAll(buffer, |data|, stopAt, looks0, writes, used0);
    assert buffer[..|out|] == data[..|out|];
  }

  /** What has been read and sent after polled polls and used writes: the blocks are the non-empty
      reads, the bytes sent are a prefix of them in order, as many as the writes report, and unsent
      bytes of the last block are left. */
  ghost predicate Copied(polls: seq<Poll>, polled: nat, writes: seq<int>, used: nat, chunks: seq<Bytes>, sent: Bytes, unsent: nat)
    requires polled <= |polls| && used <= |writes|
  {
    && chunks == Inputs(polls[..polled]) && |sent| == Sum(writes[..used])
    && InOrder(chunks, sent) && sent <= Flat(chunks) && |sent| + unsent == |Flat(chunks)|
  }

  lemma NothingCopied(polls: seq<Poll>, writes: seq<int>)
    ensures Copied(polls, 0, writes, 0, [], [], 0)
  {}

  /** One more poll: its block, if any, has been sent up to out. */
  lemma CopiedMore(polls: seq<Poll>, polled: nat, writes: seq<int>, used0: nat, used: nat, chunks: seq<Bytes>,
                   sent: Bytes, out: Bytes)
    requires polled < |polls| && used0 <= |writes| && used <= |writes|
    requires Copied(polls, polled, writes, used0, chunks, sent, 0)
    requires |out| == Sum(writes[..used]) - Sum(writes[..used0])
    ensures var poll := polls[polled];
            if poll.Readable? && |poll.data| > 0 then
              var data := Block(poll.data);
              |out| <= |data| && out == data[..|out|] ==>
                Copied(polls, polled + 1, writes, used, chunks + [data], sent + out, |data| - |out|)
            else out == [] ==> Copied(polls, polled + 1, writes, used, chunks, sent, 0)
  {
    hide Flat, Inputs, Sum, InOrder, Block;
    InputsStep(polls, polled);
    var poll := polls[polled];
    if poll.Readable? && |poll.data| > 0 {
      var data := Block(poll.data);
      if |out| <= |data| && out == data[..|out|] {
        assert sent == Flat(chunks);
        PartInOrder(chunks, data, |out|);
        FlatSnoc(chunks, data);
        InOrderIsPrefix(chunks + [data], sent + out);
      }
    }
  }

  /** The streaming thread: the blocks it read from the encoder, what it sent to the client,
      and how much of the trace it went through.  It looks at is_terminated at its start, before
      each poll and twice before each write that is not the first of its block. */
  method StreamingThreadMain(stopAt: nat, polls: seq<Poll>, writes: seq<int>)
    returns (chunks: seq<Bytes>, sent: Bytes, end: End, looks: nat, polled: nat, used: nat, unsent: nat)
    ensures polled <= |polls| && used <= |writes|
    ensures Copied(polls, polled, writes, used, chunks, sent, unsent)
    ensures Prefixes(chunks, Offered(polls[..polled]))
    ensures (forall i :: 0 <= i < |Offered(polls[..polled])| ==> |Offered(polls[..polled])[i]| < 48128) ==>
              sent <= Flat(Offered(polls[..polled]))
    ensures 1 + polled + 2 * (used - |chunks|) <= looks <= 3 + polled + 2 * (used - |chunks|)
    ensures StopsFor(end, stopAt, polls, polled, writes, used, looks, unsent)
  {
    hide Copied, Block, Prefixes, Offered, Flat;
    chunks, sent, end, looks, polled, used, unsent := [], [], Terminated, 1, 0, 0, 0;
    NothingCopied(polls, writes);
    if looks > stopAt {
      CopiedPrefixes(polls, polled, writes, used, chunks, sent, unsent);
      return;
    }
    var buffer := new int[BUFFER_SIZE](_ => 0);
    while true
      invariant used <= |writes| && polled <= |polls| && looks == 1 + polled + 2 * (used - |chunks|) <= stopAt
      invariant unsent == 0 && Copied(polls, polled, writes, used, chunks, sent, 0)
      decreases |polls| - polled
    {
      looks := looks + 1;
      if looks > stopAt {
        end := Terminated;
        CopiedPrefixes(polls, polled, writes, used, chunks, sent, unsent);
        return;
      }
      if polled == |polls| {
        end := Cut;
        CopiedPrefixes(polls, polled, writes, used, chunks, sent, unsent);
        return;
      }
      var poll := polls[polled];
      CopiedMore(polls, polled, writes, used, used, chunks, sent, []);
      polled := polled + 1;
      match poll
      case Failed =>
        end := Threw;
        CopiedPrefixes(polls, polled, writes, used, chunks, sent, unsent);
        return;
      case Quiet =>
      case HungUp =>
        end := Complete;
        CopiedPrefixes(polls, polled, writes, used, chunks, sent, unsent);
        return;
      case Readable(available) =>
        var data := Block(available);
        BlockFits(available);
        if |data| > 0 {
          var out;
          ghost var used0 := used;
          out, looks, used, end := Forward(buffer, data, stopAt, looks, writes, used);
          CopiedMore(polls, polled - 1, writes, used0, used, chunks, sent, out);
          chunks, sent, unsent := chunks + [data], sent + out, |data| - |out|;
          if end != Complete {
            CopiedPrefixes(polls, polled, writes, used, chunks, sent, unsent);
            return;
          }
        }
    }
  }

  /** What that means in terms of what the encoder offered. */
  lemma CopiedPrefixes(polls: seq<Poll>, polled: nat, writes: seq<int>, used: nat, chunks: seq<Bytes>, sent: Bytes, unsent: nat)
    requires polled <= |polls| && used <= |writes| && Copied(polls, polled, writes, used, chunks, sent, unsent)
    ensures var offers := Offered(polls[..polled]);
            && Prefixes(chunks, offers)
            && ((forall i :: 0 <= i < |offers| ==> |offers[i]| < 48128) ==> sent <= Flat(offers))
  {
    hide Inputs, Offered, Flat, Prefixes, InOrder, Sum;
    InputsArePrefixes(polls[..polled]);
    if forall i :: 0 <= i < |Offered(polls[..polled])| ==> |Offered(polls[..polled])[i]| < 48128 {
      SmallOffersAreBlocks(chunks, Offered(polls[..polled]));
    }
  }

  lemma PartInOrder(chunks: seq<Bytes>, data: Bytes, k: nat)
    requires k <= |data|
    ensures InOrder(chunks + [data], Flat(chunks) + data[..k])
  {
    assert (chunks + [data])[..|chunks|] == chunks;
    assert UpTo(chunks + [data], Flat(chunks) + data[..k], k);
  }

  // ----- source to encoder

  /** One turn of the rewrite loop of source_thread_main: POLLOUT was missing, write took n bytes,
      or it reported -1. */
  datatype Offer = Blocked | Took(n: nat) | Refused

  /** What the loop's last write reported: a blocked turn has none of its own. */
  function LastResult(offers: seq<Offer>, last: int): int {
    if |offers| == 0 then last
    else LastResult(offers[1..], match offers[0] case Blocked => last case Took(n) => n case Refused => -1)
  }

  /** Bytes counted off without a write: a blocked turn subtracts the last result again. */
  function Skipped(offers: seq<Offer>, last: int): int {
    if |offers| == 0 then 0
    else match offers[0]
      case Blocked => last + Skipped(offers[1..], last)
      case Took(n) => Skipped(offers[1..], n)
      case Refused => Skipped(offers[1..], -1)
  }

  /** Bytes the writes took. */
  function Taken(offers: seq<Offer>): nat {
    if |offers| == 0 then 0 else (if offers[0].Took? then offers[0].n else 0) + Taken(offers[1..])
  }

  /** Writes that reported -1. */
  function Refusals(offers: seq<Offer>): nat {
    if |offers| == 0 then 0 else (if offers[0].Refused? then 1 else 0) + Refusals(offers[1..])
  }

  lemma {:induction false} SkippedSnoc(offers: seq<Offer>, last: int, offer: Offer)
    ensures Skipped(offers + [offer], last)
            == Skipped(offers, last) + if offer.Blocked? then LastResult(offers, last) else 0
    ensures LastResult(offers + [offer], last)
            == match offer case Blocked => LastResult(offers, last) case Took(n) => n case Refused => -1
    ensures Taken(offers + [offer]) == Taken(offers) + if offer.Took? then offer.n else 0
    ensures Refusals(offers + [offer]) == Refusals(offers) + if offer.Refused? then 1 else 0
  {
    if |offers| > 0 {
      assert (offers + [offer])[1..] == offers[1..] + [offer];
      SkippedSnoc(offers[1..], match offers[0] case Blocked => last case Took(n) => n case Refused => -1, offer);
    }
  }

  /** No write reported -1, and no turn was blocked behind one that took something. */
  predicate Smooth(first: int, offers: seq<Offer>) { first >= 0 && Refusals(offers) == 0 && Skipped(offers, 0) == 0 }

  /** The rewrite loop after a first write that reported first: out is what the encoder got, wc and
      remain the loop's own counts, used the turns taken.  A turn whose write would read outside of
      the buffer, or takes more than it is asked for, ends the trace. */
  method RewriteToEncoder(buffer: Bytes, first: int, offers: seq<Offer>)
    returns (out: Bytes, remain: int, used: nat, wc: int)
    requires -1 <= first <= |buffer|
    ensures used <= |offers| && |out| == (if first < 0 then 0 else first) + Taken(offers[..used])
    ensures wc == first + Taken(offers[..used]) - Refusals(offers[..used])
    ensures remain == |buffer| - wc - Skipped(offers[..used], 0)
    ensures used == |offers| || wc == |buffer| || (offers[used].Took? && !(offers[used].n <= remain <= |buffer|))
    ensures Smooth(first, offers[..used]) ==> wc == |out| <= |buffer| && out == buffer[..|out|]
    ensures first >= 0 && Refusals(offers[..used]) == 0 ==>
              wc == |out| <= |buffer| && (|out| == |buffer| ==> Skipped(offers[..used], 0) == 0)
  {
    out, wc, used := if first < 0 then [] else buffer[..first], first, 0;
    remain := |buffer| - wc;
    var retry := 0;
    while wc != |buffer| && used < |offers|
      invariant used <= |offers| && |out| == (if first < 0 then 0 else first) + Taken(offers[..used])
      invariant wc == first + Taken(offers[..used]) - Refusals(offers[..used])
      invariant wc + Skipped(offers[..used], 0) + remain == |buffer| && retry == LastResult(offers[..used], 0)
      invariant first >= 0 && Refusals(offers[..used]) == 0 ==>
                  && wc == |out| <= |buffer| && retry >= 0 && Skipped(offers[..used], 0) >= 0
                  && (wc == |buffer| ==> remain >= 0)
      invariant Smooth(first, offers[..used]) ==> out == buffer[..|out|]
      decreases |offers| - used
    {
      var offer := offers[used];
      SkippedSnoc(offers[..used], 0, offer);
      assert offers[..used] + [offer] == offers[..used + 1];
      match offer {
        case Blocked =>
        case Refused =>
          retry := -1;
          wc := wc + retry;
        case Took(n) =>
          if !(n <= remain <= |buffer|) {
            break;
          }
          retry := n;
          out := out + buffer[|buffer| - remain..|buffer| - remain + retry];
          wc := wc + retry;
      }
      used := used + 1;
      remain := remain - retry;
    }
  }

  /** Four bytes, of which one was written at first: a turn that takes one more and a turn without
      POLLOUT leave the loop with one byte to go, while two have not been sent. */
  method SkipsAByte(buffer: Bytes) returns (out: Bytes, remain: int)
    requires |buffer| == 4
    ensures |out| == 2 && remain == 1
  {
    var used, wc;
    out, remain, used, wc := RewriteToEncoder(buffer, 1, [Took(1), Blocked]);
    assert used == 2 && [Took(1), Blocked][..used] == [Took(1), Blocked] by {
      assert [Took(1), Blocked][..0] == [] && [Took(1), Blocked][..1] == [Took(1)];
      assert Taken([]) == 0 && Taken([Took(1)]) == 1 && Skipped([], 0) == 0 && Skipped([Took(1)], 0) == 0;
    }
    assert Taken([Blocked]) == 0 && Skipped([Blocked], 1) == 1;
  }

  /** Four bytes, of which two were written at first: a write that fails moves the loop back, and
      when it completes the encoder has got five bytes. */
  method ResendsAByte(buffer: Bytes) returns (out: Bytes, wc: int)
    requires |buffer| == 4
    ensures |out| == 5 && wc == 4
  {
    var used, remain;
    out, remain, used, wc := RewriteToEncoder(buffer, 2, [Refused, Took(3)]);
    assert used == 2 && [Refused, Took(3)][..used] == [Refused, Took(3)] by {
      assert [Refused, Took(3)][..0] == [] && [Refused, Took(3)][..1] == [Refused];
      assert Taken([]) == Refusals([]) == 0 && Skipped([], 0) == 0;
      assert Taken([Refused]) == 0 && Refusals([Refused]) == 1 && Skipped([Refused], 0) == 0;
    }
    assert Taken([Took(3)]) == 3 && Refusals([Took(3)]) == 0;
  }
}
