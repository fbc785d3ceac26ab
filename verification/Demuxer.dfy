/** parse_webif_response of src/Demuxer.cpp: the PID list in the web interface's answer, and
    that it reads back a printed list. */
module Demuxer {
  import opened Util
  import opened Widths

  /** The pids the demuxer keeps, and the list of all pids in order of arrival. */
  datatype Pids = Pids(pat: int, pmt: int, video: int, audio: int, list: seq<nat>)

  predicate Frozen(p: Pids) { p.video != 0 && p.audio != 0 && p.pmt != 0 }

  /** An unsigned long passed as an int and compared as an unsigned long again. */
  function ThroughInt(pid: nat, max: nat): int {
    var i := Int32(pid);
    if i < 0 then max + 1 + i else i
  }

  function Named(p: Pids, pid: int, kind: string): Pids {
    if Frozen(p) then p
    else if kind == "pat" then p.(pat := pid)
    else if kind == "pmt" then p.(pmt := pid)
    else if kind == "video" then p.(video := pid)
    else if kind == "audio" then p.(audio := pid)
    else p
  }

  function NotePid(p: Pids, pid: nat, kind: string, max: nat): Pids {
    if pid == max then p
    else
      var q := Named(p, Int32(pid), kind);
      if ThroughInt(pid, max) in p.list then q else q.(list := p.list + [pid])
  }

  /** One token of the list. */
  function Note(p: Pids, token: string, max: nat): Pids {
    match SplitKeyValue(token, ':')
    case None => p
    case Some(kv) => NotePid(p, StrToUL(kv.key, max), kv.value, max)
  }

  function NoteAll(p: Pids, tokens: seq<string>, max: nat): Pids {
    if |tokens| == 0 then p else Note(NoteAll(p, tokens[..|tokens| - 1], max), tokens[|tokens| - 1], max)
  }

  function CString(s: string): string { s[..Find(s, '\0', 0)] }

  function Atoi1(c: char): int { if '0' <= c <= '9' then c as int - '0' as int else 0 }

  /** The line from the last plus sign to its end of line. */
  function Line(response: string): Option<string> {
    var start := RFind(response, '+');
    if start < 0 then None
    else
      var end := Find(response, '\n', start);
      if end == |response| then None else Some(response[start..end])
  }

  function ListTokens(line: string): seq<string>
    requires |line| >= 3
  {
    TrimAll(Pieces(CString(line[3..]), ','))
  }

  class Demuxer {
    var demuxId: int
    var patPid: int
    var pmtPid: int
    var videoPid: int
    var audioPid: int
    const max: nat  // ULONG_MAX

    constructor (max: nat)
      ensures this.max == max && demuxId == -1 && patPid == -1 && pmtPid == 0 && videoPid == 0 && audioPid == 0
    {
      this.max := max;
      demuxId, patPid, pmtPid, videoPid, audioPid := -1, -1, 0, 0, 0;
    }

    ghost function Kept(list: seq<nat>): Pids
      reads this
    {
      Pids(patPid, pmtPid, videoPid, audioPid, list)
    }

    method AlreadyExist(pidlist: seq<nat>, pid: int) returns (found: bool)
      ensures found <==> (if pid < 0 then max + 1 + pid else pid) in pidlist
    {
      var wanted := if pid < 0 then max + 1 + pid else pid;
      for i := 0 to |pidlist|
        invariant wanted !in pidlist[..i]
      {
        if pidlist[i] == wanted {
          return true;
        }
      }
      return false;
    }

    method ParseWebifResponse(response: string, newPids0: seq<nat>) returns (ok: bool, newPids: seq<nat>)
      modifies `demuxId, `patPid, `pmtPid, `videoPid, `audioPid
      ensures var line := Line(response);
              if line.None? || |line.value| < 3 then
                !ok && newPids == newPids0 && demuxId == old(demuxId) && Kept(newPids) == old(Kept(newPids0))
              else
                && ok && demuxId == Atoi1(line.value[1])
                && Kept(newPids) == NoteAll(old(Kept(newPids0)), ListTokens(line.value), max)
    {
      hide Note, Pieces, Trim;
      newPids := newPids0;
      var start := RFind(response, '+');
      if start < 0 {
        return false, newPids;
      }
      var end := Find(response, '\n', start);
      if end == |response| {
        return false, newPids;
      }
      var line := response[start..end];
      if |line| < 3 || line[0] != '+' {
        return false, newPids;
      }
      demuxId := Atoi1(line[1]);
      var tokens := Split(CString(line[3..]), ',');
      var i := 0;
      while i < |tokens|
        invariant 0 <= i <= |tokens| && demuxId == Atoi1(line[1])
        invariant Kept(newPids) == NoteAll(old(Kept(newPids0)), tokens[..i], max)
      {
        assert tokens[..i + 1][..i] == tokens[..i];
        newPids := Enter(tokens[i], newPids);
        i := i + 1;
      }
      assert tokens[..i] == tokens;
      return true, newPids;
    }

    /** The body of the token loop. */
    method Enter(token: string, newPids0: seq<nat>) returns (newPids: seq<nat>)
      modifies `patPid, `pmtPid, `videoPid, `audioPid
      ensures Kept(newPids) == Note(old(Kept(newPids0)), token, max)
      ensures match SplitKeyValue(token, ':')
              case None => old(Kept(newPids0)) == Kept(newPids)
              case Some(kv) =>
                var pid := StrToUL(kv.key, max);
                if pid == max then old(Kept(newPids0)) == Kept(newPids)
                else
                  var (now, open) := (Int32(pid), old(videoPid) == 0 || old(audioPid) == 0 || old(pmtPid) == 0);
                  && patPid == (if open && kv.value == "pat" then now else old(patPid))
                  && pmtPid == (if open && kv.value == "pmt" then now else old(pmtPid))
                  && videoPid == (if open && kv.value == "video" then now else old(videoPid))
                  && audioPid == (if open && kv.value == "audio" then now else old(audioPid))
                  && newPids == newPids0 + if (if now < 0 then max + 1 + now else now) in newPids0 then [] else [pid]
    {
      hide StrToUL, Find;
      newPids := newPids0;
      var kv := SplitKeyValue(token, ':');
      if kv.None? {
        return;
      }
      var pid := StrToUL(kv.value.key, max);
      var kind := kv.value.value;
      if pid == max {
        return;
      }
      if videoPid == 0 || audioPid == 0 || pmtPid == 0 {
        if kind == "pat" {
          patPid := Int32(pid);
        } else if kind == "pmt" {
          pmtPid := Int32(pid);
        } else if kind == "video" {
          videoPid := Int32(pid);
        } else if kind == "audio" {
          audioPid := Int32(pid);
        }
      }
      var known := AlreadyExist(newPids, Int32(pid));
      if !known {
        newPids := newPids + [pid];
      }
    }
  }

  // ----- freezing

  /** Once pmt, video and audio are set no later token changes the four pids. */
  lemma {:induction false} FreezesForGood(p: Pids, tokens: seq<string>, max: nat)
    requires Frozen(p)
    ensures var q := NoteAll(p, tokens, max); q == p.(list := q.list) && p.list <= q.list
  {
    if |tokens| > 0 {
      FreezesForGood(p, tokens[..|tokens| - 1], max);
    }
  }

  // ----- printing and reading back

  datatype Entry = Entry(pid: nat, kind: string)

  /** What the web interface can print: a 13-bit pid and a type without the list's delimiters. */
  ghost predicate Printable(e: Entry) {
    && e.pid < 0x2000
    && ',' !in e.kind && '+' !in e.kind && '\n' !in e.kind && '\0' !in e.kind
  }

  function PrintEntry(e: Entry): string { Hex(e.pid) + ":" + e.kind }

  function PrintList(es: seq<Entry>): string {
    if |es| == 0 then "" else if |es| == 1 then PrintEntry(es[0]) else PrintEntry(es[0]) + "," + PrintList(es[1..])
  }

  function Print(id: char, es: seq<Entry>): string { "+" + [id] + ":" + PrintList(es) + "\n" }

  /** Every pid at its first occurrence. */
  function FirstOccurrences(pids: seq<nat>): seq<nat> {
    if |pids| == 0 then []
    else
      var init, last := pids[..|pids| - 1], pids[|pids| - 1];
      FirstOccurrences(init) + if last in init then [] else [last]
  }

  function PidsOf(es: seq<Entry>): (r: seq<nat>)
    ensures |r| == |es| && forall i :: 0 <= i < |es| ==> r[i] == es[i].pid
  {
    seq(|es|, i requires 0 <= i < |es| => es[i].pid)
  }

  /** The four named pids, assigned until they freeze. */
  function NameAll(p: Pids, es: seq<Entry>): Pids {
    if |es| == 0 then p
    else var last := es[|es| - 1]; Named(NameAll(p, es[..|es| - 1]), last.pid, TrimRight(last.kind))
  }

  // ----- which pid ends up where

  /** The pid of the last entry of a type, less white space at the type's end, or the value before. */
  ghost function LastOf(es: seq<Entry>, kind: string, was: int): int {
    if |es| == 0 then was
    else if TrimRight(es[|es| - 1].kind) == kind then es[|es| - 1].pid
    else LastOf(es[..|es| - 1], kind, was)
  }

  lemma {:induction false} LastOfIs(es: seq<Entry>, kind: string, was: int, i: int)
    requires -1 <= i < |es| && (i >= 0 ==> TrimRight(es[i].kind) == kind)
    requires forall j :: i < j < |es| ==> TrimRight(es[j].kind) != kind
    ensures LastOf(es, kind, was) == if i >= 0 then es[i].pid else was
  {
    hide TrimRight;
    if i < |es| - 1 {
      LastOfIs(es[..|es| - 1], kind, was, i);
    }
  }

  /** After those entries pmt, video and audio are all known. */
  ghost predicate AllKnown(p: Pids, es: seq<Entry>) {
    LastOf(es, "pmt", p.pmt) != 0 && LastOf(es, "video", p.video) != 0 && LastOf(es, "audio", p.audio) != 0
  }

  /** Each pid is that of the last entry of its type among the first n. */
  ghost predicate TakenFrom(p: Pids, es: seq<Entry>, q: Pids, n: nat) {
    && n <= |es|
    && q.pat == LastOf(es[..n], "pat", p.pat) && q.pmt == LastOf(es[..n], "pmt", p.pmt)
    && q.video == LastOf(es[..n], "video", p.video) && q.audio == LastOf(es[..n], "audio", p.audio)
  }

  /** ... where n is as many as it takes until all are known, or all. */
  ghost predicate Assigned(p: Pids, es: seq<Entry>, q: Pids) {
    exists n: nat :: TakenFrom(p, es, q, n) && KnownAfter(p, es, n)
  }

  ghost predicate KnownAfter(p: Pids, es: seq<Entry>, n: nat) {
    && n <= |es| && (n < |es| ==> AllKnown(p, es[..n]))
    && forall k: nat :: k < n ==> !AllKnown(p, es[..k])
  }

  lemma {:induction false} NameAllAssigns(p: Pids, es: seq<Entry>)
    ensures Assigned(p, es, NameAll(p, es))
  {
    hide TrimRight, TakenFrom, KnownAfter, Named;
    if |es| == 0 {
      NothingAssigned(p);
    } else {
      var init := es[..|es| - 1];
      NameAllAssigns(p, init);
      var n: nat :| TakenFrom(p, init, NameAll(p, init), n) && KnownAfter(p, init, n);
      var m := OneMore(p, es, NameAll(p, init), n);
    }
  }

  lemma NothingAssigned(p: Pids)
    ensures TakenFrom(p, [], p, 0) && KnownAfter(p, [], 0)
  {}

  lemma {:induction false} OneMore(p: Pids, es: seq<Entry>, q: Pids, n: nat) returns (m: nat)
    requires |es| > 0 && TakenFrom(p, es[..|es| - 1], q, n) && KnownAfter(p, es[..|es| - 1], n)
    ensures var last := es[|es| - 1];
            TakenFrom(p, es, Named(q, last.pid, TrimRight(last.kind)), m) && KnownAfter(p, es, m)
  {
    hide TrimRight, LastOf;
    var init := es[..|es| - 1];
    forall k: nat | k <= |init| ensures init[..k] == es[..k] {}
    m := if Frozen(q) then n else |es|;
    if !Frozen(q) {
      assert es[..|es|] == es && init[..|init|] == init;
      NewLast(p, es, q);
    }
  }

  lemma NewLast(p: Pids, es: seq<Entry>, q: Pids)
    requires |es| > 0 && TakenFrom(p, es[..|es| - 1], q, |es| - 1) && !Frozen(q)
    ensures TakenFrom(p, es, Named(q, es[|es| - 1].pid, TrimRight(es[|es| - 1].kind)), |es|)
  {
    hide TrimRight;
    var init, last := es[..|es| - 1], es[|es| - 1];
    assert es[..|es|] == es && init[..|init|] == init;
    forall kind: string, was: int
      ensures LastOf(es, kind, was) == if TrimRight(last.kind) == kind then last.pid else LastOf(init, kind, was) {}
  }

  /** The list of a part of the pids opens the list of all. */
  lemma {:induction false} FirstOccurrencesGrow(pids: seq<nat>, k: nat)
    requires k <= |pids|
    ensures FirstOccurrences(pids[..k]) <= FirstOccurrences(pids)
  {
    if k < |pids| {
      FirstOccurrencesGrow(pids[..|pids| - 1], k);
      assert pids[..|pids| - 1][..k] == pids[..k];
    } else {
      assert pids[..k] == pids;
    }
  }

  lemma {:induction false} FirstOccurrencesHasAll(pids: seq<nat>)
    ensures forall p :: p in FirstOccurrences(pids) <==> p in pids
    ensures forall i, j :: 0 <= i < j < |FirstOccurrences(pids)| ==> FirstOccurrences(pids)[i] != FirstOccurrences(pids)[j]
  {
    if |pids| > 0 {
      FirstOccurrencesHasAll(pids[..|pids| - 1]);
      assert pids == pids[..|pids| - 1] + [pids[|pids| - 1]];
    }
  }

  predicate Plain(s: string) { '+' !in s && '\n' !in s && '\0' !in s }

  function EntryStrings(es: seq<Entry>): (r: seq<string>)
    ensures |r| == |es| && forall i :: 0 <= i < |es| ==> r[i] == PrintEntry(es[i])
  {
    seq(|es|, i requires 0 <= i < |es| => PrintEntry(es[i]))
  }

  lemma EntryIsPlain(e: Entry)
    requires Printable(e)
    ensures Plain(PrintEntry(e)) && ',' !in PrintEntry(e) && |PrintEntry(e)| > 0
  {}

  lemma {:induction false} ListIsPlain(es: seq<Entry>)
    requires forall e :: e in es ==> Printable(e)
    ensures Plain(PrintList(es))
  {
    if |es| > 0 {
      EntryIsPlain(es[0]);
      ListIsPlain(es[1..]);
    }
  }

  lemma PiecesCons(a: string, b: string, d: char)
    requires d !in a
    ensures Pieces(a + [d] + b, d) == [a] + Pieces(b, d)
    ensures |a| > 0 ==> Pieces(a, d) == [a]
  {
    hide Pieces, Find;
    var s := a + [d] + b;
    PiecesStep(s, d);
    FindAfter(a, [d] + b, d);
    assert s == a + ([d] + b) && s[..|a|] == a && s[|a| + 1..] == b;
    if |a| > 0 {
      PiecesStep(a, d);
      PiecesOfNothing(d);
      FindAfter(a, "", d);
      assert a + "" == a && a[..|a|] == a;
    }
  }

  /** The first delimiter of a string that opens with a clean part. */
  lemma FindAfter(a: string, b: string, d: char)
    requires d !in a && (|b| > 0 ==> b[0] == d)
    ensures Find(a + b, d, 0) == |a|
  {
    var s, k := a + b, Find(a + b, d, 0);
    assert forall i :: 0 <= i < |a| ==> s[i] == a[i];
    assert |b| > 0 ==> s[|a|] == d;
  }

  /** Splitting undoes joining. */
  lemma {:induction false} PiecesOfList(es: seq<Entry>)
    requires forall e :: e in es ==> Printable(e)
    ensures Pieces(PrintList(es), ',') == EntryStrings(es)
  {
    hide Pieces;
    if |es| == 0 {
      PiecesOfNothing(',');
    } else {
      EntryIsPlain(es[0]);
      PiecesCons(PrintEntry(es[0]), PrintList(es[1..]), ',');
      if |es| > 1 {
        PiecesOfList(es[1..]);
      }
      assert EntryStrings(es) == [PrintEntry(es[0])] + EntryStrings(es[1..]);
    }
  }

  lemma LineIn(before: string, line: string, after: string)
    requires |line| > 0 && line[0] == '+' && '+' !in line[1..] && '\n' !in line && '+' !in after
    ensures Line(before + line + "\n" + after) == Some(line)
  {
    var s := before + line + "\n" + after;
    var start, end := |before|, |before| + |line|;
    assert s[start..end] == line;
    forall i | start < i < |s| ensures s[i] != '+' {
      if i < end {
        assert s[i] == line[1..][i - start - 1];
      } else if i > end {
        assert s[i] == after[i - end - 1];
      }
    }
    assert s[start] == '+' && s[end] == '\n';
    assert forall i :: start <= i < end ==> s[i] == line[i - start];
  }

  lemma LineOfPrint(before: string, id: char, es: seq<Entry>, after: string)
    requires '0' <= id <= '9' && '+' !in after && forall e :: e in es ==> Printable(e)
    ensures Line(before + Print(id, es) + after) == Some("+" + [id] + ":" + PrintList(es))
  {
    hide PrintList, Line;
    ListIsPlain(es);
    var line := "+" + [id] + ":" + PrintList(es);
    LineIn(before, line, after);
    assert before + Print(id, es) + after == before + line + "\n" + after;
  }

  lemma {:induction false} TrimRightConcat(a: string, b: string)
    requires |a| > 0 && !Dropped(a[|a| - 1])
    ensures TrimRight(a + b) == a + TrimRight(b)
  {
    if |b| > 0 && Dropped(b[|b| - 1]) {
      var init := b[..|b| - 1];
      assert (a + b)[..|a + b| - 1] == a + init;
      TrimRightConcat(a, init);
    }
  }

  /** A printed entry is taken as its pid and its type, less white space at the type's end. */
  lemma NoteOfEntry(p: Pids, e: Entry, max: nat)
    requires Printable(e) && max >= 0x2000 && forall x :: x in p.list ==> x < 0x2000
    ensures Note(p, Trim(PrintEntry(e)), max) ==
            var q := Named(p, e.pid, TrimRight(e.kind));
            if e.pid in p.list then q else q.(list := p.list + [e.pid])
  {
    hide Find, HexDigits, StrToUL, TrimRight, Hex;
    var hex := Hex(e.pid);
    var kind := TrimRight(e.kind);
    TrimRightConcat(hex + ":", e.kind);
    assert PrintEntry(e) == hex + ":" + e.kind;
    var token := hex + ":" + kind;
    assert Trim(PrintEntry(e)) == token;
    assert ':' !in hex;
    FindAfter(hex, ":" + kind, ':');
    assert hex + (":" + kind) == token;
    assert token[..|hex|] == hex && token[|hex| + 1..] == kind;
    StrToULOfHex(e.pid, max);
  }

  lemma NamedKeepsList(p: Pids, list: seq<nat>, pid: int, kind: string)
    ensures Named(p.(list := list), pid, kind) == Named(p, pid, kind).(list := list)
  {}

  lemma {:induction false} NoteAllOfEntries(p: Pids, es: seq<Entry>, max: nat)
    requires p.list == [] && max >= 0x2000 && forall e :: e in es ==> Printable(e)
    ensures NoteAll(p, TrimAll(EntryStrings(es)), max) == NameAll(p, es).(list := FirstOccurrences(PidsOf(es)))
  {
    hide Note, Named, Trim, TrimRight, PrintEntry;
    if |es| > 0 {
      var init, last := es[..|es| - 1], es[|es| - 1];
      var tokens := TrimAll(EntryStrings(es));
      assert tokens[..|tokens| - 1] == TrimAll(EntryStrings(init));
      assert PidsOf(es)[..|es| - 1] == PidsOf(init);
      NoteAllOfEntries(p, init, max);
      var q := NoteAll(p, TrimAll(EntryStrings(init)), max);
      FirstOccurrencesHasAll(PidsOf(init));
      assert forall x :: x in q.list ==> x in PidsOf(init);
      assert forall i :: 0 <= i < |init| ==> init[i] in es;
      NoteOfEntry(q, last, max);
      NamedKeepsList(NameAll(p, init), q.list, last.pid, TrimRight(last.kind));
    }
  }

  /** Parsing inverts printing, wherever the line stands in the response: the demux id, the pids
      in order of first occurrence, and the named pids as assigned until they freeze. */
  lemma ParseOfPrint(before: string, id: char, es: seq<Entry>, after: string, p: Pids, max: nat)
    requires '0' <= id <= '9' && '+' !in after && forall e :: e in es ==> Printable(e)
    requires p.list == [] && max >= 0x2000
    ensures var line := Line(before + Print(id, es) + after);
            && line.Some? && |line.value| >= 3 && line.value[1] == id
            && NoteAll(p, ListTokens(line.value), max) == NameAll(p, es).(list := FirstOccurrences(PidsOf(es)))
            && Assigned(p, es, NoteAll(p, ListTokens(line.value), max))
  {
    hide Find, Pieces, NoteAll, NameAll, LastOf, AllKnown, KnownAfter;
    NameAllAssigns(p, es);
    LineOfPrint(before, id, es, after);
    var line := "+" + [id] + ":" + PrintList(es);
    assert line[3..] == PrintList(es);
    ListIsPlain(es);
    FindAfter(PrintList(es), "", '\0');
    assert PrintList(es) + "" == PrintList(es);
    assert CString(PrintList(es)) == PrintList(es);
    PiecesOfList(es);
    NoteAllOfEntries(p, es, max);
  }

  /** The demuxer itself on a printed list. */
  method ReadBack(before: string, id: char, es: seq<Entry>, after: string, max: nat) returns (d: Demuxer, pids: seq<nat>)
    requires '0' <= id <= '9' && '+' !in after && max >= 0x2000 && forall e :: e in es ==> Printable(e)
    ensures d.demuxId == id as int - '0' as int && pids == FirstOccurrences(PidsOf(es))
    ensures d.Kept(pids) == NameAll(Pids(-1, 0, 0, 0, []), es).(list := pids)
    ensures Assigned(Pids(-1, 0, 0, 0, []), es, d.Kept(pids))
  {
    d := new Demuxer(max);
    ParseOfPrint(before, id, es, after, Pids(-1, 0, 0, 0, []), max);
    var ok;
    ok, pids := d.ParseWebifResponse(before + Print(id, es) + after, []);
  }
}
