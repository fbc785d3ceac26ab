/** The string helpers of src/Util.cpp and the C library conversion the PID list needs.
    A std::string is a string; positions are indices, and -1 is npos. */
module Util {
  const DROP: string := " \t\n\U{0B}\r"

  predicate Dropped(c: char) { c in DROP }

  function TrimRight(s: string): (r: string)
    ensures r <= s && (|r| > 0 ==> !Dropped(r[|r| - 1])) && forall i :: |r| <= i < |s| ==> Dropped(s[i])
  {
    if |s| > 0 && Dropped(s[|s| - 1]) then TrimRight(s[..|s| - 1]) else s
  }

  function TrimLeft(s: string): string {
    if |s| > 0 && Dropped(s[0]) then TrimLeft(s[1..]) else s
  }

  function Trim(s: string): string { TrimLeft(TrimRight(s)) }

  /** White space as the trimming takes it. */
  lemma DroppedIs(c: char)
    ensures Dropped(c) <==> c == ' ' || 9 <= c as int <= 11 || c as int == 13
  {}

  lemma {:induction false} TrimLeftIs(s: string) returns (k: nat)
    ensures k <= |s| && TrimLeft(s) == s[k..] && (k < |s| ==> !Dropped(s[k])) && forall i :: 0 <= i < k ==> Dropped(s[i])
  {
    k := 0;
    if |s| > 0 && Dropped(s[0]) {
      k := TrimLeftIs(s[1..]);
      assert forall i :: 1 <= i < k + 1 ==> s[i] == s[1..][i - 1];
      k := k + 1;
    }
  }

  /** Trimming takes the white space off both ends, and nothing else. */
  lemma {:induction false} TrimIs(s: string) returns (a: nat, b: nat)
    ensures a <= b <= |s| && Trim(s) == s[a..b] && (a < b ==> !Dropped(s[a]) && !Dropped(s[b - 1]))
    ensures forall i :: 0 <= i < a || b <= i < |s| ==> Dropped(s[i])
  {
    hide Dropped, TrimLeft;
    var r := TrimRight(s);
    a := TrimLeftIs(r);
    b := |r|;
    assert s[..b] == r && r[a..] == s[a..b];
  }

  /** The first position of c at or behind from; the length when there is none. */
  function Find(s: string, c: char, from: nat): (k: nat)
    requires from <= |s|
    ensures from <= k <= |s|
    ensures forall i :: from <= i < k ==> s[i] != c
    ensures k < |s| ==> s[k] == c
    decreases |s| - from
  {
    if from == |s| || s[from] == c then from else Find(s, c, from + 1)
  }

  /** The last position of c, or -1. */
  function RFind(s: string, c: char): (k: int)
    ensures -1 <= k < |s|
    ensures k >= 0 ==> s[k] == c
    ensures forall i :: k < i < |s| ==> s[i] != c
  {
    if |s| == 0 then -1 else if s[|s| - 1] == c then |s| - 1 else RFind(s[..|s| - 1], c)
  }

  /** The pieces std::getline delivers: a delimiter at the very end opens no further piece. */
  function Pieces(s: string, d: char): seq<string> {
    if |s| == 0 then []
    else
      var k := Find(s, d, 0);
      [s[..k]] + if k < |s| then Pieces(s[k + 1..], d) else []
  }

  ghost function Join(ps: seq<string>, d: char): string {
    if |ps| == 0 then "" else if |ps| == 1 then ps[0] else ps[0] + [d] + Join(ps[1..], d)
  }

  /** The pieces hold no delimiter, and joined they are the string, less a delimiter at the very end. */
  lemma {:induction false} PiecesJoin(s: string, d: char)
    ensures forall p :: p in Pieces(s, d) ==> d !in p
    ensures |s| > 0 ==> |Pieces(s, d)| > 0 && s == Join(Pieces(s, d), d) + if s[|s| - 1] == d then [d] else []
  {
    hide Pieces, Find, Join;
    if |s| > 0 {
      var k := Find(s, d, 0);
      PiecesStep(s, d);
      var rest := if k < |s| then s[k + 1..] else "";
      assert s == s[..k] + (if k < |s| then [d] else []) + rest;
      PiecesJoin(rest, d);
      PiecesOfNothing(d);
      JoinCons(s[..k], Pieces(rest, d), d);
      assert rest != "" ==> rest[|rest| - 1] == s[|s| - 1];
    } else {
      PiecesOfNothing(d);
    }
  }

  lemma JoinCons(a: string, ps: seq<string>, d: char)
    ensures Join([a] + ps, d) == if ps == [] then a else a + [d] + Join(ps, d)
  {
  }

  function TrimAll(ss: seq<string>): (r: seq<string>)
    ensures |r| == |ss| && forall i :: 0 <= i < |ss| ==> r[i] == Trim(ss[i])
  {
    seq(|ss|, i requires 0 <= i < |ss| => Trim(ss[i]))
  }

  method Split(data: string, delimiter: char) returns (tokens: seq<string>)
    ensures tokens == TrimAll(Pieces(data, delimiter))
  {
    hide Pieces, Trim, TrimAll, Find;
    tokens := [];
    var pos := 0;
    assert data[0..] == data;
    PiecesOfNothing(delimiter);
    while pos < |data|
      invariant 0 <= pos <= |data|
      invariant TrimAll(Pieces(data, delimiter)) == tokens + TrimAll(Pieces(data[pos..], delimiter))
    {
      var k := Find(data, delimiter, pos);
      PiecesFrom(data, delimiter, pos);
      var token := data[pos..k];
      pos := if k < |data| then k + 1 else k;
      TrimAllCons(token, Pieces(data[pos..], delimiter));
      ghost var rest := TrimAll(Pieces(data[pos..], delimiter));
      assert tokens + ([Trim(token)] + rest) == (tokens + [Trim(token)]) + rest;
      tokens := tokens + [Trim(token)];
    }
    assert data[pos..] == [];
  }

  lemma PiecesOfNothing(d: char)
    ensures Pieces("", d) == [] && TrimAll(Pieces("", d)) == []
  {}

  lemma TrimAllCons(s: string, ss: seq<string>)
    ensures TrimAll([s] + ss) == [Trim(s)] + TrimAll(ss)
  {}

  lemma FindShift(s: string, c: char, pos: nat)
    requires pos <= |s|
    ensures Find(s[pos..], c, 0) == Find(s, c, pos) - pos
  {}

  lemma PiecesStep(s: string, d: char)
    requires |s| > 0
    ensures var k := Find(s, d, 0); Pieces(s, d) == [s[..k]] + Pieces(if k < |s| then s[k + 1..] else "", d)
  {}

  lemma {:induction false} PiecesFrom(s: string, d: char, pos: nat)
    requires pos < |s|
    ensures var k := Find(s, d, pos);
            Pieces(s[pos..], d) == [s[pos..k]] + Pieces(s[if k < |s| then k + 1 else k..], d)
  {
    hide Find, Pieces;
    var k, t := Find(s, d, pos), s[pos..];
    FindShift(s, d, pos);
    PiecesStep(t, d);
    var rest := if k < |s| then t[k - pos + 1..] else "";
    assert rest == s[if k < |s| then k + 1 else k..];
    assert Pieces(t, d) == [t[..k - pos]] + Pieces(rest, d);
    assert t[..k - pos] == s[pos..k];
  }

  datatype Option<+T> = None | Some(value: T)
  datatype KeyValue = KeyValue(key: string, value: string)

  /** key and value around the first delimiter. */
  function SplitKeyValue(data: string, delimiter: char): Option<KeyValue> {
    var k := Find(data, delimiter, 0);
    if k == |data| then None else Some(KeyValue(data[..k], data[k + 1..]))
  }

  // ----- numbers

  predicate IsHex(c: char) { '0' <= c <= '9' || 'a' <= c <= 'f' || 'A' <= c <= 'F' }

  function HexValue(c: char): (v: nat)
    ensures v < 16
  {
    if '0' <= c <= '9' then c as int - '0' as int
    else if 'a' <= c <= 'f' then c as int - 'a' as int + 10
    else if 'A' <= c <= 'F' then c as int - 'A' as int + 10
    else 0
  }

  function SkipSpace(s: string): string {
    if |s| > 0 && s[0] in " \t\n\U{0B}\U{0C}\r" then SkipSpace(s[1..]) else s
  }

  function HexDigits(s: string, acc: nat): nat {
    if |s| > 0 && IsHex(s[0]) then HexDigits(s[1..], 16 * acc + HexValue(s[0])) else acc
  }

  /** strtoul in base 16, for an unsigned long of maximum max. */
  function StrToUL(s: string, max: nat): nat {
    var a := SkipSpace(s);
    var b := if |a| > 0 && (a[0] == '-' || a[0] == '+') then a[1..] else a;
    var c := if |b| > 2 && b[0] == '0' && (b[1] == 'x' || b[1] == 'X') && IsHex(b[2]) then b[2..] else b;
    var v := HexDigits(c, 0);
    if v > max then max else if |a| > 0 && a[0] == '-' && v > 0 then max + 1 - v else v
  }

  /** The hex form of a number, without leading zeros. */
  function Hex(n: nat): (s: string)
    ensures |s| > 0 && forall i :: 0 <= i < |s| ==> IsHex(s[i])
    ensures s[0] == '0' ==> |s| == 1
    ensures n > 0 ==> s[0] != '0'
  {
    var digit := if n % 16 < 10 then ('0' as int + n % 16) as char else ('a' as int + n % 16 - 10) as char;
    (if n < 16 then "" else Hex(n / 16)) + [digit]
  }

  lemma {:induction false} HexDigitsConcat(a: string, b: string, acc: nat)
    requires forall i :: 0 <= i < |a| ==> IsHex(a[i])
    ensures HexDigits(a + b, acc) == HexDigits(b, HexDigits(a, acc))
  {
    if |a| == 0 {
      assert a + b == b;
    } else {
      assert (a + b)[1..] == a[1..] + b;
      HexDigitsConcat(a[1..], b, 16 * acc + HexValue(a[0]));
    }
  }

  lemma {:induction false} HexDigitsOfHex(n: nat)
    ensures HexDigits(Hex(n), 0) == n
  {
    var high := if n < 16 then "" else Hex(n / 16);
    var digit := Hex(n)[|high|..];
    if n >= 16 {
      HexDigitsOfHex(n / 16);
    }
    HexDigitsConcat(high, digit, 0);
    assert Hex(n) == high + digit;
  }

  /** strtoul inverts the hex form of every number it can hold. */
  lemma StrToULOfHex(n: nat, max: nat)
    requires n <= max
    ensures StrToUL(Hex(n), max) == n
  {
    HexDigitsOfHex(n);
  }
}
