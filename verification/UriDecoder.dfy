/** src/UriDecoder.cpp: percent decoding in place, its meaning as a decoder of tokens, and the
    round trip with percent encoding (section 2.1 of RFC 3986).

    A wchar_t is an int, a char a number below 256. */
module UriDecoder {
  const BR_TO_LF: int := 0
  const BR_TO_CRLF: int := 1
  const BR_TO_CR: int := 2
  const BR_DONT_TOUCH: int := 6

  const NUL: int := 0
  const LF: int := 10
  const CR: int := 13
  const SPACE: int := 32
  const PERCENT: int := 37
  const PLUS: int := 43

  predicate IsHexDigit(c: int) { 48 <= c <= 57 || 97 <= c <= 102 || 65 <= c <= 70 }

  /** The value of a hex digit, 0 for anything else. */
  function H2i(c: int): int {
    if 48 <= c <= 57 then 9 + c - 57 else if 97 <= c <= 102 then 15 + c - 102
    else if 65 <= c <= 70 then 15 + c - 70 else 0
  }

  /** The hex digit of a value, in upper or lower case. */
  function HexDigit(v: int, upper: bool): (c: int)
    requires 0 <= v < 16
    ensures IsHexDigit(c) && H2i(c) == v
  {
    if v < 10 then 48 + v else if upper then 55 + v else 87 + v
  }

  // ----- the pure decoder

  /** An input is literal characters and complete escapes, read from the left. */
  datatype Token = Lit(c: int) | Esc(code: int)

  predicate StartsEscape(s: seq<int>) { |s| >= 3 && s[0] == PERCENT && IsHexDigit(s[1]) && IsHexDigit(s[2]) }

  function Tokens(s: seq<int>): seq<Token> {
    if |s| == 0 then []
    else if StartsEscape(s) then [Esc(16 * H2i(s[1]) + H2i(s[2]))] + Tokens(s[3..])
    else [Lit(s[0])] + Tokens(s[1..])
  }

  function Break(mode: int): (b: seq<int>)
    ensures |b| <= 2
  {
    if mode == BR_TO_LF then [LF] else if mode == BR_TO_CRLF then [CR, LF]
    else if mode == BR_TO_CR then [CR] else []
  }

  predicate Converts(mode: int) { mode == BR_TO_LF || mode == BR_TO_CRLF || mode == BR_TO_CR }

  /** The characters of an escape; cr says whether an escaped CR came just before. */
  function EscapeText(code: int, mode: int, cr: bool): (t: seq<int>)
    ensures |t| <= 2
  {
    if !Converts(mode) then [code]
    else if code == CR then Break(mode)
    else if code == LF then if cr then [] else Break(mode)
    else [code]
  }

  /** An escaped CR or LF as the modes 0 to 2 write it, an LF behind an escaped CR not at all; any other
      escape, and in any other mode, is its code. */
  lemma EscapeTextIs(code: int, mode: int, cr: bool)
    ensures code == 13 || (code == 10 && !cr) ==>
              EscapeText(code, mode, cr)
              == if mode == 0 then [10] else if mode == 1 then [13, 10] else if mode == 2 then [13] else [code]
    ensures code == 10 && cr ==> EscapeText(code, mode, cr) == if 0 <= mode <= 2 then [] else [10]
    ensures code != 13 && code != 10 ==> EscapeText(code, mode, cr) == [code]
  {}

  /** A plus is a space only behind a decoded escape. */
  function LitText(c: int, seen: bool): int { if c == PLUS && seen then SPACE else c }

  function Text(t: Token, mode: int, seen: bool, cr: bool): (r: seq<int>)
    ensures |r| <= 2
  {
    match t
    case Lit(c) => [LitText(c, seen)]
    case Esc(code) => EscapeText(code, mode, cr)
  }

  function Render(ts: seq<Token>, mode: int, seen: bool, cr: bool): seq<int> {
    if |ts| == 0 then []
    else Text(ts[0], mode, seen, cr) + Render(ts[1..], mode, seen || ts[0].Esc?, ts[0] == Esc(CR))
  }

  function Decoded(s: seq<int>, mode: int): seq<int> { Render(Tokens(s), mode, false, false) }

  lemma HexDigitsAre(c: int)
    ensures IsHexDigit(c) <==>
              c in {48, 49, 50, 51, 52, 53, 54, 55, 56, 57, 65, 66, 67, 68, 69, 70, 97, 98, 99, 100, 101, 102}
  {}

  /** Without a percent sign in front of two hex digits nothing changes, in any mode. */
  lemma {:induction false} PlainStays(s: seq<int>, mode: int)
    requires forall i, j, k :: 0 <= i && j == i + 1 && k == i + 2 < |s| && s[i] == 37 ==> !IsHexDigit(s[j]) || !IsHexDigit(s[k])
    ensures Decoded(s, mode) == s
  {
    hide IsHexDigit;
    if |s| > 0 {
      PlainStays(s[1..], mode);
      assert Tokens(s) == [Lit(s[0])] + Tokens(s[1..]);
    }
  }

  // ----- the loop over the buffer

  /** The length of the C string in a buffer. */
  function Length(s: seq<int>): (n: nat)
    ensures n <= |s|
    ensures forall i :: 0 <= i < n ==> s[i] != NUL
    ensures n < |s| ==> s[n] == NUL
  {
    if |s| == 0 || s[0] == NUL then 0 else 1 + Length(s[1..])
  }

  method WriteBreak(a: array<int>, write: nat, mode: int) returns (next: nat)
    requires write + 2 <= a.Length && Converts(mode)
    modifies a
    ensures next == write + |Break(mode)| && a[..next] == old(a[..write]) + Break(mode)
    ensures forall i :: write + 2 <= i < a.Length ==> a[i] == old(a[i])
  {
    if mode == BR_TO_LF {
      a[write] := LF;
      next := write + 1;
    } else if mode == BR_TO_CRLF {
      a[write], a[write + 1] := CR, LF;
      next := write + 2;
    } else {
      a[write] := CR;
      next := write + 1;
    }
  }

  /** The escape at read, whose three characters are read before anything is written. */
  method PutEscape(a: array<int>, read: nat, write: nat, mode: int, prevWasCr: bool) returns (next: nat, isCr: bool)
    requires write <= read && read + 3 <= a.Length
    modifies a
    ensures var code := 16 * H2i(old(a[read + 1])) + H2i(old(a[read + 2]));
            && isCr == (code == CR) && next == write + |EscapeText(code, mode, prevWasCr)|
            && a[..next] == old(a[..write]) + EscapeText(code, mode, prevWasCr)
    ensures next <= write + 2 && forall i :: read + 3 <= i < a.Length ==> a[i] == old(a[i])
  {
    var code := 16 * H2i(a[read + 1]) + H2i(a[read + 2]);
    next, isCr := write, code == CR;
    if code == LF && Converts(mode) {
      if !prevWasCr {
        next := WriteBreak(a, write, mode);
      }
    } else if code == CR && Converts(mode) {
      next := WriteBreak(a, write, mode);
    } else {
      a[write] := code;
      next := write + 1;
    }
  }

  /** A percent sign and the single hex digit behind it. */
  method PutPair(a: array<int>, read: nat, write: nat)
    requires write <= read && read + 2 <= a.Length
    modifies a
    ensures a[..write + 2] == old(a[..write]) + [old(a[read]), old(a[read + 1])]
    ensures forall i :: read + 2 <= i < a.Length ==> a[i] == old(a[i])
  {
    if read > write {
      a[write] := a[read];
      a[write + 1] := a[read + 1];
    }
  }

  method PutLiteral(a: array<int>, read: nat, write: nat)
    requires write <= read < a.Length
    modifies a
    ensures a[..write + 1] == old(a[..write]) + [LitText(old(a[read]), read > write)]
    ensures forall i :: read + 1 <= i < a.Length ==> a[i] == old(a[i])
  {
    if read > write {
      a[write] := if a[read] == PLUS then SPACE else a[read];
    }
  }

  /** What remains to be produced from position read of src. */
  function Rest(src: seq<int>, read: nat, mode: int, seen: bool, cr: bool): seq<int>
    requires read <= |src|
  {
    Render(Tokens(src[read..]), mode, seen, cr)
  }

  lemma RestOfEscape(src: seq<int>, read: nat, mode: int, seen: bool, cr: bool)
    requires read + 3 <= |src| && StartsEscape(src[read..])
    ensures var code := 16 * H2i(src[read + 1]) + H2i(src[read + 2]);
            Rest(src, read, mode, seen, cr) == EscapeText(code, mode, cr) + Rest(src, read + 3, mode, true, code == CR)
  {}

  lemma RestOfLit(src: seq<int>, read: nat, mode: int, seen: bool, cr: bool)
    requires read < |src| && !StartsEscape(src[read..])
    ensures Rest(src, read, mode, seen, cr) == [LitText(src[read], seen)] + Rest(src, read + 1, mode, seen, false)
  {}

  lemma Regroup(a: seq<int>, b: seq<int>, c: seq<int>)
    ensures a + (b + c) == (a + b) + c
  {}

  lemma RestAtEnds(src: seq<int>, mode: int)
    ensures Rest(src, 0, mode, false, false) == Decoded(src, mode)
  {}

  lemma RestOfNothing(src: seq<int>, mode: int, seen: bool, cr: bool)
    ensures Rest(src, |src|, mode, seen, cr) == []
  {}

  /** An escape is complete in the string exactly when it is in the terminated buffer. */
  lemma EscapeInBuffer(src: seq<int>, read: nat, c1: int, c2: int)
    requires read < |src|
    requires c1 == (if read + 1 < |src| then src[read + 1] else NUL)
    requires read + 1 < |src| ==> c2 == if read + 2 < |src| then src[read + 2] else NUL
    ensures StartsEscape(src[read..]) <==> src[read] == PERCENT && IsHexDigit(c1) && IsHexDigit(c2)
    ensures IsHexDigit(c1) ==> read + 1 < |src|
  {}

  lemma RestOfPair(src: seq<int>, read: nat, mode: int, seen: bool, cr: bool)
    requires read + 2 <= |src| && src[read] == PERCENT && IsHexDigit(src[read + 1]) && !StartsEscape(src[read..])
    ensures Rest(src, read, mode, seen, cr) == [PERCENT, src[read + 1]] + Rest(src, read + 2, mode, seen, false)
  {
    RestOfLit(src, read, mode, seen, cr);
    RestOfLit(src, read + 1, mode, seen, false);
  }

  /** One turn of the loop: text is what it appends to the output. */
  method Turn(a: array<int>, read0: nat, write0: nat, cr0: bool, mode: int, ghost src: seq<int>)
    returns (read: nat, write: nat, cr: bool, ghost text: seq<int>)
    requires write0 <= read0 < |src| < a.Length && a[|src|] == NUL
    requires forall i :: read0 <= i < |src| ==> a[i] == src[i]
    modifies a
    ensures read0 < read <= |src| && write <= read && read0 - write0 <= read - write
    ensures read > write <==> read0 > write0 || read == read0 + 3
    ensures a[..write] == old(a[..write0]) + text
    ensures forall i :: read <= i < a.Length ==> a[i] == old(a[i])
    ensures Rest(src, read0, mode, read0 > write0, cr0) == text + Rest(src, read, mode, read > write, cr)
  {
    hide Tokens, Render, Rest, StartsEscape, EscapeText, H2i;
    read, write, cr := read0, write0, cr0;
    ghost var seen := read > write;
    EscapeInBuffer(src, read, a[read + 1], if read + 1 < |src| then a[read + 2] else NUL);
    if a[read] == PERCENT && IsHexDigit(a[read + 1]) && IsHexDigit(a[read + 2]) {
      text := EscapeText(16 * H2i(a[read + 1]) + H2i(a[read + 2]), mode, cr);
      RestOfEscape(src, read, mode, seen, cr);
      write, cr := PutEscape(a, read, write, mode, cr);
      read := read + 3;
    } else if a[read] == PERCENT && IsHexDigit(a[read + 1]) {
      text := [PERCENT, a[read + 1]];
      RestOfPair(src, read, mode, seen, cr);
      PutPair(a, read, write);
      read, write, cr := read + 2, write + 2, false;
    } else {
      text := [LitText(a[read], seen)];
      RestOfLit(src, read, mode, seen, cr);
      PutLiteral(a, read, write);
      read, write, cr := read + 1, write + 1, false;
    }
  }

  /** decode_uri: the buffer ends up holding the decoded string; nothing behind the terminator
      is read or written.  A null buffer gives -1. */
  method DecodeUri(a: array?<int>, breakCond: int) returns (end: int)
    requires a != null ==> Length(a[..]) < a.Length
    modifies a
    ensures a == null ==> end == -1
    ensures a != null ==>
              var n := Length(old(a[..]));
              && 0 <= end <= n && a[..end] == Decoded(old(a[..n]), breakCond) && a[end] == NUL
              && a[n..] == old(a[n..])
  {
    if a == null {
      return -1;
    }
    hide Tokens, Render, Rest, StartsEscape, EscapeText, H2i;
    ghost var n := Length(a[..]);
    ghost var src := a[..n];
    ghost var goal := Decoded(src, breakCond);
    var read, write, prevWasCr := 0, 0, false;
    RestAtEnds(src, breakCond);
    while true
      invariant 0 <= write <= read <= n < a.Length
      invariant forall i :: read <= i < a.Length ==> a[i] == old(a[i])
      invariant goal == a[..write] + Rest(src, read, breakCond, read > write, prevWasCr)
      decreases n - read
    {
      assert a[n] == NUL && (read < n ==> a[read] == src[read] != NUL);
      if a[read] == NUL {
        RestOfNothing(src, breakCond, read > write, prevWasCr);
        if read > write {
          a[write] := NUL;
        }
        return write;
      }
      ghost var done, text := a[..write], [];
      read, write, prevWasCr, text := Turn(a, read, write, prevWasCr, breakCond, src);
      Regroup(done, text, Rest(src, read, breakCond, read > write, prevWasCr));
    }
  }

  // ----- byte strings

  /** A char assigned to a wchar_t, on a platform with or without sign. */
  function Widen(b: int, signed: bool): int { if signed && b >= 128 then b - 256 else b }

  /** A wchar_t assigned to a char. */
  function Narrow(w: int): int { w % 256 }

  function Wide(s: seq<int>, signed: bool): (r: seq<int>)
    ensures |r| == |s| && forall i :: 0 <= i < |s| ==> r[i] == Widen(s[i], signed)
  {
    seq(|s|, i requires 0 <= i < |s| => Widen(s[i], signed))
  }

  function Narrowed(s: seq<int>): (r: seq<int>)
    ensures |r| == |s| && forall i :: 0 <= i < |s| ==> r[i] == Narrow(s[i])
  {
    seq(|s|, i requires 0 <= i < |s| => Narrow(s[i]))
  }

  ghost predicate IsCString(s: seq<int>) { forall i :: 0 <= i < |s| ==> 0 < s[i] < 256 }

  /** decode: widen, decode in a fixed buffer without touching line breaks, narrow.  The result
      ends at the first decoded NUL. */
  method Decode(input: seq<int>, signed: bool) returns (out: seq<int>)
    requires IsCString(input) && |input| < 1024
    ensures var d := Decoded(Wide(input, signed), BR_DONT_TOUCH); out == Narrowed(d[..Length(d)])
  {
    var wide := Wide(input, signed);
    var working := new int[1024](i => if 0 <= i < |wide| then wide[i] else NUL);
    LengthIs(working[..], |wide|);
    assert working[..|wide|] == wide;
    var end := DecodeUri(working, BR_DONT_TOUCH);
    var i := 0;
    while working[i] != NUL
      invariant 0 <= i <= end < working.Length && working[end] == NUL
      invariant forall j :: 0 <= j < i ==> working[j] != NUL
      decreases end - i
    {
      i := i + 1;
    }
    ghost var d := Decoded(wide, BR_DONT_TOUCH);
    assert forall j :: 0 <= j < end ==> working[j] == d[j];
    LengthIs(d, i);
    assert working[..i] == d[..i];
    out := Narrowed(working[..i]);
  }

  lemma LengthIs(s: seq<int>, n: nat)
    requires n <= |s| && (forall i :: 0 <= i < n ==> s[i] != NUL) && (n < |s| ==> s[n] == NUL)
    ensures Length(s) == n
  {}

  // ----- percent encoding and its inverse

  /** How one byte is sent: as it is, or as an escape with hex digits of chosen case. */
  datatype Choice = Raw | Escaped(upper1: bool, upper2: bool)

  function EncodeByte(b: int, c: Choice): seq<int>
    requires 0 <= b < 256
  {
    if c.Raw? then [b] else [PERCENT, HexDigit(b / 16, c.upper1), HexDigit(b % 16, c.upper2)]
  }

  function Encode(s: seq<int>, cs: seq<Choice>): (r: seq<int>)
    requires IsCString(s) && |cs| == |s|
    ensures IsCString(r)
  {
    if |s| == 0 then [] else EncodeByte(s[0], cs[0]) + Encode(s[1..], cs[1..])
  }

  /** Every percent sign is escaped. */
  ghost predicate EscapesPercent(s: seq<int>, cs: seq<Choice>)
    requires |cs| == |s|
  {
    forall i :: 0 <= i < |s| && s[i] == PERCENT ==> cs[i].Escaped?
  }

  /** Every plus behind an escape is escaped. */
  ghost predicate EscapesLatePlus(s: seq<int>, cs: seq<Choice>, seen: bool)
    requires |cs| == |s|
  {
    forall j :: 0 <= j < |s| && s[j] == PLUS && cs[j].Raw? ==> !seen && forall i :: 0 <= i < j ==> cs[i].Raw?
  }

  /** The token a byte is sent as. */
  function Sent(b: int, c: Choice, signed: bool): Token { if c.Raw? then Lit(Widen(b, signed)) else Esc(b) }

  function SentAll(s: seq<int>, cs: seq<Choice>, signed: bool): (r: seq<Token>)
    requires |cs| == |s|
    ensures |r| == |s|
  {
    if |s| == 0 then [] else [Sent(s[0], cs[0], signed)] + SentAll(s[1..], cs[1..], signed)
  }

  /** The decoder sees exactly the tokens that were sent. */
  lemma {:induction false} TokensOfEncoding(s: seq<int>, cs: seq<Choice>, signed: bool)
    requires IsCString(s) && |cs| == |s| && EscapesPercent(s, cs)
    ensures Tokens(Wide(Encode(s, cs), signed)) == SentAll(s, cs, signed)
  {
    if |s| > 0 {
      TokensOfEncoding(s[1..], cs[1..], signed);
      var first, rest := EncodeByte(s[0], cs[0]), Encode(s[1..], cs[1..]);
      var wide := Wide(first + rest, signed);
      assert wide[|first|..] == Wide(rest, signed);
      if cs[0].Raw? {
        assert Widen(s[0], signed) != PERCENT;
      }
    }
  }

  lemma TextOfSent(b: int, c: Choice, signed: bool, seen: bool, cr: bool)
    requires 0 < b < 256
    ensures var t := Text(Sent(b, c, signed), BR_DONT_TOUCH, seen, cr);
            |t| == 1 && (Narrow(t[0]) == b <==> !(seen && c.Raw? && b == PLUS))
  {}

  lemma NarrowedCons(x: int, rest: seq<int>, s: seq<int>)
    requires |s| > 0
    ensures Narrowed([x] + rest) == s <==> Narrow(x) == s[0] && Narrowed(rest) == s[1..]
  {}

  /** Without break conversion every token gives one character: the byte sent, unless a raw plus
      stands behind an escape. */
  lemma {:induction false} RenderOfSent(s: seq<int>, cs: seq<Choice>, signed: bool, seen: bool, cr: bool)
    requires IsCString(s) && |cs| == |s|
    ensures Narrowed(Render(SentAll(s, cs, signed), BR_DONT_TOUCH, seen, cr)) == s <==> EscapesLatePlus(s, cs, seen)
  {
    if |s| > 0 {
      hide Narrow, Text, EscapesLatePlus, Narrowed;
      var ts := SentAll(s, cs, signed);
      assert ts[1..] == SentAll(s[1..], cs[1..], signed);
      var seen', cr' := seen || ts[0].Esc?, ts[0] == Esc(CR);
      var text := Text(ts[0], BR_DONT_TOUCH, seen, cr);
      TextOfSent(s[0], cs[0], signed, seen, cr);
      RenderOfSent(s[1..], cs[1..], signed, seen', cr');
      assert text == [text[0]];
      NarrowedCons(text[0], Render(ts[1..], BR_DONT_TOUCH, seen', cr'), s);
      LatePlusCons(s, cs, seen);
    }
  }

  lemma LatePlusCons(s: seq<int>, cs: seq<Choice>, seen: bool)
    requires |cs| == |s| > 0
    ensures EscapesLatePlus(s, cs, seen) <==>
              !(seen && cs[0].Raw? && s[0] == PLUS) && EscapesLatePlus(s[1..], cs[1..], seen || cs[0].Escaped?)
  {}

  /** Percent encoding is undone, whichever bytes are escaped and in whatever case, as long as
      each percent sign is; exactly when no plus is left raw behind an escape. */
  lemma {:induction false} RoundTrip(s: seq<int>, cs: seq<Choice>, signed: bool)
    requires IsCString(s) && |cs| == |s| && EscapesPercent(s, cs)
    ensures Narrowed(Decoded(Wide(Encode(s, cs), signed), BR_DONT_TOUCH)) == s <==> EscapesLatePlus(s, cs, false)
  {
    TokensOfEncoding(s, cs, signed);
    RenderOfSent(s, cs, signed, false, false);
  }

  /** Byte by byte: what was sent, but a space for a raw plus behind an escape. */
  lemma {:induction false} DecodedBytes(s: seq<int>, cs: seq<Choice>, signed: bool)
    requires IsCString(s) && |cs| == |s| && EscapesPercent(s, cs)
    ensures var d := Narrowed(Decoded(Wide(Encode(s, cs), signed), BR_DONT_TOUCH));
            && |d| == |s|
            && forall i :: 0 <= i < |s| ==>
                 d[i] == if s[i] == 43 && cs[i].Raw? && exists j :: 0 <= j < i && cs[j].Escaped? then 32 else s[i]
  {
    TokensOfEncoding(s, cs, signed);
    SentBytes(s, cs, signed, false, false);
  }

  ghost predicate EscapedBefore(cs: seq<Choice>, i: int)
    requires i <= |cs|
  {
    exists j :: 0 <= j < i && cs[j].Escaped?
  }

  lemma {:induction false} SentBytes(s: seq<int>, cs: seq<Choice>, signed: bool, seen: bool, cr: bool)
    requires IsCString(s) && |cs| == |s|
    ensures var d := Narrowed(Render(SentAll(s, cs, signed), BR_DONT_TOUCH, seen, cr));
            && |d| == |s|
            && forall i :: 0 <= i < |s| ==>
                 d[i] == if s[i] == 43 && cs[i].Raw? && (seen || EscapedBefore(cs, i)) then 32 else s[i]
  {
    hide EscapedBefore, Narrow, Text;
    if |s| > 0 {
      var ts := SentAll(s, cs, signed);
      assert ts[1..] == SentAll(s[1..], cs[1..], signed);
      SentByte(s[0], cs[0], signed, seen, cr);
      SentBytes(s[1..], cs[1..], signed, seen || ts[0].Esc?, ts[0] == Esc(CR));
      forall i | 0 <= i < |s|
        ensures EscapedBefore(cs, i) <==> i > 0 && (cs[0].Escaped? || EscapedBefore(cs[1..], i - 1))
      {
        EscapedLater(cs, i);
      }
    }
  }

  lemma SentByte(b: int, c: Choice, signed: bool, seen: bool, cr: bool)
    requires 0 < b < 256
    ensures var t := Text(Sent(b, c, signed), BR_DONT_TOUCH, seen, cr);
            |t| == 1 && Narrow(t[0]) == if b == 43 && c.Raw? && seen then 32 else b
  {}

  lemma EscapedLater(cs: seq<Choice>, i: nat)
    requires i < |cs|
    ensures EscapedBefore(cs, i) <==> i > 0 && (cs[0].Escaped? || EscapedBefore(cs[1..], i - 1))
  {
    if i > 0 && cs[0].Escaped? {
      assert EscapedBefore(cs, i);
    }
    if i > 0 && EscapedBefore(cs[1..], i - 1) {
      var j :| 0 <= j < i - 1 && cs[1..][j].Escaped?;
      assert cs[j + 1].Escaped?;
    }
    if EscapedBefore(cs, i) {
      var j :| 0 <= j < i && cs[j].Escaped?;
      assert j > 0 ==> cs[1..][j - 1].Escaped?;
    }
  }

  /** ... in particular when every plus is escaped; then decode returns the original string. */
  method EncodeThenDecode(s: seq<int>, cs: seq<Choice>, signed: bool) returns (out: seq<int>)
    requires IsCString(s) && |cs| == |s| && EscapesPercent(s, cs) && |Encode(s, cs)| < 1024
    requires forall i :: 0 <= i < |s| && s[i] == PLUS ==> cs[i].Escaped?
    ensures out == s
  {
    out := Decode(Encode(s, cs), signed);
    RoundTrip(s, cs, signed);
    var d := Decoded(Wide(Encode(s, cs), signed), BR_DONT_TOUCH);
    assert forall i :: 0 <= i < |d| ==> Narrow(d[i]) == Narrowed(d)[i] == s[i] != 0;
    LengthIs(d, |d|);
    assert d[..|d|] == d;
  }

  // ----- line breaks

  /** Breaks among the escapes: CR LF in a row, a lone CR and a lone LF count one each. */
  function Breaks(ts: seq<Token>): nat {
    if |ts| == 0 then 0
    else if ts[0] == Esc(CR) && |ts| > 1 && ts[1] == Esc(LF) then 1 + Breaks(ts[2..])
    else (if ts[0] == Esc(CR) || ts[0] == Esc(LF) then 1 else 0) + Breaks(ts[1..])
  }

  function RawLf(ts: seq<Token>): nat {
    if |ts| == 0 then 0 else (if ts[0] == Lit(LF) then 1 else 0) + RawLf(ts[1..])
  }

  function CountLf(s: seq<int>): nat { if |s| == 0 then 0 else (if s[0] == LF then 1 else 0) + CountLf(s[1..]) }

  /** Every LF replaced by sub. */
  function Replace(s: seq<int>, sub: seq<int>): seq<int> {
    if |s| == 0 then [] else (if s[0] == LF then sub else [s[0]]) + Replace(s[1..], sub)
  }

  /** Breaks that a decoder standing behind an escaped CR, or not, still has to produce. */
  function BreaksAfter(ts: seq<Token>, cr: bool): int {
    Breaks(ts) - if cr && |ts| > 0 && ts[0] == Esc(LF) then 1 else 0
  }

  lemma BreaksStep(ts: seq<Token>, cr: bool)
    requires |ts| > 0
    ensures BreaksAfter(ts, cr) == BreaksAfter(ts[1..], ts[0] == Esc(CR))
                                   + if ts[0] == Esc(CR) || (ts[0] == Esc(LF) && !cr) then 1 else 0
  {}

  lemma {:induction false} CountLfConcat(a: seq<int>, b: seq<int>)
    ensures CountLf(a + b) == CountLf(a) + CountLf(b)
  {
    if |a| == 0 {
      assert a + b == b;
    } else {
      assert (a + b)[1..] == a[1..] + b;
      CountLfConcat(a[1..], b);
    }
  }

  lemma {:induction false} ReplaceConcat(a: seq<int>, b: seq<int>, sub: seq<int>)
    ensures Replace(a + b, sub) == Replace(a, sub) + Replace(b, sub)
  {
    if |a| == 0 {
      assert a + b == b;
    } else {
      assert (a + b)[1..] == a[1..] + b;
      ReplaceConcat(a[1..], b, sub);
    }
  }

  lemma {:induction false} ReplaceSize(s: seq<int>, sub: seq<int>)
    ensures |Replace(s, sub)| == |s| + CountLf(s) * (|sub| - 1)
    ensures CountLf(sub) == 0 ==> CountLf(Replace(s, sub)) == 0
  {
    if |s| > 0 {
      ReplaceSize(s[1..], sub);
      CountLfConcat(if s[0] == LF then sub else [s[0]], Replace(s[1..], sub));
      OneMore(CountLf(s[1..]), |sub| - 1);
    }
  }

  lemma OneMore(n: int, k: int)
    ensures (n + 1) * k == n * k + k
  {}

  /** In the LF mode the LFs are the breaks and the raw LFs. */
  lemma {:induction false} LfModeCounts(ts: seq<Token>, seen: bool, cr: bool)
    ensures CountLf(Render(ts, BR_TO_LF, seen, cr)) == BreaksAfter(ts, cr) + RawLf(ts)
  {
    if |ts| > 0 {
      var text := Text(ts[0], BR_TO_LF, seen, cr);
      LfModeCounts(ts[1..], seen || ts[0].Esc?, ts[0] == Esc(CR));
      CountLfConcat(text, Render(ts[1..], BR_TO_LF, seen || ts[0].Esc?, ts[0] == Esc(CR)));
      BreaksStep(ts, cr);
      assert CountLf([LF]) == 1;
    }
  }

  /** In the CR mode only raw LFs are left. */
  lemma {:induction false} CrModeCounts(ts: seq<Token>, seen: bool, cr: bool)
    ensures CountLf(Render(ts, BR_TO_CR, seen, cr)) == RawLf(ts)
  {
    if |ts| > 0 {
      var text := Text(ts[0], BR_TO_CR, seen, cr);
      CrModeCounts(ts[1..], seen || ts[0].Esc?, ts[0] == Esc(CR));
      CountLfConcat(text, Render(ts[1..], BR_TO_CR, seen || ts[0].Esc?, ts[0] == Esc(CR)));
    }
  }

  lemma {:induction false} CrlfModeSize(ts: seq<Token>, seen: bool, cr: bool)
    ensures |Render(ts, BR_TO_CRLF, seen, cr)| == |Render(ts, BR_TO_LF, seen, cr)| + BreaksAfter(ts, cr)
  {
    if |ts| > 0 {
      CrlfModeSize(ts[1..], seen || ts[0].Esc?, ts[0] == Esc(CR));
      BreaksStep(ts, cr);
    }
  }

  lemma TextConverted(t: Token, mode: int, seen: bool, cr: bool)
    requires t != Lit(LF) && Converts(mode)
    ensures Text(t, mode, seen, cr) == Replace(Text(t, BR_TO_LF, seen, cr), Break(mode))
  {}

  lemma {:induction false} Converted(ts: seq<Token>, mode: int, seen: bool, cr: bool)
    requires RawLf(ts) == 0 && Converts(mode)
    ensures Render(ts, mode, seen, cr) == Replace(Render(ts, BR_TO_LF, seen, cr), Break(mode))
  {
    if |ts| > 0 {
      var text := Text(ts[0], BR_TO_LF, seen, cr);
      TextConverted(ts[0], mode, seen, cr);
      Converted(ts[1..], mode, seen || ts[0].Esc?, ts[0] == Esc(CR));
      ReplaceConcat(text, Render(ts[1..], BR_TO_LF, seen || ts[0].Esc?, ts[0] == Esc(CR)), Break(mode));
    }
  }

  lemma {:induction false} RawLfIsLf(s: seq<int>)
    ensures RawLf(Tokens(s)) == 0 <==> LF !in s
  {
    if |s| > 0 {
      if StartsEscape(s) {
        RawLfIsLf(s[3..]);
        assert s == [s[0], s[1], s[2]] + s[3..];
      } else {
        RawLfIsLf(s[1..]);
        assert s == [s[0]] + s[1..];
      }
    }
  }

  /** The newline modes differ only in the break they write, exactly when the input has no raw
      LF; and every escaped CRLF, CR or LF gives one break. */
  lemma ModesAgree(s: seq<int>)
    ensures Decoded(s, BR_TO_CRLF) == Replace(Decoded(s, BR_TO_LF), [CR, LF]) <==> LF !in s
    ensures Decoded(s, BR_TO_CR) == Replace(Decoded(s, BR_TO_LF), [CR]) <==> LF !in s
    ensures LF !in s ==> CountLf(Decoded(s, BR_TO_LF)) == Breaks(Tokens(s))
  {
    var ts := Tokens(s);
    assert CountLf([CR]) == 0;
    RawLfIsLf(s);
    LfModeCounts(ts, false, false);
    CrModeCounts(ts, false, false);
    CrlfModeSize(ts, false, false);
    ReplaceSize(Decoded(s, BR_TO_LF), [CR, LF]);
    ReplaceSize(Decoded(s, BR_TO_LF), [CR]);
    if LF !in s {
      Converted(ts, BR_TO_CRLF, false, false);
      Converted(ts, BR_TO_CR, false, false);
    }
  }
}
