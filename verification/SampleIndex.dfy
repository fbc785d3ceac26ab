/** The time index m_samples, a std::map from pts to file offset.

    A sequence in increasing key order stands for the map; an iterator is an index into it,
    begin() is 0 and end() is the length. */
module SampleIndex {
  datatype Sample = Sample(pts: int, off: int)
  type Index = seq<Sample>

  ghost predicate Sorted(s: Index) { forall i, j :: 0 <= i < j < |s| ==> s[i].pts < s[j].pts }

  /** A smaller pts never has a larger offset. */
  ghost predicate Monotone(s: Index) { forall i, j :: 0 <= i < j < |s| ==> s[i].off <= s[j].off }

  lemma OutOfOrder(s: Index, l: nat, u: nat)
    requires l <= u < |s| && s[u].off < s[l].off
    ensures !Monotone(s)
  {}

  lemma EmptyIndex()
    ensures Sorted([]) && Monotone([])
  {}

  /** std::map::lower_bound: the first entry whose key is not below p. */
  function LowerBound(s: Index, p: int): (k: nat)
    ensures k <= |s|
    ensures forall i :: 0 <= i < k ==> s[i].pts < p
    ensures k < |s| ==> s[k].pts >= p
  {
    if |s| == 0 || s[0].pts >= p then 0 else 1 + LowerBound(s[1..], p)
  }

  /** samples[p] = off. */
  function Put(s: Index, p: int, off: int): Index {
    var k := LowerBound(s, p);
    if k < |s| && s[k].pts == p then s[k := Sample(p, off)] else s[..k] + [Sample(p, off)] + s[k..]
  }

  /** take_sample's test: with neighbours on both sides, the offset must lie between theirs. */
  predicate Fits(s: Index, p: int, off: int) {
    var k := LowerBound(s, p);
    0 < k < |s| ==> s[k - 1].off <= off <= s[k].off
  }

  /** In a sorted index only one position can be the lower bound. */
  lemma LowerBoundIs(s: Index, p: int, k: nat)
    requires Sorted(s) && k <= |s|
    requires k > 0 ==> s[k - 1].pts < p
    requires k < |s| ==> s[k].pts >= p
    ensures LowerBound(s, p) == k
  {}

  /** The test, between the neighbours themselves. */
  lemma FitsIff(s: Index, p: int, off: int)
    requires Sorted(s)
    ensures Fits(s, p, off) <==>
              forall i, j :: 0 <= i < j < |s| && j == i + 1 && s[i].pts < p <= s[j].pts ==> s[i].off <= off <= s[j].off
  {
    hide Sorted, LowerBound;
    var k := LowerBound(s, p);
    forall i, j | 0 <= i < j < |s| && j == i + 1 && s[i].pts < p <= s[j].pts ensures j == k {
      LowerBoundIs(s, p, j);
    }
  }

  /** The entries of the updated index, by position. */
  lemma PutAt(s: Index, p: int, off: int, i: nat)
    ensures var k, t := LowerBound(s, p), Put(s, p, off);
            && k < |t| && t[k] == Sample(p, off)
            && |t| == |s| + (if k < |s| && s[k].pts == p then 0 else 1)
            && (i < k ==> t[i] == s[i])
            && (k < i < |t| ==> t[i] == s[i - (|t| - |s|)])
  {}

  lemma PutSorted(s: Index, p: int, off: int)
    requires Sorted(s)
    ensures Sorted(Put(s, p, off))
  {}

  lemma PutKeeps(s: Index, p: int, off: int, e: Sample)
    requires e in s && e.pts != p
    ensures e in Put(s, p, off)
  {}

  lemma PutAddsOnly(s: Index, p: int, off: int, e: Sample)
    requires Sorted(s) && e in Put(s, p, off)
    ensures e == Sample(p, off) || (e in s && e.pts != p)
  {}

  /** What Put does, as a map: p is bound to off, every other key keeps its value, order is kept. */
  lemma PutIsUpdate(s: Index, p: int, off: int)
    requires Sorted(s)
    ensures var t := Put(s, p, off);
            && Sorted(t) && Sample(p, off) in t
            && forall e :: e in t <==> e == Sample(p, off) || (e in s && e.pts != p)
  {
    var t := Put(s, p, off);
    PutSorted(s, p, off);
    PutAt(s, p, off, 0);
    assert t[LowerBound(s, p)] in t;
    forall e ensures e in t <==> e == Sample(p, off) || (e in s && e.pts != p) {
      if e in t {
        PutAddsOnly(s, p, off, e);
      } else if e in s && e.pts != p {
        PutKeeps(s, p, off, e);
      }
    }
  }

  /** What a sample outside or on the lower end of the key range must satisfy on its own: there
      take_sample compares it with nothing. */
  predicate EndsInOrder(s: Index, p: int, off: int)
    requires |s| > 0
  {
    && (p < s[0].pts ==> off <= s[0].off)
    && (p > s[|s| - 1].pts ==> s[|s| - 1].off <= off)
    && (p == s[0].pts && |s| > 1 ==> off <= s[1].off)
  }

  /** A sample that passes the test keeps a monotone index monotone exactly when it is also in
      order at the ends. */
  lemma {:induction false} PutMonotoneIff(s: Index, p: int, off: int)
    requires Sorted(s) && Monotone(s) && |s| > 0 && Fits(s, p, off)
    ensures Monotone(Put(s, p, off)) <==> EndsInOrder(s, p, off)
  {
    hide Put;
    if EndsInOrder(s, p, off) {
      var k, t := LowerBound(s, p), Put(s, p, off);
      forall i | 0 <= i < |t| ensures (i < k ==> t[i].off <= off) && (k < i ==> off <= t[i].off) {
        PutAt(s, p, off, i);
      }
      forall i, j | 0 <= i < j < |t| ensures t[i].off <= t[j].off {
        PutAt(s, p, off, i);
        PutAt(s, p, off, j);
      }
    } else {
      PutOutOfOrder(s, p, off);
    }
  }

  lemma PutOutOfOrder(s: Index, p: int, off: int)
    requires Sorted(s) && |s| > 0 && !EndsInOrder(s, p, off)
    ensures !Monotone(Put(s, p, off))
  {
    hide Put;
    var k, t := LowerBound(s, p), Put(s, p, off);
    LowerBoundIs(s, p, if p <= s[0].pts then 0 else |s|);
    PutAt(s, p, off, 1);
    PutAt(s, p, off, |s| - 1);
    if p <= s[0].pts {
      assert t[1].off < t[0].off;
    } else {
      assert t[|s|].off < t[|s| - 1].off;
    }
  }

  /** A sample that passes the test, entered. */
  lemma EnterSample(s: Index, p: int, off: int)
    requires Sorted(s) && Fits(s, p, off)
    ensures Sorted(Put(s, p, off)) && Put(s, p, off) != []
    ensures s != [] && Monotone(s) ==> (Monotone(Put(s, p, off)) <==> EndsInOrder(s, p, off))
  {
    hide Put, Monotone, EndsInOrder;
    PutSorted(s, p, off);
    PutAt(s, p, off, 0);
    if s != [] && Monotone(s) {
      PutMonotoneIff(s, p, off);
    }
  }

  /** One sample below the first key breaks the order. */
  lemma PutBelowCanBreak()
    ensures var s := [Sample(10, 188)];
            Monotone(s) && Fits(s, 5, 376) && !Monotone(Put(s, 5, 376))
  {
    PutMonotoneIff([Sample(10, 188)], 5, 376);
  }

  /** Where the bound of pts moves when p is entered. */
  lemma BoundAfterPut(s: Index, p: int, off: int, pts: int)
    requires Sorted(s) && 0 < LowerBound(s, pts) < |s|
    ensures var k, t := LowerBound(s, pts), Put(s, p, off);
            LowerBound(t, pts) == if |t| > |s| && p < pts then k + 1 else k
  {
    hide Put;
    var k, t := LowerBound(s, pts), Put(s, p, off);
    var m := if |t| > |s| && p < pts then k + 1 else k;
    PutSorted(s, p, off);
    PutAt(s, p, off, m - 1);
    PutAt(s, p, off, m);
    LowerBoundIs(t, pts, m);
  }

  /** The bracket of pts in t lies inside its bracket in s, by its keys and its upper offset. */
  ghost predicate KeysNested(s: Index, t: Index, pts: int) {
    var k, m := LowerBound(s, pts), LowerBound(t, pts);
    0 < k < |s| ==>
      && 0 < m < |t|
      && s[k - 1].pts <= t[m - 1].pts < pts <= t[m].pts <= s[k].pts
      && t[m].off <= s[k].off
  }

  /** ... and by its lower offset, give or take slack. */
  ghost predicate NestedUpTo(s: Index, t: Index, pts: int, slack: nat) {
    var k, m := LowerBound(s, pts), LowerBound(t, pts);
    KeysNested(s, t, pts) && (0 < k < |s| ==> s[k - 1].off <= t[m - 1].off + slack)
  }

  ghost predicate Nested(s: Index, t: Index, pts: int) { NestedUpTo(s, t, pts, 0) }

  /** The next round of the seek brackets pts at least as tightly.  The lower offset moves out only
      when a sample overwrites the lower entry with a smaller one. */
  lemma {:induction false} NestedIff(s: Index, p: int, off: int, pts: int, slack: nat)
    requires Sorted(s) && Fits(s, p, off)
    ensures KeysNested(s, Put(s, p, off), pts)
    ensures var k := LowerBound(s, pts);
            0 < k < |s| ==>
              (NestedUpTo(s, Put(s, p, off), pts, slack) <==> !(p == s[k - 1].pts && off + slack < s[k - 1].off))
  {
    hide Put;
    if 0 < LowerBound(s, pts) < |s| {
      BoundAfterPut(s, p, off, pts);
      var m := LowerBound(Put(s, p, off), pts);
      PutAt(s, p, off, m - 1);
      PutAt(s, p, off, m);
      var k := LowerBound(s, pts);
      if p == s[k - 1].pts {
        LowerBoundIs(s, p, k - 1);
      } else if s[k - 1].pts < p <= s[k].pts {
        LowerBoundIs(s, p, k);
      }
    }
  }

  /** In particular it does not when the sample was looked up from an offset no more than slack
      below the lower end, and found there or later. */
  lemma {:induction false} BracketsNest(s: Index, p: int, off: int, pts: int, slack: nat)
    requires Sorted(s) && Fits(s, p, off)
    requires var k := LowerBound(s, pts); 0 < k < |s| ==> s[k - 1].off <= off + slack
    ensures NestedUpTo(s, Put(s, p, off), pts, slack)
  {
    hide Put, Sorted, Fits;
    NestedIff(s, p, off, pts, slack);
  }

  lemma NestedSelf(s: Index, pts: int, slack: nat)
    ensures NestedUpTo(s, s, pts, slack)
  {}

  lemma KeysNestedTrans(s: Index, t: Index, u: Index, pts: int)
    requires KeysNested(s, t, pts) && KeysNested(t, u, pts)
    ensures KeysNested(s, u, pts)
  {
    hide LowerBound;
  }

  lemma NestedTrans(s: Index, t: Index, u: Index, pts: int, a: nat, b: nat)
    requires NestedUpTo(s, t, pts, a) && NestedUpTo(t, u, pts, b)
    ensures NestedUpTo(s, u, pts, a + b)
  {
    hide LowerBound;
  }
}
