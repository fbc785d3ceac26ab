/** The shared table of encoder sessions (SessionInfo mShmData[]) and what each operation on it
    means, as functions on the whole table. */
module SessionTable {
  datatype Slot = Slot(pid: int, ip: string)
  type Table = seq<Slot>

  const FREE: Slot := Slot(0, "")

  /** The lowest free slot; the table size when there is none. */
  function FirstFree(t: Table): (k: nat)
    ensures k <= |t|
    ensures forall i :: 0 <= i < k ==> t[i].pid != 0
    ensures k < |t| ==> t[k].pid == 0
  {
    if |t| == 0 || t[0].pid == 0 then 0 else 1 + FirstFree(t[1..])
  }

  /** The lowest slot of an address; the table size when there is none. */
  function FirstIp(t: Table, ip: string): (k: nat)
    ensures k <= |t|
    ensures forall i :: 0 <= i < k ==> t[i].ip != ip
    ensures k < |t| ==> t[k].ip == ip
  {
    if |t| == 0 || t[0].ip == ip then 0 else 1 + FirstIp(t[1..], ip)
  }

  function CountIp(t: Table, ip: string): nat {
    if |t| == 0 then 0 else CountIp(t[..|t| - 1], ip) + if t[|t| - 1].ip == ip then 1 else 0
  }

  function AddTo(t: Table, ip: string, pid: int): (r: Table)
    ensures |r| == |t|
  {
    var k := FirstFree(t);
    if k < |t| then t[k := Slot(pid, ip)] else t
  }

  function ClearIp(t: Table, ip: string): (r: Table)
    ensures |r| == |t|
  {
    var k := FirstIp(t, ip);
    if k < |t| then t[k := FREE] else t
  }

  predicate Kept(s: Slot, alive: seq<int>) { s.pid == 0 || s.pid in alive }

  /** Only the sessions of living processes. */
  function Retain(t: Table, alive: seq<int>): (r: Table)
    ensures |r| == |t|
    ensures forall i :: 0 <= i < |t| ==> r[i] == if Kept(t[i], alive) then t[i] else FREE
  {
    seq(|t|, i requires 0 <= i < |t| => if Kept(t[i], alive) then t[i] else FREE)
  }

  function IdOr(k: nat, size: nat): int { if k < size then k else -1 }

  // ----- registration

  datatype Request = Request(alive: seq<int>, ip: string, pid: int)

  /** The table and encoder id one Encoder constructor leaves, running alone. */
  function Register(t: Table, r: Request): (Table, int) {
    var c := Retain(t, r.alive);
    if CountIp(c, r.ip) > 0 then (AddTo(ClearIp(c, r.ip), r.ip, r.pid), IdOr(FirstIp(c, r.ip), |c|))
    else (AddTo(c, r.ip, r.pid), IdOr(FirstFree(c), |c|))
  }

  predicate Filled(s: Slot) { s.pid != 0 && s.ip != "" }

  /** Every slot is all zero or fully filled, and no address has two. */
  ghost predicate WellFormed(t: Table) {
    && (forall i :: 0 <= i < |t| ==> t[i] == FREE || Filled(t[i]))
    && (forall i, j :: 0 <= i < j < |t| && Filled(t[i]) && Filled(t[j]) ==> t[i].ip != t[j].ip)
  }

  ghost predicate Sane(r: Request) { r.pid != 0 && r.ip != "" }

  /** k is the only slot of the request's address, and it names its process. */
  ghost predicate RegisteredAt(t: Table, r: Request, k: int) {
    && 0 <= k < |t| && t[k] == Slot(r.pid, r.ip)
    && forall i :: 0 <= i < |t| && i != k ==> t[i].ip != r.ip
  }

  lemma {:induction false} CountIpPositive(t: Table, ip: string)
    ensures CountIp(t, ip) > 0 <==> FirstIp(t, ip) < |t|
  {
    if |t| > 0 {
      var init := t[..|t| - 1];
      CountIpPositive(init, ip);
      if FirstIp(init, ip) < |init| {
        assert t[FirstIp(init, ip)].ip == ip;
      }
    }
  }

  ghost function SlotsOf(t: Table, ip: string): set<int> { set i | 0 <= i < |t| && t[i].ip == ip }

  /** Slots are counted one by one. */
  lemma {:induction false} CountIpIs(t: Table, ip: string)
    ensures CountIp(t, ip) == |SlotsOf(t, ip)|
  {
    if |t| > 0 {
      var init, n := t[..|t| - 1], |t| - 1;
      CountIpIs(init, ip);
      if t[n].ip == ip {
        assert SlotsOf(t, ip) == SlotsOf(init, ip) + {n};
      } else {
        assert SlotsOf(t, ip) == SlotsOf(init, ip);
      }
    }
  }

  /** The slot a request ends up in: the lowest that is free once the slot of its own address,
      if any, has been cleared. */
  function Place(t: Table, r: Request): (k: nat)
    ensures k <= |t|
  {
    var c := Retain(t, r.alive);
    var own, free := FirstIp(c, r.ip), FirstFree(c);
    if own < |t| && own < free then own else free
  }

  lemma FirstFreeIs(t: Table, k: nat)
    requires k <= |t| && (forall i :: 0 <= i < k ==> t[i].pid != 0) && (k < |t| ==> t[k].pid == 0)
    ensures FirstFree(t) == k
  {}

  /** Registration as an update of the cleaned table: the old slot of the address is cleared,
      then the place is taken. */
  lemma RegisterIsUpdate(t: Table, r: Request)
    requires WellFormed(t) && Sane(r)
    ensures var (c, k, own) := (Retain(t, r.alive), Place(t, r), FirstIp(Retain(t, r.alive), r.ip));
            Register(t, r).0 == if own < |t| then c[own := FREE][k := Slot(r.pid, r.ip)]
                                else if k < |t| then c[k := Slot(r.pid, r.ip)] else c
  {
    var c, k := Retain(t, r.alive), Place(t, r);
    var own := FirstIp(c, r.ip);
    CountIpPositive(c, r.ip);
    if own < |t| {
      FirstFreeIs(ClearIp(c, r.ip), k);
    }
  }

  /** The place is a slot of the table exactly when the address is known or a slot is free. */
  lemma PlaceExists(t: Table, r: Request)
    requires WellFormed(t) && Sane(r)
    ensures var c := Retain(t, r.alive);
            Place(t, r) < |t| <==> FirstIp(c, r.ip) < |t| || exists i :: 0 <= i < |t| && c[i] == FREE
  {}

  lemma {:induction false} RegisterKeepsOrder(t: Table, r: Request)
    requires WellFormed(t) && Sane(r)
    ensures WellFormed(Register(t, r).0) && |Register(t, r).0| == |t|
  {
    hide Register, FirstIp, FirstFree;
    RegisterIsUpdate(t, r);
  }

  /** What one constructor guarantees to its caller and to every other session. */
  lemma {:induction false} RegisterIsSafe(t: Table, r: Request)
    requires WellFormed(t) && Sane(r)
    ensures var (c, k, own) := (Retain(t, r.alive), Place(t, r), FirstIp(Retain(t, r.alive), r.ip));
            var t' := Register(t, r).0;
            && |t'| == |t|
            && (k < |t| ==> RegisteredAt(t', r, k))
            && (k == |t| ==> t' == c && forall i :: 0 <= i < |t| ==> t'[i].ip != r.ip)
            && (forall i :: 0 <= i < |t| && i != k && i != own ==> t'[i] == c[i])
            && (own < |t| && own != k ==> t'[own] == FREE)
  {
    hide Register, FirstIp, FirstFree;
    RegisterIsUpdate(t, r);
  }

  /** The returned encoder id is the slot taken, unless the old slot of the address lay above a
      free one; then it is the old slot, which is now free. */
  lemma RegisterId(t: Table, r: Request)
    requires WellFormed(t) && Sane(r)
    ensures var (c, k, id) := (Retain(t, r.alive), Place(t, r), Register(t, r).1);
            && (k == |t| ==> id == -1)
            && (k < |t| ==> (id == k <==> NoneBelow(t, r)))
            && (!NoneBelow(t, r) ==> id == FirstIp(c, r.ip))
  {
    CountIpPositive(Retain(t, r.alive), r.ip);
  }

  /** Serving r moves no session below its old slot. */
  predicate NoneBelow(t: Table, r: Request) {
    var c := Retain(t, r.alive);
    FirstIp(c, r.ip) < |t| ==> FirstIp(c, r.ip) < FirstFree(c)
  }

  // ----- runs of constructors

  /** given[i] is the encoder id that was returned to the session in slot i. */
  datatype World = World(table: Table, given: seq<int>)

  function Serve(w: World, r: Request): (v: World)
    requires |w.given| == |w.table|
    ensures |v.given| == |v.table| == |w.table|
  {
    var (t, id) := Register(w.table, r);
    var k := Place(w.table, r);
    World(t, if k < |w.table| then w.given[k := id] else w.given)
  }

  function ServeAll(w: World, rs: seq<Request>): (v: World)
    requires |w.given| == |w.table|
    ensures |v.given| == |v.table| == |w.table|
  {
    if |rs| == 0 then w else Serve(ServeAll(w, rs[..|rs| - 1]), rs[|rs| - 1])
  }

  ghost predicate Smooth(w: World, rs: seq<Request>)
    requires |w.given| == |w.table|
  {
    |rs| > 0 ==> Smooth(w, rs[..|rs| - 1]) && NoneBelow(ServeAll(w, rs[..|rs| - 1]).table, rs[|rs| - 1])
  }

  ghost predicate OwnIds(w: World) {
    && |w.given| == |w.table| && WellFormed(w.table)
    && forall i :: 0 <= i < |w.table| && Filled(w.table[i]) ==> w.given[i] == i
  }

  ghost predicate DistinctIds(w: World)
    requires |w.given| == |w.table|
  {
    forall i, j :: 0 <= i < j < |w.table| && Filled(w.table[i]) && Filled(w.table[j]) ==> w.given[i] != w.given[j]
  }

  lemma {:induction false} RunsKeepOrder(w: World, rs: seq<Request>)
    requires WellFormed(w.table) && |w.given| == |w.table| && forall r :: r in rs ==> Sane(r)
    ensures WellFormed(ServeAll(w, rs).table)
  {
    if |rs| > 0 {
      var before := rs[..|rs| - 1];
      RunsKeepOrder(w, before);
      RegisterKeepsOrder(ServeAll(w, before).table, rs[|rs| - 1]);
    }
  }

  /** One constructor keeps every session on its own encoder exactly when it moves none down. */
  lemma ServeKeepsIds(w: World, r: Request)
    requires OwnIds(w) && Sane(r)
    ensures OwnIds(Serve(w, r)) <==> NoneBelow(w.table, r)
  {
    hide Register, FirstIp, FirstFree;
    RegisterKeepsOrder(w.table, r);
    RegisterIsSafe(w.table, r);
    RegisterId(w.table, r);
    if !NoneBelow(w.table, r) {
      assert Filled(Serve(w, r).table[Place(w.table, r)]);
    }
  }

  /** On a run that never moves a session down, all sessions hold their own slot's encoder. */
  lemma {:induction false} SmoothRunsGiveDistinctIds(w: World, rs: seq<Request>)
    requires OwnIds(w) && (forall r :: r in rs ==> Sane(r)) && Smooth(w, rs)
    ensures OwnIds(ServeAll(w, rs)) && DistinctIds(ServeAll(w, rs))
  {
    if |rs| > 0 {
      var before, r := rs[..|rs| - 1], rs[|rs| - 1];
      SmoothRunsGiveDistinctIds(w, before);
      ServeKeepsIds(ServeAll(w, before), r);
    }
  }

  lemma ServeSnoc(w: World, rs: seq<Request>, r: Request)
    requires |w.given| == |w.table|
    ensures ServeAll(w, rs + [r]) == Serve(ServeAll(w, rs), r)
  {
    assert (rs + [r])[..|rs|] == rs;
  }

  /** One constructor, given the cleaned table and the lowest slots of its address and of none. */
  lemma ServeIs(w: World, r: Request, c: Table, own: nat, free: nat)
    requires |w.given| == |w.table| == |c| && WellFormed(w.table) && Sane(r)
    requires forall i :: 0 <= i < |c| ==> c[i] == if Kept(w.table[i], r.alive) then w.table[i] else FREE
    requires own == FirstIp(c, r.ip) && free == FirstFree(c)
    ensures Serve(w, r) ==
            if own < |c| && own < free then World(c[own := Slot(r.pid, r.ip)], w.given[own := own])
            else if own < |c| then World(c[own := FREE][free := Slot(r.pid, r.ip)], w.given[free := own])
            else if free < |c| then World(c[free := Slot(r.pid, r.ip)], w.given[free := free])
            else World(c, w.given)
  {
    hide FirstIp, FirstFree, Register;
    assert c == Retain(w.table, r.alive);
    RegisterIsUpdate(w.table, r);
    RegisterId(w.table, r);
  }

  const CLIENT_A: Request := Request([10], "a", 10)
  const CLIENT_B: Request := Request([10, 11], "b", 11)
  const CLIENT_B_AGAIN: Request := Request([11, 12], "b", 12)
  const CLIENT_C: Request := Request([12, 13], "c", 13)

  lemma MovedFirstHalf()
    ensures Serve(World([FREE, FREE], [-1, -1]), CLIENT_A) == World([Slot(10, "a"), FREE], [0, -1])
    ensures Serve(World([Slot(10, "a"), FREE], [0, -1]), CLIENT_B) == World([Slot(10, "a"), Slot(11, "b")], [0, 1])
  {
    hide Serve;
    ServeIs(World([FREE, FREE], [-1, -1]), CLIENT_A, [FREE, FREE], 2, 0);
    ServeIs(World([Slot(10, "a"), FREE], [0, -1]), CLIENT_B, [Slot(10, "a"), FREE], 2, 1);
  }

  lemma MovedSecondHalf()
    ensures Serve(World([Slot(10, "a"), Slot(11, "b")], [0, 1]), CLIENT_B_AGAIN) == World([Slot(12, "b"), FREE], [1, 1])
    ensures Serve(World([Slot(12, "b"), FREE], [1, 1]), CLIENT_C) == World([Slot(12, "b"), Slot(13, "c")], [1, 1])
  {
    hide Serve;
    ServeIs(World([Slot(10, "a"), Slot(11, "b")], [0, 1]), CLIENT_B_AGAIN, [FREE, Slot(11, "b")], 1, 0);
    ServeIs(World([Slot(12, "b"), FREE], [1, 1]), CLIENT_C, [Slot(12, "b"), FREE], 2, 1);
  }

  /** Otherwise two sessions can share an encoder.  From an empty table of two: a and b register,
      a's process ends, b comes back, is moved down to the slot a had and told its old number,
      and c gets the slot b had, and that number too. */
  lemma MovedSessionSharesEncoder()
    ensures ServeAll(World([FREE, FREE], [-1, -1]), [CLIENT_A, CLIENT_B, CLIENT_B_AGAIN, CLIENT_C])
            == World([Slot(12, "b"), Slot(13, "c")], [1, 1])
  {
    hide Serve, ServeAll;
    var w := World([FREE, FREE], [-1, -1]);
    MovedFirstHalf();
    MovedSecondHalf();
    ServeNone(w);
    ServeSnoc(w, [], CLIENT_A);
    ServeSnoc(w, [CLIENT_A], CLIENT_B);
    ServeSnoc(w, [CLIENT_A, CLIENT_B], CLIENT_B_AGAIN);
    ServeSnoc(w, [CLIENT_A, CLIENT_B, CLIENT_B_AGAIN], CLIENT_C);
    assert [] + [CLIENT_A] == [CLIENT_A] && [CLIENT_A] + [CLIENT_B] == [CLIENT_A, CLIENT_B];
    assert [CLIENT_A, CLIENT_B] + [CLIENT_B_AGAIN] == [CLIENT_A, CLIENT_B, CLIENT_B_AGAIN];
    assert [CLIENT_A, CLIENT_B, CLIENT_B_AGAIN] + [CLIENT_C] == [CLIENT_A, CLIENT_B, CLIENT_B_AGAIN, CLIENT_C];
  }

  lemma ServeNone(w: World)
    requires |w.given| == |w.table|
    ensures ServeAll(w, []) == w
  {}

  /** Two cleanups are one with the processes alive at both. */
  lemma RetainTwice(t: Table, first: seq<int>, second: seq<int>, both: seq<int>)
    requires forall p :: p in both <==> p in first && p in second
    ensures Retain(Retain(t, first), second) == Retain(t, both)
  {}

  /** A cleanup drops no living session, leaves no dead one, and frees no slot it need not. */
  lemma RetainIsExact(t: Table, alive: seq<int>, i: nat)
    requires i < |t| && WellFormed(t)
    ensures var r := Retain(t, alive);
            && (Filled(r[i]) <==> Filled(t[i]) && t[i].pid in alive)
            && (Filled(r[i]) ==> r[i] == t[i]) && (!Filled(r[i]) ==> r[i] == FREE)
  {}
}
