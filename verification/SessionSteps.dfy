/** Many processes on one table: each goes through the Encoder constructor, whose operations are
    cut into single reads and writes between sem_wait and sem_post, and at its end through the
    Encoder destructor.  Their steps interleave in any order.

    update is two critical sections, Clear and Add.  The destructor posts the semaphore without
    having waited for it. */
module SessionSteps {
  import opened SessionTable

  datatype Op =
    | Cleanup(alive: seq<int>)
    | Count(ip: string)
    | Clear(ip: string)
    | Add(ip: string, pid: int)

  /** Where a process stands inside its critical section. */
  datatype Local =
    | CleanupAt(alive: seq<int>, i: nat)
    | EraseAt(alive: seq<int>, i: nat, pid: int, j: nat)
    | EraseIp(alive: seq<int>, i: nat, j: nat)
    | ErasePid(alive: seq<int>, i: nat, j: nat)
    | CountAt(ip: string, i: nat, n: nat)
    | ClearAt(ip: string, i: nat)
    | ClearIpAt(i: nat)
    | ClearPidAt(i: nat)
    | AddAt(ip: string, pid: int, i: nat)
    | AddPidAt(ip: string, pid: int, i: nat)
    | AddIpAt(ip: string, i: nat)
    | Done(result: int)

  function Begin(op: Op): Local {
    match op
    case Cleanup(alive) => CleanupAt(alive, 0)
    case Count(ip) => CountAt(ip, 0, 0)
    case Clear(ip) => ClearAt(ip, 0)
    case Add(ip, pid) => AddAt(ip, pid, 0)
  }

  /** The slot numbers a process holds lie in a table of size n. */
  predicate Placed(l: Local, n: nat) {
    match l
    case EraseAt(_, i, _, _) => i < n
    case EraseIp(_, i, j) => i < n && j < n
    case ErasePid(_, i, j) => i < n && j < n
    case ClearIpAt(i) => i < n
    case ClearPidAt(i) => i < n
    case AddPidAt(_, _, i) => i < n
    case AddIpAt(_, i) => i < n
    case _ => true
  }

  function SetIp(t: Table, i: nat, ip: string): (r: Table)
    requires i < |t|
    ensures |r| == |t|
  {
    t[i := t[i].(ip := ip)]
  }

  function SetPid(t: Table, i: nat, pid: int): (r: Table)
    requires i < |t|
    ensures |r| == |t|
  {
    t[i := t[i].(pid := pid)]
  }

  /** One loop test or one write of a section. */
  function Micro(l: Local, t: Table): (r: (Local, Table))
    requires !l.Done? && Placed(l, |t|)
    ensures Placed(r.0, |r.1|) && |r.1| == |t|
  {
    match l
    case CleanupAt(alive, i) =>
      if i >= |t| then (Done(0), t)
      else if t[i].pid != 0 && t[i].pid !in alive then (EraseAt(alive, i, t[i].pid, 0), t)
      else (CleanupAt(alive, i + 1), t)
    case EraseAt(alive, i, pid, j) =>
      if j >= |t| then (CleanupAt(alive, i + 1), t)
      else if t[j].pid == pid then (EraseIp(alive, i, j), t)
      else (EraseAt(alive, i, pid, j + 1), t)
    case EraseIp(alive, i, j) => (ErasePid(alive, i, j), SetIp(t, j, ""))
    case ErasePid(alive, i, j) => (CleanupAt(alive, i + 1), SetPid(t, j, 0))
    case CountAt(ip, i, n) =>
      if i >= |t| then (Done(n), t) else (CountAt(ip, i + 1, if t[i].ip == ip then n + 1 else n), t)
    case ClearAt(ip, i) =>
      if i >= |t| then (Done(-1), t)
      else if t[i].ip == ip then (ClearIpAt(i), t)
      else (ClearAt(ip, i + 1), t)
    case ClearIpAt(i) => (ClearPidAt(i), SetIp(t, i, ""))
    case ClearPidAt(i) => (Done(i), SetPid(t, i, 0))
    case AddAt(ip, pid, i) =>
      if i >= |t| then (Done(-1), t)
      else if t[i].pid == 0 then (AddPidAt(ip, pid, i), t)
      else (AddAt(ip, pid, i + 1), t)
    case AddPidAt(ip, pid, i) => (AddIpAt(ip, i), SetPid(t, i, pid))
    case AddIpAt(ip, i) => (Done(i), SetIp(t, i, ip))
  }

  function Left(i: nat, n: nat): nat { if i < n then n - i else 0 }

  function Outer(l: Local, n: nat): nat {
    match l
    case CleanupAt(_, i) => Left(i, n)
    case EraseAt(_, i, _, _) => Left(i, n)
    case EraseIp(_, i, _) => Left(i, n)
    case ErasePid(_, i, _) => Left(i, n)
    case CountAt(_, i, _) => Left(i, n)
    case ClearAt(_, i) => Left(i, n)
    case AddAt(_, _, i) => Left(i, n)
    case _ => 0
  }

  function Stage(l: Local): nat {
    match l
    case CleanupAt(_, _) => 4
    case EraseAt(_, _, _, _) => 3
    case EraseIp(_, _, _) => 2
    case ErasePid(_, _, _) => 1
    case ClearIpAt(_) => 2
    case ClearPidAt(_) => 1
    case AddPidAt(_, _, _) => 2
    case AddIpAt(_, _) => 1
    case Done(_) => 0
    case _ => 3
  }

  /** What a section ends with when nothing interferes from here on. */
  function Finish(l: Local, t: Table): (int, Table)
    requires Placed(l, |t|)
    decreases Outer(l, |t|), Stage(l), if l.EraseAt? then Left(l.j, |t|) else 0
  {
    if l.Done? then (l.result, t)
    else var (l', t') := Micro(l, t); Finish(l', t')
  }

  // ----- a section alone does what its operation means

  /** The meaning of a section as one step on the table. */
  function Meaning(op: Op, t: Table): (int, Table) {
    match op
    case Cleanup(alive) => (0, Retain(t, alive))
    case Count(ip) => (CountIp(t, ip), t)
    case Clear(ip) => (IdOr(FirstIp(t, ip), |t|), ClearIp(t, ip))
    case Add(ip, pid) => (IdOr(FirstFree(t), |t|), AddTo(t, ip, pid))
  }

  lemma FinishStep(l: Local, t: Table)
    requires !l.Done? && Placed(l, |t|)
    ensures Finish(l, t) == Finish(Micro(l, t).0, Micro(l, t).1)
  {}

  lemma {:induction false} FinishErase(alive: seq<int>, i: nat, j: nat, t: Table)
    requires j <= i < |t| && forall k :: 0 <= k < i ==> t[k].pid != t[i].pid
    ensures Finish(EraseAt(alive, i, t[i].pid, j), t) == Finish(CleanupAt(alive, i + 1), t[i := FREE])
    decreases i - j
  {
    FinishStep(EraseAt(alive, i, t[i].pid, j), t);
    if j < i {
      FinishErase(alive, i, j + 1, t);
    } else {
      var t1 := SetIp(t, i, "");
      FinishStep(EraseIp(alive, i, i), t);
      FinishStep(ErasePid(alive, i, i), t1);
      assert SetPid(t1, i, 0) == t[i := FREE];
    }
  }

  lemma {:induction false} FinishCleanup(alive: seq<int>, i: nat, t: Table)
    requires i <= |t| && forall k :: 0 <= k < i ==> Kept(t[k], alive)
    ensures Finish(CleanupAt(alive, i), t) == (0, Retain(t, alive))
    decreases |t| - i
  {
    FinishStep(CleanupAt(alive, i), t);
    if i == |t| {
      assert Retain(t, alive) == t;
    } else if Kept(t[i], alive) {
      FinishCleanup(alive, i + 1, t);
    } else {
      FinishErase(alive, i, 0, t);
      FinishCleanup(alive, i + 1, t[i := FREE]);
      assert Retain(t[i := FREE], alive) == Retain(t, alive);
    }
  }

  lemma {:induction false} FinishCount(ip: string, i: nat, t: Table)
    requires i <= |t|
    ensures Finish(CountAt(ip, i, CountIp(t[..i], ip)), t) == (CountIp(t, ip), t)
    decreases |t| - i
  {
    FinishStep(CountAt(ip, i, CountIp(t[..i], ip)), t);
    if i == |t| {
      assert t[..i] == t;
    } else {
      assert t[..i + 1][..i] == t[..i];
      FinishCount(ip, i + 1, t);
    }
  }

  lemma {:induction false} FinishClear(ip: string, i: nat, t: Table)
    requires i <= FirstIp(t, ip)
    ensures Finish(ClearAt(ip, i), t) == (IdOr(FirstIp(t, ip), |t|), ClearIp(t, ip))
    decreases |t| - i
  {
    hide FirstIp;
    FinishStep(ClearAt(ip, i), t);
    if i < FirstIp(t, ip) {
      FinishClear(ip, i + 1, t);
    } else if i < |t| {
      var t1 := SetIp(t, i, "");
      FinishStep(ClearIpAt(i), t);
      FinishStep(ClearPidAt(i), t1);
      assert SetPid(t1, i, 0) == t[i := FREE];
    }
  }

  lemma {:induction false} FinishAdd(ip: string, pid: int, i: nat, t: Table)
    requires i <= FirstFree(t)
    ensures Finish(AddAt(ip, pid, i), t) == (IdOr(FirstFree(t), |t|), AddTo(t, ip, pid))
    decreases |t| - i
  {
    hide FirstFree;
    FinishStep(AddAt(ip, pid, i), t);
    if i < FirstFree(t) {
      FinishAdd(ip, pid, i + 1, t);
    } else if i < |t| {
      var t1 := SetPid(t, i, pid);
      FinishStep(AddPidAt(ip, pid, i), t);
      FinishStep(AddIpAt(ip, i), t1);
      assert SetIp(t1, i, ip) == t[i := Slot(pid, ip)];
    }
  }

  lemma SectionMeans(op: Op, t: Table)
    ensures Finish(Begin(op), t) == Meaning(op, t)
  {
    match op
    case Cleanup(alive) => FinishCleanup(alive, 0, t);
    case Count(ip) => FinishCount(ip, 0, t);
    case Clear(ip) => FinishClear(ip, 0, t);
    case Add(ip, pid) => FinishAdd(ip, pid, 0, t);
  }

  // ----- the program of a process

  /** The next thing a process does.  Replacing is the Add behind a Clear. */
  datatype Phase = Cleaning | Counting | Clearing | Replacing | Adding | Live | Gone

  datatype Proc = Proc(req: Request, phase: Phase, id: int)

  predicate HasSection(pr: Proc) { pr.phase != Live && pr.phase != Gone }

  function OpOf(pr: Proc): Op
    requires HasSection(pr)
  {
    match pr.phase
    case Cleaning => Cleanup(pr.req.alive)
    case Counting => Count(pr.req.ip)
    case Clearing => Clear(pr.req.ip)
    case _ => Add(pr.req.ip, pr.req.pid)
  }

  /** The process after a section with the given result: update returns what Clear found. */
  function Advance(pr: Proc, result: int): Proc {
    match pr.phase
    case Cleaning => pr.(phase := Counting)
    case Counting => pr.(phase := if result > 0 then Clearing else Adding)
    case Clearing => pr.(phase := Replacing, id := result)
    case Replacing => pr.(phase := Live)
    case Adding => pr.(phase := Live, id := result)
    case _ => pr
  }

  datatype Entry = Entry(p: nat, op: Op, result: int)

  // ----- sections as single turns

  /** The table, the processes, and the sections so far in the order of the lock. */
  datatype Atomic = Atomic(table: Table, procs: map<nat, Proc>, log: seq<Entry>)

  /** A process enters its constructor with a snapshot of living processes, or does a section. */
  datatype Turn = Enter(p: nat, req: Request) | Section(p: nat)

  predicate Possible(a: Atomic, turn: Turn) {
    match turn
    case Enter(p, _) => p !in a.procs
    case Section(p) => p in a.procs && HasSection(a.procs[p])
  }

  function Take(a: Atomic, turn: Turn): (b: Atomic)
    requires Possible(a, turn)
    ensures |b.table| == |a.table|
  {
    match turn
    case Enter(p, req) => a.(procs := a.procs[p := Proc(req, Cleaning, -1)])
    case Section(p) =>
      var (result, t) := Meaning(OpOf(a.procs[p]), a.table);
      Atomic(t, a.procs[p := Advance(a.procs[p], result)], a.log + [Entry(p, OpOf(a.procs[p]), result)])
  }

  predicate Schedulable(a: Atomic, turns: seq<Turn>)
    decreases |turns|
  {
    |turns| == 0 || (Possible(a, turns[0]) && Schedulable(Take(a, turns[0]), turns[1..]))
  }

  function Schedule(a: Atomic, turns: seq<Turn>): (b: Atomic)
    requires Schedulable(a, turns)
    ensures |b.table| == |a.table|
    decreases |turns|
  {
    if |turns| == 0 then a else Schedule(Take(a, turns[0]), turns[1..])
  }

  lemma {:induction false} ScheduleConcat(a: Atomic, xs: seq<Turn>, ys: seq<Turn>)
    requires Schedulable(a, xs) && Schedulable(Schedule(a, xs), ys)
    ensures Schedulable(a, xs + ys) && Schedule(a, xs + ys) == Schedule(Schedule(a, xs), ys)
    decreases |xs|
  {
    if |xs| == 0 {
      assert xs + ys == ys;
    } else {
      assert (xs + ys)[1..] == xs[1..] + ys;
      ScheduleConcat(Take(a, xs[0]), xs[1..], ys);
    }
  }

  lemma TakeOne(a: Atomic, turn: Turn)
    requires Possible(a, turn)
    ensures Schedulable(a, [turn]) && Schedule(a, [turn]) == Take(a, turn)
  {}

  /** One more turn. */
  lemma Then(a: Atomic, turns: seq<Turn>, turn: Turn) returns (more: seq<Turn>)
    requires Schedulable(a, turns) && Possible(Schedule(a, turns), turn)
    ensures Schedulable(a, more) && Schedule(a, more) == Take(Schedule(a, turns), turn)
    ensures more == turns + [turn]
  {
    TakeOne(Schedule(a, turns), turn);
    ScheduleConcat(a, turns, [turn]);
    more := turns + [turn];
  }

  // ----- single steps of all processes

  /** inside: the processes between sem_wait and sem_post, and where; posts: the destructor posts. */
  datatype State = State(sem: nat, table: Table, procs: map<nat, Proc>, inside: map<nat, Local>, posts: nat, log: seq<Entry>)

  datatype Action = Start(p: nat, req: Request) | Wait(p: nat) | Work(p: nat) | Post(p: nat) | Destroy(p: nat)

  function Init(t: Table): State { State(1, t, map[], map[], 0, []) }

  predicate Sound(s: State) {
    forall p :: p in s.inside ==> p in s.procs && HasSection(s.procs[p]) && Placed(s.inside[p], |s.table|)
  }

  predicate Enabled(s: State, a: Action) {
    match a
    case Start(p, _) => p !in s.procs
    case Wait(p) => p in s.procs && HasSection(s.procs[p]) && p !in s.inside && s.sem > 0
    case Work(p) => p in s.inside && !s.inside[p].Done?
    case Post(p) => p in s.inside && s.inside[p].Done?
    case Destroy(p) => p in s.procs && s.procs[p].phase == Live
  }

  function Step(s: State, a: Action): (r: State)
    requires Sound(s) && Enabled(s, a)
    ensures Sound(r) && |r.table| == |s.table|
  {
    match a
    case Start(p, req) => s.(procs := s.procs[p := Proc(req, Cleaning, -1)])
    case Wait(p) => s.(sem := s.sem - 1, inside := s.inside[p := Begin(OpOf(s.procs[p]))])
    case Work(p) =>
      var (l, t) := Micro(s.inside[p], s.table);
      s.(table := t, inside := s.inside[p := l])
    case Post(p) =>
      var result := s.inside[p].result;
      s.(sem := s.sem + 1, inside := s.inside - {p}, procs := s.procs[p := Advance(s.procs[p], result)],
         log := s.log + [Entry(p, OpOf(s.procs[p]), result)])
    case Destroy(p) => s.(sem := s.sem + 1, posts := s.posts + 1, procs := s.procs[p := s.procs[p].(phase := Gone)])
  }

  /** Each action is enabled when its turn comes. */
  predicate Legal(s: State, acts: seq<Action>)
    requires Sound(s)
    decreases |acts|
  {
    |acts| == 0 || (Enabled(s, acts[0]) && Legal(Step(s, acts[0]), acts[1..]))
  }

  function Run(s: State, acts: seq<Action>): (r: State)
    requires Sound(s) && Legal(s, acts)
    ensures Sound(r)
    decreases |acts|
  {
    if |acts| == 0 then s else Run(Step(s, acts[0]), acts[1..])
  }

  lemma {:induction false} RunConcat(s: State, a: seq<Action>, b: seq<Action>)
    requires Sound(s) && Legal(s, a) && Legal(Run(s, a), b)
    ensures Legal(s, a + b) && Run(s, a + b) == Run(Run(s, a), b)
    decreases |a|
  {
    if |a| == 0 {
      assert a + b == b;
    } else {
      assert (a + b)[1..] == a[1..] + b;
      RunConcat(Step(s, a[0]), a[1..], b);
    }
  }

  lemma RunOne(s: State, a: Action)
    requires Sound(s) && Enabled(s, a)
    ensures Legal(s, [a]) && Run(s, [a]) == Step(s, a)
  {}

  /** One more step of a run. */
  lemma Extend(s: State, acts: seq<Action>, a: Action) returns (more: seq<Action>)
    requires Sound(s) && Legal(s, acts) && Enabled(Run(s, acts), a)
    ensures Legal(s, more) && Run(s, more) == Step(Run(s, acts), a)
  {
    RunOne(Run(s, acts), a);
    RunConcat(s, acts, [a]);
    more := acts + [a];
  }

  // ----- every run is a schedule of sections

  ghost predicate Conserved(s: State) { s.sem + |s.inside| == 1 + s.posts }

  lemma StepConserves(s: State, a: Action)
    requires Conserved(s) && Sound(s) && Enabled(s, a)
    ensures Conserved(Step(s, a))
  {}

  /** At most one process is inside. */
  lemma OnlyOne(s: State, p: nat, q: nat)
    requires Conserved(s) && s.posts == 0 && p in s.inside && q in s.inside
    ensures p == q
  {
    if p != q {
      assert |{p, q}| <= |s.inside.Keys| by {
        SubsetSize({p, q}, s.inside.Keys);
      }
    }
  }

  lemma {:induction false} SubsetSize(a: set<nat>, b: set<nat>)
    requires a <= b
    ensures |a| <= |b|
  {
    if a != {} {
      var x :| x in a;
      SubsetSize(a - {x}, b - {x});
    }
  }

  /** s looks like a, but for the process inside, which is on its way through its section. */
  ghost predicate Serial(a: Atomic, s: State) {
    && Sound(s) && s.procs == a.procs && s.log == a.log
    && (s.inside == map[] ==> s.table == a.table)
    && forall p :: p in s.inside ==> Finish(s.inside[p], s.table) == Meaning(OpOf(s.procs[p]), a.table)
  }

  /** A step outside the table's lock, or inside it, is no turn; leaving the lock is one. */
  lemma {:induction false} StepIsSerial(a: Atomic, s: State, act: Action) returns (turns: seq<Turn>)
    requires Conserved(s) && s.posts == 0 && Serial(a, s) && Enabled(s, act) && !act.Destroy?
    ensures Schedulable(a, turns) && Serial(Schedule(a, turns), Step(s, act))
  {
    turns := [];
    var r := Step(s, act);
    match act
    case Start(p, req) =>
      turns := [Enter(p, req)];
      TakeOne(a, Enter(p, req));
    case Wait(p) =>
      assert s.inside == map[];
      SectionMeans(OpOf(s.procs[p]), s.table);
    case Work(p) =>
      forall q | q in r.inside ensures Finish(r.inside[q], r.table) == Meaning(OpOf(r.procs[q]), a.table) {
        OnlyOne(s, p, q);
        FinishStep(s.inside[p], s.table);
      }
      assert p in r.inside;
    case Post(p) =>
      forall q | q in s.inside ensures q == p {
        OnlyOne(s, p, q);
      }
      assert r.inside == map[];
      turns := [Section(p)];
      TakeOne(a, Section(p));
  }

  lemma {:induction false} Interleavings(a: Atomic, s: State, acts: seq<Action>) returns (turns: seq<Turn>)
    requires Sound(s) && Conserved(s) && (s.posts == 0 ==> Serial(a, s)) && Legal(s, acts)
    ensures Schedulable(a, turns)
    ensures var r := Run(s, acts);
            && Conserved(r) && r.posts >= s.posts
            && (r.posts == 0 ==> Serial(Schedule(a, turns), r))
    decreases |acts|
  {
    turns := [];
    if |acts| > 0 {
      var next := Step(s, acts[0]);
      StepConserves(s, acts[0]);
      var b := a;
      if next.posts == 0 {
        turns := StepIsSerial(a, s, acts[0]);
        b := Schedule(a, turns);
      }
      var rest := Interleavings(b, next, acts[1..]);
      ScheduleConcat(a, turns, rest);
      turns := turns + rest;
    }
  }

  /** Every interleaving: the semaphore plus the processes inside is one plus the destructor
      posts; and while there has been no such post, at most one process is inside, and the run is
      a schedule of whole sections in lock order: same processes, same results, and the same table
      whenever the lock is free. */
  lemma {:induction false} EveryRun(t: Table, acts: seq<Action>) returns (turns: seq<Turn>)
    requires Legal(Init(t), acts)
    ensures Schedulable(Atomic(t, map[], []), turns)
    ensures var (s, a) := (Run(Init(t), acts), Schedule(Atomic(t, map[], []), turns));
            && s.sem + |s.inside| == 1 + s.posts
            && (s.posts == 0 ==> |s.inside| <= 1 && s.procs == a.procs && s.log == a.log)
            && (s.posts == 0 && s.inside == map[] ==> s.table == a.table)
  {
    turns := Interleavings(Atomic(t, map[], []), Init(t), acts);
  }

  // ----- every schedule is a run

  /** The steps process p takes from inside a section to its end. */
  function Works(p: nat, l: Local, t: Table): seq<Action>
    requires Placed(l, |t|)
    decreases Outer(l, |t|), Stage(l), if l.EraseAt? then Left(l.j, |t|) else 0
  {
    if l.Done? then []
    else var (l', t') := Micro(l, t); [Work(p)] + Works(p, l', t')
  }

  /** The state once process p is through its section. */
  function Through(s: State, p: nat): State
    requires Sound(s) && p in s.inside
  {
    var (result, t) := Finish(s.inside[p], s.table);
    s.(table := t, inside := s.inside[p := Done(result)])
  }

  lemma {:induction false} WorksFinish(s: State, p: nat)
    requires Sound(s) && p in s.inside
    ensures var acts := Works(p, s.inside[p], s.table); Legal(s, acts) && Run(s, acts) == Through(s, p)
    decreases Outer(s.inside[p], |s.table|), Stage(s.inside[p]),
              if s.inside[p].EraseAt? then Left(s.inside[p].j, |s.table|) else 0
  {
    var l, acts := s.inside[p], Works(p, s.inside[p], s.table);
    if l.Done? {
      assert s.inside[p := Done(l.result)] == s.inside;
    } else {
      var r := Step(s, Work(p));
      MicroDescends(l, s.table);
      WorksFinish(r, p);
      hide Micro;
      assert acts == [Work(p)] + Works(p, r.inside[p], r.table);
      assert acts[1..] == Works(p, r.inside[p], r.table);
      ThroughStep(s, p);
    }
  }

  lemma ThroughStep(s: State, p: nat)
    requires Sound(s) && p in s.inside && !s.inside[p].Done?
    ensures Through(Step(s, Work(p)), p) == Through(s, p)
  {
    hide Micro;
    var r := Step(s, Work(p));
    var end := Done(Finish(s.inside[p], s.table).0);
    assert r.inside[p := end] == s.inside[p := end];
  }

  /** Each step brings a process closer to the end of its section. */
  lemma MicroDescends(l: Local, t: Table)
    requires !l.Done? && Placed(l, |t|)
    ensures var (m, n) := (Micro(l, t).0, |t|);
            || Outer(m, n) < Outer(l, n)
            || (Outer(m, n) == Outer(l, n) && Stage(m) < Stage(l))
            || (Outer(m, n) == Outer(l, n) && Stage(m) == Stage(l) && l.EraseAt? && m.EraseAt? && Left(m.j, n) < Left(l.j, n))
  {}

  function View(s: State): Atomic { Atomic(s.table, s.procs, s.log) }

  function WithView(s: State, a: Atomic): State { s.(table := a.table, procs := a.procs, log := a.log) }

  /** With nobody inside, any turn can be taken in single steps. */
  lemma TurnRuns(s: State, turn: Turn) returns (acts: seq<Action>)
    requires s.sem > 0 && s.inside == map[] && Possible(View(s), turn)
    ensures Legal(s, acts) && Run(s, acts) == WithView(s, Take(View(s), turn))
  {
    match turn
    case Enter(p, req) =>
      RunOne(s, Start(p, req));
      acts := [Start(p, req)];
    case Section(p) =>
      var op := OpOf(s.procs[p]);
      RunOne(s, Wait(p));
      var s1 := Step(s, Wait(p));
      SectionMeans(op, s.table);
      WorksFinish(s1, p);
      var works := Works(p, Begin(op), s.table);
      var s2 := Run(s1, works);
      RunOne(s2, Post(p));
      RunConcat(s1, works, [Post(p)]);
      RunConcat(s, [Wait(p)], works + [Post(p)]);
      acts := [Wait(p)] + (works + [Post(p)]);
      assert s2.inside - {p} == map[];
  }

  /** Conversely to EveryRun, every schedule of sections is a run. */
  lemma {:induction false} EverySchedule(s: State, turns: seq<Turn>) returns (acts: seq<Action>)
    requires s.sem > 0 && s.inside == map[] && Schedulable(View(s), turns)
    ensures Legal(s, acts) && Run(s, acts) == WithView(s, Schedule(View(s), turns))
    decreases |turns|
  {
    acts := [];
    if |turns| > 0 {
      var first := TurnRuns(s, turns[0]);
      var rest := EverySchedule(Run(s, first), turns[1..]);
      RunConcat(s, first, rest);
      acts := first + rest;
    }
  }

  // ----- one slot per address

  /** The operation registers an address that has a slot already, and there is room for another. */
  predicate Clashes(op: Op, t: Table) { op.Add? && FirstIp(t, op.ip) < |t| && FirstFree(t) < |t| }

  /** A section keeps one slot per address exactly when it does not clash. */
  lemma {:induction false} SectionKeepsOrder(op: Op, t: Table)
    requires WellFormed(t) && (op.Add? ==> op.pid != 0 && op.ip != "")
    ensures WellFormed(Meaning(op, t).1) <==> !Clashes(op, t)
  {
    hide FirstIp, FirstFree;
    if op.Add? && FirstFree(t) < |t| {
      var k, own, r := FirstFree(t), FirstIp(t, op.ip), AddTo(t, op.ip, op.pid);
      assert r[k] == Slot(op.pid, op.ip);
      if own < |t| {
        assert own != k && Filled(r[own]) && Filled(r[k]) && r[own].ip == r[k].ip;
      }
    }
  }

  ghost predicate SaneProcs(a: Atomic) { forall p :: p in a.procs ==> Sane(a.procs[p].req) }

  ghost predicate SaneTurns(turns: seq<Turn>) { forall i :: 0 <= i < |turns| && turns[i].Enter? ==> Sane(turns[i].req) }

  ghost predicate AlwaysWellFormed(a: Atomic, turns: seq<Turn>)
    requires Schedulable(a, turns)
    decreases |turns|
  {
    WellFormed(a.table) && (|turns| > 0 ==> AlwaysWellFormed(Take(a, turns[0]), turns[1..]))
  }

  ghost predicate NeverClashes(a: Atomic, turns: seq<Turn>)
    requires Schedulable(a, turns)
    decreases |turns|
  {
    |turns| > 0 ==>
      && (turns[0].Section? ==> !Clashes(OpOf(a.procs[turns[0].p]), a.table))
      && NeverClashes(Take(a, turns[0]), turns[1..])
  }

  /** A schedule keeps one slot per address throughout exactly when none of its sections clashes. */
  lemma {:induction false} OneSlotPerAddress(a: Atomic, turns: seq<Turn>)
    requires Schedulable(a, turns) && WellFormed(a.table) && SaneProcs(a) && SaneTurns(turns)
    ensures AlwaysWellFormed(a, turns) <==> NeverClashes(a, turns)
    decreases |turns|
  {
    hide WellFormed, Clashes, Meaning;
    if |turns| > 0 {
      var b := Take(a, turns[0]);
      if turns[0].Section? {
        SectionKeepsOrder(OpOf(a.procs[turns[0].p]), a.table);
      }
      if WellFormed(b.table) {
        assert SaneTurns(turns[1..]) by {
          assert forall i :: 0 <= i < |turns[1..]| ==> turns[1..][i] == turns[i + 1];
        }
        OneSlotPerAddress(b, turns[1..]);
      } else {
        assert !AlwaysWellFormed(b, turns[1..]);
      }
    }
  }

  // ----- constructors one after another

  /** One constructor without interruption. */
  function Whole(t: Table, p: nat, r: Request): seq<Turn> {
    if CountIp(Retain(t, r.alive), r.ip) > 0 then [Enter(p, r), Section(p), Section(p), Section(p), Section(p)]
    else [Enter(p, r), Section(p), Section(p), Section(p)]
  }

  /** It leaves the table and the id of Register. */
  lemma {:induction false} WholeIsRegister(a: Atomic, p: nat, r: Request)
    requires p !in a.procs
    ensures var (turns, (t, id)) := (Whole(a.table, p, r), Register(a.table, r));
            && Schedulable(a, turns) && Schedule(a, turns).table == t
            && Schedule(a, turns).procs == a.procs[p := Proc(r, Live, id)]
  {
    hide Retain, CountIp, FirstIp, FirstFree, Schedule, Schedulable, AddTo, ClearIp, IdOr;
    ScheduleNone(a);
    var turns := Then(a, [], Enter(p, r));
    turns := Then(a, turns, Section(p));
    assert Schedule(a, turns).procs == a.procs[p := Proc(r, Counting, -1)];
    turns := Then(a, turns, Section(p));
    if CountIp(Retain(a.table, r.alive), r.ip) > 0 {
      assert Schedule(a, turns).procs == a.procs[p := Proc(r, Clearing, -1)];
      turns := Then(a, turns, Section(p));
    }
    turns := Then(a, turns, Section(p));
    assert turns == Whole(a.table, p, r);
  }

  lemma ScheduleNone(a: Atomic)
    ensures Schedulable(a, []) && Schedule(a, []) == a
  {}

  /** The constructors of processes 0, 1, ... one after another. */
  function Wholes(w: World, rs: seq<Request>): seq<Turn>
    requires |w.given| == |w.table|
  {
    if |rs| == 0 then []
    else Wholes(w, rs[..|rs| - 1]) + Whole(ServeAll(w, rs[..|rs| - 1]).table, |rs| - 1, rs[|rs| - 1])
  }

  /** The processes after the constructors of rs, each with the id Register gave it. */
  ghost predicate Served(procs: map<nat, Proc>, w: World, rs: seq<Request>)
    requires |w.given| == |w.table|
  {
    && (forall p: nat :: p in procs <==> p < |rs|)
    && forall p :: 0 <= p < |rs| ==> procs[p] == Proc(rs[p], Live, Register(ServeAll(w, rs[..p]).table, rs[p]).1)
  }

  lemma ServedSnoc(procs: map<nat, Proc>, w: World, rs: seq<Request>, r: Request)
    requires |w.given| == |w.table| && Served(procs, w, rs)
    ensures Served(procs[|rs| := Proc(r, Live, Register(ServeAll(w, rs).table, r).1)], w, rs + [r])
  {
    hide Register, ServeAll;
    var all := rs + [r];
    assert all[..|rs|] == rs;
    forall p | 0 <= p < |rs| ensures all[..p] == rs[..p] && all[p] == rs[p] {
    }
  }

  /** Constructors that do not overlap serve their requests as ServeAll does, so one slot per
      address is kept (RunsKeepOrder). */
  lemma {:induction false} SerialConstructors(w: World, rs: seq<Request>)
    requires |w.given| == |w.table|
    ensures var (a, turns) := (Atomic(w.table, map[], []), Wholes(w, rs));
            && Schedulable(a, turns) && Schedule(a, turns).table == ServeAll(w, rs).table
            && Served(Schedule(a, turns).procs, w, rs)
  {
    hide Register, Whole, Schedule, Schedulable, Served;
    var a := Atomic(w.table, map[], []);
    if |rs| == 0 {
      ScheduleNone(a);
      ServedNone(w);
      assert rs == [];
    } else {
      var before, n := rs[..|rs| - 1], |rs| - 1;
      SerialConstructors(w, before);
      var b := Schedule(a, Wholes(w, before));
      NotServed(b.procs, w, before);
      WholeIsRegister(b, n, rs[n]);
      ScheduleConcat(a, Wholes(w, before), Whole(b.table, n, rs[n]));
      ServedSnoc(b.procs, w, before, rs[n]);
      assert before + [rs[n]] == rs;
    }
  }

  lemma ServedNone(w: World)
    requires |w.given| == |w.table|
    ensures Served(map[], w, [])
  {}

  lemma NotServed(procs: map<nat, Proc>, w: World, rs: seq<Request>)
    requires |w.given| == |w.table| && Served(procs, w, rs)
    ensures |rs| !in procs
  {
    hide ServeAll;
  }

  // ----- two constructors that overlap

  const FIRST: Request := Request([11, 12], "a", 11)
  const SECOND: Request := Request([11, 12], "a", 12)
  const TWO_FREE: Table := [FREE, FREE]

  lemma TwoFreeMeans()
    ensures Meaning(Cleanup([11, 12]), TWO_FREE) == (0, TWO_FREE)
    ensures Meaning(Count("a"), TWO_FREE) == (0, TWO_FREE)
    ensures Meaning(Add("a", 11), TWO_FREE) == (0, [Slot(11, "a"), FREE])
    ensures Meaning(Add("a", 12), [Slot(11, "a"), FREE]) == (1, [Slot(11, "a"), Slot(12, "a")])
  {
    CountIpPositive(TWO_FREE, "a");
    FirstFreeIs(TWO_FREE, 0);
    FirstFreeIs([Slot(11, "a"), FREE], 1);
    assert Retain(TWO_FREE, [11, 12]) == TWO_FREE;
    assert FirstIp(TWO_FREE, "a") == 2;
    assert AddTo(TWO_FREE, "a", 11) == [Slot(11, "a"), FREE];
    assert AddTo([Slot(11, "a"), FREE], "a", 12) == [Slot(11, "a"), Slot(12, "a")];
  }

  /** Two constructors for one address that take turns: both count no slot of it, both add one. */
  lemma {:induction false} AddressTwiceSchedule() returns (turns: seq<Turn>)
    ensures Schedulable(Atomic(TWO_FREE, map[], []), turns)
    ensures var b := Schedule(Atomic(TWO_FREE, map[], []), turns);
            && b.table == [Slot(11, "a"), Slot(12, "a")]
            && b.procs == map[1 := Proc(FIRST, Live, 0), 2 := Proc(SECOND, Live, 1)]
  {
    hide Schedule, Schedulable, Meaning;
    var a := Atomic(TWO_FREE, map[], []);
    ScheduleNone(a);
    TwoFreeMeans();
    turns := Then(a, [], Enter(1, FIRST));
    turns := Then(a, turns, Enter(2, SECOND));
    turns := Then(a, turns, Section(1));
    turns := Then(a, turns, Section(2));
    assert Schedule(a, turns).procs == map[1 := Proc(FIRST, Counting, -1), 2 := Proc(SECOND, Counting, -1)];
    turns := Then(a, turns, Section(1));
    turns := Then(a, turns, Section(2));
    assert Schedule(a, turns).procs == map[1 := Proc(FIRST, Adding, -1), 2 := Proc(SECOND, Adding, -1)];
    turns := Then(a, turns, Section(1));
    turns := Then(a, turns, Section(2));
  }

  lemma TwiceIsNotWellFormed()
    ensures !WellFormed([Slot(11, "a"), Slot(12, "a")])
  {
    var t := [Slot(11, "a"), Slot(12, "a")];
    assert Filled(t[0]) && Filled(t[1]) && t[0].ip == t[1].ip;
  }

  /** So one slot per address is lost in an undisturbed run. */
  lemma {:induction false} AddressTwice() returns (acts: seq<Action>)
    ensures Legal(Init(TWO_FREE), acts)
    ensures var r := Run(Init(TWO_FREE), acts);
            && r.posts == 0 && r.inside == map[] && r.table == [Slot(11, "a"), Slot(12, "a")] && !WellFormed(r.table)
            && r.procs == map[1 := Proc(FIRST, Live, 0), 2 := Proc(SECOND, Live, 1)]
  {
    hide Schedule, Schedulable, Run, Legal;
    var turns := AddressTwiceSchedule();
    TwiceIsNotWellFormed();
    assert View(Init(TWO_FREE)) == Atomic(TWO_FREE, map[], []);
    acts := EverySchedule(Init(TWO_FREE), turns);
  }

  // ----- after a destructor

  ghost predicate Undestroyed(acts: seq<Action>) { forall i :: 0 <= i < |acts| ==> !acts[i].Destroy? }

  /** No continuation without another destructor has two processes inside. */
  ghost predicate Exclusive(s: State)
    requires Sound(s)
  {
    forall acts :: Legal(s, acts) && Undestroyed(acts) ==> |Run(s, acts).inside| <= 1
  }

  lemma {:induction false} RunConserves(s: State, acts: seq<Action>)
    requires Sound(s) && Conserved(s) && Legal(s, acts) && Undestroyed(acts)
    ensures Conserved(Run(s, acts)) && Run(s, acts).posts == s.posts
    decreases |acts|
  {
    hide Conserved;
    if |acts| > 0 {
      assert Undestroyed(acts[1..]) by {
        assert forall i :: 0 <= i < |acts[1..]| ==> acts[1..][i] == acts[i + 1];
      }
      StepConserves(s, acts[0]);
      RunConserves(Step(s, acts[0]), acts[1..]);
    }
  }

  lemma {:induction false} FreshProcess(used: set<nat>) returns (p: nat)
    ensures p !in used && forall q :: q in used ==> q < p
  {
    if used == {} {
      p := 0;
    } else {
      var q :| q in used;
      var rest := used - {q};
      var r := FreshProcess(rest);
      p := if q < r then r else q + 1;
      assert forall u :: u in used ==> u == q || u in rest;
    }
  }

  /** A new process gets inside whenever the semaphore lets it. */
  lemma OneMoreInside(s: State) returns (acts: seq<Action>)
    requires Sound(s) && s.sem > 0
    ensures Legal(s, acts) && Undestroyed(acts)
    ensures var r := Run(s, acts); |r.inside| == |s.inside| + 1 && r.sem == s.sem - 1 && r.posts == s.posts
  {
    var p := FreshProcess(s.procs.Keys);
    var s1 := Step(s, Start(p, FIRST));
    RunOne(s, Start(p, FIRST));
    RunOne(s1, Wait(p));
    RunConcat(s, [Start(p, FIRST)], [Wait(p)]);
    acts := [Start(p, FIRST)] + [Wait(p)];
    assert Run(s, acts).inside.Keys == s.inside.Keys + {p};
  }

  /** From a state with a destructor post on, two processes can be inside at once. */
  lemma {:induction false} PostLetsTwoIn(s: State) returns (acts: seq<Action>)
    requires Sound(s) && Conserved(s) && s.posts > 0
    ensures Legal(s, acts) && Undestroyed(acts) && |Run(s, acts).inside| >= 2
  {
    hide Run, Legal;
    NoAction(s);
    acts := [];
    if |s.inside| <= 1 {
      acts := OneMoreInside(s);
      if |s.inside| == 0 {
        var more := OneMoreInside(Run(s, acts));
        RunConcat(s, acts, more);
        acts := acts + more;
      }
    }
  }

  lemma NoAction(s: State)
    requires Sound(s)
    ensures Legal(s, []) && Run(s, []) == s
  {}

  /** Mutual exclusion lasts exactly while no destructor has posted. */
  lemma {:induction false} ExclusiveIff(s: State)
    requires Sound(s) && Conserved(s)
    ensures Exclusive(s) <==> s.posts == 0
  {
    hide Run, Legal, Undestroyed;
    if s.posts == 0 {
      forall acts | Legal(s, acts) && Undestroyed(acts) ensures |Run(s, acts).inside| <= 1 {
        RunConserves(s, acts);
      }
    } else {
      var acts := PostLetsTwoIn(s);
    }
  }

  const OTHER: Request := Request([11, 12], "b", 12)
  const GONE: Request := Request([10], "z", 10)

  lemma OneSlotMeans()
    ensures Register([FREE], GONE) == ([Slot(10, "z")], 0)
    ensures Meaning(Cleanup([11, 12]), [Slot(10, "z")]) == (0, [FREE])
    ensures Meaning(Cleanup([11, 12]), [FREE]) == (0, [FREE])
    ensures Meaning(Count("a"), [FREE]) == Meaning(Count("b"), [FREE]) == (0, [FREE])
  {
    CountIpPositive([FREE], "a");
    CountIpPositive([FREE], "b");
    CountIpPositive([FREE], "z");
    FirstFreeIs([FREE], 0);
    assert FirstIp([FREE], "a") == FirstIp([FREE], "b") == FirstIp([FREE], "z") == 1;
    assert Retain([FREE], [11, 12]) == Retain([FREE], [10]) == [FREE];
    assert Retain([Slot(10, "z")], [11, 12]) == [FREE];
    assert AddTo([FREE], "z", 10) == [Slot(10, "z")];
  }

  /** Both constructors have cleaned up and counted, and are about to add. */
  lemma {:induction false} BothCounted(a: Atomic) returns (turns: seq<Turn>)
    requires a.table == [Slot(10, "z")] && 1 !in a.procs && 2 !in a.procs
    ensures Schedulable(a, turns) && Schedule(a, turns).table == [FREE]
    ensures Schedule(a, turns).procs == a.procs[1 := Proc(FIRST, Adding, -1)][2 := Proc(OTHER, Adding, -1)]
  {
    hide Schedule, Schedulable, Meaning;
    ScheduleNone(a);
    OneSlotMeans();
    turns := Then(a, [], Enter(1, FIRST));
    turns := Then(a, turns, Enter(2, OTHER));
    turns := Then(a, turns, Section(1));
    turns := Then(a, turns, Section(2));
    assert Schedule(a, turns).procs == a.procs[1 := Proc(FIRST, Counting, -1)][2 := Proc(OTHER, Counting, -1)];
    turns := Then(a, turns, Section(1));
    turns := Then(a, turns, Section(2));
    assert Schedule(a, turns).procs == a.procs[1 := Proc(FIRST, Adding, -1)][2 := Proc(OTHER, Adding, -1)];
  }

  /** Two steps, one of each process. */
  lemma Both(s: State, a: Action, b: Action)
    requires Sound(s) && Enabled(s, a) && Enabled(Step(s, a), b)
    ensures Legal(s, [a, b]) && Run(s, [a, b]) == Step(Step(s, a), b)
  {
    RunOne(s, a);
    RunOne(Step(s, a), b);
    RunConcat(s, [a], [b]);
    assert [a] + [b] == [a, b];
  }

  lemma BothEnter(s: State)
    requires s.sem == 2 && s.inside == map[] && 1 in s.procs && 2 in s.procs
    requires s.procs[1] == Proc(FIRST, Adding, -1) && s.procs[2] == Proc(OTHER, Adding, -1)
    ensures Legal(s, [Wait(1), Wait(2)])
    ensures Run(s, [Wait(1), Wait(2)]) == s.(sem := 0, inside := map[1 := AddAt("a", 11, 0), 2 := AddAt("b", 12, 0)])
  {
    hide Run, Legal;
    Both(s, Wait(1), Wait(2));
  }

  /** One step of each process inside: l and m are where they stand, l' and m' where they come to. */
  lemma BothWork(s: State, l: Local, m: Local, l': Local, m': Local, t: Table, u: Table)
    requires Sound(s) && s.inside == map[1 := l, 2 := m] && !l.Done? && !m.Done? && Placed(l, |s.table|)
    requires Micro(l, s.table) == (l', t) && Placed(m, |t|) && Micro(m, t) == (m', u)
    ensures Legal(s, [Work(1), Work(2)])
    ensures Run(s, [Work(1), Work(2)]) == s.(table := u, inside := map[1 := l', 2 := m'])
  {
    hide Run, Legal, Micro;
    Both(s, Work(1), Work(2));
  }

  lemma BothLeave(s: State)
    requires s.inside == map[1 := Done(0), 2 := Done(0)] && 1 in s.procs && 2 in s.procs
    requires s.procs[1] == Proc(FIRST, Adding, -1) && s.procs[2] == Proc(OTHER, Adding, -1)
    ensures Legal(s, [Post(1), Post(2)])
    ensures var r := Run(s, [Post(1), Post(2)]);
            && r.inside == map[] && r.table == s.table && r.posts == s.posts
            && r.procs == s.procs[1 := Proc(FIRST, Live, 0)][2 := Proc(OTHER, Live, 0)]
  {
    hide Run, Legal;
    Both(s, Post(1), Post(2));
  }

  lemma AddMicros()
    ensures Micro(AddAt("a", 11, 0), [FREE]) == (AddPidAt("a", 11, 0), [FREE])
    ensures Micro(AddAt("b", 12, 0), [FREE]) == (AddPidAt("b", 12, 0), [FREE])
    ensures Micro(AddPidAt("a", 11, 0), [FREE]) == (AddIpAt("a", 0), [Slot(11, "")])
    ensures Micro(AddPidAt("b", 12, 0), [Slot(11, "")]) == (AddIpAt("b", 0), [Slot(12, "")])
    ensures Micro(AddIpAt("a", 0), [Slot(12, "")]) == (Done(0), [Slot(12, "a")])
    ensures Micro(AddIpAt("b", 0), [Slot(12, "a")]) == (Done(0), [Slot(12, "b")])
  {
    assert SetPid([FREE], 0, 11) == [Slot(11, "")] && SetPid([Slot(11, "")], 0, 12) == [Slot(12, "")];
    assert SetIp([Slot(12, "")], 0, "a") == [Slot(12, "a")] && SetIp([Slot(12, "a")], 0, "b") == [Slot(12, "b")];
  }

  /** With the semaphore at two their last sections overlap: both find slot 0 free. */
  lemma {:induction false} BothInside(s: State) returns (acts: seq<Action>)
    requires s.sem == 2 && s.inside == map[] && s.table == [FREE] && 1 in s.procs && 2 in s.procs
    requires s.procs[1] == Proc(FIRST, Adding, -1) && s.procs[2] == Proc(OTHER, Adding, -1)
    ensures Legal(s, acts) && Run(s, acts).table == [Slot(12, "b")] && Run(s, acts).inside == map[]
    ensures Run(s, acts).procs == s.procs[1 := Proc(FIRST, Live, 0)][2 := Proc(OTHER, Live, 0)]
    ensures Run(s, acts).posts == s.posts
  {
    hide Run, Legal, Micro;
    AddMicros();
    var works := [Work(1), Work(2)];
    acts := [Wait(1), Wait(2)];
    BothEnter(s);
    BothWork(Run(s, acts), AddAt("a", 11, 0), AddAt("b", 12, 0), AddPidAt("a", 11, 0), AddPidAt("b", 12, 0), [FREE], [FREE]);
    RunConcat(s, acts, works);
    acts := acts + works;
    BothWork(Run(s, acts), AddPidAt("a", 11, 0), AddPidAt("b", 12, 0), AddIpAt("a", 0), AddIpAt("b", 0),
             [Slot(11, "")], [Slot(12, "")]);
    RunConcat(s, acts, works);
    acts := acts + works;
    BothWork(Run(s, acts), AddIpAt("a", 0), AddIpAt("b", 0), Done(0), Done(0), [Slot(12, "a")], [Slot(12, "b")]);
    RunConcat(s, acts, works);
    acts := acts + works;
    BothLeave(Run(s, acts));
    RunConcat(s, acts, [Post(1), Post(2)]);
    acts := acts + [Post(1), Post(2)];
  }

  /** A run with one destructor, of a process that had gone through its constructor: afterwards two
      constructors both report slot 0, and the registration of one of them is lost. */
  lemma {:induction false} DestructorBreaksExclusion() returns (acts: seq<Action>)
    ensures Legal(Init([FREE]), acts)
    ensures var r := Run(Init([FREE]), acts);
            && r.posts == 1 && r.table == [Slot(12, "b")]
            && r.procs == map[0 := Proc(GONE, Gone, 0), 1 := Proc(FIRST, Live, 0), 2 := Proc(OTHER, Live, 0)]
  {
    hide Run, Legal, Schedule, Schedulable, Register;
    var s := Init([FREE]);
    OneSlotMeans();
    WholeIsRegister(View(s), 0, GONE);
    acts := EverySchedule(s, Whole([FREE], 0, GONE));
    acts := Extend(s, acts, Destroy(0));
    var s1 := Run(s, acts);
    var turns := BothCounted(View(s1));
    var more := EverySchedule(s1, turns);
    RunConcat(s, acts, more);
    acts := acts + more;
    var last := BothInside(Run(s, acts));
    RunConcat(s, acts, last);
    acts := acts + last;
  }
}
