/**
 The scheduler as a state machine. Each operation is what the running thread does, without being
 preempted, up to and including its next suspend_self; broadcasts may also come from interrupt
 service routines. A failed assertion or an unexpected panic of the code is the result `Crash`.
 */
module Sched {
  import opened Chains

  type Ptr = int                 // address of a struct thread; 0 is NULL
  const NTHR := 16
  const MAIN: Ptr := 1           // &main_thread
  const IDLE: Ptr := 2           // &idle_thread
  const IDLE_TID := NTHR - 1

  datatype State = Ready | Running | Waiting | Exited

  datatype Cond = ChildExit(t: Ptr) | LockCond(l: int) | Dev(n: int)

  datatype List = ReadyList | WaitList(c: Cond)

  /** The call a thread is inside of when it is suspended, from where it continues when resumed. */
  datatype Pc = Top | InJoin(c: Ptr) | InJoinAny | InAcquire(l: int)

  datatype WaitCond = NoCond | On(c: Cond)

  /** `birth` orders threads by creation; `held` are the locks between acquire and release. */
  datatype Thread = Thread(id: int, state: State, parent: Ptr, waitCond: WaitCond, pc: Pc, birth: nat, held: set<int>)

  datatype Sys = Sys(
    thr: map<Ptr, Thread>, tab: seq<Ptr>, cur: Ptr, queue: map<List, seq<Ptr>>, owner: map<int, int>, births: nat)
  {
    function Q(l: List): seq<Ptr> { if l in queue then queue[l] else [] }

    function Owner(l: int): int { if l in owner then owner[l] else -1 }

    function Set(p: Ptr, t: Thread): Sys { this.(thr := thr[p := t]) }

    function Enq(l: List, p: Ptr): Sys { this.(queue := queue[l := Q(l) + [p]]) }
  }

  /** What a step comes to. `suspended`: it went through suspend_self. */
  datatype Result = Next(s: Sys, suspended: bool) | Halt | TooManyThreads | Childless | Crash

  datatype Op =
    | Spawn(p: Ptr)
    | Fork(p: Ptr)
    | Yield
    | Wait(n: int)
    | Broadcast(n: int)
    | Exit
    | Join(tid: int)
    | JoinAny
    | Acquire(l: int)
    | Release(l: int)
    | Resume

  // ----- Building blocks

  /** suspend_self: the first ready thread runs; a still running caller goes to the back of the list. */
  function Suspend(s: Sys): Result {
    var q := s.Q(ReadyList);
    if q == [] || q[0] !in s.thr || !s.thr[q[0]].state.Ready? || s.cur !in s.thr then Crash else
    var s1 := s.Set(q[0], s.thr[q[0]].(state := Running)).(queue := s.queue[ReadyList := q[1..]]);
    var s2 := if s.thr[s.cur].state.Running?
              then s1.Set(s.cur, s.thr[s.cur].(state := Ready)).Enq(ReadyList, s.cur) else s1;
    Next(s2.(cur := q[0]), true)
  }

  /** condition_wait by the running thread, which continues at `pc`. */
  function WaitOn(s: Sys, c: Cond, pc: Pc): Result {
    if s.cur !in s.thr || !s.thr[s.cur].state.Running? then Crash else
    Suspend(s.Set(s.cur, s.thr[s.cur].(state := Waiting, waitCond := On(c), pc := pc)).Enq(WaitList(c), s.cur))
  }

  predicate AwaitsAll(s: Sys, q: seq<Ptr>, c: Cond) {
    forall p :: p in q ==> p in s.thr && s.thr[p].state.Waiting? && s.thr[p].waitCond == On(c)
  }

  /** condition_broadcast: all waiters become ready, in their waiting order. */
  function Wake(s: Sys, c: Cond): (r: Result)
    ensures r.Next? || r.Crash?
  {
    var q := s.Q(WaitList(c));
    if !AwaitsAll(s, q, c) then Crash else
    Next(s.(thr := map p | p in s.thr :: if p in q then s.thr[p].(state := Ready, waitCond := NoCond) else s.thr[p],
            queue := s.queue[ReadyList := s.Q(ReadyList) + q][WaitList(c) := []]), false)
  }

  /** First free slot of the thread table other than the main thread's; NTHR when full. */
  function FreeSlot(tab: seq<Ptr>, i: nat): (k: nat)
    requires i <= |tab|
    ensures i <= k <= |tab| && (k < |tab| ==> tab[k] == 0) && forall j :: i <= j < k ==> tab[j] != 0
  {
    var free := j => 0 <= j < |tab| && tab[j] == 0;
    var k := First(i, |tab|, free);
    assert forall j :: i <= j < k ==> tab[j] != 0 by { forall j | i <= j < k ensures tab[j] != 0 { assert !free(j); } }
    k
  }

  /** A new thread struct, entered in the table as a child of the running thread. */
  function Born(s: Sys, p: Ptr, st: State): (r: Result)
    ensures r.Next? ==> !r.suspended
  {
    if |s.tab| == 0 || s.cur !in s.thr then Crash else
    var tid := FreeSlot(s.tab, 1);
    if tid == |s.tab| then TooManyThreads else
    var t := Thread(tid, st, s.cur, NoCond, Top, s.births, {});
    Next(s.Set(p, t).(tab := s.tab[tid := p], births := s.births + 1), false)
  }

  predicate IsChild(s: Sys, i: int, p: Ptr) { 0 < i < |s.tab| && s.tab[i] in s.thr && s.thr[s.tab[i]].parent == p }

  predicate IsExitedChild(s: Sys, i: int, p: Ptr) { IsChild(s, i, p) && s.thr[s.tab[i]].state.Exited? }

  /** First table slot from `i` on that holds an exited child of `p`; the table size if none does. */
  function ExitedChild(s: Sys, p: Ptr, i: nat): (k: nat)
    requires i <= |s.tab|
    ensures i <= k <= |s.tab| && (k < |s.tab| ==> IsExitedChild(s, k, p))
    ensures forall j :: i <= j < k ==> !IsExitedChild(s, j, p)
  {
    var exited := j => IsExitedChild(s, j, p);
    var k := First(i, |s.tab|, exited);
    assert forall j :: i <= j < k ==> !IsExitedChild(s, j, p) by {
      forall j | i <= j < k ensures !IsExitedChild(s, j, p) { assert !exited(j); }
    }
    k
  }

  /** recycle_thread: the children pass to the parent, the slot and the struct are freed. */
  function Recycle(s: Sys, tid: int): Result {
    if !(0 < tid < |s.tab|) || s.tab[tid] !in s.thr || !s.thr[s.tab[tid]].state.Exited? then Crash else
    var x := s.tab[tid];
    Next(s.(thr := map p | p in s.thr && p != x ::
                     if s.thr[p].parent == x then s.thr[p].(parent := s.thr[x].parent) else s.thr[p],
            tab := s.tab[tid := 0]), false)
  }

  function SetPc(s: Sys, pc: Pc): Sys { if s.cur in s.thr then s.Set(s.cur, s.thr[s.cur].(pc := pc)) else s }

  // ----- Operations of the running thread

  function DoFork(s: Sys, p: Ptr): Result {
    match Born(s, p, Running)
    case Next(s1, _) =>
      if s1.cur !in s1.thr then Crash else
      Next(s1.Set(s.cur, s1.thr[s.cur].(state := Ready)).Enq(ReadyList, s.cur).(cur := p), false)
    case r => r
  }

  function DoExit(s: Sys): Result {
    if s.cur == MAIN then Halt
    else if s.cur !in s.thr || s.thr[s.cur].parent == 0 then Crash else
    match Wake(s.Set(s.cur, s.thr[s.cur].(state := Exited)), ChildExit(s.thr[s.cur].parent))
    case Next(s1, _) => Suspend(s1)
    case r => r
  }

  /** thread_join past its checks: the test of its while loop, and what follows either way. */
  function JoinLoop(s: Sys, c: Ptr): Result {
    if c !in s.thr then Crash
    else if s.thr[c].state.Exited? then Recycle(SetPc(s, Top), s.thr[c].id)
    else WaitOn(s, ChildExit(s.cur), InJoin(c))
  }

  function DoJoin(s: Sys, tid: int): Result {
    if !(0 < tid < |s.tab|) || s.tab[tid] == 0 then Next(s, false)
    else if s.tab[tid] !in s.thr then Crash
    else if s.thr[s.tab[tid]].parent != s.cur then Next(s, false)
    else JoinLoop(s, s.tab[tid])
  }

  function DoJoinAny(s: Sys): Result {
    if |s.tab| == 0 then Crash else
    var tid := ExitedChild(s, s.cur, 1);
    if tid < |s.tab| then DoJoin(s, tid)
    else if !exists i :: 0 < i < |s.tab| && IsChild(s, i, s.cur) then Childless
    else WaitOn(s, ChildExit(s.cur), InJoinAny)
  }

  function ResumeJoinAny(s: Sys): Result {
    if |s.tab| == 0 then Crash else
    var tid := ExitedChild(s, s.cur, 1);
    if tid < |s.tab| then Recycle(SetPc(s, Top), tid) else Crash   // "spurious child_exit signal"
  }

  /** One turn of lock_acquire's loop. */
  function DoAcquire(s: Sys, l: int): Result {
    if s.cur !in s.thr then Crash
    else if s.Owner(l) == -1 then
      var t := s.thr[s.cur];
      Next(s.Set(s.cur, t.(pc := Top, held := t.held + {l})).(owner := s.owner[l := t.id]), false)
    else WaitOn(s, LockCond(l), InAcquire(l))
  }

  function DoRelease(s: Sys, l: int): Result {
    if s.cur !in s.thr || s.Owner(l) != s.thr[s.cur].id then Crash else
    var t := s.thr[s.cur];
    Wake(s.Set(s.cur, t.(held := t.held - {l})).(owner := s.owner[l := -1]), LockCond(l))
  }

  function DoResume(s: Sys): Result {
    if s.cur !in s.thr then Crash else
    match s.thr[s.cur].pc
    case Top => Next(s, false)
    case InJoin(c) => JoinLoop(s, c)
    case InJoinAny => ResumeJoinAny(s)
    case InAcquire(l) => DoAcquire(s, l)
  }

  function Step(s: Sys, op: Op): Result {
    match op
    case Spawn(p) => (match Born(s, p, Ready) case Next(s1, _) => Next(s1.Enq(ReadyList, p), false) case r => r)
    case Fork(p) => DoFork(s, p)
    case Yield => if s.cur in s.thr && s.thr[s.cur].state.Running? then Suspend(s) else Crash
    case Wait(n) => WaitOn(s, Dev(n), Top)
    case Broadcast(n) => Wake(s, Dev(n))
    case Exit => DoExit(s)
    case Join(tid) => DoJoin(s, tid)
    case JoinAny => DoJoinAny(s)
    case Acquire(l) => DoAcquire(s, l)
    case Release(l) => DoRelease(s, l)
    case Resume => DoResume(s)
  }

  /**
   Steps the kernel can take: allocation returns a fresh struct; a thread inside a call goes on with
   it; the idle thread only yields, and only while the ready list is not empty; a lock is released
   by its owner.
   */
  predicate Enabled(s: Sys, op: Op) {
    if op.Broadcast? then true
    else if s.cur !in s.thr then false
    else if op.Resume? then s.thr[s.cur].pc != Top
    else
      && s.thr[s.cur].pc == Top
      && (s.cur == IDLE ==> op.Yield? && s.Q(ReadyList) != [])
      && (op.Spawn? ==> op.p !in s.thr && op.p != 0)
      && (op.Fork? ==> op.p !in s.thr && op.p != 0)
      && (op.Release? ==> s.Owner(op.l) == s.thr[s.cur].id)
  }

  // ----- Invariants

  /** The table and the thread structs name each other; main and idle are there. */
  ghost predicate TableOk(s: Sys) {
    && |s.tab| == NTHR && 0 !in s.thr && MAIN in s.thr && IDLE in s.thr
    && s.tab[0] == MAIN && s.tab[IDLE_TID] == IDLE
    && (forall p {:trigger s.thr[p].id} :: p in s.thr ==> 0 <= s.thr[p].id < NTHR && s.tab[s.thr[p].id] == p)
    && (forall i {:trigger s.tab[i]} :: 0 <= i < NTHR && s.tab[i] != 0 ==> s.tab[i] in s.thr && s.thr[s.tab[i]].id == i)
  }

  /** Exactly the current thread runs; ready threads are on the ready list once; waiting ones on their condition's. */
  ghost predicate ListsOk(s: Sys) { s.cur in s.thr && s.thr[s.cur].state.Running? && ListsWeak(s) }

  /** The same while the current thread is about to give up the processor. */
  ghost predicate ListsWeak(s: Sys) {
    && (forall p {:trigger s.thr[p].state} :: p in s.thr && s.thr[p].state.Running? ==> p == s.cur)
    && (forall p {:trigger p in s.Q(ReadyList)} :: p in s.Q(ReadyList) <==> p in s.thr && s.thr[p].state.Ready?)
    && (forall p, c {:trigger p in s.Q(WaitList(c))} ::
          p in s.Q(WaitList(c)) <==> p in s.thr && s.thr[p].state.Waiting? && s.thr[p].waitCond == On(c))
    && (forall l {:trigger s.Q(l)} :: NoDup(s.Q(l)))
  }

  /** Waiting and calls fit; idle never waits or exits, main never exits. */
  ghost predicate CallsOk(s: Sys) {
    && IDLE in s.thr && MAIN in s.thr
    && (s.thr[IDLE].state.Running? || s.thr[IDLE].state.Ready?) && s.thr[IDLE].pc == Top && !s.thr[MAIN].state.Exited?
    && forall p {:trigger s.thr[p].pc} :: p in s.thr ==>
      match s.thr[p].pc
      case Top => s.thr[p].state.Waiting? ==> s.thr[p].waitCond.On? && s.thr[p].waitCond.c.Dev?
      case InAcquire(l) => !s.thr[p].state.Exited? && (s.thr[p].state.Waiting? ==> s.thr[p].waitCond == On(LockCond(l)))
      case _ => !s.thr[p].state.Exited? && (s.thr[p].state.Waiting? ==> s.thr[p].waitCond == On(ChildExit(p)))
  }

  /** Every thread but main has a live parent born before it. */
  ghost predicate FamilyOk(s: Sys) {
    && MAIN in s.thr && s.thr[MAIN].parent == 0
    && (forall p {:trigger s.thr[p].parent} :: p in s.thr && p != MAIN ==>
          s.thr[p].parent in s.thr && s.thr[s.thr[p].parent].birth < s.thr[p].birth)
    && (forall p {:trigger s.thr[p].birth} :: p in s.thr ==> s.thr[p].birth < s.births)
  }

  ghost predicate HasExitedChild(s: Sys, p: Ptr)
  {
    exists c :: c in s.thr && s.thr[c].parent == p && s.thr[c].state.Exited?
  }

  /** No exit is missed by a joining thread. */
  ghost predicate JoinsOk(s: Sys) {
    forall p {:trigger s.thr[p].pc} :: p in s.thr ==>
      match s.thr[p].pc
      case InJoin(c) => c in s.thr && s.thr[c].parent == p && (s.thr[p].state.Waiting? ==> !s.thr[c].state.Exited?)
      case InJoinAny => HasExitedChild(s, p) <==> !s.thr[p].state.Waiting?
      case _ => true
  }

  ghost predicate WeakInv(s: Sys)
  {
    TableOk(s) && ListsWeak(s) && CallsOk(s) && FamilyOk(s) && JoinsOk(s) && s.cur in s.thr
  }

  ghost predicate Inv(s: Sys) { TableOk(s) && ListsOk(s) && CallsOk(s) && FamilyOk(s) && JoinsOk(s) }

  // ----- Every step keeps the invariants

  lemma IdleIsReady(s: Sys)
    requires WeakInv(s) && (s.cur != IDLE || s.Q(ReadyList) != [])
    ensures s.Q(ReadyList) != []
  {
    if s.cur != IDLE { assert IDLE in s.Q(ReadyList); }
  }

  lemma SuspendKeeps(s: Sys)
    requires WeakInv(s) && !s.thr[s.cur].state.Ready? && (s.cur != IDLE || s.Q(ReadyList) != [])
    ensures Suspend(s).Next? && Inv(Suspend(s).s)
  {
    IdleIsReady(s);
    SuspendLists(s);
    RestSame(s, Suspend(s).s);
  }

  /** Threads only moved between ready and running. */
  ghost predicate Shuffled(s: Sys, s': Sys) {
    && s'.thr.Keys == s.thr.Keys && s'.tab == s.tab && s'.births == s.births && s'.cur in s'.thr
    && forall p {:trigger s'.thr[p]} {:trigger s.thr[p]} :: p in s.thr ==>
         && s'.thr[p] == s.thr[p].(state := s'.thr[p].state)
         && (s'.thr[p].state.Waiting? <==> s.thr[p].state.Waiting?)
         && (s'.thr[p].state.Exited? <==> s.thr[p].state.Exited?)
  }

  lemma RestSame(s: Sys, s': Sys)
    requires TableOk(s) && CallsOk(s) && FamilyOk(s) && JoinsOk(s) && Shuffled(s, s')
    ensures TableOk(s') && CallsOk(s') && FamilyOk(s') && JoinsOk(s')
  {
    TableFamilySame(s, s');
    JoinsSame(s, s');
  }

  lemma OnReadyList(s: Sys, p: Ptr)
    requires ListsWeak(s) && p in s.Q(ReadyList)
    ensures p in s.thr && s.thr[p].state.Ready?
  {
  }

  lemma SuspendShape(s: Sys)
    requires ListsWeak(s) && s.cur in s.thr && !s.thr[s.cur].state.Ready? && s.Q(ReadyList) != []
    ensures var q, r := s.Q(ReadyList), Suspend(s);
            && r.Next? && r.suspended && r.s.cur == q[0] && q[0] in s.thr && q[0] != s.cur && Shuffled(s, r.s)
            && r.s.Q(ReadyList) == q[1..] + (if s.thr[s.cur].state.Running? then [s.cur] else [])
            && (forall l :: l != ReadyList ==> r.s.Q(l) == s.Q(l))
            && r.s.thr[q[0]].state.Running? && (s.thr[s.cur].state.Running? ==> r.s.thr[s.cur].state.Ready?)
            && (forall p :: p in s.thr && p != q[0] && !(p == s.cur && s.thr[p].state.Running?) ==>
                 r.s.thr[p] == s.thr[p])
            && r.s.owner == s.owner
  {
    var q := s.Q(ReadyList);
    OnReadyList(s, q[0]);
    var s' := Suspend(s).s;
    assert s'.queue.Keys == s.queue.Keys + {ReadyList};
  }

  lemma SuspendLists(s: Sys)
    requires ListsWeak(s) && s.cur in s.thr && !s.thr[s.cur].state.Ready? && s.Q(ReadyList) != []
    ensures Suspend(s).Next? && ListsOk(Suspend(s).s) && Shuffled(s, Suspend(s).s)
  {
    SuspendShape(s);
    var q, s' := s.Q(ReadyList), Suspend(s).s;
    var q' := s'.Q(ReadyList);
    assert NoDup(q) && s.cur !in q;
    TailOf(q);
    assert forall p :: p in q' <==> p in s'.thr && s'.thr[p].state.Ready? by {
      forall p ensures p in q' <==> p in s'.thr && s'.thr[p].state.Ready? {
        assert p in q <==> p in s.thr && s.thr[p].state.Ready?;
      }
    }
    forall l ensures NoDup(s'.Q(l)) { assert NoDup(s.Q(l)); }
    forall p, c
      ensures p in s'.Q(WaitList(c)) <==> p in s'.thr && s'.thr[p].state.Waiting? && s'.thr[p].waitCond == On(c)
    {
      assert p in s.Q(WaitList(c)) <==> p in s.thr && s.thr[p].state.Waiting? && s.thr[p].waitCond == On(c);
    }
  }

  lemma TailOf(q: seq<Ptr>)
    requires q != [] && NoDup(q)
    ensures NoDup(q[1..]) && forall p :: p in q[1..] <==> p in q && p != q[0]
  {
  }

  /** Having an exited child depends only on parents and on who has exited. */
  lemma ExitedChildSame(s: Sys, s': Sys, p: Ptr)
    requires s'.thr.Keys == s.thr.Keys
    requires forall c :: c in s.thr ==>
               s'.thr[c].parent == s.thr[c].parent && (s'.thr[c].state.Exited? <==> s.thr[c].state.Exited?)
    ensures HasExitedChild(s', p) <==> HasExitedChild(s, p)
  {
  }

  // ----- Waiting

  function Parked(s: Sys, c: Cond, pc: Pc): Sys
    requires s.cur in s.thr
  {
    s.Set(s.cur, s.thr[s.cur].(state := Waiting, waitCond := On(c), pc := pc)).Enq(WaitList(c), s.cur)
  }

  /** A thread may wait on `c` inside `pc` without missing anything. */
  ghost predicate MayPark(s: Sys, c: Cond, pc: Pc) {
    match pc
    case Top => c.Dev?
    case InAcquire(l) => c == LockCond(l)
    case InJoin(x) => c == ChildExit(s.cur) && x in s.thr && s.thr[x].parent == s.cur && !s.thr[x].state.Exited?
    case InJoinAny => c == ChildExit(s.cur) && !HasExitedChild(s, s.cur)
  }

  lemma ParkLists(s: Sys, c: Cond, pc: Pc)
    requires ListsOk(s)
    ensures ListsWeak(Parked(s, c, pc))
  {
    var s' := Parked(s, c, pc);
    var q := s.Q(WaitList(c));
    assert s.cur !in q && NoDup(q);
    assert s'.Q(WaitList(c)) == q + [s.cur];
    forall l ensures NoDup(s'.Q(l)) { assert NoDup(s.Q(l)); }
    forall p ensures p in s'.Q(ReadyList) <==> p in s'.thr && s'.thr[p].state.Ready? {
      assert s'.Q(ReadyList) == s.Q(ReadyList);
      assert p in s.Q(ReadyList) <==> p in s.thr && s.thr[p].state.Ready?;
    }
    forall p, d
      ensures p in s'.Q(WaitList(d)) <==> p in s'.thr && s'.thr[p].state.Waiting? && s'.thr[p].waitCond == On(d)
    {
      assert p in s.Q(WaitList(d)) <==> p in s.thr && s.thr[p].state.Waiting? && s.thr[p].waitCond == On(d);
    }
  }

  lemma ParkRest(s: Sys, c: Cond, pc: Pc)
    requires Inv(s) && s.cur != IDLE && MayPark(s, c, pc)
    ensures var s' := Parked(s, c, pc); TableOk(s') && CallsOk(s') && FamilyOk(s') && JoinsOk(s')
  {
    hide TableOk, FamilyOk, ListsWeak;
    var s' := Parked(s, c, pc);
    TableFamilySame(s, s');
    forall p | p in s'.thr && s'.thr[p].pc.InJoinAny? ensures HasExitedChild(s', p) <==> !s'.thr[p].state.Waiting? {
      ExitedChildSame(s, s', p);
      assert p != s.cur ==> s.thr[p].pc.InJoinAny?;
    }
  }

  lemma WaitKeeps(s: Sys, c: Cond, pc: Pc)
    requires Inv(s) && s.cur != IDLE && MayPark(s, c, pc)
    ensures WaitOn(s, c, pc).Next? && Inv(WaitOn(s, c, pc).s)
  {
    ParkLists(s, c, pc);
    ParkRest(s, c, pc);
    SuspendKeeps(Parked(s, c, pc));
  }

  // ----- Waking

  function Woken(t: Thread, c: Cond): Thread {
    if t.state.Waiting? && t.waitCond == On(c) then t.(state := Ready, waitCond := NoCond) else t
  }

  lemma WakeShape(s: Sys, c: Cond)
    requires ListsWeak(s)
    ensures var q, r := s.Q(WaitList(c)), Wake(s, c);
            && r.Next? && !r.suspended && r.s == s.(thr := r.s.thr, queue := r.s.queue) && r.s.thr.Keys == s.thr.Keys
            && r.s.Q(ReadyList) == s.Q(ReadyList) + q && r.s.Q(WaitList(c)) == []
            && (forall l :: l != ReadyList && l != WaitList(c) ==> r.s.Q(l) == s.Q(l))
            && (forall p :: p in s.thr ==> r.s.thr[p] == Woken(s.thr[p], c))
  {
    var q := s.Q(WaitList(c));
    forall p | p in q ensures p in s.thr && s.thr[p].state.Waiting? && s.thr[p].waitCond == On(c) {
      assert p in s.Q(WaitList(c));
    }
    forall p | p in s.thr ensures p in q <==> s.thr[p].state.Waiting? && s.thr[p].waitCond == On(c) {
      assert p in s.Q(WaitList(c)) <==> p in s.thr && s.thr[p].state.Waiting? && s.thr[p].waitCond == On(c);
    }
  }

  lemma WakeLists(s: Sys, c: Cond)
    requires ListsWeak(s)
    ensures Wake(s, c).Next? && ListsWeak(Wake(s, c).s)
  {
    WakeShape(s, c);
    var q, s' := s.Q(WaitList(c)), Wake(s, c).s;
    forall p | p in q ensures p !in s.Q(ReadyList) {
      assert p in s.Q(WaitList(c)) <==> p in s.thr && s.thr[p].state.Waiting? && s.thr[p].waitCond == On(c);
    }
    JoinNoDup(s.Q(ReadyList), q);
    forall l ensures NoDup(s'.Q(l)) { assert NoDup(s.Q(l)); }
    forall p ensures p in s'.Q(ReadyList) <==> p in s'.thr && s'.thr[p].state.Ready? {
      assert p in s.Q(ReadyList) <==> p in s.thr && s.thr[p].state.Ready?;
      assert p in s.Q(WaitList(c)) <==> p in s.thr && s.thr[p].state.Waiting? && s.thr[p].waitCond == On(c);
    }
    forall p, d
      ensures p in s'.Q(WaitList(d)) <==> p in s'.thr && s'.thr[p].state.Waiting? && s'.thr[p].waitCond == On(d)
    {
      assert p in s.Q(WaitList(d)) <==> p in s.thr && s.thr[p].state.Waiting? && s.thr[p].waitCond == On(d);
    }
  }

  /** Waking threads that are not joining keeps everything. */
  lemma WakeKeeps(s: Sys, c: Cond)
    requires Inv(s) && !c.ChildExit?
    ensures Wake(s, c).Next? && Inv(Wake(s, c).s)
  {
    hide TableOk, FamilyOk, ListsWeak;
    WakeShape(s, c);
    WakeLists(s, c);
    var s' := Wake(s, c).s;
    TableFamilySame(s, s');
    forall p | p in s'.thr
      ensures s'.thr[p].pc == s.thr[p].pc && (s'.thr[p].pc != Top && !s'.thr[p].pc.InAcquire? ==> s'.thr[p] == s.thr[p])
    {
    }
    JoinsSame(s, s');
  }

  lemma TableFamilySame(s: Sys, s': Sys)
    requires TableOk(s) && FamilyOk(s) && s'.thr.Keys == s.thr.Keys && s'.tab == s.tab && s'.births == s.births
    requires forall p :: p in s.thr ==>
               s'.thr[p].id == s.thr[p].id && s'.thr[p].parent == s.thr[p].parent && s'.thr[p].birth == s.thr[p].birth
    ensures TableOk(s') && FamilyOk(s')
  {
  }

  /** Joining threads and exits are as before. */
  lemma JoinsSame(s: Sys, s': Sys)
    requires JoinsOk(s) && s'.thr.Keys == s.thr.Keys
    requires forall p :: p in s.thr ==> s'.thr[p].pc == s.thr[p].pc && s'.thr[p].parent == s.thr[p].parent
                                        && (s'.thr[p].state.Exited? <==> s.thr[p].state.Exited?)
    requires forall p :: p in s.thr && (s.thr[p].pc.InJoin? || s.thr[p].pc.InJoinAny?) ==>
               (s'.thr[p].state.Waiting? <==> s.thr[p].state.Waiting?)
    ensures JoinsOk(s')
  {
    forall p | p in s'.thr && s'.thr[p].pc.InJoinAny? ensures HasExitedChild(s', p) <==> !s'.thr[p].state.Waiting? {
      ExitedChildSame(s, s', p);
      assert s.thr[p].pc.InJoinAny?;
    }
  }

  // ----- Births

  lemma BornRest(s: Sys, p: Ptr, st: State)
    requires Inv(s) && p !in s.thr && p != 0 && !st.Exited? && !st.Waiting?
    ensures var r := Born(s, p, st);
            && (r.Next? || r.TooManyThreads?)
            && (r.Next? ==> TableOk(r.s) && CallsOk(r.s) && FamilyOk(r.s) && JoinsOk(r.s))
  {
    hide ListsWeak, TableOk, FamilyOk, CallsOk, JoinsOk;
    BornSomewhere(s, p, st);
    if Born(s, p, st).Next? {
      BornFamily(s, p, st);
      BornCalls(s, p, st);
      BornJoins(s, p, st);
    }
  }

  lemma BornSomewhere(s: Sys, p: Ptr, st: State)
    requires TableOk(s) && s.cur in s.thr && p !in s.thr
    ensures Born(s, p, st).Next? || Born(s, p, st).TooManyThreads?
  {
  }

  lemma BornCalls(s: Sys, p: Ptr, st: State)
    requires CallsOk(s) && p !in s.thr && !st.Exited? && !st.Waiting? && Born(s, p, st).Next?
    ensures CallsOk(Born(s, p, st).s)
  {
  }

  lemma BornJoins(s: Sys, p: Ptr, st: State)
    requires JoinsOk(s) && p !in s.thr && !st.Exited? && !st.Waiting? && Born(s, p, st).Next?
    ensures JoinsOk(Born(s, p, st).s)
  {
    var s' := Born(s, p, st).s;
    forall x | x in s'.thr && s'.thr[x].pc.InJoinAny? ensures HasExitedChild(s', x) <==> !s'.thr[x].state.Waiting? {
      assert x in s.thr && s.thr[x].pc.InJoinAny?;
      NewbornHasNotExited(s, s', p, x);
    }
  }

  lemma NewbornHasNotExited(s: Sys, s': Sys, p: Ptr, x: Ptr)
    requires p !in s.thr && s'.thr.Keys == s.thr.Keys + {p} && !s'.thr[p].state.Exited?
    requires forall c :: c in s.thr ==> s'.thr[c] == s.thr[c]
    ensures HasExitedChild(s', x) <==> HasExitedChild(s, x)
  {
    if HasExitedChild(s, x) {
      var c :| c in s.thr && s.thr[c].parent == x && s.thr[c].state.Exited?;
      assert s'.thr[c].parent == x && s'.thr[c].state.Exited?;
    }
  }

  lemma BornFamily(s: Sys, p: Ptr, st: State)
    requires Inv(s) && p !in s.thr && p != 0 && Born(s, p, st).Next?
    ensures TableOk(Born(s, p, st).s) && FamilyOk(Born(s, p, st).s)
  {
    var s', tid := Born(s, p, st).s, FreeSlot(s.tab, 1);
    assert s.thr[IDLE].id == IDLE_TID && tid != IDLE_TID && tid != 0;
    forall x | x in s'.thr ensures 0 <= s'.thr[x].id < NTHR && s'.tab[s'.thr[x].id] == x {
      if x != p { assert s.tab[s.thr[x].id] == x && x != 0; }
    }
  }

  lemma SpawnKeeps(s: Sys, p: Ptr)
    requires Inv(s) && p !in s.thr && p != 0
    ensures var r := Step(s, Spawn(p)); r.TooManyThreads? || (r.Next? && Inv(r.s))
  {
    hide FamilyOk, TableOk, JoinsOk;
    BornRest(s, p, Ready);
    if Born(s, p, Ready).Next? {
      var s1 := Born(s, p, Ready).s;
      var s' := s1.Enq(ReadyList, p);
      assert s'.thr == s1.thr && s'.tab == s1.tab && s'.births == s1.births && s'.cur == s.cur;
      EnqReady(s, s', p);
      JoinsCopy(s1, s');
    }
  }

  lemma JoinsCopy(s: Sys, s': Sys)
    requires s'.thr == s.thr && s'.tab == s.tab && s'.births == s.births && TableOk(s) && CallsOk(s) && FamilyOk(s)
    requires JoinsOk(s)
    ensures TableOk(s') && CallsOk(s') && FamilyOk(s') && JoinsOk(s')
  {
    TableFamilySame(s, s');
    JoinsSame(s, s');
  }

  /** A thread that becomes ready goes to the end of the ready list; no one else changes lists. */
  lemma EnqReady(s: Sys, s': Sys, p: Ptr)
    requires ListsOk(s) && s'.cur in s'.thr && s'.thr[s'.cur].state.Running?
    requires p !in s.Q(ReadyList) && p in s'.thr && s'.thr[p].state.Ready?
    requires s'.queue == s.queue[ReadyList := s.Q(ReadyList) + [p]]
    requires s'.thr.Keys == s.thr.Keys + {p} + {s'.cur} && (s'.cur == s.cur || s'.cur !in s.thr)
    requires (p in s.thr ==> p == s.cur != s'.cur)
    requires s'.cur != s.cur ==> p == s.cur
    requires forall x :: x in s.thr && x != p ==> s'.thr[x] == s.thr[x]
    ensures ListsOk(s')
  {
    var q := s.Q(ReadyList);
    assert s'.Q(ReadyList) == q + [p];
    assert NoDup(q);
    forall l ensures NoDup(s'.Q(l)) { assert NoDup(s.Q(l)); }
    forall x ensures x in s'.Q(ReadyList) <==> x in s'.thr && s'.thr[x].state.Ready? {
      assert x in s.Q(ReadyList) <==> x in s.thr && s.thr[x].state.Ready?;
    }
    forall x, d
      ensures x in s'.Q(WaitList(d)) <==> x in s'.thr && s'.thr[x].state.Waiting? && s'.thr[x].waitCond == On(d)
    {
      assert x in s.Q(WaitList(d)) <==> x in s.thr && s.thr[x].state.Waiting? && s.thr[x].waitCond == On(d);
    }
  }

  lemma ForkShape(s: Sys, p: Ptr)
    requires Inv(s) && p !in s.thr && p != 0 && Born(s, p, Running).Next?
    ensures var s1, r := Born(s, p, Running).s, DoFork(s, p);
            && r.Next? && r.s.thr == s1.thr[s.cur := s.thr[s.cur].(state := Ready)] && r.s.cur == p
            && r.s.queue == s.queue[ReadyList := s.Q(ReadyList) + [s.cur]] && r.s.tab == s1.tab
            && r.s.births == s1.births
            && s1.thr == s.thr[p := s1.thr[p]] && s1.thr[p].state.Running?
  {
  }

  lemma ForkKeeps(s: Sys, p: Ptr)
    requires Inv(s) && p !in s.thr && p != 0
    ensures var r := Step(s, Fork(p)); r.TooManyThreads? || (r.Next? && Inv(r.s))
  {
    hide FamilyOk, TableOk, JoinsOk;
    BornRest(s, p, Running);
    if Born(s, p, Running).Next? {
      ForkShape(s, p);
      var s1, s' := Born(s, p, Running).s, DoFork(s, p).s;
      assert s.cur !in s.Q(ReadyList);
      EnqReady(s, s', s.cur);
      ForkRest(s1, s', s.cur);
    }
  }

  lemma ForkRest(s1: Sys, s': Sys, x: Ptr)
    requires TableOk(s1) && CallsOk(s1) && FamilyOk(s1) && JoinsOk(s1) && x in s1.thr && s1.thr[x].state.Running?
    requires s'.thr == s1.thr[x := s1.thr[x].(state := Ready)] && s'.tab == s1.tab && s'.births == s1.births
    requires s'.cur in s'.thr
    ensures TableOk(s') && CallsOk(s') && FamilyOk(s') && JoinsOk(s')
  {
    RestSame(s1, s');
  }

  // ----- Exits and joins

  function Exiting(s: Sys): Sys
    requires s.cur in s.thr
  {
    s.Set(s.cur, s.thr[s.cur].(state := Exited))
  }

  /** What exiting and waking the parent do to the threads. */
  ghost predicate ExitEffect(s: Sys, s': Sys) {
    && s.cur in s.thr && s'.thr.Keys == s.thr.Keys && s'.cur == s.cur && s'.tab == s.tab && s'.births == s.births
    && s'.thr[s.cur] == s.thr[s.cur].(state := Exited)
    && forall p {:trigger s'.thr[p]} :: p in s.thr && p != s.cur ==>
         s'.thr[p] == Woken(s.thr[p], ChildExit(s.thr[s.cur].parent))
  }

  lemma ExitShape(s: Sys)
    requires ListsOk(s)
    ensures var r := Wake(Exiting(s), ChildExit(s.thr[s.cur].parent));
            r.Next? && ListsWeak(r.s) && ExitEffect(s, r.s)
  {
    var c := ChildExit(s.thr[s.cur].parent);
    ExitLists(s);
    WakeShape(Exiting(s), c);
    WakeLists(Exiting(s), c);
  }

  lemma ExitRest(s: Sys, s': Sys)
    requires TableOk(s) && CallsOk(s) && FamilyOk(s) && JoinsOk(s) && ExitEffect(s, s')
    requires s.cur != MAIN && s.cur != IDLE && s.thr[s.cur].pc == Top && s.thr[s.cur].state.Running?
    ensures TableOk(s') && CallsOk(s') && FamilyOk(s') && JoinsOk(s')
  {
    TableFamilySame(s, s');
    CallsKept(s, s', s.cur);
    ExitJoins(s, s');
  }

  /** Calls fit when no thread starts to wait, and only `x`, outside any call, has exited. */
  lemma CallsKept(s: Sys, s': Sys, x: Ptr)
    requires CallsOk(s) && s'.thr.Keys == s.thr.Keys && x != MAIN && x != IDLE
    requires forall p :: p in s.thr ==>
               && s'.thr[p].pc == s.thr[p].pc && (s'.thr[p].state.Waiting? ==> s'.thr[p] == s.thr[p])
               && (s'.thr[p].state.Exited? ==> s.thr[p].state.Exited? || (p == x && s.thr[p].pc == Top))
    ensures CallsOk(s')
  {
    assert s'.thr[IDLE].pc == s.thr[IDLE].pc;
    forall p | p in s'.thr
      ensures s'.thr[p].pc == s.thr[p].pc && (s'.thr[p].state.Waiting? ==> s'.thr[p] == s.thr[p])
    {
    }
  }

  lemma ExitLists(s: Sys)
    requires ListsOk(s)
    ensures ListsWeak(Exiting(s))
  {
    var s' := Exiting(s);
    forall l ensures s'.Q(l) == s.Q(l) && NoDup(s'.Q(l)) { assert NoDup(s.Q(l)); }
    forall p ensures p in s'.Q(ReadyList) <==> p in s'.thr && s'.thr[p].state.Ready? {
      assert p in s.Q(ReadyList) <==> p in s.thr && s.thr[p].state.Ready?;
    }
    forall p, d
      ensures p in s'.Q(WaitList(d)) <==> p in s'.thr && s'.thr[p].state.Waiting? && s'.thr[p].waitCond == On(d)
    {
      assert p in s.Q(WaitList(d)) <==> p in s.thr && s.thr[p].state.Waiting? && s.thr[p].waitCond == On(d);
    }
  }

  lemma ExitJoins(s: Sys, s': Sys)
    requires CallsOk(s) && JoinsOk(s) && ExitEffect(s, s') && s.thr[s.cur].pc == Top && s.thr[s.cur].state.Running?
    ensures JoinsOk(s')
  {
    forall p | p in s'.thr ensures s'.thr[p].pc == s.thr[p].pc {}
    forall p | p in s'.thr && s'.thr[p].pc.InJoin? ensures
      var c := s'.thr[p].pc.c;
      c in s'.thr && s'.thr[c].parent == p && (s'.thr[p].state.Waiting? ==> !s'.thr[c].state.Exited?)
    {
      assert s.thr[p].pc.InJoin?;
    }
    forall p | p in s'.thr && s'.thr[p].pc.InJoinAny? ensures HasExitedChild(s', p) <==> !s'.thr[p].state.Waiting? {
      ExitJoinAny(s, s', p);
    }
  }

  lemma ExitJoinAny(s: Sys, s': Sys, p: Ptr)
    requires CallsOk(s) && JoinsOk(s) && ExitEffect(s, s') && s.thr[s.cur].state.Running?
    requires p in s.thr && p != s.cur && s.thr[p].pc.InJoinAny?
    ensures HasExitedChild(s', p) <==> !s'.thr[p].state.Waiting?
  {
    assert s.thr[p].pc.InJoinAny?;
    if p == s.thr[s.cur].parent {
      assert s'.thr[s.cur].parent == p;
    } else {
      forall c | c in s.thr
        ensures s'.thr[c].parent == s.thr[c].parent
                  && (c != s.cur ==> (s'.thr[c].state.Exited? <==> s.thr[c].state.Exited?))
      {
      }
      if HasExitedChild(s', p) {
        var c :| c in s'.thr && s'.thr[c].parent == p && s'.thr[c].state.Exited?;
        assert c in s.thr && s.thr[c].parent == p && s.thr[c].state.Exited?;
      }
      if HasExitedChild(s, p) {
        var c :| c in s.thr && s.thr[c].parent == p && s.thr[c].state.Exited?;
        assert c in s'.thr && s'.thr[c].parent == p && s'.thr[c].state.Exited?;
      }
    }
  }

  lemma ExitKeeps(s: Sys)
    requires Inv(s) && s.cur != IDLE && s.thr[s.cur].pc == Top
    ensures var r := Step(s, Exit); if s.cur == MAIN then r.Halt? else r.Next? && Inv(r.s)
  {
    if s.cur != MAIN {
      ExitShape(s);
      var s1 := Wake(Exiting(s), ChildExit(s.thr[s.cur].parent)).s;
      ExitRest(s, s1);
      SuspendKeeps(s1);
      assert s.thr[s.cur].parent in s.thr;
    }
  }

  /** recycle_thread takes `x` out of the family: its children pass to its parent, the running thread. */
  ghost predicate RecycleEffect(s: Sys, s': Sys, x: Ptr) {
    && s'.thr.Keys == s.thr.Keys - {x} && s'.cur == s.cur && s'.births == s.births && s'.queue == s.queue
    && s'.owner == s.owner
    && x in s.thr && s.thr[x].parent == s.cur && s.thr[x].state.Exited?
    && 0 <= s.thr[x].id < |s.tab| && s'.tab == s.tab[s.thr[x].id := 0]
    && forall p {:trigger s'.thr[p]} :: p in s.thr && p != x ==>
         s'.thr[p] == if s.thr[p].parent == x then s.thr[p].(parent := s.cur) else s.thr[p]
  }

  lemma RecycleLists(s: Sys, s': Sys, x: Ptr)
    requires ListsOk(s) && RecycleEffect(s, s', x)
    ensures ListsOk(s')
  {
    forall l ensures s'.Q(l) == s.Q(l) && NoDup(s'.Q(l)) { assert NoDup(s.Q(l)); }
    forall p ensures p in s'.Q(ReadyList) <==> p in s'.thr && s'.thr[p].state.Ready? {
      assert p in s.Q(ReadyList) <==> p in s.thr && s.thr[p].state.Ready?;
    }
    forall p, d
      ensures p in s'.Q(WaitList(d)) <==> p in s'.thr && s'.thr[p].state.Waiting? && s'.thr[p].waitCond == On(d)
    {
      assert p in s.Q(WaitList(d)) <==> p in s.thr && s.thr[p].state.Waiting? && s.thr[p].waitCond == On(d);
    }
  }

  lemma RecycleTable(s: Sys, s': Sys, x: Ptr)
    requires TableOk(s) && RecycleEffect(s, s', x) && x != MAIN && x != IDLE
    ensures TableOk(s')
  {
    forall p | p in s'.thr ensures s'.thr[p].id == s.thr[p].id && s.thr[p].id != s.thr[x].id {}
  }

  lemma RecycleFamily(s: Sys, s': Sys, x: Ptr)
    requires FamilyOk(s) && RecycleEffect(s, s', x) && x != MAIN && x != 0 && s.cur in s.thr && s.cur != x
    ensures FamilyOk(s')
  {
    forall p | p in s'.thr ensures s'.thr[p].birth == s.thr[p].birth {}
    assert s.thr[s.cur].birth < s.thr[x].birth by { assert s.thr[x].parent == s.cur; }
    forall p | p in s'.thr && p != MAIN
      ensures s'.thr[p].parent in s'.thr && s'.thr[s'.thr[p].parent].birth < s'.thr[p].birth
    {
      assert s.thr[p].parent in s.thr && s.thr[s.thr[p].parent].birth < s.thr[p].birth;
    }
    assert s'.thr[MAIN].parent == s.thr[MAIN].parent;
  }

  lemma RecycleJoins(s: Sys, s': Sys, x: Ptr)
    requires CallsOk(s) && JoinsOk(s) && RecycleEffect(s, s', x) && s.cur in s.thr && s.thr[s.cur].pc == Top
    requires s.cur != x
    requires s.thr[s.cur].state.Running? && x != MAIN && x != IDLE
    ensures CallsOk(s') && JoinsOk(s')
  {
    forall p | p in s'.thr
      ensures s'.thr[p].pc == s.thr[p].pc && s'.thr[p].state == s.thr[p].state
                && s'.thr[p].waitCond == s.thr[p].waitCond
    {
    }
    forall p | p in s'.thr && s'.thr[p].pc.InJoin? ensures
      var c := s'.thr[p].pc.c;
      c in s'.thr && s'.thr[c].parent == p && (s'.thr[p].state.Waiting? ==> !s'.thr[c].state.Exited?)
    {
      assert s.thr[p].pc.InJoin?;
    }
    forall p | p in s'.thr && s'.thr[p].pc.InJoinAny? ensures HasExitedChild(s', p) <==> !s'.thr[p].state.Waiting? {
      RecycleJoinAny(s, s', x, p);
    }
  }

  lemma RecycleJoinAny(s: Sys, s': Sys, x: Ptr, p: Ptr)
    requires JoinsOk(s) && RecycleEffect(s, s', x) && s.cur in s.thr && s.thr[s.cur].pc == Top
    requires p in s.thr && p != x && s.thr[p].pc.InJoinAny?
    ensures HasExitedChild(s', p) <==> !s'.thr[p].state.Waiting?
  {
    assert s.thr[p].pc.InJoinAny? && p != s.cur;
    if HasExitedChild(s', p) {
      var c :| c in s'.thr && s'.thr[c].parent == p && s'.thr[c].state.Exited?;
      assert c in s.thr && s.thr[c].parent == p && s.thr[c].state.Exited?;
    }
    if HasExitedChild(s, p) {
      var c :| c in s.thr && s.thr[c].parent == p && s.thr[c].state.Exited?;
      assert c in s'.thr && s'.thr[c].parent == p && s'.thr[c].state.Exited?;
    }
  }

  lemma ListsSame(s: Sys, s': Sys)
    requires ListsOk(s) && s'.thr.Keys == s.thr.Keys && s'.cur == s.cur && s'.queue == s.queue
    requires forall p :: p in s.thr ==> s'.thr[p].state == s.thr[p].state && s'.thr[p].waitCond == s.thr[p].waitCond
    ensures ListsOk(s')
  {
    forall l ensures s'.Q(l) == s.Q(l) && NoDup(s'.Q(l)) { assert NoDup(s.Q(l)); }
    forall p ensures p in s'.Q(ReadyList) <==> p in s'.thr && s'.thr[p].state.Ready? {
      assert p in s.Q(ReadyList) <==> p in s.thr && s.thr[p].state.Ready?;
    }
    forall p, d
      ensures p in s'.Q(WaitList(d)) <==> p in s'.thr && s'.thr[p].state.Waiting? && s'.thr[p].waitCond == On(d)
    {
      assert p in s.Q(WaitList(d)) <==> p in s.thr && s.thr[p].state.Waiting? && s.thr[p].waitCond == On(d);
    }
  }

  lemma SetTopKeeps(s: Sys)
    requires Inv(s)
    ensures var s' := SetPc(s, Top);
            && Inv(s') && s'.thr == s.thr[s.cur := s.thr[s.cur].(pc := Top)]
            && s'.tab == s.tab && s'.queue == s.queue && s'.cur == s.cur
  {
    hide ListsWeak, FamilyOk, TableOk;
    var s' := SetPc(s, Top);
    TableFamilySame(s, s');
    ListsSame(s, s');
    forall p | p in s'.thr && s'.thr[p].pc.InJoinAny? ensures HasExitedChild(s', p) <==> !s'.thr[p].state.Waiting? {
      ExitedChildSame(s, s', p);
      assert s.thr[p].pc.InJoinAny?;
    }
  }

  lemma RecycleKeeps(s: Sys, tid: int)
    requires Inv(s) && IsExitedChild(s, tid, s.cur)
    ensures var r := Recycle(SetPc(s, Top), tid);
            r.Next? && !r.suspended && Inv(r.s) && RecycleEffect(SetPc(s, Top), r.s, s.tab[tid])
  {
    SetTopKeeps(s);
    var s1, x := SetPc(s, Top), s.tab[tid];
    assert x != 0 && s1.thr[x].id == tid;
    RecycleShape(s1, tid);
    var s' := Recycle(s1, tid).s;
    RecycleLists(s1, s', x);
    RecycleTable(s1, s', x);
    RecycleFamily(s1, s', x);
    RecycleJoins(s1, s', x);
  }

  lemma RecycleShape(s: Sys, tid: int)
    requires TableOk(s) && IsExitedChild(s, tid, s.cur) && s.thr[s.tab[tid]].id == tid
    ensures var r := Recycle(s, tid); r.Next? && !r.suspended && RecycleEffect(s, r.s, s.tab[tid])
  {
  }

  // ----- Every step

  lemma JoinLoopKeeps(s: Sys, c: Ptr)
    requires Inv(s) && s.cur != IDLE && c in s.thr && s.thr[c].parent == s.cur && c != MAIN
    ensures JoinLoop(s, c).Next? && Inv(JoinLoop(s, c).s)
  {
    if s.thr[c].state.Exited? {
      assert s.tab[s.thr[c].id] == c && s.thr[c].id != 0;
      RecycleKeeps(s, s.thr[c].id);
    } else {
      WaitKeeps(s, ChildExit(s.cur), InJoin(c));
    }
  }

  lemma NoExitedSlot(s: Sys, p: Ptr)
    requires TableOk(s) && FamilyOk(s) && p != 0
    ensures ExitedChild(s, p, 1) == |s.tab| <==> !HasExitedChild(s, p)
  {
    if HasExitedChild(s, p) {
      var c :| c in s.thr && s.thr[c].parent == p && s.thr[c].state.Exited?;
      assert IsExitedChild(s, s.thr[c].id, p);
    }
    var k := ExitedChild(s, p, 1);
    if k < |s.tab| {
      var c := s.tab[k];
      assert c in s.thr && s.thr[c].parent == p && s.thr[c].state.Exited?;
    }
  }

  lemma JoinAnyKeeps(s: Sys)
    requires Inv(s) && s.cur != IDLE
    ensures var r := DoJoinAny(s); r.Childless? || (r.Next? && Inv(r.s))
  {
    NoExitedSlot(s, s.cur);
    var tid := ExitedChild(s, s.cur, 1);
    if tid < |s.tab| {
      assert IsExitedChild(s, tid, s.cur) && s.tab[tid] != 0;
      JoinLoopKeeps(s, s.tab[tid]);
    } else if exists i :: 0 < i < |s.tab| && IsChild(s, i, s.cur) {
      WaitKeeps(s, ChildExit(s.cur), InJoinAny);
    }
  }

  lemma AcquireKeeps(s: Sys, l: int)
    requires Inv(s) && s.cur != IDLE
    ensures DoAcquire(s, l).Next? && Inv(DoAcquire(s, l).s)
  {
    if s.Owner(l) == -1 {
      SetTopKeeps(s);
      HeldIsFree(SetPc(s, Top), DoAcquire(s, l).s);
    } else {
      WaitKeeps(s, LockCond(l), InAcquire(l));
    }
  }

  /** The scheduler's invariants do not depend on who holds which lock. */
  lemma HeldIsFree(s: Sys, s': Sys)
    requires Inv(s) && s'.thr.Keys == s.thr.Keys && s'.tab == s.tab && s'.cur == s.cur && s'.queue == s.queue
    requires s'.births == s.births
    requires forall p :: p in s.thr ==> s'.thr[p] == s.thr[p].(held := s'.thr[p].held)
    ensures Inv(s')
  {
    TableFamilySame(s, s');
    JoinsSame(s, s');
    ListsSame(s, s');
  }

  lemma ReleaseKeeps(s: Sys, l: int)
    requires Inv(s) && s.Owner(l) == s.thr[s.cur].id
    ensures DoRelease(s, l).Next? && Inv(DoRelease(s, l).s)
  {
    var t := s.thr[s.cur];
    var s1 := s.Set(s.cur, t.(held := t.held - {l})).(owner := s.owner[l := -1]);
    HeldIsFree(s, s1);
    WakeKeeps(s1, LockCond(l));
  }

  lemma ResumeKeeps(s: Sys)
    requires Inv(s) && s.thr[s.cur].pc != Top
    ensures DoResume(s).Next? && Inv(DoResume(s).s)
  {
    assert s.cur != IDLE;
    match s.thr[s.cur].pc {
      case InJoin(c) =>
        assert c != MAIN;
        JoinLoopKeeps(s, c);
      case InJoinAny =>
        NoExitedSlot(s, s.cur);
        RecycleKeeps(s, ExitedChild(s, s.cur, 1));
      case InAcquire(l) => AcquireKeeps(s, l);
      case Top =>
    }
  }

  /**
   Every step the kernel can take from a state of the invariant leads to another one, or stops the
   kernel on purpose: no assertion fails, the ready list is never empty when a thread is picked,
   and the "spurious child_exit signal" panic is not reached.
   */
  lemma StepKeeps(s: Sys, op: Op)
    requires Inv(s) && Enabled(s, op)
    ensures match Step(s, op)
            case Next(s', _) => Inv(s')
            case Halt => op.Exit? && s.cur == MAIN
            case TooManyThreads => op.Spawn? || op.Fork?
            case Childless => op.JoinAny?
            case Crash => false
  {
    hide ListsWeak;
    match op {
      case Spawn(p) => SpawnKeeps(s, p);
      case Fork(p) => ForkKeeps(s, p);
      case Yield => SuspendKeeps(s);
      case Wait(n) => WaitKeeps(s, Dev(n), Top);
      case Broadcast(n) => WakeKeeps(s, Dev(n));
      case Exit => ExitKeeps(s);
      case Join(tid) =>
        if 0 < tid < |s.tab| && s.tab[tid] != 0 && s.thr[s.tab[tid]].parent == s.cur { JoinLoopKeeps(s, s.tab[tid]); }
      case JoinAny => JoinAnyKeeps(s);
      case Acquire(l) => AcquireKeeps(s, l);
      case Release(l) => ReleaseKeeps(s, l);
      case Resume => ResumeKeeps(s);
    }
  }
}
