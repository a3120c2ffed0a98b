/**
 What each operation of the scheduler does, stated on thread fields, lists and table alone: who runs
 next, who is ready or waits, and when a call returns.
 */
module Effects {
  import opened Chains
  import opened Sched

  /** The wait lists of all conditions but `c` are unchanged. */
  ghost predicate OtherWaits(s: Sys, t: Sys, c: Cond) { forall d :: d != c ==> t.Q(WaitList(d)) == s.Q(WaitList(d)) }

  ghost predicate SameWaits(s: Sys, t: Sys) { forall d :: t.Q(WaitList(d)) == s.Q(WaitList(d)) }

  /** The running thread waits on `c`, last in its list, to go on at `pc`; the first ready thread runs. */
  ghost predicate Slept(s: Sys, t: Sys, c: Cond, pc: Pc)
    requires s.cur in s.thr
  {
    && s.Q(ReadyList) != [] && t.cur == s.Q(ReadyList)[0] && t.cur in s.thr && t.cur != s.cur
    && t.thr == s.thr[s.cur := s.thr[s.cur].(state := Waiting, waitCond := On(c), pc := pc)]
                     [t.cur := s.thr[t.cur].(state := Running)]
    && t.Q(ReadyList) == s.Q(ReadyList)[1..]
    && t.Q(WaitList(c)) == s.Q(WaitList(c)) + [s.cur] && OtherWaits(s, t, c)
    && t.tab == s.tab && t.owner == s.owner
  }

  /** The threads that wait on `c` are ready, behind those that were; all others are as they were. */
  ghost predicate Woke(s: Sys, t: Sys, c: Cond) {
    && t.thr.Keys == s.thr.Keys
    && (forall p :: p in s.thr ==>
          t.thr[p] == Signalled(s.thr[p], c))
    && t.Q(ReadyList) == s.Q(ReadyList) + s.Q(WaitList(c)) && t.Q(WaitList(c)) == [] && OtherWaits(s, t, c)
    && t.cur == s.cur && t.tab == s.tab
  }

  /** Child `x` is gone, its slot free and its children those of the running thread; nothing else changed. */
  ghost predicate Reaped(s: Sys, t: Sys, x: Ptr)
    requires s.cur in s.thr
  {
    && x in s.thr && s.thr[x].parent == s.cur && s.thr[x].state.Exited?
    && t.thr.Keys == s.thr.Keys - {x} && s.cur in t.thr
    && (forall p :: p in t.thr && p != s.cur ==>
          t.thr[p] == if s.thr[p].parent == x then s.thr[p].(parent := s.cur) else s.thr[p])
    && t.thr[s.cur] == s.thr[s.cur].(pc := Top)
    && 0 <= s.thr[x].id < |s.tab| && t.tab == s.tab[s.thr[x].id := 0]
    && t.cur == s.cur && t.queue == s.queue && t.owner == s.owner
  }

  /** `p` is a new thread in the first free slot, a child of the running thread. */
  ghost predicate Created(s: Sys, t: Sys, p: Ptr, st: State) {
    && p in t.thr && 0 < t.thr[p].id < |s.tab| && s.tab[t.thr[p].id] == 0
    && (forall j :: 0 < j < t.thr[p].id ==> s.tab[j] != 0)
    && t.tab == s.tab[t.thr[p].id := p]
    && t.thr[p].state == st && t.thr[p].parent == s.cur && t.thr[p].pc == Top && t.thr[p].held == {}
    && SameWaits(s, t) && t.owner == s.owner
  }

  // ----- Threads come and go

  lemma SpawnEffect(s: Sys, p: Ptr)
    requires Inv(s) && p !in s.thr && p != 0
    ensures var r := Step(s, Spawn(p));
            && (r.TooManyThreads? <==> forall i :: 0 < i < NTHR ==> s.tab[i] != 0)
            && (!r.TooManyThreads? ==>
                  && r.Next? && !r.suspended && Created(s, r.s, p, Ready) && r.s.thr == s.thr[p := r.s.thr[p]]
                  && r.s.cur == s.cur && r.s.Q(ReadyList) == s.Q(ReadyList) + [p])
  {
    hide ListsWeak, CallsOk, FamilyOk, JoinsOk;
    assert s.cur in s.thr && |s.tab| == NTHR;
    var k := FreeSlot(s.tab, 1);
  }

  lemma ForkEffect(s: Sys, p: Ptr)
    requires Inv(s) && p !in s.thr && p != 0
    ensures var r := Step(s, Fork(p));
            && (r.TooManyThreads? <==> forall i :: 0 < i < NTHR ==> s.tab[i] != 0)
            && (!r.TooManyThreads? ==>
                  && r.Next? && !r.suspended && Created(s, r.s, p, Running) && r.s.cur == p
                  && r.s.thr == s.thr[p := r.s.thr[p]][s.cur := s.thr[s.cur].(state := Ready)]
                  && r.s.Q(ReadyList) == s.Q(ReadyList) + [s.cur])
  {
    hide ListsWeak, CallsOk, FamilyOk, JoinsOk;
    assert s.cur in s.thr && |s.tab| == NTHR;
    var k := FreeSlot(s.tab, 1);
    if k < NTHR {
      var t := DoFork(s, p).s;
      assert t.thr == s.thr[p := t.thr[p]][s.cur := s.thr[s.cur].(state := Ready)];
    }
  }

  /** Thread `p` of `s` once condition `c` has been signalled. */
  function Signalled(t: Thread, c: Cond): Thread {
    if t.state.Waiting? && t.waitCond == On(c) then t.(state := Ready, waitCond := NoCond) else t
  }

  /** The running thread has exited, those that wait for a child of its parent are ready, and the next one runs. */
  ghost predicate Gone(s: Sys, t: Sys)
    requires s.cur in s.thr
  {
    var c := ChildExit(s.thr[s.cur].parent);
    var q := s.Q(ReadyList) + s.Q(WaitList(c));
    && q != [] && t.cur == q[0] != s.cur && t.cur in s.thr && t.Q(ReadyList) == q[1..]
    && t.Q(WaitList(c)) == [] && OtherWaits(s, t, c) && t.tab == s.tab && t.owner == s.owner
    && t.thr.Keys == s.thr.Keys && t.thr[s.cur] == s.thr[s.cur].(state := Exited)
    && t.thr[t.cur] == Signalled(s.thr[t.cur], c).(state := Running)
    && forall p :: p in s.thr && p != s.cur && p != t.cur ==> t.thr[p] == Signalled(s.thr[p], c)
  }

  /** Main halts the system; any other thread is gone. */
  lemma ExitDone(s: Sys)
    requires Inv(s) && s.cur != IDLE
    ensures var r := Step(s, Exit); if s.cur == MAIN then r.Halt? else r.Next? && r.suspended && Gone(s, r.s)
  {
    if s.cur != MAIN {
      IdleIsReady(s);
      assert s.thr[s.cur].parent in s.thr && s.thr[s.cur].parent != 0;
      ExitPlain(s);
    }
  }

  lemma ExitPlain(s: Sys)
    requires ListsOk(s) && s.cur != MAIN && s.Q(ReadyList) != [] && s.thr[s.cur].parent != 0
    ensures var r := Step(s, Exit); r.Next? && r.suspended && Gone(s, r.s)
  {
    hide ListsOk, Wake;
    assert s.cur in s.thr && s.thr[s.cur].state.Running? by { RunningNow(s); }
    ExitWakes(s);
    var s2 := Wake(Exiting(s), ChildExit(s.thr[s.cur].parent)).s;
    SuspendShape(s2);
  }

  lemma RunningNow(s: Sys)
    requires ListsOk(s)
    ensures s.cur in s.thr && s.thr[s.cur].state.Running?
  {
  }

  lemma ExitWakes(s: Sys)
    requires ListsOk(s)
    ensures var c := ChildExit(s.thr[s.cur].parent);
            var r := Wake(Exiting(s), c);
            && r.Next? && ListsWeak(r.s) && r.s.cur == s.cur && r.s.tab == s.tab && r.s.owner == s.owner
            && r.s.Q(ReadyList) == s.Q(ReadyList) + s.Q(WaitList(c)) && r.s.Q(WaitList(c)) == []
            && OtherWaits(s, r.s, c)
            && r.s.thr.Keys == s.thr.Keys && r.s.thr[s.cur] == s.thr[s.cur].(state := Exited)
            && forall p :: p in s.thr && p != s.cur ==> r.s.thr[p] == Signalled(s.thr[p], c)
  {
    var s1, c := Exiting(s), ChildExit(s.thr[s.cur].parent);
    ExitLists(s);
    WakeShape(s1, c);
    WakeLists(s1, c);
    assert s1.Q(ReadyList) == s.Q(ReadyList) && s1.Q(WaitList(c)) == s.Q(WaitList(c));
  }

  // ----- Giving up the processor, waiting and waking

  lemma YieldEffect(s: Sys)
    requires Inv(s) && Enabled(s, Yield)
    ensures var r := Step(s, Yield);
            && r.Next? && r.suspended && s.Q(ReadyList) != [] && r.s.cur == s.Q(ReadyList)[0] != s.cur
            && r.s.cur in s.thr
            && r.s.thr == s.thr[r.s.cur := s.thr[r.s.cur].(state := Running)][s.cur := s.thr[s.cur].(state := Ready)]
            && r.s.Q(ReadyList) == s.Q(ReadyList)[1..] + [s.cur] && SameWaits(s, r.s)
            && r.s.tab == s.tab && r.s.owner == s.owner
  {
    IdleIsReady(s);
    hide Inv;
    YieldPlain(s);
  }

  lemma YieldPlain(s: Sys)
    requires ListsOk(s) && s.Q(ReadyList) != []
    ensures var r := Step(s, Yield);
            && r.Next? && r.suspended && r.s.cur == s.Q(ReadyList)[0] != s.cur && r.s.cur in s.thr
            && r.s.thr == s.thr[r.s.cur := s.thr[r.s.cur].(state := Running)][s.cur := s.thr[s.cur].(state := Ready)]
            && r.s.Q(ReadyList) == s.Q(ReadyList)[1..] + [s.cur] && SameWaits(s, r.s)
            && r.s.tab == s.tab && r.s.owner == s.owner
  {
    SuspendShape(s);
    var t := Step(s, Yield).s;
    assert t.thr == s.thr[t.cur := s.thr[t.cur].(state := Running)][s.cur := s.thr[s.cur].(state := Ready)];
  }

  lemma SleepEffect(s: Sys, c: Cond, pc: Pc)
    requires Inv(s) && s.cur != IDLE
    ensures var r := WaitOn(s, c, pc); r.Next? && r.suspended && Slept(s, r.s, c, pc)
  {
    IdleIsReady(s);
    hide TableOk, CallsOk, FamilyOk, JoinsOk;
    ParkLists(s, c, pc);
    var s1 := Parked(s, c, pc);
    assert s1.Q(ReadyList) == s.Q(ReadyList) && s1.Q(WaitList(c)) == s.Q(WaitList(c)) + [s.cur];
    SuspendShape(s1);
    var t := WaitOn(s, c, pc).s;
    assert t.thr == s.thr[s.cur := s.thr[s.cur].(state := Waiting, waitCond := On(c), pc := pc)]
                         [t.cur := s.thr[t.cur].(state := Running)];
    forall d | d != c ensures t.Q(WaitList(d)) == s.Q(WaitList(d)) {}
  }

  lemma WaitEffect(s: Sys, n: int)
    requires Inv(s) && s.cur != IDLE
    ensures var r := Step(s, Wait(n)); r.Next? && r.suspended && Slept(s, r.s, Dev(n), Top)
  {
    SleepEffect(s, Dev(n), Top);
  }

  lemma BroadcastEffect(s: Sys, n: int)
    requires Inv(s)
    ensures var r := Step(s, Broadcast(n)); r.Next? && !r.suspended && Woke(s, r.s, Dev(n)) && r.s.owner == s.owner
  {
    WakeShape(s, Dev(n));
  }

  // ----- Locks

  /** The operation is an attempt to take lock `l`: a call of lock_acquire, or going on with one. */
  predicate Acquires(s: Sys, op: Op, l: int) {
    op == Acquire(l) || (op == Resume && s.cur in s.thr && s.thr[s.cur].pc == InAcquire(l))
  }

  /**
   lock_acquire returns exactly when the lock was free, and then the running thread has it; otherwise
   the thread sleeps on the lock.
   */
  lemma AcquireEffect(s: Sys, op: Op, l: int)
    requires Inv(s) && s.cur != IDLE && Acquires(s, op, l)
    ensures var r := Step(s, op);
            && r.Next? && (r.suspended <==> s.Owner(l) != -1)
            && (r.suspended ==> Slept(s, r.s, LockCond(l), InAcquire(l)))
            && (!r.suspended ==>
                  && r.s.Owner(l) == s.thr[s.cur].id && (forall k :: k != l ==> r.s.Owner(k) == s.Owner(k))
                  && r.s.thr == s.thr[s.cur := s.thr[s.cur].(pc := Top, held := s.thr[s.cur].held + {l})]
                  && r.s.cur == s.cur && r.s.queue == s.queue && r.s.tab == s.tab)
  {
    SleepEffect(s, LockCond(l), InAcquire(l));
  }

  lemma ReleaseEffect(s: Sys, l: int)
    requires Inv(s) && s.Owner(l) == s.thr[s.cur].id
    ensures var r := Step(s, Release(l));
            var s1 := s.(thr := s.thr[s.cur := s.thr[s.cur].(held := s.thr[s.cur].held - {l})]);
            && r.Next? && !r.suspended && Woke(s1, r.s, LockCond(l))
            && r.s.Owner(l) == -1 && forall k :: k != l ==> r.s.Owner(k) == s.Owner(k)
  {
    hide TableOk, CallsOk, FamilyOk, JoinsOk;
    var t := s.thr[s.cur];
    var s1 := s.Set(s.cur, t.(held := t.held - {l})).(owner := s.owner[l := -1]);
    ListsSame(s, s1);
    WakeShape(s1, LockCond(l));
  }

  // ----- Joining

  /** The operation is a join with child `c`: a call of thread_join, or going on with one. */
  predicate JoinsWith(s: Sys, op: Op, c: Ptr) {
    && s.cur in s.thr && c in s.thr
    && (op == Join(s.thr[c].id) || (op == Resume && s.thr[s.cur].pc == InJoin(c)))
  }

  /** thread_join returns exactly when the child has exited, and then the child is gone; otherwise it sleeps on. */
  lemma JoinEffect(s: Sys, op: Op, c: Ptr)
    requires Inv(s) && s.cur != IDLE && JoinsWith(s, op, c) && s.thr[c].parent == s.cur && c != MAIN
    ensures var r := Step(s, op);
            && r.Next? && (r.suspended <==> !s.thr[c].state.Exited?)
            && (r.suspended ==> Slept(s, r.s, ChildExit(s.cur), InJoin(c)))
            && (!r.suspended ==> Reaped(s, r.s, c))
  {
    assert s.tab[s.thr[c].id] == c && c != 0 && s.thr[c].id != 0;
    if s.thr[c].state.Exited? { ReapEffect(s, c); } else { SleepEffect(s, ChildExit(s.cur), InJoin(c)); }
  }

  /** thread_join of anything but a child returns at once and changes nothing. */
  lemma JoinRefused(s: Sys, tid: int)
    requires Inv(s)
    requires !(0 < tid < NTHR) || s.tab[tid] == 0 || s.thr[s.tab[tid]].parent != s.cur
    ensures Step(s, Join(tid)) == Next(s, false)
  {
  }

  lemma ReapEffect(s: Sys, c: Ptr)
    requires Inv(s) && c in s.thr && c != MAIN && s.thr[c].parent == s.cur && s.thr[c].state.Exited?
    ensures var r := Recycle(SetPc(s, Top), s.thr[c].id); r.Next? && !r.suspended && Reaped(s, r.s, c)
  {
    var tid := s.thr[c].id;
    assert s.tab[tid] == c && c != 0 && tid != 0;
    NotOwnGrandparent(s, c);
    hide Inv;
    ReapPlain(s, c, tid);
  }

  lemma ReapPlain(s: Sys, c: Ptr, tid: int)
    requires s.cur in s.thr && c in s.thr && c != s.cur && s.thr[c].parent == s.cur && s.thr[c].state.Exited?
    requires 0 < tid < |s.tab| && s.tab[tid] == c && s.thr[c].id == tid && s.thr[s.cur].parent != c
    ensures var r := Recycle(SetPc(s, Top), tid); r.Next? && !r.suspended && Reaped(s, r.s, c)
  {
  }

  lemma NotOwnGrandparent(s: Sys, c: Ptr)
    requires FamilyOk(s) && s.cur in s.thr && c in s.thr && c != MAIN && c != 0 && s.thr[c].parent == s.cur
    ensures s.thr[s.cur].parent != c && s.cur != c
  {
  }

  /** The operation waits for any child: a call of thread_join_any, or going on with one. */
  predicate JoinsAny(s: Sys, op: Op) {
    op == JoinAny || (op == Resume && s.cur in s.thr && s.thr[s.cur].pc == InJoinAny)
  }

  ghost predicate HasChild(s: Sys, p: Ptr) { exists c :: c in s.thr && s.thr[c].parent == p }

  /** `x` is the exited child of `p` in the lowest slot. */
  ghost predicate FirstExited(s: Sys, p: Ptr, x: Ptr) {
    && x in s.thr && s.thr[x].parent == p && s.thr[x].state.Exited?
    && forall c :: c in s.thr && s.thr[c].parent == p && s.thr[c].state.Exited? ==> s.thr[x].id <= s.thr[c].id
  }

  /**
   thread_join_any returns exactly when some child has exited, and then the one in the lowest slot is
   gone; a thread without children is refused; otherwise it sleeps until a child exits.
   */
  lemma JoinAnyEffect(s: Sys, op: Op) returns (x: Ptr)
    requires Inv(s) && s.cur != IDLE && JoinsAny(s, op)
    ensures var r := Step(s, op);
            && (r.Next? && !r.suspended <==> HasExitedChild(s, s.cur))
            && (HasExitedChild(s, s.cur) ==> FirstExited(s, s.cur, x) && Reaped(s, r.s, x))
            && (r.Childless? <==> !HasChild(s, s.cur))
            && (HasChild(s, s.cur) && !HasExitedChild(s, s.cur) ==>
                  r.Next? && r.suspended && Slept(s, r.s, ChildExit(s.cur), InJoinAny))
  {
    NoExitedSlot(s, s.cur);
    var tid := ExitedChild(s, s.cur, 1);
    x := 0;
    if tid < |s.tab| {
      x := s.tab[tid];
      LowestExited(s, tid);
      ReapEffect(s, x);
    } else {
      SleepEffect(s, ChildExit(s.cur), InJoinAny);
      ChildSlots(s);
      if op == Resume { ResumedHasExited(s); }
    }
  }

  lemma ResumedHasExited(s: Sys)
    requires Inv(s) && s.thr[s.cur].pc == InJoinAny
    ensures HasExitedChild(s, s.cur)
  {
  }

  lemma LowestExited(s: Sys, tid: int)
    requires TableOk(s) && FamilyOk(s) && s.cur != 0 && tid == ExitedChild(s, s.cur, 1) < |s.tab|
    ensures FirstExited(s, s.cur, s.tab[tid]) && s.thr[s.tab[tid]].id == tid && s.tab[tid] != MAIN
  {
    var x := s.tab[tid];
    forall c | c in s.thr && s.thr[c].parent == s.cur && s.thr[c].state.Exited? ensures s.thr[x].id <= s.thr[c].id {
      assert IsExitedChild(s, s.thr[c].id, s.cur);
    }
  }

  lemma ChildSlots(s: Sys)
    requires TableOk(s) && FamilyOk(s) && s.cur != 0
    ensures HasChild(s, s.cur) <==> exists i :: 0 < i < |s.tab| && IsChild(s, i, s.cur)
  {
    if HasChild(s, s.cur) {
      var c :| c in s.thr && s.thr[c].parent == s.cur;
      assert c != MAIN && s.tab[s.thr[c].id] == c;
      assert IsChild(s, s.thr[c].id, s.cur);
    }
  }
}
