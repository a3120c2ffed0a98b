/**
 The sleep lock on top of the scheduler: mutual exclusion and no lost wakeup over every run in
 which threads exit without holding a lock.
 */
module Locks {
  import opened Sched

  /** The owner field names the one live thread that holds the lock; a free lock has no waiters. */
  ghost predicate LocksOk(s: Sys) {
    && (forall p, l {:trigger l in s.thr[p].held} :: p in s.thr ==> (l in s.thr[p].held <==> s.Owner(l) == s.thr[p].id))
    && (forall l {:trigger s.Owner(l)} :: s.Owner(l) == -1 || (0 <= s.Owner(l) < |s.tab| && s.tab[s.Owner(l)] != 0))
    && (forall l {:trigger s.Q(WaitList(LockCond(l)))} :: s.Q(WaitList(LockCond(l))) != [] ==> s.Owner(l) != -1)
    && (forall p {:trigger s.thr[p].held} :: p in s.thr && s.thr[p].state.Exited? ==> s.thr[p].held == {})
  }

  /** Threads that exit hold no lock. */
  predicate Disciplined(s: Sys, op: Op) { op.Exit? && s.cur in s.thr ==> s.thr[s.cur].held == {} }

  /** Mutual exclusion: at most one thread is between acquire and release. */
  lemma MutualExclusion(s: Sys, l: int, p: Ptr, q: Ptr)
    requires TableOk(s) && LocksOk(s) && p in s.thr && q in s.thr && l in s.thr[p].held && l in s.thr[q].held
    ensures p == q
  {
    assert s.thr[p].id == s.Owner(l) == s.thr[q].id;
  }

  /** While a thread sleeps on the lock, some live thread holds it. */
  lemma SleepersHaveAHolder(s: Sys, l: int, p: Ptr)
    requires Inv(s) && LocksOk(s) && AsleepOn(s, l, p)
    ensures exists h :: h in s.thr && l in s.thr[h].held && !s.thr[h].state.Exited?
  {
    assert p in s.Q(WaitList(LockCond(l)));
    var h := s.tab[s.Owner(l)];
    assert h in s.thr && s.thr[h].id == s.Owner(l);
    assert l in s.thr[h].held;
  }

  predicate AsleepOn(s: Sys, l: int, p: Ptr)
  {
    p in s.thr && s.thr[p].state.Waiting? && s.thr[p].waitCond == On(LockCond(l))
  }

  /** Another live thread holds the lock, and so can release it. */
  ghost predicate HeldByAnother(s: Sys, l: int, p: Ptr) {
    exists h :: h in s.thr && h != p && l in s.thr[h].held && !s.thr[h].state.Exited?
  }

  /**
   No lost wakeup: a thread asleep on a lock waits for another live thread, unless it acquired the
   lock a second time itself.
   */
  lemma SleeperWaitsForAnother(s: Sys, l: int, p: Ptr)
    requires Inv(s) && LocksOk(s) && AsleepOn(s, l, p)
    ensures HeldByAnother(s, l, p) <==> l !in s.thr[p].held
  {
    SleepersHaveAHolder(s, l, p);
    var h :| h in s.thr && l in s.thr[h].held && !s.thr[h].state.Exited?;
    if l in s.thr[p].held {
      forall q | q in s.thr && l in s.thr[q].held ensures q == p { MutualExclusion(s, l, p, q); }
    } else {
      assert h != p;
    }
  }

  /** Nothing about locks changes but who sleeps on them. */
  ghost predicate LockFrame(s: Sys, s': Sys) {
    && s'.thr.Keys == s.thr.Keys && s'.tab == s.tab && s'.owner == s.owner
    && forall p {:trigger s'.thr[p]} :: p in s.thr ==>
         && s'.thr[p].id == s.thr[p].id && s'.thr[p].held == s.thr[p].held
         && (s'.thr[p].state.Exited? ==> s.thr[p].state.Exited? || s.thr[p].held == {})
  }

  lemma LocksSame(s: Sys, s': Sys)
    requires LocksOk(s) && LockFrame(s, s')
    requires forall l :: s'.Q(WaitList(LockCond(l))) != [] ==> s.Owner(l) != -1
    ensures LocksOk(s')
  {
    forall l ensures s'.Owner(l) == s.Owner(l) {}
    forall p, l | p in s'.thr ensures l in s'.thr[p].held <==> s'.Owner(l) == s'.thr[p].id {
      assert l in s.thr[p].held <==> s.Owner(l) == s.thr[p].id;
    }
    forall p | p in s'.thr && s'.thr[p].state.Exited? ensures s'.thr[p].held == {} {}
  }

  lemma SuspendLocks(s: Sys)
    requires LocksOk(s) && ListsWeak(s) && s.cur in s.thr && !s.thr[s.cur].state.Ready? && s.Q(ReadyList) != []
    ensures Suspend(s).Next? && LocksOk(Suspend(s).s)
  {
    SuspendShape(s);
    LocksSame(s, Suspend(s).s);
  }

  lemma WaitLocks(s: Sys, c: Cond, pc: Pc)
    requires Inv(s) && LocksOk(s) && s.cur != IDLE && MayPark(s, c, pc) && (c.LockCond? ==> s.Owner(c.l) != -1)
    ensures WaitOn(s, c, pc).Next? && LocksOk(WaitOn(s, c, pc).s)
  {
    ParkLists(s, c, pc);
    ParkRest(s, c, pc);
    var s' := Parked(s, c, pc);
    forall l | s'.Q(WaitList(LockCond(l))) != [] ensures s.Owner(l) != -1 {
      if c != LockCond(l) { assert s'.Q(WaitList(LockCond(l))) == s.Q(WaitList(LockCond(l))); }
    }
    LocksSame(s, s');
    IdleIsReady(s');
    SuspendLocks(s');
  }

  lemma WakeLocks(s: Sys, c: Cond)
    requires LocksOk(s) && ListsWeak(s)
    ensures Wake(s, c).Next? && LocksOk(Wake(s, c).s)
  {
    WakeShape(s, c);
    var s' := Wake(s, c).s;
    forall l | s'.Q(WaitList(LockCond(l))) != [] ensures s.Owner(l) != -1 {
      assert s'.Q(WaitList(LockCond(l))) == s.Q(WaitList(LockCond(l)));
    }
    forall p | p in s.thr ensures s'.thr[p].held == s.thr[p].held && s'.thr[p].id == s.thr[p].id {}
    LocksSame(s, s');
  }

  lemma ExitLocks(s: Sys)
    requires Inv(s) && LocksOk(s) && s.cur != MAIN && s.cur != IDLE && s.thr[s.cur].pc == Top && s.thr[s.cur].held == {}
    ensures DoExit(s).Next? && LocksOk(DoExit(s).s)
  {
    ExitLists(s);
    var s1, c := Exiting(s), ChildExit(s.thr[s.cur].parent);
    assert s.thr[s.cur].parent in s.thr;
    forall l ensures s1.Q(WaitList(LockCond(l))) == s.Q(WaitList(LockCond(l))) {}
    LocksSame(s, s1);
    WakeLocks(s1, c);
    ExitShape(s);
    var s2 := Wake(s1, c).s;
    ExitRest(s, s2);
    IdleIsReady(s2);
    SuspendLocks(s2);
  }

  lemma BornLocks(s: Sys, p: Ptr, st: State)
    requires Inv(s) && LocksOk(s) && p !in s.thr && p != 0 && Born(s, p, st).Next?
    ensures LocksOk(Born(s, p, st).s)
  {
    var s', tid := Born(s, p, st).s, FreeSlot(s.tab, 1);
    forall l
      ensures s'.Owner(l) == s.Owner(l) && s.Owner(l) != tid
                && s'.Q(WaitList(LockCond(l))) == s.Q(WaitList(LockCond(l)))
    {
      assert s.Owner(l) == -1 || s.tab[s.Owner(l)] != 0;
    }
    forall x, l | x in s'.thr ensures l in s'.thr[x].held <==> s'.Owner(l) == s'.thr[x].id {
      if x != p { assert l in s.thr[x].held <==> s.Owner(l) == s.thr[x].id; }
    }
  }

  lemma ForkLocks(s: Sys, p: Ptr)
    requires Inv(s) && LocksOk(s) && p !in s.thr && p != 0 && Born(s, p, Running).Next?
    ensures DoFork(s, p).Next? && LocksOk(DoFork(s, p).s)
  {
    BornLocks(s, p, Running);
    ForkShape(s, p);
    var s1, s' := Born(s, p, Running).s, DoFork(s, p).s;
    forall l ensures s'.Q(WaitList(LockCond(l))) == s1.Q(WaitList(LockCond(l))) {}
    LocksSame(s1, s');
  }

  lemma RecycleLocks(s: Sys, tid: int)
    requires Inv(s) && LocksOk(s) && IsExitedChild(s, tid, s.cur)
    ensures var r := Recycle(SetPc(s, Top), tid); r.Next? && LocksOk(r.s)
  {
    var s1, x := SetPc(s, Top), s.tab[tid];
    assert LocksOk(s1) by { SetTopLocks(s); }
    assert TableOk(s1) by { SetTopKeeps(s); }
    assert Recycle(s1, tid).Next? && RecycleEffect(s1, Recycle(s1, tid).s, x) by { RecycleKeeps(s, tid); }
    RecycledLocks(s1, Recycle(s1, tid).s, x);
  }

  lemma SetTopLocks(s: Sys)
    requires LocksOk(s) && s.cur in s.thr
    ensures LocksOk(SetPc(s, Top))
  {
    var s1 := SetPc(s, Top);
    forall l ensures s1.Q(WaitList(LockCond(l))) == s.Q(WaitList(LockCond(l))) {}
    LocksSame(s, s1);
  }

  lemma RecycledLocks(s: Sys, s': Sys, x: Ptr)
    requires TableOk(s) && LocksOk(s) && RecycleEffect(s, s', x)
    ensures LocksOk(s')
  {
    assert s.thr[x].held == {};
    forall l
      ensures s'.Owner(l) == s.Owner(l) && s.Owner(l) != s.thr[x].id
                && s'.Q(WaitList(LockCond(l))) == s.Q(WaitList(LockCond(l)))
    {
      assert l in s.thr[x].held <==> s.Owner(l) == s.thr[x].id;
    }
    forall p, l | p in s'.thr ensures l in s'.thr[p].held <==> s'.Owner(l) == s'.thr[p].id {
      assert l in s.thr[p].held <==> s.Owner(l) == s.thr[p].id;
    }
    forall p | p in s'.thr && s'.thr[p].state.Exited? ensures s'.thr[p].held == {} { assert s.thr[p].held == {}; }
  }

  lemma AcquireLocks(s: Sys, l: int)
    requires Inv(s) && LocksOk(s) && s.cur != IDLE
    ensures DoAcquire(s, l).Next? && LocksOk(DoAcquire(s, l).s)
  {
    if s.Owner(l) == -1 {
      var s' := DoAcquire(s, l).s;
      var t := s.thr[s.cur];
      assert s.tab[t.id] == s.cur;
      forall k
        ensures s'.Owner(k) == (if k == l then t.id else s.Owner(k))
                  && s'.Q(WaitList(LockCond(k))) == s.Q(WaitList(LockCond(k)))
      {
      }
      forall p, k | p in s'.thr ensures k in s'.thr[p].held <==> s'.Owner(k) == s'.thr[p].id {
        assert k in s.thr[p].held <==> s.Owner(k) == s.thr[p].id;
        if k == l && p != s.cur { assert s.tab[s.thr[p].id] == p; }
      }
      forall p | p in s'.thr && s'.thr[p].state.Exited? ensures s'.thr[p].held == {} { assert s.thr[p].held == {}; }
    } else {
      WaitLocks(s, LockCond(l), InAcquire(l));
    }
  }

  lemma ReleaseLocks(s: Sys, l: int)
    requires Inv(s) && LocksOk(s) && s.Owner(l) == s.thr[s.cur].id
    ensures DoRelease(s, l).Next? && LocksOk(DoRelease(s, l).s)
  {
    var t := s.thr[s.cur];
    var s1 := s.Set(s.cur, t.(held := t.held - {l})).(owner := s.owner[l := -1]);
    assert ListsWeak(s1) by { HeldIsFree(s, s1); }
    ReleaseShape(s, s1, l);
    assert TableOk(s);
    ReleasedLocks(s, Wake(s1, LockCond(l)).s, l);
  }

  lemma ReleaseShape(s: Sys, s1: Sys, l: int)
    requires s.cur in s.thr && ListsWeak(s1)
    requires s1 == s.Set(s.cur, s.thr[s.cur].(held := s.thr[s.cur].held - {l})).(owner := s.owner[l := -1])
    ensures var r := Wake(s1, LockCond(l));
            && r.Next? && r.s.thr.Keys == s.thr.Keys && r.s.tab == s.tab && r.s.owner == s.owner[l := -1]
            && (forall p :: p in s.thr ==>
                 r.s.thr[p].id == s.thr[p].id && r.s.thr[p].held == s.thr[p].held - (if p == s.cur then {l} else {}))
            && (forall p :: p in s.thr && r.s.thr[p].state.Exited? ==> s.thr[p].state.Exited?)
            && r.s.Q(WaitList(LockCond(l))) == []
            && (forall k :: k != l ==> r.s.Q(WaitList(LockCond(k))) == s.Q(WaitList(LockCond(k))))
  {
    WakeShape(s1, LockCond(l));
    forall k ensures s1.Q(WaitList(LockCond(k))) == s.Q(WaitList(LockCond(k))) {}
  }

  lemma ReleasedLocks(s: Sys, s': Sys, l: int)
    requires TableOk(s) && LocksOk(s) && s.cur in s.thr && s.Owner(l) == s.thr[s.cur].id
    requires s'.thr.Keys == s.thr.Keys && s'.tab == s.tab && s'.owner == s.owner[l := -1]
    requires forall p :: p in s.thr ==>
               s'.thr[p].id == s.thr[p].id && s'.thr[p].held == s.thr[p].held - (if p == s.cur then {l} else {})
    requires forall p :: p in s.thr && s'.thr[p].state.Exited? ==> s.thr[p].state.Exited?
    requires s'.Q(WaitList(LockCond(l))) == []
    requires forall k :: k != l ==> s'.Q(WaitList(LockCond(k))) == s.Q(WaitList(LockCond(k)))
    ensures LocksOk(s')
  {
    forall k ensures s'.Owner(k) == (if k == l then -1 else s.Owner(k)) {}
    forall p, k | p in s'.thr ensures k in s'.thr[p].held <==> s'.Owner(k) == s'.thr[p].id {
      assert k in s.thr[p].held <==> s.Owner(k) == s.thr[p].id;
      assert s.thr[p].id >= 0 && s.tab[s.thr[p].id] == p;
    }
    forall p | p in s'.thr && s'.thr[p].state.Exited? ensures s'.thr[p].held == {} { assert s.thr[p].held == {}; }
    forall k | s'.Q(WaitList(LockCond(k))) != [] ensures s'.Owner(k) != -1 { assert s.Owner(k) != -1; }
  }

  lemma JoinLoopLocks(s: Sys, c: Ptr)
    requires Inv(s) && LocksOk(s) && s.cur != IDLE && c in s.thr && s.thr[c].parent == s.cur && c != MAIN
    ensures JoinLoop(s, c).Next? && LocksOk(JoinLoop(s, c).s)
  {
    if s.thr[c].state.Exited? {
      assert s.tab[s.thr[c].id] == c && s.thr[c].id != 0;
      RecycleLocks(s, s.thr[c].id);
    } else {
      WaitLocks(s, ChildExit(s.cur), InJoin(c));
    }
  }

  lemma SpawnLocks(s: Sys, p: Ptr)
    requires Inv(s) && LocksOk(s) && p !in s.thr && p != 0 && Step(s, Spawn(p)).Next?
    ensures LocksOk(Step(s, Spawn(p)).s)
  {
    hide LocksOk;
    BornLocks(s, p, Ready);
    var s1 := Born(s, p, Ready).s;
    var s' := s1.Enq(ReadyList, p);
    forall l ensures s'.Q(WaitList(LockCond(l))) == s1.Q(WaitList(LockCond(l))) {}
    WaitersHeld(s1);
    LocksSame(s1, s');
  }

  lemma WaitersHeld(s: Sys)
    requires LocksOk(s)
    ensures forall l :: s.Q(WaitList(LockCond(l))) != [] ==> s.Owner(l) != -1
  {
  }

  lemma JoinLocks(s: Sys, tid: int)
    requires Inv(s) && LocksOk(s) && s.cur != IDLE && DoJoin(s, tid).Next?
    ensures LocksOk(DoJoin(s, tid).s)
  {
    hide LocksOk;
    if 0 < tid < |s.tab| && s.tab[tid] != 0 && s.thr[s.tab[tid]].parent == s.cur { JoinLoopLocks(s, s.tab[tid]); }
  }

  lemma JoinAnyLocks(s: Sys)
    requires Inv(s) && LocksOk(s) && s.cur != IDLE && DoJoinAny(s).Next?
    ensures LocksOk(DoJoinAny(s).s)
  {
    hide LocksOk;
    NoExitedSlot(s, s.cur);
    var tid := ExitedChild(s, s.cur, 1);
    if tid < |s.tab| {
      JoinLocks(s, tid);
    } else {
      WaitLocks(s, ChildExit(s.cur), InJoinAny);
    }
  }

  lemma ResumeLocks(s: Sys)
    requires Inv(s) && LocksOk(s) && s.thr[s.cur].pc != Top && DoResume(s).Next?
    ensures LocksOk(DoResume(s).s)
  {
    hide LocksOk;
    assert s.cur != IDLE;
    match s.thr[s.cur].pc {
      case InJoin(c) =>
        assert c != MAIN;
        JoinLoopLocks(s, c);
      case InJoinAny =>
        NoExitedSlot(s, s.cur);
        RecycleLocks(s, ExitedChild(s, s.cur, 1));
      case InAcquire(l) => AcquireLocks(s, l);
    }
  }

  /** Every disciplined step keeps the locks. */
  lemma StepLocks(s: Sys, op: Op)
    requires Inv(s) && LocksOk(s) && Enabled(s, op) && Disciplined(s, op) && Step(s, op).Next?
    ensures LocksOk(Step(s, op).s)
  {
    hide LocksOk, JoinsOk, FamilyOk, CallsOk;
    match op {
      case Spawn(p) => SpawnLocks(s, p);
      case Fork(p) => ForkLocks(s, p);
      case Yield => SuspendLocks(s);
      case Wait(n) => WaitLocks(s, Dev(n), Top);
      case Broadcast(n) => WakeLocks(s, Dev(n));
      case Exit => ExitLocks(s);
      case Join(tid) => JoinLocks(s, tid);
      case JoinAny => JoinAnyLocks(s);
      case Acquire(l) => AcquireLocks(s, l);
      case Release(l) => ReleaseLocks(s, l);
      case Resume => ResumeLocks(s);
    }
  }

  /** An exit that holds a lock breaks them: the lock is left with a holder that will not release it. */
  lemma StepLocksIff(s: Sys, op: Op)
    requires Inv(s) && LocksOk(s) && Enabled(s, op) && Step(s, op).Next?
    ensures LocksOk(Step(s, op).s) <==> Disciplined(s, op)
  {
    if Disciplined(s, op) {
      StepLocks(s, op);
    } else {
      ExitKeepsHeld(s);
    }
  }

  lemma ExitKeepsHeld(s: Sys)
    requires Inv(s) && s.cur != IDLE && DoExit(s).Next? && s.cur != MAIN
    ensures var t := DoExit(s).s; s.cur in t.thr && t.thr[s.cur].state.Exited? && t.thr[s.cur].held == s.thr[s.cur].held
  {
    hide TableOk, FamilyOk, CallsOk, JoinsOk;
    ExitLists(s);
    ExitShape(s);
    var s1 := Wake(Exiting(s), ChildExit(s.thr[s.cur].parent)).s;
    assert s1.thr[s.cur].state.Exited? && s1.thr[s.cur].held == s.thr[s.cur].held;
  }
}
