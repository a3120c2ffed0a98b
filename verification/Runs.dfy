/**
 Whole runs of the scheduler: what holds in every reachable state, and how long a ready thread waits.
 */
module Runs {
  import opened Sched
  import opened Locks

  /** `ops` are steps the kernel can take from `s`, and lead to `t`. */
  predicate IsRun(s: Sys, ops: seq<Op>, t: Sys)
    decreases |ops|
  {
    if ops == [] then s == t
    else Enabled(s, ops[0]) && Step(s, ops[0]).Next? && IsRun(Step(s, ops[0]).s, ops[1..], t)
  }

  predicate DisciplinedRun(s: Sys, ops: seq<Op>)
    decreases |ops|
  {
    ops == [] || (Disciplined(s, ops[0]) && (Step(s, ops[0]).Next? ==> DisciplinedRun(Step(s, ops[0]).s, ops[1..])))
  }

  /** How often the run goes through suspend_self. */
  function Switches(s: Sys, ops: seq<Op>): nat
    decreases |ops|
  {
    if ops == [] || !Step(s, ops[0]).Next? then 0
    else (if Step(s, ops[0]).suspended then 1 else 0) + Switches(Step(s, ops[0]).s, ops[1..])
  }

  /** thread_init: main runs, idle is ready and a child of main. */
  const BOOT := Sys(
    map[MAIN := Thread(0, Running, 0, NoCond, Top, 0, {}), IDLE := Thread(IDLE_TID, Ready, MAIN, NoCond, Top, 1, {})],
    [MAIN, 0, 0, 0, 0, 0, 0, 0, 0, 0, 0, 0, 0, 0, 0, IDLE], MAIN, map[ReadyList := [IDLE]], map[], 2)

  lemma BootIsOk()
    ensures Inv(BOOT) && LocksOk(BOOT)
  {
    forall l | l != ReadyList ensures BOOT.Q(l) == [] {}
    assert BOOT.Q(ReadyList) == [IDLE];
    forall i | 0 <= i < NTHR && i != 0 && i != IDLE_TID ensures BOOT.tab[i] == 0 {}
    assert TableOk(BOOT);
    assert ListsOk(BOOT);
  }

  /** Every state of every run from boot satisfies the scheduler's invariants. */
  lemma {:induction false} RunKeeps(s: Sys, ops: seq<Op>, t: Sys)
    requires Inv(s) && IsRun(s, ops, t)
    ensures Inv(t)
    decreases |ops|
  {
    if ops != [] {
      StepKeeps(s, ops[0]);
      RunKeeps(Step(s, ops[0]).s, ops[1..], t);
    }
  }

  lemma {:induction false} RunKeepsLocks(s: Sys, ops: seq<Op>, t: Sys)
    requires Inv(s) && LocksOk(s) && IsRun(s, ops, t) && DisciplinedRun(s, ops)
    ensures LocksOk(t)
    decreases |ops|
  {
    if ops != [] {
      StepKeeps(s, ops[0]);
      StepLocks(s, ops[0]);
      RunKeepsLocks(Step(s, ops[0]).s, ops[1..], t);
    }
  }

  /** Whatever can be done after any run from boot, no assertion fails and no spurious wakeup is met. */
  lemma ReachableStatesAreSafe(ops: seq<Op>, t: Sys, op: Op)
    requires IsRun(BOOT, ops, t) && Enabled(t, op)
    ensures Inv(t) && !Step(t, op).Crash?
  {
    BootIsOk();
    RunKeeps(BOOT, ops, t);
    StepKeeps(t, op);
  }

  /** At most one thread holds a lock in any state of a disciplined run. */
  lemma ReachableLocksExclude(ops: seq<Op>, t: Sys, l: int, p: Ptr, q: Ptr)
    requires IsRun(BOOT, ops, t) && DisciplinedRun(BOOT, ops)
    requires p in t.thr && q in t.thr && l in t.thr[p].held && l in t.thr[q].held
    ensures p == q
  {
    BootIsOk();
    RunKeeps(BOOT, ops, t);
    RunKeepsLocks(BOOT, ops, t);
    MutualExclusion(t, l, p, q);
  }

  /** In any such state a thread asleep on a lock it does not hold itself waits for another live thread. */
  lemma ReachableSleepersWait(ops: seq<Op>, t: Sys, l: int, p: Ptr)
    requires IsRun(BOOT, ops, t) && DisciplinedRun(BOOT, ops) && AsleepOn(t, l, p)
    ensures HeldByAnother(t, l, p) <==> l !in t.thr[p].held
  {
    BootIsOk();
    RunKeeps(BOOT, ops, t);
    RunKeepsLocks(BOOT, ops, t);
    SleeperWaitsForAnother(t, l, p);
  }

  /** Acquiring a lock twice: the thread sleeps on the lock that it holds, and nobody else can release it. */
  lemma SelfDeadlock()
    ensures var s1 := DoAcquire(BOOT, 0).s;
            var t := DoAcquire(s1, 0).s;
            && IsRun(BOOT, [Acquire(0), Acquire(0)], t) && DisciplinedRun(BOOT, [Acquire(0), Acquire(0)])
            && AsleepOn(t, 0, MAIN) && 0 in t.thr[MAIN].held && !HeldByAnother(t, 0, MAIN)
  {
    BootIsOk();
    var ops := [Acquire(0), Acquire(0)];
    assert BOOT.Q(ReadyList) == [IDLE];
    var s1 := DoAcquire(BOOT, 0).s;
    assert s1.Q(ReadyList) == [IDLE] && s1.Owner(0) == 0;
    var t := DoAcquire(s1, 0).s;
    assert ops[1..] == [Acquire(0)] && ops[1..][1..] == [];
    assert IsRun(t, [], t) && IsRun(s1, ops[1..], t);
    assert DisciplinedRun(s1, ops[1..]);
    assert t.thr[IDLE].held == {};
    assert t.thr.Keys == {MAIN, IDLE};
  }

  /** A state with main, idle and a thread 3 in the given states, and the given ready list. */
  function Three(main: State, idle: State, third: State, cur: Ptr, ready: seq<Ptr>, held: set<int>,
      owner: map<int, int>): Sys
  {
    Sys(map[MAIN := Thread(0, main, 0, NoCond, Top, 0, {}),
            IDLE := Thread(IDLE_TID, idle, MAIN, NoCond, Top, 1, {}),
            3 := Thread(1, third, MAIN, NoCond, Top, 2, held)],
        [MAIN, 3, 0, 0, 0, 0, 0, 0, 0, 0, 0, 0, 0, 0, 0, IDLE], cur, map[ReadyList := ready], owner, 3)
  }

  lemma SpawnThird()
    ensures Step(BOOT, Spawn(3)) == Next(Three(Running, Ready, Ready, MAIN, [IDLE, 3], {}, map[]), false)
  {
    assert FreeSlot(BOOT.tab, 1) == 1;
    assert BOOT.tab[1 := 3] == Three(Running, Ready, Ready, MAIN, [IDLE, 3], {}, map[]).tab;
    assert BOOT.Q(ReadyList) + [3] == [IDLE, 3];
  }

  lemma YieldTwice()
    ensures Step(Three(Running, Ready, Ready, MAIN, [IDLE, 3], {}, map[]), Yield) ==
            Next(Three(Ready, Running, Ready, IDLE, [3, MAIN], {}, map[]), true)
    ensures Step(Three(Ready, Running, Ready, IDLE, [3, MAIN], {}, map[]), Yield) ==
            Next(Three(Ready, Ready, Running, 3, [MAIN, IDLE], {}, map[]), true)
  {
    assert [IDLE, 3][1..] + [MAIN] == [3, MAIN] && [3, MAIN][1..] + [IDLE] == [MAIN, IDLE];
  }

  lemma ThirdAcquires()
    ensures Step(Three(Ready, Ready, Running, 3, [MAIN, IDLE], {}, map[]), Acquire(0)) ==
            Next(Three(Ready, Ready, Running, 3, [MAIN, IDLE], {0}, map[0 := 1]), false)
  {
    assert {} + {0} == {0};
  }

  /** The run of a step and then a run. */
  lemma RunStep(s: Sys, op: Op, s1: Sys, b: bool, ops: seq<Op>, t: Sys)
    requires Enabled(s, op) && Disciplined(s, op) && Step(s, op) == Next(s1, b)
    requires IsRun(s1, ops, t) && DisciplinedRun(s1, ops)
    ensures IsRun(s, [op] + ops, t) && DisciplinedRun(s, [op] + ops)
  {
    hide Step, Enabled;
    assert ([op] + ops)[1..] == ops;
  }

  /** A spawned thread comes to run and acquires a lock. */
  lemma ThirdHoldsLock()
    ensures var t := Three(Ready, Ready, Running, 3, [MAIN, IDLE], {0}, map[0 := 1]);
            var ops := [Spawn(3)] + ([Yield] + ([Yield] + ([Acquire(0)] + [])));
            IsRun(BOOT, ops, t) && DisciplinedRun(BOOT, ops)
  {
    hide Step, IsRun, DisciplinedRun;
    var s1 := Three(Running, Ready, Ready, MAIN, [IDLE, 3], {}, map[]);
    var s2 := Three(Ready, Running, Ready, IDLE, [3, MAIN], {}, map[]);
    var s3 := Three(Ready, Ready, Running, 3, [MAIN, IDLE], {}, map[]);
    var t := Three(Ready, Ready, Running, 3, [MAIN, IDLE], {0}, map[0 := 1]);
    SpawnThird();
    YieldTwice();
    ThirdAcquires();
    NoSteps(t);
    RunStep(s3, Acquire(0), t, false, [], t);
    RunStep(s2, Yield, s3, true, [Acquire(0)] + [], t);
    RunStep(s1, Yield, s2, true, [Yield] + ([Acquire(0)] + []), t);
    RunStep(BOOT, Spawn(3), s1, false, [Yield] + ([Yield] + ([Acquire(0)] + [])), t);
  }

  lemma NoSteps(t: Sys)
    ensures IsRun(t, [], t) && DisciplinedRun(t, [])
  {
  }

  /** So an exit that holds a lock is reachable, and breaks the locks. */
  lemma ExitWithLockIsReachable()
    ensures var t := Three(Ready, Ready, Running, 3, [MAIN, IDLE], {0}, map[0 := 1]);
            var ops := [Spawn(3)] + ([Yield] + ([Yield] + ([Acquire(0)] + [])));
            && IsRun(BOOT, ops, t) && DisciplinedRun(BOOT, ops)
            && Enabled(t, Exit) && Step(t, Exit).Next? && !LocksOk(Step(t, Exit).s)
  {
    hide IsRun, DisciplinedRun, LocksOk, Inv;
    var t := Three(Ready, Ready, Running, 3, [MAIN, IDLE], {0}, map[0 := 1]);
    var ops := [Spawn(3)] + ([Yield] + ([Yield] + ([Acquire(0)] + [])));
    ThirdHoldsLock();
    BootIsOk();
    RunKeeps(BOOT, ops, t);
    RunKeepsLocks(BOOT, ops, t);
    ExitKeeps(t);
    StepLocksIff(t, Exit);
  }

  // ----- Families

  function Ancestor(s: Sys, p: Ptr, n: nat): Ptr
    decreases n
  {
    if n == 0 || p !in s.thr then p else Ancestor(s, s.thr[p].parent, n - 1)
  }

  /** Parent links form a tree rooted at main: from every live thread they lead to main. */
  lemma {:induction false} FamilyIsATree(s: Sys, p: Ptr) returns (n: nat)
    requires TableOk(s) && FamilyOk(s) && p in s.thr
    ensures Ancestor(s, p, n) == MAIN
    decreases s.thr[p].birth
  {
    if p == MAIN {
      n := 0;
    } else {
      n := FamilyIsATree(s, s.thr[p].parent);
      n := n + 1;
    }
  }

  // ----- Bounded waiting

  predicate IsPrefix(a: seq<Ptr>, b: seq<Ptr>) { |a| <= |b| && forall i :: 0 <= i < |a| ==> a[i] == b[i] }

  /** A step that does not suspend only appends to the ready list; one that does runs its first thread. */
  ghost predicate Fifo(s: Sys, r: Result) {
    r.Next? ==>
      if r.suspended then
        && s.Q(ReadyList) != [] && r.s.cur == s.Q(ReadyList)[0]
        && IsPrefix(s.Q(ReadyList)[1..], r.s.Q(ReadyList))
      else IsPrefix(s.Q(ReadyList), r.s.Q(ReadyList))
  }

  /** The same relative to a state whose ready list only grew since `s`. */
  lemma SuspendFifo(s: Sys, s1: Sys)
    requires ListsWeak(s1) && s1.cur in s1.thr && !s1.thr[s1.cur].state.Ready?
    requires s.Q(ReadyList) != [] && IsPrefix(s.Q(ReadyList), s1.Q(ReadyList))
    ensures Fifo(s, Suspend(s1))
  {
    SuspendShape(s1);
  }

  lemma ReadyUnlessIdle(s: Sys)
    requires Inv(s) && (s.cur != IDLE || s.Q(ReadyList) != [])
    ensures s.Q(ReadyList) != []
  {
    if s.cur != IDLE { assert IDLE in s.Q(ReadyList); }
  }

  lemma WaitFifo(s: Sys, c: Cond, pc: Pc)
    requires Inv(s) && s.cur != IDLE
    ensures Fifo(s, WaitOn(s, c, pc))
  {
    ReadyUnlessIdle(s);
    ParkLists(s, c, pc);
    var s1 := Parked(s, c, pc);
    assert s1.Q(ReadyList) == s.Q(ReadyList);
    SuspendFifo(s, s1);
  }

  lemma ExitFifo(s: Sys)
    requires Inv(s) && s.cur != IDLE && s.thr[s.cur].pc == Top
    ensures Fifo(s, DoExit(s))
  {
    if s.cur != MAIN {
      ReadyUnlessIdle(s);
      var s1, c := Exiting(s), ChildExit(s.thr[s.cur].parent);
      ExitShape(s);
      assert s1.Q(ReadyList) == s.Q(ReadyList);
      assert Wake(s1, c).s.Q(ReadyList) == s.Q(ReadyList) + s1.Q(WaitList(c)) by {
        ExitLists(s);
        WakeShape(s1, c);
      }
      SuspendFifo(s, Wake(s1, c).s);
    }
  }

  lemma JoinLoopFifo(s: Sys, c: Ptr)
    requires Inv(s) && s.cur != IDLE
    ensures Fifo(s, JoinLoop(s, c))
  {
    if c in s.thr && !s.thr[c].state.Exited? { WaitFifo(s, ChildExit(s.cur), InJoin(c)); }
  }

  lemma AcquireFifo(s: Sys, l: int)
    requires Inv(s) && s.cur != IDLE
    ensures Fifo(s, DoAcquire(s, l))
  {
    if s.Owner(l) != -1 { WaitFifo(s, LockCond(l), InAcquire(l)); }
  }

  lemma BornFifo(s: Sys, p: Ptr)
    requires s.cur in s.thr
    ensures Fifo(s, Step(s, Spawn(p))) && Fifo(s, DoFork(s, p))
  {
  }

  lemma WakeFifo(s: Sys, n: int, l: int)
    ensures Fifo(s, Wake(s, Dev(n))) && Fifo(s, DoRelease(s, l))
  {
  }

  lemma JoinFifo(s: Sys, tid: int)
    requires Inv(s) && s.cur != IDLE
    ensures Fifo(s, DoJoin(s, tid))
  {
    if 0 < tid < |s.tab| && s.tab[tid] != 0 { JoinLoopFifo(s, s.tab[tid]); }
  }

  lemma JoinAnyFifo(s: Sys)
    requires Inv(s) && s.cur != IDLE
    ensures Fifo(s, DoJoinAny(s))
  {
    hide Inv, ExitedChild;
    InvHasCur(s);
    var tid := ExitedChild(s, s.cur, 1);
    if tid < |s.tab| { JoinFifo(s, tid); } else { WaitFifo(s, ChildExit(s.cur), InJoinAny); }
  }

  lemma ResumeFifo(s: Sys)
    requires Inv(s) && s.cur != IDLE
    ensures Fifo(s, DoResume(s))
  {
    hide Inv, ExitedChild, Suspend;
    assert s.cur in s.thr by { InvHasCur(s); }
    match s.thr[s.cur].pc {
      case InJoin(c) => JoinLoopFifo(s, c);
      case InJoinAny =>
      case InAcquire(l) => AcquireFifo(s, l);
      case Top =>
    }
  }

  lemma InvHasCur(s: Sys)
    requires Inv(s)
    ensures |s.tab| == NTHR && s.cur in s.thr && (s.cur == IDLE ==> s.thr[s.cur].pc == Top)
  {
  }

  lemma StepFifo(s: Sys, op: Op)
    requires Inv(s) && Enabled(s, op)
    ensures Fifo(s, Step(s, op))
  {
    hide Inv, Fifo;
    InvHasCur(s);
    match op {
      case Spawn(p) => BornFifo(s, p);
      case Fork(p) => BornFifo(s, p);
      case Yield => YieldFifo(s);
      case Wait(n) => WaitFifo(s, Dev(n), Top);
      case Broadcast(n) => WakeFifo(s, n, 0);
      case Exit => ExitFifo(s);
      case Join(tid) => JoinFifo(s, tid);
      case JoinAny => JoinAnyFifo(s);
      case Acquire(l) => AcquireFifo(s, l);
      case Release(l) => WakeFifo(s, 0, l);
      case Resume => ResumeFifo(s);
    }
  }

  lemma YieldFifo(s: Sys)
    requires Inv(s) && Enabled(s, Yield)
    ensures Fifo(s, Step(s, Yield))
  {
    ReadyUnlessIdle(s);
    SuspendFifo(s, s);
  }

  /** Every step of the run treats the ready list first in, first out. */
  ghost predicate FifoRun(s: Sys, ops: seq<Op>)
    decreases |ops|
  {
    ops == [] || (Fifo(s, Step(s, ops[0])) && (Step(s, ops[0]).Next? ==> FifoRun(Step(s, ops[0]).s, ops[1..])))
  }

  lemma {:induction false} RunIsFifo(s: Sys, ops: seq<Op>, t: Sys)
    requires Inv(s) && IsRun(s, ops, t)
    ensures FifoRun(s, ops)
    decreases |ops|
  {
    if ops != [] {
      assert Fifo(s, Step(s, ops[0])) by { StepFifo(s, ops[0]); }
      assert Inv(Step(s, ops[0]).s) by { StepKeeps(s, ops[0]); }
      RunIsFifo(Step(s, ops[0]).s, ops[1..], t);
    }
  }

  /** A ready thread moves up by one at each suspend_self, whatever else happens. */
  lemma {:induction false} ReadyPosition(s: Sys, ops: seq<Op>, t: Sys, k: nat)
    requires FifoRun(s, ops) && IsRun(s, ops, t) && k < |s.Q(ReadyList)| && Switches(s, ops) <= k
    ensures k - Switches(s, ops) < |t.Q(ReadyList)| && t.Q(ReadyList)[k - Switches(s, ops)] == s.Q(ReadyList)[k]
    decreases |ops|
  {
    hide Step, Fifo;
    if ops != [] {
      var r := Step(s, ops[0]);
      FifoMovesUp(s, r, k);
      ReadyPosition(r.s, ops[1..], t, if r.suspended then k - 1 else k);
    }
  }

  lemma FifoMovesUp(s: Sys, r: Result, k: nat)
    requires r.Next? && Fifo(s, r) && k < |s.Q(ReadyList)| && (r.suspended ==> k > 0)
    ensures var k' := if r.suspended then k - 1 else k;
              k' < |r.s.Q(ReadyList)| && r.s.Q(ReadyList)[k'] == s.Q(ReadyList)[k]
  {
    if r.suspended { assert s.Q(ReadyList)[1..][k - 1] == s.Q(ReadyList)[k]; }
  }

  /** Bounded waiting: the thread at index k of the ready list runs at exactly the (k+1)-th later suspend_self. */
  lemma BoundedWaiting(s: Sys, ops: seq<Op>, t: Sys, op: Op, k: nat)
    requires Inv(s) && IsRun(s, ops, t) && k < |s.Q(ReadyList)| && Switches(s, ops) == k
    requires Enabled(t, op) && Step(t, op).Next? && Step(t, op).suspended
    ensures Step(t, op).s.cur == s.Q(ReadyList)[k]
  {
    hide Inv;
    assert t.Q(ReadyList) != [] && t.Q(ReadyList)[0] == s.Q(ReadyList)[k] by {
      RunIsFifo(s, ops, t);
      ReadyPosition(s, ops, t, k);
    }
    assert Inv(t) by { RunKeeps(s, ops, t); }
    assert Fifo(t, Step(t, op)) by { StepFifo(t, op); }
  }

  /** A broadcast on any condition appends the waiters to the ready list in their waiting order. */
  lemma BroadcastKeepsOrder(s: Sys, c: Cond)
    requires ListsWeak(s)
    ensures var r := Wake(s, c);
            && r.Next? && r.s.Q(ReadyList) == s.Q(ReadyList) + s.Q(WaitList(c)) && r.s.Q(WaitList(c)) == []
            && forall d :: d != c ==> r.s.Q(WaitList(d)) == s.Q(WaitList(d))
  {
    WakeShape(s, c);
  }
}
