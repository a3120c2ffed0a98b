/**
 thread.c and lock.h as they run: thread structs threaded onto intrusive lists, and the loops over
 lists and table. Every operation is proved to take exactly the step of the scheduler's state
 machine, so none of the code's assertions can fail.
 */
module Threads {
  import opened Sched
  import opened Chains
  import Runs

  function Queue(queue: map<List, seq<Ptr>>, l: List): seq<Ptr> { if l in queue then queue[l] else [] }

  /** From `h` the list_next links run through `q` and end at `t`. */
  ghost predicate Linked(next: map<Ptr, Ptr>, h: Ptr, t: Ptr, q: seq<Ptr>) {
    Chain(next, h, q) && t == if q == [] then 0 else q[|q| - 1]
  }

  ghost predicate Has(queue: map<List, seq<Ptr>>, l: List, p: Ptr) { p in Queue(queue, l) }

  /** `p` is on no list. */
  ghost predicate Off(queue: map<List, seq<Ptr>>, p: Ptr) { forall l :: !Has(queue, l, p) }

  /** No thread is on two lists. */
  ghost predicate Apart(queue: map<List, seq<Ptr>>) {
    forall p, l, m {:trigger Has(queue, l, p), Has(queue, m, p)} :: Has(queue, l, p) && Has(queue, m, p) ==> l == m
  }

  ghost predicate IsList(next: map<Ptr, Ptr>, head: map<List, Ptr>, tail: map<List, Ptr>,
      queue: map<List, seq<Ptr>>, l: List) {
    Linked(next, At(head, l), At(tail, l), Queue(queue, l))
  }

  ghost predicate AreLists(next: map<Ptr, Ptr>, head: map<List, Ptr>, tail: map<List, Ptr>,
      queue: map<List, seq<Ptr>>) {
    (forall l :: IsList(next, head, tail, queue, l)) && Apart(queue)
  }

  /** The table names just the thread structs; none is its own parent, and the first has no parent. */
  ghost predicate Rooted(thr: map<Ptr, Thread>, tab: seq<Ptr>) {
    && 0 !in thr && |tab| == NTHR && tab[0] in thr && thr[tab[0]].parent == 0
    && (forall i :: 0 <= i < NTHR && tab[i] != 0 ==> tab[i] in thr)
    && (forall p {:trigger thr[p].parent} :: p in thr ==> thr[p].parent != p)
    && (forall p {:trigger p in tab} :: p in thr ==> p in tab)
  }

  /** The waiters in `q` have been made ready. */
  function Readied(thr: map<Ptr, Thread>, q: seq<Ptr>): map<Ptr, Thread> {
    map p | p in thr :: if p in q then thr[p].(state := Ready, waitCond := NoCond) else thr[p]
  }

  /** The children of `x` in slots below `n` have been passed to `y`. */
  function Adopted(thr: map<Ptr, Thread>, tab: seq<Ptr>, n: int, x: Ptr, y: Ptr): map<Ptr, Thread> {
    var below := tab[..if 0 <= n <= |tab| then n else 0];
    map p | p in thr :: if thr[p].parent == x && p in below then thr[p].(parent := y) else thr[p]
  }

  const PAGE_SIZE := 4096
  const ANCHOR_SIZE := 16        // sizeof(struct thread_stack_anchor)

  /** The stack_base of a thread whose stack is in the page at address `page`. */
  function StackBase(page: int): int { page + PAGE_SIZE - ANCHOR_SIZE }

  /**
   What suspend_self passes to memory_free_page for an exited thread is not page-aligned, so the code
   panics there; the model leaves the freeing of stacks out.
   */
  lemma ExitedStackIsUnaligned(page: int)
    requires page % PAGE_SIZE == 0
    ensures (StackBase(page) - PAGE_SIZE) % PAGE_SIZE == PAGE_SIZE - ANCHOR_SIZE
  {
    assert (page - 16) % 4096 == 4080;
  }

  /** How an operation ends. */
  datatype End = Returned(suspended: bool) | Halted | Full | NoChildren

  predicate Shows(e: End, r: Result) {
    match r
    case Next(_, b) => e == Returned(b)
    case Halt => e.Halted?
    case TooManyThreads => e.Full?
    case Childless => e.NoChildren?
    case Crash => false
  }

  class Kernel {
    var thr: map<Ptr, Thread>
    var next: map<Ptr, Ptr>          // list_next
    var head: map<List, Ptr>
    var tail: map<List, Ptr>
    const thrtab: array<Ptr>
    var cur: Ptr                     // CURTHR
    var owner: map<int, int>         // tid field of each lock
    var births: nat
    ghost var queue: map<List, seq<Ptr>>

    ghost function Abs(): Sys reads this, thrtab { Sys(thr, thrtab[..], cur, queue, owner, births) }

    /** The links hold the lists in `queue`. */
    ghost predicate Valid() reads this { AreLists(next, head, tail, queue) }

    /** The running thread is in no list, and every struct is in the table. */
    ghost predicate Live() reads this, thrtab {
      Valid() && thrtab.Length == NTHR && cur in thr && Rooted(thr, thrtab[..]) && Off(queue, cur)
    }

    /** thread_init */
    constructor ()
      ensures Valid() && fresh(thrtab) && thrtab.Length == NTHR && Abs() == Runs.BOOT && Inv(Abs())
    {
      thr := map[MAIN := Thread(0, Running, 0, NoCond, Top, 0, {}),
        IDLE := Thread(IDLE_TID, Ready, MAIN, NoCond, Top, 1, {})];
      next, head, tail := map[], map[], map[];
      thrtab := new Ptr[NTHR](i => if i == 0 then MAIN else if i == IDLE_TID then IDLE else 0);
      cur, owner, births := MAIN, map[], 2;
      queue := map[];
      new;
      ListInsert(ReadyList, IDLE);
      assert Queue(map[], ReadyList) + [IDLE] == [IDLE];
      Runs.BootIsOk();
    }

    // ----- Thread lists

    /** tlinsert */
    method ListInsert(l: List, p: Ptr)
      requires Valid() && p != 0 && Off(queue, p)
      modifies this`next, this`head, this`tail, this`queue
      ensures Valid() && queue == old(queue)[l := Queue(old(queue), l) + [p]]
    {
      InsertLists(next, head, tail, queue, l, p);
      assert IsList(next, head, tail, queue, l);
      next := next[p := 0];
      if At(tail, l) != 0 {
        assert At(head, l) != 0;
        next := next[At(tail, l) := p];
      } else {
        assert At(head, l) == 0;
        head := head[l := p];
      }
      tail := tail[l := p];
      queue := queue[l := Queue(queue, l) + [p]];
    }

    /** tlremove */
    method ListRemove(l: List) returns (p: Ptr)
      requires Valid()
      modifies this`next, this`head, this`tail, this`queue
      ensures Valid()
      ensures var q := Queue(old(queue), l);
              if q == [] then p == 0 && queue == old(queue)
              else p == q[0] && queue == old(queue)[l := q[1..]] && Off(queue, p)
    {
      assert IsList(next, head, tail, queue, l);
      p := At(head, l);
      if p == 0 { return; }
      RemoveLists(next, head, tail, queue, l);
      head := head[l := At(next, p)];
      if At(head, l) != 0 { next := next[p := 0]; } else { tail := tail[l := 0]; }
      next := next[p := 0];
      queue := queue[l := Queue(queue, l)[1..]];
      assert next == old(next)[p := 0];
    }

    /** tlappend, for two different lists; it also clears the second. */
    method ListAppend(l0: List, l1: List)
      requires Valid() && l0 != l1
      modifies this`next, this`head, this`tail, this`queue
      ensures Valid() && queue == old(queue)[l0 := Queue(old(queue), l0) + Queue(old(queue), l1)][l1 := []]
    {
      AppendLists(next, head, tail, queue, l0, l1);
      assert IsList(next, head, tail, queue, l0) && IsList(next, head, tail, queue, l1);
      if At(head, l0) != 0 {
        assert At(tail, l0) != 0;
        if At(head, l1) != 0 {
          assert At(tail, l1) != 0;
          next := next[At(tail, l0) := At(head, l1)];
          tail := tail[l0 := At(tail, l1)];
        }
      } else {
        assert At(tail, l0) == 0;
        head := head[l0 := At(head, l1)];
        tail := tail[l0 := At(tail, l1)];
      }
      head := head[l1 := 0];
      tail := tail[l1 := 0];
      queue := queue[l0 := Queue(queue, l0) + Queue(queue, l1)][l1 := []];
    }

    // ----- Giving up the processor, waiting and waking

    /** suspend_self */
    method SuspendSelf()
      requires Valid() && cur != 0 && Suspend(Abs()).Next? && !thr[cur].state.Ready?
      requires (thr[cur].state.Running? ==> Off(queue, cur))
      modifies this`thr, this`cur, this`next, this`head, this`tail, this`queue
      ensures Valid() && Suspend(old(Abs())) == Next(Abs(), true)
    {
      assert IsList(next, head, tail, queue, ReadyList);
      assert At(head, ReadyList) != 0;
      var susp := cur;
      var nxt := ListRemove(ReadyList);
      assert Has(old(queue), ReadyList, nxt);
      assert thr[nxt].state.Ready?;
      thr := thr[nxt := thr[nxt].(state := Running)];
      if thr[susp].state.Running? {
        thr := thr[susp := thr[susp].(state := Ready)];
        forall l ensures !Has(queue, l, susp) { assert !Has(old(queue), l, susp); }
        ListInsert(ReadyList, susp);
      }
      cur := nxt;
    }

    /** condition_wait; `pc` is where the caller goes on when it is resumed. */
    method ConditionWait(c: Cond, pc: Pc)
      requires Valid() && cur != 0 && Off(queue, cur) && WaitOn(Abs(), c, pc).Next?
      modifies this`thr, this`cur, this`next, this`head, this`tail, this`queue
      ensures Valid() && WaitOn(old(Abs()), c, pc) == Next(Abs(), true)
    {
      assert thr[cur].state.Running?;
      thr := thr[cur := thr[cur].(state := Waiting, waitCond := On(c), pc := pc)];
      ListInsert(WaitList(c), cur);
      SuspendSelf();
    }

    /** condition_broadcast */
    method ConditionBroadcast(c: Cond)
      requires Valid() && Wake(Abs(), c).Next?
      modifies this`thr, this`next, this`head, this`tail, this`queue
      ensures Valid() && Wake(old(Abs()), c) == Next(Abs(), false)
    {
      ghost var q := Queue(queue, WaitList(c));
      assert IsList(next, head, tail, queue, WaitList(c));
      if At(head, WaitList(c)) == 0 {
        queue := queue[ReadyList := Queue(queue, ReadyList) + q][WaitList(c) := []];
        SameQueues(next, head, tail, old(queue), queue);
        assert thr == Readied(thr, q);
        return;
      }
      var p := At(head, WaitList(c));
      ghost var i := 0;
      while p != 0
        invariant 0 <= i <= |q| && p == (if i < |q| then q[i] else 0)
        invariant thr == Readied(old(thr), q[..i])
        modifies this`thr
        decreases |q| - i
      {
        assert q[i] in q && q[i] !in q[..i];
        assert thr[p].state.Waiting? && thr[p].waitCond == On(c);
        thr := thr[p := thr[p].(state := Ready, waitCond := NoCond)];
        assert LinkAt(next, q, i);
        assert q[..i + 1] == q[..i] + [q[i]];
        p := At(next, p);
        i := i + 1;
      }
      assert q[..i] == q;
      ListAppend(ReadyList, WaitList(c));
    }

    // ----- Creating and recycling threads

    /** The slot search of thread_spawn and thread_fork_to_user. */
    method FindSlot() returns (tid: nat)
      requires thrtab.Length == NTHR
      ensures tid == FreeSlot(thrtab[..], 1)
    {
      tid := 1;
      while tid < NTHR && thrtab[tid] != 0
        invariant 1 <= tid <= NTHR && forall j :: 1 <= j < tid ==> thrtab[j] != 0
      {
        tid := tid + 1;
      }
    }

    /** The thread struct both enter in the table. */
    method Enter(p: Ptr, st: State, tid: nat)
      requires thrtab.Length == NTHR && tid == FreeSlot(thrtab[..], 1) && tid < NTHR && cur in thr
      modifies this`thr, this`births, thrtab
      ensures Born(old(Abs()), p, st) == Next(Abs(), false)
    {
      ghost var tab := thrtab[..];
      thrtab[tid] := p;
      assert thrtab[..] == tab[tid := p];
      thr := thr[p := Thread(tid, st, cur, NoCond, Top, births, {})];
      births := births + 1;
    }

    /** thread_spawn; `p` is the struct the allocator returns. */
    method Spawn(p: Ptr) returns (e: End)
      requires Live() && p !in thr && p != 0 && Off(queue, p)
      modifies this, thrtab
      ensures Valid() && Shows(e, Step(old(Abs()), Op.Spawn(p)))
      ensures (e.Returned? ==> Abs() == Step(old(Abs()), Op.Spawn(p)).s)
    {
      var tid := FindSlot();
      if tid == NTHR { return Full; }
      Enter(p, Ready, tid);
      ListInsert(ReadyList, p);
      e := Returned(false);
    }

    /** thread_fork_to_user past the cloning of memory: the child runs at once. */
    method Fork(p: Ptr) returns (e: End)
      requires Live() && p !in thr && p != 0
      modifies this, thrtab
      ensures Valid() && Shows(e, DoFork(old(Abs()), p)) && (e.Returned? ==> Abs() == DoFork(old(Abs()), p).s)
    {
      var tid := FindSlot();
      if tid == NTHR { return Full; }
      Enter(p, Running, tid);
      thr := thr[cur := thr[cur].(state := Ready)];
      ListInsert(ReadyList, cur);
      cur := p;
      e := Returned(false);
    }

    /** recycle_thread */
    method RecycleThread(tid: int)
      requires thrtab.Length == NTHR && Rooted(thr, thrtab[..]) && Recycle(Abs(), tid).Next?
      modifies this`thr, thrtab
      ensures Recycle(old(Abs()), tid) == Next(Abs(), false)
    {
      var x := thrtab[tid];
      assert 0 < tid < NTHR && x != 0 && thr[x].state.Exited?;
      ghost var tab, y := thrtab[..], thr[x].parent;
      AdoptNone(thr, tab, x, y);
      var ctid := 1;
      while ctid < NTHR
        invariant 1 <= ctid <= NTHR && thrtab[..] == tab
        invariant thr == Adopted(old(thr), tab, ctid, x, y) && thr[x].parent == y
      {
        AdoptNext(old(thr), tab, ctid, x, y);
        assert thrtab[ctid] == tab[ctid];
        if thrtab[ctid] != 0 && thr[thrtab[ctid]].parent == x {
          thr := thr[thrtab[ctid] := thr[thrtab[ctid]].(parent := thr[x].parent)];
        }
        ctid := ctid + 1;
      }
      AdoptAll(old(thr), tab, x, y);
      thrtab[tid] := 0;
      assert thrtab[..] == tab[tid := 0];
      thr := thr - {x};
    }

    // ----- Exit and join

    /** thread_exit */
    method ThreadExit() returns (e: End)
      requires Live() && (DoExit(Abs()).Next? || DoExit(Abs()).Halt?)
      modifies this
      ensures Valid() && Shows(e, DoExit(old(Abs()))) && (e.Returned? ==> Abs() == DoExit(old(Abs())).s)
    {
      if cur == MAIN { return Halted; }
      thr := thr[cur := thr[cur].(state := Exited)];
      assert thr[cur].parent != 0;
      ConditionBroadcast(ChildExit(thr[cur].parent));
      SuspendSelf();
      e := Returned(true);
    }

    /** The loop of thread_join up to its next wait, and the recycling after it. */
    method JoinChild(c: Ptr) returns (e: End)
      requires Live() && JoinLoop(Abs(), c).Next?
      modifies this, thrtab
      ensures Valid() && Shows(e, JoinLoop(old(Abs()), c)) && Abs() == JoinLoop(old(Abs()), c).s
    {
      if !thr[c].state.Exited? {
        ConditionWait(ChildExit(cur), InJoin(c));
        return Returned(true);
      }
      thr := thr[cur := thr[cur].(pc := Top)];
      assert Rooted(thr, thrtab[..]);
      RecycleThread(thr[c].id);
      e := Returned(false);
    }

    /** thread_join */
    method ThreadJoin(tid: int) returns (e: End)
      requires Live() && DoJoin(Abs(), tid).Next?
      modifies this, thrtab
      ensures Valid() && Shows(e, DoJoin(old(Abs()), tid)) && Abs() == DoJoin(old(Abs()), tid).s
    {
      if tid <= 0 || NTHR <= tid { return Returned(false); }
      var child := thrtab[tid];
      if child == 0 || thr[child].parent != cur { return Returned(false); }
      e := JoinChild(child);
    }

    /** The first loop of thread_join_any: the first exited child, or how many children there are. */
    method ScanChildren() returns (tid: nat, children: nat)
      requires Live()
      ensures tid == ExitedChild(Abs(), cur, 1) <= NTHR
      ensures tid == NTHR ==> (children == 0 <==> !exists i :: 0 < i < NTHR && IsChild(Abs(), i, cur))
    {
      ghost var s := Abs();
      tid, children := 1, 0;
      while tid < NTHR
        invariant 1 <= tid <= NTHR
        invariant forall j :: 1 <= j < tid ==> !IsExitedChild(s, j, cur)
        invariant children == 0 <==> forall j :: 1 <= j < tid ==> !IsChild(s, j, cur)
      {
        ChildAt(tid);
        if thrtab[tid] != 0 && thr[thrtab[tid]].parent == cur {
          if thr[thrtab[tid]].state.Exited? { return; }
          children := children + 1;
        }
        tid := tid + 1;
      }
    }

    /** The test both loops of thread_join_any make. */
    lemma ChildAt(i: int)
      requires Live() && 0 < i < NTHR
      ensures thrtab[i] == Abs().tab[i] && (thrtab[i] != 0 ==> thrtab[i] in thr)
      ensures IsChild(Abs(), i, cur) <==> thrtab[i] != 0 && thr[thrtab[i]].parent == cur
      ensures IsExitedChild(Abs(), i, cur) <==>
              thrtab[i] != 0 && thr[thrtab[i]].parent == cur && thr[thrtab[i]].state.Exited?
    {
    }

    /** thread_join_any up to its wait */
    method ThreadJoinAny() returns (e: End)
      requires Live() && (DoJoinAny(Abs()).Next? || DoJoinAny(Abs()).Childless?)
      modifies this, thrtab
      ensures Valid() && Shows(e, DoJoinAny(old(Abs()))) && (e.Returned? ==> Abs() == DoJoinAny(old(Abs())).s)
    {
      hide ExitedChild, FreeSlot;
      var tid, children := ScanChildren();
      if tid < NTHR {
        e := ThreadJoin(tid);
        return;
      }
      if children == 0 { return NoChildren; }
      ConditionWait(ChildExit(cur), InJoinAny);
      e := Returned(true);
    }

    /** The second loop of thread_join_any. */
    method ScanExited() returns (tid: nat)
      requires Live()
      ensures tid == ExitedChild(Abs(), cur, 1) <= NTHR
    {
      ghost var s := Abs();
      tid := 1;
      while tid < NTHR
        invariant 1 <= tid <= NTHR && forall j :: 1 <= j < tid ==> !IsExitedChild(s, j, cur)
      {
        ChildAt(tid);
        if thrtab[tid] != 0 && thr[thrtab[tid]].parent == cur && thr[thrtab[tid]].state.Exited? { return; }
        tid := tid + 1;
      }
    }

    /** thread_join_any after its wait: the second loop finds an exited child. */
    method FinishJoinAny() returns (tid: int)
      requires Live() && ResumeJoinAny(Abs()).Next?
      modifies this`thr, thrtab
      ensures ResumeJoinAny(old(Abs())) == Next(Abs(), false) && IsExitedChild(old(Abs()), tid, cur)
    {
      tid := ScanExited();
      assert tid < NTHR;   // not the "spurious child_exit signal" panic
      thr := thr[cur := thr[cur].(pc := Top)];
      assert Rooted(thr, thrtab[..]);
      RecycleThread(tid);
    }

    // ----- Sleep locks

    /** One turn of the loop of lock_acquire. */
    method LockAcquire(l: int) returns (e: End)
      requires Live() && DoAcquire(Abs(), l).Next?
      modifies this
      ensures Valid() && Shows(e, DoAcquire(old(Abs()), l)) && Abs() == DoAcquire(old(Abs()), l).s
    {
      if (if l in owner then owner[l] else -1) == -1 {
        owner := owner[l := thr[cur].id];
        thr := thr[cur := thr[cur].(pc := Top, held := thr[cur].held + {l})];
        return Returned(false);
      }
      ConditionWait(LockCond(l), InAcquire(l));
      e := Returned(true);
    }

    /** lock_release */
    method LockRelease(l: int)
      requires Live() && DoRelease(Abs(), l).Next?
      modifies this
      ensures Valid() && DoRelease(old(Abs()), l) == Next(Abs(), false)
    {
      assert (if l in owner then owner[l] else -1) == thr[cur].id;
      thr := thr[cur := thr[cur].(held := thr[cur].held - {l})];
      owner := owner[l := -1];
      ConditionBroadcast(LockCond(l));
    }

    // ----- Any operation

    /** A resumed thread goes on with the call it was waiting in. */
    method Continue() returns (e: End)
      requires Live() && DoResume(Abs()).Next? && thr[cur].pc != Top
      modifies this, thrtab
      ensures Valid() && Shows(e, DoResume(old(Abs()))) && Abs() == DoResume(old(Abs())).s
    {
      e := Returned(false);
      match thr[cur].pc {
        case InJoin(c) => e := JoinChild(c);
        case InJoinAny => var _ := FinishJoinAny();
        case InAcquire(l) => e := LockAcquire(l);
      }
    }

    method Dispatch(op: Op) returns (e: End)
      requires Live() && !Step(Abs(), op).Crash? && Enabled(Abs(), op) && (op.Spawn? ==> Off(queue, op.p))
      modifies this, thrtab
      ensures Valid() && Shows(e, Step(old(Abs()), op)) && (e.Returned? ==> Abs() == Step(old(Abs()), op).s)
    {
      e := Returned(false);
      match op {
        case Spawn(p) => e := Spawn(p);
        case Fork(p) => e := Fork(p);
        case Yield => SuspendSelf(); e := Returned(true);
        case Wait(n) => ConditionWait(Dev(n), Top); e := Returned(true);
        case Broadcast(n) => ConditionBroadcast(Dev(n));
        case Exit => e := ThreadExit();
        case Join(tid) => e := ThreadJoin(tid);
        case JoinAny => e := ThreadJoinAny();
        case Acquire(l) => e := LockAcquire(l);
        case Release(l) => LockRelease(l);
        case Resume => e := Continue();
      }
    }

    /**
     Whatever the running thread may do in a good state, the code meets none of its assertions'
     failures, does just the abstract step, and leaves a good state.
     */
    method Execute(op: Op) returns (e: End)
      requires Valid() && thrtab.Length == NTHR && Inv(Abs()) && Enabled(Abs(), op)
      modifies this, thrtab
      ensures Valid() && Shows(e, Step(old(Abs()), op))
      ensures e.Returned? ==> Abs() == Step(old(Abs()), op).s && Inv(Abs())
    {
      StepKeeps(Abs(), op);
      InvLive(Abs());
      if op.Spawn? { StructOff(Abs(), op.p); }
      e := Dispatch(op);
    }
  }

  lemma InvLive(s: Sys)
    requires Inv(s)
    ensures Rooted(s.thr, s.tab) && Off(s.queue, s.cur)
  {
    StructOff(s, s.cur);
    forall p | p in s.thr ensures p in s.tab { assert s.tab[s.thr[p].id] == p; }
  }

  lemma AdoptNone(thr: map<Ptr, Thread>, tab: seq<Ptr>, x: Ptr, y: Ptr)
    requires Rooted(thr, tab) && x != 0
    ensures Adopted(thr, tab, 1, x, y) == thr
  {
  }

  lemma AdoptNext(thr: map<Ptr, Thread>, tab: seq<Ptr>, n: int, x: Ptr, y: Ptr)
    requires Rooted(thr, tab) && 0 <= n < NTHR && x in thr && y != x
    ensures var m, m', p := Adopted(thr, tab, n, x, y), Adopted(thr, tab, n + 1, x, y), tab[n];
            if p != 0 && m[p].parent == x then m' == m[p := m[p].(parent := y)] else m' == m
    ensures Adopted(thr, tab, n, x, y)[x] == thr[x]
  {
    assert tab[..n + 1] == tab[..n] + [tab[n]];
  }

  lemma AdoptAll(thr: map<Ptr, Thread>, tab: seq<Ptr>, x: Ptr, y: Ptr)
    requires Rooted(thr, tab)
    ensures Adopted(thr, tab, NTHR, x, y) - {x} ==
            map p | p in thr && p != x :: if thr[p].parent == x then thr[p].(parent := y) else thr[p]
  {
    assert tab[..NTHR] == tab;
  }

  /** A thread that neither is ready nor waits is on no list. */
  lemma StructOff(s: Sys, p: Ptr)
    requires ListsOk(s) && (p in s.thr ==> s.thr[p].state.Running?)
    ensures Off(s.queue, p)
  {
    forall l ensures !Has(s.queue, l, p) {
      assert Queue(s.queue, l) == s.Q(l);
      assert p !in s.Q(ReadyList);
      match l
      case ReadyList =>
      case WaitList(c) => assert p !in s.Q(WaitList(c));
    }
  }

  lemma SameQueues(next: map<Ptr, Ptr>, head: map<List, Ptr>, tail: map<List, Ptr>, queue: map<List, seq<Ptr>>,
      queue': map<List, seq<Ptr>>)
    requires AreLists(next, head, tail, queue) && forall l :: Queue(queue', l) == Queue(queue, l)
    ensures AreLists(next, head, tail, queue')
  {
    forall l ensures IsList(next, head, tail, queue', l) { assert IsList(next, head, tail, queue, l); }
    forall p, l, m | Has(queue', l, p) && Has(queue', m, p)
      ensures l == m
    {
      assert Has(queue, l, p) && Has(queue, m, p);
    }
  }

  lemma InsertLists(next: map<Ptr, Ptr>, head: map<List, Ptr>, tail: map<List, Ptr>, queue: map<List, seq<Ptr>>,
      l: List, p: Ptr)
    requires AreLists(next, head, tail, queue) && p != 0 && Off(queue, p)
    ensures var q, t, queue' := Queue(queue, l), At(tail, l), queue[l := Queue(queue, l) + [p]];
            if q == [] then AreLists(next[p := 0], head[l := p], tail[l := p], queue')
            else AreLists(next[p := 0][t := p], head, tail[l := p], queue')
  {
    var q, t, queue' := Queue(queue, l), At(tail, l), queue[l := Queue(queue, l) + [p]];
    var next' := if q == [] then next[p := 0] else next[p := 0][t := p];
    var head', tail' := if q == [] then head[l := p] else head, tail[l := p];
    assert IsList(next, head, tail, queue, l) && !Has(queue, l, p);
    ChainInsert(next, At(head, l), q, |q|, p);
    assert q[..|q|] + [p] + q[|q|..] == q + [p];
    forall m | m != l ensures IsList(next', head', tail', queue', m) {
      assert IsList(next, head, tail, queue, m) && !Has(queue, m, p);
      if q != [] { OthersApart(queue, l, m, t); }
      SameChain(next, next', At(head, m), Queue(queue, m));
    }
    forall r, k, m | Has(queue', k, r) && Has(queue', m, r) ensures k == m {
      assert !Has(queue, k, p) && !Has(queue, m, p);
      assert r != p ==> Has(queue, k, r) && Has(queue, m, r);
    }
  }

  lemma RemoveLists(next: map<Ptr, Ptr>, head: map<List, Ptr>, tail: map<List, Ptr>, queue: map<List, seq<Ptr>>,
      l: List)
    requires AreLists(next, head, tail, queue) && Queue(queue, l) != []
    ensures var p, queue' := At(head, l), queue[l := Queue(queue, l)[1..]];
            var h := At(next, p);
            AreLists(next[p := 0], head[l := h], if h == 0 then tail[l := 0] else tail, queue') && Off(queue', p)
  {
    var p, q := At(head, l), Queue(queue, l);
    var h, next', queue' := At(next, p), next[p := 0], queue[l := q[1..]];
    var head', tail' := head[l := h], if h == 0 then tail[l := 0] else tail;
    assert IsList(next, head, tail, queue, l);
    ChainTail(next, p, q);
    assert LinkAt(next, q, 0) && (1 < |q| ==> q[1] in q);
    forall m ensures IsList(next', head', tail', queue', m) && !Has(queue', m, p) {
      if m != l {
        assert IsList(next, head, tail, queue, m);
        OthersApart(queue, l, m, p);
        SameChain(next, next', At(head, m), Queue(queue, m));
      }
    }
    forall r, k, m | Has(queue', k, r) && Has(queue', m, r) ensures k == m {
      assert Has(queue, k, r) && Has(queue, m, r);
    }
  }

  lemma AppendLists(next: map<Ptr, Ptr>, head: map<List, Ptr>, tail: map<List, Ptr>, queue: map<List, seq<Ptr>>,
      l0: List, l1: List)
    requires AreLists(next, head, tail, queue) && l0 != l1
    ensures var q0, q1 := Queue(queue, l0), Queue(queue, l1);
            var queue' := queue[l0 := q0 + q1][l1 := []];
            if q0 == [] then
              AreLists(next, head[l0 := At(head, l1)][l1 := 0], tail[l0 := At(tail, l1)][l1 := 0], queue')
            else if q1 == [] then AreLists(next, head[l1 := 0], tail[l1 := 0], queue')
            else AreLists(next[At(tail, l0) := At(head, l1)], head[l1 := 0], tail[l0 := At(tail, l1)][l1 := 0], queue')
  {
    var q0, q1 := Queue(queue, l0), Queue(queue, l1);
    var queue' := queue[l0 := q0 + q1][l1 := []];
    var h0, t0, h1, t1 := At(head, l0), At(tail, l0), At(head, l1), At(tail, l1);
    var next' := if q0 == [] || q1 == [] then next else next[t0 := h1];
    var head' := (if q0 == [] then head[l0 := h1] else head)[l1 := 0];
    var tail' := (if q0 != [] && q1 == [] then tail else tail[l0 := t1])[l1 := 0];
    assert IsList(next, head, tail, queue, l0) && IsList(next, head, tail, queue, l1);
    forall p | p in q1 ensures p !in q0 { OthersApart(queue, l1, l0, p); }
    ChainJoin(next, h0, q0, h1, q1);
    forall m | m != l0 && m != l1 ensures IsList(next', head', tail', queue', m) {
      assert IsList(next, head, tail, queue, m);
      if q0 != [] { OthersApart(queue, l0, m, t0); }
      SameChain(next, next', At(head, m), Queue(queue, m));
    }
    assert IsList(next', head', tail', queue', l0) && IsList(next', head', tail', queue', l1);
    AppendApart(queue, l0, l1);
  }

  lemma AppendApart(queue: map<List, seq<Ptr>>, l0: List, l1: List)
    requires Apart(queue) && l0 != l1
    ensures Apart(queue[l0 := Queue(queue, l0) + Queue(queue, l1)][l1 := []])
  {
    var queue' := queue[l0 := Queue(queue, l0) + Queue(queue, l1)][l1 := []];
    forall r, k, m | Has(queue', k, r) && Has(queue', m, r) ensures k == m {
      assert Has(queue, k, r) || (k == l0 && Has(queue, l1, r));
      assert Has(queue, m, r) || (m == l0 && Has(queue, l1, r));
    }
  }

  lemma OthersApart(queue: map<List, seq<Ptr>>, l: List, m: List, p: Ptr)
    requires Apart(queue) && l != m && p in Queue(queue, l)
    ensures p !in Queue(queue, m)
  {
    assert Has(queue, l, p);
    assert !Has(queue, m, p);
  }
}
