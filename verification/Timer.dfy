/**
 Alarms (timer.c): a list of sleeping alarms in order of their deadlines, and the timer compare
 register that is set for the next deadline or tick.
 */
module Timer {
  import opened Chains

  type Alarm = int               // address of a struct alarm; 0 is NULL
  const MAX := 0xFFFF_FFFF_FFFF_FFFF
  const TICK_PERIOD := 200_000   // TIMER_FREQ / TICK_FREQ

  datatype Item = Item(al: Alarm, twake: int)

  /** An alarm signalled at time `now`. */
  datatype Wake = Wake(item: Item, now: int)

  function AddSat(twake: int, tcnt: int): int { if MAX - twake < tcnt then MAX else twake + tcnt }

  // ----- Sorted lists

  predicate Sorted(l: seq<Item>) { forall i, j :: 0 <= i < j < |l| ==> l[i].twake <= l[j].twake }

  /** In front of the first item that is not due earlier. */
  function Insert(l: seq<Item>, x: Item): (r: seq<Item>)
    ensures |r| == |l| + 1
  {
    if l == [] || x.twake <= l[0].twake then [x] + l else [l[0]] + Insert(l[1..], x)
  }

  lemma {:induction false} InsertAdds(l: seq<Item>, x: Item)
    ensures multiset(Insert(l, x)) == multiset(l) + multiset{x}
  {
    if l != [] && x.twake > l[0].twake {
      assert l == [l[0]] + l[1..];
      InsertAdds(l[1..], x);
    }
  }

  lemma {:induction false} InsertSorted(l: seq<Item>, x: Item)
    requires Sorted(l)
    ensures Sorted(Insert(l, x))
    ensures Insert(l, x)[0].twake == if l == [] || x.twake <= l[0].twake then x.twake else l[0].twake
  {
    if l != [] && x.twake > l[0].twake {
      InsertSorted(l[1..], x);
      var r := Insert(l[1..], x);
      assert r[0].twake >= l[0].twake;
      forall i, j | 0 <= i < j < |r| + 1 ensures ([l[0]] + r)[i].twake <= ([l[0]] + r)[j].twake {
        assert r[0].twake <= r[j - 1].twake;
      }
    }
  }

  /** Where the new item goes, as the insertion loop finds it. */
  lemma {:induction false} InsertWhere(l: seq<Item>, x: Item, k: nat)
    requires k <= |l| && (forall i :: 0 <= i < k ==> l[i].twake < x.twake) && (k < |l| ==> x.twake <= l[k].twake)
    ensures Insert(l, x) == l[..k] + [x] + l[k..]
  {
    if k > 0 {
      InsertWhere(l[1..], x, k - 1);
      assert l[1..][..k - 1] == l[1..k] && l[1..][k - 1..] == l[k..];
      assert l[..k] == [l[0]] + l[1..k];
      assert [l[0]] + (l[1..k] + [x] + l[k..]) == [l[0]] + l[1..k] + [x] + l[k..];
    } else {
      assert l[..0] == [] && l[0..] == l;
    }
  }

  /** How many items at the front are due. */
  function Due(l: seq<Item>, now: int): (k: nat)
    ensures k <= |l| && (forall i :: 0 <= i < k ==> l[i].twake <= now) && (k < |l| ==> l[k].twake > now)
  {
    if l == [] || l[0].twake > now then 0 else 1 + Due(l[1..], now)
  }

  /** In a sorted list these are exactly the due items. */
  lemma DueIsExact(l: seq<Item>, now: int)
    requires Sorted(l)
    ensures forall i :: 0 <= i < |l| ==> (i < Due(l, now) <==> l[i].twake <= now)
  {
  }

  // ----- The timer as a state machine

  /** `started`: there has been an interrupt. `slept` and `woken` are histories. */
  datatype Clock = Clock(list: seq<Item>, nextTick: int, mtcmp: int, started: bool, slept: seq<Item>, woken: seq<Wake>)

  datatype Op = Sleep(al: Alarm, twake: int, tcnt: int, now: int) | Interrupt(now: int)

  /** timer_init */
  const START := Clock([], 0, TICK_PERIOD, false, [], [])

  /** alarm_sleep, for an alarm whose last event was at `twake`. */
  function DoSleep(s: Clock, al: Alarm, twake: int, tcnt: int, now: int): Clock {
    var x := Item(al, AddSat(twake, tcnt));
    if x.twake < now then s else
    var first := s.list == [] || x.twake <= s.list[0].twake;
    var mtcmp := if first && x.twake < s.nextTick then x.twake else s.mtcmp;
    s.(list := Insert(s.list, x), slept := s.slept + [x], mtcmp := mtcmp)
  }

  function Wakes(l: seq<Item>, now: int): (w: seq<Wake>)
    ensures |w| == |l| && forall i :: 0 <= i < |l| ==> w[i] == Wake(l[i], now)
  {
    seq(|l|, i requires 0 <= i < |l| => Wake(l[i], now))
  }

  /** timer_intr_handler */
  function DoInterrupt(s: Clock, now: int): Clock {
    var k := Due(s.list, now);
    var tick := if s.nextTick < now then (s.nextTick + TICK_PERIOD) % (MAX + 1) else s.nextTick;
    var rest := s.list[k..];
    Clock(rest, tick, if rest != [] && rest[0].twake < tick then rest[0].twake else tick, true, s.slept,
          s.woken + Wakes(s.list[..k], now))
  }

  function Step(s: Clock, op: Op): Clock {
    match op
    case Sleep(al, twake, tcnt, now) => DoSleep(s, al, twake, tcnt, now)
    case Interrupt(now) => DoInterrupt(s, now)
  }

  /** An alarm is put to sleep only while it is not asleep. */
  predicate Enabled(s: Clock, op: Op) { op.Sleep? ==> forall i :: 0 <= i < |s.list| ==> s.list[i].al != op.al }

  /** The compare register is set for the first deadline or the next tick, whichever is earlier. */
  predicate Armed(s: Clock) {
    s.mtcmp == if s.list != [] && s.list[0].twake < s.nextTick then s.list[0].twake else s.nextTick
  }

  function Items(w: seq<Wake>): (l: seq<Item>)
    ensures |l| == |w|
  {
    seq(|w|, i requires 0 <= i < |w| => w[i].item)
  }

  ghost predicate Inv(s: Clock) {
    && Sorted(s.list)
    && (if s.started then Armed(s) else s.nextTick == 0 && s.mtcmp == TICK_PERIOD && s.woken == [])
    && (forall i, j :: 0 <= i < j < |s.list| ==> s.list[i].al != s.list[j].al)
    && multiset(s.slept) == multiset(s.list) + multiset(Items(s.woken))
    && (forall i :: 0 <= i < |s.woken| ==> s.woken[i].item.twake <= s.woken[i].now)
  }

  lemma InsertDistinct(l: seq<Item>, x: Item)
    requires (forall i, j :: 0 <= i < j < |l| ==> l[i].al != l[j].al) && forall i :: 0 <= i < |l| ==> l[i].al != x.al
    ensures forall i, j :: 0 <= i < j < |l| + 1 ==> Insert(l, x)[i].al != Insert(l, x)[j].al
    ensures forall i :: 0 <= i < |l| + 1 ==> Insert(l, x)[i] == x || Insert(l, x)[i] in l
  {
    if l != [] && x.twake > l[0].twake {
      InsertDistinct(l[1..], x);
      var r := Insert(l[1..], x);
      forall i | 0 <= i < |r| ensures r[i].al != l[0].al {
        if r[i] != x { var j :| 0 <= j < |l| - 1 && l[1..][j] == r[i]; assert l[j + 1] == r[i]; }
      }
    }
  }

  lemma SleepKeeps(s: Clock, al: Alarm, twake: int, tcnt: int, now: int)
    requires Inv(s) && (forall i :: 0 <= i < |s.list| ==> s.list[i].al != al)
    requires (s.started || (0 <= twake && 0 <= tcnt))
    ensures Inv(DoSleep(s, al, twake, tcnt, now))
  {
    var x := Item(al, AddSat(twake, tcnt));
    InsertSorted(s.list, x);
    InsertDistinct(s.list, x);
    InsertAdds(s.list, x);
  }

  lemma InterruptKeeps(s: Clock, now: int)
    requires Inv(s)
    ensures Inv(DoInterrupt(s, now))
  {
    hide Due;
    var k := Due(s.list, now);
    WokenItems(s.woken, s.list, k, now);
  }

  /** Moving the first `k` items to the woken ones loses none. */
  lemma WokenItems(woken: seq<Wake>, l: seq<Item>, k: nat, now: int)
    requires k <= |l|
    ensures multiset(l) + multiset(Items(woken)) == multiset(l[k..]) + multiset(Items(woken + Wakes(l[..k], now)))
  {
    assert l == l[..k] + l[k..];
    assert Items(woken + Wakes(l[..k], now)) == Items(woken) + l[..k];
  }

  predicate IsRun(s: Clock, ops: seq<Op>, s': Clock)
    decreases |ops|
  {
    if ops == [] then s == s'
    else
      && Enabled(s, ops[0]) && (ops[0].Sleep? ==> 0 <= ops[0].twake <= MAX && 0 <= ops[0].tcnt <= MAX)
      && IsRun(Step(s, ops[0]), ops[1..], s')
  }

  lemma {:induction false} RunKeeps(s: Clock, ops: seq<Op>, s': Clock)
    requires Inv(s) && IsRun(s, ops, s')
    ensures Inv(s')
    decreases |ops|
  {
    hide Inv;
    if ops != [] {
      match ops[0] {
        case Sleep(al, twake, tcnt, now) => SleepKeeps(s, al, twake, tcnt, now);
        case Interrupt(now) => InterruptKeeps(s, now);
      }
      RunKeeps(Step(s, ops[0]), ops[1..], s');
    }
  }

  // ----- Deadlines in plain arithmetic

  /** The deadline a sleep of `tcnt` ticks after an event at time `t` is to have. */
  function Deadline(t: int, tcnt: int): int {
    if t + tcnt <= 0xFFFF_FFFF_FFFF_FFFF then t + tcnt else 0xFFFF_FFFF_FFFF_FFFF
  }

  /** The alarm that an operation puts to sleep, unless its deadline has passed. */
  function Slept1(op: Op): seq<Item> {
    if op.Sleep? && Deadline(op.twake, op.tcnt) >= op.now then [Item(op.al, Deadline(op.twake, op.tcnt))] else []
  }

  function Expected(ops: seq<Op>): seq<Item> { if ops == [] then [] else Slept1(ops[0]) + Expected(ops[1..]) }

  /** A sleep adds the alarm with its deadline, or does nothing when that has passed. */
  lemma SleepIsExact(s: Clock, al: Alarm, twake: int, tcnt: int, now: int)
    requires 0 <= twake <= MAX && 0 <= tcnt <= MAX
    ensures var s', d := Step(s, Sleep(al, twake, tcnt, now)), Deadline(twake, tcnt);
            if d < now then s' == s
            else
              && multiset(s'.list) == multiset(s.list) + multiset{Item(al, d)} && s'.slept == s.slept + [Item(al, d)]
              && s'.nextTick == s.nextTick && s'.woken == s.woken && s'.started == s.started
  {
    InsertAdds(s.list, Item(al, AddSat(twake, tcnt)));
  }

  lemma StepSlept(s: Clock, op: Op)
    requires op.Sleep? ==> 0 <= op.twake <= MAX && 0 <= op.tcnt <= MAX
    ensures Step(s, op).slept == s.slept + Slept1(op)
  {
    if op.Sleep? { SleepIsExact(s, op.al, op.twake, op.tcnt, op.now); }
  }

  lemma {:induction false} SleptAsExpected(s: Clock, ops: seq<Op>, s': Clock)
    requires IsRun(s, ops, s')
    ensures s'.slept == s.slept + Expected(ops)
    decreases |ops|
  {
    hide Step, Slept1;
    if ops != [] {
      StepSlept(s, ops[0]);
      SleptAsExpected(Step(s, ops[0]), ops[1..], s');
      assert s.slept + Slept1(ops[0]) + Expected(ops[1..]) == s.slept + (Slept1(ops[0]) + Expected(ops[1..]));
    }
  }

  /** Over any run, the alarms put to sleep are just those on the list and those woken, each not before its deadline. */
  lemma {:induction false} NoneEarlyNoneDropped(ops: seq<Op>, s: Clock)
    requires IsRun(START, ops, s)
    ensures multiset(Expected(ops)) == multiset(s.list) + multiset(Items(s.woken))
    ensures forall i :: 0 <= i < |s.woken| ==> s.woken[i].item.twake <= s.woken[i].now
  {
    EveryRun(ops, s);
    SleptAsExpected(START, ops, s);
    assert s.slept == Expected(ops);
  }

  lemma {:induction false} ExpectedFrom(ops: seq<Op>, x: Item) returns (i: nat)
    requires x in Expected(ops)
    ensures i < |ops| && ops[i].Sleep? && ops[i].al == x.al && x.twake == Deadline(ops[i].twake, ops[i].tcnt)
    decreases |ops|
  {
    if ops[0].Sleep? && x == Item(ops[0].al, Deadline(ops[0].twake, ops[0].tcnt)) {
      i := 0;
    } else {
      i := ExpectedFrom(ops[1..], x);
      i := i + 1;
    }
  }

  /** Every alarm woken was put to sleep by some call, and not before that call's time was up, or time itself. */
  lemma {:induction false} WokenInTime(ops: seq<Op>, s: Clock, k: nat) returns (i: nat)
    requires IsRun(START, ops, s) && k < |s.woken|
    ensures i < |ops| && ops[i].Sleep? && ops[i].al == s.woken[k].item.al
    ensures s.woken[k].item.twake == Deadline(ops[i].twake, ops[i].tcnt)
    ensures s.woken[k].now >= ops[i].twake + ops[i].tcnt || s.woken[k].now >= 0xFFFF_FFFF_FFFF_FFFF
  {
    hide IsRun, Expected;
    NoneEarlyNoneDropped(ops, s);
    var x := s.woken[k].item;
    assert Items(s.woken)[k] == x;
    assert x in multiset(Items(s.woken));
    assert x in multiset(Expected(ops));
    i := ExpectedFrom(ops, x);
  }

  /** The next tick moves on by one period exactly when it is over. */
  lemma TickAdvances(s: Clock, now: int)
    requires 0 <= s.nextTick <= MAX
    ensures var s' := Step(s, Interrupt(now));
            && (s.nextTick >= now ==> s'.nextTick == s.nextTick)
            && (s.nextTick < now && s.nextTick + 200_000 <= MAX ==> s'.nextTick == s.nextTick + 200_000)
            && s'.mtcmp <= s'.nextTick && (s'.list != [] ==> s'.mtcmp <= s'.list[0].twake)
            && (s'.mtcmp == s'.nextTick || (s'.list != [] && s'.mtcmp == s'.list[0].twake))
  {
  }

  /**
   After any run: the list is sorted; every alarm put to sleep either is on it or has been woken, as
   often as it slept; none was woken early; and once there has been an interrupt, the compare register
   stands at the earlier of first deadline and next tick.
   */
  lemma EveryRun(ops: seq<Op>, s: Clock)
    requires IsRun(START, ops, s)
    ensures Sorted(s.list) && multiset(s.slept) == multiset(s.list) + multiset(Items(s.woken))
    ensures forall i :: 0 <= i < |s.woken| ==> s.woken[i].item.twake <= s.woken[i].now
    ensures s.started ==> Armed(s)
  {
    assert Inv(START);
    RunKeeps(START, ops, s);
  }

  /** An interrupt wakes just the alarms that are due, and leaves the others in their order. */
  lemma InterruptIsExact(s: Clock, now: int)
    requires Sorted(s.list)
    ensures var k, s' := Due(s.list, now), Step(s, Interrupt(now));
            && s'.list == s.list[k..] && s'.woken == s.woken + Wakes(s.list[..k], now)
            && forall i :: 0 <= i < |s.list| ==> (i < k <==> s.list[i].twake <= now)
  {
    DueIsExact(s.list, now);
  }

  /**
   When an alarm's time has come, the timer interrupt is pending exactly if there has been an
   interrupt before or the first tick is over too.
   */
  lemma DueIsPendingIff(s: Clock, i: nat, now: int)
    requires Inv(s) && i < |s.list| && s.list[i].twake <= now
    ensures s.mtcmp <= now <==> s.started || TICK_PERIOD <= now
  {
    assert s.list[0].twake <= s.list[i].twake;
  }

  predicate HasInterrupt(ops: seq<Op>) { exists k :: 0 <= k < |ops| && ops[k].Interrupt? }

  lemma {:induction false} StartedIff(s: Clock, ops: seq<Op>, s': Clock)
    requires IsRun(s, ops, s')
    ensures s'.started <==> s.started || HasInterrupt(ops)
    decreases |ops|
  {
    if ops != [] {
      var rest := ops[1..];
      StartedIff(Step(s, ops[0]), rest, s');
      if HasInterrupt(rest) {
        var k :| 0 <= k < |rest| && rest[k].Interrupt?;
        assert ops[k + 1].Interrupt?;
      }
      if HasInterrupt(ops) && !ops[0].Interrupt? {
        var k :| 0 <= k < |ops| && ops[k].Interrupt?;
        assert rest[k - 1].Interrupt?;
      }
    }
  }

  /** The same in terms of the run: no alarm that is due goes unnoticed after the first interrupt or tick. */
  lemma DueInEveryRun(ops: seq<Op>, s: Clock, i: nat, now: int)
    requires IsRun(START, ops, s) && i < |s.list| && s.list[i].twake <= now
    ensures s.mtcmp <= now <==> HasInterrupt(ops) || TICK_PERIOD <= now
  {
    assert Inv(START);
    RunKeeps(START, ops, s);
    StartedIff(START, ops, s);
    DueIsPendingIff(s, i, now);
  }

  /** Before that it fails: an alarm set at time 0 for time 1 is due at time 1, with the register far from it. */
  lemma FirstTickIsLate()
    ensures var s, now := DoSleep(START, 1, 0, 1, 0), 1;
            s.list == [Item(1, 1)] && s.list[0].twake <= now && !(s.mtcmp <= now)
    ensures IsRun(START, [Sleep(1, 0, 1, 0)], DoSleep(START, 1, 0, 1, 0))
  {
    var s, ops := DoSleep(START, 1, 0, 1, 0), [Sleep(1, 0, 1, 0)];
    assert ops[1..] == [] && IsRun(s, [], s);
    assert Step(START, ops[0]) == s;
  }

  // ----- The list in memory

  ghost function Listed(q: seq<Alarm>, twake: map<Alarm, int>): (l: seq<Item>)
    ensures |l| == |q| && forall i :: 0 <= i < |q| ==> l[i] == Item(q[i], At(twake, q[i]))
  {
    seq(|q|, i requires 0 <= i < |q| => Item(q[i], At(twake, q[i])))
  }

  class AlarmQueue {
    var sleepList: Alarm
    var next: map<Alarm, Alarm>
    var twake: map<Alarm, int>
    var nextTick: int
    var mtcmp: int
    var started: bool
    ghost var queue: seq<Alarm>
    ghost var slept: seq<Item>
    var woken: seq<Wake>           // broadcasts so far

    ghost predicate Valid() reads this { Chain(next, sleepList, queue) }

    ghost function View(): Clock reads this { Clock(Listed(queue, twake), nextTick, mtcmp, started, slept, woken) }

    /** timer_init */
    constructor ()
      ensures Valid() && View() == START
    {
      sleepList, next, twake, nextTick, mtcmp, started := 0, map[], map[], 0, TICK_PERIOD, false;
      queue, slept, woken := [], [], [];
    }

    /** alarm_init and alarm_reset: deadlines count from now. */
    method Reset(al: Alarm, now: int)
      requires Valid() && al !in queue
      modifies this`twake
      ensures Valid() && View() == old(View()) && At(twake, al) == now
    {
      twake := twake[al := now];
      assert Listed(queue, twake) == Listed(queue, old(twake));
    }

    /** alarm_sleep up to its wait; the result says whether it waits. */
    method AlarmSleep(al: Alarm, tcnt: int, now: int) returns (waits: bool)
      requires Valid() && al != 0 && al !in queue && Sorted(View().list)
      modifies this
      ensures Valid() && View() == DoSleep(old(View()), al, old(At(twake, al)), tcnt, now)
      ensures At(twake, al) == AddSat(old(At(twake, al)), tcnt) && (waits <==> al in queue)
      ensures (waits <==> At(twake, al) >= now)
      ensures var t := old(At(twake, al));
              0 <= t <= MAX && 0 <= tcnt <= MAX ==> At(twake, al) == if t + tcnt <= MAX then t + tcnt else MAX
    {
      if MAX - At(twake, al) < tcnt { twake := twake[al := MAX]; } else { twake := twake[al := At(twake, al) + tcnt]; }
      assert Listed(queue, twake) == Listed(queue, old(twake));
      waits := At(twake, al) >= now;
      if waits { Enqueue(al); }
    }

    /** The insertion of alarm_sleep, with interrupts off. */
    method Enqueue(al: Alarm)
      requires Valid() && al != 0 && al !in queue && Sorted(View().list)
      modifies this`sleepList, this`next, this`mtcmp, this`queue, this`slept
      ensures Valid() && al in queue && slept == old(slept) + [Item(al, At(twake, al))]
      ensures Listed(queue, twake) == Insert(old(Listed(queue, twake)), Item(al, At(twake, al)))
      ensures var l := old(Listed(queue, twake));
              var first := l == [] || At(twake, al) <= l[0].twake;
              mtcmp == if first && At(twake, al) < nextTick then At(twake, al) else old(mtcmp)
    {
      hide Insert, Chain, Sorted;
      ghost var q, k := queue, 0;
      ChainHead(next, sleepList, queue);
      if sleepList == 0 || At(twake, al) <= At(twake, sleepList) {
        ChainInsert(next, sleepList, q, 0, al);
        next := next[al := sleepList];
        sleepList := al;
        if At(twake, al) < nextTick { mtcmp := At(twake, al); }
        assert [al] + q == q[..0] + [al] + q[0..];
      } else {
        var prev;
        prev, k := FindPrev(al);
        ChainInsert(next, sleepList, q, k, al);
        next := next[al := At(next, prev)];
        next := next[prev := al];
      }
      queue := q[..k] + [al] + q[k..];
      assert queue[k] == al;
      slept := slept + [Item(al, At(twake, al))];
      InsertWhere(Listed(q, twake), Item(al, At(twake, al)), k);
      ListedInsert(q, twake, k, al);
    }

    /** The search for the alarm to insert after. */
    method FindPrev(al: Alarm) returns (prev: Alarm, ghost k: nat)
      requires Valid() && queue != [] && At(twake, queue[0]) < At(twake, al)
      ensures 1 <= k <= |queue| && prev == queue[k - 1] && At(next, prev) == if k < |queue| then queue[k] else 0
      ensures forall i :: 0 <= i < k ==> At(twake, queue[i]) < At(twake, al)
      ensures k < |queue| ==> At(twake, al) <= At(twake, queue[k])
    {
      prev, k := sleepList, 1;
      while At(next, prev) != 0 && At(twake, al) > At(twake, At(next, prev))
        invariant 1 <= k <= |queue| && prev == queue[k - 1]
        invariant forall i :: 0 <= i < k ==> At(twake, queue[i]) < At(twake, al)
        decreases |queue| - k
      {
        assert LinkAt(next, queue, k - 1);
        prev := At(next, prev);
        k := k + 1;
      }
      assert LinkAt(next, queue, k - 1);
    }

    /** timer_intr_handler */
    method Interrupted(now: int)
      requires Valid()
      modifies this
      ensures Valid() && View() == DoInterrupt(old(View()), now)
      ensures nextTick ==
              if old(nextTick) < now then (old(nextTick) + 200_000) % 0x1_0000_0000_0000_0000 else old(nextTick)
      ensures mtcmp == if queue != [] && At(twake, queue[0]) < nextTick then At(twake, queue[0]) else nextTick
    {
      hide Chain, Due;
      ghost var l := Listed(queue, twake);
      var head := BroadcastDue(now);
      if nextTick < now { nextTick := (nextTick + TICK_PERIOD) % (MAX + 1); }
      sleepList := head;
      ChainHead(next, head, queue);
      if head != 0 && At(twake, head) < nextTick { mtcmp := At(twake, head); } else { mtcmp := nextTick; }
      started := true;
    }

    /** Its loop: broadcasts to every due alarm and unlinks it; returns the first that is left. */
    method BroadcastDue(now: int) returns (head: Alarm)
      requires Valid()
      modifies this`next, this`woken, this`queue
      ensures Chain(next, head, queue)
      ensures var l := old(Listed(queue, twake));
              Listed(queue, twake) == l[Due(l, now)..] && woken == old(woken) + Wakes(l[..Due(l, now)], now)
    {
      hide Chain, Due;
      ghost var q, l, i := queue, Listed(queue, twake), 0;
      head := sleepList;
      assert q[0..] == q && l[..0] == [] && woken == old(woken) + Wakes([], now);
      ChainHead(next, head, q);
      while head != 0 && At(twake, head) <= now
        invariant 0 <= i <= |q| && queue == q && Chain(next, head, q[i..]) && head == (if i < |q| then q[i] else 0)
        invariant 0 !in q
        invariant forall j :: 0 <= j < i ==> l[j].twake <= now
        invariant woken == old(woken) + Wakes(l[..i], now)
        decreases |q| - i
      {
        ChainTail(next, head, q[i..]);
        assert q[i..][1..] == q[i + 1..] && l[..i + 1] == l[..i] + [l[i]];
        woken := woken + [Wake(Item(head, At(twake, head)), now)];
        assert woken == old(woken) + Wakes(l[..i + 1], now);
        var nxt := At(next, head);
        next := next[head := 0];
        head := nxt;
        i := i + 1;
        ChainHead(next, head, q[i..]);
      }
      queue := q[i..];
      assert i < |q| ==> q[i] in q;
      DueUnique(l, now, i);
      assert Listed(queue, twake) == l[i..];
    }
  }

  lemma ListedInsert(q: seq<Alarm>, twake: map<Alarm, int>, k: nat, al: Alarm)
    requires k <= |q|
    ensures var l := Listed(q, twake);
            Listed(q[..k] + [al] + q[k..], twake) == l[..k] + [Item(al, At(twake, al))] + l[k..]
  {
  }

  lemma DueUnique(l: seq<Item>, now: int, k: nat)
    requires k <= |l| && (forall i :: 0 <= i < k ==> l[i].twake <= now) && (k < |l| ==> l[k].twake > now)
    ensures Due(l, now) == k
  {
  }
}
