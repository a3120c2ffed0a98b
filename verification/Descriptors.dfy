/**
 Descriptor tables and reference counts as a state machine: what open, close, fork, exec and exit do to
 the tables of all processes and to the counts of the I/O objects they name.
 */
module Descriptors {
  const IOMAX := 16
  const NPROC := 16

  type Obj = int                 // address of a struct io_intf; 0 is NULL

  /** All process structs made so far, with their tables; `open` are the objects between open and close. */
  datatype Kern = Kern(procs: seq<seq<Obj>>, refcnt: map<Obj, int>, open: set<Obj>)
  {
    function Ref(o: Obj): int { if o in refcnt then refcnt[o] else 0 }
  }

  datatype Op =
    | Open(p: int, fd: int, o: Obj)    // `o`: the object that fs_open or the device's open function would return
    | Close(p: int, fd: int)
    | Exec(p: int, fd: int)
    | Fork(p: int, ok: bool)
    | Exit(p: int)

  /** Every entry of every table. */
  function Total(procs: seq<seq<Obj>>): multiset<Obj> {
    if procs == [] then multiset{} else Total(procs[..|procs| - 1]) + multiset(procs[|procs| - 1])
  }

  // ----- Effects

  function IoRef(s: Kern, o: Obj): Kern { s.(refcnt := s.refcnt[o := s.Ref(o) + 1]) }

  function IoClose(s: Kern, o: Obj): Kern {
    if s.Ref(o) == 0 then s
    else s.(refcnt := s.refcnt[o := s.Ref(o) - 1], open := if s.Ref(o) == 1 then s.open - {o} else s.open)
  }

  predicate ValidFd(s: Kern, p: int, fd: int) { 0 <= p < |s.procs| && 0 <= fd < |s.procs[p]| }

  function SetFd(s: Kern, p: int, fd: int, o: Obj): Kern
    requires ValidFd(s, p, fd)
  {
    s.(procs := s.procs[p := s.procs[p][fd := o]])
  }

  /** An open object is refused; a fresh one starts with one reference. What was in the entry before is not closed. */
  function DoOpen(s: Kern, p: int, fd: int, o: Obj): Kern {
    if !ValidFd(s, p, fd) || o in s.open then s
    else SetFd(s, p, fd, o).(refcnt := s.refcnt[o := 1], open := s.open + {o})
  }

  function DoClose(s: Kern, p: int, fd: int): Kern {
    if !ValidFd(s, p, fd) || s.procs[p][fd] == 0 then s else SetFd(IoClose(s, s.procs[p][fd]), p, fd, 0)
  }

  /** The entry is cleared and its reference kept. */
  function DoExec(s: Kern, p: int, fd: int): Kern {
    if !ValidFd(s, p, fd) || s.procs[p][fd] == 0 then s else SetFd(s, p, fd, 0)
  }

  function RefAll(s: Kern, row: seq<Obj>): Kern {
    if row == [] then s else
    var s1 := RefAll(s, row[..|row| - 1]);
    if row[|row| - 1] == 0 then s1 else IoRef(s1, row[|row| - 1])
  }

  function CloseAll(s: Kern, row: seq<Obj>): Kern {
    if row == [] then s else
    var s1 := CloseAll(s, row[..|row| - 1]);
    if row[|row| - 1] == 0 then s1 else IoClose(s1, row[|row| - 1])
  }

  function Nulls(n: nat): seq<Obj> { seq(n, _ => 0) }

  /** A fork that fails later leaves a process struct with an empty table and takes the references back. */
  function DoFork(s: Kern, p: int, ok: bool): Kern
    requires 0 <= p < |s.procs|
  {
    var row := s.procs[p];
    var s1 := RefAll(s, row);
    if ok then s1.(procs := s.procs + [row])
    else CloseAll(s1, row).(procs := s.procs + [Nulls(|row|)])
  }

  function DoExit(s: Kern, p: int): Kern
    requires 0 <= p < |s.procs|
  {
    CloseAll(s, s.procs[p]).(procs := s.procs[p := Nulls(|s.procs[p]|)])
  }

  predicate Enabled(s: Kern, op: Op) {
    0 <= op.p < |s.procs| && (op.Open? ==> op.o != 0) && (op.Fork? ==> |s.procs| < NPROC)
  }

  function Step(s: Kern, op: Op): Kern
    requires Enabled(s, op)
  {
    match op
    case Open(p, fd, o) => DoOpen(s, p, fd, o)
    case Close(p, fd) => DoClose(s, p, fd)
    case Exec(p, fd) => DoExec(s, p, fd)
    case Fork(p, ok) => DoFork(s, p, ok)
    case Exit(p) => DoExit(s, p)
  }

  // ----- The invariant

  predicate Counted(s: Kern, o: Obj) { Total(s.procs)[o] <= s.Ref(o) && (o !in s.open ==> s.Ref(o) == 0) }

  /** Every object has at least as many references as entries that name it, and none when it is closed. */
  ghost predicate Inv(s: Kern) { forall o :: o != 0 ==> Counted(s, o) }

  // ----- Counting entries

  function Ones(b: bool): nat { if b then 1 else 0 }

  lemma RowUpdate(row: seq<Obj>, fd: nat, x: Obj, o: Obj)
    requires fd < |row|
    ensures multiset(row[fd := x])[o] == multiset(row)[o] - Ones(row[fd] == o) + Ones(x == o)
  {
    var a, b := row[..fd], row[fd + 1..];
    assert row == a + [row[fd]] + b && row[fd := x] == a + [x] + b;
  }

  lemma {:induction false} TotalUpdate(procs: seq<seq<Obj>>, p: nat, row: seq<Obj>, o: Obj)
    requires p < |procs|
    ensures Total(procs[p := row])[o] + multiset(procs[p])[o] == Total(procs)[o] + multiset(row)[o]
    decreases |procs|
  {
    var n := |procs| - 1;
    if p == n {
      assert procs[p := row][..n] == procs[..n];
    } else {
      assert procs[p := row][..n] == procs[..n][p := row];
      TotalUpdate(procs[..n], p, row, o);
    }
  }

  lemma TotalPush(procs: seq<seq<Obj>>, row: seq<Obj>)
    ensures Total(procs + [row]) == Total(procs) + multiset(row)
  {
    assert (procs + [row])[..|procs|] == procs;
  }

  lemma EntryUpdate(s: Kern, p: nat, fd: nat, x: Obj, o: Obj)
    requires ValidFd(s, p, fd)
    ensures Total(SetFd(s, p, fd, x).procs)[o] == Total(s.procs)[o] - Ones(s.procs[p][fd] == o) + Ones(x == o)
  {
    RowUpdate(s.procs[p], fd, x, o);
    TotalUpdate(s.procs, p, s.procs[p][fd := x], o);
  }

  lemma {:induction false} EntryCounts(procs: seq<seq<Obj>>, p: nat, o: Obj)
    requires p < |procs|
    ensures multiset(procs[p])[o] <= Total(procs)[o]
    decreases |procs|
  {
    if p < |procs| - 1 { EntryCounts(procs[..|procs| - 1], p, o); }
  }

  lemma NullsCount(n: nat, o: Obj)
    requires o != 0
    ensures multiset(Nulls(n))[o] == 0
  {
    assert o !in Nulls(n);
  }

  lemma RowSnoc(row: seq<Obj>, o: Obj)
    requires row != []
    ensures multiset(row)[o] == multiset(row[..|row| - 1])[o] + Ones(row[|row| - 1] == o)
  {
    assert row == row[..|row| - 1] + [row[|row| - 1]];
  }

  lemma {:induction false} RefAllCounts(s: Kern, row: seq<Obj>, o: Obj)
    requires o != 0
    ensures RefAll(s, row).Ref(o) == s.Ref(o) + multiset(row)[o] && RefAll(s, row).open == s.open
    ensures RefAll(s, row).procs == s.procs
    decreases |row|
  {
    if row != [] {
      RefAllCounts(s, row[..|row| - 1], o);
      RowSnoc(row, o);
    }
  }

  /** Closing a row of entries drops as many references, and closes an object exactly when the last one goes. */
  lemma {:induction false} CloseAllCounts(s: Kern, row: seq<Obj>, o: Obj)
    requires o != 0 && multiset(row)[o] <= s.Ref(o) && (o !in s.open ==> s.Ref(o) == 0)
    ensures var s' := CloseAll(s, row);
            && s'.Ref(o) == s.Ref(o) - multiset(row)[o] && s'.procs == s.procs
            && (o in s'.open <==> o in s.open && (multiset(row)[o] == 0 || s'.Ref(o) > 0))
    decreases |row|
  {
    if row != [] {
      RowSnoc(row, o);
      CloseAllCounts(s, row[..|row| - 1], o);
    }
  }

  // ----- Every operation keeps it

  lemma ForkKeeps(s: Kern, p: int, ok: bool, o: Obj)
    requires 0 <= p < |s.procs| && o != 0 && Counted(s, o)
    ensures Counted(DoFork(s, p, ok), o)
    ensures (!ok ==> DoFork(s, p, ok).Ref(o) == s.Ref(o) && (o in DoFork(s, p, ok).open <==> o in s.open))
  {
    var row := s.procs[p];
    RefAllCounts(s, row, o);
    EntryCounts(s.procs, p, o);
    if ok {
      TotalPush(s.procs, row);
    } else {
      CloseAllCounts(RefAll(s, row), row, o);
      TotalPush(s.procs, Nulls(|row|));
      NullsCount(|row|, o);
    }
  }

  lemma ExitKeeps(s: Kern, p: int, o: Obj)
    requires 0 <= p < |s.procs| && o != 0 && Counted(s, o)
    ensures Counted(DoExit(s, p), o)
  {
    EntryCounts(s.procs, p, o);
    CloseAllCounts(s, s.procs[p], o);
    TotalUpdate(s.procs, p, Nulls(|s.procs[p]|), o);
    NullsCount(|s.procs[p]|, o);
  }

  lemma StepKeeps(s: Kern, op: Op)
    requires Inv(s) && Enabled(s, op)
    ensures Inv(Step(s, op))
  {
    hide Total;
    var s' := Step(s, op);
    forall o | o != 0 ensures Counted(s', o) {
      assert Counted(s, o);
      match op {
        case Open(p, fd, x) => if ValidFd(s, p, fd) { assert Counted(s, x); EntryUpdate(s, p, fd, x, o); }
        case Close(p, fd) => if ValidFd(s, p, fd) { EntryUpdate(s, p, fd, 0, o); }
        case Exec(p, fd) => if ValidFd(s, p, fd) { EntryUpdate(s, p, fd, 0, o); }
        case Fork(p, ok) => ForkKeeps(s, p, ok, o);
        case Exit(p) => ExitKeeps(s, p, o);
      }
    }
  }

  // ----- What each operation does, on entries, counts and open objects

  /** Of all entries, just that of `fd` in the table of `p` is different, and now `o`. */
  ghost predicate EntrySet(s: Kern, t: Kern, p: int, fd: int, o: Obj)
    requires ValidFd(s, p, fd)
  {
    && |t.procs| == |s.procs| && |t.procs[p]| == |s.procs[p]| && t.procs[p][fd] == o
    && (forall q :: 0 <= q < |s.procs| && q != p ==> t.procs[q] == s.procs[q])
    && (forall j :: 0 <= j < |s.procs[p]| && j != fd ==> t.procs[p][j] == s.procs[p][j])
  }

  /** Of all counts and open objects, at most those of `o` are different. */
  ghost predicate OthersKept(s: Kern, t: Kern, o: Obj) {
    forall x :: x != o ==> t.Ref(x) == s.Ref(x) && (x in t.open <==> x in s.open)
  }

  lemma OpenEffect(s: Kern, p: int, fd: int, o: Obj)
    requires 0 <= p < |s.procs| && o != 0
    ensures var t := Step(s, Open(p, fd, o));
            if !(0 <= fd < |s.procs[p]|) || o in s.open then t == s
            else EntrySet(s, t, p, fd, o) && t.Ref(o) == 1 && o in t.open && OthersKept(s, t, o)
  {
  }

  lemma CloseEffect(s: Kern, p: int, fd: int)
    requires Inv(s) && 0 <= p < |s.procs|
    ensures var t := Step(s, Close(p, fd));
            if !(0 <= fd < |s.procs[p]|) || s.procs[p][fd] == 0 then t == s
            else
              var o := s.procs[p][fd];
              && EntrySet(s, t, p, fd, 0) && OthersKept(s, t, o)
              && s.Ref(o) > 0 && t.Ref(o) == s.Ref(o) - 1 && (o in t.open <==> t.Ref(o) > 0)
  {
    hide Total, Inv;
    if 0 <= fd < |s.procs[p]| && s.procs[p][fd] != 0 { NamedHasRef(s, p, fd); }
  }

  lemma NamedHasRef(s: Kern, p: int, fd: int)
    requires Inv(s) && ValidFd(s, p, fd) && s.procs[p][fd] != 0
    ensures s.Ref(s.procs[p][fd]) > 0 && s.procs[p][fd] in s.open
  {
    var o := s.procs[p][fd];
    assert Counted(s, o);
    EntryCounts(s.procs, p, o);
    assert o in multiset(s.procs[p]);
  }

  lemma ExecEffect(s: Kern, p: int, fd: int)
    requires 0 <= p < |s.procs|
    ensures var t := Step(s, Exec(p, fd));
            if !(0 <= fd < |s.procs[p]|) || s.procs[p][fd] == 0 then t == s
            else EntrySet(s, t, p, fd, 0) && t.refcnt == s.refcnt && t.open == s.open
  {
  }

  /**
   A fork that succeeds gives the child the same entries, with a reference for each; one that fails
   leaves a struct with no entries, and all counts and open objects as they were.
   */
  lemma ForkEffect(s: Kern, p: int, ok: bool, o: Obj)
    requires Inv(s) && 0 <= p < |s.procs| < NPROC && o != 0
    ensures var t := Step(s, Fork(p, ok));
            && (ok ==> t.procs == s.procs + [s.procs[p]] && t.open == s.open)
            && (ok ==> t.Ref(o) == s.Ref(o) + multiset(s.procs[p])[o])
            && (!ok ==> |t.procs| == |s.procs| + 1 && t.procs[..|s.procs|] == s.procs
                        && (forall j :: 0 <= j < |t.procs[|s.procs|]| ==> t.procs[|s.procs|][j] == 0)
                        && t.Ref(o) == s.Ref(o) && (o in t.open <==> o in s.open))
  {
    assert Counted(s, o);
    RefAllCounts(s, s.procs[p], o);
    ForkKeeps(s, p, ok, o);
  }

  /** Exit clears the table; each entry gives up its reference, and an object with none left is closed. */
  lemma ExitEffect(s: Kern, p: int, o: Obj)
    requires Inv(s) && 0 <= p < |s.procs| && o != 0
    ensures var t := Step(s, Exit(p));
            && |t.procs| == |s.procs| && (forall j :: 0 <= j < |t.procs[p]| ==> t.procs[p][j] == 0)
            && (forall q :: 0 <= q < |s.procs| && q != p ==> t.procs[q] == s.procs[q])
            && t.Ref(o) == s.Ref(o) - multiset(s.procs[p])[o]
            && (o in t.open <==> o in s.open && (o !in s.procs[p] || t.Ref(o) > 0))
  {
    assert Counted(s, o);
    EntryCounts(s.procs, p, o);
    CloseAllCounts(s, s.procs[p], o);
    assert o in s.procs[p] <==> multiset(s.procs[p])[o] > 0;
  }

  predicate IsRun(s: Kern, ops: seq<Op>, s': Kern)
    decreases |ops|
  {
    if ops == [] then s == s' else Enabled(s, ops[0]) && IsRun(Step(s, ops[0]), ops[1..], s')
  }

  lemma {:induction false} RunKeeps(s: Kern, ops: seq<Op>, s': Kern)
    requires Inv(s) && IsRun(s, ops, s')
    ensures Inv(s')
    decreases |ops|
  {
    if ops != [] {
      StepKeeps(s, ops[0]);
      RunKeeps(Step(s, ops[0]), ops[1..], s');
    }
  }

  /** procmgr_init: one process, with an empty table, and none of the objects open. */
  function Start(objs: set<Obj>): Kern { Kern([Nulls(IOMAX)], map o | o in objs :: 0, {}) }

  lemma StartIsOk(objs: set<Obj>)
    ensures Inv(Start(objs))
  {
    forall o | o != 0 ensures Counted(Start(objs), o) {
      TotalPush([], Nulls(IOMAX));
      NullsCount(IOMAX, o);
    }
  }

  /** After any run no descriptor dangles: every object named in any table is open and has a reference for it. */
  lemma NoneDangles(objs: set<Obj>, ops: seq<Op>, s: Kern, p: nat, fd: nat)
    requires IsRun(Start(objs), ops, s) && ValidFd(s, p, fd) && s.procs[p][fd] != 0
    ensures s.procs[p][fd] in s.open && s.Ref(s.procs[p][fd]) >= Total(s.procs)[s.procs[p][fd]] >= 1
  {
    StartIsOk(objs);
    RunKeeps(Start(objs), ops, s);
    var o := s.procs[p][fd];
    assert Counted(s, o);
    EntryCounts(s.procs, p, o);
    assert o in multiset(s.procs[p]);
  }

  /** The close operation runs only when no table names the object any more. */
  lemma ClosedWhenUnnamed(s: Kern, op: Op, o: Obj)
    requires Inv(s) && Enabled(s, op) && o != 0 && o in s.open && o !in Step(s, op).open
    ensures Total(Step(s, op).procs)[o] == 0
  {
    StepKeeps(s, op);
    assert Counted(Step(s, op), o);
  }

  /** What open hands out is named by no table, so a slot still in use is never reused. */
  lemma OpenIsFresh(s: Kern, o: Obj)
    requires Inv(s) && o != 0 && o !in s.open
    ensures Total(s.procs)[o] == 0
  {
    assert Counted(s, o);
  }

  /** Counting does not look at the tables. */
  lemma {:induction false} ProcsApart(s: Kern, row: seq<Obj>, procs: seq<seq<Obj>>)
    ensures CloseAll(s.(procs := procs), row) == CloseAll(s, row).(procs := procs)
    decreases |row|
  {
    if row != [] { ProcsApart(s, row[..|row| - 1], procs); }
  }
}
