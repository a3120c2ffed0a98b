/**
 The system calls on descriptors (syscall.c, process.c, io.h) as they run: every I/O object keeps its own
 count and its own mark of being open, files are found and closed by the file system, and the tables
 are arrays. Each call is proved to take the step of the descriptor state machine.
 */
module Processes {
  import opened Descriptors
  import Block
  import Kfs
  import Layout

  const EINVAL := 1
  const EBUSY := 2
  const EBADFD := 9
  const EMFILE := 10

  /** A device that can be opened: a UART is busy while it has references, a disk while it is marked open. */
  datatype Device = Uart(refcnt: nat) | Disk(inUse: bool, refcnt: nat)
  {
    predicate Busy() { if Uart? then refcnt != 0 else inUse }

    function Count(n: nat): Device { this.(refcnt := n) }

    /** What the open and close functions of the driver leave. */
    function Opened(): Device { if Uart? then Uart(1) else Disk(true, 1) }

    function Closed(): Device { if Uart? then this else this.(inUse := false) }
  }

  // Objects 1 to 32 are the io_intf of the file slots, those after them of the devices.
  function RefOf(files: seq<Kfs.FileStruct>, devs: seq<Device>, o: Obj): int
    requires 0 < o <= |files| + |devs|
  {
    if o <= |files| then files[o - 1].refcnt else devs[o - 1 - |files|].refcnt
  }

  predicate OpenOf(files: seq<Kfs.FileStruct>, devs: seq<Device>, o: Obj)
    requires 0 < o <= |files| + |devs|
  {
    if o <= |files| then files[o - 1].flags != 0 else devs[o - 1 - |files|].Busy()
  }

  function Refs(files: seq<Kfs.FileStruct>, devs: seq<Device>): map<Obj, int> {
    map o | 0 < o <= |files| + |devs| :: RefOf(files, devs, o)
  }

  function Opens(files: seq<Kfs.FileStruct>, devs: seq<Device>): set<Obj> {
    set o | 0 < o <= |files| + |devs| && OpenOf(files, devs, o)
  }

  /** The tables of the first `n` processes, from one array of all entries. */
  function Rows(tab: seq<Obj>, n: nat): (rows: seq<seq<Obj>>)
    requires n * IOMAX <= |tab|
    ensures |rows| == n && forall p :: 0 <= p < n ==> rows[p] == Row(tab, p)
  {
    seq(n, p requires 0 <= p < n => Row(tab, p))
  }

  function Row(tab: seq<Obj>, p: nat): (row: seq<Obj>)
    requires (p + 1) * IOMAX <= |tab|
    ensures |row| == IOMAX && forall j :: 0 <= j < IOMAX ==> row[j] == tab[p * IOMAX + j]
  {
    tab[p * IOMAX..(p + 1) * IOMAX]
  }

  lemma RefIs(files: seq<Kfs.FileStruct>, devs: seq<Device>, o: Obj)
    requires 0 < o <= |files| + |devs|
    ensures o in Refs(files, devs) && Refs(files, devs)[o] == RefOf(files, devs, o)
    ensures o in Opens(files, devs) <==> OpenOf(files, devs, o)
  {
  }

  lemma PutFile(files: seq<Kfs.FileStruct>, devs: seq<Device>, i: nat, f: Kfs.FileStruct)
    requires i < |files|
    ensures Refs(files[i := f], devs) == Refs(files, devs)[i + 1 := f.refcnt]
    ensures Opens(files[i := f], devs) ==
            if f.flags != 0 then Opens(files, devs) + {i + 1} else Opens(files, devs) - {i + 1}
  {
    var files' := files[i := f];
    forall o | 0 < o <= |files| + |devs| && o != i + 1 ensures
      RefOf(files', devs, o) == RefOf(files, devs, o) && OpenOf(files', devs, o) == OpenOf(files, devs, o) {}
  }

  lemma PutDevice(files: seq<Kfs.FileStruct>, devs: seq<Device>, k: nat, d: Device)
    requires k < |devs|
    ensures var o := |files| + 1 + k;
            && Refs(files, devs[k := d]) == Refs(files, devs)[o := d.refcnt]
            && Opens(files, devs[k := d]) == if d.Busy() then Opens(files, devs) + {o} else Opens(files, devs) - {o}
  {
    var devs', x := devs[k := d], |files| + 1 + k;
    forall o | 0 < o <= |files| + |devs| && o != x ensures
      RefOf(files, devs', o) == RefOf(files, devs, o) && OpenOf(files, devs', o) == OpenOf(files, devs, o) {}
  }

  lemma PutEntry(tab: seq<Obj>, n: nat, p: nat, fd: nat, o: Obj)
    requires n * IOMAX <= |tab| && p < n && fd < IOMAX
    ensures Rows(tab[p * IOMAX + fd := o], n) == Rows(tab, n)[p := Row(tab, p)[fd := o]]
  {
    var tab' := tab[p * IOMAX + fd := o];
    forall q | 0 <= q < n ensures Row(tab', q) == if q == p then Row(tab, p)[fd := o] else Row(tab, q) {
      forall j | 0 <= j < IOMAX ensures Row(tab', q)[j] == if q == p && j == fd then o else Row(tab, q)[j] {}
    }
  }

  /** Entries past the first `n` tables do not matter to them. */
  lemma RowsSame(tab: seq<Obj>, tab': seq<Obj>, n: nat)
    requires n * IOMAX <= |tab| == |tab'| && tab[..n * IOMAX] == tab'[..n * IOMAX]
    ensures Rows(tab', n) == Rows(tab, n)
  {
    forall q | 0 <= q < n ensures Row(tab', q) == Row(tab, q) {
      forall j | 0 <= j < IOMAX ensures Row(tab', q)[j] == Row(tab, q)[j] {
        assert tab[q * IOMAX + j] == tab[..n * IOMAX][q * IOMAX + j];
        assert tab'[q * IOMAX + j] == tab'[..n * IOMAX][q * IOMAX + j];
      }
    }
  }

  lemma RowsPush(tab: seq<Obj>, n: nat)
    requires (n + 1) * IOMAX <= |tab|
    ensures Rows(tab, n + 1) == Rows(tab, n) + [Row(tab, n)]
  {
  }

  /** The entries when the first `j` of `row` have been stored from `base` on. */
  function Stored(tab: seq<Obj>, base: nat, row: seq<Obj>, j: nat): seq<Obj>
    requires j <= |row| && base + |row| <= |tab|
  {
    tab[..base] + row[..j] + tab[base + j..]
  }

  lemma StoredNext(tab: seq<Obj>, base: nat, row: seq<Obj>, j: nat)
    requires j < |row| && base + |row| <= |tab|
    ensures |Stored(tab, base, row, j)| == |tab|
    ensures Stored(tab, base, row, j)[base + j := row[j]] == Stored(tab, base, row, j + 1)
    ensures forall k :: 0 <= k < base ==> Stored(tab, base, row, j)[k] == tab[k]
  {
  }

  lemma StoredNothing(tab: seq<Obj>, base: nat, row: seq<Obj>)
    requires base + |row| <= |tab|
    ensures Stored(tab, base, row, 0) == tab
  {
  }

  lemma RefNothing(s: Kern, row: seq<Obj>)
    ensures RefAll(s, row[..0]) == s
  {
  }

  lemma StoredRow(tab: seq<Obj>, n: nat, row: seq<Obj>)
    requires (n + 1) * IOMAX <= |tab| && |row| == IOMAX
    ensures |Stored(tab, n * IOMAX, row, IOMAX)| == |tab| && Row(Stored(tab, n * IOMAX, row, IOMAX), n) == row
  {
  }

  /** Exit, when the first `i` entries of process `p` have been closed and cleared. */
  ghost function Exiting(s: Kern, p: nat, i: nat): Kern
    requires p < |s.procs| && i <= |s.procs[p]|
  {
    CloseAll(s, s.procs[p][..i]).(procs := s.procs[p := Nulls(i) + s.procs[p][i..]])
  }

  lemma ExitingEnds(s: Kern, p: nat)
    requires p < |s.procs|
    ensures Exiting(s, p, 0) == s && Exiting(s, p, |s.procs[p]|) == DoExit(s, p)
  {
    var row := s.procs[p];
    assert row[..0] == [] && Nulls(0) + row[0..] == row;
    assert row[..|row|] == row && Nulls(|row|) + row[|row|..] == Nulls(|row|);
  }

  lemma ExitingNext(s: Kern, p: nat, i: nat)
    requires p < |s.procs| && i < |s.procs[p]|
    ensures var k, o := Exiting(s, p, i), s.procs[p][i];
            && ValidFd(k, p, i) && k.procs[p][i] == o
            && Exiting(s, p, i + 1) == if o == 0 then k else SetFd(IoClose(k, o), p, i, 0)
  {
    hide CloseAll;
    var row := s.procs[p];
    var o := row[i];
    CloseSnoc(s, row, i);
    ProcsApart1(CloseAll(s, row[..i]), o, s.procs[p := Nulls(i) + row[i..]]);
    assert (Nulls(i) + row[i..])[i := 0] == Nulls(i + 1) + row[i + 1..];
    if o == 0 { assert Nulls(i) + row[i..] == Nulls(i + 1) + row[i + 1..]; }
  }

  lemma CloseSnoc(s: Kern, row: seq<Obj>, i: nat)
    requires i < |row|
    ensures var s1 := CloseAll(s, row[..i]);
              CloseAll(s, row[..i + 1]) == if row[i] == 0 then s1 else IoClose(s1, row[i])
  {
    assert row[..i + 1][..i] == row[..i];
  }

  lemma RefSnoc(s: Kern, row: seq<Obj>, i: nat)
    requires i < |row|
    ensures var s1 := RefAll(s, row[..i]); RefAll(s, row[..i + 1]) == if row[i] == 0 then s1 else IoRef(s1, row[i])
  {
    assert row[..i + 1][..i] == row[..i];
  }

  /** Closed objects have no references. */
  ghost predicate Tidy(s: Kern) { forall o :: o != 0 && o !in s.open ==> s.Ref(o) == 0 }

  /** Every object named in row `p` has a reference, and is there. */
  lemma NamedIsKnown(s: Kern, p: nat)
    requires Inv(s) && p < |s.procs|
    ensures forall j :: 0 <= j < |s.procs[p]| && s.procs[p][j] != 0 ==> s.Ref(s.procs[p][j]) > 0
  {
    forall j | 0 <= j < |s.procs[p]| && s.procs[p][j] != 0 ensures s.Ref(s.procs[p][j]) > 0 {
      var o := s.procs[p][j];
      assert Counted(s, o);
      EntryCounts(s.procs, p, o);
      assert o in multiset(s.procs[p]);
    }
  }

  class ProcessTable {
    const fs: Kfs.FileSystem
    const devs: array<Device>
    const iotab: array<Obj>          // the tables of all processes, one after the other
    var nproc: nat                   // process structs made so far

    ghost function View(): Kern
      reads this, fs, fs.files, devs, iotab
      requires nproc * IOMAX <= iotab.Length
    {
      Kern(Rows(iotab[..], nproc), Refs(fs.files[..], devs[..]), Opens(fs.files[..], devs[..]))
    }

    /** An object that is there. */
    predicate Known(o: Obj)
      reads this, fs, fs.files, devs
    {
      0 < o <= fs.files.Length + devs.Length
    }

    ghost predicate Valid()
      reads this, fs, fs.dev, fs.files, devs, iotab
    {
      && fs.Valid() && !fs.locked && !fs.dev.locked
      && iotab.Length == NPROC * IOMAX && 1 <= nproc <= NPROC
      && iotab as object != fs.files && iotab as object != devs && devs as object != fs.files
      && iotab as object != fs.dev.blkbuf && devs as object != fs.dev.blkbuf
      && forall k :: 0 <= k < nproc * IOMAX ==> iotab[k] == 0 || Known(iotab[k])
    }

    /** procmgr_init, with no file and no device open. */
    constructor (fsys: Kfs.FileSystem, devices: array<Device>)
      requires fsys.Valid() && !fsys.locked && !fsys.dev.locked
      requires forall i :: 0 <= i < fsys.files.Length ==> fsys.files[i].flags == 0 && fsys.files[i].refcnt == 0
      requires forall k :: 0 <= k < devices.Length ==> !devices[k].Busy() && devices[k].refcnt == 0
      requires devices as object != fsys.files && devices as object != fsys.dev.blkbuf
      ensures Valid() && fs == fsys && devs == devices && fresh(iotab)
      ensures View() == Start(View().refcnt.Keys)
    {
      fs, devs := fsys, devices;
      iotab := new Obj[NPROC * IOMAX](_ => 0);
      nproc := 1;
      new;
      assert Row(iotab[..], 0) == Nulls(IOMAX);
    }

    /** The entry of `fd` in the table of process `p`. */
    function Slot(p: nat, fd: nat): nat { p * IOMAX + fd }

    /** Storing in one entry. */
    method SetEntry(p: nat, fd: nat, o: Obj)
      requires Valid() && p < nproc && fd < IOMAX && (o == 0 || Known(o))
      modifies iotab
      ensures Valid() && View() == SetFd(old(View()), p, fd, o)
    {
      ghost var tab0 := iotab[..];
      PutEntry(tab0, nproc, p, fd, o);
      iotab[Slot(p, fd)] := o;
      assert iotab[..] == tab0[Slot(p, fd) := o];
    }

    /** ioref, of an object in use. */
    method Reference(o: Obj)
      requires Valid() && Known(o) && View().Ref(o) > 0
      modifies fs.files, devs
      ensures Valid() && View() == IoRef(old(View()), o)
    {
      ghost var files0, devs0 := fs.files[..], devs[..];
      if o <= fs.files.Length {
        var f := fs.files[o - 1];
        SetFile(o - 1, f.(refcnt := f.refcnt + 1));
      } else {
        var k := o - 1 - fs.files.Length;
        SetDevice(k, devs[k].Count(devs[k].refcnt + 1));
      }
    }

    /** A change of a file slot that leaves the file it stands for. */
    method SetFile(i: nat, f: Kfs.FileStruct)
      requires Valid() && i < fs.files.Length && f == fs.files[i].(refcnt := f.refcnt)
      modifies fs.files
      ensures Valid() && View().procs == old(View().procs) && View().refcnt == old(View().refcnt)[i + 1 := f.refcnt]
      ensures View().open == old(View().open)
      ensures fs.files[..] == old(fs.files[..])[i := f]
    {
      ghost var files0 := fs.files[..];
      assert Kfs.FileOk(fs.meta, fs.files[i]);
      PutFile(files0, devs[..], i, f);
      fs.files[i] := f;
      assert fs.files[..] == files0[i := f];
    }

    method SetDevice(k: nat, d: Device)
      requires Valid() && k < devs.Length
      modifies devs
      ensures Valid() && View().procs == old(View().procs) && devs[k] == d
      ensures var o := fs.files.Length + 1 + k;
              && View().refcnt == old(View().refcnt)[o := d.refcnt]
              && View().open == if d.Busy() then old(View().open) + {o} else old(View().open) - {o}
    {
      ghost var devs0 := devs[..];
      PutDevice(fs.files[..], devs0, k, d);
      devs[k] := d;
      assert devs[..] == devs0[k := d];
    }

    /**
     ioclose: one reference less; the object's close function runs, and the object is closed, exactly
     when that was the last one.
     */
    method Release(o: Obj) returns (closed: bool)
      requires Valid() && Known(o) && (o !in View().open ==> View().Ref(o) == 0)
      modifies fs.files, devs
      ensures Valid() && View() == IoClose(old(View()), o)
      ensures closed <==> old(View().Ref(o)) == 1
      ensures closed <==> o in old(View().open) && o !in View().open
    {
      if o <= fs.files.Length {
        closed := ReleaseFile(o - 1);
      } else {
        closed := ReleaseDevice(o - 1 - fs.files.Length);
      }
    }

    /** ioclose of an open file. */
    method ReleaseFile(i: nat) returns (closed: bool)
      requires Valid() && i < fs.files.Length && (i + 1 !in View().open ==> View().Ref(i + 1) == 0)
      modifies fs.files
      ensures Valid() && View() == IoClose(old(View()), i + 1)
      ensures closed <==> old(View().Ref(i + 1)) == 1
      ensures closed <==> i + 1 in old(View().open) && i + 1 !in View().open
    {
      hide Refs, Opens, Rows;
      closed := false;
      var f := fs.files[i];
      RefIs(fs.files[..], devs[..], i + 1);
      if f.refcnt == 0 { return; }
      SetFile(i, f.(refcnt := f.refcnt - 1));
      if f.refcnt - 1 == 0 {
        CloseFile(i);
        closed := true;
      }
    }

    /** ioclose of a device. */
    method ReleaseDevice(k: nat) returns (closed: bool)
      requires Valid() && k < devs.Length
      requires fs.files.Length + 1 + k !in View().open ==> View().Ref(fs.files.Length + 1 + k) == 0
      modifies devs
      ensures Valid() && View() == IoClose(old(View()), fs.files.Length + 1 + k)
      ensures closed <==> old(View().Ref(fs.files.Length + 1 + k)) == 1
      ensures closed <==> fs.files.Length + 1 + k in old(View().open) && fs.files.Length + 1 + k !in View().open
    {
      hide Refs, Opens, Rows;
      closed := false;
      var d := devs[k];
      RefIs(fs.files[..], devs[..], fs.files.Length + 1 + k);
      if d.refcnt == 0 { return; }
      d := d.Count(d.refcnt - 1);
      if d.refcnt == 0 {
        d := d.Closed();
        closed := true;
      }
      SetDevice(k, d);
    }

    /** The close function of files. */
    method CloseFile(i: nat)
      requires Valid() && i < fs.files.Length
      modifies fs.files
      ensures Valid() && View() == old(View()).(open := old(View().open) - {i + 1})
    {
      ghost var files0 := fs.files[..];
      ghost var f := fs.files[i].(flags := 0);
      PutFile(files0, devs[..], i, f);
      fs.Close(i);
      assert fs.files[..] == files0[i := f];
    }

    /** A file system is mounted that has a free slot and a file of the name. */
    ghost predicate CanOpen(name: seq<Block.byte>)
      requires fs.Valid()
      reads fs, fs.dev, fs.files
    {
      fs.initialized && (exists i :: 0 <= i < Kfs.MAXOPEN && fs.files[i].flags == 0) && !Kfs.NoneNamed(fs.meta, name)
    }

    /** fs_open: it marks the first slot not in use, with one reference. */
    method OpenFile(name: seq<Block.byte>) returns (r: int, slot: int)
      requires Valid()
      modifies fs`inode, fs`locked, fs.dev`pos, fs.dev`locked, fs.dev.blkbuf, fs.files
      ensures Valid() && r == if old(CanOpen(name)) then 0 else -1
      ensures r != 0 ==> View() == old(View())
      ensures r == 0 ==> 0 <= slot < fs.files.Length && slot + 1 !in old(View().open)
      ensures r == 0 ==> forall x :: 1 <= x < slot + 1 ==> x in old(View().open)
      ensures r == 0 ==> View().procs == old(View().procs) && View().open == old(View().open) + {slot + 1}
      ensures r == 0 ==> View().refcnt == old(View().refcnt)[slot + 1 := 1]
    {
      hide Kfs.FirstNamed, Kfs.NoneNamed;
      ghost var files0 := fs.files[..];
      ghost var d;
      r, slot, d := fs.Open(name);
      if r == 0 { PutFile(files0, devs[..], slot, fs.files[slot]); }
    }

    // ----- System calls

    /** sysclose */
    method SysClose(p: nat, fd: int) returns (r: int)
      requires Valid() && Inv(View()) && p < nproc
      modifies fs.files, devs, iotab
      ensures Valid() && View() == DoClose(old(View()), p, fd) && Inv(View())
      ensures r == if 0 <= fd < IOMAX && old(View()).procs[p][fd] != 0 then 0 else -EBADFD
      ensures r != 0 ==> View() == old(View())
      ensures r == 0 ==>
                var o := old(View()).procs[p][fd];
                && EntrySet(old(View()), View(), p, fd, 0) && OthersKept(old(View()), View(), o)
                && View().Ref(o) == old(View()).Ref(o) - 1 && (o in View().open <==> View().Ref(o) > 0)
    {
      hide Inv, Total, EntrySet, OthersKept;
      CloseEffect(View(), p, fd);
      StepKeeps(View(), Close(p, fd));
      if fd < 0 || fd >= IOMAX || iotab[Slot(p, fd)] == 0 { return -EBADFD; }
      var o := iotab[Slot(p, fd)];
      InvIsTidy(View(), o);
      var _ := Release(o);
      SetEntry(p, fd, 0);
      r := 0;
    }

    /** sysexec up to process_exec, which is given the object */
    method SysExec(p: nat, fd: int) returns (r: int, o: Obj)
      requires Valid() && Inv(View()) && p < nproc
      modifies iotab
      ensures Valid() && View() == DoExec(old(View()), p, fd) && Inv(View())
      ensures r == if 0 <= fd < IOMAX && old(View()).procs[p][fd] != 0 then 0 else -EBADFD
      ensures r == 0 ==> o in View().open && Total(View().procs)[o] < View().Ref(o)
      ensures r == 0 ==> o == old(View()).procs[p][fd] && EntrySet(old(View()), View(), p, fd, 0)
      ensures View().refcnt == old(View()).refcnt && View().open == old(View()).open
    {
      hide Inv, Total, EntrySet;
      o := 0;
      ExecEffect(View(), p, fd);
      StepKeeps(View(), Exec(p, fd));
      if fd < 0 || fd >= IOMAX || iotab[Slot(p, fd)] == 0 { return -EBADFD, 0; }
      o := iotab[Slot(p, fd)];
      InvIsCounted(View(), o);
      EntryUpdate(View(), p, fd, 0, o);
      SetEntry(p, fd, 0);
      r := 0;
    }

    /**
     sysfsopen: the file system chooses the slot, the first that is not in use, and no table named it
     before. `nameOk`: the name pointer is valid.
     */
    method SysFsOpen(p: nat, fd: int, name: seq<Block.byte>, nameOk: bool) returns (r: int, ghost o: Obj)
      requires Valid() && Inv(View()) && p < nproc
      modifies fs`inode, fs`locked, fs.dev`pos, fs.dev`locked, fs.dev.blkbuf, fs.files, iotab
      ensures Valid() && Inv(View())
      ensures r == if !(0 <= fd < IOMAX) then -EMFILE else if nameOk && old(CanOpen(name)) then 0 else -1
      ensures r != 0 ==> View() == old(View())
      ensures r == 0 ==> 1 <= o <= fs.files.Length && View() == DoOpen(old(View()), p, fd, o)
      ensures r == 0 ==> EntrySet(old(View()), View(), p, fd, o) && OthersKept(old(View()), View(), o)
      ensures r == 0 ==> View().Ref(o) == 1 && o in View().open
      ensures r == 0 ==> o !in old(View().open) && Total(old(View().procs))[o] == 0
      ensures r == 0 ==> forall x :: 1 <= x < o ==> x in old(View().open)
    {
      hide Inv, Total;
      o := 0;
      if fd < 0 || fd >= IOMAX { return -EMFILE, 0; }
      if !nameOk { return -EINVAL, 0; }
      ghost var s := View();
      var e, slot := OpenFile(name);
      if e < 0 { return e, 0; }
      o := slot + 1;
      OpenIsFresh(s, o);
      OpenEffect(s, p, fd, o);
      StepKeeps(s, Open(p, fd, o));
      SetEntry(p, fd, slot + 1);
      r := 0;
    }

    /** sysdevopen. `k`: the device that name and instance lead to, or the error of finding none. */
    method SysDevOpen(p: nat, fd: int, k: int, nameOk: bool) returns (r: int)
      requires Valid() && Inv(View()) && p < nproc && k < devs.Length
      modifies devs, iotab
      ensures Valid() && Inv(View())
      ensures r == if !(0 <= fd < IOMAX) then -EMFILE
                   else if !nameOk then -EINVAL
                   else if k < 0 then k
                   else if fs.files.Length + 1 + k in old(View().open) then -EBUSY
                   else 0
      ensures r != 0 ==> View() == old(View())
      ensures r == 0 ==> View() == DoOpen(old(View()), p, fd, fs.files.Length + 1 + k)
      ensures r == 0 ==> fs.files.Length + 1 + k !in old(View().open)
      ensures r == 0 ==>
                var o := fs.files.Length + 1 + k;
                && EntrySet(old(View()), View(), p, fd, o) && OthersKept(old(View()), View(), o)
                && View().Ref(o) == 1 && o in View().open
      ensures r == 0 ==> Total(old(View().procs))[fs.files.Length + 1 + k] == 0
      ensures k >= 0 ==>
                var d := old(devs[k]);
                var busy := if d.Uart? then d.refcnt != 0 else d.inUse;
                && (0 <= fd < IOMAX && nameOk ==> (r == -EBUSY <==> busy))
                && (r == 0 ==> devs[k] == if d.Uart? then Uart(1) else Disk(true, 1))
    {
      hide Inv, Total;
      if fd < 0 || fd >= IOMAX { return -EMFILE; }
      if !nameOk { return -EINVAL; }
      if k < 0 { return k; }
      if devs[k].Busy() { return -EBUSY; }
      ghost var s, o := View(), fs.files.Length + 1 + k;
      OpenIsFresh(s, o);
      OpenEffect(s, p, fd, o);
      StepKeeps(s, Open(p, fd, o));
      SetDevice(k, devs[k].Opened());
      SetEntry(p, fd, fs.files.Length + 1 + k);
      r := 0;
    }

    /** An entry of the table of the process being made, which does not count yet. */
    method SetChild(j: nat, o: Obj)
      requires Valid() && nproc < NPROC && j < IOMAX
      modifies iotab
      ensures Valid() && View() == old(View()) && iotab[..] == old(iotab[..])[nproc * IOMAX + j := o]
    {
      ghost var tab0 := iotab[..];
      iotab[Slot(nproc, j)] := o;
      assert iotab[..] == tab0[nproc * IOMAX + j := o];
      RowsSame(tab0, iotab[..], nproc);
    }

    /** The turn of sysfork's loop for entry `j`. */
    method CopyEntry(p: nat, j: nat) returns (o: Obj)
      requires Valid() && p < nproc < NPROC && j < IOMAX
      requires iotab[p * IOMAX + j] != 0 ==> View().Ref(iotab[p * IOMAX + j]) > 0
      modifies fs.files, devs, iotab
      ensures Valid() && o == old(iotab[p * IOMAX + j]) && iotab[..] == old(iotab[..])[nproc * IOMAX + j := o]
      ensures View() == if o == 0 then old(View()) else IoRef(old(View()), o)
    {
      o := iotab[Slot(p, j)];
      if o != 0 { Reference(o); }
      SetChild(j, o);
    }

    /** The descriptor loop of sysfork: the child's table, past the others. */
    method CopyTable(p: nat)
      requires Valid() && Inv(View()) && p < nproc < NPROC
      modifies fs.files, devs, iotab
      ensures Valid() && View() == RefAll(old(View()), old(View()).procs[p])
      ensures Row(iotab[..], nproc) == old(View()).procs[p]
    {
      hide Inv, Refs, Opens, RefAll, Stored;
      ghost var s, tab0, base := View(), iotab[..], nproc * IOMAX;
      ghost var row := s.procs[p];
      NamedIsKnown(s, p);
      StoredNothing(tab0, base, row);
      RefNothing(s, row);
      for j := 0 to IOMAX
        invariant Valid() && View() == RefAll(s, row[..j]) && iotab[..] == Stored(tab0, base, row, j)
      {
        StoredNext(tab0, base, row, j);
        assert iotab[..][p * IOMAX + j] == tab0[p * IOMAX + j] == row[j];
        if row[j] != 0 { RefAllCounts(s, row[..j], row[j]); }
        RefSnoc(s, row, j);
        var o := CopyEntry(p, j);
      }
      assert row[..IOMAX] == row;
      StoredRow(tab0, nproc, row);
    }

    /** memset of the child: its table is empty. */
    method ClearChild()
      requires Valid() && nproc < NPROC
      modifies iotab
      ensures Valid() && View() == old(View()) && Row(iotab[..], nproc) == Nulls(IOMAX)
    {
      hide Refs, Opens, Stored;
      ghost var tab0, base := iotab[..], nproc * IOMAX;
      StoredNothing(tab0, base, Nulls(IOMAX));
      for j := 0 to IOMAX
        invariant Valid() && View() == old(View()) && iotab[..] == Stored(tab0, base, Nulls(IOMAX), j)
      {
        StoredNext(tab0, base, Nulls(IOMAX), j);
        SetChild(j, 0);
      }
      StoredRow(tab0, nproc, Nulls(IOMAX));
    }

    /** The closing loop of a failed fork: the references taken for the child go. */
    method ReleaseRow(p: nat)
      requires Valid() && p < nproc && Tidy(View())
      modifies fs.files, devs
      ensures Valid() && View() == CloseAll(old(View()), old(View()).procs[p])
    {
      hide Refs, Opens;
      ghost var s := View();
      ghost var row := s.procs[p];
      for j := 0 to IOMAX
        invariant Valid() && View() == CloseAll(s, row[..j]) && Tidy(View()) && iotab[..] == old(iotab[..])
      {
        var o := iotab[Slot(p, j)];
        assert o == row[j];
        ghost var s1 := View();
        if o != 0 {
          var _ := Release(o);
          CloseTidy(s1, o);
        }
        CloseSnoc(s, row, j);
      }
      assert row[..IOMAX] == row;
    }

    /**
     sysfork; `ok` says whether thread_fork_to_user succeeds. Then the child has the same entries, with a
     reference for each; otherwise no entry and no count is different.
     */
    method SysFork(p: nat, ok: bool)
      requires Valid() && Inv(View()) && p < nproc < NPROC
      modifies this`nproc, fs.files, devs, iotab
      ensures Valid() && View() == DoFork(old(View()), p, ok) && Inv(View())
      ensures View().procs == old(View()).procs + [if ok then old(View()).procs[p] else seq(IOMAX, _ => 0)]
      ensures forall o :: o != 0 ==> ForkCounts(old(View()), View(), p, ok, o)
    {
      hide Inv, Refs, Opens, ForkCounts;
      ghost var s := View();
      ForkLaws(s, p, ok);
      ForkTables(p, ok);
    }

    method ForkTables(p: nat, ok: bool)
      requires Valid() && Inv(View()) && p < nproc < NPROC
      modifies this`nproc, fs.files, devs, iotab
      ensures Valid() && View() == DoFork(old(View()), p, ok)
    {
      hide Inv, Refs, Opens, RefAll, CloseAll;
      ghost var s := View();
      RefAllCounts(s, s.procs[p], 1);
      CopyTable(p);
      if ok {
        AddProcess(s.procs[p]);
      } else {
        ClearChild();
        NamedIsKnown(s, p);
        RefAllTidy(s, s.procs[p]);
        AddProcess(Nulls(IOMAX));
        ProcsApart(RefAll(s, s.procs[p]), s.procs[p], s.procs + [Nulls(IOMAX)]);
        ReleaseRow(p);
      }
    }

    /** The new process counts from now on. */
    method AddProcess(ghost row: seq<Obj>)
      requires Valid() && nproc < NPROC && Row(iotab[..], nproc) == row
      requires forall j :: 0 <= j < IOMAX ==> row[j] == 0 || Known(row[j])
      modifies this`nproc
      ensures Valid() && View() == old(View()).(procs := old(View()).procs + [row])
    {
      RowsPush(iotab[..], nproc);
      assert forall k :: nproc * IOMAX <= k < (nproc + 1) * IOMAX ==> iotab[k] == row[k - nproc * IOMAX];
      nproc := nproc + 1;
    }

    /** process_exit up to thread_exit */
    method ProcessExit(p: nat)
      requires Valid() && Inv(View()) && p < nproc
      modifies fs.files, devs, iotab
      ensures Valid() && View() == DoExit(old(View()), p) && Inv(View())
      ensures View().procs == old(View()).procs[p := seq(IOMAX, _ => 0)]
      ensures forall o :: o != 0 ==> ExitCounts(old(View()), View(), p, o)
    {
      hide Inv, Refs, Opens, Exiting, CloseAll;
      ghost var s := View();
      StepKeeps(s, Exit(p));
      forall o | o != 0 ensures ExitCounts(s, DoExit(s, p), p, o) { ExitEffect(s, p, o); }
      InvTidy(s);
      ExitingEnds(s, p);
      for i := 0 to IOMAX
        invariant Valid() && Tidy(View()) && View() == Exiting(s, p, i)
      {
        ExitingNext(s, p, i);
        var o := iotab[Slot(p, i)];
        ghost var s1 := View();
        assert o == s1.procs[p][i];
        if o != 0 {
          var _ := Release(o);
          CloseTidy(s1, o);
          SetEntry(p, i, 0);
        }
      }
    }

    // ----- Runs of system calls

    /** One system call takes one step of the state machine, or none when it fails. */
    method Execute(call: Call) returns (ghost ops: seq<Op>)
      requires Valid() && Inv(View()) && call.p < nproc && (call.ForkOf? ==> nproc < NPROC)
      requires call.DevOpen? ==> call.k < devs.Length
      modifies this`nproc, fs`inode, fs`locked, fs.dev`pos, fs.dev`locked, fs.dev.blkbuf, fs.files, devs, iotab
      ensures Valid() && Inv(View()) && IsRun(old(View()), ops, View()) && Follows(call, ops)
      ensures call.FsOpen? ==> (ops != [] <==> 0 <= call.fd < IOMAX && call.nameOk && old(CanOpen(call.name)))
      ensures call.DevOpen? ==>
                (ops != [] <==> && 0 <= call.fd < IOMAX && call.nameOk && call.k >= 0
                                && fs.files.Length + 1 + call.k !in old(View().open))
      ensures nproc == old(nproc) + if call.ForkOf? then 1 else 0
    {
      hide Inv, Total, IsRun, Refs, Opens;
      ghost var s := View();
      ops := [];
      NoSteps(s);
      match call {
        case FsOpen(p, fd, name, nameOk) =>
          var r, o := SysFsOpen(p, fd, name, nameOk);
          if r == 0 { ops := OneStep(s, Open(p, fd, o)); }
        case DevOpen(p, fd, k, nameOk) =>
          var r := SysDevOpen(p, fd, k, nameOk);
          if r == 0 { ops := OneStep(s, Open(p, fd, fs.files.Length + 1 + k)); }
        case CloseFd(p, fd) =>
          var _ := SysClose(p, fd);
          ops := OneStep(s, Close(p, fd));
        case ExecFd(p, fd) =>
          var _, _ := SysExec(p, fd);
          ops := OneStep(s, Exec(p, fd));
        case ForkOf(p, ok) =>
          SysFork(p, ok);
          ops := OneStep(s, Fork(p, ok));
        case ExitOf(p) =>
          ProcessExit(p);
          ops := OneStep(s, Exit(p));
      }
    }

    /**
     Any sequence of system calls runs as the state machine does. Calls of processes that are not there,
     and forks when all processes have been made, do not come about.
     */
    method RunAll(calls: seq<Call>) returns (ghost ops: seq<Op>, ghost log: seq<seq<Op>>)
      requires Valid() && Inv(View())
      requires forall i :: 0 <= i < |calls| && calls[i].DevOpen? ==> calls[i].k < devs.Length
      modifies this`nproc, fs`inode, fs`locked, fs.dev`pos, fs.dev`locked, fs.dev.blkbuf, fs.files, devs, iotab
      ensures Valid() && Inv(View()) && IsRun(old(View()), ops, View())
      ensures |log| == |calls| && ops == Joined(log)
      ensures forall i :: 0 <= i < |calls| ==>
                Follows(calls[i], log[i]) || (log[i] == [] && (calls[i].ForkOf? || calls[i].p >= old(nproc)))
    {
      hide Inv, IsRun, Follows;
      ops, log := [], [];
      NoSteps(View());
      for i := 0 to |calls|
        invariant Valid() && Inv(View()) && IsRun(old(View()), ops, View()) && nproc >= old(nproc)
        invariant |log| == i && ops == Joined(log)
        invariant forall j :: 0 <= j < i ==>
                    Follows(calls[j], log[j]) || (log[j] == [] && (calls[j].ForkOf? || calls[j].p >= old(nproc)))
      {
        ghost var more := [];
        if calls[i].p < nproc && (calls[i].ForkOf? ==> nproc < NPROC) {
          ghost var s := View();
          more := Execute(calls[i]);
          RunsJoin(old(View()), ops, s, more, View());
        }
        assert more == [] ==> ops + more == ops;
        ops := ops + more;
        assert (log + [more])[..i] == log;
        log := log + [more];
      }
    }
  }

  /** A system call of process `p`. */
  datatype Call =
    | FsOpen(p: nat, fd: int, name: seq<Block.byte>, nameOk: bool)
    | DevOpen(p: nat, fd: int, k: int, nameOk: bool)
    | CloseFd(p: nat, fd: int)
    | ExecFd(p: nat, fd: int)
    | ForkOf(p: nat, ok: bool)
    | ExitOf(p: nat)

  /** The steps a system call comes to. */
  predicate Follows(call: Call, ops: seq<Op>) {
    match call
    case FsOpen(p, fd, _, _) => ops == [] || (|ops| == 1 && ops[0].Open? && ops[0].p == p && ops[0].fd == fd)
    case DevOpen(p, fd, k, _) => ops == [] || ops == [Open(p, fd, Kfs.MAXOPEN + 1 + k)]
    case CloseFd(p, fd) => ops == [Close(p, fd)]
    case ExecFd(p, fd) => ops == [Exec(p, fd)]
    case ForkOf(p, ok) => ops == [Fork(p, ok)]
    case ExitOf(p) => ops == [Exit(p)]
  }

  function Joined(log: seq<seq<Op>>): seq<Op> {
    if log == [] then [] else Joined(log[..|log| - 1]) + log[|log| - 1]
  }

  lemma NoSteps(s: Kern)
    ensures IsRun(s, [], s)
  {
  }

  lemma OneStep(s: Kern, op: Op) returns (ops: seq<Op>)
    requires Enabled(s, op)
    ensures ops == [op] && IsRun(s, ops, Step(s, op))
  {
    ops := [op];
    assert ops[1..] == [];
  }

  lemma {:induction false} RunsJoin(s: Kern, ops: seq<Op>, s1: Kern, more: seq<Op>, s2: Kern)
    requires IsRun(s, ops, s1) && IsRun(s1, more, s2)
    ensures IsRun(s, ops + more, s2)
    decreases |ops|
  {
    hide Step, Enabled;
    if ops == [] {
      assert ops + more == more;
    } else {
      assert (ops + more)[1..] == ops[1..] + more;
      RunsJoin(Step(s, ops[0]), ops[1..], s1, more, s2);
    }
  }

  ghost predicate ForkCounts(s: Kern, t: Kern, p: nat, ok: bool, o: Obj)
    requires p < |s.procs|
  {
    && t.Ref(o) == s.Ref(o) + (if ok then multiset(s.procs[p])[o] else 0)
    && (o in t.open <==> o in s.open)
  }

  lemma ForkLaws(s: Kern, p: nat, ok: bool)
    requires Inv(s) && p < |s.procs| < NPROC && |s.procs[p]| == IOMAX
    ensures var t := DoFork(s, p, ok);
            && Inv(t) && t.procs == s.procs + [if ok then s.procs[p] else seq(IOMAX, _ => 0)]
            && forall o :: o != 0 ==> ForkCounts(s, t, p, ok, o)
  {
    hide Inv;
    StepKeeps(s, Fork(p, ok));
    ForkEffect(s, p, ok, 1);
    forall o | o != 0 ensures ForkCounts(s, DoFork(s, p, ok), p, ok, o) { ForkEffect(s, p, ok, o); }
  }

  /** What exit leaves of object `o`. */
  ghost predicate ExitCounts(s: Kern, t: Kern, p: nat, o: Obj)
    requires p < |s.procs|
  {
    && t.Ref(o) == s.Ref(o) - multiset(s.procs[p])[o]
    && (o in t.open <==> o in s.open && (o !in s.procs[p] || t.Ref(o) > 0))
  }

  lemma CloseTidy(s: Kern, o: Obj)
    requires Tidy(s)
    ensures Tidy(IoClose(s, o))
  {
  }

  lemma InvTidy(s: Kern)
    requires Inv(s)
    ensures Tidy(s)
  {
    forall o | o != 0 && o !in s.open ensures s.Ref(o) == 0 { assert Counted(s, o); }
  }

  lemma ProcsApart1(s: Kern, o: Obj, procs: seq<seq<Obj>>)
    ensures IoClose(s.(procs := procs), o) == IoClose(s, o).(procs := procs)
  {
  }

  lemma RefAllTidy(s: Kern, row: seq<Obj>)
    requires Inv(s) && forall j :: 0 <= j < |row| && row[j] != 0 ==> s.Ref(row[j]) > 0
    ensures Tidy(RefAll(s, row))
  {
    InvTidy(s);
    forall o | o != 0 && o !in RefAll(s, row).open ensures RefAll(s, row).Ref(o) == 0 {
      RefAllCounts(s, row, o);
      forall j | 0 <= j < |row| ensures row[j] != o {}
      assert o !in multiset(row);
    }
  }

  lemma InvIsTidy(s: Kern, o: Obj)
    requires Inv(s) && o != 0
    ensures o !in s.open ==> s.Ref(o) == 0
  {
    assert Counted(s, o);
  }

  lemma InvIsCounted(s: Kern, o: Obj)
    requires Inv(s) && o != 0 && exists p, fd :: ValidFd(s, p, fd) && s.procs[p][fd] == o
    ensures o in s.open && 0 < Total(s.procs)[o] <= s.Ref(o)
  {
    var p, fd :| ValidFd(s, p, fd) && s.procs[p][fd] == o;
    assert Counted(s, o);
    EntryCounts(s.procs, p, o);
    assert o in multiset(s.procs[p]);
  }

  /**
   From the start: a disk with an image, the file system on it, mounted, and devices that nobody uses.
   After any sequence of system calls no descriptor dangles: every object named in any table is open,
   by its own mark, with a reference for each entry.
   */
  method FromStart(contents: seq<Block.byte>, ghost m: seq<Block.byte>, devices: array<Device>, calls: seq<Call>)
      returns (pt: ProcessTable, ghost objs: set<Obj>, ghost ops: seq<Op>)
    requires Layout.Image(m, |contents|) && m <= contents
    requires forall k :: 0 <= k < devices.Length ==> !devices[k].Busy() && devices[k].refcnt == 0
    requires forall i :: 0 <= i < |calls| && calls[i].DevOpen? ==> calls[i].k < devices.Length
    modifies devices
    ensures pt.Valid() && IsRun(Start(objs), ops, pt.View())
    ensures forall p, fd {:trigger pt.View().procs[p][fd]} ::
              ValidFd(pt.View(), p, fd) && pt.View().procs[p][fd] != 0 ==>
                var o := pt.View().procs[p][fd];
                o in pt.View().open && 0 < Total(pt.View().procs)[o] <= pt.View().Ref(o)
  {
    hide Inv, Total, IsRun, Layout.Image;
    Layout.ImageSize(m, |contents|);
    var dev := new Block.Device(contents, false);
    var fs := new Kfs.FileSystem(dev);
    var _ := fs.Mount(m);
    pt := new ProcessTable(fs, devices);
    objs := pt.View().refcnt.Keys;
    StartIsOk(objs);
    ghost var log;
    ops, log := pt.RunAll(calls);
    forall p, fd | ValidFd(pt.View(), p, fd) && pt.View().procs[p][fd] != 0
      ensures var o := pt.View().procs[p][fd];
              o in pt.View().open && 0 < Total(pt.View().procs)[o] <= pt.View().Ref(o)
    {
      InvIsCounted(pt.View(), pt.View().procs[p][fd]);
    }
  }
}
