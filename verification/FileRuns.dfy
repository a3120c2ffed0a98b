/**
 The file system over whole runs: any sequence of open, close, read, write and seek acts on a plain
 table of byte sequences.
 */
module FileRuns {
  import opened Block
  import opened Layout
  import opened Kfs
  import opened Chains

  /** What the files hold, and the table of open files. */
  datatype State = State(bytes: seq<seq<byte>>, files: seq<FileStruct>)

  datatype Op =
    | Open(name: seq<byte>)
    | Close(io: int)
    | Read(io: int, n: nat)
    | Write(io: int, b: seq<byte>)
    | Seek(io: int, p: nat)

  /** First free slot from `i` on. */
  function FreeSlot(files: seq<FileStruct>, i: nat): (k: nat)
    requires i <= |files|
    ensures i <= k <= |files| && (k < |files| ==> files[k].flags == 0) && forall j :: i <= j < k ==> files[j].flags != 0
  {
    var free := j => 0 <= j < |files| && files[j].flags == 0;
    var k := First(i, |files|, free);
    assert forall j :: i <= j < k ==> files[j].flags != 0 by {
      forall j | i <= j < k ensures files[j].flags != 0 { assert !free(j); }
    }
    k
  }

  /** First directory entry with the name, from `i` on. */
  function Entry(m: seq<byte>, name: seq<byte>, i: nat): (k: nat)
    requires IsMeta(m) && i <= NumDentry(m)
    ensures i <= k <= NumDentry(m) && (k < NumDentry(m) ==> Named(m, k, name))
    ensures forall j :: i <= j < k ==> !Named(m, j, name)
  {
    var named := j => 0 <= j < NumDentry(m) && Named(m, j, name);
    var k := First(i, NumDentry(m), named);
    assert forall j :: i <= j < k ==> !Named(m, j, name) by {
      forall j | i <= j < k ensures !Named(m, j, name) { assert !named(j); }
    }
    k
  }

  predicate InUse(s: State, io: int) { 0 <= io < |s.files| && s.files[io].flags != 0 }

  /** Open files are files there are, at positions within them. */
  predicate Ok(s: State) {
    forall io :: 0 <= io < |s.files| && InUse(s, io) ==>
      var f := s.files[io]; f.inode < |s.bytes| && f.size == |s.bytes[f.inode]| && f.pos <= f.size
  }

  /** How many bytes a transfer of `n` bytes moves. */
  function Moved(f: FileStruct, n: nat): nat
    requires f.pos <= f.size
  {
    Min(n, f.size - f.pos)
  }

  /** One operation on byte sequences; `m` is the directory. */
  function Do(m: seq<byte>, s: State, op: Op): State
    requires IsMeta(m) && |s.bytes| == NumInodes(m) && Ok(s)
  {
    match op
    case Open(name) =>
      var slot, d := FreeSlot(s.files, 0), Entry(m, name, 0);
      if slot == |s.files| || d == NumDentry(m) then s
      else s.(files := s.files[slot := FileStruct(0, |s.bytes[DentryInode(m, d)]|, DentryInode(m, d), 1, 1)])
    case Close(io) => if 0 <= io < |s.files| then s.(files := s.files[io := s.files[io].(flags := 0)]) else s
    case Read(io, n) =>
      if !InUse(s, io) then s else
      var f := s.files[io];
      s.(files := s.files[io := f.(pos := f.pos + Moved(f, n))])
    case Write(io, b) =>
      if !InUse(s, io) then s else
      var f := s.files[io];
      var k := Moved(f, |b|);
      State(s.bytes[f.inode := Splice(s.bytes[f.inode], f.pos, b[..k])], s.files[io := f.(pos := f.pos + k)])
    case Seek(io, p) =>
      if !InUse(s, io) || p > s.files[io].size then s else s.(files := s.files[io := s.files[io].(pos := p)])
  }

  /** What a read returns. */
  function Result(s: State, op: Op): seq<byte>
    requires Ok(s)
  {
    if op.Read? && InUse(s, op.io) then
      var f := s.files[op.io];
      s.bytes[f.inode][f.pos..f.pos + Moved(f, op.n)]
    else []
  }

  function Run(m: seq<byte>, s: State, ops: seq<Op>): (s': State)
    requires IsMeta(m) && |s.bytes| == NumInodes(m) && Ok(s)
    ensures Ok(s') && |s'.bytes| == |s.bytes| && forall i :: 0 <= i < |s.bytes| ==> |s'.bytes[i]| == |s.bytes[i]|
    decreases |ops|
  {
    if ops == [] then s else
    DoKeeps(m, s, ops[0]);
    Run(m, Do(m, s, ops[0]), ops[1..])
  }

  lemma DoKeeps(m: seq<byte>, s: State, op: Op)
    requires IsMeta(m) && |s.bytes| == NumInodes(m) && Ok(s)
    ensures var s' := Do(m, s, op);
            Ok(s') && |s'.bytes| == |s.bytes| && forall i :: 0 <= i < |s.bytes| ==> |s'.bytes[i]| == |s.bytes[i]|
  {
    hide Named, CString, FreeSlot, Entry, Word;
    var s' := Do(m, s, op);
    forall io | InUse(s', io) ensures
      var f := s'.files[io]; f.inode < |s'.bytes| && f.size == |s'.bytes[f.inode]| && f.pos <= f.size
    {
      if s'.files[io] == s.files[io] { assert InUse(s, io); }
    }
  }

  // ----- Laws of such runs

  /** The file a step writes; -1 when it writes none. */
  function Writes(s: State, op: Op): int { if op.Write? && InUse(s, op.io) then s.files[op.io].inode else -1 }

  predicate NeverWrites(m: seq<byte>, s: State, ops: seq<Op>, i: nat)
    requires IsMeta(m) && |s.bytes| == NumInodes(m) && Ok(s)
    decreases |ops|
  {
    ops == [] || (DoKeeps(m, s, ops[0]); Writes(s, ops[0]) != i && NeverWrites(m, Do(m, s, ops[0]), ops[1..], i))
  }

  /** A file changes only through writes on a handle for it. */
  lemma {:induction false} Untouched(m: seq<byte>, s: State, ops: seq<Op>, i: nat)
    requires IsMeta(m) && |s.bytes| == NumInodes(m) && Ok(s) && i < |s.bytes| && NeverWrites(m, s, ops, i)
    ensures Run(m, s, ops).bytes[i] == s.bytes[i]
    decreases |ops|
  {
    if ops != [] {
      DoKeeps(m, s, ops[0]);
      assert Do(m, s, ops[0]).bytes[i] == s.bytes[i];
      Untouched(m, Do(m, s, ops[0]), ops[1..], i);
    }
  }

  /** Writing, seeking back and reading returns what was written, as far as the file has room for it. */
  lemma ReadBackWrites(m: seq<byte>, s: State, io: int, b: seq<byte>)
    requires IsMeta(m) && |s.bytes| == NumInodes(m) && Ok(s) && InUse(s, io)
    ensures var f := s.files[io];
            var s1 := Do(m, s, Write(io, b));
            && Ok(s1) && Ok(Do(m, s1, Seek(io, f.pos)))
            && Result(Do(m, s1, Seek(io, f.pos)), Read(io, |b|)) == b[..Moved(f, |b|)]
  {
    var f := s.files[io];
    DoKeeps(m, s, Write(io, b));
    var s1 := Do(m, s, Write(io, b));
    DoKeeps(m, s1, Seek(io, f.pos));
    var s2 := Do(m, s1, Seek(io, f.pos));
    assert s2.files[io].pos == f.pos && s2.bytes[f.inode] == Splice(s.bytes[f.inode], f.pos, b[..Moved(f, |b|)]);
  }

  // ----- The code runs this way

  ghost function AllBytes(m: seq<byte>, d: seq<byte>): (r: seq<seq<byte>>)
    requires Image(m, |d|)
    ensures |r| == NumInodes(m) && forall i :: 0 <= i < |r| ==> r[i] == FileBytes(m, d, i)
  {
    seq(NumInodes(m), i requires 0 <= i < NumInodes(m) => FileBytes(m, d, i))
  }

  ghost function View(fs: FileSystem): State
    reads fs, fs.dev, fs.files
    requires fs.Mounted()
  {
    State(AllBytes(fs.meta, fs.dev.disk), fs.files[..])
  }

  /** A mounted, writable file system, with no lock held. */
  ghost predicate Serving(fs: FileSystem) reads fs, fs.dev, fs.files {
    fs.Valid() && fs.initialized && !fs.locked && !fs.dev.locked && !fs.dev.readonly
  }

  lemma ServingOk(fs: FileSystem)
    requires Serving(fs)
    ensures IsMeta(fs.meta) && Ok(View(fs)) && |View(fs).bytes| == NumInodes(fs.meta)
    ensures forall io :: 0 <= io < MAXOPEN && fs.files[io].flags != 0 ==> fs.files[io].pos <= fs.files[io].size < TWO32
  {
    forall io | 0 <= io < MAXOPEN && fs.files[io].flags != 0 ensures
      var f := fs.files[io];
      f.inode < NumInodes(fs.meta) && f.size == |FileBytes(fs.meta, fs.dev.disk, f.inode)| && f.pos <= f.size < TWO32
    {
      assert FileOk(fs.meta, fs.files[io]);
      SizeBound(fs.meta, |fs.dev.disk|, fs.files[io].inode);
    }
  }

  /** A transfer that cannot wrap, at any position of any file. */
  predicate Small(op: Op) { (op.Read? ==> op.n <= TWO64 - TWO32) && (op.Write? ==> |op.b| <= TWO64 - TWO32) }

  /** A handle no call accepts is passed on as the null handle. */
  function Handle(io: int): int { if 0 <= io < MAXOPEN then io else -1 }

  /** Each call acts on the byte sequences as specified, and a read returns the bytes specified. */
  method Execute(fs: FileSystem, op: Op) returns (got: seq<byte>)
    requires Serving(fs) && Small(op)
    modifies fs`inode, fs`locked, fs.dev, fs.dev.blkbuf, fs.files
    ensures Serving(fs) && IsMeta(fs.meta) && old(Ok(View(fs)) && |View(fs).bytes| == NumInodes(fs.meta))
    ensures View(fs) == Do(fs.meta, old(View(fs)), op) && got == Result(old(View(fs)), op)
  {
    ServingOk(fs);
    got := [];
    match op {
      case Open(name) => DoOpen(fs, name);
      case Close(io) => fs.Close(io); assert fs.files[..] == Do(fs.meta, old(View(fs)), op).files;
      case Read(io, n) => got := DoRead(fs, io, n);
      case Write(io, b) => DoWrite(fs, io, b);
      case Seek(io, p) => DoSeek(fs, io, p);
    }
  }

  method DoOpen(fs: FileSystem, name: seq<byte>)
    requires Serving(fs) && IsMeta(fs.meta) && Ok(View(fs)) && |View(fs).bytes| == NumInodes(fs.meta)
    modifies fs`inode, fs`locked, fs.dev, fs.dev.blkbuf, fs.files
    ensures Serving(fs) && View(fs) == Do(fs.meta, old(View(fs)), Open(name))
  {
    hide Image, Size, FileBytes, Named;
    ghost var s := View(fs);
    ghost var k, e := FreeSlot(s.files, 0), Entry(fs.meta, name, 0);
    var r, slot, d := fs.Open(name);
    if r == 0 { BytesSize(fs.meta, fs.dev.disk, DentryInode(fs.meta, d)); }
  }

  lemma BytesSize(m: seq<byte>, d: seq<byte>, i: nat)
    requires Image(m, |d|) && i < NumInodes(m)
    ensures |FileBytes(m, d, i)| == Size(m, i)
  {
  }

  method DoRead(fs: FileSystem, io: int, n: nat) returns (got: seq<byte>)
    requires Serving(fs) && IsMeta(fs.meta) && Ok(View(fs)) && |View(fs).bytes| == NumInodes(fs.meta)
    requires n <= TWO64 - TWO32
    modifies fs`inode, fs`locked, fs.dev, fs.dev.blkbuf, fs.files
    ensures Serving(fs) && View(fs) == Do(fs.meta, old(View(fs)), Read(io, n))
    ensures got == Result(old(View(fs)), Read(io, n))
  {
    hide Image, Size, FileBytes;
    ServingOk(fs);
    ghost var s := View(fs);
    var r;
    r, got := fs.Read(Handle(io), n);
    assert InUse(s, io) ==> Min(s.files[io].pos + n, s.files[io].size) == s.files[io].pos + Moved(s.files[io], n);
  }

  method DoWrite(fs: FileSystem, io: int, b: seq<byte>)
    requires Serving(fs) && IsMeta(fs.meta) && Ok(View(fs)) && |View(fs).bytes| == NumInodes(fs.meta)
    requires |b| <= TWO64 - TWO32
    modifies fs`inode, fs`locked, fs.dev, fs.dev.blkbuf, fs.files
    ensures Serving(fs) && View(fs) == Do(fs.meta, old(View(fs)), Write(io, b))
  {
    hide Image, Size, FileBytes, Splice, Overwrite;
    ServingOk(fs);
    var r := fs.Write(Handle(io), b);
  }

  method DoSeek(fs: FileSystem, io: int, p: nat)
    requires Serving(fs) && IsMeta(fs.meta) && Ok(View(fs)) && |View(fs).bytes| == NumInodes(fs.meta)
    modifies fs`locked, fs.files
    ensures Serving(fs) && View(fs) == Do(fs.meta, old(View(fs)), Seek(io, p))
  {
    hide Image, Size, FileBytes;
    ghost var s := View(fs);
    if 0 <= io < MAXOPEN { var _, _ := fs.Ioctl(io, SetPos(p), false); }
    assert fs.files[..] == Do(fs.meta, s, Seek(io, p)).files;
  }

  /** Any sequence of calls runs as on byte sequences. */
  method RunAll(fs: FileSystem, ops: seq<Op>)
    requires Serving(fs) && forall k :: 0 <= k < |ops| ==> Small(ops[k])
    modifies fs`inode, fs`locked, fs.dev, fs.dev.blkbuf, fs.files
    ensures Serving(fs) && IsMeta(fs.meta) && old(Ok(View(fs)) && |View(fs).bytes| == NumInodes(fs.meta))
    ensures View(fs) == Run(fs.meta, old(View(fs)), ops)
    decreases |ops|
  {
    ServingOk(fs);
    if ops != [] {
      var _ := Execute(fs, ops[0]);
      RunAll(fs, ops[1..]);
    }
  }
}
