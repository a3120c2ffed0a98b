/**
 The file system (kfs.c) over the block driver: open, close, read, write and seek, proved to act on
 each file as on one byte sequence.
 */
module Kfs {
  import opened Block
  import opened Layout

  const MAXOPEN := 32
  const ENOTSUP := 3
  const TWO64 := 0x1_0000_0000_0000_0000

  datatype FileStruct = FileStruct(pos: nat, size: nat, inode: nat, flags: nat, refcnt: nat)

  datatype Cmd = GetLen | GetPos | SetPos(p: nat) | GetBlksz | Other

  /** The C string in a field: the bytes before the first NUL. */
  function CString(s: seq<byte>): (r: seq<byte>)
    ensures |r| <= |s| && r == s[..|r|] && 0 !in r && (|r| < |s| ==> s[|r|] == 0)
  {
    if s == [] || s[0] == 0 then [] else [s[0]] + CString(s[1..])
  }

  /** Directory entry `i` has the name `name`, as far as the first 32 characters go. */
  predicate Named(m: seq<byte>, i: nat, name: seq<byte>)
    requires i < 63 && |m| >= BLK
  {
    CString(NameField(m, i)) == name[..Min(NAMELEN, |name|)]
  }

  /** Entry `i` is the first with the name. */
  predicate FirstNamed(m: seq<byte>, i: nat, name: seq<byte>)
    requires IsMeta(m)
  {
    i < NumDentry(m) && Named(m, i, name) && forall j :: 0 <= j < i ==> !Named(m, j, name)
  }

  predicate NoneNamed(m: seq<byte>, name: seq<byte>)
    requires IsMeta(m)
  {
    forall j :: 0 <= j < NumDentry(m) ==> !Named(m, j, name)
  }

  /** The file struct for a file just opened by directory entry `d`. */
  function NewFile(m: seq<byte>, d: nat): FileStruct
    requires IsMeta(m) && d < NumDentry(m)
  {
    FileStruct(0, Size(m, DentryInode(m, d)), DentryInode(m, d), 1, 1)
  }

  /** The byte count fs_read and fs_write go by, in 64-bit arithmetic. */
  function Clamp(pos: nat, n: nat, size: nat): nat
    requires pos < size
  {
    if (pos + n) % TWO64 > size then size - pos else n
  }

  /** It stops at the end of the file exactly when the sum of position and count does not wrap. */
  lemma ClampIsExact(pos: nat, n: nat, size: nat)
    requires pos < size < TWO64 && n < TWO64
    ensures Clamp(pos, n, size) == Min(n, size - pos) <==> pos + n < TWO64
  {
    if pos + n >= TWO64 { assert (pos + n) % TWO64 == pos + n - TWO64; }
  }

  lemma WordSlice(m: seq<byte>, a: nat, b: nat, o: nat)
    requires a <= b <= |m| && a + o + 4 <= b
    ensures Word(m[a..b], o) == Word(m, a + o)
  {
  }

  /** An open file is one of the image, at a position within it. */
  ghost predicate FileOk(meta: seq<byte>, f: FileStruct) {
    f.flags != 0 ==> IsMeta(meta) && f.inode < NumInodes(meta) && f.size == Size(meta, f.inode) && f.pos <= f.size
  }

  /** The disk holds an image with `meta` before its data blocks, and `boot` is its boot block. */
  ghost predicate OnDisk(meta: seq<byte>, disk: seq<byte>, boot: seq<byte>) {
    Image(meta, |disk|) && meta <= disk && boot == meta[..BLK]
  }

  lemma SizeBound(m: seq<byte>, n: nat, i: nat)
    requires Image(m, n) && i < NumInodes(m)
    ensures Size(m, i) <= MAXBLOCKS * BLK
  {
  }

  class FileSystem {
    const dev: Device
    var initialized: bool
    var boot: seq<byte>              // boot_block
    const files: array<FileStruct>   // file_structs
    var inode: seq<byte>             // the inode last read
    var locked: bool                 // fs_lock is held
    ghost var meta: seq<byte>        // boot block and inodes on the disk

    ghost predicate Valid() reads this, dev, files {
      && dev.Valid() && files.Length == MAXOPEN && files as object != dev.blkbuf
      && (forall i :: 0 <= i < MAXOPEN ==> FileOk(meta, files[i]))
      && (forall i :: 0 <= i < MAXOPEN && files[i].flags != 0 ==> initialized)
      && (initialized ==> Mounted())
    }

    ghost predicate Mounted() reads this, dev {
      OnDisk(meta, dev.disk, boot) && dev.Valid()
    }

    constructor (device: Device)
      requires device.Valid()
      ensures Valid() && dev == device && fresh(files) && !initialized && !locked
      ensures forall i :: 0 <= i < MAXOPEN ==> files[i].flags == 0 && files[i].refcnt == 0
    {
      dev := device;
      files := new FileStruct[MAXOPEN](_ => FileStruct(0, 0, 0, 0, 0));
      initialized, boot, inode, locked, meta := false, [], [], false, [];
    }

    /** fs_mount, of a device that holds an image; `m` names its boot block and inodes. */
    method Mount(ghost m: seq<byte>) returns (r: int)
      requires Valid() && !dev.locked && Image(m, |dev.disk|) && m <= dev.disk
      modifies this, dev, dev.blkbuf, files
      ensures dev.disk == old(dev.disk) && Valid() && !locked && !dev.locked
      ensures if old(initialized) then r == -1 && meta == old(meta) else r == 0 && initialized && meta == m
      ensures !old(initialized) ==> forall i :: 0 <= i < MAXOPEN ==> files[i].flags == 0 && files[i].refcnt == 0
    {
      locked := false;
      if initialized { return -1; }
      var e := dev.SetPos(0);
      if e != 0 { return -1; }
      boot := dev.Read(BLK);
      initialized := true;
      meta := m;
      assert dev.disk[..BLK] == m[..BLK];
      for i := 0 to MAXOPEN
        modifies files
        invariant Mounted() && forall j :: 0 <= j < i ==> files[j].flags == 0 && files[j].refcnt == 0
      {
        files[i] := FileStruct(0, 0, 0, 0, 0);
      }
      r := 0;
    }

    /** Reads inode `ino` into the inode buffer. */
    method FetchInode(ino: nat) returns (ok: bool)
      requires Mounted() && !dev.locked && ino < NumInodes(meta)
      modifies dev`pos, dev`locked, dev.blkbuf, this`inode
      ensures ok && Mounted() && !dev.locked && inode == meta[BLK * (1 + ino)..BLK * (2 + ino)]
    {
      var offset := (BLK + ino * BLK) % TWO32;
      assert offset == BLK * (1 + ino);
      var e := dev.SetPos(offset);
      if e != 0 { return false; }
      inode := dev.Read(BLK);
      assert dev.disk[offset..offset + BLK] == meta[offset..offset + BLK];
      ok := |inode| == BLK;
    }

    /** The slot search of fs_open. */
    method FindSlot() returns (slot: int)
      requires files.Length == MAXOPEN
      ensures 0 <= slot <= MAXOPEN && (slot < MAXOPEN ==> files[slot].flags == 0)
      ensures forall i :: 0 <= i < slot ==> files[i].flags != 0
    {
      slot := 0;
      while slot < MAXOPEN && files[slot].flags != 0
        invariant 0 <= slot <= MAXOPEN && forall i :: 0 <= i < slot ==> files[i].flags != 0
      {
        slot := slot + 1;
      }
    }

    /** The directory search of fs_open. */
    method FindName(name: seq<byte>) returns (i: nat)
      requires Mounted()
      ensures i <= NumDentry(meta) && if i < NumDentry(meta) then FirstNamed(meta, i, name) else NoneNamed(meta, name)
    {
      WordSlice(meta, 0, BLK, 0);
      i := 0;
      while i < Word(boot, 0)
        invariant i <= NumDentry(meta) && forall j :: 0 <= j < i ==> !Named(meta, j, name)
      {
        assert NameField(boot, i) == NameField(meta, i);
        if CString(NameField(boot, i)) == name[..Min(NAMELEN, |name|)] { return; }
        i := i + 1;
      }
    }

    /** The rest of fs_open, once slot and directory entry are known. */
    method OpenEntry(slot: nat, d: nat) returns (ok: bool)
      requires Valid() && initialized && !dev.locked && slot < MAXOPEN && d < NumDentry(meta)
      modifies this`inode, dev`pos, dev`locked, dev.blkbuf, files
      ensures ok && Valid() && !dev.locked
      ensures files[..] == old(files[..])[slot := NewFile(meta, d)]
    {
      WordSlice(meta, 0, BLK, 64 + 64 * d + NAMELEN);
      var ino := Word(boot, 64 + 64 * d + NAMELEN);
      assert ino == DentryInode(meta, d);
      ok := FetchInode(ino);
      WordSlice(meta, BLK * (1 + ino), BLK * (2 + ino), 0);
      files[slot] := FileStruct(0, Word(inode, 0), ino, 1, 1);
    }

    /**
     fs_open: takes the first free slot for the first entry with the name, at position 0 and with the
     size the inode gives; it fails exactly when there is no file system, slot or entry.
     */
    method Open(name: seq<byte>) returns (r: int, slot: int, ghost d: nat)
      requires Valid() && !locked && !dev.locked
      modifies this`inode, this`locked, dev`pos, dev`locked, dev.blkbuf, files
      ensures Valid() && !locked && !dev.locked && (r == 0 || r == -1)
      ensures r == 0 <==>
                initialized && (exists i :: 0 <= i < MAXOPEN && old(files[i].flags) == 0) && !NoneNamed(meta, name)
      ensures r == 0 ==>
                && 0 <= slot < MAXOPEN && old(files[slot].flags) == 0
                && (forall i :: 0 <= i < slot ==> old(files[i].flags) != 0)
      ensures r == 0 ==> FirstNamed(meta, d, name)
      ensures r == 0 ==>
                var f := files[slot];
                && f.pos == 0 && f.inode == DentryInode(meta, d) && f.size == Size(meta, f.inode)
                && f.flags == 1 && f.refcnt == 1
      ensures files[..] == if r != 0 then old(files[..])
                           else old(files[..])[slot := NewFile(meta, d)]
    {
      locked := true;
      r, slot, d := -1, 0, 0;
      if initialized {
        slot := FindSlot();
        if slot < MAXOPEN {
          var e := FindName(name);
          d := e;
          WordSlice(meta, 0, BLK, 0);
          if e < Word(boot, 0) {
            var ok := OpenEntry(slot, e);
            r := if ok then 0 else -1;
          }
        }
      }
      locked := false;
    }

    /** fs_close */
    method Close(io: int)
      requires Valid()
      modifies files
      ensures Valid()
      ensures forall i :: 0 <= i < MAXOPEN ==> files[i] == if i == io then old(files[i]).(flags := 0) else old(files[i])
    {
      var i := 0;
      while i < MAXOPEN
        invariant 0 <= i <= MAXOPEN && Valid() && !(0 <= io < i)
        invariant forall j :: 0 <= j < MAXOPEN ==> files[j] == old(files[j])
      {
        if i == io {
          files[i] := files[i].(flags := 0);
          break;
        }
        i := i + 1;
      }
    }

    predicate Usable(io: int)
      requires -1 <= io < files.Length
      reads this, files
    {
      io != -1 && files[io].flags != 0 && initialized
    }

    /** Where block `k` of the inode in the buffer is, in 32-bit arithmetic. */
    method DataOffset(ghost ino: nat, k: nat) returns (a: nat)
      requires Mounted() && ino < NumInodes(meta) && inode == meta[BLK * (1 + ino)..BLK * (2 + ino)]
      requires Used(meta, ino, k)
      ensures a == BlockAddr(meta, ino, k)
    {
      WordSlice(meta, 0, BLK, 4);
      WordSlice(meta, BLK * (1 + ino), BLK * (2 + ino), 4 + 4 * k);
      a := (BLK + Word(boot, 4) * BLK + Word(inode, 4 + 4 * k) * BLK) % TWO32;
    }

    /** One turn of the loop of fs_read: the next bytes from the block that holds position `p`. */
    method ReadBlock(ghost ino: nat, p: nat, n: nat) returns (r: int, got: seq<byte>)
      requires Mounted() && !dev.locked && 0 < n && ino < NumInodes(meta) && p + n <= Size(meta, ino)
      requires inode == meta[BLK * (1 + ino)..BLK * (2 + ino)]
      modifies dev`pos, dev`locked, dev.blkbuf
      ensures Mounted() && !dev.locked && r == 0 && 0 < |got| <= n
      ensures got == FileBytes(meta, dev.disk, ino)[p..p + |got|]
    {
      hide Image, Size, BlockAddr, FileBytes, IsMeta, NumInodes, Inside, Used;
      var off := p % BLK;
      var k := Min(n, BLK - off);
      BlockBytes(meta, dev.disk, ino, p, k);
      var at := DataOffset(ino, p / BLK);
      var e := dev.SetPos(at);
      if e != 0 { return -1, []; }
      var block := dev.Read(BLK);
      if |block| != BLK { return -1, []; }
      got := block[off..off + k];
      r := 0;
    }

    /** fs_read on an open file; nothing but its position and buffers change. */
    method ReadOpen(io: nat, n: nat) returns (r: int, got: seq<byte>)
      requires Valid() && !dev.locked && io < MAXOPEN && Usable(io) && files[io].pos + n < TWO64
      modifies this`inode, dev`pos, dev`locked, dev.blkbuf, files
      ensures Valid() && !dev.locked
      ensures var f := old(files[io]);
              && got == FileBytes(meta, dev.disk, f.inode)[f.pos..Min(f.pos + n, f.size)] && r == |got|
              && files[..] == old(files[..])[io := f.(pos := f.pos + |got|)]
    {
      hide Image, Size, IsMeta, NumInodes, FileBytes;
      var f := files[io];
      assert FileOk(meta, f);
      SizeBound(meta, |dev.disk|, f.inode);
      if f.pos >= f.size { return 0, []; }
      var want := Clamp(f.pos, n, f.size);
      ClampIsExact(f.pos, n, f.size);
      var ok := FetchInode(f.inode);
      if !ok { return -1, []; }
      r, got := ReadLoop(f.inode, f.pos, want);
      if r < 0 { return; }
      files[io] := f.(pos := f.pos + r);
    }

    /** The loop of fs_read. */
    method ReadLoop(ino: nat, p0: nat, n: nat) returns (r: int, got: seq<byte>)
      requires Mounted() && !dev.locked && ino < NumInodes(meta) && p0 + n <= Size(meta, ino)
      requires inode == meta[BLK * (1 + ino)..BLK * (2 + ino)]
      modifies dev`pos, dev`locked, dev.blkbuf
      ensures Mounted() && !dev.locked && r == |got| && got == FileBytes(meta, dev.disk, ino)[p0..p0 + n]
    {
      hide Image, Size, IsMeta, NumInodes, FileBytes;
      SizeBound(meta, |dev.disk|, ino);
      ghost var bytes := FileBytes(meta, dev.disk, ino);
      var p := p0;
      got := [];
      while p < p0 + n
        invariant p0 <= p <= p0 + n && got == bytes[p0..p] && Mounted() && !dev.locked
        decreases p0 + n - p
      {
        if p / BLK >= BLK { break; }
        var e, more := ReadBlock(ino, p, p0 + n - p);
        if e != 0 { return -1, []; }
        got := got + more;
        p := p + |more|;
      }
      r := |got|;
    }

    /**
     fs_read: the bytes of the file from its position on, as many as asked for or as there are; the
     position moves past them, and no byte of the disk and no other open file changes.
     */
    method Read(io: int, n: nat) returns (r: int, got: seq<byte>)
      requires Valid() && !locked && !dev.locked && -1 <= io < MAXOPEN && n < TWO64
      requires io != -1 && files[io].flags != 0 ==> files[io].pos + n < TWO64
      modifies this`inode, this`locked, dev`pos, dev`locked, dev.blkbuf, files
      ensures Valid() && !locked && !dev.locked
      ensures !old(Usable(io)) ==> r == -1 && got == [] && files[..] == old(files[..])
      ensures old(Usable(io)) ==>
                var f := old(files[io]);
                && got == FileBytes(meta, dev.disk, f.inode)[f.pos..Min(f.pos + n, f.size)] && r == |got|
                && files[..] == old(files[..])[io := f.(pos := f.pos + |got|)]
    {
      locked := true;
      r, got := -1, [];
      if io != -1 && files[io].flags != 0 && initialized { r, got := ReadOpen(io, n); }
      locked := false;
    }

    /** One turn of the loop of fs_write, inside the block that holds position `p`. */
    method WriteBlock(ghost ino: nat, p: nat, b: seq<byte>) returns (r: int, k: nat)
      requires Mounted() && !dev.locked && b != [] && ino < NumInodes(meta) && p + |b| <= Size(meta, ino)
      requires inode == meta[BLK * (1 + ino)..BLK * (2 + ino)]
      modifies dev, dev.blkbuf
      ensures dev.Valid() && !dev.locked && |dev.disk| == |old(dev.disk)| && Inside(meta, ino, p)
      ensures 0 < k <= |b| && k <= BLK - p % BLK && Addr(meta, ino, p) + k <= |dev.disk|
      ensures if dev.readonly then r == -7 && dev.disk == old(dev.disk)
              else r == 0 && dev.disk == Splice(old(dev.disk), Addr(meta, ino, p), b[..k])
    {
      k := Min(|b|, BLK - p % BLK);
      var at := ByteOffset(ino, p);
      var e := dev.SetPos(at);
      if e != 0 { return -6, k; }
      var w := dev.Write(b[..k]);
      if w != k { return -7, k; }
      r := 0;
    }

    /** Where byte `p` of the file is, in 32-bit arithmetic; the rest of its block is on the disk too. */
    method ByteOffset(ghost ino: nat, p: nat) returns (a: nat)
      requires Mounted() && ino < NumInodes(meta) && p < Size(meta, ino)
      requires inode == meta[BLK * (1 + ino)..BLK * (2 + ino)]
      ensures Inside(meta, ino, p) && a == Addr(meta, ino, p) && a + BLK - p % BLK <= |dev.disk|
    {
      assert Inside(meta, ino, p);
      AddrInside(meta, |dev.disk|, ino, p);
      var base := DataOffset(ino, p / BLK);
      a := (base + p % BLK) % TWO32;
    }

    /** The loop of fs_write. */
    method WriteLoop(ino: nat, p0: nat, b: seq<byte>) returns (r: int)
      requires Mounted() && !dev.locked && ino < NumInodes(meta) && p0 + |b| <= Size(meta, ino)
      requires inode == meta[BLK * (1 + ino)..BLK * (2 + ino)]
      modifies dev, dev.blkbuf
      ensures Mounted() && !dev.locked
      ensures if dev.readonly && b != [] then r == -7 && dev.disk == old(dev.disk)
              else r == |b| && dev.disk == Overwrite(meta, old(dev.disk), ino, p0, b)
    {
      hide Image, Overwrite, Size, Addr, Splice, Inside, IsMeta, NumInodes;
      SizeBound(meta, |dev.disk|, ino);
      ghost var m, disk := meta, dev.disk;
      OverwriteNothing(m, disk, ino, p0);
      var total := 0;
      assert b[..0] == [];
      while total < |b|
        invariant 0 <= total <= |b| && Mounted() && !dev.locked && m == meta && |dev.disk| == |disk|
        invariant dev.disk == Overwrite(m, disk, ino, p0, b[..total])
        invariant dev.readonly ==> dev.disk == disk && total == 0
        decreases |b| - total
      {
        if (p0 + total) / BLK >= BLK { break; }
        var e, k := WriteBlock(ino, p0 + total, b[total..]);
        if e != 0 { return e; }
        OverwriteMore(m, disk, ino, p0, b, total, k);
        total := total + k;
      }
      assert b[..total] == b;
      r := total;
    }

    /**
     fs_write: replaces the bytes of the file from its position on, as many as given or as the file
     has room for, across blocks and sectors. Nothing else on the disk changes.
     */
    method Write(io: int, b: seq<byte>) returns (r: int)
      requires Valid() && !locked && !dev.locked && -1 <= io < MAXOPEN && |b| < TWO64
      requires io != -1 && files[io].flags != 0 ==> files[io].pos + |b| < TWO64
      modifies this`inode, this`locked, dev, dev.blkbuf, files
      ensures Valid() && !locked && !dev.locked
      ensures !old(Usable(io)) ==>
                r == (if io == -1 then -1 else -2) && dev.disk == old(dev.disk) && files[..] == old(files[..])
      ensures old(Usable(io)) ==>
                var f := old(files[io]);
                var k := Min(|b|, f.size - f.pos);
                if dev.readonly && k > 0 then r == -7 && dev.disk == old(dev.disk) && files[..] == old(files[..])
                else r == k && files[..] == old(files[..])[io := f.(pos := f.pos + k)]
                     && dev.disk == Overwrite(meta, old(dev.disk), f.inode, f.pos, b[..k])
                     && FileBytes(meta, dev.disk, f.inode) ==
                        Splice(FileBytes(meta, old(dev.disk), f.inode), f.pos, b[..k])
                     && forall j :: 0 <= j < NumInodes(meta) && j != f.inode ==>
                          FileBytes(meta, dev.disk, j) == FileBytes(meta, old(dev.disk), j)
    {
      hide Image, Size, IsMeta, NumInodes, Overwrite, FileBytes, Splice;
      locked := true;
      r := if io == -1 then -1 else if files[io].flags == 0 then -2 else -3;
      if io != -1 && files[io].flags != 0 && initialized {
        ghost var f := files[io];
        assert FileOk(meta, f);
        r := WriteOpen(io, b);
        if r >= 0 { OverwriteIsSplice(meta, old(dev.disk), f.inode, f.pos, b[..Min(|b|, f.size - f.pos)]); }
      }
      locked := false;
    }

    /** fs_write on an open file. */
    method WriteOpen(io: nat, b: seq<byte>) returns (r: int)
      requires Valid() && !dev.locked && io < MAXOPEN && Usable(io) && files[io].pos + |b| < TWO64
      modifies this`inode, dev, dev.blkbuf, files
      ensures Valid() && !dev.locked
      ensures var f := old(files[io]);
              var k := Min(|b|, f.size - f.pos);
              if dev.readonly && k > 0 then r == -7 && dev.disk == old(dev.disk) && files[..] == old(files[..])
              else
                && r == k && files[..] == old(files[..])[io := f.(pos := f.pos + k)]
                && dev.disk == Overwrite(meta, old(dev.disk), f.inode, f.pos, b[..k])
    {
      hide Image, Size, IsMeta, NumInodes, Overwrite;
      var f := files[io];
      assert FileOk(meta, f);
      SizeBound(meta, |dev.disk|, f.inode);
      if f.pos >= f.size {
        OverwriteNothing(meta, dev.disk, f.inode, f.pos);
        return 0;
      }
      var want := Clamp(f.pos, |b|, f.size);
      ClampIsExact(f.pos, |b|, f.size);
      var ok := FetchInode(f.inode);
      if !ok { return -5; }
      r := WriteLoop(f.inode, f.pos, b[..want]);
      if r < 0 { return; }
      files[io] := f.(pos := f.pos + want);
    }

    /**
     fs_ioctl: the position stays within the file. A command it does not know leaves fs_lock held.
     `noArg`: the argument pointer is NULL.
     */
    method Ioctl(io: nat, cmd: Cmd, noArg: bool) returns (r: int, arg: nat)
      requires Valid() && !locked && io < MAXOPEN
      modifies this`locked, files
      ensures Valid() && (locked <==> cmd.Other? && old(files[io]).flags != 0)
      ensures old(files[io]).flags == 0 ==> r == -1 && files[..] == old(files[..])
      ensures old(files[io]).flags != 0 ==>
                var f := old(files[io]);
                var moves := cmd.SetPos? && !noArg && cmd.p <= f.size;
                && files[..] == old(files[..])[io := if moves then f.(pos := cmd.p) else f]
                && r == (if cmd.Other? then -ENOTSUP else if noArg || (cmd.SetPos? && !moves) then -1 else 0)
                && (!noArg && cmd.GetLen? ==> arg == f.size) && (!noArg && cmd.GetPos? ==> arg == f.pos)
                && (!noArg && cmd.GetBlksz? ==> arg == 4096)
    {
      locked := true;
      r, arg := 0, 0;
      var f := files[io];
      assert FileOk(meta, f);
      if f.flags == 0 { locked := false; return -1, 0; }
      match cmd {
        case GetLen => if noArg { r := -1; } else { arg := f.size; }
        case GetPos => if noArg { r := -1; } else { arg := f.pos; }
        case GetBlksz => if noArg { r := -1; } else { arg := BLK; }
        case SetPos(p) => if noArg || p > f.size { r := -1; } else { files[io] := f.(pos := p); }
        case Other => return -ENOTSUP, 0;
      }
      locked := false;
    }
  }
}
