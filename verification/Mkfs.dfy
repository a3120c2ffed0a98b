/**
 The image builder (mkfs.c): three passes over the files, for directory entries, inodes and data
 blocks, and what the file system reads back from the image.
 */
module Mkfs {
  import opened Block
  import opened Layout
  import opened Kfs

  datatype File = File(path: seq<byte>, data: seq<byte>)

  const UP: seq<byte> := [46, 46, 47]                                   // "../"
  const BIN: seq<byte> := [117, 115, 101, 114, 47, 98, 105, 110, 47]    // "user/bin/"
  const SLASH: byte := 47

  /** The name a file gets: its path without a leading "../user/bin/" or "user/bin/". */
  function ShortName(path: seq<byte>): seq<byte> {
    if UP + BIN <= path then path[12..] else if BIN <= path then path[9..] else path
  }

  /** The bytes of an ASCII string. */
  function Ascii(s: string): seq<byte>
    requires forall i :: 0 <= i < |s| ==> s[i] < 128 as char
  {
    seq(|s|, i requires 0 <= i < |s| => s[i] as int as byte)
  }

  /** `name` is what is left of `path` without a leading "../user/bin/" or "user/bin/", and has no slash. */
  predicate IsNameOf(path: seq<byte>, name: seq<byte>) {
    && '/' as int as byte !in name
    && (path == name || path == Ascii("user/bin/") + name || path == Ascii("../user/bin/") + name)
  }

  /** Such a path gets just that name. */
  lemma ShortNameIs(path: seq<byte>, name: seq<byte>)
    requires IsNameOf(path, name)
    ensures ShortName(path) == name && SLASH == '/' as int as byte
  {
    var up, bin := Ascii("../user/bin/"), Ascii("user/bin/");
    assert up == UP + BIN && bin == BIN;
    assert BIN[4] == SLASH && (UP + BIN)[2] == SLASH;
    if path == bin + name { assert path[0] == 117; }
  }

  /** strncpy into a zeroed field: cut at 32 characters, padded with NULs. */
  function Field(name: seq<byte>): (f: seq<byte>)
    ensures |f| == NAMELEN
  {
    if |name| >= NAMELEN then name[..NAMELEN] else name + seq(NAMELEN - |name|, _ => 0)
  }

  function Bytes4(x: nat): (b: seq<byte>)
    requires x < TWO32
    ensures |b| == 4 && Word(b, 0) == x
  {
    BytePlaces(x);
    [(x % 0x100) as byte, (x / 0x100 % 0x100) as byte, (x / 0x1_0000 % 0x100) as byte, (x / 0x100_0000) as byte]
  }

  lemma BytePlaces(x: nat)
    requires x < TWO32
    ensures x / 0x100_0000 < 0x100
    ensures x == x % 0x100 + 0x100 * (x / 0x100 % 0x100) + 0x1_0000 * (x / 0x1_0000 % 0x100)
                 + 0x100_0000 * (x / 0x100_0000)
  {
    assert x == x / 0x100 * 0x100 + x % 0x100;
    assert x / 0x100 == x / 0x1_0000 * 0x100 + x / 0x100 % 0x100;
    assert x / 0x1_0000 == x / 0x100_0000 * 0x100 + x / 0x1_0000 % 0x100;
  }

  /** Data blocks a file is given in its inode, and blocks written for it. */
  function Counted(n: nat): nat { n / BLK + 1 }

  function Stored(n: nat): nat { (n + BLK - 1) / BLK }

  /** First data block of file `i` according to the inodes, and according to where its data is written. */
  function First(files: seq<File>, i: nat): nat
    requires i <= |files|
  {
    if i == 0 then 0 else First(files, i - 1) + Counted(|files[i - 1].data|)
  }

  function Place(files: seq<File>, i: nat): nat
    requires i <= |files|
  {
    if i == 0 then 0 else Place(files, i - 1) + Stored(|files[i - 1].data|)
  }

  /** What the fixed-size tables have room for; paths are C strings. */
  predicate Fits(files: seq<File>) {
    |files| <= 63 && forall i :: 0 <= i < |files| ==> |files[i].data| < MAXBLOCKS * BLK && 0 !in files[i].path
  }

  /** No file before a non-empty one has a size that is a multiple of 4096. */
  predicate Readable(files: seq<File>) {
    forall i, j :: 0 <= j < i < |files| && files[i].data != [] ==> |files[j].data| % BLK != 0
  }

  // ----- Words in byte sequences

  lemma WordSpliced(s: seq<byte>, o: nat, b: seq<byte>, q: nat)
    requires o + |b| <= |s| && q + 4 <= |s| && (q + 4 <= o || o + |b| <= q)
    ensures Word(Splice(s, o, b), q) == Word(s, q)
  {
  }

  lemma WordPut(s: seq<byte>, o: nat, x: nat)
    requires o + 4 <= |s| && x < TWO32
    ensures Word(Splice(s, o, Bytes4(x)), o) == x
  {
    var t := Splice(s, o, Bytes4(x));
    assert t[o] == Bytes4(x)[0] && t[o + 1] == Bytes4(x)[1] && t[o + 2] == Bytes4(x)[2] && t[o + 3] == Bytes4(x)[3];
    assert Word(t, o) == Word(Bytes4(x), 0);
  }

  // ----- The passes

  /** Directory entry `i` names file `i`, and its inode. */
  predicate EntryOk(files: seq<File>, boot: seq<byte>, i: nat)
    requires |boot| == BLK && i < |files| && i < 63
  {
    NameField(boot, i) == Field(ShortName(files[i].path)) && DentryInode(boot, i) == i
  }

  lemma EntryPut(files: seq<File>, boot: seq<byte>, i: nat, k: nat)
    requires |boot| == BLK && i <= k < |files| <= 63 && (i < k ==> EntryOk(files, boot, i))
    ensures var b1 := Splice(boot, 64 + 64 * k, Field(ShortName(files[k].path)));
            EntryOk(files, Splice(b1, 64 + 64 * k + NAMELEN, Bytes4(k)), i)
  {
    var b1 := Splice(boot, 64 + 64 * k, Field(ShortName(files[k].path)));
    var b2 := Splice(b1, 64 + 64 * k + NAMELEN, Bytes4(k));
    if i == k {
      WordPut(b1, 64 + 64 * k + NAMELEN, k);
      assert NameField(b2, i) == Field(ShortName(files[k].path));
    } else {
      WordSpliced(boot, 64 + 64 * k, Field(ShortName(files[k].path)), 64 + 64 * i + NAMELEN);
      WordSpliced(b1, 64 + 64 * k + NAMELEN, Bytes4(k), 64 + 64 * i + NAMELEN);
      assert NameField(b2, i) == NameField(boot, i);
    }
  }

  /** First pass: directory entries; it stops at a name with a slash. */
  method Dentries(files: seq<File>) returns (ok: bool, boot: seq<byte>)
    requires Fits(files)
    ensures |boot| == BLK && (ok <==> forall i :: 0 <= i < |files| ==> SLASH !in ShortName(files[i].path))
    ensures ok ==> forall i :: 0 <= i < |files| ==> EntryOk(files, boot, i)
  {
    boot := seq(BLK, _ => 0);
    var k := 0;
    while k < |files|
      invariant 0 <= k <= |files| && |boot| == BLK && forall i :: 0 <= i < k ==> SLASH !in ShortName(files[i].path)
      invariant forall i :: 0 <= i < k ==> EntryOk(files, boot, i)
    {
      var name := ShortName(files[k].path);
      if SLASH in name { return false, boot; }
      ghost var was := boot;
      boot := Splice(boot, 64 + 64 * k, Field(name));
      boot := Splice(boot, 64 + 64 * k + NAMELEN, Bytes4(k));
      forall i | 0 <= i <= k ensures EntryOk(files, boot, i) { EntryPut(files, was, i, k); }
      k := k + 1;
    }
    ok := true;
  }

  /** data_block_num[j] of an inode */
  function Slot(ino: seq<byte>, j: nat): nat
    requires 4 + 4 * j + 4 <= |ino|
  {
    Word(ino, 4 + 4 * j)
  }

  function InodeBlock(m: seq<byte>, i: nat): seq<byte>
    requires BLK * (2 + i) <= |m|
  {
    m[BLK * (1 + i)..BLK * (2 + i)]
  }

  /** Inode `i` gives the size and consecutive blocks; its other entries are left as they were. */
  predicate InodeOk(files: seq<File>, ino: seq<byte>, i: nat)
    requires Fits(files) && i < |files|
  {
    && |ino| == BLK && Word(ino, 0) == |files[i].data|
    && forall j :: 0 <= j < Counted(|files[i].data|) ==> Slot(ino, j) == First(files, i) + j
  }

  lemma {:induction false} FirstBound(files: seq<File>, i: nat)
    requires Fits(files) && i <= |files|
    ensures Place(files, i) <= First(files, i) <= MAXBLOCKS * i
  {
    if i > 0 { FirstBound(files, i - 1); }
  }

  /** The blocks of one inode, numbered from `idx` on. */
  method NumberBlocks(junk: seq<byte>, idx: nat, n: nat) returns (ino: seq<byte>)
    requires |junk| == BLK && n < MAXBLOCKS * BLK && idx <= MAXBLOCKS * 63
    ensures |ino| == BLK && Word(ino, 0) == n && forall j :: 0 <= j < Counted(n) ==> Slot(ino, j) == idx + j
  {
    ino := junk;
    var j := 0;
    while j < n / BLK + 1
      invariant 0 <= j <= n / BLK + 1 && |ino| == BLK && forall l :: 0 <= l < j ==> Slot(ino, l) == idx + l
    {
      ghost var was := ino;
      WordPut(ino, 4 + 4 * j, idx + j);
      ino := Splice(ino, 4 + 4 * j, Bytes4(idx + j));
      forall l | 0 <= l < j ensures Slot(ino, l) == idx + l {
        assert Slot(was, l) == idx + l;
        WordSpliced(was, 4 + 4 * j, Bytes4(idx + j), 4 + 4 * l);
      }
      j := j + 1;
    }
    ghost var was := ino;
    WordPut(ino, 0, n);
    ino := Splice(ino, 0, Bytes4(n));
    forall l | 0 <= l < j ensures Slot(ino, l) == idx + l {
      assert Slot(was, l) == idx + l;
      WordSpliced(was, 0, Bytes4(n), 4 + 4 * l);
    }
  }

  /** Second pass: inodes, in an array that starts out holding `junk`. */
  method Inodes(files: seq<File>, junk: seq<seq<byte>>) returns (inodes: seq<seq<byte>>, blocks: nat)
    requires Fits(files) && |junk| == |files| && forall i :: 0 <= i < |junk| ==> |junk[i]| == BLK
    ensures |inodes| == |files| && blocks == First(files, |files|)
    ensures forall i :: 0 <= i < |files| ==> InodeOk(files, inodes[i], i)
  {
    inodes, blocks := [], 0;
    var i := 0;
    while i < |files|
      invariant 0 <= i <= |files| && |inodes| == i && blocks == First(files, i)
      invariant forall k :: 0 <= k < i ==> InodeOk(files, inodes[k], k)
    {
      FirstBound(files, i);
      var ino := NumberBlocks(junk[i], blocks, |files[i].data|);
      assert InodeOk(files, ino, i);
      inodes := inodes + [ino];
      blocks := blocks + |files[i].data| / BLK + 1;
      i := i + 1;
    }
  }

  /** The data of file `i` is where the third pass puts it. */
  predicate DataOk(files: seq<File>, body: seq<byte>, i: nat)
    requires i < |files|
  {
    var at := BLK * Place(files, i);
    at + |files[i].data| <= |body| && body[at..at + |files[i].data|] == files[i].data
  }

  /** Whole blocks, read and written through one buffer; a short last block keeps what was in it before. */
  method CopyFile(out: seq<byte>, data: seq<byte>) returns (r: seq<byte>)
    ensures |r| == |out| + BLK * Stored(|data|) && out <= r && data <= r[|out|..]
  {
    var buf: seq<byte> := seq(BLK, _ => 0);
    r := out;
    var done := 0;
    while done < |data|
      invariant 0 <= done <= |data| && |buf| == BLK && out <= r && data[..done] <= r[|out|..]
      invariant |r| - |out| == if done < |data| then done else BLK * Stored(|data|)
      invariant done < |data| ==> done % BLK == 0
    {
      var n := Min(BLK, |data| - done);
      ghost var was := r;
      buf := data[done..done + n] + buf[n..];
      r := r + buf;
      assert data[..done + n] == data[..done] + data[done..done + n];
      assert r[|out|..] == was[|out|..] + buf;
      done := done + n;
    }
    assert data[..done] == data;
  }

  /** Third pass: data blocks. */
  method DataBlocks(files: seq<File>) returns (body: seq<byte>)
    ensures |body| == BLK * Place(files, |files|) && forall i :: 0 <= i < |files| ==> DataOk(files, body, i)
  {
    body := [];
    var i := 0;
    while i < |files|
      invariant 0 <= i <= |files| && |body| == BLK * Place(files, i)
      invariant forall k :: 0 <= k < i ==> DataOk(files, body, k)
    {
      ghost var was := body;
      body := CopyFile(body, files[i].data);
      forall k | 0 <= k <= i ensures DataOk(files, body, k) {
        var at, n := BLK * Place(files, k), |files[k].data|;
        if k < i {
          assert DataOk(files, was, k);
          assert body[at..at + n] == was[at..at + n];
        } else {
          assert body[at..at + n] == body[|was|..][..n];
        }
      }
      i := i + 1;
    }
  }

  // ----- The image

  /** What the passes leave: `m` is the boot block and the inodes, `body` the data blocks. */
  ghost predicate Built(files: seq<File>, m: seq<byte>, body: seq<byte>)
    requires Fits(files)
  {
    && |m| == BLK * (1 + |files|) && NumDentry(m) == |files| && NumInodes(m) == |files|
    && (forall i :: 0 <= i < |files| ==> EntryOk(files, m[..BLK], i))
    && (forall i :: 0 <= i < |files| ==> InodeOk(files, InodeBlock(m, i), i))
    && |body| == BLK * Place(files, |files|) && forall i :: 0 <= i < |files| ==> DataOk(files, body, i)
  }

  lemma HeaderPut(files: seq<File>, boot: seq<byte>, o: nat, x: nat, i: nat)
    requires |boot| == BLK && i < |files| <= 63 && o <= 8 && x < TWO32 && EntryOk(files, boot, i)
    ensures EntryOk(files, Splice(boot, o, Bytes4(x)), i)
  {
    var b := Splice(boot, o, Bytes4(x));
    WordSpliced(boot, o, Bytes4(x), 64 + 64 * i + NAMELEN);
    assert NameField(b, i) == NameField(boot, i);
  }

  /** The counts in the boot block. */
  method Header(files: seq<File>, boot0: seq<byte>, blocks: nat) returns (boot: seq<byte>)
    requires |files| <= 63 && |boot0| == BLK && blocks < TWO32
    requires forall i :: 0 <= i < |files| ==> EntryOk(files, boot0, i)
    ensures |boot| == BLK && NumDentry(boot) == |files| && NumInodes(boot) == |files| && Word(boot, 8) == blocks
    ensures forall i :: 0 <= i < |files| ==> EntryOk(files, boot, i)
  {
    var b1 := Splice(boot0, 0, Bytes4(|files|));
    var b2 := Splice(b1, 4, Bytes4(|files|));
    boot := Splice(b2, 8, Bytes4(blocks));
    WordPut(boot0, 0, |files|);
    WordPut(b1, 4, |files|);
    WordPut(b2, 8, blocks);
    WordSpliced(b1, 4, Bytes4(|files|), 0);
    WordSpliced(b2, 8, Bytes4(blocks), 0);
    WordSpliced(b2, 8, Bytes4(blocks), 4);
    forall i | 0 <= i < |files| ensures EntryOk(files, boot, i) {
      HeaderPut(files, boot0, 0, |files|, i);
      HeaderPut(files, b1, 4, |files|, i);
      HeaderPut(files, b2, 8, blocks, i);
    }
  }

  /** Writing out boot block and inodes one after the other. */
  method WriteOut(boot: seq<byte>, inodes: seq<seq<byte>>) returns (m: seq<byte>)
    requires |boot| == BLK && forall i :: 0 <= i < |inodes| ==> |inodes[i]| == BLK
    ensures |m| == BLK * (1 + |inodes|) && m[..BLK] == boot
    ensures forall i :: 0 <= i < |inodes| ==> InodeBlock(m, i) == inodes[i]
  {
    m := boot;
    var k := 0;
    while k < |inodes|
      invariant 0 <= k <= |inodes| && |m| == BLK * (1 + k) && m[..BLK] == boot
      invariant forall i :: 0 <= i < k ==> InodeBlock(m, i) == inodes[i]
    {
      ghost var was := m;
      m := m + inodes[k];
      forall i | 0 <= i <= k ensures InodeBlock(m, i) == inodes[i] {
        if i < k { assert InodeBlock(m, i) == InodeBlock(was, i); }
      }
      assert m[..BLK] == was[..BLK];
      k := k + 1;
    }
  }

  /** The whole of mkfs. `junk` is what the inode array holds before it is filled. */
  method Build(files: seq<File>, junk: seq<seq<byte>>) returns (ok: bool, m: seq<byte>, body: seq<byte>)
    requires Fits(files) && |junk| == |files| && forall i :: 0 <= i < |junk| ==> |junk[i]| == BLK
    ensures ok <==> forall i :: 0 <= i < |files| ==> SLASH !in ShortName(files[i].path)
    ensures ok ==> Built(files, m, body)
  {
    var boot;
    m, body := [], [];
    ok, boot := Dentries(files);
    if !ok { return; }
    var inodes, blocks := Inodes(files, junk);
    FirstBound(files, |files|);
    boot := Header(files, boot, blocks);
    m := WriteOut(boot, inodes);
    body := DataBlocks(files);
    WordSlice(m, 0, BLK, 0);
    WordSlice(m, 0, BLK, 4);
  }

  // ----- Reading it back

  lemma MetaOk(files: seq<File>, m: seq<byte>, body: seq<byte>)
    requires Fits(files) && Built(files, m, body)
    ensures IsMeta(m)
    ensures forall i :: 0 <= i < |files| ==>
              DentryInode(m, i) == i && NameField(m, i) == Field(ShortName(files[i].path))
  {
    forall i | 0 <= i < |files| ensures DentryInode(m, i) == i && NameField(m, i) == Field(ShortName(files[i].path)) {
      assert EntryOk(files, m[..BLK], i);
      WordSlice(m, 0, BLK, 64 + 64 * i + NAMELEN);
      assert NameField(m, i) == NameField(m[..BLK], i);
    }
  }

  lemma InodeBack(files: seq<File>, m: seq<byte>, body: seq<byte>, i: nat)
    requires Fits(files) && Built(files, m, body) && IsMeta(m) && i < |files|
    ensures Size(m, i) == |files[i].data|
  {
    assert InodeOk(files, InodeBlock(m, i), i);
    WordSlice(m, BLK * (1 + i), BLK * (2 + i), 0);
  }

  lemma BlockBack(files: seq<File>, m: seq<byte>, body: seq<byte>, i: nat, k: nat)
    requires Fits(files) && Built(files, m, body) && IsMeta(m) && i < |files| && k < Counted(|files[i].data|)
    ensures BlockNum(m, i, k) == First(files, i) + k
  {
    assert InodeOk(files, InodeBlock(m, i), i);
    assert Slot(InodeBlock(m, i), k) == First(files, i) + k;
    WordSlice(m, BLK * (1 + i), BLK * (2 + i), 4 + 4 * k);
  }

  /** A file is stored where its inode says exactly when no earlier file's size is a multiple of 4096. */
  lemma {:induction false} PlacedRight(files: seq<File>, i: nat)
    requires i <= |files|
    ensures First(files, i) >= Place(files, i)
    ensures First(files, i) == Place(files, i) <==> forall j :: 0 <= j < i ==> |files[j].data| % BLK != 0
  {
    if i > 0 { PlacedRight(files, i - 1); }
  }

  lemma {:induction false} Spread(files: seq<File>, i: nat, j: nat)
    requires i < j <= |files|
    ensures First(files, i) + Counted(|files[i].data|) <= First(files, j)
    ensures Place(files, i) + Stored(|files[i].data|) <= Place(files, j)
  {
    if i + 1 < j { Spread(files, i, j - 1); }
  }

  lemma UsedIsCounted(files: seq<File>, m: seq<byte>, body: seq<byte>, i: int, k: int)
    requires Fits(files) && Built(files, m, body) && IsMeta(m) && Used(m, i, k)
    ensures i < |files| && k < Stored(|files[i].data|) <= Counted(|files[i].data|)
    ensures BlockNum(m, i, k) == First(files, i) + k
  {
    InodeBack(files, m, body, i);
    BlockBack(files, m, body, i, k);
  }

  lemma {:induction false} PlaceBound(files: seq<File>, i: nat)
    requires Fits(files) && i <= |files|
    ensures BLK * (1 + |files| + Place(files, i)) <= TWO32
  {
    FirstBound(files, i);
  }

  lemma BlocksOnDisk(files: seq<File>, m: seq<byte>, body: seq<byte>)
    requires Fits(files) && Built(files, m, body) && Readable(files) && IsMeta(m)
    ensures AllOnDisk(m, |m + body|)
  {
    forall i, k | Used(m, i, k) ensures BlockAddr(m, i, k) + BLK <= |m + body| {
      UsedIsCounted(files, m, body, i, k);
      PlacedRight(files, i);
      Spread(files, i, |files|);
    }
  }

  lemma BlocksDiffer(files: seq<File>, m: seq<byte>, body: seq<byte>)
    requires Fits(files) && Built(files, m, body) && IsMeta(m)
    ensures Unshared(m)
  {
    forall i, k, j, l | Used(m, i, k) && Used(m, j, l) && BlockNum(m, i, k) == BlockNum(m, j, l)
      ensures i == j && k == l
    {
      UsedIsCounted(files, m, body, i, k);
      UsedIsCounted(files, m, body, j, l);
      if i < j { Spread(files, i, j); } else if j < i { Spread(files, j, i); }
    }
  }

  lemma SizesFit(files: seq<File>, m: seq<byte>, body: seq<byte>)
    requires Fits(files) && Built(files, m, body) && IsMeta(m)
    ensures Sized(m)
  {
    forall i | 0 <= i < NumInodes(m) ensures Size(m, i) <= MAXBLOCKS * BLK { InodeBack(files, m, body, i); }
  }

  lemma DiskBound(files: seq<File>, m: seq<byte>, body: seq<byte>)
    requires Fits(files) && Built(files, m, body)
    ensures |m| <= |m + body| <= TWO32 && |m + body| % SECTOR == 0
  {
    PlaceBound(files, |files|);
    assert |m + body| == SECTOR * (8 * (1 + |files| + Place(files, |files|)));
  }

  lemma ReadableIsImage(files: seq<File>, m: seq<byte>, body: seq<byte>)
    requires Fits(files) && Built(files, m, body) && Readable(files)
    ensures Image(m, |m + body|)
  {
    hide Built, Fits, Readable, IsMeta, Sized, AllOnDisk, Unshared;
    MetaOk(files, m, body);
    DiskBound(files, m, body);
    SizesFit(files, m, body);
    BlocksOnDisk(files, m, body);
    BlocksDiffer(files, m, body);
  }

  /** The last file that has data is put before the place its inode names, so its last block is off the disk. */
  lemma {:induction false} LastWithData(files: seq<File>, i: nat, n: nat) returns (f: nat)
    requires i < n <= |files| && files[i].data != []
    ensures i <= f < n && files[f].data != [] && Place(files, n) == Place(files, f) + Stored(|files[f].data|)
  {
    if files[n - 1].data != [] {
      f := n - 1;
    } else {
      f := LastWithData(files, i, n - 1);
    }
  }

  lemma OffDisk(files: seq<File>, m: seq<byte>, body: seq<byte>, f: nat)
    requires Fits(files) && Built(files, m, body) && IsMeta(m) && f < |files| && files[f].data != []
    requires Place(files, |files|) == Place(files, f) + Stored(|files[f].data|) && First(files, f) > Place(files, f)
    ensures !AllOnDisk(m, |m + body|)
  {
    var k := Stored(|files[f].data|) - 1;
    InodeBack(files, m, body, f);
    BlockBack(files, m, body, f, k);
    assert Used(m, f, k);
  }

  lemma UnreadableIsNoImage(files: seq<File>, m: seq<byte>, body: seq<byte>)
    requires Fits(files) && Built(files, m, body) && !Readable(files)
    ensures !Image(m, |m + body|)
  {
    MetaOk(files, m, body);
    var i, j :| 0 <= j < i < |files| && files[i].data != [] && |files[j].data| % BLK == 0;
    var f := LastWithData(files, i, |files|);
    PlacedRight(files, f);
    OffDisk(files, m, body, f);
  }

  /** mkfs builds a well-formed image exactly from a readable list of files. */
  lemma ImageIff(files: seq<File>, m: seq<byte>, body: seq<byte>)
    requires Fits(files) && Built(files, m, body)
    ensures Image(m, |m + body|) <==> Readable(files)
  {
    if Readable(files) { ReadableIsImage(files, m, body); } else { UnreadableIsNoImage(files, m, body); }
  }

  /** An empty file in front of a one-byte file is enough to lose the byte. */
  lemma EmptyFirstIsLost(m: seq<byte>, body: seq<byte>)
    requires var files := [File([97], []), File([98], [1])]; Fits(files) && Built(files, m, body)
    ensures body != [] && IsMeta(m) && Used(m, 1, 0) && BlockAddr(m, 1, 0) == |m + body|
  {
    var files := [File([97], []), File([98], [1])];
    MetaOk(files, m, body);
    InodeBack(files, m, body, 1);
    BlockBack(files, m, body, 1, 0);
    assert First(files, 1) == 1 && Place(files, 2) == 1 by {
      assert First(files, 0) == 0 && Place(files, 0) == 0 && Place(files, 1) == 0;
    }
  }

  /** Each file of the image holds the original bytes. */
  lemma BytesBack(files: seq<File>, m: seq<byte>, body: seq<byte>, i: nat)
    requires Fits(files) && Built(files, m, body) && Readable(files) && i < |files|
    ensures Image(m, |m + body|) && i < NumInodes(m) && FileBytes(m, m + body, i) == files[i].data
  {
    ReadableIsImage(files, m, body);
    InodeBack(files, m, body, i);
    if files[i].data != [] { PlacedRight(files, i); }
    var d, at := m + body, BLK * Place(files, i);
    assert DataOk(files, body, i);
    forall p | 0 <= p < Size(m, i) ensures FileBytes(m, d, i)[p] == files[i].data[p] {
      AddrInside(m, |d|, i, p);
      UsedIsCounted(files, m, body, i, p / BLK);
      assert body[at..at + |files[i].data|][p] == body[at + p];
    }
  }
}
