/** From files through mkfs's image, the block driver and the file system back to bytes. */
module RoundTrip {
  import opened Block
  import opened Layout
  import opened Kfs
  import opened Mkfs

  /** As much of a file's name as the directory keeps. */
  function Kept(f: File): seq<byte> { ShortName(f.path)[..Min(NAMELEN, |ShortName(f.path)|)] }

  predicate NamesDiffer(files: seq<File>) { forall i, j :: 0 <= i < j < |files| ==> Kept(files[i]) != Kept(files[j]) }

  lemma {:induction false} CStringBack(a: seq<byte>, b: seq<byte>)
    requires 0 !in a && (b == [] || b[0] == 0)
    ensures CString(a + b) == a
  {
    if a == [] {
      assert a + b == b;
    } else {
      assert (a + b)[1..] == a[1..] + b;
      CStringBack(a[1..], b);
    }
  }

  lemma FieldBack(name: seq<byte>)
    requires 0 !in name
    ensures CString(Field(name)) == name[..Min(NAMELEN, |name|)]
  {
    var a := name[..Min(NAMELEN, |name|)];
    CStringBack(a, Field(name)[|a|..]);
    assert Field(name) == a + Field(name)[|a|..];
  }

  /** Looking up a file's name finds that file's entry, when the kept names differ. */
  lemma NameFound(files: seq<File>, m: seq<byte>, body: seq<byte>, i: nat)
    requires Fits(files) && Built(files, m, body) && NamesDiffer(files) && i < |files|
    ensures IsMeta(m) && FirstNamed(m, i, ShortName(files[i].path)) && DentryInode(m, i) == i
    ensures forall d: nat :: FirstNamed(m, d, ShortName(files[i].path)) ==> d == i
  {
    MetaOk(files, m, body);
    forall j | 0 <= j < |files| ensures Named(m, j, ShortName(files[i].path)) <==> i == j {
      FieldBack(ShortName(files[j].path));
      assert CString(NameField(m, j)) == Kept(files[j]);
    }
  }

  function Sum(ns: seq<nat>): nat { if ns == [] then 0 else Sum(ns[..|ns| - 1]) + ns[|ns| - 1] }

  lemma SumNone() ensures Sum([]) == 0 {}

  lemma SumMore(ns: seq<nat>, k: nat)
    requires k < |ns|
    ensures Sum(ns[..k + 1]) == Sum(ns[..k]) + ns[k]
  {
    assert ns[..k + 1][..k] == ns[..k];
  }

  lemma PiecesJoin(bytes: seq<byte>, lo: nat, a: nat, b: nat)
    requires lo <= a <= b <= |bytes|
    ensures bytes[lo..a] + bytes[a..b] == bytes[lo..b]
  {
  }

  /** Reads of any sizes, one after the other, return the file piece by piece. */
  method ReadPieces(fs: FileSystem, io: nat, sizes: seq<nat>) returns (text: seq<byte>)
    requires fs.Valid() && !fs.locked && !fs.dev.locked && io < MAXOPEN && fs.Usable(io)
    requires forall k :: 0 <= k < |sizes| ==> sizes[k] <= TWO64 - TWO32
    modifies fs`inode, fs`locked, fs.dev`pos, fs.dev`locked, fs.dev.blkbuf, fs.files
    ensures fs.Valid() && fs.Usable(io)
    ensures var f := old(fs.files[io]);
              text == FileBytes(fs.meta, fs.dev.disk, f.inode)[f.pos..Min(f.pos + Sum(sizes), f.size)]
  {
    hide Image, IsMeta, NumInodes, Size, FileBytes, Sum;
    SumNone();
    text := [];
    ghost var f := fs.files[io];
    ghost var bytes := FileBytes(fs.meta, fs.dev.disk, f.inode);
    assert FileOk(fs.meta, f);
    SizeBound(fs.meta, |fs.dev.disk|, f.inode);
    for k := 0 to |sizes|
      invariant fs.Valid() && fs.Usable(io) && !fs.locked && !fs.dev.locked
      invariant fs.files[io] == f.(pos := Min(f.pos + Sum(sizes[..k]), f.size))
      invariant text == bytes[f.pos..Min(f.pos + Sum(sizes[..k]), f.size)]
    {
      SumMore(sizes, k);
      ghost var a, b := Min(f.pos + Sum(sizes[..k]), f.size), Min(f.pos + Sum(sizes[..k + 1]), f.size);
      var r, more := fs.Read(io, sizes[k]);
      PiecesJoin(bytes, f.pos, a, b);
      text := text + more;
    }
    assert sizes[..|sizes|] == sizes;
  }

  /** Opening the only file of a name on a fresh mount and reading on gives that file from its start. */
  method OpenAndRead(fs: FileSystem, name: seq<byte>, ghost i: nat, sizes: seq<nat>) returns (text: seq<byte>)
    requires fs.Valid() && fs.initialized && !fs.locked && !fs.dev.locked && IsMeta(fs.meta)
    requires fs.files[0].flags == 0 && FirstNamed(fs.meta, i, name) && i < NumInodes(fs.meta)
    requires DentryInode(fs.meta, i) == i && forall d: nat :: FirstNamed(fs.meta, d, name) ==> d == i
    requires forall k :: 0 <= k < |sizes| ==> sizes[k] <= TWO64 - TWO32
    modifies fs`inode, fs`locked, fs.dev`pos, fs.dev`locked, fs.dev.blkbuf, fs.files
    ensures text == FileBytes(fs.meta, fs.dev.disk, i)[..Min(Sum(sizes), Size(fs.meta, i))]
  {
    hide Image, FileBytes, Size, CString, IsMeta, NumInodes;
    var r, io, d := fs.Open(name);
    text := ReadPieces(fs, io, sizes);
  }

  /**
   Any file of a readable list, opened by the name its path ends in on a machine whose disk is the
   image built from the list, reads back as its original bytes under any sequence of read sizes.
   */
  method ImageRoundTrip(files: seq<File>, junk: seq<seq<byte>>, i: nat, name: seq<byte>, sizes: seq<nat>)
      returns (ok: bool, text: seq<byte>)
    requires i < |files| && IsNameOf(files[i].path, name)
    requires Fits(files) && Readable(files) && NamesDiffer(files)
    requires |junk| == |files| && forall k :: 0 <= k < |junk| ==> |junk[k]| == BLK
    requires forall k :: 0 <= k < |sizes| ==> sizes[k] <= TWO64 - TWO32
    ensures ok <==> forall k :: 0 <= k < |files| ==> SLASH !in ShortName(files[k].path)
    ensures ok ==> text == files[i].data[..Min(Sum(sizes), |files[i].data|)]
  {
    hide Image, Built, FileBytes, Size, Readable, NamesDiffer, IsMeta, NumInodes, CString, Field, IsNameOf, ShortName;
    text := [];
    var m, body;
    ok, m, body := Build(files, junk);
    if !ok { return; }
    BytesBack(files, m, body, i);
    NameFound(files, m, body, i);
    ImageSize(m, |m + body|);
    var dev := new Device(m + body, false);
    var fs := new FileSystem(dev);
    var e := fs.Mount(m);
    assert fs.files[0].flags == 0;
    ShortNameIs(files[i].path, name);
    text := OpenAndRead(fs, name, i, sizes);
  }
}
