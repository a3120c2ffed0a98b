/**
 The disk layout shared by mkfs.c and kfs.c: a boot block with directory entries, one block per inode,
 then data blocks. `m` is everything before the data blocks.
 */
module Layout {
  import opened Block
  import opened Scattered

  const BLK := 4096
  const NAMELEN := 32
  const MAXBLOCKS := 1023

  /** The little-endian 32-bit word at offset `o`. */
  function Word(s: seq<byte>, o: nat): (w: nat)
    requires o + 4 <= |s|
    ensures w < TWO32
  {
    s[o] as int + 0x100 * s[o + 1] as int + 0x1_0000 * s[o + 2] as int + 0x100_0000 * s[o + 3] as int
  }

  function NumDentry(m: seq<byte>): nat requires |m| >= BLK { Word(m, 0) }

  function NumInodes(m: seq<byte>): nat requires |m| >= BLK { Word(m, 4) }

  function NameField(m: seq<byte>, i: nat): seq<byte>
    requires i < 63 && |m| >= BLK
  {
    m[64 + 64 * i..64 + 64 * i + NAMELEN]
  }

  function DentryInode(m: seq<byte>, i: nat): nat
    requires i < 63 && |m| >= BLK
  {
    Word(m, 64 + 64 * i + NAMELEN)
  }

  /** A directory, and as many inode blocks as the boot block says. */
  predicate IsMeta(m: seq<byte>) {
    && |m| >= BLK && |m| == BLK * (1 + NumInodes(m)) && NumDentry(m) <= 63
    && forall i :: 0 <= i < NumDentry(m) ==> DentryInode(m, i) < NumInodes(m)
  }

  function Size(m: seq<byte>, i: nat): nat
    requires IsMeta(m) && i < NumInodes(m)
  {
    Word(m, BLK * (1 + i))
  }

  function BlockNum(m: seq<byte>, i: nat, k: nat): nat
    requires IsMeta(m) && i < NumInodes(m) && k < MAXBLOCKS
  {
    Word(m, BLK * (1 + i) + 4 + 4 * k)
  }

  /** Where the fields of kfs.h are, byte by byte. */
  lemma FieldsAt(m: seq<byte>, i: nat, k: nat)
    requires IsMeta(m) && i < NumInodes(m) && k < MAXBLOCKS
    ensures NumDentry(m) == Word(m, 0) && NumInodes(m) == Word(m, 4) && |m| == 4096 + 4096 * NumInodes(m)
    ensures i < 63 ==> |NameField(m, i)| == 32 && forall j :: 0 <= j < 32 ==> NameField(m, i)[j] == m[64 * (i + 1) + j]
    ensures i < 63 ==> DentryInode(m, i) == Word(m, 64 * (i + 1) + 32)
    ensures Size(m, i) == Word(m, 4096 * (i + 1)) && BlockNum(m, i, k) == Word(m, 4096 * (i + 1) + 4 * (k + 1))
  {
  }

  /** Dividing by 256 takes off the lowest byte. */
  lemma LowByte(b: nat, rest: nat)
    requires b < 0x100
    ensures (b + 0x100 * rest) % 0x100 == b && (b + 0x100 * rest) / 0x100 == rest
  {
  }

  /** Words are little-endian: taken off by 256, their digits are the bytes in order. */
  lemma LittleEndian(s: seq<byte>, o: nat)
    requires o + 4 <= |s|
    ensures Word(s, o) % 0x100 == s[o] as int && Word(s, o) / 0x100 % 0x100 == s[o + 1] as int
    ensures Word(s, o) / 0x100 / 0x100 % 0x100 == s[o + 2] as int
    ensures Word(s, o) / 0x100 / 0x100 / 0x100 == s[o + 3] as int
  {
    var b0, b1, b2, b3 := s[o] as nat, s[o + 1] as nat, s[o + 2] as nat, s[o + 3] as nat;
    assert Word(s, o) == b0 + 0x100 * (b1 + 0x100 * (b2 + 0x100 * b3));
    LowByte(b0, b1 + 0x100 * (b2 + 0x100 * b3));
    LowByte(b1, b2 + 0x100 * b3);
    LowByte(b2, b3);
  }

  /** Where block `k` of file `i` is on the disk. */
  function BlockAddr(m: seq<byte>, i: nat, k: nat): nat
    requires IsMeta(m) && i < NumInodes(m) && k < MAXBLOCKS
  {
    BLK * (1 + NumInodes(m) + BlockNum(m, i, k))
  }

  /** Block `k` holds bytes of file `i`. */
  predicate Used(m: seq<byte>, i: int, k: int)
    requires IsMeta(m)
  {
    0 <= i < NumInodes(m) && 0 <= k < MAXBLOCKS && k * BLK < Size(m, i)
  }

  /** No two files share a data block, nor is a block twice in one file. */
  ghost predicate Unshared(m: seq<byte>)
    requires IsMeta(m)
  {
    forall i, k, j, l {:trigger Used(m, i, k), Used(m, j, l)} ::
      Used(m, i, k) && Used(m, j, l) && BlockNum(m, i, k) == BlockNum(m, j, l) ==> i == j && k == l
  }

  ghost predicate AllOnDisk(m: seq<byte>, n: nat)
    requires IsMeta(m)
  {
    forall i, k {:trigger Used(m, i, k)} :: Used(m, i, k) ==> BlockAddr(m, i, k) + BLK <= n
  }

  predicate Sized(m: seq<byte>) { IsMeta(m) && forall i :: 0 <= i < NumInodes(m) ==> Size(m, i) <= MAXBLOCKS * BLK }

  /** An image on a disk of `n` bytes: every file fits its inode, and its blocks are on the disk and its own. */
  ghost predicate Image(m: seq<byte>, n: nat) {
    && Sized(m) && |m| <= n <= TWO32 && n % SECTOR == 0
    && AllOnDisk(m, n) && Unshared(m)
  }

  lemma ImageSize(m: seq<byte>, n: nat)
    requires Image(m, n)
    ensures n % SECTOR == 0 && n <= TWO32 && IsMeta(m)
  {
  }

  /** `p` is a position inside file `i`. */
  predicate Inside(m: seq<byte>, i: int, p: int)
    requires IsMeta(m)
  {
    0 <= i < NumInodes(m) && 0 <= p < Size(m, i) && p < MAXBLOCKS * BLK
  }

  /** Where byte `p` of file `i` is on the disk. */
  function Addr(m: seq<byte>, i: int, p: int): nat
    requires IsMeta(m) && Inside(m, i, p)
  {
    BlockAddr(m, i, p / BLK) + p % BLK
  }

  /** The places of all bytes of file `i`, in order. */
  ghost function Places(m: seq<byte>, i: nat): (pl: seq<nat>)
    requires Sized(m) && i < NumInodes(m)
    ensures |pl| == Size(m, i) && forall p :: 0 <= p < |pl| ==> Inside(m, i, p) && pl[p] == Addr(m, i, p)
  {
    seq(Size(m, i), p requires 0 <= p < Size(m, i) => Addr(m, i, p))
  }

  lemma AddrInside(m: seq<byte>, n: nat, i: int, p: int)
    requires Image(m, n) && Inside(m, i, p)
    ensures Used(m, i, p / BLK) && |m| <= Addr(m, i, p) < n && BlockAddr(m, i, p / BLK) + BLK <= n
  {
    assert Used(m, i, p / BLK);
  }

  /** No two bytes of any files share a place. */
  lemma AddrDistinct(m: seq<byte>, n: nat, i: int, p: int, j: int, q: int)
    requires Image(m, n) && Inside(m, i, p) && Inside(m, j, q) && Addr(m, i, p) == Addr(m, j, q)
    ensures i == j && p == q
  {
    assert Used(m, i, p / BLK) && Used(m, j, q / BLK);
    assert BlockNum(m, i, p / BLK) == BlockNum(m, j, q / BLK);
  }

  lemma AddrRun(m: seq<byte>, i: int, p: int, x: int)
    requires IsMeta(m) && Inside(m, i, p) && Inside(m, i, p + x) && 0 <= x < BLK - p % BLK
    ensures Addr(m, i, p + x) == Addr(m, i, p) + x
  {
  }

  lemma PlacesOk(m: seq<byte>, n: nat, i: nat)
    requires Image(m, n) && i < NumInodes(m)
    ensures Injective(Places(m, i), n) && forall p :: 0 <= p < Size(m, i) ==> Places(m, i)[p] >= |m|
  {
    var pl := Places(m, i);
    forall p | 0 <= p < |pl| ensures |m| <= pl[p] < n { AddrInside(m, n, i, p); }
    forall p, q | 0 <= p < q < |pl| ensures pl[p] != pl[q] {
      if Addr(m, i, p) == Addr(m, i, q) { AddrDistinct(m, n, i, p, i, q); }
    }
  }

  lemma PlacesApart(m: seq<byte>, n: nat, i: nat, j: nat)
    requires Image(m, n) && i < NumInodes(m) && j < NumInodes(m) && i != j
    ensures forall p, q :: 0 <= p < Size(m, i) && 0 <= q < Size(m, j) ==> Places(m, i)[p] != Places(m, j)[q]
  {
    forall p, q | 0 <= p < Size(m, i) && 0 <= q < Size(m, j) ensures Places(m, i)[p] != Places(m, j)[q] {
      if Addr(m, i, p) == Addr(m, j, q) { AddrDistinct(m, n, i, p, j, q); }
    }
  }

  /** Within a block the places are consecutive. */
  lemma PlacesRun(m: seq<byte>, n: nat, i: nat, p: nat, k: nat)
    requires Image(m, n) && i < NumInodes(m) && 0 < k && p + k <= Size(m, i) && k <= BLK - p % BLK
    ensures Run(Places(m, i), p, k) && Places(m, i)[p] == BlockAddr(m, i, p / BLK) + p % BLK
    ensures BlockAddr(m, i, p / BLK) + BLK <= n
  {
    assert Inside(m, i, p);
    AddrInside(m, n, i, p);
    forall q | p <= q < p + k ensures Places(m, i)[q] == Places(m, i)[p] + (q - p) {
      assert Inside(m, i, q);
      AddrRun(m, i, p, q - p);
    }
  }

  /** The file as a byte sequence. */
  ghost function FileBytes(m: seq<byte>, d: seq<byte>, i: nat): (f: seq<byte>)
    requires Image(m, |d|) && i < NumInodes(m)
    ensures |f| == Size(m, i)
  {
    PlacesOk(m, |d|, i);
    Gather(d, Places(m, i))
  }

  /** The disk `d` with the bytes of file `i` from `p` on replaced by `b`, and nothing else. */
  ghost function Overwrite(m: seq<byte>, d: seq<byte>, i: nat, p: nat, b: seq<byte>): (r: seq<byte>)
    requires Image(m, |d|) && i < NumInodes(m) && p + |b| <= Size(m, i)
    ensures |r| == |d|
  {
    PlacesOk(m, |d|, i);
    Scatter(d, Places(m, i), p, b)
  }

  /** The part of a block that holds the next `k` bytes of the file. */
  lemma BlockBytes(m: seq<byte>, d: seq<byte>, i: nat, p: nat, k: nat)
    requires Image(m, |d|) && i < NumInodes(m) && 0 < k && p + k <= Size(m, i) && k <= BLK - p % BLK
    ensures p / BLK < MAXBLOCKS && Inside(m, i, p) && Used(m, i, p / BLK) && BlockAddr(m, i, p / BLK) + BLK <= |d|
    ensures Extent(d, BlockAddr(m, i, p / BLK), BLK)[p % BLK..p % BLK + k] == FileBytes(m, d, i)[p..p + k]
  {
    PlacesRun(m, |d|, i, p, k);
    PlacesOk(m, |d|, i);
    GatherRun(d, Places(m, i), p, k);
    assert Inside(m, i, p);
    AddrInside(m, |d|, i, p);
  }

  /**
   Overwriting a range of a file is just that: the file has the range spliced in, every other file,
   every inode and every directory entry stays as it was.
   */
  lemma OverwriteIsSplice(m: seq<byte>, d: seq<byte>, i: nat, p: nat, b: seq<byte>)
    requires Image(m, |d|) && m <= d && i < NumInodes(m) && p + |b| <= Size(m, i)
    ensures var r := Overwrite(m, d, i, p, b);
            && m <= r && FileBytes(m, r, i) == Splice(FileBytes(m, d, i), p, b)
            && forall j :: 0 <= j < NumInodes(m) && j != i ==> FileBytes(m, r, j) == FileBytes(m, d, j)
  {
    var r := Overwrite(m, d, i, p, b);
    OverwriteKeepsMeta(m, d, i, p, b);
    PlacesOk(m, |d|, i);
    GatherScatter(d, Places(m, i), p, b);
    forall j | 0 <= j < NumInodes(m) && j != i ensures FileBytes(m, r, j) == FileBytes(m, d, j) {
      PlacesOk(m, |d|, j);
      PlacesApart(m, |d|, i, j);
      GatherElsewhere(d, Places(m, i), p, b, Places(m, j));
    }
  }

  lemma OverwriteKeepsMeta(m: seq<byte>, d: seq<byte>, i: nat, p: nat, b: seq<byte>)
    requires Image(m, |d|) && m <= d && i < NumInodes(m) && p + |b| <= Size(m, i)
    ensures m <= Overwrite(m, d, i, p, b)
  {
    PlacesOk(m, |d|, i);
    forall a | 0 <= a < |m| ensures Overwrite(m, d, i, p, b)[a] == m[a] {
      ScatterElsewhere(d, Places(m, i), p, b, a);
      assert d[a] == m[a];
    }
  }

  /** Overwriting with consecutive pieces of `b`, each within one block. */
  lemma OverwriteMore(m: seq<byte>, d: seq<byte>, i: nat, p: nat, b: seq<byte>, t: nat, k: nat)
    requires Image(m, |d|) && m <= d && i < NumInodes(m) && 0 < k && t + k <= |b| && p + |b| <= Size(m, i)
    requires k <= BLK - (p + t) % BLK
    ensures Inside(m, i, p + t) && Addr(m, i, p + t) + k <= |d|
    ensures Splice(Overwrite(m, d, i, p, b[..t]), Addr(m, i, p + t), b[t..][..k]) == Overwrite(m, d, i, p, b[..t + k])
    ensures m <= Overwrite(m, d, i, p, b[..t + k])
  {
    assert Inside(m, i, p + t);
    PlacesRun(m, |d|, i, p + t, k);
    PlacesOk(m, |d|, i);
    assert b[t..][..k] == b[t..t + k];
    ScatterRun(d, Places(m, i), p, b, t, k);
    OverwriteKeepsMeta(m, d, i, p, b[..t + k]);
  }

  lemma OverwriteNothing(m: seq<byte>, d: seq<byte>, i: nat, p: nat)
    requires Image(m, |d|) && i < NumInodes(m) && p <= Size(m, i)
    ensures Overwrite(m, d, i, p, []) == d
  {
  }
}
