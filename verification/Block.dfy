/**
 The VirtIO block driver (vioblk.c): byte positions on top of whole-sector requests, with
 read-modify-write of partial sectors. A request is one step of the device.
 */
module Block {
  newtype byte = x: int | 0 <= x < 256

  const SECTOR := 512
  const EINVAL := 1
  const TWO32 := 0x1_0000_0000

  function Min(a: int, b: int): int { if a < b then a else b }

  /** The bytes of `d` from `p` on, at most `n` of them. */
  function Extent(d: seq<byte>, p: nat, n: nat): (e: seq<byte>)
    ensures |e| == if p >= |d| then 0 else Min(n, |d| - p)
  {
    if p >= |d| then [] else d[p..Min(p + n, |d|)]
  }

  /** `d` with the bytes from `p` on replaced by `b`. */
  function Splice(d: seq<byte>, p: nat, b: seq<byte>): (e: seq<byte>)
    requires p + |b| <= |d|
    ensures |e| == |d| && forall i :: 0 <= i < |d| ==> e[i] == if p <= i < p + |b| then b[i - p] else d[i]
  {
    seq(|d|, i requires 0 <= i < |d| => if p <= i < p + |b| then b[i - p] else d[i])
  }

  lemma ExtentSplit(d: seq<byte>, p: nat, k: nat, n: nat)
    requires p + k <= |d|
    ensures Extent(d, p, k + n) == Extent(d, p, k) + Extent(d, p + k, n)
  {
  }

  lemma SpliceSplit(d: seq<byte>, p: nat, b: seq<byte>, k: nat, n: nat)
    requires p + k + n <= |d| && k + n <= |b|
    ensures Splice(d, p, b[..k + n]) == Splice(Splice(d, p, b[..k]), p + k, b[k..k + n])
  {
  }

  class Device {
    var disk: seq<byte>
    var pos: nat
    var locked: bool                 // io_lock is held
    const readonly: bool
    const blkbuf: array<byte>

    /** 512-byte blocks, whole ones, and sector numbers that fit 32 bits. */
    ghost predicate Valid() reads this {
      pos <= |disk| && |disk| % SECTOR == 0 && |disk| <= SECTOR * TWO32 && blkbuf.Length == SECTOR
    }

    /** Attach to a device whose contents are `contents`. */
    constructor (contents: seq<byte>, ro: bool)
      requires |contents| % SECTOR == 0 && |contents| <= SECTOR * TWO32
      ensures Valid() && fresh(blkbuf) && disk == contents && pos == 0 && !locked && readonly == ro
      ensures blkbuf.Length == 512
    {
      disk, pos, locked, readonly := contents, 0, false, ro;
      blkbuf := new byte[SECTOR];
    }

    /** A request of type IN for one sector. */
    method RequestIn(sector: nat)
      requires blkbuf.Length == SECTOR && (sector + 1) * SECTOR <= |disk|
      modifies blkbuf
      ensures blkbuf[..] == disk[sector * SECTOR..(sector + 1) * SECTOR]
    {
      var base := sector * SECTOR;
      for i := 0 to SECTOR
        invariant forall j :: 0 <= j < i ==> blkbuf[j] == disk[base + j]
      {
        blkbuf[i] := disk[base + i];
      }
    }

    /** A request of type OUT for one sector. */
    method RequestOut(sector: nat)
      requires blkbuf.Length == SECTOR && (sector + 1) * SECTOR <= |disk|
      modifies this`disk
      ensures disk == Splice(old(disk), sector * SECTOR, blkbuf[..])
    {
      disk := disk[..sector * SECTOR] + blkbuf[..] + disk[(sector + 1) * SECTOR..];
    }

    method CopyIn(off: nat, b: seq<byte>)
      requires off + |b| <= blkbuf.Length
      modifies blkbuf
      ensures blkbuf[..] == Splice(old(blkbuf[..]), off, b)
    {
      for i := 0 to |b|
        invariant forall j :: 0 <= j < blkbuf.Length ==>
                    blkbuf[j] == if off <= j < off + i then b[j - off] else old(blkbuf[j])
      {
        blkbuf[off + i] := b[i];
      }
    }

    /** vioblk_setpos */
    method SetPos(p: nat) returns (r: int)
      requires Valid() && !locked
      modifies this`pos
      ensures Valid() && r == (if p > |disk| then -EINVAL else 0) && pos == if p > |disk| then old(pos) else p
    {
      if p > |disk| { return -EINVAL; }
      pos := p;
      r := 0;
    }

    /** One turn of the loop of vioblk_read: at most `n` bytes of the sector at the position. */
    method ReadSector(n: nat) returns (got: seq<byte>)
      requires Valid() && locked && pos < |disk| && 0 < n
      modifies this`pos, blkbuf
      ensures Valid() && 0 < |got| <= n && pos == old(pos) + |got| && got == Extent(disk, old(pos), |got|)
    {
      var sector := (pos / SECTOR) % TWO32;
      var off := pos % SECTOR;
      var k := Min(SECTOR - off, n);
      SectorOf(disk, pos, k);
      assert sector == pos / SECTOR;
      RequestIn(sector);
      got := blkbuf[..][off..off + k];
      pos := pos + k;
    }

    /** vioblk_read: the bytes from the position on, up to the end of the device. */
    method Read(bufsz: nat) returns (got: seq<byte>)
      requires Valid() && !locked
      modifies this`pos, this`locked, blkbuf
      ensures Valid() && !locked && got == Extent(disk, old(pos), bufsz) && pos == old(pos) + |got|
    {
      locked := true;
      got := [];
      while |got| < bufsz
        invariant Valid() && locked && |got| <= bufsz && pos == old(pos) + |got|
        invariant got == Extent(disk, old(pos), |got|)
        decreases bufsz - |got|
      {
        if pos >= |disk| { break; }
        var more := ReadSector(bufsz - |got|);
        ExtentSplit(disk, old(pos), |got|, |more|);
        got := got + more;
      }
      locked := false;
    }

    /** One turn of the loop of vioblk_write. */
    method WriteSector(b: seq<byte>, total: nat) returns (k: nat)
      requires Valid() && locked && pos < |disk| && total < |b|
      modifies this`disk, this`pos, blkbuf
      ensures Valid() && 0 < k <= |b| - total && pos == old(pos) + k <= |old(disk)|
      ensures disk == Splice(old(disk), old(pos), b[total..total + k])
    {
      var sector := (pos / SECTOR) % TWO32;
      var off := pos % SECTOR;
      k := Min(SECTOR - off, |b| - total);
      SectorOf(disk, pos, k);
      assert sector == pos / SECTOR;
      if k != SECTOR { RequestIn(sector); }
      ghost var was := blkbuf[..];
      CopyIn(off, b[total..total + k]);
      RequestOut(sector);
      PartOfSector(old(disk), pos, was, b[total..total + k]);
      pos := pos + k;
    }

    /**
     vioblk_write: replaces just the bytes from the position on. When the data runs past the end of
     the device, what fits is written, and the call returns 0 with io_lock still held.
     */
    method Write(b: seq<byte>) returns (r: int)
      requires Valid() && !locked
      modifies this`disk, this`pos, this`locked, blkbuf
      ensures Valid()
      ensures readonly ==> r == -EINVAL && disk == old(disk) && pos == old(pos) && !locked
      ensures !readonly ==> (locked <==> old(pos) + |b| > |old(disk)|) && r == if locked then 0 else |b|
      ensures !readonly && !locked ==> disk == Splice(old(disk), old(pos), b)
      ensures !readonly ==> var n := Min(|b|, |old(disk)| - old(pos));
                disk == Splice(old(disk), old(pos), b[..n]) && pos == old(pos) + n
    {
      if readonly { return -EINVAL; }
      locked := true;
      var total := 0;
      assert disk == Splice(old(disk), old(pos), b[..0]);
      while total < |b|
        invariant Valid() && locked && 0 <= total <= |b| && pos == old(pos) + total && |disk| == |old(disk)|
        invariant disk == Splice(old(disk), old(pos), b[..total])
        decreases |b| - total
      {
        if pos >= |disk| { return 0; }
        var k := WriteSector(b, total);
        SpliceSplit(old(disk), old(pos), b, total, k);
        total := total + k;
      }
      assert b[..total] == b;
      locked := false;
      r := total;
    }
  }

  lemma SectorFits(n: nat, p: nat)
    requires p < n && n % SECTOR == 0
    ensures p == p / SECTOR * SECTOR + p % SECTOR && (p / SECTOR + 1) * SECTOR <= n
  {
    assert n == n / 512 * 512 && p == p / 512 * 512 + p % 512;
  }

  /** The part of a sector that holds the next `n` bytes. */
  lemma SectorOf(d: seq<byte>, p: nat, n: nat)
    requires p < |d| && |d| % SECTOR == 0 && n <= SECTOR - p % SECTOR
    ensures (p / SECTOR + 1) * SECTOR <= |d|
    ensures d[p / SECTOR * SECTOR..(p / SECTOR + 1) * SECTOR][p % SECTOR..p % SECTOR + n] == Extent(d, p, n)
  {
    SectorFits(|d|, p);
    var base, off := p / SECTOR * SECTOR, p % SECTOR;
    var a, e := d[base..base + SECTOR][off..off + n], d[base + off..base + off + n];
    forall i | 0 <= i < n ensures a[i] == e[i] { assert d[base..base + SECTOR][off + i] == d[base + (off + i)]; }
    assert a == e;
  }

  /** Writing a sector back with part of it replaced changes just that part of the disk. */
  lemma PartOfSector(d: seq<byte>, p: nat, was: seq<byte>, b: seq<byte>)
    requires p < |d| && |d| % SECTOR == 0 && |b| <= SECTOR - p % SECTOR && |was| == SECTOR
    requires |b| == SECTOR || was == d[p / SECTOR * SECTOR..(p / SECTOR + 1) * SECTOR]
    ensures p + |b| <= |d| && Splice(d, p / SECTOR * SECTOR, Splice(was, p % SECTOR, b)) == Splice(d, p, b)
  {
    var base := p / SECTOR * SECTOR;
    SectorFits(|d|, p);
    forall i | 0 <= i < |d| ensures Splice(d, base, Splice(was, p % SECTOR, b))[i] == Splice(d, p, b)[i] {}
  }
}
