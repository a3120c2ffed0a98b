/** The UART's ring buffers: 64 characters between two free-running 16-bit counters. */
module Ring {
  const RBUFSZ := 64
  const TWO16 := 0x1_0000

  /** Struct ringbuf as a value. */
  datatype Ring<T> = Ring(hpos: int, tpos: int, data: seq<T>)

  /** (uint16_t)(tpos - hpos) */
  function Count<T>(r: Ring<T>): nat { (r.tpos - r.hpos) % TWO16 }

  predicate Ok<T>(r: Ring<T>) {
    0 <= r.hpos < TWO16 && 0 <= r.tpos < TWO16 && |r.data| == RBUFSZ && Count(r) <= RBUFSZ
  }

  predicate Empty<T>(r: Ring<T>) { r.hpos == r.tpos }

  predicate Full<T>(r: Ring<T>) { Count(r) == RBUFSZ }

  /** The queue the buffer holds, oldest first. */
  function Contents<T>(r: Ring<T>): (q: seq<T>)
    requires Ok(r)
    ensures |q| == Count(r) && forall i :: 0 <= i < |q| ==> q[i] == r.data[(r.hpos + i) % RBUFSZ]
  {
    seq(Count(r), i requires 0 <= i => r.data[(r.hpos + i) % RBUFSZ])
  }

  // The two halves of rbuf_put and of rbuf_get, on either side of the compiler barrier.
  function Store<T>(r: Ring<T>, c: T): Ring<T>
    requires Ok(r)
  {
    r.(data := r.data[r.tpos % RBUFSZ := c])
  }

  function PublishPut<T>(r: Ring<T>): Ring<T> { r.(tpos := (r.tpos + 1) % TWO16) }

  function Load<T>(r: Ring<T>): T
    requires Ok(r)
  {
    r.data[r.hpos % RBUFSZ]
  }

  function PublishGet<T>(r: Ring<T>): Ring<T> { r.(hpos := (r.hpos + 1) % TWO16) }

  // ----- Counter arithmetic

  /** Because 64 divides 2^16, wrapping a counter does not move the slot it names. */
  lemma SlotWraps(x: int)
    requires 0 <= x < 2 * TWO16
    ensures (x % TWO16) % RBUFSZ == x % RBUFSZ
  {
    if x >= TWO16 {
      assert x % 0x1_0000 == x - 1024 * 64;
      assert (x - 1024 * 64) % 64 == x % 64;
    }
  }

  lemma SlotsDiffer(x: int, i: int, j: int)
    requires 0 <= i < j < i + RBUFSZ
    ensures (x + i) % RBUFSZ != (x + j) % RBUFSZ
  {
    var a, b := x + i, x + j;
    assert a == a / 64 * 64 + a % 64 && b == b / 64 * 64 + b % 64;
  }

  lemma EmptyIsCount<T>(r: Ring<T>)
    requires Ok(r)
    ensures Empty(r) <==> Contents(r) == []
    ensures Full(r) <==> |Contents(r)| == RBUFSZ
  {
  }

  /** The slot of the tail, from the head. */
  lemma TailSlot<T>(r: Ring<T>)
    requires Ok(r)
    ensures r.tpos % RBUFSZ == (r.hpos + Count(r)) % RBUFSZ
  {
    SlotWraps(r.hpos + Count(r));
    assert (r.hpos + Count(r)) % TWO16 == r.tpos;
  }

  /** Writing into the slot past the tail changes nothing that is in the queue. */
  lemma StoreKeeps<T>(r: Ring<T>, c: T)
    requires Ok(r) && !Full(r)
    ensures Ok(Store(r, c)) && Contents(Store(r, c)) == Contents(r)
  {
    TailSlot(r);
    forall i | 0 <= i < Count(r) ensures Contents(Store(r, c))[i] == Contents(r)[i] {
      SlotsDiffer(r.hpos, i, Count(r));
    }
  }

  /** Advancing the tail appends what its slot holds. */
  lemma PutAppends<T>(r: Ring<T>)
    requires Ok(r) && !Full(r)
    ensures Ok(PublishPut(r)) && Contents(PublishPut(r)) == Contents(r) + [r.data[r.tpos % RBUFSZ]]
  {
    TailSlot(r);
    CountUp(r.hpos, r.tpos);
  }

  /** Advancing the head takes off the oldest, which is what its slot holds. */
  lemma GetTakes<T>(r: Ring<T>)
    requires Ok(r) && !Empty(r)
    ensures Ok(PublishGet(r)) && Contents(r) == [Load(r)] + Contents(PublishGet(r))
  {
    hide Contents;
    CountDown(r.hpos, r.tpos);
    var q, q' := Contents(r), Contents(PublishGet(r));
    forall i | 1 <= i < |q| ensures q[i] == q'[i - 1] { GetAt(r, i - 1); }
    assert q[0] == Load(r);
  }

  lemma GetAt<T>(r: Ring<T>, i: nat)
    requires Ok(r) && Ok(PublishGet(r)) && i < Count(PublishGet(r)) && i + 1 < Count(r)
    ensures Contents(PublishGet(r))[i] == Contents(r)[i + 1]
  {
    SlotAfterWrap(r.hpos + 1, i);
    assert r.hpos + 1 + i == r.hpos + (i + 1);
  }

  lemma CountUp(h: int, t: int)
    requires 0 <= h < TWO16 && 0 <= t < TWO16 && (t - h) % TWO16 < RBUFSZ
    ensures ((t + 1) % TWO16 - h) % TWO16 == (t - h) % TWO16 + 1
  {
    assert (t + 1) % 0x1_0000 == if t == 0xFFFF then 0 else t + 1;
    assert (t - h) % 0x1_0000 == if t >= h then t - h else t - h + 0x1_0000;
  }

  lemma CountDown(h: int, t: int)
    requires 0 <= h < TWO16 && 0 <= t < TWO16 && h != t
    ensures (t - (h + 1) % TWO16) % TWO16 == (t - h) % TWO16 - 1
  {
    assert (h + 1) % 0x1_0000 == if h == 0xFFFF then 0 else h + 1;
    assert (t - h) % 0x1_0000 == if t >= h then t - h else t - h + 0x1_0000;
  }

  lemma SlotAfterWrap(x: int, i: int)
    requires 0 <= x <= TWO16
    ensures (x % TWO16 + i) % RBUFSZ == (x + i) % RBUFSZ
  {
    if x == TWO16 { assert (0x1_0000 + i) % 64 == i % 64; }
  }

  /** struct ringbuf with its functions, in place. */
  class RingBuf<T(0)> {
    var hpos: int
    var tpos: int
    const data: array<T>

    ghost function View(): Ring<T> reads this, data { Ring(hpos, tpos, data[..]) }

    /** rbuf_init */
    constructor ()
      ensures fresh(data) && Ok(View()) && Contents(View()) == []
    {
      hpos, tpos := 0, 0;
      data := new T[RBUFSZ];
    }

    /** rbuf_empty */
    method IsEmpty() returns (b: bool)
      requires Ok(View())
      ensures b <==> Contents(View()) == []
    {
      EmptyIsCount(View());
      b := hpos == tpos;
    }

    /** rbuf_full */
    method IsFull() returns (b: bool)
      requires Ok(View())
      ensures b <==> |Contents(View())| == RBUFSZ
    {
      EmptyIsCount(View());
      b := (tpos - hpos) % TWO16 == RBUFSZ;
    }

    /** rbuf_put */
    method Put(c: T)
      requires Ok(View()) && |Contents(View())| < RBUFSZ
      modifies this`tpos, data
      ensures Ok(View()) && Contents(View()) == old(Contents(View())) + [c]
    {
      ghost var r := View();
      StoreKeeps(r, c);
      PutAppends(Store(r, c));
      data[tpos % RBUFSZ] := c;
      tpos := (tpos + 1) % TWO16;
      assert View() == PublishPut(Store(r, c));
    }

    /** rbuf_get */
    method Get() returns (c: T)
      requires Ok(View()) && Contents(View()) != []
      modifies this`hpos
      ensures Ok(View()) && old(Contents(View())) == [c] + Contents(View())
    {
      ghost var r := View();
      GetTakes(r);
      c := data[hpos % RBUFSZ];
      hpos := (hpos + 1) % TWO16;
      assert View() == PublishGet(r);
    }
  }
}
