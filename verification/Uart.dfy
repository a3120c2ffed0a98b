/**
 The UART driver as a state machine. Threads in the kernel are not preempted, so one thread at a time
 is inside uart_read or uart_write; but the interrupt handler may run between any two of its steps,
 also between the halves of a buffer operation and of `ier |= bit`. Testing a buffer and going to
 sleep is one step, because interrupts are off there.
 */
module Uart {
  import opened Ring

  type Char = int

  /** A character with the thread that wrote it or got it. */
  datatype Entry = Entry(t: int, c: Char)

  /**
   A call in progress. `buf[..p]` has been put in the buffer, `got` has been taken out; `base` is what
   the thread had written or read before.
   */
  datatype Call = Read(n: nat, got: seq<Char>, base: seq<Char>) | Write(buf: seq<Char>, p: nat, base: seq<Char>)

  datatype Where =
    | Check                          // about to turn interrupts off, test the buffer and maybe sleep, in one step
    | Loop                           // the copying loop
    | Loaded(c: Char)                // in rbuf_get, the character read but the head not yet moved
    | Stored                         // in rbuf_put, the character stored but the tail not yet moved
    | IerRead
    | IerWrite(dreie: bool, threie: bool)   // `ier` has been read, not yet written back

  datatype Pc = Outside | At(t: int, call: Call, at: Where)

  datatype Dev = Dev(
    rx: Ring<Char>, tx: Ring<Char>, dreie: bool, threie: bool, pc: Pc,
    rxSleep: map<int, Call>, txSleep: map<int, Call>, ready: map<int, Call>,
    accepted: seq<Char>, read: seq<Entry>, written: seq<Entry>, sent: seq<Char>)

  datatype Op =
    | Begin(t: int, call: Call)
    | Resume(t: int)
    | Go
    | Isr(dr: bool, thre: bool, rbr: Char)

  function Chars(es: seq<Entry>): (cs: seq<Char>)
    ensures |cs| == |es|
  {
    seq(|es|, i requires 0 <= i < |es| => es[i].c)
  }

  /** The characters of one thread, in order. */
  function Of(es: seq<Entry>, t: int): seq<Char> {
    if es == [] then [] else Of(es[..|es| - 1], t) + if es[|es| - 1].t == t then [es[|es| - 1].c] else []
  }

  predicate Busy(s: Dev, t: int) { t in s.rxSleep || t in s.txSleep || t in s.ready || (s.pc.At? && s.pc.t == t) }

  predicate Fresh(s: Dev, t: int, call: Call) {
    match call
    case Read(n, got, base) => 0 < n && got == [] && base == Of(s.read, t)
    case Write(buf, p, base) => 0 < |buf| && p == 0 && base == Of(s.written, t)
  }

  predicate Enabled(s: Dev, op: Op) {
    match op
    case Begin(t, call) => s.pc.Outside? && !Busy(s, t) && Fresh(s, t, call)
    case Resume(t) => s.pc.Outside? && t in s.ready
    case Go => s.pc.At?
    case Isr(_, _, _) => true
  }

  // ----- Steps

  /** The interrupt handler, for the given line status. */
  function OnRx(s: Dev, c: Char): Dev
    requires Ok(s.rx)
  {
    if Full(s.rx) then s.(dreie := false) else
    var s1 := if Empty(s.rx) then s.(ready := s.ready + s.rxSleep, rxSleep := map[]) else s;
    s1.(rx := PublishPut(Store(s.rx, c)), accepted := s.accepted + [c])
  }

  function OnTx(s: Dev): Dev
    requires Ok(s.tx)
  {
    if Empty(s.tx) then s.(threie := false) else
    var s1 := if Full(s.tx) then s.(ready := s.ready + s.txSleep, txSleep := map[]) else s;
    s1.(tx := PublishGet(s.tx), sent := s.sent + [Load(s.tx)])
  }

  function OnIsr(s: Dev, dr: bool, thre: bool, rbr: Char): Dev
    requires Ok(s.rx) && Ok(s.tx)
  {
    var s1 := if dr then OnRx(s, rbr) else s;
    if thre then OnTx(s1) else s1
  }

  /** One step of the running call. */
  function Advance(s: Dev): Dev
    requires s.pc.At? && Ok(s.rx) && Ok(s.tx)
  {
    var t, call := s.pc.t, s.pc.call;
    match s.pc.at
    case Check =>
      if call.Read? then
        if Empty(s.rx) then s.(rxSleep := s.rxSleep[t := call], pc := Outside) else s.(pc := At(t, call, Loop))
      else
        if Full(s.tx) then s.(txSleep := s.txSleep[t := call], pc := Outside) else s.(pc := At(t, call, Loop))
    case Loop =>
      if call.Read? then
        if !Empty(s.rx) && |call.got| < call.n then s.(pc := At(t, call, Loaded(Load(s.rx))))
          else s.(pc := At(t, call, IerRead))
      else
        if !Full(s.tx) && call.p < |call.buf| then s.(tx := Store(s.tx, call.buf[call.p]), pc := At(t, call, Stored))
        else s.(pc := At(t, call, IerRead))
    case Loaded(c) =>
      if call.Read? then
        s.(rx := PublishGet(s.rx), pc := At(t, call.(got := call.got + [c]), Loop), read := s.read + [Entry(t, c)])
      else s
    case Stored =>
      if call.Write? && call.p < |call.buf| then
        s.(tx := PublishPut(s.tx), pc := At(t, call.(p := call.p + 1), Loop),
          written := s.written + [Entry(t, call.buf[call.p])])
      else s
    case IerRead => s.(pc := At(t, call, IerWrite(s.dreie, s.threie)))
    case IerWrite(d, e) =>
      if call.Read? then s.(dreie := true, threie := e, pc := Outside)
      else s.(dreie := d, threie := true, pc := if call.p < |call.buf| then At(t, call, Check) else Outside)
  }

  function Step(s: Dev, op: Op): Dev
    requires Ok(s.rx) && Ok(s.tx) && Enabled(s, op)
  {
    match op
    case Begin(t, call) => s.(pc := At(t, call, Check))
    case Resume(t) => s.(pc := At(t, s.ready[t], Check), ready := s.ready - {t})
    case Go => Advance(s)
    case Isr(dr, thre, rbr) => OnIsr(s, dr, thre, rbr)
  }

  /** uart_open */
  function Opened(rx: Ring<Char>, tx: Ring<Char>): Dev {
    Dev(rx.(hpos := 0, tpos := 0), tx.(hpos := 0, tpos := 0), true, false, Outside, map[], map[], map[], [], [], [], [])
  }

  // ----- Invariants

  predicate Rings(s: Dev) { Ok(s.rx) && Ok(s.tx) }

  /** Nothing lost, repeated or reordered, in either direction. */
  predicate InOrder(s: Dev)
    requires Rings(s)
  {
    Chars(s.read) + Contents(s.rx) == s.accepted && s.sent + Contents(s.tx) == Chars(s.written)
  }

  /** No sleeper is stranded. */
  predicate Awake(s: Dev) {
    && (s.rxSleep != map[] ==> Empty(s.rx) && s.dreie)
    && (s.txSleep != map[] ==> Full(s.tx) && s.threie)
  }

  predicate Reading(s: Dev) { s.pc.At? && s.pc.call.Read? && !s.pc.at.Check? }

  predicate Writing(s: Dev) { s.pc.At? && s.pc.call.Write? && !s.pc.at.Check? }

  /** An interrupt source is off only when it has nothing to do, or the running call is about to turn it on. */
  predicate Sources(s: Dev) {
    && (!s.dreie ==> Full(s.rx) || Reading(s)) && (!s.threie ==> Empty(s.tx) || Writing(s))
    && (Reading(s) ==> s.rxSleep == map[]) && (Writing(s) ==> s.txSleep == map[])
    && (s.pc.At? && s.pc.at.IerWrite? ==> (s.dreie ==> s.pc.at.dreie) && (s.threie ==> s.pc.at.threie))
  }

  /** Where the running call is fits what it has done. */
  predicate PcOk(s: Dev)
    requires Rings(s)
  {
    s.pc.At? ==>
      match s.pc.at
      case Check => s.pc.call.Read? ==> s.pc.call.got == []
      case Loop => s.pc.call.Read? ==> s.pc.call.got != [] || !Empty(s.rx)
      case Loaded(c) => s.pc.call.Read? && !Empty(s.rx) && c == Load(s.rx) && |s.pc.call.got| < s.pc.call.n
      case Stored =>
        && s.pc.call.Write? && !Full(s.tx) && s.pc.call.p < |s.pc.call.buf|
        && s.tx.data[s.tx.tpos % RBUFSZ] == s.pc.call.buf[s.pc.call.p]
      case _ => s.pc.call.Read? ==> s.pc.call.got != []
  }

  /** A call has moved just the characters it accounts for. */
  predicate CallOk(read: seq<Entry>, written: seq<Entry>, t: int, call: Call) {
    match call
    case Read(n, got, base) => 0 < n && |got| <= n && Of(read, t) == base + got
    case Write(buf, p, base) => p <= |buf| && Of(written, t) == base + buf[..p]
  }

  predicate AllOk(read: seq<Entry>, written: seq<Entry>, m: map<int, Call>) {
    forall t :: t in m ==> CallOk(read, written, t, m[t])
  }

  /** A read that has to test the buffer again has got nothing yet. */
  predicate Restartable(m: map<int, Call>) { forall t :: t in m && m[t].Read? ==> m[t].got == [] }

  predicate Apart(a: map<int, Call>, b: map<int, Call>) { forall t :: t in a ==> t !in b }

  predicate CallsOk(s: Dev) {
    && (s.pc.At? ==>
          && CallOk(s.read, s.written, s.pc.t, s.pc.call)
          && s.pc.t !in s.rxSleep && s.pc.t !in s.txSleep && s.pc.t !in s.ready)
    && AllOk(s.read, s.written, s.rxSleep) && AllOk(s.read, s.written, s.txSleep) && AllOk(s.read, s.written, s.ready)
    && Restartable(s.rxSleep) && Restartable(s.txSleep) && Restartable(s.ready)
    && Apart(s.ready, s.rxSleep) && Apart(s.ready, s.txSleep) && Apart(s.rxSleep, s.txSleep)
  }

  predicate Inv(s: Dev) { Rings(s) && InOrder(s) && Awake(s) && Sources(s) && PcOk(s) && CallsOk(s) }

  // ----- Every step keeps them

  lemma OfAppend(es: seq<Entry>, e: Entry, t: int)
    ensures Of(es + [e], t) == Of(es, t) + (if e.t == t then [e.c] else []) && Chars(es + [e]) == Chars(es) + [e.c]
  {
    assert (es + [e])[..|es|] == es;
  }

  lemma Woken(read: seq<Entry>, written: seq<Entry>, a: map<int, Call>, b: map<int, Call>, c: map<int, Call>)
    requires AllOk(read, written, a) && AllOk(read, written, b) && Restartable(a) && Restartable(b) && Apart(a, c)
    requires Apart(b, c)
    ensures AllOk(read, written, a + b) && Restartable(a + b) && Apart(a + b, c)
  {
    hide CallOk;
  }

  lemma NobodyOk(read: seq<Entry>, written: seq<Entry>, m: map<int, Call>)
    ensures AllOk(read, written, map[]) && Restartable(map[]) && Apart(m, map[]) && Apart(map[], m)
  {
  }

  lemma RxCalls(s: Dev, c: Char)
    requires Rings(s) && CallsOk(s)
    ensures CallsOk(OnRx(s, c))
  {
    hide CallOk, Ok, Count, AllOk, Restartable, Apart;
    Woken(s.read, s.written, s.ready, s.rxSleep, s.txSleep);
    NobodyOk(s.read, s.written, s.ready + s.rxSleep);
    NobodyOk(s.read, s.written, s.txSleep);
  }

  lemma RxOrder(s: Dev, c: Char)
    requires Rings(s) && InOrder(s) && !Full(s.rx)
    ensures Rings(OnRx(s, c)) && InOrder(OnRx(s, c)) && Contents(OnRx(s, c).rx) == Contents(s.rx) + [c]
  {
    hide Contents;
    StoreKeeps(s.rx, c);
    PutAppends(Store(s.rx, c));
  }

  /** What the interrupt handler stores is not the character a reader is taking. */
  lemma RxHead(s: Dev, c: Char)
    requires Rings(s) && !Full(s.rx) && !Empty(s.rx)
    ensures Load(OnRx(s, c).rx) == Load(s.rx)
  {
    hide Contents;
    TailSlot(s.rx);
    SlotsDiffer(s.rx.hpos, 0, Count(s.rx));
  }

  lemma RxKeeps(s: Dev, c: Char)
    requires Inv(s)
    ensures Inv(OnRx(s, c)) && OnRx(s, c).pc == s.pc
  {
    hide Contents, Count, Load, CallsOk;
    RxCalls(s, c);
    EmptyIsCount(s.rx);
    if !Full(s.rx) {
      RxOrder(s, c);
      EmptyIsCount(OnRx(s, c).rx);
      if !Empty(s.rx) { RxHead(s, c); }
    }
  }

  lemma TxCalls(s: Dev)
    requires Rings(s) && CallsOk(s)
    ensures CallsOk(OnTx(s))
  {
    hide CallOk, Ok, Count, AllOk, Restartable;
    assert Apart(s.txSleep, s.rxSleep);
    Woken(s.read, s.written, s.ready, s.txSleep, s.rxSleep);
    NobodyOk(s.read, s.written, s.ready + s.txSleep);
    NobodyOk(s.read, s.written, s.rxSleep);
  }

  lemma TxOrder(s: Dev)
    requires Rings(s) && InOrder(s) && !Empty(s.tx)
    ensures Rings(OnTx(s)) && InOrder(OnTx(s)) && Contents(s.tx) == [Load(s.tx)] + Contents(OnTx(s).tx)
  {
    hide Contents;
    GetTakes(s.tx);
  }

  lemma TxKeeps(s: Dev)
    requires Inv(s)
    ensures Inv(OnTx(s)) && OnTx(s).pc == s.pc
  {
    hide Contents, Count, Load, CallsOk;
    TxCalls(s);
    EmptyIsCount(s.tx);
    if !Empty(s.tx) {
      TxOrder(s);
      EmptyIsCount(OnTx(s).tx);
    }
  }

  /** Calls of other threads are not touched by a character moved for `t`. */
  lemma OthersOk(r: seq<Entry>, w: seq<Entry>, e: Entry, t: int, call: Call)
    requires CallOk(r, w, t, call) && e.t != t
    ensures CallOk(r + [e], w, t, call) && CallOk(r, w + [e], t, call)
  {
    OfAppend(r, e, t);
    OfAppend(w, e, t);
  }

  lemma LoadedKeeps(s: Dev)
    requires Inv(s) && s.pc.At? && s.pc.at.Loaded?
    ensures Inv(Advance(s))
  {
    hide Contents, Count, Load, Of, CallsOk;
    var t, call, c, s' := s.pc.t, s.pc.call, s.pc.at.c, Advance(s);
    GetTakes(s.rx);
    EmptyIsCount(s.rx);
    EmptyIsCount(s'.rx);
    OfAppend(s.read, Entry(t, c), t);
    LoadedCalls(s);
  }

  lemma LoadedCalls(s: Dev)
    requires Rings(s) && CallsOk(s) && s.pc.At? && s.pc.at.Loaded? && s.pc.call.Read? && |s.pc.call.got| < s.pc.call.n
    ensures CallsOk(Advance(s))
  {
    hide Of, Ok, Count;
    var e := Entry(s.pc.t, s.pc.at.c);
    OfAppend(s.read, e, s.pc.t);
    forall x, call | x != e.t && CallOk(s.read, s.written, x, call) ensures CallOk(s.read + [e], s.written, x, call) {
      OthersOk(s.read, s.written, e, x, call);
    }
  }

  lemma StoredKeeps(s: Dev)
    requires Inv(s) && s.pc.At? && s.pc.at.Stored?
    ensures Inv(Advance(s))
  {
    hide Contents, Count, Load, Of, CallsOk;
    var t, call, s' := s.pc.t, s.pc.call, Advance(s);
    PutAppends(s.tx);
    EmptyIsCount(s.tx);
    EmptyIsCount(s'.tx);
    OfAppend(s.written, Entry(t, call.buf[call.p]), t);
    StoredCalls(s);
  }

  lemma StoredCalls(s: Dev)
    requires Rings(s) && CallsOk(s) && s.pc.At? && s.pc.at.Stored? && s.pc.call.Write? && s.pc.call.p < |s.pc.call.buf|
    ensures CallsOk(Advance(s))
  {
    hide Of, Ok, Count;
    var e := Entry(s.pc.t, s.pc.call.buf[s.pc.call.p]);
    OfAppend(s.written, e, s.pc.t);
    forall x, call | x != e.t && CallOk(s.read, s.written, x, call) ensures CallOk(s.read, s.written + [e], x, call) {
      OthersOk(s.read, s.written, e, x, call);
    }
  }

  lemma LoopKeeps(s: Dev)
    requires Inv(s) && s.pc.At? && s.pc.at.Loop?
    ensures Inv(Advance(s))
  {
    hide Contents, Count, Load, AllOk, Restartable, Apart, CallOk;
    var call := s.pc.call;
    assert call.Read? ==> call.n > 0 by { CallHasSize(s); }
    if call.Write? && !Full(s.tx) && call.p < |call.buf| {
      StoreKeeps(s.tx, call.buf[call.p]);
      EmptyIsCount(s.tx);
      EmptyIsCount(Store(s.tx, call.buf[call.p]));
    }
  }

  lemma CallHasSize(s: Dev)
    requires CallsOk(s) && s.pc.At?
    ensures s.pc.call.Read? ==> s.pc.call.n > 0
  {
  }

  /** Testing the buffer and maybe going to sleep: only on an empty or full buffer, with its interrupt source on. */
  lemma CheckKeeps(s: Dev)
    requires Inv(s) && s.pc.At? && s.pc.at.Check?
    ensures Inv(Advance(s))
  {
    hide Contents, Load, CallOk;
    EmptyIsCount(s.rx);
    EmptyIsCount(s.tx);
  }

  /** Writing `ier` back turns the call's own source on and no other off. */
  lemma IerKeeps(s: Dev)
    requires Inv(s) && s.pc.At? && (s.pc.at.IerRead? || s.pc.at.IerWrite?)
    ensures Inv(Advance(s))
  {
    hide Contents, Load, CallOk, AllOk, Restartable, Apart;
    EmptyIsCount(s.rx);
    EmptyIsCount(s.tx);
  }

  lemma AdvanceKeeps(s: Dev)
    requires Inv(s) && s.pc.At?
    ensures Inv(Advance(s))
  {
    hide Inv, Advance;
    match s.pc.at {
      case Check => CheckKeeps(s);
      case Loop => LoopKeeps(s);
      case Loaded(c) => LoadedKeeps(s);
      case Stored => StoredKeeps(s);
      case IerRead => IerKeeps(s);
      case IerWrite(d, e) => IerKeeps(s);
    }
  }

  lemma StepKeeps(s: Dev, op: Op)
    requires Inv(s) && Enabled(s, op)
    ensures Inv(Step(s, op))
  {
    match op {
      case Begin(t, call) =>
      case Resume(t) =>
      case Go => AdvanceKeeps(s);
      case Isr(dr, thre, rbr) =>
        if dr { RxKeeps(s, rbr); }
        if thre { TxKeeps(if dr then OnRx(s, rbr) else s); }
    }
  }

  // ----- What interrupts and steps do, on the queues

  /** Reception: a character is taken in unless the buffer is full, which turns the source off; it wakes readers. */
  lemma RxEffect(s: Dev, c: Char)
    requires Inv(s)
    ensures var s', q := Step(s, Isr(true, false, c)), Contents(s.rx);
            && Ok(s'.rx)
            && (|q| < 64 ==> Contents(s'.rx) == q + [c] && s'.accepted == s.accepted + [c] && s'.dreie == s.dreie)
            && (|q| == 64 ==> s'.rx == s.rx && s'.accepted == s.accepted && !s'.dreie)
            && s'.rxSleep == (if q == [] then map[] else s.rxSleep)
            && s'.ready == (if q == [] then s.ready + s.rxSleep else s.ready)
            && s' == s.(rx := s'.rx, accepted := s'.accepted, dreie := s'.dreie,
                        rxSleep := s'.rxSleep, ready := s'.ready)
  {
    hide Contents;
    EmptyIsCount(s.rx);
    if !Full(s.rx) { RxOrder(s, c); }
  }

  /** Transmission: the oldest character goes out unless there is none, which turns the source off; it wakes writers. */
  lemma TxEffect(s: Dev, c: Char)
    requires Inv(s)
    ensures var s', q := Step(s, Isr(false, true, c)), Contents(s.tx);
            && Ok(s'.tx)
            && (q != [] ==> Contents(s'.tx) == q[1..] && s'.sent == s.sent + [q[0]] && s'.threie == s.threie)
            && (q == [] ==> s'.tx == s.tx && s'.sent == s.sent && !s'.threie)
            && s'.txSleep == (if |q| == 64 then map[] else s.txSleep)
            && s'.ready == (if |q| == 64 then s.ready + s.txSleep else s.ready)
            && s' == s.(tx := s'.tx, sent := s'.sent, threie := s'.threie,
                        txSleep := s'.txSleep, ready := s'.ready)
  {
    hide Contents;
    EmptyIsCount(s.tx);
    if !Empty(s.tx) { TxOrder(s); }
  }

  /** An interrupt for both is one for reception and then one for transmission; one for neither does nothing. */
  lemma BothEffects(s: Dev, c: Char)
    requires Inv(s)
    ensures var s1 := Step(s, Isr(true, false, c));
            && Inv(s1) && Step(s, Isr(true, true, c)) == Step(s1, Isr(false, true, c))
            && Step(s, Isr(false, false, c)) == s
  {
    StepKeeps(s, Isr(true, false, c));
  }

  /** A call begins, or goes on after it was woken, by testing its buffer. */
  lemma EnterEffect(s: Dev, op: Op)
    requires Inv(s) && Enabled(s, op) && (op.Begin? || op.Resume?)
    ensures var s' := Step(s, op);
            && s'.pc == At(op.t, if op.Begin? then op.call else s.ready[op.t], Check)
            && op.t !in s'.ready && s'.ready == s.ready - {op.t} && s' == s.(pc := s'.pc, ready := s'.ready)
  {
    if op.Begin? { assert s.ready - {op.t} == s.ready; }
  }

  /** The running call tests its buffer: it sleeps exactly on an empty one to read or a full one to write. */
  lemma CheckEffect(s: Dev)
    requires Inv(s) && s.pc.At? && s.pc.at.Check?
    ensures var s', t, call := Step(s, Go), s.pc.t, s.pc.call;
            if call.Read? then
              if Contents(s.rx) == [] then s' == s.(rxSleep := s.rxSleep[t := call], pc := Outside)
              else s' == s.(pc := At(t, call, Loop))
            else
              if |Contents(s.tx)| == 64 then s' == s.(txSleep := s.txSleep[t := call], pc := Outside)
              else s' == s.(pc := At(t, call, Loop))
  {
    EmptyIsCount(s.rx);
    EmptyIsCount(s.tx);
  }

  /** The copying loop goes on exactly while there are characters, or room, and the call wants more. */
  lemma LoopEffect(s: Dev)
    requires Inv(s) && s.pc.At? && s.pc.at.Loop?
    ensures var s', call := Step(s, Go), s.pc.call;
            && s'.pc.At? && s'.pc.t == s.pc.t && s'.pc.call == call
            && s'.pc.at == (if call.Read? then
                              if Contents(s.rx) != [] && |call.got| < call.n then Loaded(Contents(s.rx)[0]) else IerRead
                            else
                              if |Contents(s.tx)| < 64 && call.p < |call.buf| then Stored else IerRead)
  {
    EmptyIsCount(s.rx);
    EmptyIsCount(s.tx);
  }

  /** Each turn of it moves one character: from the queue to the reader, or from the writer to the queue. */
  lemma MoveEffect(s: Dev)
    requires Inv(s) && s.pc.At? && (s.pc.at.Loaded? || s.pc.at.Stored?)
    ensures var s', t, call := Step(s, Go), s.pc.t, s.pc.call;
            && Ok(s'.rx) && Ok(s'.tx)
            && (s.pc.at.Loaded? ==>
                  && call.Read? && Contents(s.rx) != [] && Contents(s'.rx) == Contents(s.rx)[1..] && s'.tx == s.tx
                  && s'.pc == At(t, call.(got := call.got + [Contents(s.rx)[0]]), Loop)
                  && s'.read == s.read + [Entry(t, Contents(s.rx)[0])])
            && (s.pc.at.Stored? ==>
                  && call.Write? && call.p < |call.buf| && Contents(s'.tx) == Contents(s.tx) + [call.buf[call.p]]
                  && s'.rx == s.rx && s'.pc == At(t, call.(p := call.p + 1), Loop)
                  && s'.written == s.written + [Entry(t, call.buf[call.p])])
  {
    hide Contents;
    if s.pc.at.Loaded? { GetTakes(s.rx); } else { PutAppends(s.tx); }
  }

  /** At its end a call turns its own source on; a read returns, a write only when all is written. */
  lemma EndEffect(s: Dev)
    requires Inv(s) && s.pc.At? && s.pc.at.IerWrite?
    ensures var s', call := Step(s, Go), s.pc.call;
            if call.Read? then s'.dreie && s'.threie == s.pc.at.threie && s'.pc == Outside
            else
              && s'.threie && s'.dreie == s.pc.at.dreie
              && s'.pc == if call.p < |call.buf| then At(s.pc.t, call, Check) else Outside
  {
  }

  // ----- Whole sessions

  predicate IsRun(s: Dev, ops: seq<Op>, s': Dev)
    decreases |ops|
  {
    if ops == [] then s == s'
    else Rings(s) && Enabled(s, ops[0]) && IsRun(Step(s, ops[0]), ops[1..], s')
  }

  lemma {:induction false} RunKeeps(s: Dev, ops: seq<Op>, s': Dev)
    requires Inv(s) && IsRun(s, ops, s')
    ensures Inv(s')
    decreases |ops|
  {
    hide Inv, Step;
    if ops != [] {
      StepKeeps(s, ops[0]);
      RunKeeps(Step(s, ops[0]), ops[1..], s');
    }
  }

  lemma OpenedIsOk(rx: Ring<Char>, tx: Ring<Char>)
    requires |rx.data| == RBUFSZ && |tx.data| == RBUFSZ
    ensures Inv(Opened(rx, tx))
  {
    var s := Opened(rx, tx);
    assert Contents(s.rx) == [] && Contents(s.tx) == [] && Chars(s.read) == [] && Chars(s.written) == [];
  }

  /**
   Over a whole session, under any interleaving: what was sent and is queued is what was written, and
   so for receiving.
   */
  lemma SessionIsFifo(rx: Ring<Char>, tx: Ring<Char>, ops: seq<Op>, s: Dev)
    requires |rx.data| == RBUFSZ && |tx.data| == RBUFSZ && IsRun(Opened(rx, tx), ops, s)
    ensures Rings(s) && s.sent + Contents(s.tx) == Chars(s.written) && Chars(s.read) + Contents(s.rx) == s.accepted
  {
    OpenedIsOk(rx, tx);
    RunKeeps(Opened(rx, tx), ops, s);
  }

  /** No sleeper is stranded in any state of any session. */
  lemma NoSleeperStranded(rx: Ring<Char>, tx: Ring<Char>, ops: seq<Op>, s: Dev)
    requires |rx.data| == RBUFSZ && |tx.data| == RBUFSZ && IsRun(Opened(rx, tx), ops, s)
    ensures s.rxSleep != map[] ==> Empty(s.rx) && s.dreie
    ensures s.txSleep != map[] ==> Full(s.tx) && s.threie
  {
    OpenedIsOk(rx, tx);
    RunKeeps(Opened(rx, tx), ops, s);
  }

  /** The interrupt a sleeper waits for wakes it: nobody sleeps on after a character came in, or went out. */
  lemma InterruptWakes(s: Dev, rbr: Char)
    requires Inv(s)
    ensures s.rxSleep != map[] ==>
              var s' := OnIsr(s, true, false, rbr);
              s'.rxSleep == map[] && forall t :: t in s.rxSleep ==> t in s'.ready
    ensures s.txSleep != map[] ==>
              var s' := OnIsr(s, false, true, rbr);
              s'.txSleep == map[] && forall t :: t in s.txSleep ==> t in s'.ready
  {
    EmptyIsCount(s.rx);
    EmptyIsCount(s.tx);
  }

  /** A call that is about to return has moved all of its characters, or for a read at least one, in order. */
  lemma CallsComplete(s: Dev)
    requires Inv(s) && s.pc.At? && s.pc.at.IerWrite? && Advance(s).pc.Outside?
    ensures match s.pc.call
            case Read(n, got, base) => 0 < |got| <= n && Of(s.read, s.pc.t) == base + got
            case Write(buf, p, base) => p == |buf| && Of(s.written, s.pc.t) == base + buf
  {
    if s.pc.call.Write? { assert s.pc.call.buf[..s.pc.call.p] == s.pc.call.buf; }
  }

  /** So in every state of every session the interrupt that sleepers wait for readies all of them. */
  lemma SleepersAreWoken(rx: Ring<Char>, tx: Ring<Char>, ops: seq<Op>, s: Dev, rbr: Char)
    requires |rx.data| == RBUFSZ && |tx.data| == RBUFSZ && IsRun(Opened(rx, tx), ops, s)
    ensures Rings(s)
    ensures s.rxSleep != map[] ==>
              var s' := OnIsr(s, true, false, rbr);
              s'.rxSleep == map[] && forall t :: t in s.rxSleep ==> t in s'.ready
    ensures s.txSleep != map[] ==>
              var s' := OnIsr(s, false, true, rbr);
              s'.txSleep == map[] && forall t :: t in s.txSleep ==> t in s'.ready
  {
    OpenedIsOk(rx, tx);
    RunKeeps(Opened(rx, tx), ops, s);
    InterruptWakes(s, rbr);
  }

  /** And every call of every session returns with its account in order. */
  lemma SessionCallsComplete(rx: Ring<Char>, tx: Ring<Char>, ops: seq<Op>, s: Dev)
    requires |rx.data| == RBUFSZ && |tx.data| == RBUFSZ && IsRun(Opened(rx, tx), ops, s)
    requires Rings(s) && s.pc.At? && s.pc.at.IerWrite? && Advance(s).pc.Outside?
    ensures match s.pc.call
            case Read(n, got, base) => 0 < |got| <= n && Of(s.read, s.pc.t) == base + got
            case Write(buf, p, base) => p == |buf| && Of(s.written, s.pc.t) == base + buf
  {
    OpenedIsOk(rx, tx);
    RunKeeps(Opened(rx, tx), ops, s);
    CallsComplete(s);
  }
}
