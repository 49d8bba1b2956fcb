/** The interrupt-driven UART: two rings, each with one producer and one consumer, and a handler that may interrupt
    the producer or consumer thread between any two of their accesses to shared memory. */
module Uart {

  const BUFFER_SIZE: nat := 1024

  /** A ring buffer with its read and write index. */
  datatype Ring = Ring(buf: seq<char>, r: nat, w: nat)

  function Inc(i: nat): (r: nat)
    ensures i < BUFFER_SIZE ==> r == if i == BUFFER_SIZE - 1 then 0 else i + 1
  {
    (i + 1) % BUFFER_SIZE
  }

  predicate Fits(q: Ring) {
    |q.buf| == BUFFER_SIZE && q.r < BUFFER_SIZE && q.w < BUFFER_SIZE
  }

  function Count(q: Ring): nat
    requires Fits(q)
  {
    if q.r <= q.w then q.w - q.r else q.w - q.r + BUFFER_SIZE
  }

  /** The bytes queued in a ring, oldest first. */
  function Queued(q: Ring): (s: seq<char>)
    requires Fits(q)
    ensures |s| == Count(q)
    decreases Count(q)
  {
    if q.r == q.w then [] else [q.buf[q.r]] + Queued(q.(r := Inc(q.r)))
  }

  /** The two interrupt-enable bits of `UART0_IMSC`. */
  datatype Mask = Mask(rx: bool, tx: bool)

  // `uart_advance_putc`, `uart_advance_getc` and `uart_interrupt_handler`, statement by statement
  datatype Putc =
    | PutIdle
    | PutNext(c: char)                 // line 65
    | PutWait(c: char, next: nat)      // line 66
    | PutStore(c: char, next: nat)     // line 70
    | PutAdvance(c: char, next: nat)   // line 71
    | PutReadMask                      // line 72, the load
    | PutWriteMask(seen: Mask)         // line 72, the store

  datatype Getc = GetIdle | GetWait | GetLoad | GetAdvance(c: char)   // lines 54, 58, 59

  datatype Handler =
    | Off
    | RxTest                           // line 79
    | RxMore                           // line 81
    | RxRead                           // line 83
    | RxRoom(c: char)                  // line 84
    | RxStore(c: char, next: nat)      // line 87
    | RxAdvance(c: char, next: nat)    // line 88
    | RxClear                          // line 91
    | TxTest                           // line 95
    | TxMore                           // line 97
    | TxSend                           // line 99
    | TxAdvance                        // line 100
    | TxEmpty                          // line 102
    | TxReadMask                       // line 104, the load
    | TxWriteMask(seen: Mask)          // line 104, the store
    | TxClear                          // line 106

  /** `put`: bytes handed to putc; `sent`: bytes written to the device; `accepted` and `dropped`: bytes read from the
      device and kept or not; `got`: bytes that getc returned. */
  datatype State = State(tx: Ring, rx: Ring, mask: Mask, p: Putc, g: Getc, h: Handler,
    put: seq<char>, sent: seq<char>, accepted: seq<char>, dropped: seq<char>, got: seq<char>)

  /** A call, the next statement of a thread, an interrupt, or the next statement of the handler with what the device
      answers: whether the interrupt is raised, whether the FIFO is ready, and the byte received. */
  datatype Move = CallPutc(c: char) | StepPutc | CallGetc | StepGetc | Interrupt | Handle(raised: bool, ready: bool, byte: char)

  predicate Enabled(s: State, v: Move) {
    match v
    case CallPutc(_) => s.h.Off? && s.p.PutIdle?
    case StepPutc => s.h.Off? && !s.p.PutIdle?
    case CallGetc => s.h.Off? && s.g.GetIdle?
    case StepGetc => s.h.Off? && !s.g.GetIdle?
    case Interrupt => s.h.Off?
    case Handle(raised, _, _) => !s.h.Off? && (raised && s.h.RxTest? ==> s.mask.rx) && (raised && s.h.TxTest? ==> s.mask.tx)
  }

  function Next(s: State, v: Move): State
    requires Fits(s.tx) && Fits(s.rx) && Enabled(s, v)
  {
    match v
    case CallPutc(c) => s.(p := PutNext(c), put := s.put + [c])
    case StepPutc => PutcStep(s)
    case CallGetc => s.(g := GetWait)
    case StepGetc => GetcStep(s)
    case Interrupt => s.(h := RxTest)
    case Handle(raised, ready, byte) =>
      if s.h.TxTest? || s.h.TxMore? || s.h.TxSend? || s.h.TxAdvance? || s.h.TxEmpty? || s.h.TxReadMask?
         || s.h.TxWriteMask? || s.h.TxClear? then HandleTx(s, raised, ready)
      else HandleRx(s, raised, ready, byte)
  }

  function PutcStep(s: State): State
    requires Fits(s.tx)
  {
    match s.p
    case PutIdle => s
    case PutNext(c) => s.(p := PutWait(c, Inc(s.tx.w)))
    case PutWait(c, next) => if next == s.tx.r then s else s.(p := PutStore(c, next))
    case PutStore(c, next) => s.(tx := s.tx.(buf := s.tx.buf[s.tx.w := c]), p := PutAdvance(c, next))
    case PutAdvance(c, next) => s.(tx := s.tx.(w := next), p := PutReadMask)
    case PutReadMask => s.(p := PutWriteMask(s.mask))
    case PutWriteMask(seen) => s.(mask := seen.(tx := true), p := PutIdle)
  }

  function GetcStep(s: State): State
    requires Fits(s.rx)
  {
    match s.g
    case GetIdle => s
    case GetWait => if s.rx.r == s.rx.w then s else s.(g := GetLoad)
    case GetLoad => s.(g := GetAdvance(s.rx.buf[s.rx.r]))
    case GetAdvance(c) => s.(rx := s.rx.(r := Inc(s.rx.r)), g := GetIdle, got := s.got + [c])
  }

  function HandleRx(s: State, raised: bool, ready: bool, byte: char): State
    requires Fits(s.rx)
  {
    match s.h
    case RxTest => s.(h := if raised then RxMore else TxTest)
    case RxMore => s.(h := if ready then RxRead else RxClear)
    case RxRead => s.(h := RxRoom(byte))
    case RxRoom(c) =>
      if Inc(s.rx.w) != s.rx.r then s.(h := RxStore(c, Inc(s.rx.w))) else s.(h := RxMore, dropped := s.dropped + [c])
    case RxStore(c, next) => s.(rx := s.rx.(buf := s.rx.buf[s.rx.w := c]), h := RxAdvance(c, next))
    case RxAdvance(c, next) => s.(rx := s.rx.(w := next), h := RxMore, accepted := s.accepted + [c])
    case RxClear => s.(h := TxTest)
    case _ => s
  }

  function HandleTx(s: State, raised: bool, ready: bool): State
    requires Fits(s.tx)
  {
    match s.h
    case TxTest => s.(h := if raised then TxMore else Off)
    case TxMore => s.(h := if ready && s.tx.r != s.tx.w then TxSend else TxEmpty)
    case TxSend => s.(h := TxAdvance, sent := s.sent + [s.tx.buf[s.tx.r]])
    case TxAdvance => s.(tx := s.tx.(r := Inc(s.tx.r)), h := TxMore)
    case TxEmpty => s.(h := if s.tx.r == s.tx.w then TxReadMask else TxClear)
    case TxReadMask => s.(h := TxWriteMask(s.mask))
    case TxWriteMask(seen) => s.(mask := seen.(tx := false), h := TxClear)
    case TxClear => s.(h := Off)
    case _ => s
  }

  // ----- rings

  /** A ring never holds more than `BUFFER_SIZE - 1` bytes, and looks full exactly then. */
  lemma Full(q: Ring)
    requires Fits(q)
    ensures |Queued(q)| <= BUFFER_SIZE - 1
    ensures Inc(q.w) == q.r <==> |Queued(q)| == BUFFER_SIZE - 1
    ensures q.r == q.w <==> |Queued(q)| == 0
  {}

  /** Storing at the write index is invisible until the index moves. */
  lemma {:induction false} Stored(q: Ring, c: char)
    requires Fits(q) && Inc(q.w) != q.r
    ensures var q' := q.(buf := q.buf[q.w := c]); Fits(q') && Queued(q') == Queued(q)
    ensures var q'' := Ring(q.buf[q.w := c], q.r, Inc(q.w)); Fits(q'') && Queued(q'') == Queued(q) + [c]
    decreases Count(q)
  {
    if q.r != q.w {
      Stored(q.(r := Inc(q.r)), c);
    }
  }

  lemma Taken(q: Ring)
    requires Fits(q) && q.r != q.w
    ensures var q' := q.(r := Inc(q.r)); Fits(q') && Queued(q) == [q.buf[q.r]] + Queued(q')
  {}

  // ----- what every reachable state satisfies

  /** The byte that putc is about to queue. */
  function Waiting(p: Putc): seq<char> {
    if p.PutNext? || p.PutWait? || p.PutStore? || p.PutAdvance? then [p.c] else []
  }

  predicate PutInv(s: State)
    requires Fits(s.tx)
  {
    && (s.p.PutWait? || s.p.PutStore? || s.p.PutAdvance? ==> s.p.next == Inc(s.tx.w))
    && (s.p.PutStore? || s.p.PutAdvance? ==> Inc(s.tx.w) != s.tx.r)
    && (s.p.PutAdvance? ==> s.tx.buf[s.tx.w] == s.p.c)
  }

  /** Bytes put = bytes sent, then bytes queued, then the byte still to be queued. */
  predicate TxInv(s: State) {
    && Fits(s.tx) && PutInv(s)
    && (s.h.TxSend? || s.h.TxAdvance? ==> s.tx.r != s.tx.w)
    && (s.h.TxAdvance? ==> s.sent != [] && s.sent[|s.sent| - 1] == s.tx.buf[s.tx.r])
    && s.put == (if s.h.TxAdvance? then s.sent[..|s.sent| - 1] else s.sent) + Queued(s.tx) + Waiting(s.p)
  }

  /** Bytes accepted = bytes got, then bytes queued. */
  predicate RxInv(s: State) {
    && Fits(s.rx)
    && (s.g.GetLoad? || s.g.GetAdvance? ==> s.rx.r != s.rx.w)
    && (s.g.GetAdvance? ==> s.g.c == s.rx.buf[s.rx.r])
    && (s.h.RxStore? || s.h.RxAdvance? ==> s.h.next == Inc(s.rx.w) && Inc(s.rx.w) != s.rx.r)
    && (s.h.RxAdvance? ==> s.rx.buf[s.rx.w] == s.h.c)
    && s.accepted == s.got + Queued(s.rx)
  }

  /** Queued bytes have the transmit interrupt enabled, or putc is about to enable it. */
  predicate WakeInv(s: State) {
    && (s.h.TxReadMask? || s.h.TxWriteMask? ==> s.tx.r == s.tx.w)
    && (s.tx.r != s.tx.w ==> s.mask.tx || s.p.PutReadMask? || s.p.PutWriteMask?)
  }

  /** No interrupt-enable bit is lost to the handler running between putc's load and store of the mask. */
  predicate MaskInv(s: State) {
    && s.mask.rx && (s.p.PutWriteMask? ==> s.p.seen.rx) && (s.h.TxWriteMask? ==> s.h.seen.rx)
  }

  predicate Inv(s: State) {
    TxInv(s) && RxInv(s) && WakeInv(s) && MaskInv(s)
  }

  predicate Init(s: State) {
    && Fits(s.tx) && Fits(s.rx) && s.tx.r == s.tx.w && s.rx.r == s.rx.w && s.mask == Mask(true, true)
    && s.p.PutIdle? && s.g.GetIdle? && s.h.Off?
    && s.put == [] && s.sent == [] && s.accepted == [] && s.dropped == [] && s.got == []
  }

  lemma PutcKeeps(s: State)
    requires Inv(s) && s.h.Off? && !s.p.PutIdle?
    ensures Inv(PutcStep(s))
  {
    PutcKeepsTx(s);
  }

  lemma PutcKeepsTx(s: State)
    requires TxInv(s) && s.h.Off? && !s.p.PutIdle?
    ensures TxInv(PutcStep(s))
  {
    if s.p.PutStore? {
      PutStoreKeeps(s, s.p.c);
    } else if s.p.PutAdvance? {
      PutAdvanceKeeps(s, s.p.c);
    }
  }

  lemma PutStoreKeeps(s: State, c: char)
    requires TxInv(s) && s.h.Off? && s.p.PutStore? && s.p.c == c
    ensures TxInv(s.(tx := s.tx.(buf := s.tx.buf[s.tx.w := c]), p := PutAdvance(c, s.p.next)))
  {
    Stored(s.tx, c);
  }

  lemma PutAdvanceKeeps(s: State, c: char)
    requires TxInv(s) && s.h.Off? && s.p.PutAdvance? && s.p.c == c
    ensures TxInv(s.(tx := s.tx.(w := s.p.next), p := PutReadMask))
  {
    Stored(s.tx, c);
    assert s.tx.buf[s.tx.w := c] == s.tx.buf;
    Regroup(s.sent, Queued(s.tx), c);
  }

  lemma Regroup(a: seq<char>, q: seq<char>, c: char)
    ensures a + q + [c] == a + (q + [c]) + []
  {}

  lemma GetcKeeps(s: State)
    requires Inv(s) && s.h.Off? && !s.g.GetIdle?
    ensures Inv(GetcStep(s))
  {
    GetcKeepsRx(s);
    SameTx(s, GetcStep(s));
  }

  lemma GetcKeepsRx(s: State)
    requires RxInv(s) && s.h.Off? && !s.g.GetIdle?
    ensures RxInv(GetcStep(s))
  {
    if s.g.GetAdvance? {
      Taken(s.rx);
      Kept(s.got, s.g.c, Queued(s.rx.(r := Inc(s.rx.r))));
    }
  }

  lemma Kept(a: seq<char>, x: char, q: seq<char>)
    ensures a + ([x] + q) == a + [x] + q
  {}

  lemma HandleRxKeeps(s: State, raised: bool, ready: bool, byte: char)
    requires Inv(s)
    ensures Inv(HandleRx(s, raised, ready, byte))
  {
    HandleRxKeepsRx(s, raised, ready, byte);
    SameTx(s, HandleRx(s, raised, ready, byte));
  }

  lemma HandleRxKeepsRx(s: State, raised: bool, ready: bool, byte: char)
    requires RxInv(s)
    ensures RxInv(HandleRx(s, raised, ready, byte))
  {
    if s.h.RxStore? {
      RxStoreKeeps(s, s.h.c);
    } else if s.h.RxAdvance? {
      RxAdvanceKeeps(s, s.h.c);
    } else {
      SameRing(s, HandleRx(s, raised, ready, byte));
    }
  }

  lemma SameRing(s: State, s': State)
    requires RxInv(s) && s'.rx == s.rx && s'.g == s.g && s'.got == s.got && s'.accepted == s.accepted && !s'.h.RxAdvance?
    requires s'.h.RxStore? ==> s'.h.next == Inc(s.rx.w) && Inc(s.rx.w) != s.rx.r
    ensures RxInv(s')
  {}

  lemma RxStoreKeeps(s: State, c: char)
    requires RxInv(s) && s.h.RxStore? && s.h.c == c
    ensures RxInv(s.(rx := s.rx.(buf := s.rx.buf[s.rx.w := c]), h := RxAdvance(c, s.h.next)))
  {
    Stored(s.rx, c);
  }

  lemma RxAdvanceKeeps(s: State, c: char)
    requires RxInv(s) && s.h.RxAdvance? && s.h.c == c
    ensures RxInv(s.(rx := s.rx.(w := s.h.next), h := RxMore, accepted := s.accepted + [c]))
  {
    Stored(s.rx, c);
    assert s.rx.buf[s.rx.w := c] == s.rx.buf;
  }

  /** The transmit side does not notice the receive side. */
  lemma SameTx(s: State, s': State)
    requires TxInv(s) && WakeInv(s) && MaskInv(s)
    requires s'.tx == s.tx && s'.mask == s.mask && s'.p == s.p && s'.put == s.put && s'.sent == s.sent
    requires s'.h == s.h || (!s.h.TxAdvance? && !(s'.h.TxSend? || s'.h.TxAdvance? || s'.h.TxReadMask? || s'.h.TxWriteMask?))
    ensures TxInv(s') && WakeInv(s') && MaskInv(s')
  {}

  lemma HandleTxKeeps(s: State, raised: bool, ready: bool)
    requires Inv(s)
    ensures Inv(HandleTx(s, raised, ready))
  {
    HandleTxKeepsTx(s, raised, ready);
    HandleTxWakes(s, raised, ready);
    HandleTxKeepsRx(s, raised, ready);
  }

  lemma HandleTxKeepsRx(s: State, raised: bool, ready: bool)
    requires Fits(s.tx) && RxInv(s)
    ensures RxInv(HandleTx(s, raised, ready))
  {
    SameRx(s, HandleTx(s, raised, ready));
  }

  lemma HandleTxWakes(s: State, raised: bool, ready: bool)
    requires Fits(s.tx) && WakeInv(s) && MaskInv(s) && (s.h.TxAdvance? ==> s.tx.r != s.tx.w)
    ensures WakeInv(HandleTx(s, raised, ready)) && MaskInv(HandleTx(s, raised, ready))
  {}

  /** The receive side does not notice the transmit side. */
  lemma SameRx(s: State, s': State)
    requires RxInv(s) && s'.rx == s.rx && s'.g == s.g && s'.got == s.got && s'.accepted == s.accepted
    requires s'.h == s.h || !(s'.h.RxStore? || s'.h.RxAdvance?)
    ensures RxInv(s')
  {}

  lemma HandleTxKeepsTx(s: State, raised: bool, ready: bool)
    requires TxInv(s)
    ensures TxInv(HandleTx(s, raised, ready))
  {
    if s.h.TxSend? {
      TxSendKeeps(s, s.tx.buf[s.tx.r]);
    } else if s.h.TxAdvance? {
      TxAdvanceKeeps(s);
    } else {
      SamePut(s, HandleTx(s, raised, ready));
    }
  }

  lemma SamePut(s: State, s': State)
    requires TxInv(s) && s'.tx == s.tx && s'.p == s.p && s'.put == s.put && s'.sent == s.sent
    requires !s.h.TxAdvance? && !s'.h.TxAdvance? && (s'.h.TxSend? ==> s.tx.r != s.tx.w)
    ensures TxInv(s')
  {}

  lemma TxSendKeeps(s: State, b: char)
    requires TxInv(s) && s.h.TxSend? && b == s.tx.buf[s.tx.r]
    ensures TxInv(s.(h := TxAdvance, sent := s.sent + [b]))
  {
    Drop(s.sent, b);
  }

  lemma TxAdvanceKeeps(s: State)
    requires TxInv(s) && s.h.TxAdvance?
    ensures TxInv(s.(tx := s.tx.(r := Inc(s.tx.r)), h := TxMore))
  {
    Taken(s.tx);
    Shift(s.put, s.sent, s.tx.buf[s.tx.r], Queued(s.tx), Queued(s.tx.(r := Inc(s.tx.r))), Waiting(s.p));
  }

  lemma Drop(a: seq<char>, x: char)
    ensures (a + [x])[..|a + [x]| - 1] == a
  {}

  /** The byte just sent moves from the queue to the bytes sent. */
  lemma Shift(put: seq<char>, sent: seq<char>, x: char, q: seq<char>, q': seq<char>, rest: seq<char>)
    requires sent != [] && sent[|sent| - 1] == x && q == [x] + q' && put == sent[..|sent| - 1] + q + rest
    ensures put == sent + q' + rest
  {
    assert sent == sent[..|sent| - 1] + [x];
    assert sent[..|sent| - 1] + q == sent + q';
  }

  lemma StepInv(s: State, v: Move)
    requires Inv(s) && Enabled(s, v)
    ensures Inv(Next(s, v))
  {
    match v
    case StepPutc => PutcKeeps(s);
    case StepGetc => GetcKeeps(s);
    case Handle(raised, ready, byte) =>
      HandleRxKeeps(s, raised, ready, byte);
      HandleTxKeeps(s, raised, ready);
    case _ =>
  }

  // ----- runs

  predicate Allowed(s: State, run: seq<Move>)
    requires Inv(s)
    decreases run
  {
    run == [] || (Enabled(s, run[0]) && (StepInv(s, run[0]); Allowed(Next(s, run[0]), run[1..])))
  }

  function Final(s: State, run: seq<Move>): (s': State)
    requires Inv(s) && Allowed(s, run)
    ensures Inv(s')
    decreases run
  {
    if run == [] then s else
      StepInv(s, run[0]);
      Final(Next(s, run[0]), run[1..])
  }

  /** Whatever the interleaving: nothing is sent that was not put, nor got that was not accepted, in that order, and
      only what still stands in a ring is missing. */
  lemma Prefixes(s: State, run: seq<Move>)
    requires Inv(s) && Allowed(s, run)
    ensures var s' := Final(s, run);
      && s'.sent <= s'.put && s'.got <= s'.accepted
      && s'.accepted == s'.got + Queued(s'.rx)
      && (s'.h.Off? && s'.p.PutIdle? ==> s'.put == s'.sent + Queued(s'.tx))
      && (s'.tx.r != s'.tx.w ==> s'.mask.tx || s'.p.PutReadMask? || s'.p.PutWriteMask?)
  {
    SentPrefix(Final(s, run));
  }

  lemma SentPrefix(s: State)
    requires TxInv(s)
    ensures s.sent <= s.put
  {
    if s.h.TxAdvance? {
      Taken(s.tx);
      Shift(s.put, s.sent, s.tx.buf[s.tx.r], Queued(s.tx), Queued(s.tx.(r := Inc(s.tx.r))), Waiting(s.p));
    }
  }

  lemma InitInv(s: State)
    requires Init(s)
    ensures Inv(s)
  {}

  /** A received byte is dropped only with `BUFFER_SIZE - 1` bytes queued, and then nothing else changes. */
  lemma DropsWhenFull(s: State, v: Move)
    requires Inv(s) && Enabled(s, v)
    ensures s.dropped <= Next(s, v).dropped
    ensures Next(s, v).dropped != s.dropped ==>
      |Queued(s.rx)| == BUFFER_SIZE - 1 && Next(s, v).rx == s.rx && Next(s, v).accepted == s.accepted
  {
    Full(s.rx);
  }

  /** One round of the handler's transmit loop. */
  function SentOne(s: State): State
    requires Fits(s.tx)
  {
    s.(tx := s.tx.(r := Inc(s.tx.r)), sent := s.sent + [s.tx.buf[s.tx.r]])
  }

  lemma ThreeSteps(s: State, v: Move)
    requires Inv(s) && s.h.TxMore? && s.tx.r != s.tx.w && v.Handle? && v.ready
    ensures Enabled(s, v) && Inv(Next(s, v)) && Enabled(Next(s, v), v) && Inv(Next(Next(s, v), v))
    ensures Enabled(Next(Next(s, v), v), v) && Next(Next(Next(s, v), v), v) == SentOne(s) && Inv(SentOne(s))
  {
    var s1, s2 := s.(h := TxSend), s.(h := TxAdvance, sent := s.sent + [s.tx.buf[s.tx.r]]);
    StepTo(s, v, s1);
    StepTo(s1, v, s2);
    StepTo(s2, v, SentOne(s));
  }

  lemma StepTo(s: State, v: Move, s': State)
    requires Inv(s) && v.Handle? && !s.h.Off? && !s.h.RxTest? && !s.h.TxTest? && Next(s, v) == s'
    ensures Enabled(s, v) && Inv(s')
  {
    StepInv(s, v);
  }

  lemma SendOne(s: State, v: Move, rest: seq<Move>)
    requires Inv(s) && s.h.TxMore? && s.tx.r != s.tx.w && v.Handle? && v.ready
    ensures Inv(SentOne(s))
    ensures Allowed(SentOne(s), rest) ==>
      Allowed(s, [v] + ([v] + ([v] + rest))) && Final(s, [v] + ([v] + ([v] + rest))) == Final(SentOne(s), rest)
  {
    ThreeSteps(s, v);
    if Allowed(SentOne(s), rest) {
      First(Next(Next(s, v), v), v, rest);
      First(Next(s, v), v, [v] + rest);
      First(s, v, [v] + ([v] + rest));
    }
  }

  lemma First(s: State, v: Move, rest: seq<Move>)
    requires Inv(s) && Enabled(s, v) && Inv(Next(s, v)) && Allowed(Next(s, v), rest)
    ensures Allowed(s, [v] + rest) && Final(s, [v] + rest) == Final(Next(s, v), rest)
  {
    assert ([v] + rest)[1..] == rest;
  }

  function Rounds(v: Move, n: nat): seq<Move> {
    if n == 0 then [] else [v] + ([v] + ([v] + Rounds(v, n - 1)))
  }

  /** A device that stays ready gets every queued byte from one run of the handler's loop, three statements a byte. */
  lemma {:induction false} Drains(s: State, v: Move, n: nat)
    requires Inv(s) && s.h.TxMore? && v.Handle? && v.ready && n == |Queued(s.tx)|
    ensures Allowed(s, Rounds(v, n)) && Drained(s, Final(s, Rounds(v, n)))
    decreases n
  {
    Full(s.tx);
    if n > 0 {
      Taken(s.tx);
      SendOne(s, v, []);
      Drains(SentOne(s), v, n - 1);
      SendOne(s, v, Rounds(v, n - 1));
      DrainedMore(s, Final(SentOne(s), Rounds(v, n - 1)));
    }
  }

  predicate Drained(s: State, s': State)
    requires Fits(s.tx)
  {
    s'.sent == s.sent + Queued(s.tx) && s'.tx.r == s'.tx.w && s'.h.TxMore?
  }

  lemma DrainedMore(s: State, s': State)
    requires Fits(s.tx) && s.tx.r != s.tx.w && Fits(SentOne(s).tx) && Drained(SentOne(s), s')
    ensures Drained(s, s')
  {
    Taken(s.tx);
    Kept(s.sent, s.tx.buf[s.tx.r], Queued(SentOne(s).tx));
  }
}
