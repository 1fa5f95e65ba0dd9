/**
 DirectWriteBuf in TCP mode as a step machine: the tracing thread fills one of two buffers, the worker thread
 compresses and sends the other, and a mutex and a condition variable hand them over. A step is one critical
 section boundary, one copy, one compression or one send; between any two steps the other thread may run.
 */
module TcpWriter {
  import opened Bytes
  import opened Lz4Format

  /** What the tracing thread asks for. After the last of these comes destroy. */
  datatype Op = Write(data: seq<byte>) | FlushNow

  /** What follows a flush. */
  datatype Cont = ThenReady | ThenPut(data: seq<byte>) | ThenChunks(rest: seq<byte>) | ThenDestroy

  /** Where the tracing thread is. */
  datatype Producer =
    | Ready
    | Put(data: seq<byte>)              // write: the flush is over, the data may still be too long for the buffer
    | Chunks(rest: seq<byte>)           // write: the loop over pieces
    | FlushLock(k: Cont)                // flush: about to lock bg_mtx
    | FlushCheck(k: Cont)               // flush: holds bg_mtx, about to look at bg_idle
    | FlushSleep(k: Cont)               // flush: waiting on bg_cv
    | EndLock | EndCheck | EndSleep     // destroy: the same wait
    | EndNotify                         // destroy: bg_shutdown is set and bg_mtx released, notify_all to come
    | EndJoin                           // destroy: in pthread_join
    | Done

  /** Where the worker thread is. */
  datatype Worker =
    | Lock                              // about to lock bg_mtx
    | Check                             // holds bg_mtx, about to look at bg_pending and bg_shutdown
    | Sleep                             // waiting on bg_cv
    | Taken                             // has taken a buffer, bg_mtx released
    | Compressed(comp: seq<byte>)       // about to lock the shared send mutex
    | Sending(comp: seq<byte>, n: nat)  // holds the send mutex, n bytes of the frame sent
    | Relock                            // about to lock bg_mtx again
    | SetIdle                           // holds bg_mtx, about to set bg_idle
    | Exit

  datatype Mutex = Free | HeldByProducer | HeldByWorker

  datatype Packet = Packet(tid: uint32, text: seq<byte>, comp: seq<byte>)

  datatype Writer = Writer(
    tid: uint32, session: nat,
    script: seq<Op>,
    buf0: seq<byte>, buf1: seq<byte>, active: nat, pos: nat,
    pending: bool, shutdown: bool, idle: bool, bgIdx: nat, bgSize: nat,
    idx: nat, taken: nat,
    mtx: Mutex, producer: Producer, worker: Worker,
    sent: seq<Packet>)

  function Buf(w: Writer, i: nat): seq<byte> {
    if i == 0 then w.buf0 else w.buf1
  }

  /** Copies data to position pos of the active buffer. */
  function Copied(w: Writer, data: seq<byte>): (w': Writer)
    requires w.pos + |data| <= |Buf(w, w.active)|
  {
    var b := Buf(w, w.active);
    var b' := b[..w.pos] + data + b[w.pos + |data|..];
    if w.active == 0 then w.(buf0 := b', pos := w.pos + |data|) else w.(buf1 := b', pos := w.pos + |data|)
  }

  function Begin(size: nat, tid: uint32, session: nat, script: seq<Op>): Writer {
    Writer(tid, session, script, seq(size, _ => 0), seq(size, _ => 0), 0, 0, false, false, true, 0, 0, 0, 0,
           Free, Ready, Lock, [])
  }

  // ---- steps of the tracing thread ----

  function Resume(k: Cont): Producer {
    match k
    case ThenReady => Ready
    case ThenPut(data) => Put(data)
    case ThenChunks(rest) => if rest == [] then Ready else Chunks(rest)
    case ThenDestroy => EndLock
  }

  /** A flush that finds nothing buffered returns at once. */
  function FlushThen(w: Writer, k: Cont): Writer {
    w.(producer := if w.pos == 0 then Resume(k) else FlushLock(k))
  }

  function Woken(p: Producer): Producer {
    match p
    case FlushSleep(k) => FlushLock(k)
    case EndSleep => EndLock
    case _ => p
  }

  function WokenWorker(p: Worker): Worker {
    if p.Sleep? then Lock else p
  }

  predicate ProducerCan(w: Writer) {
    match w.producer
    case FlushLock(_) => w.mtx.Free?
    case EndLock => w.mtx.Free?
    case FlushSleep(_) => false
    case EndSleep => false
    case EndJoin => w.worker.Exit?
    case Done => false
    case _ => true
  }

  /** Starts the next write or flush, or destroy. */
  function NextOp(size: nat, w: Writer): Writer
    requires w.pos <= size && |Buf(w, w.active)| == size
  {
    if w.script == [] then FlushThen(w, ThenDestroy)
    else
      var w1 := w.(script := w.script[1..]);
      match w.script[0]
      case FlushNow => FlushThen(w1, ThenReady)
      case Write(data) => if w.pos + |data| <= size then Copied(w1, data) else FlushThen(w1, ThenPut(data))
  }

  /**
   The hand-over inside flush's critical section: the full buffer becomes the pending one, and the worker is notified.
   */
  function HandOver(w: Writer, k: Cont): Writer {
    w.(bgIdx := w.active, bgSize := w.pos, idle := false, pending := true,
       active := if w.active == 0 then 1 else 0, pos := 0,
       mtx := Free, producer := Resume(k), worker := WokenWorker(w.worker))
  }

  function ProducerStep(size: nat, w: Writer): Writer
    requires Shape(size, w) && ProducerCan(w)
  {
    match w.producer
    case Ready => NextOp(size, w)
    case Put(data) => if |data| <= size then Copied(w, data).(producer := Ready) else w.(producer := Chunks(data))
    case Chunks(rest) =>
      var n := Min(|rest|, size);
      FlushThen(Copied(w, rest[..n]), ThenChunks(rest[n..]))
    case FlushLock(k) => w.(mtx := HeldByProducer, producer := FlushCheck(k))
    case FlushCheck(k) => if w.idle then HandOver(w, k) else w.(mtx := Free, producer := FlushSleep(k))
    case EndLock => w.(mtx := HeldByProducer, producer := EndCheck)
    case EndCheck =>
      if w.idle then w.(shutdown := true, mtx := Free, producer := EndNotify) else w.(mtx := Free, producer := EndSleep)
    case EndNotify => w.(producer := EndJoin, worker := WokenWorker(w.worker))
    case EndJoin => w.(producer := Done)
    case _ => w
  }

  // ---- steps of the worker ----

  /** What the worker can do on its own; sending is a step of the shared socket as well. */
  predicate WorkerCan(w: Writer) {
    match w.worker
    case Lock => w.mtx.Free?
    case Relock => w.mtx.Free?
    case Check => true
    case SetIdle => true
    case _ => false
  }

  function WorkerStep(w: Writer): Writer
    requires WorkerCan(w)
  {
    match w.worker
    case Lock => w.(mtx := HeldByWorker, worker := Check)
    case Check =>
      if w.pending then w.(idx := w.bgIdx, taken := w.bgSize, pending := false, mtx := Free, worker := Taken)
      else if w.shutdown then w.(mtx := Free, worker := Exit)
      else w.(mtx := Free, worker := Sleep)
    case Relock => w.(mtx := HeldByWorker, worker := SetIdle)
    case SetIdle => w.(idle := true, mtx := Free, producer := Woken(w.producer), worker := Lock)
    case _ => w
  }

  /** The text the worker has taken, as long as it holds the buffer. */
  function InHand(w: Writer): seq<byte> {
    Buf(w, w.idx)[..Min(w.taken, |Buf(w, w.idx)|)]
  }

  function Current(w: Writer): Packet
    requires w.worker.Compressed? || w.worker.Sending?
  {
    Packet(w.tid, InHand(w), w.worker.comp)
  }

  // ---- invariant ----

  /** The buffers keep their size. */
  predicate Shape(size: nat, w: Writer) {
    && 0 < size && |w.buf0| == size && |w.buf1| == size
    && w.active <= 1 && w.pos <= size
    && (w.producer.Put? || w.producer.Chunks? ==> w.pos == 0)
  }

  predicate Flushing(p: Producer) {
    p.FlushLock? || p.FlushCheck? || p.FlushSleep?
  }

  predicate Ending(p: Producer) {
    p.EndLock? || p.EndCheck? || p.EndSleep? || p.EndNotify? || p.EndJoin? || p.Done?
  }

  /** The worker works on a buffer. */
  predicate Holding(k: Worker) {
    k.Taken? || k.Compressed? || k.Sending?
  }

  predicate Busy(k: Worker) {
    Holding(k) || k.Relock? || k.SetIdle?
  }

  /** The mutex is held by whoever is inside a critical section. */
  predicate MutexInv(w: Writer) {
    && (w.mtx.HeldByProducer? <==> w.producer.FlushCheck? || w.producer.EndCheck?)
    && (w.mtx.HeldByWorker? <==> w.worker.Check? || w.worker.SetIdle?)
  }

  /** A pending or taken buffer is never the active one, and there is at most one of them. */
  predicate BufferInv(size: nat, w: Writer) {
    && (w.idle <==> !w.pending && !Busy(w.worker))
    && !(w.pending && Busy(w.worker))
    && (w.pending ==> w.bgIdx <= 1 && w.bgIdx != w.active && 0 < w.bgSize <= size)
    && (Holding(w.worker) ==> w.idx <= 1 && w.idx != w.active && 0 < w.taken <= size)
  }

  predicate ProducerInv(w: Writer) {
    && (Flushing(w.producer) ==> w.pos > 0)
    && (Ending(w.producer) ==> w.pos == 0 && w.script == [])
    && (Flushing(w.producer) && w.producer.k.ThenDestroy? ==> w.script == [])
    && (w.producer.Chunks? ==> w.producer.rest != [])
    && (w.shutdown <==> w.producer.EndNotify? || w.producer.EndJoin? || w.producer.Done?)
    && (w.shutdown ==> w.idle)
    && (w.worker.Exit? ==> w.shutdown)
    && (w.producer.Done? ==> w.worker.Exit?)
  }

  /** Nobody sleeps through what it waits for: whoever made it true has notified or is about to. */
  predicate WakeInv(w: Writer) {
    && (w.worker.Sleep? ==> !w.pending && (w.shutdown ==> w.producer.EndNotify?))
    && (w.producer.FlushSleep? || w.producer.EndSleep? ==> !w.idle)
  }

  // ---- where the text is ----

  function SentText(sent: seq<Packet>): seq<byte> {
    if sent == [] then [] else SentText(sent[..|sent| - 1]) + sent[|sent| - 1].text
  }

  function ScriptText(script: seq<Op>): seq<byte> {
    if script == [] then []
    else (if script[0].Write? then script[0].data else []) + ScriptText(script[1..])
  }

  function InFlight(w: Writer): seq<byte> {
    if Holding(w.worker) then InHand(w) else []
  }

  function Waiting(w: Writer): seq<byte> {
    if w.pending then Buf(w, w.bgIdx)[..Min(w.bgSize, |Buf(w, w.bgIdx)|)] else []
  }

  function Buffered(w: Writer): seq<byte> {
    Buf(w, w.active)[..Min(w.pos, |Buf(w, w.active)|)]
  }

  function ContText(k: Cont): seq<byte> {
    match k
    case ThenPut(data) => data
    case ThenChunks(rest) => rest
    case _ => []
  }

  /** The part of a write in progress that is not in a buffer yet. */
  function InWrite(p: Producer): seq<byte> {
    match p
    case Put(data) => data
    case Chunks(rest) => rest
    case FlushLock(k) => ContText(k)
    case FlushCheck(k) => ContText(k)
    case FlushSleep(k) => ContText(k)
    case _ => []
  }

  function Cat(a: seq<byte>, b: seq<byte>, c: seq<byte>, d: seq<byte>, e: seq<byte>, f: seq<byte>): seq<byte> {
    a + (b + (c + (d + (e + f))))
  }

  /** All the text the writer was, is and will be responsible for, in order. */
  function AllText(w: Writer): seq<byte> {
    Cat(SentText(w.sent), InFlight(w), Waiting(w), Buffered(w), InWrite(w.producer), ScriptText(w.script))
  }

  predicate Control(size: nat, w: Writer) {
    Shape(size, w) && MutexInv(w) && BufferInv(size, w) && ProducerInv(w) && WakeInv(w)
  }

  // ---- the invariant is kept ----

  lemma BeginControl(size: nat, tid: uint32, session: nat, script: seq<Op>)
    requires size > 0
    ensures Control(size, Begin(size, tid, session, script))
    ensures AllText(Begin(size, tid, session, script)) == ScriptText(script)
  {
  }

  lemma StartFlush(size: nat, w: Writer, k: Cont, script: seq<Op>)
    requires Control(size, w) && w.producer.Ready? && !k.ThenChunks? && (k.ThenDestroy? ==> script == [])
    ensures Control(size, FlushThen(w.(script := script), k))
  {
  }

  lemma StartCopy(size: nat, w: Writer, data: seq<byte>, script: seq<Op>)
    requires Control(size, w) && w.producer.Ready? && w.pos + |data| <= size
    ensures Control(size, Copied(w.(script := script), data))
  {
  }

  lemma StartKeeps(size: nat, w: Writer)
    requires Control(size, w) && w.producer.Ready?
    ensures Control(size, NextOp(size, w))
  {
    if w.script == [] {
      StartFlush(size, w, ThenDestroy, []);
    } else {
      match w.script[0]
      case FlushNow => StartFlush(size, w, ThenReady, w.script[1..]);
      case Write(data) =>
        if w.pos + |data| <= size {
          StartCopy(size, w, data, w.script[1..]);
        } else {
          StartFlush(size, w, ThenPut(data), w.script[1..]);
        }
    }
  }

  lemma PutKeeps(size: nat, w: Writer)
    requires Control(size, w) && w.producer.Put?
    ensures Control(size, ProducerStep(size, w))
  {
  }

  lemma ChunksKeep(size: nat, w: Writer)
    requires Control(size, w) && w.producer.Chunks?
    ensures Control(size, ProducerStep(size, w))
  {
  }

  lemma FlushKeeps(size: nat, w: Writer)
    requires Control(size, w) && (w.producer.FlushLock? || w.producer.FlushCheck?) && ProducerCan(w)
    ensures Control(size, ProducerStep(size, w))
  {
  }

  lemma EndingKeeps(size: nat, w: Writer)
    requires Control(size, w) && Ending(w.producer) && ProducerCan(w)
    ensures Control(size, ProducerStep(size, w))
  {
  }

  lemma ProducerKeepsControl(size: nat, w: Writer)
    requires Control(size, w) && ProducerCan(w)
    ensures Control(size, ProducerStep(size, w))
  {
    match w.producer
    case Ready => StartKeeps(size, w);
    case Put(_) => PutKeeps(size, w);
    case Chunks(_) => ChunksKeep(size, w);
    case FlushLock(_) => FlushKeeps(size, w);
    case FlushCheck(_) => FlushKeeps(size, w);
    case _ => EndingKeeps(size, w);
  }

  lemma WorkerKeepsControl(size: nat, w: Writer)
    requires Control(size, w) && WorkerCan(w)
    ensures Control(size, WorkerStep(w))
  {
  }

  // ---- the text is kept ----

  lemma CopiedText(w: Writer, data: seq<byte>)
    requires w.active <= 1 && w.pos + |data| <= |Buf(w, w.active)|
    ensures Buffered(Copied(w, data)) == Buffered(w) + data
    ensures forall i: nat :: i <= 1 && i != w.active ==> Buf(Copied(w, data), i) == Buf(w, i)
    ensures |Copied(w, data).buf0| == |w.buf0| && |Copied(w, data).buf1| == |w.buf1|
  {
  }

  /** Text that moves from the front of one place to the end of the place before it stays in order. */
  lemma CatMoves(a: seq<byte>, b: seq<byte>, c: seq<byte>, d: seq<byte>, e: seq<byte>, f: seq<byte>, x: seq<byte>)
    ensures Cat(a, b, c, d, e, x + f) == Cat(a, b, c, d, e + x, f)
    ensures Cat(a, b, c, d, x + e, f) == Cat(a, b, c, d + x, e, f)
    ensures Cat(a, b, c, x + d, e, f) == Cat(a, b, c + x, d, e, f)
    ensures Cat(a, b, x + c, d, e, f) == Cat(a, b + x, c, d, e, f)
    ensures Cat(a, x + b, c, d, e, f) == Cat(a + x, b, c, d, e, f)
  {
    ConcatAssociative(e, x, f);
    ConcatAssociative(d, x, e + f);
    ConcatAssociative(x, e, f);
    ConcatAssociative(c, x, d + (e + f));
    ConcatAssociative(x, d, e + f);
    ConcatAssociative(b, x, c + (d + (e + f)));
    ConcatAssociative(x, c, d + (e + f));
    ConcatAssociative(a, x, b + (c + (d + (e + f))));
    ConcatAssociative(x, b, c + (d + (e + f)));
  }

  /** Starting the next operation moves its text from the script into the buffer or into the write in progress. */
  lemma NextOpText(size: nat, w: Writer)
    requires Control(size, w) && w.producer.Ready?
    ensures AllText(NextOp(size, w)) == AllText(w)
  {
    if w.script != [] && w.script[0].Write? {
      NextWriteText(size, w, w.script[0].data);
    } else if w.script != [] {
      assert [] + ScriptText(w.script[1..]) == ScriptText(w.script[1..]);
    }
  }

  lemma NextWriteText(size: nat, w: Writer, data: seq<byte>)
    requires Control(size, w) && w.producer.Ready? && w.script != [] && w.script[0] == Write(data)
    ensures AllText(NextOp(size, w)) == AllText(w)
  {
    var v := NextOp(size, w);
    CatMoves(SentText(w.sent), InFlight(w), Waiting(w), Buffered(w), [], ScriptText(v.script), data);
    assert [] + data == data && data + [] == data;
    assert SentText(v.sent) == SentText(w.sent);
    if w.pos + |data| <= size {
      CopiedText(w.(script := w.script[1..]), data);
    }
    assert InFlight(v) == InFlight(w) && Waiting(v) == Waiting(w);
  }

  /** Copying moves text from the write in progress into the active buffer. */
  lemma CopyText(size: nat, w: Writer, data: seq<byte>, rest: seq<byte>, next: Producer)
    requires Shape(size, w) && BufferInv(size, w) && w.pos + |data| <= size
    requires InWrite(w.producer) == data + rest && InWrite(next) == rest
    ensures AllText(Copied(w, data).(producer := next)) == AllText(w)
  {
    CopiedText(w, data);
    CatMoves(SentText(w.sent), InFlight(w), Waiting(w), Buffered(w), rest, ScriptText(w.script), data);
  }

  /** The hand-over turns what was buffered into what is waiting. */
  lemma HandOverText(size: nat, w: Writer, k: Cont)
    requires Control(size, w) && w.producer == FlushCheck(k) && w.idle
    ensures AllText(HandOver(w, k)) == AllText(w)
  {
    var d := Buffered(w);
    CatMoves(SentText(w.sent), [], [], [], InWrite(w.producer), ScriptText(w.script), d);
    assert d + [] == d && [] + d == d;
  }

  lemma PutText(size: nat, w: Writer)
    requires Control(size, w) && w.producer.Put?
    ensures AllText(ProducerStep(size, w)) == AllText(w)
  {
    var data := w.producer.data;
    if |data| <= size {
      assert data + [] == data;
      CopyText(size, w, data, [], Ready);
    }
  }

  lemma ChunksText(size: nat, w: Writer)
    requires Control(size, w) && w.producer.Chunks?
    ensures AllText(ProducerStep(size, w)) == AllText(w)
  {
    var rest := w.producer.rest;
    var n := Min(|rest|, size);
    assert rest == rest[..n] + rest[n..];
    CopyText(size, w, rest[..n], rest[n..], FlushLock(ThenChunks(rest[n..])));
  }

  /** No step of the tracing thread loses, repeats or reorders text. */
  lemma ProducerKeepsText(size: nat, w: Writer)
    requires Control(size, w) && ProducerCan(w)
    ensures AllText(ProducerStep(size, w)) == AllText(w)
  {
    if w.producer.Ready? {
      NextOpText(size, w);
    } else if w.producer.Put? {
      PutText(size, w);
    } else if w.producer.Chunks? {
      ChunksText(size, w);
    } else if w.producer.FlushCheck? && w.idle {
      HandOverText(size, w, w.producer.k);
    } else {
      LockStepText(size, w);
    }
  }

  lemma LockStepText(size: nat, w: Writer)
    requires Control(size, w) && ProducerCan(w)
    requires !w.producer.Ready? && !w.producer.Put? && !w.producer.Chunks? && !(w.producer.FlushCheck? && w.idle)
    ensures AllText(ProducerStep(size, w)) == AllText(w)
  {
    var v := ProducerStep(size, w);
    assert v.sent == w.sent && v.script == w.script;
    assert InFlight(v) == InFlight(w) && Waiting(v) == Waiting(w) && Buffered(v) == Buffered(w);
    assert InWrite(v.producer) == InWrite(w.producer);
  }

  /** Taking the pending buffer turns what was waiting into what is in flight. */
  lemma WorkerKeepsText(size: nat, w: Writer)
    requires Control(size, w) && WorkerCan(w)
    ensures AllText(WorkerStep(w)) == AllText(w)
  {
    if w.worker.Check? && w.pending {
      var c := Waiting(w);
      CatMoves(SentText(w.sent), [], [], Buffered(w), InWrite(w.producer), ScriptText(w.script), c);
      assert c + [] == c && [] + c == c;
    }
  }

  // ---- steps of the worker that involve the codec and the shared socket ----

  function GotCompressed(w: Writer, comp: seq<byte>): Writer {
    w.(worker := Compressed(comp))
  }

  function TookSend(w: Writer): Writer
    requires w.worker.Compressed?
  {
    w.(worker := Sending(w.worker.comp, 0))
  }

  function SentMore(w: Writer, n: nat): Writer
    requires w.worker.Sending?
  {
    w.(worker := Sending(w.worker.comp, n))
  }

  /** The send mutex is released: the packet is out. */
  function DroppedSend(w: Writer): Writer
    requires w.worker.Sending?
  {
    w.(worker := Relock, sent := w.sent + [Current(w)])
  }

  lemma SendingKeeps(size: nat, w: Writer)
    requires Control(size, w) && Holding(w.worker)
    ensures forall comp :: Control(size, GotCompressed(w, comp)) && AllText(GotCompressed(w, comp)) == AllText(w)
    ensures w.worker.Compressed? ==> Control(size, TookSend(w)) && AllText(TookSend(w)) == AllText(w)
    ensures forall n: nat :: w.worker.Sending? ==>
                Control(size, SentMore(w, n)) && AllText(SentMore(w, n)) == AllText(w)
  {
  }

  lemma DroppedKeeps(size: nat, w: Writer)
    requires Control(size, w) && w.worker.Sending?
    ensures Control(size, DroppedSend(w)) && AllText(DroppedSend(w)) == AllText(w)
  {
    var b, all := InHand(w), w.sent + [Current(w)];
    assert all[..|all| - 1] == w.sent;
    CatMoves(SentText(w.sent), [], Waiting(w), Buffered(w), InWrite(w.producer), ScriptText(w.script), b);
    assert b + [] == b;
  }

  /** A wait may also end without a notification. */
  function SpuriousWake(w: Writer): Writer {
    w.(producer := Woken(w.producer), worker := WokenWorker(w.worker))
  }

  lemma SpuriousKeeps(size: nat, w: Writer)
    requires Control(size, w)
    ensures Control(size, SpuriousWake(w)) && AllText(SpuriousWake(w)) == AllText(w)
  {
  }

  // ---- what the protocol is for ----

  /** While the worker holds a buffer, no step of the tracing thread changes a byte of it. */
  lemma InFlightUntouched(size: nat, w: Writer)
    requires Control(size, w) && ProducerCan(w) && (Holding(w.worker) || w.pending)
    ensures var i := if w.pending then w.bgIdx else w.idx;
            Buf(ProducerStep(size, w), i) == Buf(w, i) && i != w.active
  {
  }

  /** When destroy has finished, everything written has been sent, in order, and nothing is left anywhere. */
  lemma DoneSentAll(size: nat, w: Writer)
    requires Control(size, w) && w.producer.Done?
    ensures SentText(w.sent) == AllText(w)
  {
  }

  // ---- progress ----

  function ContWork(k: Cont): nat {
    match k
    case ThenReady => 1
    case ThenPut(data) => 2 * |data| + 3
    case ThenChunks(rest) => 2 * |rest| + 2
    case ThenDestroy => 0
  }

  /** What is left of the operation in progress, and of destroy. */
  function ProducerWork(p: Producer): nat {
    match p
    case Ready => 6
    case Put(data) => 6 + 2 * |data| + 2
    case Chunks(rest) => 6 + 2 * |rest| + 1
    case FlushLock(k) => FlushWork(k)
    case FlushCheck(k) => FlushWork(k)
    case FlushSleep(k) => FlushWork(k)
    case EndLock => 4
    case EndCheck => 4
    case EndSleep => 4
    case EndNotify => 3
    case EndJoin => 2
    case Done => 0
  }

  function FlushWork(k: Cont): nat {
    if k.ThenDestroy? then 5 else 6 + ContWork(k)
  }

  function ScriptWork(script: seq<Op>): nat {
    if script == [] then 0
    else (match script[0] case FlushNow => 2 case Write(data) => 2 * |data| + 4) + ScriptWork(script[1..])
  }

  function JobStage(w: Writer): nat {
    if w.pending then 6
    else
      match w.worker
      case Taken => 5
      case Compressed(_) => 4
      case Sending(_, _) => 3
      case Relock => 2
      case SetIdle => 1
      case _ => 0
  }

  function LockStage(w: Writer): nat {
    (match w.producer case FlushLock(_) => 2 case FlushCheck(_) => 1 case EndLock => 2 case EndCheck => 1 case _ => 0)
    + (match w.worker case Lock => 2 case Check => 1 case _ => 0)
  }

  /** Four measures, compared in this order. `frameSize` is what a header adds. */
  datatype Rank = Rank(work: nat, job: nat, unsent: nat, locks: nat)

  predicate Below(a: Rank, b: Rank) {
    || a.work < b.work
    || (a.work == b.work && a.job < b.job)
    || (a.work == b.work && a.job == b.job && a.unsent < b.unsent)
    || (a.work == b.work && a.job == b.job && a.unsent == b.unsent && a.locks < b.locks)
  }

  const HEADER: nat := 12

  function Measure(w: Writer): Rank {
    Rank(ScriptWork(w.script) + ProducerWork(w.producer), JobStage(w),
         if w.worker.Sending? then Max(HEADER + |w.worker.comp| - w.worker.n, 0) else 0, LockStage(w))
  }

  lemma NextOpProgress(size: nat, w: Writer)
    requires Control(size, w) && w.producer.Ready?
    ensures Below(Measure(NextOp(size, w)), Measure(w))
  {
  }

  lemma CopyProgress(size: nat, w: Writer)
    requires Control(size, w) && (w.producer.Put? || w.producer.Chunks?)
    ensures Below(Measure(ProducerStep(size, w)), Measure(w))
  {
  }

  lemma ProducerProgress(size: nat, w: Writer)
    requires Control(size, w) && ProducerCan(w)
    ensures Below(Measure(ProducerStep(size, w)), Measure(w))
  {
    if w.producer.Ready? {
      NextOpProgress(size, w);
    } else if w.producer.Put? || w.producer.Chunks? {
      CopyProgress(size, w);
    }
  }

  lemma WorkerProgress(size: nat, w: Writer)
    requires Control(size, w) && WorkerCan(w)
    ensures Below(Measure(WorkerStep(w)), Measure(w))
  {
  }

  lemma SendProgress(w: Writer)
    ensures forall comp :: w.worker.Taken? && !w.pending ==> Below(Measure(GotCompressed(w, comp)), Measure(w))
    ensures w.worker.Compressed? && !w.pending ==> Below(Measure(TookSend(w)), Measure(w))
    ensures forall n: nat :: w.worker.Sending? && w.worker.n < n <= HEADER + |w.worker.comp| ==>
                               Below(Measure(SentMore(w, n)), Measure(w))
    ensures w.worker.Sending? && !w.pending ==> Below(Measure(DroppedSend(w)), Measure(w))
  {
  }

  /**
   As long as destroy has not finished, one of the two threads can move, or the worker holds a buffer and can send.
   */
  lemma NeverStuck(size: nat, w: Writer)
    requires Control(size, w) && !w.producer.Done?
    ensures ProducerCan(w) || WorkerCan(w) || Holding(w.worker)
  {
  }
}
