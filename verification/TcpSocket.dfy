/**
 Any number of writers on one shared TCP connection: the send mutex, the sessions that hold a reference to the
 connection, and the end frame sent when the last reference goes. Writers come and go while it is open; every
 step of every thread may be followed by a step of any other.
 */
module TcpSocket {
  import opened Bytes
  import opened Lz4Format
  import opened TcpWriter

  /** Which compressed form stands for which text, how a packet looks on the wire, and the end frame. */
  datatype Codec = Codec(good: (seq<byte>, seq<byte>) -> bool, frame: Packet -> seq<byte>, endMark: seq<byte>)

  /** A header goes before every compressed text, and every text that fits a buffer has a compressed form. */
  ghost predicate Workable(size: nat, codec: Codec) {
    && (forall p :: |codec.frame(p)| == HEADER + |p.comp|)
    && |codec.endMark| == HEADER
    && (forall text :: 0 < |text| <= size ==> Compressible(codec, text))
  }

  ghost predicate Compressible(codec: Codec, text: seq<byte>) {
    exists comp :: codec.good(text, comp)
  }

  /** Who holds the send mutex. */
  datatype Holder = Nobody | WriterHolds(i: nat) | EndHolds(n: nat)

  datatype Connection = Open | Ending | Closed

  datatype World = World(
    writers: seq<Writer>,
    texts: seq<seq<byte>>,       // what each writer was asked to write, in all
    order: seq<Packet>,          // packets sent whole, in order
    owners: seq<nat>,            // the writer of each of them
    wire: seq<byte>,
    holder: Holder,
    sessions: seq<bool>,         // which sessions hold a reference
    refs: int,                   // g_shared_tcp_refcount
    conn: Connection)

  /** The first trace() has connected. */
  const START: World := World([], [], [], [], [], Nobody, [true], 1, Open)

  datatype Label =
    | ProducerMoves(i: nat) | WorkerMoves(i: nat)
    | Compresses(i: nat, comp: seq<byte>) | TakesSend(i: nat) | SendsSome(i: nat, n: nat) | DropsSend(i: nat)
    | FreesSession(j: nat) | EndTakes | EndSends(n: nat) | EndDone
    | Wakes(i: nat)
    | OpensSession | Spawns(j: nat, tid: uint32, script: seq<Op>)

  predicate AllDone(g: World, j: nat) {
    forall i :: 0 <= i < |g.writers| && g.writers[i].session == j ==> g.writers[i].producer.Done?
  }

  /** A session has one buffer for each thread, which is destroyed before it is set up again. */
  predicate Free(writers: seq<Writer>, j: nat, tid: uint32) {
    forall i :: 0 <= i < |writers| && writers[i].session == j && writers[i].tid == tid ==> writers[i].producer.Done?
  }

  predicate Enabled(size: nat, codec: Codec, g: World, l: Label) {
    match l
    case ProducerMoves(i) => i < |g.writers| && Shape(size, g.writers[i]) && ProducerCan(g.writers[i])
    case WorkerMoves(i) => i < |g.writers| && WorkerCan(g.writers[i])
    case Compresses(i, comp) =>
      i < |g.writers| && g.writers[i].worker.Taken? && codec.good(InHand(g.writers[i]), comp)
    case TakesSend(i) => i < |g.writers| && g.writers[i].worker.Compressed? && g.holder.Nobody?
    case SendsSome(i, n) =>
      && i < |g.writers| && g.writers[i].worker.Sending?
      && g.writers[i].worker.n < n <= |codec.frame(Current(g.writers[i]))|
    case DropsSend(i) =>
      && i < |g.writers| && g.writers[i].worker.Sending?
      && g.writers[i].worker.n == |codec.frame(Current(g.writers[i]))|
    case FreesSession(j) => j < |g.sessions| && g.sessions[j] && g.conn.Open? && AllDone(g, j)
    case EndTakes => g.conn.Ending? && g.holder.Nobody?
    case EndSends(n) => g.holder.EndHolds? && g.holder.n < n <= |codec.endMark|
    case EndDone => g.holder.EndHolds? && g.holder.n == |codec.endMark|
    case Wakes(i) => i < |g.writers|
    case OpensSession => g.conn.Open?
    case Spawns(j, tid, _) => g.conn.Open? && j < |g.sessions| && g.sessions[j] && Free(g.writers, j, tid)
  }

  function With(g: World, i: nat, w: Writer): World
    requires i < |g.writers|
  {
    g.(writers := g.writers[i := w])
  }

  function Apply(size: nat, codec: Codec, g: World, l: Label): World
    requires Enabled(size, codec, g, l)
  {
    match l
    case ProducerMoves(i) => With(g, i, ProducerStep(size, g.writers[i]))
    case WorkerMoves(i) => With(g, i, WorkerStep(g.writers[i]))
    case Compresses(i, comp) => With(g, i, GotCompressed(g.writers[i], comp))
    case TakesSend(i) => With(g, i, TookSend(g.writers[i])).(holder := WriterHolds(i))
    case SendsSome(i, n) =>
      var w := g.writers[i];
      With(g, i, SentMore(w, n)).(wire := g.wire + codec.frame(Current(w))[w.worker.n..n])
    case DropsSend(i) =>
      var w := g.writers[i];
      With(g, i, DroppedSend(w)).(order := g.order + [Current(w)], owners := g.owners + [i], holder := Nobody)
    case FreesSession(j) =>
      g.(sessions := g.sessions[j := false], refs := g.refs - 1, conn := if g.refs - 1 <= 0 then Ending else Open)
    case EndTakes => g.(holder := EndHolds(0))
    case EndSends(n) => g.(holder := EndHolds(n), wire := g.wire + codec.endMark[g.holder.n..n])
    case EndDone => g.(holder := Nobody, conn := Closed, refs := 0)
    case Wakes(i) => With(g, i, SpuriousWake(g.writers[i]))
    case OpensSession => g.(sessions := g.sessions + [true], refs := g.refs + 1)
    case Spawns(j, tid, script) =>
      g.(writers := g.writers + [Begin(size, tid, j, script)], texts := g.texts + [ScriptText(script)])
  }

  // ---- invariant ----

  function Wire(codec: Codec, order: seq<Packet>): seq<byte> {
    if order == [] then [] else Wire(codec, order[..|order| - 1]) + codec.frame(order[|order| - 1])
  }

  /** What the holder of the send mutex has sent of its frame, and the end frame once the connection is closed. */
  function Partial(codec: Codec, g: World): seq<byte> {
    match g.holder
    case Nobody => if g.conn.Closed? then codec.endMark else []
    case EndHolds(n) => codec.endMark[..Min(n, |codec.endMark|)]
    case WriterHolds(i) =>
      if i < |g.writers| && g.writers[i].worker.Sending? then
        var f := codec.frame(Current(g.writers[i]));
        f[..Min(g.writers[i].worker.n, |f|)]
      else []
  }

  /** The packets sent under a tid. */
  function From(order: seq<Packet>, tid: uint32): seq<Packet> {
    if order == [] then []
    else
      var p := order[|order| - 1];
      From(order[..|order| - 1], tid) + (if p.tid == tid then [p] else [])
  }

  /** The packets of one writer. */
  function OfWriter(order: seq<Packet>, owners: seq<nat>, i: nat): seq<Packet>
    requires |order| == |owners|
  {
    if order == [] then []
    else
      var n := |order| - 1;
      OfWriter(order[..n], owners[..n], i) + (if owners[n] == i then [order[n]] else [])
  }

  function Held(sessions: seq<bool>): nat {
    if sessions == [] then 0 else Held(sessions[1..]) + (if sessions[0] then 1 else 0)
  }

  ghost predicate WriterOk(size: nat, codec: Codec, g: World, i: nat)
    requires i < |g.writers| && |g.texts| == |g.writers| && |g.owners| == |g.order|
  {
    var w := g.writers[i];
    && Control(size, w) && AllText(w) == g.texts[i]
    && w.session < |g.sessions| && (!g.sessions[w.session] ==> w.producer.Done?)
    && (w.worker.Compressed? || w.worker.Sending? ==> codec.good(InHand(w), w.worker.comp))
    && (w.worker.Sending? ==> g.holder == WriterHolds(i) && w.worker.n <= |codec.frame(Current(w))|)
    && w.sent == OfWriter(g.order, g.owners, i)
  }

  ghost predicate WritersOk(size: nat, codec: Codec, g: World) {
    && |g.texts| == |g.writers| && |g.owners| == |g.order|
    && (forall i :: 0 <= i < |g.writers| ==> WriterOk(size, codec, g, i))
  }

  ghost predicate HolderOk(g: World) {
    && (g.holder.WriterHolds? ==> g.holder.i < |g.writers| && g.writers[g.holder.i].worker.Sending?)
    && (g.holder.EndHolds? ==> g.conn.Ending? && g.holder.n <= HEADER)
  }

  /** A packet is a good one, and its tid is its writer's. */
  ghost predicate PacketOk(codec: Codec, writers: seq<Writer>, p: Packet, i: nat) {
    codec.good(p.text, p.comp) && i < |writers| && writers[i].tid == p.tid
  }

  ghost predicate OrderOk(codec: Codec, g: World) {
    |g.owners| == |g.order| && forall k :: 0 <= k < |g.order| ==> PacketOk(codec, g.writers, g.order[k], g.owners[k])
  }

  /** The count is that of the holders, and the connection is open as long as there is one. */
  ghost predicate RefsOk(g: World) {
    && (g.conn.Open? ==> g.refs == Held(g.sessions) && g.refs > 0)
    && (!g.conn.Open? ==> Held(g.sessions) == 0)
  }

  ghost predicate WireOk(codec: Codec, g: World) {
    g.wire == Wire(codec, g.order) + Partial(codec, g)
  }

  ghost predicate Inv(size: nat, codec: Codec, g: World) {
    WritersOk(size, codec, g) && HolderOk(g) && OrderOk(codec, g) && RefsOk(g) && WireOk(codec, g)
  }

  // ---- the invariant is kept ----

  /** A change of a writer's own state only: not of its packets, nor of its sending. */
  ghost predicate Local(size: nat, codec: Codec, v: Writer, w: Writer) {
    && Control(size, w) && AllText(w) == AllText(v) && w.sent == v.sent
    && w.tid == v.tid && w.session == v.session && (v.producer.Done? ==> w.producer.Done?)
    && (w.worker.Sending? <==> v.worker.Sending?)
    && (w.worker.Sending? ==> w.worker == v.worker && InHand(w) == InHand(v))
    && (w.worker.Compressed? ==> codec.good(InHand(w), w.worker.comp))
  }

  lemma LocalKeepsOther(size: nat, codec: Codec, g: World, i: nat, w: Writer, k: nat)
    requires |g.texts| == |g.writers| && |g.owners| == |g.order| && i < |g.writers| && k < |g.writers| && k != i
    requires WriterOk(size, codec, g, k)
    ensures WriterOk(size, codec, With(g, i, w), k)
  {
    assert With(g, i, w).writers[k] == g.writers[k];
  }

  lemma LocalKeepsOwn(size: nat, codec: Codec, g: World, i: nat, w: Writer)
    requires |g.texts| == |g.writers| && |g.owners| == |g.order| && i < |g.writers|
    requires WriterOk(size, codec, g, i) && Local(size, codec, g.writers[i], w)
    ensures WriterOk(size, codec, With(g, i, w), i)
  {
    assert With(g, i, w).writers[i] == w;
    if w.worker.Sending? {
      assert Current(w) == Current(g.writers[i]);
    }
  }

  /** Such a change disturbs nobody. */
  lemma LocalKeeps(size: nat, codec: Codec, g: World, i: nat, w: Writer)
    requires Inv(size, codec, g) && i < |g.writers| && Local(size, codec, g.writers[i], w)
    ensures Inv(size, codec, With(g, i, w))
  {
    var g' := With(g, i, w);
    assert WriterOk(size, codec, g, i);
    forall k | 0 <= k < |g'.writers| ensures WriterOk(size, codec, g', k) {
      assert WriterOk(size, codec, g, k);
      if k == i {
        LocalKeepsOwn(size, codec, g, i, w);
      } else {
        LocalKeepsOther(size, codec, g, i, w, k);
      }
    }
    forall k | 0 <= k < |g'.order| ensures PacketOk(codec, g'.writers, g'.order[k], g'.owners[k]) {
      OrderKept(codec, g, i, w, k);
    }
  }

  lemma ProducerKeeps(size: nat, codec: Codec, g: World, i: nat)
    requires Inv(size, codec, g) && Enabled(size, codec, g, ProducerMoves(i))
    ensures Inv(size, codec, Apply(size, codec, g, ProducerMoves(i)))
  {
    assert WriterOk(size, codec, g, i);
    var w := g.writers[i];
    ProducerKeepsControl(size, w);
    ProducerKeepsText(size, w);
    ProducerFrame(size, w);
    LocalKeeps(size, codec, g, i, ProducerStep(size, w));
  }

  /** What a step of the tracing thread leaves alone. */
  lemma ProducerFrame(size: nat, w: Writer)
    requires Control(size, w) && ProducerCan(w)
    ensures var v := ProducerStep(size, w);
            && v.sent == w.sent && v.tid == w.tid && v.session == w.session && !w.producer.Done?
            && v.worker == (if w.worker.Sleep? then v.worker else w.worker)
            && (w.worker.Sleep? ==> v.worker.Sleep? || v.worker.Lock?)
            && (Holding(w.worker) ==> InHand(v) == InHand(w))
  {
    if Holding(w.worker) {
      HandUntouched(size, w);
    }
  }

  lemma HandUntouched(size: nat, w: Writer)
    requires Control(size, w) && ProducerCan(w) && Holding(w.worker)
    ensures InHand(ProducerStep(size, w)) == InHand(w)
  {
  }

  lemma WorkerKeeps(size: nat, codec: Codec, g: World, i: nat)
    requires Inv(size, codec, g) && Enabled(size, codec, g, WorkerMoves(i))
    ensures Inv(size, codec, Apply(size, codec, g, WorkerMoves(i)))
  {
    assert WriterOk(size, codec, g, i);
    WorkerKeepsControl(size, g.writers[i]);
    WorkerKeepsText(size, g.writers[i]);
    LocalKeeps(size, codec, g, i, WorkerStep(g.writers[i]));
  }

  lemma CompressKeeps(size: nat, codec: Codec, g: World, i: nat, comp: seq<byte>)
    requires Inv(size, codec, g) && Enabled(size, codec, g, Compresses(i, comp))
    ensures Inv(size, codec, Apply(size, codec, g, Compresses(i, comp)))
  {
    assert WriterOk(size, codec, g, i);
    SendingKeeps(size, g.writers[i]);
    LocalKeeps(size, codec, g, i, GotCompressed(g.writers[i], comp));
  }

  lemma WakeKeeps(size: nat, codec: Codec, g: World, i: nat)
    requires Inv(size, codec, g) && Enabled(size, codec, g, Wakes(i))
    ensures Inv(size, codec, Apply(size, codec, g, Wakes(i)))
  {
    assert WriterOk(size, codec, g, i);
    SpuriousKeeps(size, g.writers[i]);
    LocalKeeps(size, codec, g, i, SpuriousWake(g.writers[i]));
  }

  /** Changing one writer keeps who sent what. */
  lemma OrderKept(codec: Codec, g: World, i: nat, w: Writer, k: nat)
    requires i < |g.writers| && w.tid == g.writers[i].tid && OrderOk(codec, g) && k < |g.order|
    ensures PacketOk(codec, g.writers[i := w], g.order[k], g.owners[k])
  {
    assert PacketOk(codec, g.writers, g.order[k], g.owners[k]);
  }

  lemma {:induction false} HeldNone(sessions: seq<bool>, j: nat)
    requires j < |sessions| && sessions[j]
    ensures Held(sessions) > 0
  {
    if j > 0 {
      HeldNone(sessions[1..], j - 1);
    }
  }

  /** The connection is open for as long as any writer has not finished. */
  lemma ActiveOpen(size: nat, codec: Codec, g: World, i: nat)
    requires Inv(size, codec, g) && i < |g.writers| && !g.writers[i].producer.Done?
    ensures g.conn.Open? && !g.holder.EndHolds?
  {
    assert WriterOk(size, codec, g, i);
    HeldNone(g.sessions, g.writers[i].session);
  }

  lemma TakeKeepsWriter(size: nat, codec: Codec, g: World, i: nat, k: nat)
    requires Inv(size, codec, g) && Enabled(size, codec, g, TakesSend(i)) && k < |g.writers|
    ensures WriterOk(size, codec, Apply(size, codec, g, TakesSend(i)), k)
  {
    assert WriterOk(size, codec, g, k);
    if k == i {
      TakeKeepsOwn(size, codec, g, i);
    }
  }

  lemma TakeKeepsOwn(size: nat, codec: Codec, g: World, i: nat)
    requires Inv(size, codec, g) && Enabled(size, codec, g, TakesSend(i))
    ensures WriterOk(size, codec, Apply(size, codec, g, TakesSend(i)), i)
  {
    assert WriterOk(size, codec, g, i);
    SendingKeeps(size, g.writers[i]);
  }

  /** At most one writer is sending: the one that holds the mutex. */
  lemma TakeKeeps(size: nat, codec: Codec, g: World, i: nat)
    requires Workable(size, codec) && Inv(size, codec, g) && Enabled(size, codec, g, TakesSend(i))
    ensures Inv(size, codec, Apply(size, codec, g, TakesSend(i)))
  {
    var g' := Apply(size, codec, g, TakesSend(i));
    assert !g.writers[i].producer.Done? by {
      assert WriterOk(size, codec, g, i);
    }
    ActiveOpen(size, codec, g, i);
    forall k | 0 <= k < |g'.writers| ensures WriterOk(size, codec, g', k) {
      TakeKeepsWriter(size, codec, g, i, k);
    }
    forall k | 0 <= k < |g'.order| ensures PacketOk(codec, g'.writers, g'.order[k], g'.owners[k]) {
      OrderKept(codec, g, i, TookSend(g.writers[i]), k);
    }
    assert Partial(codec, g') == [];
  }

  lemma SliceOn(f: seq<byte>, a: nat, b: nat)
    requires a <= b <= |f|
    ensures f[..a] + f[a..b] == f[..b]
  {
  }

  lemma SendKeepsWriter(size: nat, codec: Codec, g: World, i: nat, n: nat, k: nat)
    requires Inv(size, codec, g) && Enabled(size, codec, g, SendsSome(i, n)) && k < |g.writers|
    ensures WriterOk(size, codec, Apply(size, codec, g, SendsSome(i, n)), k)
  {
    assert WriterOk(size, codec, g, i) && WriterOk(size, codec, g, k);
    SendingKeeps(size, g.writers[i]);
    assert Current(SentMore(g.writers[i], n)) == Current(g.writers[i]);
  }

  /** The holder's next bytes go right behind its earlier ones. */
  lemma SendKeeps(size: nat, codec: Codec, g: World, i: nat, n: nat)
    requires Inv(size, codec, g) && Enabled(size, codec, g, SendsSome(i, n))
    ensures Inv(size, codec, Apply(size, codec, g, SendsSome(i, n)))
  {
    var w, g' := g.writers[i], Apply(size, codec, g, SendsSome(i, n));
    assert g.holder == WriterHolds(i) by {
      assert WriterOk(size, codec, g, i);
    }
    assert Current(SentMore(w, n)) == Current(w);
    forall k | 0 <= k < |g'.writers| ensures WriterOk(size, codec, g', k) {
      SendKeepsWriter(size, codec, g, i, n, k);
    }
    forall k | 0 <= k < |g'.order| ensures PacketOk(codec, g'.writers, g'.order[k], g'.owners[k]) {
      OrderKept(codec, g, i, SentMore(w, n), k);
    }
    var f := codec.frame(Current(w));
    SliceOn(f, w.worker.n, n);
    ConcatAssociative(Wire(codec, g.order), f[..w.worker.n], f[w.worker.n..n]);
  }

  lemma FromSnoc(order: seq<Packet>, p: Packet, tid: uint32)
    ensures From(order + [p], tid) == From(order, tid) + (if p.tid == tid then [p] else [])
  {
    assert (order + [p])[..|order|] == order;
  }

  lemma OfWriterSnoc(order: seq<Packet>, owners: seq<nat>, p: Packet, i: nat, k: nat)
    requires |order| == |owners|
    ensures OfWriter(order + [p], owners + [i], k) == OfWriter(order, owners, k) + (if k == i then [p] else [])
  {
    assert (order + [p])[..|order|] == order && (owners + [i])[..|owners|] == owners;
  }

  lemma WireSnoc(codec: Codec, order: seq<Packet>, p: Packet)
    ensures Wire(codec, order + [p]) == Wire(codec, order) + codec.frame(p)
  {
    assert (order + [p])[..|order|] == order;
  }

  /** A packet that is out whole is next in the order, as its writer's only. */
  lemma DropKeepsWriter(size: nat, codec: Codec, g: World, i: nat, k: nat)
    requires Inv(size, codec, g) && Enabled(size, codec, g, DropsSend(i)) && k < |g.writers|
    ensures WriterOk(size, codec, Apply(size, codec, g, DropsSend(i)), k)
  {
    assert WriterOk(size, codec, g, i) && WriterOk(size, codec, g, k);
    DroppedKeeps(size, g.writers[i]);
    OfWriterSnoc(g.order, g.owners, Current(g.writers[i]), i, k);
  }

  lemma DropKeepsOrder(size: nat, codec: Codec, g: World, i: nat)
    requires Inv(size, codec, g) && Enabled(size, codec, g, DropsSend(i))
    ensures OrderOk(codec, Apply(size, codec, g, DropsSend(i)))
  {
    var w, g' := g.writers[i], Apply(size, codec, g, DropsSend(i));
    assert WriterOk(size, codec, g, i);
    forall k | 0 <= k < |g'.order| ensures PacketOk(codec, g'.writers, g'.order[k], g'.owners[k]) {
      if k < |g.order| {
        OrderKept(codec, g, i, DroppedSend(w), k);
      }
    }
  }

  lemma DropKeepsWire(size: nat, codec: Codec, g: World, i: nat)
    requires Inv(size, codec, g) && Enabled(size, codec, g, DropsSend(i))
    ensures WireOk(codec, Apply(size, codec, g, DropsSend(i)))
  {
    var g' := Apply(size, codec, g, DropsSend(i));
    var f := codec.frame(Current(g.writers[i]));
    assert WriterOk(size, codec, g, i);
    ActiveOpen(size, codec, g, i);
    WireSnoc(codec, g.order, Current(g.writers[i]));
    assert f[..|f|] == f && g'.wire + [] == g'.wire;
  }

  lemma DropKeeps(size: nat, codec: Codec, g: World, i: nat)
    requires Inv(size, codec, g) && Enabled(size, codec, g, DropsSend(i))
    ensures Inv(size, codec, Apply(size, codec, g, DropsSend(i)))
  {
    var g' := Apply(size, codec, g, DropsSend(i));
    forall k | 0 <= k < |g'.writers| ensures WriterOk(size, codec, g', k) {
      DropKeepsWriter(size, codec, g, i, k);
    }
    DropKeepsOrder(size, codec, g, i);
    DropKeepsWire(size, codec, g, i);
  }

  lemma {:induction false} HeldSet(sessions: seq<bool>, j: nat)
    requires j < |sessions| && sessions[j]
    ensures Held(sessions[j := false]) + 1 == Held(sessions)
  {
    if j == 0 {
      assert sessions[0 := false][1..] == sessions[1..];
    } else {
      HeldSet(sessions[1..], j - 1);
      assert sessions[j := false][1..] == sessions[1..][j - 1 := false];
    }
  }

  lemma {:induction false} HeldAdd(sessions: seq<bool>)
    ensures Held(sessions + [true]) == Held(sessions) + 1
  {
    if sessions != [] {
      HeldAdd(sessions[1..]);
      assert (sessions + [true])[1..] == sessions[1..] + [true];
    }
  }

  /** A reference is given up only when all of the session's writers have finished. */
  lemma FreeKeeps(size: nat, codec: Codec, g: World, j: nat)
    requires Inv(size, codec, g) && Enabled(size, codec, g, FreesSession(j))
    ensures Inv(size, codec, Apply(size, codec, g, FreesSession(j)))
  {
    var g' := Apply(size, codec, g, FreesSession(j));
    HeldSet(g.sessions, j);
    forall k | 0 <= k < |g'.writers| ensures WriterOk(size, codec, g', k) {
      assert WriterOk(size, codec, g, k);
    }
    assert Partial(codec, g') == Partial(codec, g);
  }

  lemma SameWriters(size: nat, codec: Codec, g: World, g': World)
    requires Inv(size, codec, g)
    requires g'.writers == g.writers && g'.texts == g.texts && g'.order == g.order && g'.owners == g.owners
    requires |g.sessions| <= |g'.sessions| && g'.sessions[..|g.sessions|] == g.sessions
    requires g.holder.WriterHolds? ==> g'.holder == g.holder
    ensures WritersOk(size, codec, g') && OrderOk(codec, g')
  {
    forall k | 0 <= k < |g'.writers| ensures WriterOk(size, codec, g', k) {
      assert WriterOk(size, codec, g, k);
      assert g'.sessions[..|g.sessions|][g.writers[k].session] == g.sessions[g.writers[k].session];
    }
  }

  /** The end frame: behind all packets, since no writer is left that could send. */
  lemma EndKeeps(size: nat, codec: Codec, g: World, l: Label)
    requires Workable(size, codec) && Inv(size, codec, g) && Enabled(size, codec, g, l)
    requires l.EndTakes? || l.EndSends? || l.EndDone?
    ensures Inv(size, codec, Apply(size, codec, g, l))
  {
    var g' := Apply(size, codec, g, l);
    assert g'.sessions[..|g.sessions|] == g.sessions;
    SameWriters(size, codec, g, g');
    if l.EndSends? {
      SliceOn(codec.endMark, g.holder.n, l.n);
      ConcatAssociative(Wire(codec, g.order), codec.endMark[..g.holder.n], codec.endMark[g.holder.n..l.n]);
    } else if l.EndDone? {
      assert codec.endMark[..|codec.endMark|] == codec.endMark;
    } else {
      assert codec.endMark[..0] == [];
    }
  }

  lemma OpenKeeps(size: nat, codec: Codec, g: World)
    requires Inv(size, codec, g) && Enabled(size, codec, g, OpensSession)
    ensures Inv(size, codec, Apply(size, codec, g, OpensSession))
  {
    var g' := Apply(size, codec, g, OpensSession);
    HeldAdd(g.sessions);
    assert g'.sessions[..|g.sessions|] == g.sessions;
    SameWriters(size, codec, g, g');
  }

  lemma {:induction false} OfNobody(order: seq<Packet>, owners: seq<nat>, i: nat)
    requires |order| == |owners| && forall k :: 0 <= k < |owners| ==> owners[k] != i
    ensures OfWriter(order, owners, i) == []
  {
    if order != [] {
      OfNobody(order[..|order| - 1], owners[..|order| - 1], i);
    }
  }

  lemma SpawnKeepsWriter(size: nat, codec: Codec, g: World, l: Label, k: nat)
    requires size > 0 && Inv(size, codec, g) && Enabled(size, codec, g, l) && l.Spawns? && k <= |g.writers|
    ensures WriterOk(size, codec, Apply(size, codec, g, l), k)
  {
    if k < |g.writers| {
      assert WriterOk(size, codec, g, k);
    } else {
      BeginControl(size, l.tid, l.j, l.script);
      forall n | 0 <= n < |g.owners| ensures g.owners[n] < k {
        assert PacketOk(codec, g.writers, g.order[n], g.owners[n]);
      }
      OfNobody(g.order, g.owners, k);
    }
  }

  /** A new writer, on a thread of any tid, the writers of other sessions on that thread finished or not. */
  lemma SpawnKeeps(size: nat, codec: Codec, g: World, l: Label)
    requires size > 0 && Inv(size, codec, g) && Enabled(size, codec, g, l) && l.Spawns?
    ensures Inv(size, codec, Apply(size, codec, g, l))
  {
    var g' := Apply(size, codec, g, l);
    forall k | 0 <= k < |g.order| ensures PacketOk(codec, g'.writers, g.order[k], g.owners[k]) {
      assert PacketOk(codec, g.writers, g.order[k], g.owners[k]);
    }
    forall k | 0 <= k < |g'.writers| ensures WriterOk(size, codec, g', k) {
      SpawnKeepsWriter(size, codec, g, l, k);
    }
    assert Partial(codec, g') == Partial(codec, g);
  }

  /** Every step of every thread keeps the invariant. */
  lemma StepKeeps(size: nat, codec: Codec, g: World, l: Label)
    requires size > 0 && Workable(size, codec) && Inv(size, codec, g) && Enabled(size, codec, g, l)
    ensures Inv(size, codec, Apply(size, codec, g, l))
  {
    match l
    case ProducerMoves(i) => ProducerKeeps(size, codec, g, i);
    case WorkerMoves(i) => WorkerKeeps(size, codec, g, i);
    case Compresses(i, comp) => CompressKeeps(size, codec, g, i, comp);
    case TakesSend(i) => TakeKeeps(size, codec, g, i);
    case SendsSome(i, n) => SendKeeps(size, codec, g, i, n);
    case DropsSend(i) => DropKeeps(size, codec, g, i);
    case FreesSession(j) => FreeKeeps(size, codec, g, j);
    case EndTakes => EndKeeps(size, codec, g, l);
    case EndSends(n) => EndKeeps(size, codec, g, l);
    case EndDone => EndKeeps(size, codec, g, l);
    case Wakes(i) => WakeKeeps(size, codec, g, i);
    case OpensSession => OpenKeeps(size, codec, g);
    case Spawns(_, _, _) => SpawnKeeps(size, codec, g, l);
  }

  // ---- whole runs ----

  /** The state after these steps, if each of them is possible where it is taken. */
  ghost function AfterSteps(size: nat, codec: Codec, ls: seq<Label>): Option<World> {
    if ls == [] then Some(START)
    else
      match AfterSteps(size, codec, ls[..|ls| - 1])
      case None => None
      case Some(g) =>
        var l := ls[|ls| - 1];
        if Enabled(size, codec, g, l) then Some(Apply(size, codec, g, l)) else None
  }

  /** Every state of every run meets the invariant. */
  lemma {:induction false} RunInv(size: nat, codec: Codec, ls: seq<Label>)
    requires size > 0 && Workable(size, codec)
    ensures AfterSteps(size, codec, ls).Some? ==> Inv(size, codec, AfterSteps(size, codec, ls).value)
  {
    if ls == [] {
      assert Held([true][1..]) == 0;
    } else {
      var front := ls[..|ls| - 1];
      RunInv(size, codec, front);
      if AfterSteps(size, codec, ls).Some? {
        StepKeeps(size, codec, AfterSteps(size, codec, front).value, ls[|ls| - 1]);
      }
    }
  }

  /** A writer's packets are on the wire in the order it sent them, and carry all its text once it is done. */
  lemma SentByWriter(size: nat, codec: Codec, g: World, i: nat)
    requires Inv(size, codec, g) && i < |g.writers|
    ensures OfWriter(g.order, g.owners, i) == g.writers[i].sent
    ensures g.writers[i].producer.Done? ==> SentText(OfWriter(g.order, g.owners, i)) == g.texts[i]
  {
    assert WriterOk(size, codec, g, i);
    if g.writers[i].producer.Done? {
      DoneSentAll(size, g.writers[i]);
    }
  }

  lemma ClosedDone(size: nat, codec: Codec, g: World, i: nat)
    requires Inv(size, codec, g) && !g.conn.Open? && i < |g.writers|
    ensures g.writers[i].producer.Done?
  {
    if !g.writers[i].producer.Done? {
      ActiveOpen(size, codec, g, i);
    }
  }

  /**
   Once the connection is closed, the wire holds whole packets only and then one end frame, and each writer's packets
   carry exactly what it was asked to write.
   */
  lemma ClosedWire(size: nat, codec: Codec, g: World)
    requires Inv(size, codec, g) && g.conn.Closed?
    ensures g.wire == Wire(codec, g.order) + codec.endMark
    ensures forall i :: 0 <= i < |g.writers| ==> SentText(OfWriter(g.order, g.owners, i)) == g.texts[i]
  {
    assert !g.holder.WriterHolds? by {
      if g.holder.WriterHolds? {
        assert WriterOk(size, codec, g, g.holder.i);
        ClosedDone(size, codec, g, g.holder.i);
      }
    }
    forall i | 0 <= i < |g.writers| ensures SentText(OfWriter(g.order, g.owners, i)) == g.texts[i] {
      ClosedDone(size, codec, g, i);
      SentByWriter(size, codec, g, i);
    }
  }

  /** The beginning of the end frame, or of the frame that some writer is sending. */
  ghost predicate Begun(codec: Codec, g: World, part: seq<byte>) {
    part == [] || IsPrefix(part, codec.endMark)
    || exists i :: 0 <= i < |g.writers| && g.writers[i].worker.Sending?
        && IsPrefix(part, codec.frame(Current(g.writers[i])))
  }

  lemma PartialBegun(size: nat, codec: Codec, g: World)
    requires Workable(size, codec) && Inv(size, codec, g)
    ensures g.wire == Wire(codec, g.order) + Partial(codec, g) && Begun(codec, g, Partial(codec, g))
  {
  }

  /** At any moment of any run the wire holds whole packets and, at most, the beginning of one more frame. */
  lemma NeverInterleaved(size: nat, codec: Codec, ls: seq<Label>, g: World)
    requires size > 0 && Workable(size, codec) && AfterSteps(size, codec, ls) == Some(g)
    ensures exists part :: g.wire == Wire(codec, g.order) + part && Begun(codec, g, part)
  {
    RunInv(size, codec, ls);
    PartialBegun(size, codec, g);
  }

  /**
   At any moment of any run: a buffer that is pending or in flight is not the one the tracing thread fills, and the
   thread's next step leaves it as it is; and a writer that has come to its end has sent all it was asked to write.
   */
  lemma NothingLost(size: nat, codec: Codec, ls: seq<Label>, g: World, i: nat)
    requires size > 0 && Workable(size, codec) && AfterSteps(size, codec, ls) == Some(g) && i < |g.writers|
    ensures var w := g.writers[i]; var b := if w.pending then w.bgIdx else w.idx;
            Shape(size, w) && (Holding(w.worker) || w.pending ==>
              b != w.active && (ProducerCan(w) ==> Buf(ProducerStep(size, w), b) == Buf(w, b)))
    ensures |g.texts| == |g.writers| && |g.owners| == |g.order| &&
            (g.writers[i].producer.Done? ==> SentText(OfWriter(g.order, g.owners, i)) == g.texts[i])
  {
    RunInv(size, codec, ls);
    assert WriterOk(size, codec, g, i);
    SentByWriter(size, codec, g, i);
    if ProducerCan(g.writers[i]) && (Holding(g.writers[i].worker) || g.writers[i].pending) {
      InFlightUntouched(size, g.writers[i]);
    }
  }

  /** In every state of every run: the connection is open as long as a session holds a reference, and no longer. */
  lemma OpenWhileHeld(size: nat, codec: Codec, ls: seq<Label>, g: World)
    requires size > 0 && Workable(size, codec) && AfterSteps(size, codec, ls) == Some(g)
    ensures g.conn.Open? <==> Held(g.sessions) > 0
    ensures g.conn.Open? ==> g.refs == Held(g.sessions)
  {
    RunInv(size, codec, ls);
  }

  /**
   Tracing a function again frees its earlier session and opens a new one. With another session on the connection
   both are possible there and the count is what it was; else the connection ends first, and the next is a new one.
   */
  lemma TraceAgain(size: nat, codec: Codec, ls: seq<Label>, g: World, j: nat)
    requires size > 0 && Workable(size, codec) && AfterSteps(size, codec, ls) == Some(g)
    requires Enabled(size, codec, g, FreesSession(j))
    ensures var v := Apply(size, codec, g, FreesSession(j));
            && (Held(g.sessions) > 1 <==> Enabled(size, codec, v, OpensSession))
            && (Held(g.sessions) > 1 ==> Apply(size, codec, v, OpensSession).refs == g.refs)
            && (Held(g.sessions) == 1 ==> v.conn.Ending?)
  {
    OpenWhileHeld(size, codec, ls, g);
  }

  // ---- progress ----

  /** Steps the protocol takes on its own: no spurious wake-ups, no new sessions or writers. */
  predicate OwnStep(l: Label) {
    !l.Wakes? && !l.OpensSession? && !l.Spawns?
  }

  lemma {:induction false} HeldSome(sessions: seq<bool>) returns (j: nat)
    requires Held(sessions) > 0
    ensures j < |sessions| && sessions[j]
  {
    if sessions[0] {
      j := 0;
    } else {
      j := HeldSome(sessions[1..]);
      j := j + 1;
    }
  }

  predicate WriterLabel(l: Label, i: nat) {
    (l.ProducerMoves? || l.WorkerMoves? || l.Compresses? || l.TakesSend? || l.SendsSome? || l.DropsSend?) && l.i == i
  }

  /** A writer that has not finished can move, or the one that holds the send mutex can. */
  lemma WriterCanMove(size: nat, codec: Codec, g: World, i: nat) returns (l: Label)
    requires Workable(size, codec) && Inv(size, codec, g) && i < |g.writers| && !g.writers[i].producer.Done?
    ensures OwnStep(l) && Enabled(size, codec, g, l)
    ensures g.holder.Nobody? || g.holder == WriterHolds(i) ==> WriterLabel(l, i)
  {
    var w := g.writers[i];
    assert WriterOk(size, codec, g, i);
    ActiveOpen(size, codec, g, i);
    NeverStuck(size, w);
    if ProducerCan(w) {
      l := ProducerMoves(i);
    } else if WorkerCan(w) {
      l := WorkerMoves(i);
    } else if w.worker.Taken? {
      assert 0 < |InHand(w)| <= size;
      assert Compressible(codec, InHand(w));
      var comp :| codec.good(InHand(w), comp);
      l := Compresses(i, comp);
    } else if g.holder.WriterHolds? {
      l := HolderCanMove(size, codec, g, g.holder.i);
    } else {
      l := TakesSend(i);
    }
  }

  lemma HolderCanMove(size: nat, codec: Codec, g: World, i: nat) returns (l: Label)
    requires Inv(size, codec, g) && g.holder == WriterHolds(i)
    ensures OwnStep(l) && Enabled(size, codec, g, l) && WriterLabel(l, i)
  {
    var w := g.writers[i];
    assert WriterOk(size, codec, g, i);
    var all := |codec.frame(Current(w))|;
    l := if w.worker.n < all then SendsSome(i, all) else DropsSend(i);
  }

  /** No reachable state is stuck before the end frame is out and the connection closed: some thread can take a step. */
  lemma NobodyStuck(size: nat, codec: Codec, ls: seq<Label>, g: World) returns (l: Label)
    requires size > 0 && Workable(size, codec) && AfterSteps(size, codec, ls) == Some(g) && !g.conn.Closed?
    ensures OwnStep(l) && Enabled(size, codec, g, l)
  {
    RunInv(size, codec, ls);
    if i :| 0 <= i < |g.writers| && !g.writers[i].producer.Done? {
      l := WriterCanMove(size, codec, g, i);
    } else if Held(g.sessions) > 0 {
      var j := HeldSome(g.sessions);
      l := FreesSession(j);
    } else if g.holder.WriterHolds? {
      l := HolderCanMove(size, codec, g, g.holder.i);
    } else if g.holder.EndHolds? {
      l := if g.holder.n < HEADER then EndSends(HEADER) else EndDone;
    } else {
      l := EndTakes;
    }
  }

  function Sum(f: Writer -> nat, ws: seq<Writer>): nat {
    if ws == [] then 0 else f(ws[0]) + Sum(f, ws[1..])
  }

  lemma {:induction false} SumUpdate(f: Writer -> nat, ws: seq<Writer>, i: nat, w: Writer)
    requires i < |ws|
    ensures Sum(f, ws[i := w]) == Sum(f, ws) - f(ws[i]) + f(w)
  {
    if i == 0 {
      assert ws[0 := w][1..] == ws[1..];
    } else {
      SumUpdate(f, ws[1..], i - 1, w);
      assert ws[i := w][1..] == ws[1..][i - 1 := w];
    }
  }

  /** What is left of giving up references and of the end frame. */
  function EndStage(g: World): nat {
    40 * Held(g.sessions)
    + match g.conn
      case Open => 16
      case Ending => if g.holder.EndHolds? then Max(13 - g.holder.n, 0) else 15
      case Closed => 0
  }

  function WorldMeasure(g: World): Rank {
    Rank(Sum(w => Measure(w).work, g.writers), Sum(w => Measure(w).job, g.writers),
         Sum(w => Measure(w).unsent, g.writers), Sum(w => Measure(w).locks, g.writers) + EndStage(g))
  }

  lemma WriterProgress(g: World, i: nat, w: Writer, g': World)
    requires i < |g.writers| && g'.writers == g.writers[i := w]
    requires Below(Measure(w), Measure(g.writers[i])) && EndStage(g') == EndStage(g)
    ensures Below(WorldMeasure(g'), WorldMeasure(g))
  {
    SumUpdate(w => Measure(w).work, g.writers, i, w);
    SumUpdate(w => Measure(w).job, g.writers, i, w);
    SumUpdate(w => Measure(w).unsent, g.writers, i, w);
    SumUpdate(w => Measure(w).locks, g.writers, i, w);
  }

  /** Every own step gets nearer the end, in a well-founded order: no run goes on for ever without new work. */
  lemma StepProgress(size: nat, codec: Codec, g: World, l: Label)
    requires Workable(size, codec) && Inv(size, codec, g) && OwnStep(l) && Enabled(size, codec, g, l)
    ensures Below(WorldMeasure(Apply(size, codec, g, l)), WorldMeasure(g))
  {
    if l.FreesSession? {
      HeldSet(g.sessions, l.j);
    } else if l.EndTakes? || l.EndSends? || l.EndDone? {
    } else {
      WriterStepProgress(size, codec, g, l);
    }
  }

  lemma WriterStepProgress(size: nat, codec: Codec, g: World, l: Label)
    requires Workable(size, codec) && Inv(size, codec, g) && Enabled(size, codec, g, l)
    requires l.ProducerMoves? || l.WorkerMoves? || l.Compresses? || l.TakesSend? || l.SendsSome? || l.DropsSend?
    ensures Below(WorldMeasure(Apply(size, codec, g, l)), WorldMeasure(g))
  {
    var i := l.i;
    var w, g' := g.writers[i], Apply(size, codec, g, l);
    assert WriterOk(size, codec, g, i);
    if l.ProducerMoves? {
      ProducerProgress(size, w);
    } else if l.WorkerMoves? {
      WorkerProgress(size, w);
    } else {
      SendProgress(w);
      ActiveOpen(size, codec, g, i);
    }
    WriterProgress(g, i, g'.writers[i], g');
  }

  lemma AfterOneMore(size: nat, codec: Codec, ls: seq<Label>, g: World, l: Label)
    requires AfterSteps(size, codec, ls) == Some(g) && Enabled(size, codec, g, l)
    ensures AfterSteps(size, codec, ls + [l]) == Some(Apply(size, codec, g, l))
  {
    assert (ls + [l])[..|ls|] == ls;
  }

  /** What own steps leave as it is: who was asked to write what, and the packets that are out. */
  predicate Continues(g: World, v: World) {
    && v.texts == g.texts && |v.writers| == |g.writers|
    && (forall k :: 0 <= k < |g.writers| ==>
                      v.writers[k].tid == g.writers[k].tid && v.writers[k].session == g.writers[k].session)
    && |g.order| <= |v.order| && v.order[..|g.order|] == g.order
    && |g.owners| <= |v.owners| && v.owners[..|g.owners|] == g.owners
  }

  lemma OwnStepContinues(size: nat, codec: Codec, g: World, l: Label)
    requires Inv(size, codec, g) && Enabled(size, codec, g, l) && OwnStep(l)
    ensures Continues(g, Apply(size, codec, g, l))
  {
    if l.ProducerMoves? {
      assert WriterOk(size, codec, g, l.i);
      ProducerFrame(size, g.writers[l.i]);
    }
  }

  lemma ContinuesOn(g: World, u: World, v: World)
    requires Continues(g, u) && Continues(u, v)
    ensures Continues(g, v)
  {
    assert v.order[..|g.order|] == v.order[..|u.order|][..|g.order|];
    assert v.owners[..|g.owners|] == v.owners[..|u.owners|][..|g.owners|];
  }

  /** One own step towards the end, when the end is not reached. */
  lemma OwnStepOn(size: nat, codec: Codec, ls: seq<Label>, g: World) returns (l: Label, v: World)
    requires size > 0 && Workable(size, codec) && AfterSteps(size, codec, ls) == Some(g) && !g.conn.Closed?
    ensures OwnStep(l) && AfterSteps(size, codec, ls + [l]) == Some(v) && Below(WorldMeasure(v), WorldMeasure(g))
    ensures Continues(g, v)
  {
    RunInv(size, codec, ls);
    l := NobodyStuck(size, codec, ls, g);
    v := Apply(size, codec, g, l);
    StepProgress(size, codec, g, l);
    OwnStepContinues(size, codec, g, l);
    AfterOneMore(size, codec, ls, g, l);
  }

  predicate AllOwn(ls: seq<Label>) {
    forall k :: 0 <= k < |ls| ==> OwnStep(ls[k])
  }

  lemma OneThenOwn(l: Label, rest: seq<Label>)
    requires OwnStep(l) && AllOwn(rest)
    ensures AllOwn([l] + rest)
  {
  }

  lemma NothingMore(ls: seq<Label>)
    ensures ls + [] == ls
  {
  }

  lemma OneThenRest(ls: seq<Label>, l: Label, rest: seq<Label>)
    ensures ls + [l] + rest == ls + ([l] + rest)
  {
  }

  /** Own steps that bring a state to its end; r is the state's measure. */
  lemma {:induction false} StepsToEnd(size: nat, codec: Codec, ls: seq<Label>, g: World, r: Rank)
    returns (more: seq<Label>, last: World)
    requires size > 0 && Workable(size, codec) && AfterSteps(size, codec, ls) == Some(g) && r == WorldMeasure(g)
    ensures AfterSteps(size, codec, ls + more) == Some(last) && last.conn.Closed?
    ensures Continues(g, last) && AllOwn(more)
    decreases r.work, r.job, r.unsent, r.locks
  {
    if g.conn.Closed? {
      more, last := [], g;
      NothingMore(ls);
    } else {
      var l, v := OwnStepOn(size, codec, ls, g);
      var rest;
      rest, last := StepsToEnd(size, codec, ls + [l], v, WorldMeasure(v));
      more := [l] + rest;
      OneThenRest(ls, l, rest);
      OneThenOwn(l, rest);
      ContinuesOn(g, v, last);
    }
  }

  /**
   From every reachable state the threads can bring the connection to its end by themselves, and since each of their
   steps lowers the measure, they cannot go on for ever without: all frames are out, then one end frame.
   */
  lemma EndFollows(size: nat, codec: Codec, ls: seq<Label>, g: World) returns (more: seq<Label>, last: World)
    requires size > 0 && Workable(size, codec) && AfterSteps(size, codec, ls) == Some(g)
    ensures AfterSteps(size, codec, ls + more) == Some(last) && last.conn.Closed?
    ensures Continues(g, last) && AllOwn(more)
    ensures last.wire == Wire(codec, last.order) + codec.endMark
  {
    more, last := StepsToEnd(size, codec, ls, g, WorldMeasure(g));
    RunInv(size, codec, ls + more);
    ClosedWire(size, codec, last);
  }
}
