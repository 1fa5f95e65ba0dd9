/**
 Whether the packets of one thread are on the wire writer after writer. A session's writers on a thread always are,
 since one ends before the next begins; writers of different sessions on one thread may overlap.
 */
module TcpTurns {
  import opened Bytes
  import opened Lz4Format
  import opened TcpWriter
  import opened TcpSocket

  // ---- packets in turn ----

  /** No packet of a thread's writer comes behind one of a later writer of the thread. */
  predicate TurnsAt(g: World, tid: uint32) {
    && |g.owners| == |g.order|
    && forall a, b :: 0 <= a < b < |g.order| && g.order[a].tid == tid && g.order[b].tid == tid ==>
                        g.owners[a] <= g.owners[b]
  }

  /** The packets of a thread's writers, one writer after another. */
  function InTurn(order: seq<Packet>, owners: seq<nat>, writers: seq<Writer>, tid: uint32): seq<Packet>
    requires |order| == |owners|
    decreases |writers|
  {
    if writers == [] then []
    else
      var n := |writers| - 1;
      InTurn(order, owners, writers[..n], tid) + (if writers[n].tid == tid then OfWriter(order, owners, n) else [])
  }

  /** What a thread's writers were asked to write, one after another. */
  function TextsInTurn(writers: seq<Writer>, texts: seq<seq<byte>>, tid: uint32): seq<byte>
    requires |texts| == |writers|
  {
    if writers == [] then []
    else
      var n := |writers| - 1;
      TextsInTurn(writers[..n], texts[..n], tid) + (if writers[n].tid == tid then texts[n] else [])
  }

  lemma Regrouped<T>(a: seq<T>, b: seq<T>, c: seq<T>)
    ensures a + (b + c) == a + b + c && a + [] == a && b + [] == b
  {
  }

  lemma {:induction false} InTurnNone(writers: seq<Writer>, tid: uint32)
    ensures InTurn([], [], writers, tid) == []
    decreases |writers|
  {
    if writers != [] {
      InTurnNone(writers[..|writers| - 1], tid);
    }
  }

  /** One more packet goes to the end of what is in turn, if no later writer of the thread has one. */
  lemma {:induction false} InTurnSnoc(order: seq<Packet>, owners: seq<nat>, p: Packet, i: nat, writers: seq<Writer>,
                                      tid: uint32)
    requires |order| == |owners| && (i < |writers| ==> writers[i].tid == p.tid)
    requires p.tid == tid ==> forall k :: i < k < |writers| && writers[k].tid == tid ==>
                 OfWriter(order, owners, k) == []
    ensures InTurn(order + [p], owners + [i], writers, tid)
            == InTurn(order, owners, writers, tid) + (if i < |writers| && p.tid == tid then [p] else [])
    decreases |writers|
  {
    if writers != [] {
      var n := |writers| - 1;
      InTurnSnoc(order, owners, p, i, writers[..n], tid);
      OfWriterSnoc(order, owners, p, i, n);
      var before := InTurn(order, owners, writers[..n], tid);
      Regrouped(before, OfWriter(order, owners, n), [p]);
      Regrouped(before, [p], []);
    } else {
      Regrouped(InTurn(order, owners, writers, tid), [], []);
    }
  }

  /** No writer after that of the last packet has one before it. */
  lemma LaterHaveNone(order: seq<Packet>, owners: seq<nat>, writers: seq<Writer>, tid: uint32)
    requires 0 < |order| == |owners| && order[|order| - 1].tid == tid
    requires forall a :: 0 <= a < |order| ==> owners[a] < |writers| && writers[owners[a]].tid == order[a].tid
    requires forall a, b :: 0 <= a < b < |order| && order[a].tid == tid && order[b].tid == tid ==>
                 owners[a] <= owners[b]
    ensures var n := |order| - 1;
            forall k: nat :: owners[n] < k < |writers| && writers[k].tid == tid ==>
                               OfWriter(order[..n], owners[..n], k) == []
  {
    var n := |order| - 1;
    forall k: nat | owners[n] < k < |writers| && writers[k].tid == tid
      ensures OfWriter(order[..n], owners[..n], k) == []
    {
      forall a | 0 <= a < n ensures owners[..n][a] != k {
        assert owners[a] < |writers| && writers[owners[a]].tid == order[a].tid;
      }
      OfNobody(order[..n], owners[..n], k);
    }
  }

  lemma OnePacketMore(front: seq<Packet>, of: seq<nat>, p: Packet, i: nat, writers: seq<Writer>, tid: uint32)
    requires |front| == |of| && i < |writers| && writers[i].tid == p.tid
    requires p.tid == tid ==>
               forall k :: i < k < |writers| && writers[k].tid == tid ==> OfWriter(front, of, k) == []
    requires From(front, tid) == InTurn(front, of, writers, tid)
    ensures From(front + [p], tid) == InTurn(front + [p], of + [i], writers, tid)
  {
    InTurnSnoc(front, of, p, i, writers, tid);
    FromSnoc(front, p, tid);
  }

  /** Packets that come in turn are the writers' packets, one writer after another. */
  lemma {:induction false} TurnsAreTurns(order: seq<Packet>, owners: seq<nat>, writers: seq<Writer>, tid: uint32)
    requires |order| == |owners|
    requires forall a :: 0 <= a < |order| ==> owners[a] < |writers| && writers[owners[a]].tid == order[a].tid
    requires forall a, b :: 0 <= a < b < |order| && order[a].tid == tid && order[b].tid == tid ==>
                 owners[a] <= owners[b]
    ensures From(order, tid) == InTurn(order, owners, writers, tid)
    decreases |order|
  {
    if order == [] {
      InTurnNone(writers, tid);
    } else {
      var n := |order| - 1;
      TurnsAreTurns(order[..n], owners[..n], writers, tid);
      if order[n].tid == tid {
        LaterHaveNone(order, owners, writers, tid);
      }
      OnePacketMore(order[..n], owners[..n], order[n], owners[n], writers, tid);
      assert order == order[..n] + [order[n]] && owners == owners[..n] + [owners[n]];
    }
  }

  lemma {:induction false} SentTextAppend(a: seq<Packet>, b: seq<Packet>)
    ensures SentText(a + b) == SentText(a) + SentText(b)
    decreases |b|
  {
    if b == [] {
      assert a + b == a && SentText(a) + [] == SentText(a);
    } else {
      var n := |b| - 1;
      assert (a + b)[..|a + b| - 1] == a + b[..n] && (a + b)[|a + b| - 1] == b[n];
      SentTextAppend(a, b[..n]);
      ConcatAssociative(SentText(a), SentText(b[..n]), b[n].text);
    }
  }

  lemma {:induction false} TextsOfTurns(order: seq<Packet>, owners: seq<nat>, writers: seq<Writer>,
                                        texts: seq<seq<byte>>, tid: uint32)
    requires |order| == |owners| && |texts| == |writers|
    requires forall i :: 0 <= i < |writers| ==> SentText(OfWriter(order, owners, i)) == texts[i]
    ensures SentText(InTurn(order, owners, writers, tid)) == TextsInTurn(writers, texts, tid)
    decreases |writers|
  {
    if writers != [] {
      var n := |writers| - 1;
      TextsOfTurns(order, owners, writers[..n], texts[..n], tid);
      var own := if writers[n].tid == tid then OfWriter(order, owners, n) else [];
      SentTextAppend(InTurn(order, owners, writers[..n], tid), own);
    }
  }

  lemma OwnersAre(size: nat, codec: Codec, g: World)
    requires Inv(size, codec, g)
    ensures forall a :: 0 <= a < |g.order| ==> g.owners[a] < |g.writers| && g.writers[g.owners[a]].tid == g.order[a].tid
  {
    forall a | 0 <= a < |g.order| ensures g.owners[a] < |g.writers| && g.writers[g.owners[a]].tid == g.order[a].tid {
      assert PacketOk(codec, g.writers, g.order[a], g.owners[a]);
    }
  }

  /** At the end, packets in turn carry all that the thread's writers were asked to write, one text after another. */
  lemma TurnsText(size: nat, codec: Codec, g: World, tid: uint32)
    requires Inv(size, codec, g) && g.conn.Closed? && TurnsAt(g, tid)
    ensures SentText(From(g.order, tid)) == TextsInTurn(g.writers, g.texts, tid)
  {
    ClosedWire(size, codec, g);
    OwnersAre(size, codec, g);
    TurnsAreTurns(g.order, g.owners, g.writers, tid);
    TextsOfTurns(g.order, g.owners, g.writers, g.texts, tid);
  }

  // ---- one session on one thread ----

  predicate SameBuffer(v: Writer, w: Writer) {
    v.session == w.session && v.tid == w.tid
  }

  /** Of the writers of one session on one thread only the last can be unfinished, and their packets are in turn. */
  ghost predicate SessionInv(g: World) {
    && |g.owners| == |g.order|
    && (forall a :: 0 <= a < |g.owners| ==> g.owners[a] < |g.writers|)
    && (forall i, j :: 0 <= i < j < |g.writers| && SameBuffer(g.writers[i], g.writers[j]) ==>
                         g.writers[i].producer.Done?)
    && (forall a, b :: 0 <= a < b < |g.owners| && SameBuffer(g.writers[g.owners[a]], g.writers[g.owners[b]]) ==>
                         g.owners[a] <= g.owners[b])
  }

  lemma SessionOne(g: World, i: nat, w: Writer)
    requires SessionInv(g) && i < |g.writers| && SameBuffer(g.writers[i], w)
    requires g.writers[i].producer.Done? ==> w.producer.Done?
    ensures SessionInv(With(g, i, w))
  {
  }

  lemma SessionDrop(size: nat, codec: Codec, g: World, i: nat)
    requires Inv(size, codec, g) && SessionInv(g) && Enabled(size, codec, g, DropsSend(i))
    ensures SessionInv(Apply(size, codec, g, DropsSend(i)))
  {
    assert WriterOk(size, codec, g, i) && !g.writers[i].producer.Done?;
    SessionOne(g, i, DroppedSend(g.writers[i]));
  }

  lemma SessionProducer(size: nat, codec: Codec, g: World, i: nat)
    requires Inv(size, codec, g) && SessionInv(g) && Enabled(size, codec, g, ProducerMoves(i))
    ensures SessionInv(Apply(size, codec, g, ProducerMoves(i)))
  {
    assert WriterOk(size, codec, g, i);
    ProducerFrame(size, g.writers[i]);
    SessionOne(g, i, ProducerStep(size, g.writers[i]));
  }

  lemma SessionOther(size: nat, codec: Codec, g: World, l: Label)
    requires SessionInv(g) && Enabled(size, codec, g, l)
    requires l.WorkerMoves? || l.Compresses? || l.TakesSend? || l.SendsSome? || l.Wakes?
    ensures SessionInv(Apply(size, codec, g, l))
  {
    match l
    case WorkerMoves(i) => SessionOne(g, i, WorkerStep(g.writers[i]));
    case Compresses(i, comp) => SessionOne(g, i, GotCompressed(g.writers[i], comp));
    case TakesSend(i) => SessionOne(g, i, TookSend(g.writers[i]));
    case SendsSome(i, n) => SessionOne(g, i, SentMore(g.writers[i], n));
    case Wakes(i) => SessionOne(g, i, SpuriousWake(g.writers[i]));
  }

  lemma SessionStep(size: nat, codec: Codec, g: World, l: Label)
    requires Inv(size, codec, g) && SessionInv(g) && Enabled(size, codec, g, l)
    ensures SessionInv(Apply(size, codec, g, l))
  {
    match l
    case ProducerMoves(i) => SessionProducer(size, codec, g, i);
    case DropsSend(i) => SessionDrop(size, codec, g, i);
    case WorkerMoves(_) => SessionOther(size, codec, g, l);
    case Compresses(_, _) => SessionOther(size, codec, g, l);
    case TakesSend(_) => SessionOther(size, codec, g, l);
    case SendsSome(_, _) => SessionOther(size, codec, g, l);
    case Wakes(_) => SessionOther(size, codec, g, l);
    case _ =>
  }

  /** In every state of every run the packets of one session on one thread are on the wire writer after writer. */
  lemma {:induction false} SessionRun(size: nat, codec: Codec, ls: seq<Label>)
    requires size > 0 && Workable(size, codec)
    ensures AfterSteps(size, codec, ls).Some? ==> SessionInv(AfterSteps(size, codec, ls).value)
    decreases |ls|
  {
    if ls != [] {
      var front := ls[..|ls| - 1];
      SessionRun(size, codec, front);
      RunInv(size, codec, front);
      if AfterSteps(size, codec, ls).Some? {
        SessionStep(size, codec, AfterSteps(size, codec, front).value, ls[|ls| - 1]);
      }
    }
  }

  /** All the writers of a thread are of one session. */
  predicate OneSession(g: World, tid: uint32) {
    forall i, j :: 0 <= i < |g.writers| && 0 <= j < |g.writers| ==>
                     g.writers[i].tid == tid && g.writers[j].tid == tid ==>
                       g.writers[i].session == g.writers[j].session
  }

  /** A thread on which one function only is traced has its packets in turn, however often that is called. */
  lemma AloneInTurn(size: nat, codec: Codec, ls: seq<Label>, g: World, tid: uint32)
    requires size > 0 && Workable(size, codec) && AfterSteps(size, codec, ls) == Some(g) && OneSession(g, tid)
    ensures TurnsAt(g, tid)
  {
    RunInv(size, codec, ls);
    SessionRun(size, codec, ls);
    OwnersAre(size, codec, g);
  }

  // ---- when packets can no longer get out of turn ----

  /** What a writer has sent, and what it is sending now. */
  function Committed(w: Writer): seq<byte> {
    SentText(w.sent) + if w.worker.Sending? then InHand(w) else []
  }

  predicate SentAll(g: World, i: nat)
    requires i < |g.writers| == |g.texts|
  {
    SentText(g.writers[i].sent) == g.texts[i]
  }

  /** All of a writer's text is sent, but for a last packet perhaps that is being sent now. */
  predicate Settled(g: World, i: nat)
    requires i < |g.writers| == |g.texts|
  {
    Committed(g.writers[i]) == g.texts[i]
  }

  /** No packet of writer i is to come behind one of writer j. */
  predicate PairSafe(g: World, i: nat, j: nat)
    requires i < |g.writers| == |g.texts| && j < |g.writers|
  {
    SentAll(g, i) || (g.writers[j].sent == [] && (Settled(g, i) || g.texts[j] == []))
  }

  ghost predicate SafeAt(g: World, tid: uint32) {
    && |g.texts| == |g.writers|
    && forall i, j :: 0 <= i < j < |g.writers| && g.writers[i].tid == tid && g.writers[j].tid == tid ==>
                        PairSafe(g, i, j)
  }

  lemma CatLength(a: seq<byte>, b: seq<byte>, c: seq<byte>, d: seq<byte>, e: seq<byte>, f: seq<byte>)
    ensures |Cat(a, b, c, d, e, f)| == |a| + |b| + |c| + |d| + |e| + |f|
  {
  }

  /** A buffer that the worker holds has text in it that is not sent. */
  lemma HeldUnsent(size: nat, w: Writer)
    requires Control(size, w) && Holding(w.worker)
    ensures |InHand(w)| > 0 && |SentText(w.sent)| < |AllText(w)|
  {
    CatLength(SentText(w.sent), InFlight(w), Waiting(w), Buffered(w), InWrite(w.producer), ScriptText(w.script));
  }

  /** A writer changes but for what it has sent. */
  lemma SafeOne(g: World, i: nat, w: Writer, tid: uint32)
    requires SafeAt(g, tid) && i < |g.writers| && w.tid == g.writers[i].tid && w.sent == g.writers[i].sent
    requires Settled(g, i) ==> Committed(w) == g.texts[i]
    ensures SafeAt(With(g, i, w), tid)
  {
    var v := With(g, i, w);
    forall k, j | 0 <= k < j < |v.writers| && v.writers[k].tid == tid && v.writers[j].tid == tid
      ensures PairSafe(v, k, j)
    {
      assert PairSafe(g, k, j);
    }
  }

  lemma ProducerCommits(size: nat, w: Writer)
    requires Control(size, w) && ProducerCan(w)
    ensures var v := ProducerStep(size, w); v.sent == w.sent && v.tid == w.tid && Committed(v) == Committed(w)
  {
    ProducerFrame(size, w);
  }

  /** The new packet comes behind those of all earlier writers of its thread, and before those of all later ones. */
  lemma SafeDrop(size: nat, codec: Codec, g: World, i: nat, tid: uint32)
    requires Inv(size, codec, g) && SafeAt(g, tid) && Enabled(size, codec, g, DropsSend(i))
    ensures SafeAt(Apply(size, codec, g, DropsSend(i)), tid)
  {
    var w, g' := g.writers[i], Apply(size, codec, g, DropsSend(i));
    assert WriterOk(size, codec, g, i);
    HeldUnsent(size, w);
    SentSnoc(w.sent, Current(w));
    forall k, j | 0 <= k < j < |g'.writers| && g'.writers[k].tid == tid && g'.writers[j].tid == tid
      ensures PairSafe(g', k, j)
    {
      assert PairSafe(g, k, j);
      if j == i {
        assert WriterOk(size, codec, g, k);
        SettledIdle(g, k);
      }
    }
  }

  lemma SentSnoc(sent: seq<Packet>, p: Packet)
    ensures SentText(sent + [p]) == SentText(sent) + p.text
  {
    assert (sent + [p])[..|sent|] == sent;
  }

  lemma SettledIdle(g: World, k: nat)
    requires k < |g.writers| == |g.texts| && !g.writers[k].worker.Sending?
    ensures Settled(g, k) <==> SentAll(g, k)
  {
    assert SentText(g.writers[k].sent) + [] == SentText(g.writers[k].sent);
  }

  /** A writer with a packet in the order has sent it. */
  lemma {:induction false} OwnerSent(order: seq<Packet>, owners: seq<nat>, a: nat)
    requires a < |order| == |owners|
    ensures OfWriter(order, owners, owners[a]) != []
    decreases |order|
  {
    if a < |order| - 1 {
      OwnerSent(order[..|order| - 1], owners[..|order| - 1], a);
    }
  }

  lemma TurnsDrop(size: nat, codec: Codec, g: World, i: nat, tid: uint32)
    requires Inv(size, codec, g) && SafeAt(g, tid) && TurnsAt(g, tid) && Enabled(size, codec, g, DropsSend(i))
    ensures TurnsAt(Apply(size, codec, g, DropsSend(i)), tid)
  {
    var w, n := g.writers[i], |g.order|;
    assert WriterOk(size, codec, g, i);
    HeldUnsent(size, w);
    OwnersAre(size, codec, g);
    if w.tid == tid {
      forall a | 0 <= a < n && g.order[a].tid == tid ensures g.owners[a] <= i {
        var k := g.owners[a];
        assert WriterOk(size, codec, g, k);
        OwnerSent(g.order, g.owners, a);
        assert i < k ==> PairSafe(g, i, k);
      }
    }
  }

  lemma SafeProducer(size: nat, codec: Codec, g: World, i: nat, tid: uint32)
    requires Inv(size, codec, g) && SafeAt(g, tid) && Enabled(size, codec, g, ProducerMoves(i))
    ensures SafeAt(Apply(size, codec, g, ProducerMoves(i)), tid)
  {
    assert WriterOk(size, codec, g, i);
    ProducerCommits(size, g.writers[i]);
    SafeOne(g, i, ProducerStep(size, g.writers[i]), tid);
  }

  lemma SafeTakes(size: nat, codec: Codec, g: World, i: nat, tid: uint32)
    requires Inv(size, codec, g) && SafeAt(g, tid) && Enabled(size, codec, g, TakesSend(i))
    ensures SafeAt(Apply(size, codec, g, TakesSend(i)), tid)
  {
    HeldUnsettled(size, codec, g, i);
    SafeOne(g, i, TookSend(g.writers[i]), tid);
  }

  lemma HeldUnsettled(size: nat, codec: Codec, g: World, i: nat)
    requires Inv(size, codec, g) && i < |g.writers| && g.writers[i].worker.Compressed?
    ensures !Settled(g, i)
  {
    assert WriterOk(size, codec, g, i);
    HeldUnsent(size, g.writers[i]);
    SettledIdle(g, i);
  }

  lemma SafeOther(size: nat, codec: Codec, g: World, l: Label, tid: uint32)
    requires SafeAt(g, tid) && Enabled(size, codec, g, l)
    requires l.WorkerMoves? || l.Compresses? || l.SendsSome? || l.Wakes?
    ensures SafeAt(Apply(size, codec, g, l), tid)
  {
    match l
    case WorkerMoves(i) => SafeOne(g, i, WorkerStep(g.writers[i]), tid);
    case Compresses(i, comp) => SafeOne(g, i, GotCompressed(g.writers[i], comp), tid);
    case SendsSome(i, n) => SafeOne(g, i, SentMore(g.writers[i], n), tid);
    case Wakes(i) => SafeOne(g, i, SpuriousWake(g.writers[i]), tid);
  }

  /** No step but the start of a new writer brings packets out of turn that could not get so before. */
  lemma TurnsStep(size: nat, codec: Codec, g: World, l: Label, tid: uint32)
    requires Inv(size, codec, g) && Enabled(size, codec, g, l) && !l.Spawns?
    requires TurnsAt(g, tid) && SafeAt(g, tid)
    ensures TurnsAt(Apply(size, codec, g, l), tid) && SafeAt(Apply(size, codec, g, l), tid)
  {
    match l
    case ProducerMoves(i) => SafeProducer(size, codec, g, i, tid);
    case TakesSend(i) => SafeTakes(size, codec, g, i, tid);
    case DropsSend(i) =>
      TurnsDrop(size, codec, g, i, tid);
      SafeDrop(size, codec, g, i, tid);
    case WorkerMoves(_) => SafeOther(size, codec, g, l, tid);
    case Compresses(_, _) => SafeOther(size, codec, g, l, tid);
    case SendsSome(_, _) => SafeOther(size, codec, g, l, tid);
    case Wakes(_) => SafeOther(size, codec, g, l, tid);
    case Spawns(_, _, _) =>
    case _ => SafeSame(g, Apply(size, codec, g, l), tid);
  }

  lemma SafeSame(g: World, v: World, tid: uint32)
    requires SafeAt(g, tid) && TurnsAt(g, tid)
    requires v.writers == g.writers && v.texts == g.texts && v.order == g.order && v.owners == g.owners
    ensures SafeAt(v, tid) && TurnsAt(v, tid)
  {
    forall i, j | 0 <= i < j < |v.writers| && v.writers[i].tid == tid && v.writers[j].tid == tid
      ensures PairSafe(v, i, j)
    {
      assert PairSafe(g, i, j);
    }
  }

  /** What makes the start of a writer harmless: it has nothing to write, or the thread's earlier ones are settled. */
  predicate Clear(g: World, tid: uint32, script: seq<Op>) {
    && |g.texts| == |g.writers|
    && (ScriptText(script) == [] || forall i :: 0 <= i < |g.writers| && g.writers[i].tid == tid ==> Settled(g, i))
  }

  /** Starting a writer leaves its thread safe if and only if it is clear to start; other threads do not mind. */
  lemma SpawnSafe(size: nat, codec: Codec, g: World, l: Label, tid: uint32)
    requires Inv(size, codec, g) && Enabled(size, codec, g, l) && l.Spawns? && TurnsAt(g, tid) && SafeAt(g, tid)
    ensures TurnsAt(Apply(size, codec, g, l), tid)
    ensures SafeAt(Apply(size, codec, g, l), tid) <==> l.tid != tid || Clear(g, tid, l.script)
  {
    var v, n := Apply(size, codec, g, l), |g.writers|;
    forall i | 0 <= i < n && l.tid == tid && g.writers[i].tid == tid
      ensures PairSafe(v, i, n) <==> Settled(g, i) || ScriptText(l.script) == []
    {
      assert v.writers[i] == g.writers[i] && v.texts[i] == g.texts[i];
      if SentAll(g, i) {
        SentIsSettled(size, codec, g, i);
      }
    }
    forall i, j | 0 <= i < j < n && g.writers[i].tid == tid && g.writers[j].tid == tid ensures PairSafe(v, i, j) {
      assert PairSafe(g, i, j);
    }
    if SafeAt(v, tid) && l.tid == tid && ScriptText(l.script) != [] {
      forall i | 0 <= i < n && g.writers[i].tid == tid ensures Settled(g, i) {
        assert v.writers[i].tid == tid && v.writers[n].tid == tid && PairSafe(v, i, n);
      }
    }
  }

  lemma SentIsSettled(size: nat, codec: Codec, g: World, i: nat)
    requires Inv(size, codec, g) && i < |g.writers| && SentAll(g, i)
    ensures Settled(g, i)
  {
    assert WriterOk(size, codec, g, i);
    if g.writers[i].worker.Sending? {
      HeldUnsent(size, g.writers[i]);
    } else {
      SettledIdle(g, i);
    }
  }
}
