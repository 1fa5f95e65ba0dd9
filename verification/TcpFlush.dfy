/** What the tracing thread's calls mean for the packets: when text is handed over to the worker, and when it is not. */
module TcpFlush {
  import opened Bytes
  import opened Lz4Format
  import opened TcpWriter

  /** The text handed over: sent, in flight or pending. */
  function HandedOver(w: Writer): seq<byte> {
    SentText(w.sent) + (InFlight(w) + Waiting(w))
  }

  /** One step of either thread, or a spurious wake-up. */
  ghost predicate Steps(size: nat, w: Writer, v: Writer) {
    || (Shape(size, w) && ProducerCan(w) && v == ProducerStep(size, w))
    || (WorkerCan(w) && v == WorkerStep(w))
    || (w.worker.Taken? && exists comp :: v == GotCompressed(w, comp))
    || (w.worker.Compressed? && v == TookSend(w))
    || (w.worker.Sending? && exists n: nat :: v == SentMore(w, n))
    || (w.worker.Sending? && v == DroppedSend(w))
    || v == SpuriousWake(w)
  }

  lemma StepsKeep(size: nat, w: Writer, v: Writer)
    requires Control(size, w) && Steps(size, w, v)
    ensures Control(size, v) && AllText(v) == AllText(w)
  {
    if Shape(size, w) && ProducerCan(w) && v == ProducerStep(size, w) {
      ProducerKeepsControl(size, w);
      ProducerKeepsText(size, w);
    } else if WorkerCan(w) && v == WorkerStep(w) {
      WorkerKeepsControl(size, w);
      WorkerKeepsText(size, w);
    } else if v == SpuriousWake(w) {
      SpuriousKeeps(size, w);
    } else {
      SendingKeeps(size, w);
      if w.worker.Sending? {
        DroppedKeeps(size, w);
      }
    }
  }

  /** In the middle of a flush that a call of flush alone has asked for. */
  predicate InFlush(p: Producer) {
    (p.FlushLock? || p.FlushCheck? || p.FlushSleep?) && p.k == ThenReady
  }

  /** Until the hand-over neither the buffer nor the script changes; the hand-over ends the flush. */
  lemma FlushGoesOn(size: nat, w: Writer, v: Writer)
    requires Control(size, w) && InFlush(w.producer) && Steps(size, w, v)
    ensures v.script == w.script
    ensures InFlush(v.producer) || v.producer.Ready?
    ensures InFlush(v.producer) ==> Buffered(v) == Buffered(w)
    ensures v.producer.Ready? ==> Buffered(v) == []
  {
  }

  lemma Cancel(a: seq<byte>, b: seq<byte>, rest: seq<byte>)
    requires a + rest == b + rest
    ensures a == b
  {
    assert |a| == |b|;
    assert (a + rest)[..|a|] == a && (b + rest)[..|b|] == b;
  }

  lemma AllIsHanded(w: Writer)
    ensures AllText(w) == HandedOver(w) + (Buffered(w) + (InWrite(w.producer) + ScriptText(w.script)))
  {
    ConcatAssociative(SentText(w.sent), InFlight(w) + Waiting(w),
        Buffered(w) + (InWrite(w.producer) + ScriptText(w.script)));
    ConcatAssociative(InFlight(w), Waiting(w), Buffered(w) + (InWrite(w.producer) + ScriptText(w.script)));
  }

  /** One step of the flush leaves what is handed over as it is, or adds all that was buffered. */
  lemma FlushStep(size: nat, w: Writer, v: Writer)
    requires Control(size, w) && InFlush(w.producer) && Steps(size, w, v)
    ensures HandedOver(v) + Buffered(v) == HandedOver(w) + Buffered(w)
  {
    StepsKeep(size, w, v);
    FlushGoesOn(size, w, v);
    AllIsHanded(w);
    AllIsHanded(v);
    var rest := [] + ScriptText(w.script);
    ConcatAssociative(HandedOver(w), Buffered(w), rest);
    ConcatAssociative(HandedOver(v), Buffered(v), rest);
    Cancel(HandedOver(v) + Buffered(v), HandedOver(w) + Buffered(w), rest);
  }

  /** A run of the writer from the beginning of a flush up to its end. */
  ghost predicate FlushRun(size: nat, ws: seq<Writer>) {
    && |ws| >= 1 && Control(size, ws[0]) && InFlush(ws[0].producer)
    && (forall k :: 0 <= k < |ws| - 1 ==> Steps(size, ws[k], ws[k + 1]))
    && (forall k :: 0 <= k < |ws| - 1 ==> !ws[k].producer.Ready?)
  }

  lemma {:induction false} FlushRunKeeps(size: nat, ws: seq<Writer>)
    requires FlushRun(size, ws)
    ensures var v := ws[|ws| - 1];
            && Control(size, v) && v.script == ws[0].script && (InFlush(v.producer) || v.producer.Ready?)
            && HandedOver(v) + Buffered(v) == HandedOver(ws[0]) + Buffered(ws[0])
            && (v.producer.Ready? ==> Buffered(v) == [])
    decreases |ws|
  {
    if |ws| > 1 {
      var front, n := ws[..|ws| - 1], |ws| - 2;
      FlushRunKeeps(size, front);
      assert front[n] == ws[n] && Steps(size, ws[n], ws[n + 1]) && !ws[n].producer.Ready?;
      StepsKeep(size, ws[n], ws[n + 1]);
      FlushGoesOn(size, ws[n], ws[n + 1]);
      FlushStep(size, ws[n], ws[n + 1]);
    }
  }

  /**
   flush: with text buffered it is not over before all of that is handed over to the worker, behind what was handed
   over earlier, and nothing else; so the next operation's text goes into a packet of its own.
   */
  lemma FlushHandsOver(size: nat, w: Writer, ws: seq<Writer>)
    requires Control(size, w) && w.producer.Ready? && w.script != [] && w.script[0] == FlushNow && w.pos > 0
    requires ws != [] && ws[0] == ProducerStep(size, w) && ws[|ws| - 1].producer.Ready?
    requires (forall k :: 0 <= k < |ws| - 1 ==> Steps(size, ws[k], ws[k + 1]))
             && (forall k :: 0 <= k < |ws| - 1 ==> !ws[k].producer.Ready?)
    ensures var v := ws[|ws| - 1];
            HandedOver(v) == HandedOver(w) + Buffered(w) && Buffered(v) == [] && v.script == w.script[1..]
  {
    var u := ws[0];
    assert u == w.(script := w.script[1..], producer := FlushLock(ThenReady));
    ProducerKeepsControl(size, w);
    FlushRunKeeps(size, ws);
    assert HandedOver(ws[|ws| - 1]) + [] == HandedOver(ws[|ws| - 1]);
  }

  /** write: data that fits goes behind what is buffered, and nothing is handed over. */
  lemma WriteFits(size: nat, w: Writer, data: seq<byte>)
    requires Control(size, w) && w.producer.Ready? && w.script != [] && w.script[0] == Write(data)
    requires w.pos + |data| <= size
    ensures var v := ProducerStep(size, w);
            && Buffered(v) == Buffered(w) + data && v.producer.Ready? && v.script == w.script[1..]
            && HandedOver(v) == HandedOver(w) && v.pending == w.pending && v.idle == w.idle
  {
    CopiedText(w.(script := w.script[1..]), data);
  }

  /** Data that does not fit waits for a flush of what is buffered, if anything is. */
  lemma WriteWaits(size: nat, w: Writer, data: seq<byte>)
    requires Control(size, w) && w.producer.Ready? && w.script != [] && w.script[0] == Write(data)
    requires w.pos + |data| > size
    ensures var v := ProducerStep(size, w);
            && v.producer == (if w.pos > 0 then FlushLock(ThenPut(data)) else Put(data)) && v.script == w.script[1..]
            && Buffered(v) == Buffered(w) && HandedOver(v) == HandedOver(w)
  {
  }

  /** After the flush, data no longer than the buffer is buffered, and only longer data goes out in pieces. */
  lemma PutOrPieces(size: nat, w: Writer, data: seq<byte>)
    requires Control(size, w) && w.producer == Put(data)
    ensures var v := ProducerStep(size, w);
            && HandedOver(v) == HandedOver(w)
            && (if |data| <= size then v.producer.Ready? && Buffered(v) == data
                else v.producer == Chunks(data) && Buffered(v) == [])
  {
    if |data| <= size {
      CopiedText(w, data);
    }
  }

  /** Data longer than the buffer goes out in full buffers, the last one excepted. */
  lemma ChunksFill(size: nat, w: Writer)
    requires Control(size, w) && w.producer.Chunks?
    ensures var v, rest := ProducerStep(size, w), w.producer.rest;
            var n := Min(|rest|, size);
            Buffered(v) == rest[..n] && v.producer == FlushLock(ThenChunks(rest[n..]))
  {
    CopiedText(w, w.producer.rest[..Min(|w.producer.rest|, size)]);
  }
}
