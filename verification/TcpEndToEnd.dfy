/** The TCP trace from the writers' calls to the receiver's files: protocol, codec and frame format together. */
module TcpEndToEnd {
  import opened Bytes
  import opened Lz4Format
  import opened Lz4Parse
  import opened Lz4Decompress
  import Frames
  import FileBuffer
  import opened Receiver
  import opened TcpWriter
  import opened TcpSocket
  import opened TcpTurns
  import opened TcpOvertake

  function FrameOf(p: Packet): Frames.Frame
    requires |p.text| < TWO32
  {
    Frames.Frame(p.tid, |p.text|, p.comp)
  }

  /** The codec in use: what the receiver decodes back to the text is a compressed form of it. */
  ghost predicate DecodesTo(text: seq<byte>, comp: seq<byte>) {
    0 < |comp| < TWO32 && |text| < TWO32 && Decode(comp, |text|) == Ok(text)
  }

  function OnWire(p: Packet): (s: seq<byte>)
    ensures |s| == HEADER + |p.comp|
  {
    if |p.comp| < TWO32 && |p.text| < TWO32 then Frames.FrameBytes(FrameOf(p)) else Zeros(HEADER + |p.comp|)
  }

  ghost function Lz4Codec(): Codec {
    Codec((text, comp) => DecodesTo(text, comp), p => OnWire(p), Frames.END_FRAME)
  }

  /** What the compressor makes of a buffer, with any hash table, is one of its compressed forms. */
  lemma CompressorIsGood(text: seq<byte>, t: Table)
    requires 0 < |text| <= FileBuffer.MAX_BUFFER
    ensures Lz4Codec().good(text, Encode(BlockOf(text, HashFinder(text), t)))
  {
    FileBuffer.FrameForGood(text, 0, t);
  }

  lemma Lz4Usable(size: nat)
    requires size <= FileBuffer.MAX_BUFFER
    ensures Workable(size, Lz4Codec())
  {
    var t: Table := seq(TABLE_SIZE, _ => 0);
    forall text: seq<byte> | 0 < |text| <= size ensures Compressible(Lz4Codec(), text) {
      CompressorIsGood(text, t);
    }
  }

  ghost predicate AllDecode(order: seq<Packet>) {
    forall k :: 0 <= k < |order| ==> DecodesTo(order[k].text, order[k].comp)
  }

  ghost function FramesOf(order: seq<Packet>): (fs: seq<Frames.Frame>)
    requires AllDecode(order)
    ensures |fs| == |order| && Frames.AllGood(fs)
    ensures forall k :: 0 <= k < |order| ==> fs[k] == FrameOf(order[k])
  {
    seq(|order|, k requires 0 <= k < |order| => FrameOf(order[k]))
  }

  lemma {:induction false} StreamSnoc(fs: seq<Frames.Frame>, f: Frames.Frame)
    requires Frames.Sized(fs) && |f.comp| < TWO32
    ensures Frames.Sized(fs + [f]) && Frames.Stream(fs + [f]) == Frames.Stream(fs) + Frames.FrameBytes(f)
  {
    if fs == [] {
      assert [f][1..] == [];
      assert Frames.FrameBytes(f) + [] == Frames.FrameBytes(f) == [] + Frames.FrameBytes(f);
    } else {
      StreamSnoc(fs[1..], f);
      assert (fs + [f])[1..] == fs[1..] + [f];
      ConcatAssociative(Frames.FrameBytes(fs[0]), Frames.Stream(fs[1..]), Frames.FrameBytes(f));
    }
  }

  lemma FramesSnoc(order: seq<Packet>)
    requires AllDecode(order) && order != []
    ensures AllDecode(order[..|order| - 1])
    ensures FramesOf(order) == FramesOf(order[..|order| - 1]) + [FrameOf(order[|order| - 1])]
    ensures OnWire(order[|order| - 1]) == Frames.FrameBytes(FrameOf(order[|order| - 1]))
  {
  }

  /** The packets' bytes are a frame stream. */
  lemma {:induction false} WireIsStream(order: seq<Packet>)
    requires AllDecode(order)
    ensures Wire(Lz4Codec(), order) == Frames.Stream(FramesOf(order))
  {
    if order != [] {
      var front, p := order[..|order| - 1], order[|order| - 1];
      WireIsStream(front);
      FramesSnoc(order);
      StreamSnoc(FramesOf(front), FrameOf(p));
    }
  }

  /** Demultiplexing by tid picks out each writer's packets. */
  lemma {:induction false} ChannelIsFrom(items: seq<Frames.Item>, order: seq<Packet>, tid: uint32)
    requires Carries(items, order)
    ensures Channel(items, tid) == SentText(From(order, tid))
  {
    if order != [] {
      var front, p := order[..|order| - 1], order[|order| - 1];
      ChannelIsFrom(items[..|items| - 1], front, tid);
      SentSnoc(From(front, tid), p);
      assert From(front, tid) + [] == From(front, tid) && SentText(From(front, tid)) + [] == SentText(From(front, tid));
    }
  }

  lemma ReadEndFrame()
    ensures Frames.ReadFrames(Frames.END_FRAME) == Frames.Content([], Frames.EndMark)
  {
    Frames.HeaderReadsBack(0, 0, 0, []);
    assert Frames.END_FRAME + [] == Frames.END_FRAME;
  }

  predicate HasWriter(writers: seq<Writer>, tid: uint32) {
    exists i :: 0 <= i < |writers| && writers[i].tid == tid
  }

  /**
   Every packet is of a writer of its tid, and each writer's packets, in their order, carry exactly what it was asked
   to write: what is sent under a tid is a merge, frame by frame, of its writers' texts.
   */
  ghost predicate Merged(g: World) {
    && |g.owners| == |g.order| && |g.texts| == |g.writers|
    && (forall k :: 0 <= k < |g.order| ==> g.owners[k] < |g.writers| && g.writers[g.owners[k]].tid == g.order[k].tid)
    && (forall i :: 0 <= i < |g.writers| ==> SentText(OfWriter(g.order, g.owners, i)) == g.texts[i])
  }

  /**
   Whatever the receiver gets of the closed connection: it reads every frame up to the end frame, and under each tid
   the merge of what its writers were asked to write; it hears of no other tid.
   */
  lemma ReadClosedWire(size: nat, g: World)
    requires Inv(size, Lz4Codec(), g) && g.conn.Closed?
    ensures var c := Frames.ReadFrames(g.wire);
            && c.stop == Frames.EndMark && Merged(g)
            && (forall tid: uint32 :: Channel(c.items, tid) == SentText(From(g.order, tid)))
            && (forall tid: uint32 :: Heard(c.items, tid) ==> HasWriter(g.writers, tid))
  {
    var c := Frames.ReadFrames(g.wire);
    ClosedContent(size, g);
    ClosedWire(size, Lz4Codec(), g);
    forall k | 0 <= k < |g.order| ensures g.owners[k] < |g.writers| && g.writers[g.owners[k]].tid == g.order[k].tid {
      assert PacketOk(Lz4Codec(), g.writers, g.order[k], g.owners[k]);
    }
    forall tid: uint32 ensures Channel(c.items, tid) == SentText(From(g.order, tid)) {
      ChannelIsFrom(c.items, g.order, tid);
    }
    forall tid: uint32 | Heard(c.items, tid) ensures HasWriter(g.writers, tid) {
      HeardWasSent(g, c.items, tid);
    }
  }

  /** The frames read are the packets sent. */
  predicate Carries(items: seq<Frames.Item>, order: seq<Packet>) {
    |items| == |order| && forall k :: 0 <= k < |order| ==> items[k] == Frames.Item(order[k].tid, order[k].text)
  }

  lemma ClosedContent(size: nat, g: World)
    requires Inv(size, Lz4Codec(), g) && g.conn.Closed?
    ensures var c := Frames.ReadFrames(g.wire); c.stop == Frames.EndMark && Carries(c.items, g.order)
  {
    ClosedWire(size, Lz4Codec(), g);
    assert AllDecode(g.order);
    var fs := FramesOf(g.order);
    WireIsStream(g.order);
    Frames.ReadStream(fs, Frames.END_FRAME);
    ReadEndFrame();
    assert Frames.ReadFrames(g.wire).items == Frames.Items(fs);
  }

  lemma HeardWasSent(g: World, items: seq<Frames.Item>, tid: uint32)
    requires Merged(g) && Carries(items, g.order) && Heard(items, tid)
    ensures HasWriter(g.writers, tid)
  {
    var k :| 0 <= k < |items| && items[k].tid == tid;
    assert g.writers[g.owners[k]].tid == tid;
  }

  /** A writer that wrote something is heard. */
  lemma {:induction false} WriterHeard(g: World, order: seq<Packet>, owners: seq<nat>, i: nat)
    requires |order| == |owners| && i < |g.writers| && SentText(OfWriter(order, owners, i)) != []
    requires forall k :: 0 <= k < |order| ==> owners[k] < |g.writers| && g.writers[owners[k]].tid == order[k].tid
    ensures exists k :: 0 <= k < |order| && order[k].tid == g.writers[i].tid
    decreases |order|
  {
    var n := |order| - 1;
    if owners[n] == i {
      assert order[n].tid == g.writers[i].tid;
    } else {
      assert OfWriter(order, owners, i) == OfWriter(order[..n], owners[..n], i);
      WriterHeard(g, order[..n], owners[..n], i);
      var k :| 0 <= k < n && order[..n][k].tid == g.writers[i].tid;
      assert order[k].tid == g.writers[i].tid;
    }
  }

  lemma WriterIsHeard(g: World, items: seq<Frames.Item>, i: nat)
    requires Merged(g) && Carries(items, g.order) && i < |g.writers| && g.texts[i] != []
    ensures Heard(items, g.writers[i].tid)
  {
    WriterHeard(g, g.order, g.owners, i);
    var k :| 0 <= k < |g.order| && g.order[k].tid == g.writers[i].tid;
    assert items[k].tid == g.writers[i].tid;
  }

  /**
   Any run of any number of threads that ends with the connection closed, received over a socket that delivers in any
   pieces. The receiver ends on the end frame, with a file for each tid under which something was written: the merge
   of what the tid's writers were asked to write, and, if all of the thread's writers are of one session or were clear
   to start, those texts one after another.
   */
  method ReceiveRun(size: nat, ghost ls: seq<Label>, ghost g: World, sock: Socket)
    returns (files: map<uint32, seq<byte>>, outcome: Outcome)
    requires 0 < size <= FileBuffer.MAX_BUFFER
    requires AfterSteps(size, Lz4Codec(), ls) == Some(g) && g.conn.Closed?
    requires sock.Valid() && sock.Remaining() == g.wire
    modifies sock
    ensures outcome == EndFrameReceived && Merged(g)
    ensures forall i :: 0 <= i < |g.writers| && g.texts[i] != [] ==> g.writers[i].tid in files
    ensures forall tid: uint32 :: tid in files ==>
                HasWriter(g.writers, tid) && files[tid] == SentText(From(g.order, tid))
    ensures forall tid: uint32 :: tid in files && (ClearStarts(size, Lz4Codec(), ls, tid) || OneSession(g, tid)) ==>
                                    files[tid] == TextsInTurn(g.writers, g.texts, tid)
  {
    Lz4Usable(size);
    RunInv(size, Lz4Codec(), ls);
    ReadClosedWire(size, g);
    ClosedContent(size, g);
    var frames;
    files, frames, outcome := Receive(sock);
    ghost var items := Frames.ReadFrames(g.wire).items;
    forall i | 0 <= i < |g.writers| && g.texts[i] != [] ensures g.writers[i].tid in files {
      WriterIsHeard(g, items, i);
    }
    forall tid: uint32 | tid in files && (ClearStarts(size, Lz4Codec(), ls, tid) || OneSession(g, tid))
      ensures files[tid] == TextsInTurn(g.writers, g.texts, tid)
    {
      ClearEnd(size, Lz4Codec(), ls, g, tid);
    }
  }
}
