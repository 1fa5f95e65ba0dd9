/** The TCP receiver: frames off a socket that delivers in pieces, one output per writer's tid. */
module Receiver {
  import opened Bytes
  import opened Lz4Format
  import opened Lz4Decompress
  import opened Frames

  /** A connected socket: what the peer sent before it closed, and the piece sizes the network chooses. */
  class Socket {
    const sent: seq<byte>
    var pos: nat
    var pieces: seq<nat>

    ghost predicate Valid()
      reads this
    {
      pos <= |sent|
    }

    function Remaining(): seq<byte>
      requires pos <= |sent|
      reads this
    {
      sent[pos..]
    }

    constructor (sent: seq<byte>, pieces: seq<nat>)
      ensures Valid() && Remaining() == sent && this.sent == sent
    {
      this.sent := sent;
      this.pos := 0;
      this.pieces := pieces;
    }

    /** `recv(n)`: at least one byte and at most n, none once the peer has closed. */
    method Recv(n: nat) returns (chunk: seq<byte>)
      requires Valid() && n > 0
      modifies this
      ensures Valid() && old(Remaining()) == chunk + Remaining()
      ensures |chunk| <= n && (chunk == [] <==> old(Remaining()) == [])
    {
      var want := if pieces == [] then n else Min(n, pieces[0] + 1);
      if pieces != [] {
        pieces := pieces[1..];
      }
      chunk := sent[pos..Min(pos + want, |sent|)];
      pos := pos + |chunk|;
    }

    /** recv_exact: n bytes, or a connection error when the stream ends first. */
    method RecvExact(n: nat) returns (r: Option<seq<byte>>)
      requires Valid()
      modifies this
      ensures Valid()
      ensures if n <= |old(Remaining())|
              then r == Some(old(Remaining())[..n]) && Remaining() == old(Remaining())[n..]
              else r == None
    {
      var buf: seq<byte> := [];
      ghost var all := Remaining();
      while |buf| < n
        invariant Valid() && |buf| <= n
        invariant buf + Remaining() == all
        decreases n - |buf|
      {
        var chunk := Recv(n - |buf|);
        if chunk == [] {
          return None;
        }
        ConcatAssociative(buf, chunk, Remaining());
        buf := buf + chunk;
      }
      return Some(buf);
    }
  }

  datatype Outcome = EndFrameReceived | ConnectionLost | CorruptStop

  function OutcomeOf(stop: Stop): Outcome {
    match stop
    case EndMark => EndFrameReceived
    case CorruptFrame => CorruptStop
    case _ => ConnectionLost
  }

  /** Everything received under one tid, in order. */
  function Channel(items: seq<Item>, tid: uint32): seq<byte> {
    if items == [] then []
    else
      var last := items[|items| - 1];
      Channel(items[..|items| - 1], tid) + (if last.tid == tid then last.data else [])
  }

  predicate Heard(items: seq<Item>, tid: uint32) {
    exists i :: 0 <= i < |items| && items[i].tid == tid
  }

  /** One file for each tid heard of, holding that tid's channel. */
  ghost predicate Demultiplexed(files: map<uint32, seq<byte>>, items: seq<Item>) {
    && (forall tid: uint32 :: tid in files <==> Heard(items, tid))
    && (forall tid: uint32 :: tid in files ==> files[tid] == Channel(items, tid))
  }

  lemma DemultiplexNext(files: map<uint32, seq<byte>>, items: seq<Item>, item: Item)
    requires Demultiplexed(files, items)
    ensures Demultiplexed(files[item.tid := (if item.tid in files then files[item.tid] else []) + item.data],
                items + [item])
  {
    var more := items + [item];
    assert more[..|more| - 1] == items;
    forall tid: uint32
      ensures Heard(more, tid) <==> Heard(items, tid) || tid == item.tid
      ensures Channel(more, tid) == Channel(items, tid) + (if item.tid == tid then item.data else [])
    {
      assert more[|items|] == item;
      if Heard(items, tid) {
        var i :| 0 <= i < |items| && items[i].tid == tid;
        assert more[i].tid == tid;
      }
    }
    NotHeard(items, item.tid);
  }

  lemma {:induction false} NotHeard(items: seq<Item>, tid: uint32)
    ensures !Heard(items, tid) ==> Channel(items, tid) == []
  {
    if items != [] {
      var front := items[..|items| - 1];
      NotHeard(front, tid);
      assert forall i :: 0 <= i < |front| ==> front[i] == items[i];
      assert items[|items| - 1] in items;
    }
  }

  /** Reads one frame off the socket. */
  method ReceiveFrame(sock: Socket) returns (r: Read)
    requires sock.Valid()
    modifies sock
    ensures sock.Valid()
    ensures var want := ReadFrame(old(sock.Remaining()));
            if want.Got? then r == want && sock.Remaining() == old(sock.Remaining())[want.size..]
            else r.Ended? && (r.stop == EndMark <==> want.stop == EndMark)
                 && (r.stop == CorruptFrame <==> want.stop == CorruptFrame)
  {
    ghost var s := sock.Remaining();
    var header := sock.RecvExact(HEADER_SIZE);
    if header.None? {
      return Ended(EndOfStream);
    }
    HeaderOf(s, header.value);
    var comp, orig, tid := HeaderWord(header.value, 0), HeaderWord(header.value, 1), HeaderWord(header.value, 2);
    if comp == 0 {
      return Ended(EndMark);
    }
    var compressed := sock.RecvExact(comp);
    if compressed.None? {
      return Ended(TruncatedFrame);
    }
    assert compressed.value == s[HEADER_SIZE..HEADER_SIZE + comp];
    var data := DecompressBlock(compressed.value, orig);
    if data.Err? {
      return Ended(CorruptFrame);
    }
    assert s[HEADER_SIZE..][comp..] == s[HEADER_SIZE + comp..];
    return Got(Item(tid, data.value), HEADER_SIZE + comp);
  }

  /** What a frame holds goes to the end of its tid's file. */
  method AppendItem(files: map<uint32, seq<byte>>, ghost items: seq<Item>, item: Item)
    returns (more: map<uint32, seq<byte>>)
    requires Demultiplexed(files, items)
    ensures Demultiplexed(more, items + [item])
  {
    DemultiplexNext(files, items, item);
    more := files[item.tid := (if item.tid in files then files[item.tid] else []) + item.data];
  }

  /** cmd_receive's loop: each tid's file gets exactly what was received under that tid. */
  method Receive(sock: Socket) returns (files: map<uint32, seq<byte>>, frames: nat, outcome: Outcome)
    requires sock.Valid()
    modifies sock
    ensures var c := ReadFrames(old(sock.Remaining()));
            && Demultiplexed(files, c.items) && frames == |c.items|
            && (outcome == EndFrameReceived <==> c.stop == EndMark)
            && (outcome == CorruptStop <==> c.stop == CorruptFrame)
            && (outcome == ConnectionLost <==> c.stop in {EndOfStream, TruncatedHeader, TruncatedFrame})
  {
    files, frames := map[], 0;
    ghost var all := sock.Remaining();
    ghost var items: seq<Item> := [];
    while true
      invariant sock.Valid() && frames == |items|
      invariant Demultiplexed(files, items)
      invariant After(items, sock.Remaining()) == ReadFrames(all)
      decreases |sock.Remaining()|
    {
      ghost var s := sock.Remaining();
      var r := ReceiveFrame(sock);
      AfterNext(items, s, ReadFrame(s));
      if r.Ended? {
        assert ReadFrames(all) == Content(items, ReadFrame(s).stop);
        return files, frames, OutcomeOf(r.stop);
      }
      files := AppendItem(files, items, r.item);
      items := items + [r.item];
      frames := frames + 1;
    }
  }

  /**
   A connection that breaks after any number of bytes of good frames, between two of them or inside one: what is whole
   is received, and the loss is noticed.
   */
  method ReceiveCut(sock: Socket, ghost fs: seq<Frame>, ghost k: nat)
    returns (files: map<uint32, seq<byte>>, frames: nat, outcome: Outcome)
    requires AllGood(fs) && k <= |Stream(fs)| && sock.Valid() && sock.Remaining() == Stream(fs)[..k]
    modifies sock
    ensures outcome == ConnectionLost && frames == WholeFrames(fs, k)
    ensures Demultiplexed(files, Items(fs[..WholeFrames(fs, k)]))
  {
    ReadPrefix(fs, k);
    files, frames, outcome := Receive(sock);
  }
}
