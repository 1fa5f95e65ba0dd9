/** DirectWriteBuf in file mode: one buffer, compressed and written out when full, and the salvage on a crash. */
module FileBuffer {
  import opened Bytes
  import opened Lz4Format
  import opened Lz4Parse
  import opened Lz4Compress
  import opened Lz4Decompress
  import opened Lz4RoundTrip
  import opened Frames
  import opened Receiver

  /** An open file or a closed one. Each write stores what `answers` says next: some of the bytes, or an error. */
  class File {
    var data: seq<byte>
    var answers: seq<int>
    var isOpen: bool

    constructor (answers: seq<int>)
      ensures data == [] && isOpen && this.answers == answers
    {
      this.data, this.answers, this.isOpen := [], answers, true;
    }

    /** Open, and no write ever fails: each stores at least a byte. */
    ghost predicate Willing()
      reads this
    {
      isOpen && forall i :: 0 <= i < |answers| ==> answers[i] > 0
    }

    /** The write system call: returns how many bytes it stored, or less than 1 on an error. */
    method Write(p: seq<byte>) returns (r: int)
      requires p != []
      modifies this`data, this`answers
      ensures r <= |p|
      ensures data == old(data) + p[..Max(r, 0)]
      ensures old(Willing()) ==> r > 0 && Willing()
      ensures !isOpen ==> r < 0
    {
      if !isOpen {
        return -1;
      }
      r := if answers == [] then |p| else Min(answers[0], |p|);
      if answers != [] {
        answers := answers[1..];
      }
      data := data + p[..Max(r, 0)];
    }

    /** write_all: repeats short writes until all is stored or a write fails. */
    method WriteAll(p: seq<byte>)
      modifies this`data, this`answers
      ensures old(Willing()) ==> data == old(data) + p && Willing()
      ensures exists k :: 0 <= k <= |p| && data == old(data) + p[..k]
      ensures !isOpen ==> data == old(data)
    {
      ghost var k := 0;
      var rest := p;
      assert data == old(data) + p[..0];
      while rest != []
        invariant 0 <= k <= |p| && rest == p[k..] && data == old(data) + p[..k]
        invariant old(Willing()) ==> Willing()
        invariant !isOpen ==> k == 0
        decreases |rest|
      {
        ghost var stored := p[..k];
        var r := Write(rest);
        if r <= 0 {
          assert data == old(data) + p[..k];
          return;
        }
        assert stored + rest[..r] == p[..k + r];
        ConcatAssociative(old(data), stored, rest[..r]);
        rest := rest[r..];
        k := k + r;
      }
      assert p[..k] == p;
    }

    method Close()
      modifies this`isOpen
      ensures !isOpen
    {
      isOpen := false;
    }
  }

  // ---- appending to a stream ----

  /** All of the stream can be read, up to its end. */
  ghost predicate Clean(s: seq<byte>) {
    ReadFrames(s).stop == EndOfStream
  }

  /** What follows a clean stream is read as if it stood alone. */
  lemma {:induction false} ReadOn(s: seq<byte>, t: seq<byte>)
    requires Clean(s)
    ensures ReadFrames(s + t) == After(ReadFrames(s).items, t)
    decreases |s|
  {
    var r := ReadFrame(s);
    if r.Ended? {
      assert s + t == t;
      assert [] + ReadFrames(t).items == ReadFrames(t).items;
    } else {
      ReadOn(s[r.size..], t);
      ReadOnFirst(s, t, r);
    }
  }

  lemma ReadOnFirst(s: seq<byte>, t: seq<byte>, r: Read)
    requires r == ReadFrame(s) && r.Got?
    requires ReadFrames(s[r.size..] + t) == After(ReadFrames(s[r.size..]).items, t)
    ensures ReadFrames(s + t) == After(ReadFrames(s).items, t)
  {
    SameFirstFrame(s, t);
    assert (s + t)[r.size..] == s[r.size..] + t;
    assert ReadFrames(s).items == [r.item] + ReadFrames(s[r.size..]).items;
    ConcatAssociative([r.item], ReadFrames(s[r.size..]).items, ReadFrames(t).items);
  }

  lemma SameFirstFrame(s: seq<byte>, t: seq<byte>)
    requires ReadFrame(s).Got?
    ensures ReadFrame(s + t) == ReadFrame(s)
  {
    HeaderOf(s, s[..HEADER_SIZE]);
    HeaderOf(s + t, s[..HEADER_SIZE]);
    var size := ReadFrame(s).size;
    assert (s + t)[HEADER_SIZE..size] == s[HEADER_SIZE..size];
  }

  /** A good frame appended to a clean stream adds its payload to its tid's channel and to no other. */
  lemma AppendFrame(s: seq<byte>, f: Frame)
    requires Clean(s) && Good(f)
    ensures ReadFrames(s + FrameBytes(f)) == Content(ReadFrames(s).items + [Item(f.tid, Payload(f))], EndOfStream)
  {
    ReadOn(s, FrameBytes(f));
    ReadGoodFrame(f, []);
    assert FrameBytes(f) + [] == FrameBytes(f);
    assert ReadFrames([]).items == [] && [Item(f.tid, Payload(f))] + [] == [Item(f.tid, Payload(f))];
  }

  /** The text a stream decodes to under a tid. */
  function Text(s: seq<byte>, tid: uint32): seq<byte> {
    Channel(ReadFrames(s).items, tid)
  }

  lemma AppendFrameText(s: seq<byte>, f: Frame)
    requires Clean(s) && Good(f)
    ensures Clean(s + FrameBytes(f)) && Text(s + FrameBytes(f), f.tid) == Text(s, f.tid) + Payload(f)
    ensures OnlyFrom(s, f.tid) ==> OnlyFrom(s + FrameBytes(f), f.tid)
  {
    AppendFrame(s, f);
    var items := ReadFrames(s).items;
    assert (items + [Item(f.tid, Payload(f))])[..|items|] == items;
  }

  /** Every frame of the stream is under this tid. */
  ghost predicate OnlyFrom(s: seq<byte>, tid: uint32) {
    forall i :: 0 <= i < |ReadFrames(s).items| ==> ReadFrames(s).items[i].tid == tid
  }

  /** The frame a block is sent in. */
  function FrameFor(text: seq<byte>, tid: uint32, t: Table): Frame
    requires |text| < TWO31
  {
    Frame(tid, |text|, Encode(BlockOf(text, HashFinder(text), t)))
  }

  /** The largest buffer whose compressed form still has a size that fits an int. */
  const MAX_BUFFER: nat := 0x7F00_0000

  lemma FrameForGood(text: seq<byte>, tid: uint32, t: Table)
    requires 0 < |text| <= MAX_BUFFER
    ensures var f := FrameFor(text, tid, t);
            Good(f) && Payload(f) == text && |f.comp| <= CompressBound(|text|)
  {
    BlockSize(text, HashFinder(text), t);
    DecodeCompressed(text, HashFinder(text), t, |text|);
    EncodeNonEmpty(BlockOf(text, HashFinder(text), t));
  }

  lemma EncodeNonEmpty(b: Block)
    ensures |Encode(b)| > 0
  {
  }

  /** One frame more: this text under this tid, with its size. */
  ghost predicate OneFrame(before: seq<byte>, after: seq<byte>, text: seq<byte>, tid: uint32) {
    exists comp :: IsFrame(before, after, text, tid, comp)
  }

  ghost predicate IsFrame(before: seq<byte>, after: seq<byte>, text: seq<byte>, tid: uint32, comp: seq<byte>) {
    && 0 < |comp| < TWO32 && |text| < TWO32 && Decode(comp, |text|) == Ok(text)
    && after == before + FrameBytes(Frame(tid, |text|, comp))
  }

  /** Frames of these texts, one after the other. */
  ghost predicate FramesAdded(before: seq<byte>, after: seq<byte>, texts: seq<seq<byte>>, tid: uint32)
    decreases |texts|
  {
    if texts == [] then after == before
    else
      var n := |texts| - 1;
      exists mid :: FramesAdded(before, mid, texts[..n], tid) && OneFrame(mid, after, texts[n], tid)
  }

  lemma FramesNext(before: seq<byte>, mid: seq<byte>, after: seq<byte>, texts: seq<seq<byte>>, text: seq<byte>,
                   tid: uint32)
    requires FramesAdded(before, mid, texts, tid) && OneFrame(mid, after, text, tid)
    ensures FramesAdded(before, after, texts + [text], tid)
  {
    assert (texts + [text])[..|texts|] == texts;
  }

  lemma GrownBy(before: seq<byte>, data: seq<byte>, off: nat, piece: seq<byte>, after: seq<byte>)
    requires off + |piece| <= |data| && piece == data[off..off + |piece|] && after == before + data[..off] + piece
    ensures after == before + data[..off + |piece|]
  {
    ConcatAssociative(before, data[..off], piece);
    assert data[..off + |piece|] == data[..off] + piece;
  }

  ghost predicate FullBuffers(texts: seq<seq<byte>>, size: nat) {
    texts != [] && forall i :: 0 <= i < |texts| - 1 ==> |texts[i]| == size
  }

  ghost predicate PiecesSoFar(texts: seq<seq<byte>>, size: nat, off: nat, n: nat) {
    (off == 0 <==> texts == []) && forall i :: 0 <= i < |texts| ==> |texts[i]| == size || (i == |texts| - 1 && off == n)
  }

  lemma PiecesNext(texts: seq<seq<byte>>, size: nat, off: nat, n: nat, piece: seq<byte>)
    requires PiecesSoFar(texts, size, off, n) && off < n && |piece| == Min(n - off, size) > 0
    ensures PiecesSoFar(texts + [piece], size, off + |piece|, n)
  {
  }

  /** The first off bytes of data are out in pieces. */
  ghost predicate InPiecesTo(before: seq<byte>, after: seq<byte>, had: seq<byte>, has: seq<byte>, data: seq<byte>,
                             off: nat, size: nat, tid: uint32) {
    && off <= |data| && has == had + data[..off]
    && exists texts :: FramesAdded(before, after, texts, tid) && PiecesSoFar(texts, size, off, |data|)
  }

  lemma PieceMore(before: seq<byte>, mid: seq<byte>, after: seq<byte>, had: seq<byte>, now: seq<byte>, data: seq<byte>,
                  off: nat, piece: seq<byte>, size: nat, tid: uint32)
    requires InPiecesTo(before, mid, had, now, data, off, size, tid) && OneFrame(mid, after, piece, tid)
    requires off < |data| && |piece| == Min(|data| - off, size) > 0 && piece == data[off..off + |piece|]
    ensures InPiecesTo(before, after, had, now + piece, data, off + |piece|, size, tid)
  {
    var texts :| FramesAdded(before, mid, texts, tid) && PiecesSoFar(texts, size, off, |data|);
    FramesNext(before, mid, after, texts, piece, tid);
    GrownBy(had, data, off, piece, now + piece);
    PiecesNext(texts, size, off, |data|, piece);
  }

  lemma NoPiece(before: seq<byte>, had: seq<byte>, data: seq<byte>, size: nat, tid: uint32)
    ensures InPiecesTo(before, before, had, had, data, 0, size, tid)
  {
    assert FramesAdded(before, before, [], tid) && PiecesSoFar([], size, 0, |data|);
    assert had + data[..0] == had;
  }

  lemma AllPieces(before: seq<byte>, after: seq<byte>, had: seq<byte>, has: seq<byte>, data: seq<byte>, size: nat,
                  tid: uint32)
    requires InPiecesTo(before, after, had, has, data, |data|, size, tid) && data != []
    ensures has == had + data && InPieces(before, after, size, tid)
  {
    assert data[..|data|] == data;
  }

  /** Frames of one full buffer each, but for the last. */
  ghost predicate InPieces(before: seq<byte>, after: seq<byte>, size: nat, tid: uint32) {
    exists texts :: FramesAdded(before, after, texts, tid) && FullBuffers(texts, size)
  }

  /** What a write that does not fit sends out: first what was buffered, then data longer than a buffer in pieces. */
  ghost predicate Spilled(before: seq<byte>, after: seq<byte>, buffered: seq<byte>, data: seq<byte>, size: nat,
                          tid: uint32) {
    exists mid :: && (if buffered == [] then mid == before else OneFrame(before, mid, buffered, tid))
                  && (if |data| <= size then after == mid else InPieces(mid, after, size, tid))
  }

  // ---- the buffer ----

  /** Copies eight bytes at a time, then the rest one by one. */
  method InlineCopy(dst: array<byte>, at: nat, src: seq<byte>)
    requires at + |src| <= dst.Length
    modifies dst
    ensures dst[..at] == old(dst[..at]) && dst[at..at + |src|] == src
  {
    var i := 0;
    while |src| - i >= 8
      invariant 0 <= i <= |src|
      invariant forall j :: 0 <= j < at ==> dst[j] == old(dst[j])
      invariant forall j :: at <= j < at + i ==> dst[j] == src[j - at]
    {
      forall j | at + i <= j < at + i + 8 {
        dst[j] := src[j - at];
      }
      i := i + 8;
    }
    while i < |src|
      invariant 0 <= i <= |src|
      invariant forall j :: 0 <= j < at ==> dst[j] == old(dst[j])
      invariant forall j :: at <= j < at + i ==> dst[j] == src[j - at]
    {
      dst[at + i] := src[i];
      i := i + 1;
    }
  }

  class DirectWriteBuf {
    const size: nat
    const tid: uint32
    const buf: array<byte>
    const compBuf: array<byte>
    const file: File
    var pos: nat
    /** Whether the buffer still holds its file descriptor. */
    var hasFd: bool

    ghost predicate Valid()
      reads this
    {
      && 0 < size <= MAX_BUFFER
      && buf.Length == size && compBuf.Length == CompressBound(size) && buf != compBuf
      && pos <= size
    }

    /** The file is open, takes what it is given, and holds whole frames of this thread only. */
    ghost predicate Writable()
      reads this, file
    {
      hasFd && file.Willing() && Clean(file.data) && OnlyFrom(file.data, tid)
    }

    /** The text written so far: what the file decodes to, and what is still buffered. */
    function Contents(): seq<byte>
      requires Valid()
      reads this, buf, file
    {
      Text(file.data, tid) + buf[..pos]
    }

    constructor (size: nat, tid: uint32, file: File)
      requires 0 < size <= MAX_BUFFER && file.data == [] && file.Willing()
      ensures Valid() && Writable() && Contents() == []
      ensures fresh(buf) && fresh(compBuf) && compBuf.Length == size + size / 255 + 16
      ensures this.size == size && this.tid == tid && this.file == file
    {
      this.size, this.tid, this.file := size, tid, file;
      buf := new byte[size];
      compBuf := new byte[CompressBound(size)];
      pos, hasFd := 0, true;
    }

    /** Writes to the descriptor; with none left nothing is stored. */
    method WriteOut(p: seq<byte>)
      modifies file`data, file`answers
      ensures old(hasFd && file.Willing()) ==> file.data == old(file.data) + p && file.Willing()
      ensures !hasFd || !file.isOpen ==> file.data == old(file.data)
    {
      if hasFd {
        file.WriteAll(p);
      }
    }

    /**
     Compresses what is buffered and writes it out as one frame. Since the compressed block always fits the
     buffer it is put into, nothing is dropped.
     */
    method Flush(htab: array<uint32>)
      requires Valid() && htab.Length == TABLE_SIZE && htab as object != compBuf as object
               && htab as object != buf as object
      modifies this`pos, compBuf, htab, file`data, file`answers
      ensures Valid() && pos == 0
      ensures old(Writable()) ==> Writable() && Contents() == old(Contents())
      ensures !hasFd || !file.isOpen ==> file.data == old(file.data)
      ensures old(pos) == 0 ==> file.data == old(file.data)
      ensures old(Writable()) && old(pos) > 0 ==> OneFrame(old(file.data), file.data, old(buf[..pos]), tid)
    {
      if pos == 0 {
        return;
      }
      ghost var text, f, data := buf[..pos], FrameFor(buf[..pos], tid, htab[..]), file.data;
      FrameForGood(text, tid, htab[..]);
      var compSize := Compress(buf[..pos], compBuf, CompressBound(pos), htab);
      assert compBuf[..compSize] == f.comp;
      if compSize > 0 {
        WriteOut(Header(compSize, pos, tid));
        WriteOut(compBuf[..compSize]);
        ConcatAssociative(data, Header(compSize, pos, tid), f.comp);
      }
      pos := 0;
      if old(Writable()) {
        assert file.data == data + FrameBytes(f);
        AppendFrameText(data, f);
        assert IsFrame(data, file.data, text, tid, f.comp);
        assert buf[..0] == [];
      }
    }

    /** Copies into the buffer at pos. */
    method Put(data: seq<byte>)
      requires Valid() && pos + |data| <= size
      modifies this`pos, buf
      ensures Valid() && pos == old(pos) + |data|
      ensures Contents() == old(Contents()) + data && buf[..pos] == old(buf[..pos]) + data
    {
      ghost var before := buf[..pos];
      InlineCopy(buf, pos, data);
      pos := pos + |data|;
      assert buf[..pos] == before + data;
      ConcatAssociative(Text(file.data, tid), before, data);
    }

    /** Writes of any length: buffered when they fit, after a flush when they do not, else in pieces. */
    method Write(data: seq<byte>, htab: array<uint32>)
      requires Valid() && htab.Length == TABLE_SIZE && htab as object != compBuf as object
               && htab as object != buf as object
      modifies this`pos, buf, compBuf, htab, file`data, file`answers
      ensures Valid()
      ensures old(Writable()) ==> Writable() && Contents() == old(Contents()) + data
      ensures !hasFd || !file.isOpen ==> file.data == old(file.data)
      ensures old(pos) + |data| <= size ==> file.data == old(file.data) && pos == old(pos) + |data|
      ensures old(pos) + |data| > size ==> pos == if |data| <= size then |data| else 0
      ensures old(Writable()) && old(pos) + |data| > size ==>
                Spilled(old(file.data), file.data, old(buf[..pos]), data, size, tid)
    {
      if pos + |data| <= size {
        Put(data);
        return;
      }
      Flush(htab);
      if |data| <= size {
        Put(data);
      } else {
        WritePieces(data, htab);
      }
    }

    /** Data longer than the buffer, one full buffer after the other. */
    method WritePieces(data: seq<byte>, htab: array<uint32>)
      requires Valid() && pos == 0 && |data| > size && htab.Length == TABLE_SIZE && htab as object != compBuf as object
               && htab as object != buf as object
      modifies this`pos, buf, compBuf, htab, file`data, file`answers
      ensures Valid() && pos == 0
      ensures old(Writable()) ==> Writable() && Contents() == old(Contents()) + data
      ensures !hasFd || !file.isOpen ==> file.data == old(file.data)
      ensures old(Writable()) ==> InPieces(old(file.data), file.data, size, tid)
    {
      ghost var good, before, had := Writable(), file.data, Contents();
      var off := 0;
      NoPiece(before, had, data, size, tid);
      while off < |data|
        invariant 0 <= off <= |data| && Valid() && pos == 0
        invariant good ==> Writable() && InPiecesTo(before, file.data, had, Contents(), data, off, size, tid)
        invariant !hasFd || !file.isOpen ==> file.data == before
      {
        var chunk := Min(|data| - off, size);
        var piece := data[off..off + chunk];
        ghost var mid, now := file.data, Contents();
        WritePiece(piece, htab);
        if good {
          PieceMore(before, mid, file.data, had, now, data, off, piece, size, tid);
        }
        off := off + chunk;
      }
      if good {
        AllPieces(before, file.data, had, Contents(), data, size, tid);
      }
    }

    /** One turn of that loop. */
    method WritePiece(piece: seq<byte>, htab: array<uint32>)
      requires Valid() && pos == 0 && 0 < |piece| <= size && htab.Length == TABLE_SIZE
               && htab as object != compBuf as object && htab as object != buf as object
      modifies this`pos, buf, compBuf, htab, file`data, file`answers
      ensures Valid() && pos == 0
      ensures !hasFd || !file.isOpen ==> file.data == old(file.data)
      ensures old(Writable()) ==> Writable() && Contents() == old(Contents()) + piece
      ensures old(Writable()) ==> OneFrame(old(file.data), file.data, piece, tid)
    {
      Put(piece);
      assert buf[..pos] == piece;
      Flush(htab);
    }

    /** Flushes the rest; the mapped buffers are given back, which the model leaves to the owner. */
    method Destroy(htab: array<uint32>)
      requires Valid() && htab.Length == TABLE_SIZE && htab as object != compBuf as object
               && htab as object != buf as object
      modifies this`pos, compBuf, htab, file`data, file`answers
      ensures Valid()
      ensures old(Writable()) ==>
                  Clean(file.data) && OnlyFrom(file.data, tid) && Text(file.data, tid) == old(Contents())
    {
      if pos > 0 {
        Flush(htab);
      }
    }

    /** flushFromSignal: the same flush, skipped once the descriptor is gone. */
    method FlushFromSignal(htab: array<uint32>)
      requires Valid() && htab.Length == TABLE_SIZE && htab as object != compBuf as object
               && htab as object != buf as object
      modifies this`pos, compBuf, htab, file`data, file`answers
      ensures Valid()
      ensures old(Writable()) ==> Writable() && pos == 0 && Contents() == old(Contents())
      ensures !hasFd || !file.isOpen ==> file.data == old(file.data)
    {
      if pos == 0 || !hasFd {
        return;
      }
      Flush(htab);
    }

    method CloseFromSignal()
      modifies this`hasFd, file`isOpen
      ensures !hasFd && (old(hasFd) ==> !file.isOpen)
    {
      if hasFd {
        hasFd := false;
        file.Close();
      }
    }
  }

  /** What a clone amounts to: all it was given to write, and its file. */
  datatype View = View(valid: bool, writable: bool, hasFd: bool, text: seq<byte>, data: seq<byte>, tid: uint32)

  /**
   What a salvage makes of a clone: if it could be written to, its file decodes to all its text, pending line
   included; if its file was already given up, the file is left as it is.
   */
  ghost predicate Salvaged(before: View, after: View) {
    && after.valid && !after.hasFd && after.tid == before.tid
    && (before.writable ==> Clean(after.data) && Text(after.data, after.tid) == before.text)
    && (!before.hasFd ==> after.data == before.data)
  }

  /** A second salvage adds nothing. */
  lemma SalvagedTwice(first: View, second: View, third: View)
    requires Salvaged(first, second) && Salvaged(second, third)
    ensures third.data == second.data && Salvaged(first, third)
  {
  }

  /** A thread's trace: its buffer and the line still being put together. */
  class TraceClone {
    const dw: DirectWriteBuf
    var line: seq<byte>

    constructor (dw: DirectWriteBuf)
      ensures this.dw == dw && line == []
    {
      this.dw, this.line := dw, [];
    }

    /** Everything a salvage may change. */
    ghost function Repr(): set<object> {
      {this, dw, dw.buf, dw.compBuf, dw.file}
    }

    ghost function Snapshot(): View
      reads Repr()
    {
      View(dw.Valid(), dw.Writable(), dw.hasFd, if dw.Valid() then dw.Contents() + line else [], dw.file.data, dw.tid)
    }

    /** The pending line is added, the buffer flushed, the file closed. */
    method Salvage(htab: array<uint32>)
      requires dw.Valid() && htab.Length == TABLE_SIZE && htab !in Repr()
      modifies Repr(), htab
      ensures Salvaged(old(Snapshot()), Snapshot())
    {
      if |line| > 0 {
        dw.Write(line, htab);
        line := [];
      }
      dw.FlushFromSignal(htab);
      dw.CloseFromSignal();
      assert dw.buf[..0] == [];
    }
  }

  ghost predicate Separate(clones: seq<TraceClone>) {
    forall i, j :: 0 <= i < j < |clones| ==> clones[i].Repr() !! clones[j].Repr()
  }

  ghost function Footprint(clones: seq<TraceClone>): set<object> {
    set i, o | 0 <= i < |clones| && o in clones[i].Repr() :: o
  }

  /** trace_salvage_all_best_effort over all the clones. */
  method SalvageAll(clones: seq<TraceClone>, htab: array<uint32>)
    requires htab.Length == TABLE_SIZE && Separate(clones)
    requires forall i :: 0 <= i < |clones| ==> clones[i].Snapshot().valid && htab !in clones[i].Repr()
    modifies Footprint(clones), htab
    ensures forall i :: 0 <= i < |clones| ==> Salvaged(old(clones[i].Snapshot()), clones[i].Snapshot())
  {
    for k := 0 to |clones|
      invariant forall i :: 0 <= i < k ==> Salvaged(old(clones[i].Snapshot()), clones[i].Snapshot())
      invariant forall i :: k <= i < |clones| ==> clones[i].Snapshot() == old(clones[i].Snapshot())
    {
      SalvageNth(clones, k, htab);
    }
  }

  /** Salvaging one clone leaves the others as they are. */
  method SalvageNth(clones: seq<TraceClone>, k: nat, htab: array<uint32>)
    requires htab.Length == TABLE_SIZE && Separate(clones) && k < |clones|
    requires forall i :: 0 <= i < |clones| ==> htab !in clones[i].Repr()
    requires clones[k].Snapshot().valid
    modifies clones[k].Repr(), htab
    ensures Salvaged(old(clones[k].Snapshot()), clones[k].Snapshot())
    ensures forall i :: 0 <= i < |clones| && i != k ==> clones[i].Snapshot() == old(clones[i].Snapshot())
  {
    forall i | 0 <= i < |clones| && i != k ensures clones[i].Repr() !! clones[k].Repr() {
      if i < k {
        assert clones[i].Repr() !! clones[k].Repr();
      }
    }
    clones[k].Salvage(htab);
  }

  // ---- end to end ----

  function Joined(parts: seq<seq<byte>>): seq<byte> {
    if parts == [] then [] else Joined(parts[..|parts| - 1]) + parts[|parts| - 1]
  }

  /** Concatenates the payloads of decoded frames. */
  method JoinPayloads(items: seq<Item>, ghost tid: uint32) returns (text: seq<byte>)
    requires forall i :: 0 <= i < |items| ==> items[i].tid == tid
    ensures text == Channel(items, tid)
  {
    text := [];
    for i := 0 to |items|
      invariant text == Channel(items[..i], tid)
    {
      assert items[..i + 1][..i] == items[..i];
      text := text + items[i].data;
    }
    assert items[..|items|] == items;
  }

  /**
   A whole run in file mode: any writes of any lengths through a buffer of any size, short writes by the
   system included, then destroy; decode_frames yields frames of one thread whose payloads, concatenated,
   are the writes, concatenated.
   */
  method TraceToFile(size: nat, tid: uint32, answers: seq<int>, script: seq<seq<byte>>, htab: array<uint32>)
    returns (text: seq<byte>)
    requires 0 < size <= MAX_BUFFER && htab.Length == TABLE_SIZE
    requires forall i :: 0 <= i < |answers| ==> answers[i] > 0
    modifies htab
    ensures text == Joined(script)
  {
    var file := new File(answers);
    var dw := new DirectWriteBuf(size, tid, file);
    for i := 0 to |script|
      invariant fresh(dw) && fresh(dw.file) && fresh(dw.buf) && fresh(dw.compBuf)
      invariant dw.Valid() && dw.Writable() && dw.Contents() == Joined(script[..i])
    {
      assert script[..i + 1][..i] == script[..i];
      dw.Write(script[i], htab);
    }
    assert script[..|script|] == script;
    dw.Destroy(htab);
    var items, stop := DecodeFrames(dw.file.data);
    text := JoinPayloads(items, dw.tid);
  }
}
