/**
 Exactly when a thread's packets stay in turn whatever happens next: a run of the threads' own steps is found for
 every state in which they can still get out of turn.
 */
module TcpOvertake {
  import opened Bytes
  import opened Lz4Format
  import opened TcpWriter
  import opened TcpSocket
  import opened TcpTurns

  // ---- continuations ----

  predicate NoneStarts(ls: seq<Label>) {
    forall k :: 0 <= k < |ls| ==> !ls[k].Spawns?
  }

  ghost predicate InTurnAfter(size: nat, codec: Codec, ls: seq<Label>, tid: uint32) {
    AfterSteps(size, codec, ls).Some? ==> TurnsAt(AfterSteps(size, codec, ls).value, tid)
  }

  /** However the run goes on, as long as no writer starts, the thread's packets are in turn. */
  ghost predicate Forever(size: nat, codec: Codec, ls: seq<Label>, tid: uint32) {
    forall more :: NoneStarts(more) ==> InTurnAfter(size, codec, ls + more, tid)
  }

  lemma LastOfBoth(ls: seq<Label>, more: seq<Label>)
    requires more != []
    ensures var all := ls + more;
            all != [] && all[..|all| - 1] == ls + more[..|more| - 1] && all[|all| - 1] == more[|more| - 1]
  {
  }

  lemma {:induction false} TurnsOn(size: nat, codec: Codec, ls: seq<Label>, g: World, more: seq<Label>, tid: uint32)
    requires size > 0 && Workable(size, codec) && AfterSteps(size, codec, ls) == Some(g)
    requires TurnsAt(g, tid) && SafeAt(g, tid) && NoneStarts(more)
    ensures var v := AfterSteps(size, codec, ls + more); v.Some? ==> TurnsAt(v.value, tid) && SafeAt(v.value, tid)
    decreases |more|
  {
    if more == [] {
      NothingMore(ls);
    } else {
      var front, l := more[..|more| - 1], more[|more| - 1];
      TurnsOn(size, codec, ls, g, front, tid);
      LastOfBoth(ls, more);
      RunInv(size, codec, ls + front);
      if AfterSteps(size, codec, ls + more).Some? {
        TurnsStep(size, codec, AfterSteps(size, codec, ls + front).value, l, tid);
      }
    }
  }

  // ---- overtaking ----

  lemma {:induction false} SentOwner(order: seq<Packet>, owners: seq<nat>, j: nat) returns (a: nat)
    requires |order| == |owners| && OfWriter(order, owners, j) != []
    ensures a < |order| && owners[a] == j
    decreases |order|
  {
    var n := |order| - 1;
    if owners[n] == j {
      a := n;
    } else {
      a := SentOwner(order[..n], owners[..n], j);
    }
  }

  lemma WholePrefix<T>(s: seq<T>, n: nat)
    ensures n == |s| ==> s[..n] == s
  {
  }

  /** A writer with more packets in a longer order has one in what was added. */
  lemma {:induction false} OwnerBehind(order: seq<Packet>, owners: seq<nat>, n: nat, i: nat) returns (b: nat)
    requires n <= |order| == |owners| && OfWriter(order, owners, i) != OfWriter(order[..n], owners[..n], i)
    ensures n <= b < |order| && owners[b] == i
    decreases |order|
  {
    var m := |order| - 1;
    WholePrefix(order, n);
    WholePrefix(owners, n);
    if owners[m] == i {
      b := m;
    } else {
      assert order[..m][..n] == order[..n] && owners[..m][..n] == owners[..n];
      b := OwnerBehind(order[..m], owners[..m], n, i);
    }
  }

  lemma OwnOn(a: seq<Label>, b: seq<Label>)
    requires AllOwn(a) && AllOwn(b)
    ensures AllOwn(a + b)
  {
  }

  /**
   Where a later writer has sent something and an earlier one has not sent all, every way to the end is out of turn.
   */
  lemma Behind(size: nat, codec: Codec, ls: seq<Label>, g: World, i: nat, j: nat) returns (more: seq<Label>, v: World)
    requires size > 0 && Workable(size, codec) && AfterSteps(size, codec, ls) == Some(g)
    requires i < j < |g.writers| == |g.texts| && g.writers[i].tid == g.writers[j].tid
    requires !SentAll(g, i) && g.writers[j].sent != []
    ensures AfterSteps(size, codec, ls + more) == Some(v) && v.conn.Closed? && AllOwn(more)
    ensures !TurnsAt(v, g.writers[i].tid)
  {
    RunInv(size, codec, ls);
    more, v := EndFollows(size, codec, ls, g);
    RunInv(size, codec, ls + more);
    ClosedWire(size, codec, v);
    OwnersAre(size, codec, v);
    SentByWriter(size, codec, g, i);
    SentByWriter(size, codec, g, j);
    var n := |g.order|;
    assert v.order[..n] == g.order && v.owners[..n] == g.owners;
    var a := SentOwner(g.order, g.owners, j);
    var b := OwnerBehind(v.order, v.owners, n, i);
    assert v.owners[a] == v.owners[..n][a] == j;
  }

  /** The holder of the send mutex finishes its packet: then all that was committed is sent. */
  lemma FreesMutex(size: nat, codec: Codec, ls: seq<Label>, g: World, i: nat) returns (more: seq<Label>, v: World)
    requires Workable(size, codec) && AfterSteps(size, codec, ls) == Some(g) && Inv(size, codec, g)
    requires i < |g.writers| && !g.writers[i].producer.Done?
    ensures AfterSteps(size, codec, ls + more) == Some(v) && AllOwn(more)
    ensures v.holder.Nobody? && v.texts == g.texts && |v.writers| == |g.writers|
    ensures forall k :: 0 <= k < |g.writers| ==>
                          v.writers[k].tid == g.writers[k].tid && SentText(v.writers[k].sent) == Committed(g.writers[k])
  {
    ActiveOpen(size, codec, g, i);
    forall k | 0 <= k < |g.writers| ensures g.writers[k].worker.Sending? <==> g.holder == WriterHolds(k) {
      assert WriterOk(size, codec, g, k);
    }
    forall k | 0 <= k < |g.writers| && !g.writers[k].worker.Sending?
      ensures SentText(g.writers[k].sent) == Committed(g.writers[k])
    {
      assert SentText(g.writers[k].sent) + [] == SentText(g.writers[k].sent);
    }
    if g.holder.Nobody? {
      more, v := [], g;
      NothingMore(ls);
    } else {
      assert WriterOk(size, codec, g, g.holder.i);
      more, v := FinishesPacket(size, codec, ls, g, g.holder.i);
    }
  }

  lemma FinishesPacket(size: nat, codec: Codec, ls: seq<Label>, g: World, h: nat) returns (more: seq<Label>, v: World)
    requires AfterSteps(size, codec, ls) == Some(g) && h < |g.writers| && g.writers[h].worker.Sending?
    requires g.writers[h].worker.n <= |codec.frame(Current(g.writers[h]))|
    ensures AfterSteps(size, codec, ls + more) == Some(v) && AllOwn(more)
    ensures v.holder.Nobody? && v.texts == g.texts && |v.writers| == |g.writers|
    ensures forall k :: 0 <= k < |g.writers| && k != h ==> v.writers[k] == g.writers[k]
    ensures v.writers[h].tid == g.writers[h].tid && SentText(v.writers[h].sent) == Committed(g.writers[h])
  {
    var rest, u := SendsRest(size, codec, ls, g, h);
    var l := DropsSend(h);
    v := DropsPacket(size, codec, ls + rest, u, h);
    TwoMore(ls, rest, [l]);
    OwnOne(l);
    OwnOn(rest, [l]);
    more := rest + [l];
  }

  lemma OwnOne(l: Label)
    requires OwnStep(l)
    ensures AllOwn([l])
  {
  }

  lemma SendsRest(size: nat, codec: Codec, ls: seq<Label>, g: World, h: nat) returns (more: seq<Label>, u: World)
    requires AfterSteps(size, codec, ls) == Some(g) && h < |g.writers| && g.writers[h].worker.Sending?
    requires g.writers[h].worker.n <= |codec.frame(Current(g.writers[h]))|
    ensures AfterSteps(size, codec, ls + more) == Some(u) && AllOwn(more) && u.texts == g.texts
            && |u.writers| == |g.writers|
    ensures forall k :: 0 <= k < |g.writers| && k != h ==> u.writers[k] == g.writers[k]
    ensures u.writers[h].worker.Sending? && u.writers[h].worker.n == |codec.frame(Current(u.writers[h]))|
    ensures u.writers[h].tid == g.writers[h].tid && Committed(u.writers[h]) == Committed(g.writers[h])
  {
    var w := g.writers[h];
    var f := |codec.frame(Current(w))|;
    if w.worker.n == f {
      more, u := [], g;
      NothingMore(ls);
    } else {
      var l := SendsSome(h, f);
      AfterOneMore(size, codec, ls, g, l);
      more, u := [l], Apply(size, codec, g, l);
      SentTo(w, f);
      OwnOne(l);
    }
  }

  lemma SentTo(w: Writer, n: nat)
    requires w.worker.Sending?
    ensures var v := SentMore(w, n); v.worker.Sending? && v.worker.n == n && v.tid == w.tid
    ensures Current(SentMore(w, n)) == Current(w) && Committed(SentMore(w, n)) == Committed(w)
  {
  }

  lemma DropsPacket(size: nat, codec: Codec, ls: seq<Label>, g: World, h: nat) returns (v: World)
    requires AfterSteps(size, codec, ls) == Some(g) && h < |g.writers|
    requires g.writers[h].worker.Sending? && g.writers[h].worker.n == |codec.frame(Current(g.writers[h]))|
    ensures AfterSteps(size, codec, ls + [DropsSend(h)]) == Some(v)
    ensures v.holder.Nobody? && v.texts == g.texts && |v.writers| == |g.writers|
    ensures forall k :: 0 <= k < |g.writers| && k != h ==> v.writers[k] == g.writers[k]
    ensures v.writers[h].tid == g.writers[h].tid && SentText(v.writers[h].sent) == Committed(g.writers[h])
  {
    AfterOneMore(size, codec, ls, g, DropsSend(h));
    SentSnoc(g.writers[h].sent, Current(g.writers[h]));
    v := Apply(size, codec, g, DropsSend(h));
  }

  /** One step of writer j, which has the send mutex or finds it free. */
  ghost predicate Onward(g: World, j: nat, l: Label, v: World)
    requires j < |g.writers|
  {
    && WriterLabel(l, j) && v.texts == g.texts && |v.writers| == |g.writers|
    && (forall k :: 0 <= k < |g.writers| && k != j ==> v.writers[k] == g.writers[k])
    && SameBuffer(v.writers[j], g.writers[j])
    && if l.DropsSend? then
         && g.writers[j].worker.Sending? && Current(g.writers[j]).text != [] && v.holder.Nobody?
         && v.order == g.order + [Current(g.writers[j])] && v.owners == g.owners + [j]
         && v.writers[j].sent == g.writers[j].sent + [Current(g.writers[j])]
       else
         && (v.holder.Nobody? || v.holder == WriterHolds(j))
         && v.order == g.order && v.owners == g.owners && v.writers[j].sent == g.writers[j].sent
  }

  lemma GoesOnward(size: nat, codec: Codec, g: World, j: nat, l: Label)
    requires Inv(size, codec, g) && j < |g.writers| && WriterLabel(l, j) && Enabled(size, codec, g, l)
    requires g.holder.Nobody? || g.holder == WriterHolds(j)
    ensures Onward(g, j, l, Apply(size, codec, g, l))
  {
    assert WriterOk(size, codec, g, j);
    if l.ProducerMoves? {
      ProducerFrame(size, g.writers[j]);
    } else if l.DropsSend? {
      HeldUnsent(size, g.writers[j]);
    }
  }

  lemma MovesOn(size: nat, codec: Codec, ls: seq<Label>, g: World, j: nat) returns (l: Label, v: World)
    requires size > 0 && Workable(size, codec) && AfterSteps(size, codec, ls) == Some(g)
    requires j < |g.writers| && !g.writers[j].producer.Done? && (g.holder.Nobody? || g.holder == WriterHolds(j))
    ensures AfterSteps(size, codec, ls + [l]) == Some(v) && Below(WorldMeasure(v), WorldMeasure(g))
    ensures Onward(g, j, l, v)
  {
    RunInv(size, codec, ls);
    l := WriterCanMove(size, codec, g, j);
    v := Apply(size, codec, g, l);
    StepProgress(size, codec, g, l);
    GoesOnward(size, codec, g, j, l);
    AfterOneMore(size, codec, ls, g, l);
  }

  lemma UnsentGoesOn(size: nat, codec: Codec, g: World, i: nat)
    requires Inv(size, codec, g) && i < |g.writers| && !SentAll(g, i)
    ensures !g.writers[i].producer.Done?
  {
    assert WriterOk(size, codec, g, i);
    if g.writers[i].producer.Done? {
      DoneSentAll(size, g.writers[i]);
    }
  }

  /** Writer j alone brings its next packet out; r is the state's measure. */
  lemma {:induction false} DrivesOut(size: nat, codec: Codec, ls: seq<Label>, g: World, j: nat, r: Rank)
    returns (more: seq<Label>, v: World, p: Packet)
    requires size > 0 && Workable(size, codec) && AfterSteps(size, codec, ls) == Some(g) && r == WorldMeasure(g)
    requires j < |g.writers| == |g.texts| && !SentAll(g, j) && (g.holder.Nobody? || g.holder == WriterHolds(j))
    ensures AfterSteps(size, codec, ls + more) == Some(v) && AllOwn(more)
    ensures v.texts == g.texts && |v.writers| == |g.writers| && SameBuffer(v.writers[j], g.writers[j])
    ensures forall k :: 0 <= k < |g.writers| && k != j ==> v.writers[k] == g.writers[k]
    ensures v.order == g.order + [p] && v.owners == g.owners + [j] && v.writers[j].sent == g.writers[j].sent + [p]
    ensures p.text != []
    decreases r.work, r.job, r.unsent, r.locks
  {
    RunInv(size, codec, ls);
    UnsentGoesOn(size, codec, g, j);
    var l, u := MovesOn(size, codec, ls, g, j);
    if l.DropsSend? {
      more, v, p := [l], u, Current(g.writers[j]);
    } else {
      var rest;
      rest, v, p := DrivesOut(size, codec, ls + [l], u, j, WorldMeasure(u));
      more := [l] + rest;
      OneThenRest(ls, l, rest);
      OneThenOwn(l, rest);
    }
  }

  lemma PairUnsafe(g: World, i: nat, j: nat)
    requires i < |g.writers| == |g.texts| && j < |g.writers| && !PairSafe(g, i, j) && g.writers[j].sent == []
    ensures !SentAll(g, i) && !Settled(g, i) && !SentAll(g, j)
  {
  }

  lemma TwoMore(ls: seq<Label>, a: seq<Label>, b: seq<Label>)
    ensures ls + a + b == ls + (a + b)
  {
  }

  /** Where two of a thread's writers are not safe, the later one can overtake: a way to the end that is out of turn. */
  lemma Overtakes(size: nat, codec: Codec, ls: seq<Label>, g: World, i: nat, j: nat)
    returns (more: seq<Label>, v: World)
    requires size > 0 && Workable(size, codec) && AfterSteps(size, codec, ls) == Some(g)
    requires i < j < |g.writers| == |g.texts| && g.writers[i].tid == g.writers[j].tid && !PairSafe(g, i, j)
    ensures AfterSteps(size, codec, ls + more) == Some(v) && v.conn.Closed? && AllOwn(more)
    ensures !TurnsAt(v, g.writers[i].tid)
  {
    if g.writers[j].sent != [] {
      more, v := Behind(size, codec, ls, g, i, j);
    } else {
      PairUnsafe(g, i, j);
      RunInv(size, codec, ls);
      UnsentGoesOn(size, codec, g, i);
      var first, u := FreesMutex(size, codec, ls, g, i);
      var rest;
      rest, v := OvertakesFree(size, codec, ls + first, u, i, j);
      more := first + rest;
      TwoMore(ls, first, rest);
      OwnOn(first, rest);
    }
  }

  lemma OvertakesFree(size: nat, codec: Codec, ls: seq<Label>, g: World, i: nat, j: nat)
    returns (more: seq<Label>, v: World)
    requires size > 0 && Workable(size, codec) && AfterSteps(size, codec, ls) == Some(g)
    requires i < j < |g.writers| == |g.texts| && g.writers[i].tid == g.writers[j].tid && g.holder.Nobody?
    requires !SentAll(g, i) && g.texts[j] != []
    ensures AfterSteps(size, codec, ls + more) == Some(v) && v.conn.Closed? && AllOwn(more)
    ensures !TurnsAt(v, g.writers[i].tid)
  {
    if g.writers[j].sent != [] {
      more, v := Behind(size, codec, ls, g, i, j);
    } else {
      var first, u, p := DrivesOut(size, codec, ls, g, j, WorldMeasure(g));
      var rest;
      rest, v := Behind(size, codec, ls + first, u, i, j);
      more := first + rest;
      TwoMore(ls, first, rest);
      OwnOn(first, rest);
    }
  }

  // ---- exactly ----

  /**
   In any reachable state: the thread's packets stay in turn for ever if and only if they are and all pairs are safe.
   */
  lemma StateExact(size: nat, codec: Codec, ls: seq<Label>, g: World, tid: uint32)
    requires size > 0 && Workable(size, codec) && AfterSteps(size, codec, ls) == Some(g)
    ensures Forever(size, codec, ls, tid) <==> TurnsAt(g, tid) && SafeAt(g, tid)
  {
    RunInv(size, codec, ls);
    if TurnsAt(g, tid) && SafeAt(g, tid) {
      forall more | NoneStarts(more) ensures InTurnAfter(size, codec, ls + more, tid) {
        TurnsOn(size, codec, ls, g, more, tid);
      }
    } else if !TurnsAt(g, tid) {
      NothingMore(ls);
      assert NoneStarts([]) && !InTurnAfter(size, codec, ls + [], tid);
    } else {
      var i, j :| 0 <= i < j < |g.writers| && g.writers[i].tid == tid && g.writers[j].tid == tid && !PairSafe(g, i, j);
      var more, v := Overtakes(size, codec, ls, g, i, j);
      assert NoneStarts(more) && !InTurnAfter(size, codec, ls + more, tid);
    }
  }

  /**
   A writer that starts on a thread leaves its packets in turn for ever if and only if it has nothing to write, or
   every earlier writer of the thread has sent all its text but for a packet that it is sending now.
   */
  lemma StartExact(size: nat, codec: Codec, ls: seq<Label>, g: World, l: Label)
    requires size > 0 && Workable(size, codec) && AfterSteps(size, codec, ls) == Some(g)
    requires l.Spawns? && Enabled(size, codec, g, l) && Forever(size, codec, ls, l.tid)
    ensures Forever(size, codec, ls + [l], l.tid) <==> Clear(g, l.tid, l.script)
  {
    RunInv(size, codec, ls);
    StateExact(size, codec, ls, g, l.tid);
    SpawnSafe(size, codec, g, l, l.tid);
    AfterOneMore(size, codec, ls, g, l);
    StateExact(size, codec, ls + [l], Apply(size, codec, g, l), l.tid);
  }

  /** Every writer of the thread was clear to start. */
  ghost predicate ClearStarts(size: nat, codec: Codec, ls: seq<Label>, tid: uint32)
    decreases |ls|
  {
    ls == [] ||
    var front, l := ls[..|ls| - 1], ls[|ls| - 1];
    ClearStarts(size, codec, front, tid)
    && (l.Spawns? && l.tid == tid ==>
          AfterSteps(size, codec, front).Some? && Clear(AfterSteps(size, codec, front).value, tid, l.script))
  }

  lemma {:induction false} ClearRun(size: nat, codec: Codec, ls: seq<Label>, tid: uint32)
    requires size > 0 && Workable(size, codec) && ClearStarts(size, codec, ls, tid)
    ensures var g := AfterSteps(size, codec, ls); g.Some? ==> TurnsAt(g.value, tid) && SafeAt(g.value, tid)
    decreases |ls|
  {
    if ls != [] {
      var front, l := ls[..|ls| - 1], ls[|ls| - 1];
      ClearRun(size, codec, front, tid);
      RunInv(size, codec, front);
      if AfterSteps(size, codec, ls).Some? {
        var g := AfterSteps(size, codec, front).value;
        if l.Spawns? {
          SpawnSafe(size, codec, g, l, tid);
        } else {
          TurnsStep(size, codec, g, l, tid);
        }
      }
    }
  }

  /** At every moment of a run the thread's packets are in turn and bound to stay so. */
  ghost predicate AlwaysForever(size: nat, codec: Codec, ls: seq<Label>, tid: uint32)
    decreases |ls|
  {
    Forever(size, codec, ls, tid) && (ls == [] || AlwaysForever(size, codec, ls[..|ls| - 1], tid))
  }

  lemma FrontAndLast(ls: seq<Label>)
    requires ls != []
    ensures ls == ls[..|ls| - 1] + [ls[|ls| - 1]]
  {
  }

  /**
   Over whole runs: at no moment could a thread's packets have got out of turn if and only if all its starts were
   clear.
   */
  lemma {:induction false} RunExact(size: nat, codec: Codec, ls: seq<Label>, tid: uint32)
    requires size > 0 && Workable(size, codec) && AfterSteps(size, codec, ls).Some?
    ensures AlwaysForever(size, codec, ls, tid) <==> ClearStarts(size, codec, ls, tid)
    decreases |ls|
  {
    var g := AfterSteps(size, codec, ls).value;
    if ls == [] {
      ClearRun(size, codec, ls, tid);
      StateExact(size, codec, ls, g, tid);
    } else {
      var front, l := ls[..|ls| - 1], ls[|ls| - 1];
      RunExact(size, codec, front, tid);
      FrontAndLast(ls);
      if ClearStarts(size, codec, ls, tid) {
        ClearRun(size, codec, ls, tid);
        StateExact(size, codec, ls, g, tid);
      } else if AlwaysForever(size, codec, ls, tid) {
        StartExact(size, codec, front, AfterSteps(size, codec, front).value, l);
      }
    }
  }

  /** At the end of a run with clear starts, what was sent under the tid is its writers' texts in turn. */
  lemma ClearEnd(size: nat, codec: Codec, ls: seq<Label>, g: World, tid: uint32)
    requires size > 0 && Workable(size, codec) && AfterSteps(size, codec, ls) == Some(g) && g.conn.Closed?
    requires ClearStarts(size, codec, ls, tid) || OneSession(g, tid)
    ensures |g.texts| == |g.writers| && SentText(From(g.order, tid)) == TextsInTurn(g.writers, g.texts, tid)
  {
    RunInv(size, codec, ls);
    if ClearStarts(size, codec, ls, tid) {
      ClearRun(size, codec, ls, tid);
    } else {
      AloneInTurn(size, codec, ls, g, tid);
    }
    TurnsText(size, codec, g, tid);
  }

  // ---- two functions on one thread ----

  const FIRST: seq<byte> := [1]
  const SECOND: seq<byte> := [2]

  /** Two functions are traced; the second is called while the first one's text is still buffered. */
  lemma TwoBegin(size: nat, codec: Codec) returns (ls: seq<Label>, g: World)
    requires size > 0
    ensures AfterSteps(size, codec, ls) == Some(g) && g.holder.Nobody? && g.order == [] && g.texts == [FIRST, SECOND]
    ensures |g.writers| == 2 && g.writers[0].tid == g.writers[1].tid == 7 && g.writers[1].sent == []
    ensures g.writers[0].session != g.writers[1].session
  {
    var l0, l1, l2 := OpensSession, Spawns(0, 7, [Write(FIRST)]), Spawns(1, 7, [Write(SECOND)]);
    assert AfterSteps(size, codec, []) == Some(START);
    var g0 := Apply(size, codec, START, l0);
    AfterOneMore(size, codec, [], START, l0);
    var g1 := Apply(size, codec, g0, l1);
    AfterOneMore(size, codec, [] + [l0], g0, l1);
    g := Apply(size, codec, g1, l2);
    AfterOneMore(size, codec, [] + [l0] + [l1], g1, l2);
    ls := [] + [l0] + [l1] + [l2];
    OneWrite(FIRST);
    OneWrite(SECOND);
  }

  lemma OneWrite(text: seq<byte>)
    ensures ScriptText([Write(text)]) == text
  {
    assert [Write(text)][1..] == [] && text + [] == text;
  }

  lemma {:induction false} FromCons(p: Packet, rest: seq<Packet>)
    ensures From([p] + rest, p.tid) == [p] + From(rest, p.tid)
    decreases |rest|
  {
    if rest == [] {
      assert [p] + rest == [] + [p];
      FromSnoc([], p, p.tid);
    } else {
      var n := |rest| - 1;
      FromCons(p, rest[..n]);
      assert [p] + rest == ([p] + rest[..n]) + [rest[n]];
      FromSnoc([p] + rest[..n], rest[n], p.tid);
      Regrouped([p], From(rest[..n], p.tid), if rest[n].tid == p.tid then [rest[n]] else []);
    }
  }

  /** What is received under a tid begins with the text of the tid's first packet. */
  lemma FromBegins(order: seq<Packet>, p: Packet)
    requires order != [] && order[0] == p
    ensures SentText(From(order, p.tid)) == p.text + SentText(From(order[1..], p.tid))
  {
    assert order == [p] + order[1..];
    FromCons(p, order[1..]);
    SentTextAppend([p], From(order[1..], p.tid));
    SentSnoc([], p);
    assert [] + [p] == [p] && [] + p.text == p.text;
  }

  /** A writer's one packet is the beginning of its text. */
  lemma OnePacket(size: nat, codec: Codec, g: World, j: nat, p: Packet)
    requires Inv(size, codec, g) && j < |g.writers| && g.writers[j].sent == [p]
    ensures IsPrefix(p.text, g.texts[j])
  {
    assert WriterOk(size, codec, g, j);
    SentSnoc([], p);
    assert [] + [p] == [p] && [] + p.text == p.text;
  }

  lemma TwoTexts(writers: seq<Writer>, texts: seq<seq<byte>>)
    requires |writers| == |texts| == 2 && writers[0].tid == writers[1].tid == 7
    ensures TextsInTurn(writers, texts, 7) == texts[0] + texts[1]
  {
    assert writers[..1][..0] == [] && texts[..1][..0] == [];
    assert TextsInTurn(writers[..1], texts[..1], 7) == [] + texts[0] == texts[0];
  }

  /** A run in which everything goes as it should, and yet the receiver has the second text before the first. */
  lemma TwoMix(size: nat, codec: Codec) returns (ls: seq<Label>, g: World)
    requires size > 0 && Workable(size, codec)
    ensures AfterSteps(size, codec, ls) == Some(g) && g.conn.Closed? && g.texts == [FIRST, SECOND]
    ensures |g.writers| == 2 && g.writers[0].tid == g.writers[1].tid == 7 && !OneSession(g, 7)
    ensures TextsInTurn(g.writers, g.texts, 7) == FIRST + SECOND
    ensures SentText(From(g.order, 7)) != FIRST + SECOND
  {
    var ls0, g0 := TwoBegin(size, codec);
    var first, u, p := DrivesOut(size, codec, ls0, g0, 1, WorldMeasure(g0));
    var rest;
    rest, g := EndFollows(size, codec, ls0 + first, u);
    ls := ls0 + first + rest;
    RunInv(size, codec, ls0 + first);
    OnePacket(size, codec, u, 1, p);
    OnlyPacket(size, codec, u, p);
    BeginsWith(g.order, u.order, p);
    SecondFirst(g.order, p);
    TwoTexts(g.writers, g.texts);
  }

  lemma OnlyPacket(size: nat, codec: Codec, g: World, p: Packet)
    requires Inv(size, codec, g) && g.order == [] + [p] && g.owners == [] + [1] && |g.writers| == 2
             && g.writers[1].tid == 7
    ensures p.tid == 7
  {
    assert PacketOk(codec, g.writers, g.order[0], g.owners[0]);
  }

  lemma SecondFirst(order: seq<Packet>, p: Packet)
    requires order != [] && order[0] == p && p.tid == 7 && p.text != [] && IsPrefix(p.text, SECOND)
    ensures SentText(From(order, 7)) != FIRST + SECOND
  {
    FromBegins(order, p);
    assert p.text[0] == SECOND[..|p.text|][0] == 2;
    assert SentText(From(order, 7))[0] == 2 && (FIRST + SECOND)[0] == 1;
  }

  lemma BeginsWith(order: seq<Packet>, front: seq<Packet>, p: Packet)
    requires |front| <= |order| && order[..|front|] == front && front == [] + [p]
    ensures order[0] == p
  {
    assert order[0] == front[0];
  }
}
