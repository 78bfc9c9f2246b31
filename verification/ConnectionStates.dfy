/**
 The state of a connection, its queue of writes and the byte counter (connection.cpp), by what each callback makes of
 them.
 */
module ConnectionStates {
  import opened RequestLifecycle

  // ---------- Causes ----------

  /** What makes a connection close: the user, bytes or a frame that it has no use for, or an error of a write whose
      request waits for it. */
  predicate Closes(c: Conn, ev: Event) {
    match ev
    case EvClose(_) => true
    case EvBadInput => true
    case EvResponse(stream, m) => if stream < 0 then m != EventMessage else stream !in c.streams
    case EvWriteRound(i, ok) =>
      && !ok && i < |c.pendingWrites| && c.pendingWrites[i].handlers != []
      && c.At(c.pendingWrites[i].handlers[0]).state == Writing
    case _ => false
  }

  /** The bytes that an event adds to the queue, and those that it takes from it. */
  function Added(ev: Event): nat { if ev.EvWrite? && ev.encoded >= 0 then ev.encoded else 0 }

  function Taken(c: Conn, ev: Event): nat {
    if ev.EvWriteEnd? && ev.e < |c.pendingWrites| then c.pendingWrites[ev.e].size else 0
  }

  /** A write after which more than the high mark is queued. */
  predicate Exceeds(c: Conn, cfg: Config, ev: Event) {
    ev.EvWrite? && ev.encoded >= 0 && c.pendingSize + ev.encoded > cfg.high
  }

  /** A completed write after which less than the low mark is queued. */
  predicate Relieves(c: Conn, cfg: Config, ev: Event) { ev.EvWriteEnd? && c.pendingSize - Taken(c, ev) < cfg.low }

  // ---------- One step ----------

  /** What a step makes of the state, the counter and the completed start-up. */
  predicate Moves(c: Conn, cfg: Config, ev: Event, d: Conn) {
    && (d.IsClosing() <==> c.IsClosing() || Closes(c, ev))
    && (c.IsClosing() ==> d.state == c.state)
    && (d.state == Close && !c.IsClosing() ==> ev == EvClose(false))
    && (ev == EvClose(false) && !c.IsClosing() ==> d.state == Close)
    && (d.state == Overwhelmed <==>
        && !d.IsClosing()
        && (Exceeds(c, cfg, ev) || (c.state == Overwhelmed && !ev.EvNotifyReady? && !Relieves(c, cfg, ev))))
    && (d.state == Ready <==>
        && !d.IsClosing()
        && (|| ev.EvNotifyReady?
            || (c.state == Overwhelmed && Relieves(c, cfg, ev))
            || (c.state == Ready && !Exceeds(c, cfg, ev))))
    && d.pendingSize == c.pendingSize + Added(ev) - Taken(c, ev)
    && (d.started <==> c.started || ev.EvNotifyReady?)
  }

  lemma StateMoves(c: Conn, cfg: Config, ev: Event, failed: bool)
    requires Enabled(c, cfg, ev) && (ev.EvWriteRound? ==> (failed <==> Closes(c, ev)))
    ensures Moves(c, cfg, ev, StateStep(c, cfg, ev, failed))
  {
    if ev.EvWrite? || ev.EvWriteEnd? {
      BytesMove(c, cfg, ev, failed);
    } else {
      hide Grow, Shrink;
    }
  }

  lemma BytesMove(c: Conn, cfg: Config, ev: Event, failed: bool)
    requires Enabled(c, cfg, ev) && (ev.EvWrite? || ev.EvWriteEnd?)
    ensures Moves(c, cfg, ev, StateStep(c, cfg, ev, failed))
  {
    if ev.EvWrite? && ev.encoded >= 0 {
      hide Grow;
      GrowParts(c, cfg, ev.encoded);
    }
  }

  /** The write callback closes the connection exactly if it brings an error while its request waits for it. */
  lemma RoundFails(c: Conn, cfg: Config, i: nat, ok: bool)
    requires Inv(c, cfg) && i < |c.pendingWrites| && c.pendingWrites[i].handlers != []
    ensures SameState(if Closes(c, EvWriteRound(i, ok)) then c.NotifyError() else c, WriteRound(c, i, ok))
  {
    hide Inv, WriteRound, AfterWrite, Conn.NotifyError;
    WriteRoundParts(c, cfg, i, ok);
    NotifyErrorParts(c);
  }

  lemma SameMoves(c: Conn, cfg: Config, ev: Event, d: Conn, e: Conn)
    requires Moves(c, cfg, ev, d) && SameState(d, e)
    ensures Moves(c, cfg, ev, e)
  {
  }

  /** Every callback: READY, OVERWHELMED and closing are entered and left exactly for these reasons, and the counter
      changes by the bytes of the write that is queued or complete. */
  lemma StepMoves(c: Conn, cfg: Config, ev: Event)
    requires Inv(c, cfg) && Enabled(c, cfg, ev)
    ensures Moves(c, cfg, ev, Step(c, cfg, ev))
  {
    hide Inv, Step, StateStep, Moves, Closes, SameState;
    if ev.EvWriteRound? {
      RoundMoves(c, cfg, ev);
    } else {
      var failed := StepState(c, cfg, ev);
      StateMoves(c, cfg, ev, failed);
      SameMoves(c, cfg, ev, StateStep(c, cfg, ev, failed), Step(c, cfg, ev));
    }
  }

  lemma RoundMoves(c: Conn, cfg: Config, ev: Event)
    requires Inv(c, cfg) && Enabled(c, cfg, ev) && ev.EvWriteRound?
    ensures Moves(c, cfg, ev, Step(c, cfg, ev))
  {
    hide Inv, WriteRound, Moves, Closes, SameState, Conn.NotifyError;
    RoundFails(c, cfg, ev.i, ev.ok);
    StateMoves(c, cfg, ev, Closes(c, ev));
    SameMoves(c, cfg, ev, StateStep(c, cfg, ev, Closes(c, ev)), Step(c, cfg, ev));
  }

  // ---------- The queue of writes ----------

  /** A request that is written joins the queue of handlers behind all others. */
  lemma JoinsQueue(c: Conn, cfg: Config, h: HandlerId, stream: int, encoded: nat, flush: bool)
    ensures
      var d := Write(c, cfg, h, stream, encoded, flush);
      Flat(d.pendingWrites) == Flat(c.pendingWrites) + [h]
  {
    hide Accept, Flush;
    AcceptParts(c.(pendingWrites := Opened(c.pendingWrites)), cfg, h, stream, encoded);
    OpenedFlat(c.pendingWrites);
    QueuedFlat(Opened(c.pendingWrites), h, encoded);
    FlushFlat(Enqueue(c, cfg, h, stream, encoded));
  }

  lemma {:induction false} FlatAppend(a: seq<PendingWrite>, b: seq<PendingWrite>)
    ensures Flat(a + b) == Flat(a) + Flat(b)
  {
    if a == [] {
      assert a + b == b;
    } else {
      assert (a + b)[1..] == a[1..] + b;
      FlatAppend(a[1..], b);
      assert a[0].handlers + (Flat(a[1..]) + Flat(b)) == (a[0].handlers + Flat(a[1..])) + Flat(b);
    }
  }

  lemma FlatOne(w: PendingWrite)
    ensures Flat([w]) == w.handlers
  {
    assert Flat([]) == [];
  }

  lemma FlatLast(ws: seq<PendingWrite>)
    requires ws != []
    ensures Flat(ws) == Flat(ws[..|ws| - 1]) + Last(ws).handlers
  {
    hide Flat;
    assert ws == ws[..|ws| - 1] + [Last(ws)];
    FlatAppend(ws[..|ws| - 1], [Last(ws)]);
    FlatOne(Last(ws));
  }

  lemma OpenedFlat(ws: seq<PendingWrite>)
    ensures Flat(Opened(ws)) == Flat(ws)
  {
    if Opened(ws) != ws {
      FlatAppend(ws, [PendingWrite([], 0, Open)]);
      FlatOne(PendingWrite([], 0, Open));
    }
  }

  lemma QueuedFlat(ws: seq<PendingWrite>, h: HandlerId, encoded: nat)
    requires ws != []
    ensures Flat(Queued(ws, h, encoded)) == Flat(ws) + [h]
  {
    var now := Queued(ws, h, encoded);
    FlatLast(ws);
    FlatLast(now);
    assert now[..|now| - 1] == ws[..|ws| - 1];
    assert Flat(now) == Flat(ws[..|ws| - 1]) + (Last(ws).handlers + [h]);
  }

  lemma FlushFlat(c: Conn)
    ensures Flat(Flush(c).pendingWrites) == Flat(c.pendingWrites)
  {
    var now := Flush(c).pendingWrites;
    if now != c.pendingWrites {
      FlatLast(c.pendingWrites);
      FlatLast(now);
      assert now[..|now| - 1] == c.pendingWrites[..|now| - 1];
    }
  }

  /** A flush leaves nothing waiting for one, and what it hands over is taken unless the connection is closing. */
  lemma FlushSends(c: Conn, cfg: Config, i: nat)
    requires Inv(c, cfg) && i < |c.pendingWrites|
    ensures
      var d, w := Flush(c), c.pendingWrites[i];
      && |d.pendingWrites| == |c.pendingWrites|
      && d.pendingWrites[i] ==
           if w.progress != Open || w.handlers == [] then w
           else w.(progress := if c.IsClosing() then Refused else Sent)
  {
  }

  /** Behind a completed write, and behind a write with a flush, no request waits for a flush. */
  lemma NothingWaits(c: Conn, cfg: Config, ev: Event, i: nat)
    requires Inv(c, cfg) && Enabled(c, cfg, ev)
    requires ev.EvFlush? || ev.EvWriteEnd? || (ev.EvWrite? && ev.flush && ev.encoded >= 0)
    requires i < |Step(c, cfg, ev).pendingWrites|
    ensures
      var w := Step(c, cfg, ev).pendingWrites[i];
      w.handlers != [] ==> w.progress != Open
  {
    hide Inv, Enqueue, Flush, Shrink;
    var before :=
      if ev.EvFlush? then c
      else if ev.EvWriteEnd? then
        Shrink(c, cfg, c.pendingWrites[ev.e].size).(pendingWrites := RemoveAt(c.pendingWrites, ev.e))
      else Enqueue(c, cfg, ev.h, ev.stream, ev.encoded);
    assert Step(c, cfg, ev) == Flush(before);
    LastOpen(c, cfg, ev, before);
    FlushEmpties(before, i);
  }

  lemma FlushEmpties(c: Conn, i: nat)
    requires forall k :: 0 <= k < |c.pendingWrites| - 1 ==> !c.pendingWrites[k].progress.Open?
    requires i < |Flush(c).pendingWrites|
    ensures Flush(c).pendingWrites[i].handlers != [] ==> Flush(c).pendingWrites[i].progress != Open
  {
  }

  lemma LastOpen(c: Conn, cfg: Config, ev: Event, before: Conn)
    requires Inv(c, cfg) && Enabled(c, cfg, ev)
    requires before == c
      || (ev.EvWriteEnd? &&
          before == Shrink(c, cfg, c.pendingWrites[ev.e].size).(pendingWrites := RemoveAt(c.pendingWrites, ev.e)))
      || (ev.EvWrite? && before == Enqueue(c, cfg, ev.h, ev.stream, ev.encoded))
    ensures forall k :: 0 <= k < |before.pendingWrites| - 1 ==> !before.pendingWrites[k].progress.Open?
  {
    hide ListsInv, StreamsInv, Shrink;
    if ev.EvWrite? { EnqueueKeepsInv(c, cfg, ev.h, ev.stream, ev.encoded); }
  }

  // ---------- Whole runs ----------

  /** In every run: a connection is closing exactly if there was a cause to close. */
  lemma ClosesExactlyForCause(cfg: Config, evs: seq<Event>)
    requires ValidRun(Init, cfg, evs)
    ensures Run(Init, cfg, evs).IsClosing() <==> Occurs(Init, cfg, evs, (c: Conn, ev: Event) => Closes(c, ev))
  {
    InitInv(cfg);
    RunCloses(Init, cfg, evs);
  }

  lemma {:induction false} RunCloses(c: Conn, cfg: Config, evs: seq<Event>)
    requires Inv(c, cfg) && !c.closed && ValidRun(c, cfg, evs)
    ensures Run(c, cfg, evs).IsClosing() <==>
            c.IsClosing() || Occurs(c, cfg, evs, (b: Conn, ev: Event) => Closes(b, ev))
    decreases |evs|
  {
    hide Inv, Step, Enabled, Closes;
    if evs != [] {
      StepMoves(c, cfg, evs[0]);
      if evs[0].EvClosed? {
        ClosedIsLast(c, cfg, evs);
        assert evs[1..] == [];
      } else {
        StepKeepsInv(c, cfg, evs[0]);
        StepStaysOpen(c, cfg, evs[0]);
        RunCloses(Step(c, cfg, evs[0]), cfg, evs[1..]);
      }
    }
  }
}
