/**
 The connection as the object it is in connection.cpp: its fields, its methods and their loops.  Each method is
 proved to change the connection exactly as the state machine of `RequestLifecycle` says, so the theorems
 about runs hold of it.
 */
module ConnectionObject {
  import opened RequestLifecycle

  /** The loop of `on_write`: a round for every handler of the `i`-th pending write. */
  function WriteRounds(c: Conn, i: nat, ok: bool): (d: Conn)
    requires i < |c.pendingWrites|
    ensures |d.pendingWrites| == |c.pendingWrites| && d.pendingWrites[i].handlers == []
    decreases |c.pendingWrites[i].handlers|
  {
    if c.pendingWrites[i].handlers == [] then c else WriteRounds(WriteRound(c, i, ok), i, ok)
  }

  /** `on_write` as a whole. */
  function OnWriteAll(c: Conn, cfg: Config, i: nat, ok: bool): Conn
    requires i < |c.pendingWrites|
  {
    WriteEnd(WriteRounds(c, i, ok), cfg, i)
  }

  /** The events that make up one call of `on_write`. */
  function WriteEvents(n: nat, i: nat, ok: bool): seq<Event> {
    if n == 0 then [EvWriteEnd(i)] else [EvWriteRound(i, ok)] + WriteEvents(n - 1, i, ok)
  }

  /** One call of `on_write` is a run of the state machine. */
  lemma {:induction false} OnWriteIsRun(c: Conn, cfg: Config, i: nat, ok: bool)
    requires !c.closed && c.state != CNew && i < |c.pendingWrites| && c.pendingWrites[i].progress.Sent?
    ensures
      var evs := WriteEvents(|c.pendingWrites[i].handlers|, i, ok);
      ValidRun(c, cfg, evs) && Run(c, cfg, evs) == OnWriteAll(c, cfg, i, ok)
    decreases |c.pendingWrites[i].handlers|
  {
    hide WriteRound, WriteEnd;
    var n := |c.pendingWrites[i].handlers|;
    if n == 0 {
      RunCons(c, cfg, EvWriteEnd(i), []);
      assert [EvWriteEnd(i)] + [] == [EvWriteEnd(i)];
    } else {
      var d := WriteRound(c, i, ok);
      RequestLifecycle.WriteRoundStaysOpen(c, i, ok);
      OnWriteIsRun(d, cfg, i, ok);
      RunCons(c, cfg, EvWriteRound(i, ok), WriteEvents(n - 1, i, ok));
    }
  }

  lemma WrittenKeepsWrites(c: Conn, h: HandlerId, ok: bool)
    ensures Written(c, h, ok).pendingWrites == c.pendingWrites
  {
  }

  /** So one call of `on_write` keeps the invariant. */
  lemma OnWriteKeepsInv(c: Conn, cfg: Config, i: nat, ok: bool)
    requires Inv(c, cfg) && !c.closed && c.state != CNew && i < |c.pendingWrites| && c.pendingWrites[i].progress.Sent?
    ensures Inv(OnWriteAll(c, cfg, i, ok), cfg)
  {
    var evs := WriteEvents(|c.pendingWrites[i].handlers|, i, ok);
    OnWriteIsRun(c, cfg, i, ok);
    RunKeepsInv(c, cfg, evs);
    NoCloseStaysOpen(c, cfg, |c.pendingWrites[i].handlers|, i, ok);
  }

  lemma {:induction false} NoCloseStaysOpen(c: Conn, cfg: Config, n: nat, i: nat, ok: bool)
    requires !c.closed && ValidRun(c, cfg, WriteEvents(n, i, ok))
    ensures !Run(c, cfg, WriteEvents(n, i, ok)).closed
    decreases n
  {
    var evs := WriteEvents(n, i, ok);
    StepStaysOpen(c, cfg, evs[0]);
    if n > 0 {
      assert evs[1..] == WriteEvents(n - 1, i, ok);
      NoCloseStaysOpen(Step(c, cfg, evs[0]), cfg, n - 1, i, ok);
    }
  }

  lemma {:induction false} CleanupAppend(hs: Handlers, p: seq<HandlerId>, q: seq<HandlerId>)
    ensures Cleanup(hs, p + q) == Cleanup(Cleanup(hs, p), q)
    decreases |p|
  {
    if p == [] {
      assert p + q == q;
    } else {
      assert (p + q)[1..] == p[1..] + q;
      CleanupAppend(hs[p[0] := Cleaned(Find(hs, p[0]))], p[1..], q);
    }
  }

  lemma FailKeepsLists(c: Conn, stream: int)
    ensures
      var d := Release(c.NotifyError(), stream);
      d.pendingReads == c.pendingReads && d.handlers == c.handlers
  {
    hide Conn.NotifyError;
    NotifyErrorParts(c);
  }

  class Connection {
    const config: Config
    var state: ConnState
    var pendingWrites: seq<PendingWrite>
    var pendingReads: seq<HandlerId>
    var streams: map<int, HandlerId>
    var handlers: map<HandlerId, Handler>
    var pendingWritesSize: int
    var started: bool
    ghost var balance: int
    var asserted: bool
    var closed: bool

    /** The connection's value in the state machine. */
    ghost function Value(): Conn
      reads this
    {
      Conn(state, pendingWrites, pendingReads, streams, handlers, pendingWritesSize, started, balance, asserted, closed)
    }

    constructor (config: Config)
      ensures Value() == Init && this.config == config
    {
      this.config := config;
      state, pendingWrites, pendingReads, streams, handlers := CNew, [], [], map[], map[];
      pendingWritesSize, started, balance, asserted, closed := 0, false, 0, false, false;
    }

    method SetState(next: ConnState)
      modifies this
      ensures Value() == old(Value()).SetState(next)
    {
      if next == state { return; }
      var oldState := state;
      if !MayFollow(state, next) { asserted := true; }
      if state != Close && state != CloseDefunct {
        state := next;
      }
      if next == Ready || oldState == Ready {
        OnAvailabilityChange();
      }
    }

    /** The listener asks whether the connection is ready. */
    ghost method OnAvailabilityChange()
      modifies this`balance
      ensures balance == old(balance) + if state == Ready then 1 else -1
    {
      balance := balance + if state == Ready then 1 else -1;
    }

    method NotifyReady()
      modifies this
      ensures Value() == old(Value()).(started := true).SetState(Ready)
    {
      started := true;
      SetState(Ready);
    }

    method InternalClose(closeState: ConnState)
      modifies this
      ensures Value() == old(Value()).InternalClose(closeState)
    {
      if state != Close && state != CloseDefunct {
        SetState(closeState);
      }
    }

    method FlushWrites()
      modifies this
      ensures Value() == Flush(old(Value()))
    {
      if pendingWrites == [] { return; }
      var back := pendingWrites[|pendingWrites| - 1];
      if back.progress.Open? && back.handlers != [] {
        pendingWrites := pendingWrites[|pendingWrites| - 1 := back.(progress := Handed(state))];
      }
    }

    /** Counts the bytes of a new request against the high water mark. */
    method GrowPending(encoded: nat)
      modifies this
      ensures Value() == Grow(old(Value()), config, encoded)
    {
      pendingWritesSize := pendingWritesSize + encoded;
      if pendingWritesSize > config.high {
        SetState(Overwhelmed);
      }
    }

    /** Queues an encoded request on the last pending write and starts its timer. */
    method QueueRequest(h: HandlerId, stream: int, encoded: nat)
      requires pendingWrites != []
      modifies this
      ensures Value() == Accept(old(Value()), config, h, stream, encoded)
    {
      GrowPending(encoded);
      pendingWrites := Queued(pendingWrites, h, encoded);
      streams := streams[stream := h];
      handlers := handlers[h := Acquired(stream).SetState(Writing).(timer := true)];
    }

    method RejectRequest(h: HandlerId, stream: int)
      modifies this`handlers
      ensures Value() == Reject(old(Value()), h, stream)
    {
      handlers := handlers[h := Acquired(stream).OnError().DropRef()];
    }

    /** `internal_write`, with the stream it acquired, if there is a free one, and the result of encoding the
        request. */
    method InternalWrite(h: HandlerId, stream: int, encoded: int, flushImmediately: bool) returns (ok: bool)
      requires stream >= 0 ==> h !in handlers && stream !in streams
      modifies this
      ensures ok <==> stream >= 0
      ensures Value() == if ok then Write(old(Value()), config, h, stream, encoded, flushImmediately) else old(Value())
    {
      if stream < 0 { return false; }
      pendingWrites := Opened(pendingWrites);
      if encoded < 0 {
        RejectRequest(h, stream);
      } else {
        QueueRequest(h, stream, encoded);
        if flushImmediately {
          FlushWrites();
        }
      }
      return true;
    }

    /** `consume` of one complete frame. */
    method Consume(stream: int, m: Message)
      modifies this
      ensures Value() == Response(old(Value()), stream, m)
    {
      if stream < 0 {
        if !m.EventMessage? {
          InternalClose(CloseDefunct);
        }
        return;
      }
      if stream !in streams {
        InternalClose(CloseDefunct);
        return;
      }
      var h := streams[stream];
      var r := Find(handlers, h);
      streams := streams - {stream};
      match r.state {
        case Reading =>
          pendingReads := Remove(pendingReads, h);
          r := r.StopTimer().SetState(Done).OnSet(m).DropRef();
        case Writing =>
          r := r.SetState(ReadBeforeWrite).OnSet(m);
        case Timeout =>
          pendingReads := Remove(pendingReads, h);
          r := r.SetState(Done).DropRef();
        case TimeoutWriteOutstanding =>
          r := r.SetState(ReadBeforeWrite);
        case _ =>
          r := r.(asserted := true);
      }
      handlers := handlers[h := r];
    }

    /** `on_timeout`. */
    method OnTimeout(h: HandlerId)
      modifies this
      ensures Value() == TimerFires(old(Value()), h)
    {
      handlers := handlers[h := Find(handlers, h).StopTimer().SetState(Timeout).OnTimeout()];
    }

    /** A failed write closes the connection and gives the stream back. */
    method WriteFailed(stream: int)
      modifies this
      ensures Value() == Release(old(Value()).NotifyError(), stream)
    {
      InternalClose(CloseDefunct);
      if stream !in streams { asserted := true; }
      streams := streams - {stream};
    }

    /** What `on_write` does with one handler. */
    method OnWritten(h: HandlerId, ok: bool)
      modifies this
      ensures Value() == Written(old(Value()), h, ok)
    {
      hide Conn.NotifyError, Release;
      var r := Find(handlers, h);
      match r.state {
        case Writing =>
          if ok {
            r := r.SetState(Reading);
            pendingReads := pendingReads + [h];
          } else {
            WriteFailed(r.stream);
            FailKeepsLists(old(Value()), r.stream);
            r := r.StopTimer().SetState(Done).OnError().DropRef();
          }
        case TimeoutWriteOutstanding =>
          r := r.SetState(Timeout);
          pendingReads := pendingReads + [h];
        case ReadBeforeWrite =>
          r := r.StopTimer().SetState(Done).DropRef();
        case RetryWriteOutstanding =>
          r := r.StopTimer().SetState(New).DropRef();
        case _ =>
          r := r.(asserted := true);
      }
      handlers := handlers[h := r];
    }

    /** Takes the bytes of a finished write off the counter and checks the low water mark. */
    method ShrinkPending(written: nat)
      modifies this
      ensures Value() == Shrink(old(Value()), config, written)
    {
      pendingWritesSize := pendingWritesSize - written;
      if pendingWritesSize < config.low && state == Overwhelmed {
        SetState(Ready);
      }
    }

    /** The loop of `on_write`. */
    method WriteHandlers(i: nat, ok: bool)
      requires i < |pendingWrites|
      modifies this
      ensures Value() == WriteRounds(old(Value()), i, ok)
    {
      while pendingWrites[i].handlers != []
        invariant i < |pendingWrites|
        invariant WriteRounds(Value(), i, ok) == WriteRounds(old(Value()), i, ok)
        decreases |pendingWrites[i].handlers|
      {
        ghost var before := Value();
        var h := pendingWrites[i].handlers[0];
        pendingWrites := Popped(pendingWrites, i);
        WrittenKeepsWrites(Value(), h, ok);
        OnWritten(h, ok);
        assert Value() == WriteRound(before, i, ok);
      }
    }

    /** `on_write` for the `i`-th pending write. */
    method OnWrite(i: nat, ok: bool)
      requires i < |pendingWrites|
      modifies this
      ensures Value() == OnWriteAll(old(Value()), config, i, ok)
    {
      WriteHandlers(i, ok);
      ShrinkPending(pendingWrites[i].size);
      pendingWrites := RemoveAt(pendingWrites, i);
      FlushWrites();
    }

    /** `cleanup_pending_handlers`. */
    method CleanupHandlers(hs: seq<HandlerId>)
      modifies this`handlers
      ensures handlers == Cleanup(old(handlers), hs)
    {
      var pending := hs;
      while pending != []
        invariant Cleanup(handlers, pending) == Cleanup(old(handlers), hs)
        decreases |pending|
      {
        var h := pending[0];
        pending := pending[1..];
        var r := Find(handlers, h);
        if r.state == Writing || r.state == Reading {
          r := r.OnTimeout().StopTimer();
        }
        handlers := handlers[h := r.DropRef()];
      }
    }

    /** `on_close`. */
    method OnClosed()
      modifies this
      ensures Value() == OnClose(old(Value()))
    {
      CleanupHandlers(pendingReads);
      pendingReads := [];
      ghost var cleaned := handlers;
      while pendingWrites != []
        invariant Cleanup(handlers, Flat(pendingWrites)) == Cleanup(cleaned, Flat(old(pendingWrites)))
        invariant Value() == old(Value()).(handlers := handlers, pendingWrites := pendingWrites, pendingReads := [])
        decreases |pendingWrites|
      {
        var front := pendingWrites[0];
        pendingWrites := pendingWrites[1..];
        CleanupAppend(handlers, front.handlers, Flat(pendingWrites));
        CleanupHandlers(front.handlers);
      }
      closed := true;
    }
  }
}
