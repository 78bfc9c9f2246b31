/**
 Requests that a connection forgets when it closes (connection.cpp, handler.cpp, prepare_handler.cpp): those that wait
 for their write callback to be retried, and those that wait for a prepare handler to reset them.
 */
module PendingRetries {
  import opened RequestLifecycle

  predicate AwaitsRetry(hs: Handlers, h: HandlerId) { h in hs && hs[h].state == RetryWriteOutstanding }

  predicate AwaitsReset(hs: Handlers, h: HandlerId) { h in hs && hs[h].preparing }

  /** The socket has taken a write with `h`, and its callback is still to come. */
  ghost predicate SentIn(ws: seq<PendingWrite>, h: HandlerId) {
    exists i :: 0 <= i < |ws| && ws[i].progress.Sent? && h in ws[i].handlers
  }

  /** A frame answers `h` on its stream. */
  predicate Answers(c: Conn, ev: Event, h: HandlerId) {
    ev.EvResponse? && ev.rstream >= 0 && ev.rstream in c.streams && c.streams[ev.rstream] == h
  }

  /** The answer comes before the write callback, and the request decides to be retried after it. */
  predicate DecidesRetry(c: Conn, ev: Event, h: HandlerId) {
    Answers(c, ev, h) && ev.message.Retry? && c.At(h).state == Writing
  }

  /** The answer is that the statement is not prepared. */
  predicate Unprepares(c: Conn, ev: Event, h: HandlerId) {
    Answers(c, ev, h) && ev.message.Unprepared? && (c.At(h).state == Writing || c.At(h).state == Reading)
  }

  /** A frame answers a request that the socket has not been given. */
  ghost predicate AnswersUnsent(c: Conn, ev: Event, h: HandlerId) {
    Answers(c, ev, h) && c.At(h).state == Writing && !SentIn(c.pendingWrites, h)
  }

  /** The write callback comes to `h`. */
  predicate Completes(c: Conn, ev: Event, h: HandlerId) {
    && ev.EvWriteRound? && ev.i < |c.pendingWrites| && c.pendingWrites[ev.i].handlers != []
    && c.pendingWrites[ev.i].handlers[0] == h
  }

  // ---------- What a step does to one handler ----------

  /** The record of a handler behind a step. */
  function Turned(c: Conn, ev: Event, h: HandlerId): Handler {
    if Answers(c, ev, h) then Answered(c.At(h), ev.message)
    else if ev == EvTimer(h) then Expired(c.At(h))
    else if ev == EvReset(h) then c.At(h).Reset()
    else if Completes(c, ev, h) then AfterWrite(c.At(h), ev.ok)
    else c.At(h)
  }

  lemma WriteHandlers(c: Conn, cfg: Config, g: HandlerId, stream: int, encoded: int, flush: bool)
    ensures
      var d := Write(c, cfg, g, stream, encoded, flush);
      && d.handlers.Keys == c.handlers.Keys + {g}
      && (forall h :: h in c.handlers && h != g ==> d.handlers[h] == c.handlers[h])
      && d.handlers[g].state != RetryWriteOutstanding && !d.handlers[g].preparing
  {
    hide Accept;
    var d := c.(pendingWrites := Opened(c.pendingWrites));
    if encoded >= 0 { AcceptParts(d, cfg, g, stream, encoded); }
    FlushParts(Enqueue(c, cfg, g, stream, encoded));
  }

  lemma ResponseHandlers(c: Conn, stream: int, m: Message)
    ensures
      var d := Response(c, stream, m);
      if stream >= 0 && stream in c.streams then
        d.handlers == c.handlers[c.streams[stream] := Answered(c.At(c.streams[stream]), m)]
      else d.handlers == c.handlers
  {
    hide Answered, Conn.NotifyError;
    NotifyErrorParts(c);
  }

  lemma RoundHandlers(c: Conn, cfg: Config, i: nat, ok: bool)
    requires Inv(c, cfg) && i < |c.pendingWrites| && c.pendingWrites[i].handlers != []
    ensures
      var h := c.pendingWrites[i].handlers[0];
      h in c.handlers && WriteRound(c, i, ok).handlers == c.handlers[h := AfterWrite(c.At(h), ok)]
  {
    hide Inv, WriteRound, AfterWrite, HandlerInv;
    FirstWrittenInWriteList(c, cfg, i);
    WriteRoundParts(c, cfg, i, ok);
  }

  /** A step changes the record of a handler by what happens to it and in no other way. */
  lemma HandlerStep(c: Conn, cfg: Config, ev: Event, h: HandlerId)
    requires Inv(c, cfg) && Enabled(c, cfg, ev) && !ev.EvClosed?
    ensures
      var d := Step(c, cfg, ev);
      if h in c.handlers then h in d.handlers && d.handlers[h] == Turned(c, ev, h)
      else !AwaitsRetry(d.handlers, h) && !AwaitsReset(d.handlers, h)
  {
    hide Inv, Write, Response, WriteRound, WriteEnd, Flush, Answered, Expired, AfterWrite, Handler.Reset;
    hide Conn.SetState, Conn.InternalClose, Conn.NotifyError;
    match ev
    case EvWrite(g, stream, encoded, flush) => WriteHandlers(c, cfg, g, stream, encoded, flush);
    case EvFlush => FlushParts(c);
    case EvResponse(stream, m) => ResponseHandlers(c, stream, m); OwnersListed(c, cfg, stream);
    case EvTimer(_) =>
    case EvReset(_) =>
    case EvWriteRound(i, ok) => RoundHandlers(c, cfg, i, ok);
    case EvWriteEnd(i) => WriteEndParts(c, cfg, i);
    case EvConnect | EvConnected | EvRegister | EvNotifyReady | EvClose(_) | EvBadInput => StateOnly(c, cfg, ev);
  }

  lemma OwnersListed(c: Conn, cfg: Config, stream: int)
    requires Inv(c, cfg)
    ensures stream in c.streams ==> c.streams[stream] in c.handlers
  {
    if stream in c.streams { OwnerWaits(c, cfg, stream); }
  }

  /** What is known of a handler that a frame answers or a write callback comes to. */
  lemma HandlerIs(c: Conn, cfg: Config, ev: Event, h: HandlerId)
    requires Inv(c, cfg) && Enabled(c, cfg, ev) && h in c.handlers
    ensures HandlerInv(c.handlers[h], Listed(c.pendingWrites, h), Count(c.pendingReads, h))
    ensures Answers(c, ev, h) ==> HoldsStream(c.handlers[h].state)
    ensures Completes(c, ev, h) ==> HandlerInv(c.handlers[h], 1, 0)
  {
    hide HandlerInv;
    assert ListsInvAt(c.pendingWrites, c.pendingReads, c.handlers, h);
    if Answers(c, ev, h) { OwnerWaits(c, cfg, ev.rstream); }
    if Completes(c, ev, h) { FirstWrittenInWriteList(c, cfg, ev.i); }
  }

  lemma TurnedWaits(c: Conn, ev: Event, h: HandlerId, inWrites: nat, inReads: nat)
    requires h in c.handlers && HandlerInv(c.handlers[h], inWrites, inReads)
    requires Answers(c, ev, h) ==> HoldsStream(c.handlers[h].state)
    requires Completes(c, ev, h) ==> HandlerInv(c.handlers[h], 1, 0)
    requires ev == EvTimer(h) ==> c.handlers[h].timer
    requires ev == EvReset(h) ==> c.handlers[h].preparing
    ensures
      var s := Turned(c, ev, h);
      && (s.state == RetryWriteOutstanding <==>
          (c.handlers[h].state == RetryWriteOutstanding && !Completes(c, ev, h)) || DecidesRetry(c, ev, h))
      && (s.preparing <==> (c.handlers[h].preparing && ev != EvReset(h)) || Unprepares(c, ev, h))
  {
  }

  lemma RetryStep(c: Conn, cfg: Config, ev: Event, h: HandlerId)
    requires Inv(c, cfg) && Enabled(c, cfg, ev) && !ev.EvClosed?
    ensures
      var d := Step(c, cfg, ev);
      && (AwaitsRetry(d.handlers, h) <==>
          (AwaitsRetry(c.handlers, h) && !Completes(c, ev, h)) || DecidesRetry(c, ev, h))
      && (AwaitsReset(d.handlers, h) <==>
          (AwaitsReset(c.handlers, h) && ev != EvReset(h)) || Unprepares(c, ev, h))
  {
    hide Inv, Step, Turned, HandlerInv;
    HandlerStep(c, cfg, ev, h);
    if h in c.handlers {
      HandlerIs(c, cfg, ev, h);
      TurnedWaits(c, ev, h, Listed(c.pendingWrites, h), Count(c.pendingReads, h));
    } else if Answers(c, ev, h) {
      OwnersListed(c, cfg, ev.rstream);
    }
  }

  // ---------- Writes that have been sent ----------

  lemma FlushKeepsSent(c: Conn, h: HandlerId)
    requires SentIn(c.pendingWrites, h)
    ensures SentIn(Flush(c).pendingWrites, h)
  {
    var i :| 0 <= i < |c.pendingWrites| && c.pendingWrites[i].progress.Sent? && h in c.pendingWrites[i].handlers;
    assert Flush(c).pendingWrites[i] == c.pendingWrites[i];
  }

  lemma QueuedKeepsSent(ws: seq<PendingWrite>, g: HandlerId, encoded: nat, h: HandlerId)
    requires SentIn(ws, h)
    ensures SentIn(Opened(ws), h) && SentIn(Queued(Opened(ws), g, encoded), h)
  {
    var i :| 0 <= i < |ws| && ws[i].progress.Sent? && h in ws[i].handlers;
    assert Opened(ws)[i] == ws[i];
    var w := Queued(Opened(ws), g, encoded)[i];
    assert w.progress.Sent? && h in w.handlers;
  }

  lemma WriteKeepsSent(c: Conn, cfg: Config, g: HandlerId, stream: int, encoded: int, flush: bool, h: HandlerId)
    requires SentIn(c.pendingWrites, h)
    ensures SentIn(Write(c, cfg, g, stream, encoded, flush).pendingWrites, h)
  {
    hide SentIn, Opened, Queued, Accept, Flush;
    var d := c.(pendingWrites := Opened(c.pendingWrites));
    QueuedKeepsSent(c.pendingWrites, g, if encoded >= 0 then encoded else 0, h);
    if encoded >= 0 {
      AcceptParts(d, cfg, g, stream, encoded);
      FlushKeepsSent(Enqueue(c, cfg, g, stream, encoded), h);
    }
  }

  lemma PoppedKeepsSent(ws: seq<PendingWrite>, i: nat, h: HandlerId)
    requires SentIn(ws, h) && i < |ws| && ws[i].handlers != [] && ws[i].handlers[0] != h
    ensures SentIn(Popped(ws, i), h)
  {
    var k :| 0 <= k < |ws| && ws[k].progress.Sent? && h in ws[k].handlers;
    var j :| 0 <= j < |ws[k].handlers| && ws[k].handlers[j] == h;
    var w := Popped(ws, i)[k];
    assert k == i ==> w.handlers[j - 1] == h;
    assert w.progress.Sent? && h in w.handlers;
  }

  lemma RemovedKeepsSent(ws: seq<PendingWrite>, i: nat, h: HandlerId)
    requires SentIn(ws, h) && i < |ws| && ws[i].handlers == []
    ensures SentIn(RemoveAt(ws, i), h)
  {
    var k :| 0 <= k < |ws| && ws[k].progress.Sent? && h in ws[k].handlers;
    assert RemoveAt(ws, i)[if k < i then k else k - 1] == ws[k];
  }

  lemma EndKeepsSent(c: Conn, cfg: Config, i: nat, h: HandlerId)
    requires SentIn(c.pendingWrites, h) && i < |c.pendingWrites| && c.pendingWrites[i].handlers == []
    ensures SentIn(WriteEnd(c, cfg, i).pendingWrites, h)
  {
    hide SentIn, RemoveAt, Shrink, Flush;
    RemovedKeepsSent(c.pendingWrites, i, h);
    FlushKeepsSent(Shrink(c, cfg, c.pendingWrites[i].size).(pendingWrites := RemoveAt(c.pendingWrites, i)), h);
  }

  lemma ResponseWrites(c: Conn, stream: int, m: Message)
    ensures Response(c, stream, m).pendingWrites == c.pendingWrites
  {
    hide Answered, Conn.NotifyError;
    NotifyErrorParts(c);
  }

  lemma SentStays(c: Conn, cfg: Config, ev: Event, h: HandlerId)
    requires Enabled(c, cfg, ev) && !ev.EvClosed? && SentIn(c.pendingWrites, h) && !Completes(c, ev, h)
    ensures SentIn(Step(c, cfg, ev).pendingWrites, h)
  {
    hide SentIn, Write, Response, WriteRound, WriteEnd, Flush, TimerFires;
    match ev
    case EvWrite(g, stream, encoded, flush) => WriteKeepsSent(c, cfg, g, stream, encoded, flush, h);
    case EvFlush => FlushKeepsSent(c, h);
    case EvResponse(stream, m) => ResponseWrites(c, stream, m);
    case EvTimer(t) => TimerIs(c, t);
    case EvReset(_) =>
    case EvWriteRound(i, ok) =>
      RequestLifecycle.WriteRoundStaysOpen(c, i, ok);
      PoppedKeepsSent(c.pendingWrites, i, h);
    case EvWriteEnd(i) => EndKeepsSent(c, cfg, i, h);
    case EvConnect | EvConnected | EvRegister | EvNotifyReady | EvClose(_) | EvBadInput => StateOnly(c, cfg, ev);
  }

  /** The handler has been sent, or is past its write. */
  ghost predicate Safe(c: Conn, h: HandlerId) {
    h in c.handlers && (SentIn(c.pendingWrites, h) || !InWriteList(c.handlers[h].state))
  }

  lemma SafeStep(c: Conn, cfg: Config, ev: Event, h: HandlerId)
    requires Inv(c, cfg) && Enabled(c, cfg, ev) && !ev.EvClosed? && Safe(c, h)
    ensures Safe(Step(c, cfg, ev), h)
  {
    hide Inv, Step, SentIn;
    HandlerStep(c, cfg, ev, h);
    HandlerIs(c, cfg, ev, h);
    if SentIn(c.pendingWrites, h) && !Completes(c, ev, h) { SentStays(c, cfg, ev, h); }
  }

  lemma SentIsSafe(c: Conn, cfg: Config, h: HandlerId)
    requires Inv(c, cfg) && SentIn(c.pendingWrites, h)
    ensures Safe(c, h)
  {
    var i :| 0 <= i < |c.pendingWrites| && c.pendingWrites[i].progress.Sent? && h in c.pendingWrites[i].handlers;
    ListedExists(c.pendingWrites, h);
    assert ListsInvAt(c.pendingWrites, c.pendingReads, c.handlers, h);
  }

  // ---------- Whole runs ----------

  lemma CloseKeepsWaiting(c: Conn, cfg: Config, h: HandlerId)
    requires Inv(c, cfg)
    ensures AwaitsRetry(OnClose(c).handlers, h) <==> AwaitsRetry(c.handlers, h)
    ensures AwaitsReset(OnClose(c).handlers, h) <==> AwaitsReset(c.handlers, h)
  {
    OnCloseHandlers(c, cfg);
  }

  lemma ClosedIsUnsent(c: Conn, cfg: Config, h: HandlerId)
    requires Enabled(c, cfg, EvClosed)
    ensures !SentIn(c.pendingWrites, h)
  {
  }

  /** What has been sent is completed before the connection has closed. */
  lemma {:induction false} SafeIsNotDropped(c: Conn, cfg: Config, evs: seq<Event>, h: HandlerId)
    requires Inv(c, cfg) && !c.closed && ValidRun(c, cfg, evs) && Run(c, cfg, evs).closed && Safe(c, h)
    ensures !AwaitsRetry(Run(c, cfg, evs).handlers, h)
    decreases |evs|
  {
    hide Inv, Step, SentIn;
    if evs[0].EvClosed? {
      ClosedIsLast(c, cfg, evs);
      ClosedIsUnsent(c, cfg, h);
      CloseKeepsWaiting(c, cfg, h);
    } else {
      StepKeepsInv(c, cfg, evs[0]);
      StepStaysOpen(c, cfg, evs[0]);
      SafeStep(c, cfg, evs[0], h);
      SafeIsNotDropped(Step(c, cfg, evs[0]), cfg, evs[1..], h);
    }
  }

  lemma {:induction false} RunDrops(c: Conn, cfg: Config, evs: seq<Event>, h: HandlerId)
    requires Inv(c, cfg) && !c.closed && ValidRun(c, cfg, evs) && Run(c, cfg, evs).closed
    ensures AwaitsRetry(Run(c, cfg, evs).handlers, h) <==>
            && (AwaitsRetry(c.handlers, h) || Occurs(c, cfg, evs, (d: Conn, ev: Event) => DecidesRetry(d, ev, h)))
            && !Occurs(c, cfg, evs, (d: Conn, ev: Event) => SentIn(d.pendingWrites, h))
    decreases |evs|
  {
    hide Inv, Step, SentIn, AwaitsRetry, DecidesRetry;
    if SentIn(c.pendingWrites, h) {
      SentIsSafe(c, cfg, h);
      SafeIsNotDropped(c, cfg, evs, h);
    } else if evs[0].EvClosed? {
      ClosedIsLast(c, cfg, evs);
      CloseKeepsWaiting(c, cfg, h);
      NothingDecided(c, evs[0], h);
    } else {
      StepKeepsInv(c, cfg, evs[0]);
      StepStaysOpen(c, cfg, evs[0]);
      RetryStep(c, cfg, evs[0], h);
      CompletesSent(c, cfg, evs[0], h);
      RunDrops(Step(c, cfg, evs[0]), cfg, evs[1..], h);
    }
  }

  lemma NothingDecided(c: Conn, ev: Event, h: HandlerId)
    requires ev.EvClosed?
    ensures !DecidesRetry(c, ev, h) && !Unprepares(c, ev, h)
  {
  }

  lemma CompletesSent(c: Conn, cfg: Config, ev: Event, h: HandlerId)
    requires Enabled(c, cfg, ev)
    ensures Completes(c, ev, h) ==> SentIn(c.pendingWrites, h)
  {
    if Completes(c, ev, h) { assert h in c.pendingWrites[ev.i].handlers; }
  }

  /** Main result.  A closed connection has dropped a request that waited to be retried exactly if the request had
      decided to be retried after its write, and the socket never took that write. */
  lemma RetryDroppedIffUnsent(cfg: Config, evs: seq<Event>, h: HandlerId)
    requires ValidRun(Init, cfg, evs) && Run(Init, cfg, evs).closed
    ensures AwaitsRetry(Run(Init, cfg, evs).handlers, h) <==>
            && Occurs(Init, cfg, evs, (c: Conn, ev: Event) => DecidesRetry(c, ev, h))
            && !Occurs(Init, cfg, evs, (c: Conn, ev: Event) => SentIn(c.pendingWrites, h))
  {
    hide DecidesRetry, SentIn, Step;
    InitInv(cfg);
    RunDrops(Init, cfg, evs, h);
  }

  lemma {:induction false} DecidedOnSent(c: Conn, cfg: Config, evs: seq<Event>, h: HandlerId)
    requires ValidRun(c, cfg, evs) && Occurs(c, cfg, evs, (d: Conn, ev: Event) => DecidesRetry(d, ev, h))
    requires !Occurs(c, cfg, evs, (d: Conn, ev: Event) => AnswersUnsent(d, ev, h))
    ensures Occurs(c, cfg, evs, (d: Conn, ev: Event) => SentIn(d.pendingWrites, h))
    decreases |evs|
  {
    hide Step, SentIn;
    if !DecidesRetry(c, evs[0], h) {
      DecidedOnSent(Step(c, cfg, evs[0]), cfg, evs[1..], h);
    }
  }

  /** So nothing is dropped when frames answer only what has been sent. */
  lemma AnsweredWhenSentIsNotDropped(cfg: Config, evs: seq<Event>, h: HandlerId)
    requires ValidRun(Init, cfg, evs) && Run(Init, cfg, evs).closed
    requires !Occurs(Init, cfg, evs, (c: Conn, ev: Event) => AnswersUnsent(c, ev, h))
    ensures !AwaitsRetry(Run(Init, cfg, evs).handlers, h)
  {
    hide DecidesRetry, SentIn, AnswersUnsent, Step;
    RetryDroppedIffUnsent(cfg, evs, h);
    if Occurs(Init, cfg, evs, (c: Conn, ev: Event) => DecidesRetry(c, ev, h)) { DecidedOnSent(Init, cfg, evs, h); }
  }

  // ---------- Requests that wait for their statement ----------

  /** The handler waits for no answer any more. */
  predicate Idle(c: Conn, h: HandlerId) { h in c.handlers && !HoldsStream(c.handlers[h].state) }

  lemma IdleStep(c: Conn, cfg: Config, ev: Event, h: HandlerId)
    requires Inv(c, cfg) && Enabled(c, cfg, ev) && !ev.EvClosed? && Idle(c, h)
    ensures Idle(Step(c, cfg, ev), h) && !Unprepares(c, ev, h)
  {
    hide Inv, Step;
    HandlerStep(c, cfg, ev, h);
    HandlerIs(c, cfg, ev, h);
  }

  lemma WaitingIsIdle(c: Conn, cfg: Config, h: HandlerId)
    requires Inv(c, cfg) && AwaitsReset(c.handlers, h)
    ensures Idle(c, h)
  {
    assert ListsInvAt(c.pendingWrites, c.pendingReads, c.handlers, h);
  }

  lemma {:induction false} IdleStaysReset(c: Conn, cfg: Config, evs: seq<Event>, h: HandlerId)
    requires Inv(c, cfg) && !c.closed && ValidRun(c, cfg, evs) && Idle(c, h) && !AwaitsReset(c.handlers, h)
    ensures !AwaitsReset(Run(c, cfg, evs).handlers, h)
    decreases |evs|
  {
    hide Inv, Step, Idle, AwaitsReset, Unprepares;
    if evs != [] {
      if evs[0].EvClosed? {
        ClosedIsLast(c, cfg, evs);
        CloseKeepsWaiting(c, cfg, h);
      } else {
        StepKeepsInv(c, cfg, evs[0]);
        StepStaysOpen(c, cfg, evs[0]);
        IdleStep(c, cfg, evs[0], h);
        RetryStep(c, cfg, evs[0], h);
        IdleStaysReset(Step(c, cfg, evs[0]), cfg, evs[1..], h);
      }
    }
  }

  lemma {:induction false} RunLeaves(c: Conn, cfg: Config, evs: seq<Event>, h: HandlerId)
    requires Inv(c, cfg) && !c.closed && ValidRun(c, cfg, evs)
    ensures AwaitsReset(Run(c, cfg, evs).handlers, h) <==>
            && (AwaitsReset(c.handlers, h) || Occurs(c, cfg, evs, (d: Conn, ev: Event) => Unprepares(d, ev, h)))
            && !Occurs(c, cfg, evs, (d, ev) => ev == EvReset(h))
    decreases |evs|
  {
    hide Inv, Step, AwaitsReset, Unprepares, Idle;
    if evs != [] {
      var d := Step(c, cfg, evs[0]);
      if evs[0].EvClosed? {
        ClosedIsLast(c, cfg, evs);
        CloseKeepsWaiting(c, cfg, h);
        NothingDecided(c, evs[0], h);
      } else {
        StepKeepsInv(c, cfg, evs[0]);
        StepStaysOpen(c, cfg, evs[0]);
        RetryStep(c, cfg, evs[0], h);
        if evs[0] == EvReset(h) {
          ResetsWaiting(c, cfg, h);
          WaitingIsIdle(c, cfg, h);
          IdleStep(c, cfg, evs[0], h);
          IdleStaysReset(d, cfg, evs[1..], h);
        } else {
          RunLeaves(d, cfg, evs[1..], h);
        }
      }
    }
  }

  lemma ResetsWaiting(c: Conn, cfg: Config, h: HandlerId)
    requires Enabled(c, cfg, EvReset(h))
    ensures AwaitsReset(c.handlers, h)
  {
  }

  /** In every run a request is left waiting for its statement exactly if it was told that the statement is not
      prepared, and its prepare handler has not reset it. */
  lemma PreparationLeftIffNotReset(cfg: Config, evs: seq<Event>, h: HandlerId)
    requires ValidRun(Init, cfg, evs)
    ensures AwaitsReset(Run(Init, cfg, evs).handlers, h) <==>
            && Occurs(Init, cfg, evs, (c: Conn, ev: Event) => Unprepares(c, ev, h))
            && !Occurs(Init, cfg, evs, (c, ev) => ev == EvReset(h))
  {
    hide Unprepares, Step;
    InitInv(cfg);
    RunLeaves(Init, cfg, evs, h);
  }

  // ---------- A run that drops a request ----------

  /** The first request is written and not flushed.  The peer answers it all the same, it decides to be retried after
      its write, and the connection closes. */
  lemma UnsentRetryIsDropped(cfg: Config, size: nat) returns (evs: seq<Event>)
    requires size <= cfg.high && cfg.maxStreams > 0
    ensures ValidRun(Init, cfg, evs)
    ensures Run(Init, cfg, evs).closed && AwaitsRetry(Run(Init, cfg, evs).handlers, 0)
  {
    var c1 := FirstAnswered(cfg, size, false, Retry);
    ClosingRun(c1, cfg);
    RunCons(FirstWritten(FIRST_READY, size, false), cfg, EvResponse(0, Retry), [EvClose(false), EvClosed]);
    evs := ConnectsAndWrites(FIRST_READY, cfg, size, false, [EvResponse(0, Retry)] + [EvClose(false), EvClosed]);
  }

  lemma ClosingRun(c: Conn, cfg: Config)
    requires |c.pendingWrites| == 1 && c.pendingWrites[0].handlers == [0] && c.pendingReads == []
    requires c.pendingWrites[0].progress.Open?
    requires 0 in c.handlers && !c.closed && c.state == Ready
    ensures ValidRun(c, cfg, [EvClose(false), EvClosed])
    ensures
      var d := Run(c, cfg, [EvClose(false), EvClosed]);
      d.closed && 0 in d.handlers && d.handlers[0].state == c.handlers[0].state
  {
    hide OnClose;
    var c1 := c.(state := Close);
    assert Step(c, cfg, EvClose(false)).state == Close;
    assert Step(c, cfg, EvClose(false)).handlers == c.handlers;
    DropsOnly(Step(c, cfg, EvClose(false)));
    RunCons(Step(c, cfg, EvClose(false)), cfg, EvClosed, []);
    assert [EvClosed] + [] == [EvClosed];
    RunCons(c, cfg, EvClose(false), [EvClosed]);
    assert [EvClose(false)] + [EvClosed] == [EvClose(false), EvClosed];
  }

  lemma DropsOnly(c: Conn)
    requires |c.pendingWrites| == 1 && c.pendingWrites[0].handlers == [0] && c.pendingReads == []
    requires 0 in c.handlers
    ensures OnClose(c).closed && OnClose(c).handlers == c.handlers[0 := Cleaned(c.handlers[0])]
  {
    assert Flat(c.pendingWrites) == [0] + Flat([]) == [0];
    assert Cleanup(c.handlers, []) == c.handlers;
    assert Cleanup(c.handlers, [0]) == Cleanup(c.handlers[0 := Cleaned(c.handlers[0])], [0][1..]);
  }
}
