/**
 Which callback a request gets and why, and what every callback of a connection makes of a request (connection.cpp,
 handler.cpp, request_handler.cpp), in terms of the events and the states in which they come.
 */
module RequestCallbacks {
  import opened RequestLifecycle
  import opened PendingRetries

  // ---------- One step and one handler ----------

  /** What becomes of the record of a handler that a frame answers. */
  predicate AnswerMakes(r: Handler, m: Message, r': Handler) {
    match r.state
    case Reading =>
      r' == r.(state := if m.Retry? then New else Done, timer := false, refs := 0, sets := 1,
               preparing := m.Unprepared?)
    case Writing =>
      r' == r.(state := if m.Retry? then RetryWriteOutstanding else ReadBeforeWrite, timer := false, sets := 1,
               preparing := m.Unprepared?)
    case Timeout => r' == r.(state := Done, refs := 0)
    case TimeoutWriteOutstanding => r' == r.(state := ReadBeforeWrite)
    case _ => false
  }

  /** What becomes of one whose write callback comes.  Behind a failed assertion nothing happens. */
  predicate WriteMakes(r: Handler, ok: bool, r': Handler) {
    match r.state
    case Writing =>
      if ok then r' == r.(state := Reading) else r' == r.(state := Done, timer := false, refs := 0, errors := 1)
    case TimeoutWriteOutstanding => r' == r.(state := Timeout)
    case ReadBeforeWrite => r' == r.(state := Done, refs := 0)
    case RetryWriteOutstanding => r' == r.(state := New, refs := 0)
    case _ => r.asserted && r' == r
  }

  /** What becomes of one whose timer fires. */
  predicate TimerMakes(r: Handler, r': Handler) {
    match r.state
    case Reading => r' == r.(state := Timeout, timer := false, timeouts := 1)
    case Writing => r' == r.(state := TimeoutWriteOutstanding, timer := false, timeouts := 1)
    case _ => false
  }

  /** What becomes of one that its prepare handler resets. */
  predicate ResetMakes(r: Handler, r': Handler) {
    match r.state
    case Done => r' == r.(state := New, preparing := false)
    case ReadBeforeWrite => r' == r.(state := New, preparing := false, asserted := true)
    case _ => false
  }

  lemma TurnedMakes(c: Conn, ev: Event, h: HandlerId, inWrites: nat, inReads: nat)
    requires h in c.handlers && HandlerInv(c.handlers[h], inWrites, inReads)
    requires Answers(c, ev, h) ==> HoldsStream(c.handlers[h].state)
    requires Completes(c, ev, h) ==> HandlerInv(c.handlers[h], 1, 0)
    requires ev == EvTimer(h) ==> c.handlers[h].timer
    requires ev == EvReset(h) ==> c.handlers[h].preparing
    ensures
      var r, r' := c.handlers[h], Turned(c, ev, h);
      if Answers(c, ev, h) then AnswerMakes(r, ev.message, r')
      else if ev == EvTimer(h) then TimerMakes(r, r')
      else if ev == EvReset(h) then ResetMakes(r, r')
      else if Completes(c, ev, h) then WriteMakes(r, ev.ok, r')
      else r' == r
  {
  }

  /** Every callback of a connection but the last, and every handler: what becomes of its record. */
  lemma HandlerTable(c: Conn, cfg: Config, ev: Event, h: HandlerId)
    requires Inv(c, cfg) && Enabled(c, cfg, ev) && !ev.EvClosed? && h in c.handlers
    ensures h in Step(c, cfg, ev).handlers
    ensures
      var r, r' := c.handlers[h], Step(c, cfg, ev).handlers[h];
      if Answers(c, ev, h) then AnswerMakes(r, ev.message, r')
      else if ev == EvTimer(h) then TimerMakes(r, r')
      else if ev == EvReset(h) then ResetMakes(r, r')
      else if Completes(c, ev, h) then WriteMakes(r, ev.ok, r')
      else r' == r
  {
    hide Inv, Step, Turned, HandlerInv;
    HandlerStep(c, cfg, ev, h);
    HandlerIs(c, cfg, ev, h);
    TurnedMakes(c, ev, h, Listed(c.pendingWrites, h), Count(c.pendingReads, h));
  }

  /** A new handler waits for its write with its stream and its timer, or has been told that it cannot be encoded. */
  lemma WrittenTable(c: Conn, cfg: Config, ev: Event)
    requires Enabled(c, cfg, ev) && ev.EvWrite?
    ensures
      var hs := Step(c, cfg, ev).handlers;
      && hs.Keys == c.handlers.Keys + {ev.h}
      && hs[ev.h] == if ev.encoded >= 0 then Handler(Writing, ev.stream, true, 1, 0, 0, 0, false, false)
                     else Handler(New, ev.stream, false, 0, 0, 1, 0, false, false)
  {
    hide Accept, Flush;
    var d := c.(pendingWrites := Opened(c.pendingWrites));
    if ev.encoded >= 0 { AcceptParts(d, cfg, ev.h, ev.stream, ev.encoded); }
    FlushParts(Enqueue(c, cfg, ev.h, ev.stream, ev.encoded));
  }

  /** The close callback tells the handlers that wait for their write or their answer that they have timed out. */
  lemma ClosedTable(c: Conn, cfg: Config, h: HandlerId)
    requires Inv(c, cfg) && h in c.handlers
    ensures h in OnClose(c).handlers
    ensures
      var r, r' := c.handlers[h], OnClose(c).handlers[h];
      && r'.state == r.state && r'.sets == r.sets && r'.errors == r.errors && r'.preparing == r.preparing
      && (if r.state == Writing || r.state == Reading then r'.timeouts == 1 && !r'.timer else r'.timeouts == r.timeouts)
  {
    OnCloseHandlers(c, cfg);
    ListedOrNot(c, cfg, h);
  }

  lemma ListedOrNot(c: Conn, cfg: Config, h: HandlerId)
    requires Inv(c, cfg) && h in c.handlers
    ensures
      var r := c.handlers[h];
      r.state == Writing || r.state == Reading ==>
        r.timeouts == 0 && (h in Flat(c.pendingWrites) || h in c.pendingReads)
  {
    FlatInv(c, cfg, h);
    CountMember(c.pendingReads, h);
    CountMember(Flat(c.pendingWrites), h);
    assert ListsInvAt(c.pendingWrites, c.pendingReads, c.handlers, h);
  }

  // ---------- What brings a callback ----------

  predicate Waits(c: Conn, h: HandlerId) {
    h in c.handlers && (c.handlers[h].state == Writing || c.handlers[h].state == Reading)
  }

  /** A frame answers the request while it waits for its write or its answer. */
  predicate BringsSet(c: Conn, ev: Event, h: HandlerId) { Answers(c, ev, h) && Waits(c, h) }

  /** Its timer fires, or the connection closes while it waits. */
  predicate BringsTimeout(c: Conn, ev: Event, h: HandlerId) { ev == EvTimer(h) || (ev.EvClosed? && Waits(c, h)) }

  /** It cannot be encoded, or its write callback comes with an error while it waits for it. */
  predicate BringsError(c: Conn, ev: Event, h: HandlerId) {
    || (ev.EvWrite? && ev.h == h && ev.encoded < 0)
    || (Completes(c, ev, h) && !ev.ok && h in c.handlers && c.handlers[h].state == Writing)
  }

  function One(b: bool): nat { if b then 1 else 0 }

  /** The counts of a handler, which are zero before it is written. */
  function Sets(c: Conn, h: HandlerId): nat { if h in c.handlers then c.handlers[h].sets else 0 }
  function Errors(c: Conn, h: HandlerId): nat { if h in c.handlers then c.handlers[h].errors else 0 }
  function Timeouts(c: Conn, h: HandlerId): nat { if h in c.handlers then c.handlers[h].timeouts else 0 }

  /** What a step adds to the counts. */
  predicate Counts(c: Conn, ev: Event, h: HandlerId, d: Conn) {
    && Sets(d, h) == Sets(c, h) + One(BringsSet(c, ev, h))
    && Errors(d, h) == Errors(c, h) + One(BringsError(c, ev, h))
    && Timeouts(d, h) == Timeouts(c, h) + One(BringsTimeout(c, ev, h))
  }

  lemma OldCounts(c: Conn, cfg: Config, ev: Event, h: HandlerId)
    requires Inv(c, cfg) && Enabled(c, cfg, ev) && !ev.EvClosed? && h in c.handlers
    ensures Counts(c, ev, h, Step(c, cfg, ev))
  {
    hide Inv, Step, HandlerInv;
    HandlerTable(c, cfg, ev, h);
    HandlerIs(c, cfg, ev, h);
    CalledIn(c.handlers[h], Listed(c.pendingWrites, h), Count(c.pendingReads, h));
  }

  lemma CalledIn(r: Handler, inWrites: nat, inReads: nat)
    requires HandlerInv(r, inWrites, inReads)
    ensures r.state == Writing || r.state == Reading ==> r.sets == 0 && r.errors == 0 && r.timeouts == 0
    ensures r.timer ==> r.state == Writing || r.state == Reading
  {
  }

  lemma NewCounts(c: Conn, cfg: Config, ev: Event, h: HandlerId)
    requires Inv(c, cfg) && Enabled(c, cfg, ev) && !ev.EvClosed? && h !in c.handlers
    ensures Counts(c, ev, h, Step(c, cfg, ev))
  {
    hide Inv, Write, Response, WriteRound, WriteEnd, Flush, Answered, Expired, AfterWrite, Handler.Reset;
    hide Conn.SetState, Conn.InternalClose, Conn.NotifyError;
    match ev
    case EvWrite(g, stream, encoded, flush) => WrittenTable(c, cfg, ev);
    case EvFlush => FlushParts(c);
    case EvResponse(stream, m) => ResponseHandlers(c, stream, m); OwnersListed(c, cfg, stream);
    case EvTimer(_) =>
    case EvReset(_) =>
    case EvWriteRound(i, ok) => RoundHandlers(c, cfg, i, ok);
    case EvWriteEnd(i) => WriteEndParts(c, cfg, i);
    case EvConnect | EvConnected | EvRegister | EvNotifyReady | EvClose(_) | EvBadInput => StateOnly(c, cfg, ev);
  }

  lemma CloseCounts(c: Conn, cfg: Config, h: HandlerId)
    requires Inv(c, cfg) && Enabled(c, cfg, EvClosed)
    ensures Counts(c, EvClosed, h, OnClose(c))
  {
    hide Inv, OnClose;
    OnCloseHandlers(c, cfg);
    if h in c.handlers {
      ClosedTable(c, cfg, h);
      ListedOrNot(c, cfg, h);
    }
  }

  lemma StepCounts(c: Conn, cfg: Config, ev: Event, h: HandlerId)
    requires Inv(c, cfg) && Enabled(c, cfg, ev)
    ensures Counts(c, ev, h, Step(c, cfg, ev))
  {
    hide Inv, Enabled, Counts, OnClose;
    if ev.EvClosed? {
      CloseCounts(c, cfg, h);
    } else if h in c.handlers {
      OldCounts(c, cfg, ev, h);
    } else {
      NewCounts(c, cfg, ev, h);
    }
  }

  // ---------- Whole runs ----------

  /** How often something happens in a run. */
  ghost function Times(c: Conn, cfg: Config, evs: seq<Event>, what: (Conn, Event) -> bool): nat
    requires ValidRun(c, cfg, evs)
    decreases |evs|
  {
    if evs == [] then 0 else One(what(c, evs[0])) + Times(Step(c, cfg, evs[0]), cfg, evs[1..], what)
  }

  lemma {:induction false} TimesOccurs(c: Conn, cfg: Config, evs: seq<Event>, what: (Conn, Event) -> bool)
    requires ValidRun(c, cfg, evs)
    ensures Times(c, cfg, evs, what) > 0 <==> Occurs(c, cfg, evs, what)
    decreases |evs|
  {
    hide Step;
    if evs != [] { TimesOccurs(Step(c, cfg, evs[0]), cfg, evs[1..], what); }
  }

  lemma {:induction false} RunCounts(c: Conn, cfg: Config, evs: seq<Event>, h: HandlerId)
    requires Inv(c, cfg) && !c.closed && ValidRun(c, cfg, evs)
    ensures
      var d := Run(c, cfg, evs);
      && Sets(d, h) == Sets(c, h) + Times(c, cfg, evs, (b: Conn, ev: Event) => BringsSet(b, ev, h))
      && Errors(d, h) == Errors(c, h) + Times(c, cfg, evs, (b: Conn, ev: Event) => BringsError(b, ev, h))
      && Timeouts(d, h) == Timeouts(c, h) + Times(c, cfg, evs, (b: Conn, ev: Event) => BringsTimeout(b, ev, h))
    decreases |evs|
  {
    hide Inv, Step, BringsSet, BringsError, BringsTimeout, Sets, Errors, Timeouts;
    if evs != [] {
      StepCounts(c, cfg, evs[0], h);
      if evs[0].EvClosed? {
        ClosedIsLast(c, cfg, evs);
        assert evs[1..] == [];
      } else {
        StepKeepsInv(c, cfg, evs[0]);
        StepStaysOpen(c, cfg, evs[0]);
        RunCounts(Step(c, cfg, evs[0]), cfg, evs[1..], h);
      }
    }
  }

  /** Main result: in every run, and for every request that was written, each callback has come exactly if, and as often
      as, there was a reason for it, and at most one callback has come in all: `on_set` for an answer while the request
      waited for its write or its answer, `on_timeout` for its timer or for the end of the connection while it waited,
      `on_error` for a request that cannot be encoded or for an error of its write while it waited for that. */
  lemma RightCallback(cfg: Config, evs: seq<Event>, h: HandlerId)
    requires ValidRun(Init, cfg, evs) && h in Run(Init, cfg, evs).handlers
    ensures
      var r := Run(Init, cfg, evs).handlers[h];
      && r.sets + r.errors + r.timeouts <= 1
      && (r.sets == 1 <==> Occurs(Init, cfg, evs, (c: Conn, ev: Event) => BringsSet(c, ev, h)))
      && (r.errors == 1 <==> Occurs(Init, cfg, evs, (c: Conn, ev: Event) => BringsError(c, ev, h)))
      && (r.timeouts == 1 <==> Occurs(Init, cfg, evs, (c: Conn, ev: Event) => BringsTimeout(c, ev, h)))
  {
    hide Step, BringsSet, BringsError, BringsTimeout;
    InitInv(cfg);
    ExactlyOnce(cfg, evs, h);
    RunCounts(Init, cfg, evs, h);
    TimesOccurs(Init, cfg, evs, (c: Conn, ev: Event) => BringsSet(c, ev, h));
    TimesOccurs(Init, cfg, evs, (c: Conn, ev: Event) => BringsError(c, ev, h));
    TimesOccurs(Init, cfg, evs, (c: Conn, ev: Event) => BringsTimeout(c, ev, h));
  }
}
