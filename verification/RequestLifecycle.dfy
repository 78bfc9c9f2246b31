/**
 The life cycle of requests on one connection, as a state machine over its callbacks
 (connection.cpp, handler.cpp).

 `Conn` is the part of a connection that the callbacks share.  An assertion of the source that would
 fire is recorded in a flag and execution goes on as in a build without assertions, so that
 "the assertion is unreachable" is a statement about the reachable states.
 */
module RequestLifecycle {

  // ---------- Handlers ----------

  type HandlerId = nat

  datatype HandlerState =
    | New
    | Writing
    | Reading
    | Timeout
    | TimeoutWriteOutstanding
    | ReadBeforeWrite
    | RetryWriteOutstanding
    | Done

  /** A complete frame, by what it makes the request do: an event asks nothing of a request, an answer finishes it, and
      for an error it may decide to be sent again or to have its statement prepared again first. */
  datatype Message = EventMessage | Answer | Retry | Unprepared

  /** `refs` is the connection's own share of the reference count; `sets`, `errors` and `timeouts` count the
      `on_set`, `on_error` and `on_timeout` callbacks; `preparing` says that a prepare handler will reset the request;
      `asserted` records a failed assertion. */
  datatype Handler = Handler(state: HandlerState, stream: int, timer: bool, refs: int,
                             sets: nat, errors: nat, timeouts: nat, preparing: bool, asserted: bool)
  {
    function Calls(): nat { sets + errors + timeouts }

    /** `Handler::set_state`. */
    function SetState(next: HandlerState): Handler {
      match state
      case New =>
        if next == New then this.(stream := -1)
        else if next == Writing then this.(state := next)
        else this.(asserted := true)
      case Writing =>
        if next == Reading then this.(state := next)
        else if next == ReadBeforeWrite || next == Done then this.(state := next, timer := false)
        else if next == Timeout then this.(state := TimeoutWriteOutstanding)
        else this.(asserted := true)
      case Reading =>
        if next == Done then this.(state := next, timer := false)
        else if next == Timeout then this.(state := next)
        else this.(asserted := true)
      case Timeout =>
        this.(state := next, asserted := asserted || next != Done)
      case TimeoutWriteOutstanding =>
        this.(state := next, asserted := asserted || (next != Timeout && next != ReadBeforeWrite))
      case ReadBeforeWrite =>
        this.(state := next, asserted := asserted || (next != Done && next != RetryWriteOutstanding))
      case RetryWriteOutstanding =>
        this.(state := next, asserted := asserted || next != New)
      case Done =>
        this.(state := next, asserted := asserted || next != New)
    }

    function StopTimer(): Handler { this.(timer := false) }

    /** `dec_ref`, which asserts that the count was positive. */
    function DropRef(): Handler { this.(refs := refs - 1, asserted := asserted || refs < 1) }

    /** `on_set`.  To be retried, a request is reset at once if it is done and otherwise waits for its write. */
    function OnSet(m: Message): Handler {
      var r := this.(sets := sets + 1);
      match m
      case Retry => r.SetState(if state == Done then New else RetryWriteOutstanding)
      case Unprepared => r.(preparing := true)
      case _ => r
    }

    /** `RequestHandler::retry`, called by the prepare handler when its own request has ended. */
    function Reset(): Handler { this.(preparing := false).SetState(New) }

    function OnError(): Handler { this.(errors := errors + 1) }
    function OnTimeout(): Handler { this.(timeouts := timeouts + 1) }
  }

  /** A handler as `internal_write` finds it, holding the connection's new reference and its stream. */
  function Acquired(stream: int): Handler { Handler(New, stream, false, 1, 0, 0, 0, false, false) }

  predicate InWriteList(s: HandlerState) {
    s == Writing || s == TimeoutWriteOutstanding || s == ReadBeforeWrite || s == RetryWriteOutstanding
  }

  predicate InReadList(s: HandlerState) { s == Reading || s == Timeout }

  predicate HoldsStream(s: HandlerState) {
    s == Writing || s == Reading || s == Timeout || s == TimeoutWriteOutstanding
  }

  // ---------- Connections ----------

  datatype ConnState = CNew | Connecting | Connected | RegisteringEvents | Ready | Overwhelmed | Close | CloseDefunct

  /** The transitions that `Connection::set_state` asserts to be the only ones. */
  predicate MayFollow(from: ConnState, to: ConnState) {
    match from
    case CNew => to == Connecting
    case Connecting => to == Connected || to == Close || to == CloseDefunct
    case Connected => to == RegisteringEvents || to == Ready || to == Close || to == CloseDefunct
    case RegisteringEvents => to == Ready || to == Close || to == CloseDefunct
    case Ready => to == Overwhelmed || to == Close || to == CloseDefunct
    case Overwhelmed => to == Ready || to == Close || to == CloseDefunct
    case Close => false
    case CloseDefunct => false
  }

  /** `on_availability_change` is called for a change from or to READY and looks at the state that was reached. */
  function Notice(from: ConnState, to: ConnState, reached: ConnState): int {
    if from != Ready && to != Ready then 0 else if reached == Ready then 1 else -1
  }

  /** A write is open until it is flushed; then the socket has taken it, or has refused it. */
  datatype Progress = Open | Sent | Refused

  datatype PendingWrite = PendingWrite(handlers: seq<HandlerId>, size: nat, progress: Progress)

  datatype Config = Config(low: nat, high: nat, maxStreams: nat)

  type Handlers = map<HandlerId, Handler>

  function Find(hs: Handlers, h: HandlerId): Handler { if h in hs then hs[h] else Acquired(-1) }

  /** `started` says that start-up is complete; `balance` is the number of availability notices to the listener that
      found the connection ready less the number of the others. */
  datatype Conn = Conn(state: ConnState, pendingWrites: seq<PendingWrite>, pendingReads: seq<HandlerId>,
                       streams: map<int, HandlerId>, handlers: Handlers, pendingSize: int,
                       started: bool, balance: int, asserted: bool, closed: bool)
  {
    predicate IsClosing() { state == Close || state == CloseDefunct }

    /** The handler's record; every listed handler has one (see `Inv`). */
    function At(h: HandlerId): Handler { Find(handlers, h) }

    function With(h: HandlerId, r: Handler): Conn { this.(handlers := handlers[h := r]) }

    /** `Connection::set_state`.  A connection that is closing stays so, and the assertion about it fails. */
    function SetState(next: ConnState): Conn {
      if next == state then this
      else
        var reached := if IsClosing() then state else next;
        this.(state := reached, asserted := asserted || !MayFollow(state, next),
              balance := balance + Notice(state, next, reached))
    }

    /** `internal_close`. */
    function InternalClose(s: ConnState): Conn { if IsClosing() then this else SetState(s) }

    /** `notify_error`, which ends in `defunct`. */
    function NotifyError(): Conn { InternalClose(CloseDefunct) }
  }

  const Init := Conn(CNew, [], [], map[], map[], 0, false, 0, false, false)

  function Last<T>(s: seq<T>): T requires s != [] { s[|s| - 1] }

  /** `List::remove`: drops the first occurrence. */
  function Remove(s: seq<HandlerId>, h: HandlerId): seq<HandlerId> {
    if s == [] then [] else if s[0] == h then s[1..] else [s[0]] + Remove(s[1..], h)
  }

  function Handed(s: ConnState): Progress { if s == Close || s == CloseDefunct then Refused else Sent }

  /** `flush`: hands the last pending write to the socket, which refuses it when it is closing; the source does not look
      at that result.  A write that is not flushed has a buffer exactly when it has a handler. */
  function Flush(c: Conn): Conn {
    if c.pendingWrites == [] then c
    else
      var back := Last(c.pendingWrites);
      if back.progress.Open? && back.handlers != []
      then c.(pendingWrites := c.pendingWrites[|c.pendingWrites| - 1 := back.(progress := Handed(c.state))])
      else c
  }

  /** The write list with an unflushed write at its back. */
  function Opened(ws: seq<PendingWrite>): (r: seq<PendingWrite>)
    ensures r != []
  {
    if ws == [] || !Last(ws).progress.Open? then ws + [PendingWrite([], 0, Open)] else ws
  }

  /** The write list after `internal_write` has encoded `h` into its last write. */
  function Queued(ws: seq<PendingWrite>, h: HandlerId, encoded: nat): seq<PendingWrite>
    requires ws != []
  {
    var back := Last(ws);
    ws[|ws| - 1 := back.(handlers := back.handlers + [h], size := back.size + encoded)]
  }

  /** The high water mark of `internal_write`. */
  function Grow(c: Conn, cfg: Config, encoded: nat): Conn {
    var c1 := c.(pendingSize := c.pendingSize + encoded);
    if c1.pendingSize > cfg.high then c1.SetState(Overwhelmed) else c1
  }

  /** The low water mark of `on_write`. */
  function Shrink(c: Conn, cfg: Config, written: nat): Conn {
    var c1 := c.(pendingSize := c.pendingSize - written);
    if c1.pendingSize < cfg.low && c1.state == Overwhelmed then c1.SetState(Ready) else c1
  }

  /** An encoded request joins the last pending write and its timer starts. */
  function Accept(c: Conn, cfg: Config, h: HandlerId, stream: int, encoded: nat): Conn
    requires c.pendingWrites != []
  {
    Grow(c, cfg, encoded)
      .(pendingWrites := Queued(c.pendingWrites, h, encoded), streams := c.streams[stream := h])
      .With(h, Acquired(stream).SetState(Writing).(timer := true))
  }

  /** A request that cannot be encoded gives its stream back and its error is reported once, by the connection or
      by the encoder. */
  function Reject(c: Conn, h: HandlerId, stream: int): Conn {
    c.With(h, Acquired(stream).OnError().DropRef())
  }

  /** `internal_write` of a new handler that was given `stream`, up to the flush; `encoded` is the result of
      encoding the request. */
  function Enqueue(c: Conn, cfg: Config, h: HandlerId, stream: int, encoded: int): Conn {
    var d := c.(pendingWrites := Opened(c.pendingWrites));
    if encoded < 0 then Reject(d, h, stream) else Accept(d, cfg, h, stream, encoded)
  }

  function Write(c: Conn, cfg: Config, h: HandlerId, stream: int, encoded: int, flush: bool): Conn {
    var d := Enqueue(c, cfg, h, stream, encoded);
    if flush && encoded >= 0 then Flush(d) else d
  }

  /** A frame that `consume` has no use for: not an event, and without a request that waits for it. */
  predicate Undeliverable(c: Conn, stream: int, m: Message) {
    if stream < 0 then !m.EventMessage? else stream !in c.streams
  }

  /** `consume` of one frame on `stream`. */
  function Response(c: Conn, stream: int, m: Message): Conn {
    if Undeliverable(c, stream, m) then c.NotifyError()
    else if stream < 0 then c
    else Delivered(c.(streams := c.streams - {stream}), c.streams[stream], m)
  }

  /** What `consume` makes of the handler it found for the stream. */
  function Answered(r: Handler, m: Message): Handler {
    match r.state
    case Reading => r.StopTimer().SetState(Done).OnSet(m).DropRef()
    case Writing => r.SetState(ReadBeforeWrite).OnSet(m)
    case Timeout => r.SetState(Done).DropRef()
    case TimeoutWriteOutstanding => r.SetState(ReadBeforeWrite)
    case _ => r.(asserted := true)
  }

  function Delivered(c: Conn, h: HandlerId, m: Message): Conn {
    var r := c.At(h);
    c.(pendingReads := if InReadList(r.state) then Remove(c.pendingReads, h) else c.pendingReads)
      .With(h, Answered(r, m))
  }

  /** The request timer: it stops itself and then runs `on_timeout`. */
  function TimerFires(c: Conn, h: HandlerId): Conn {
    c.With(h, Expired(c.At(h)))
  }

  function Expired(r: Handler): Handler { r.StopTimer().SetState(Timeout).OnTimeout() }

  /** `StreamManager::release`, which asserts that the stream is in use. */
  function Release(c: Conn, stream: int): Conn {
    c.(streams := c.streams - {stream}, asserted := c.asserted || stream !in c.streams)
  }

  /** The write list after the `i`-th write has lost its first handler. */
  function Popped(ws: seq<PendingWrite>, i: nat): seq<PendingWrite>
    requires i < |ws| && ws[i].handlers != []
  {
    ws[i := ws[i].(handlers := ws[i].handlers[1..])]
  }

  /** One round of the loop of `on_write` for the `i`-th pending write. */
  function WriteRound(c: Conn, i: nat, ok: bool): Conn
    requires i < |c.pendingWrites| && c.pendingWrites[i].handlers != []
  {
    Written(c.(pendingWrites := Popped(c.pendingWrites, i)), c.pendingWrites[i].handlers[0], ok)
  }

  /** What `on_write` makes of the handler it took from the list. */
  function AfterWrite(r: Handler, ok: bool): Handler {
    match r.state
    case Writing => if ok then r.SetState(Reading) else r.StopTimer().SetState(Done).OnError().DropRef()
    case TimeoutWriteOutstanding => r.SetState(Timeout)
    case ReadBeforeWrite => r.StopTimer().SetState(Done).DropRef()
    // `retry` resets the request, which comes back as a new one; here it is finished.
    case RetryWriteOutstanding => r.StopTimer().SetState(New).DropRef()
    case _ => r.(asserted := true)
  }

  predicate WriteFails(r: Handler, ok: bool) { r.state == Writing && !ok }

  /** The handler still waits for its response. */
  predicate AwaitsRead(r: Handler, ok: bool) { (r.state == Writing && ok) || r.state == TimeoutWriteOutstanding }

  function Written(c: Conn, h: HandlerId, ok: bool): Conn {
    var r := c.At(h);
    var d := if WriteFails(r, ok) then Release(c.NotifyError(), r.stream) else c;
    d.(pendingReads := if AwaitsRead(r, ok) then c.pendingReads + [h] else c.pendingReads)
      .With(h, AfterWrite(r, ok))
  }

  function RemoveAt<T>(s: seq<T>, i: nat): seq<T> requires i < |s| { s[..i] + s[i + 1..] }

  /** What `on_write` does after its loop. */
  function WriteEnd(c: Conn, cfg: Config, i: nat): Conn
    requires i < |c.pendingWrites|
  {
    Flush(Shrink(c, cfg, c.pendingWrites[i].size).(pendingWrites := RemoveAt(c.pendingWrites, i)))
  }

  /** `cleanup_pending_handlers` for one handler. */
  function Cleaned(r: Handler): Handler {
    (if r.state == Writing || r.state == Reading then r.OnTimeout().StopTimer() else r).DropRef()
  }

  /** `cleanup_pending_handlers`, on the table of handlers. */
  function Cleanup(hs: Handlers, pending: seq<HandlerId>): Handlers
    decreases |pending|
  {
    if pending == [] then hs
    else Cleanup(hs[pending[0] := Cleaned(Find(hs, pending[0]))], pending[1..])
  }

  /** The handlers of the pending writes, in list order. */
  function Flat(ws: seq<PendingWrite>): seq<HandlerId> {
    if ws == [] then [] else ws[0].handlers + Flat(ws[1..])
  }

  /** `on_close`. */
  function OnClose(c: Conn): Conn {
    c.(handlers := Cleanup(Cleanup(c.handlers, c.pendingReads), Flat(c.pendingWrites)),
       pendingReads := [], pendingWrites := [], closed := true)
  }

  // ---------- Runs ----------

  /** What can happen next.  Only the constructors' arguments come from the environment: the socket, the peer,
      the timers and the users of the connection. */
  datatype Event =
    | EvConnect                                    // connect
    | EvConnected                                  // on_connect succeeded
    | EvRegister                                   // on_ready asks for events
    | EvNotifyReady                                // start-up is complete
    | EvClose(defunct: bool)                       // close or defunct
    | EvWrite(h: HandlerId, stream: int, encoded: int, flush: bool)
    | EvFlush
    | EvResponse(rstream: int, message: Message)   // a complete frame with any stream id
    | EvBadInput                                   // undecodable bytes
    | EvTimer(t: HandlerId)
    | EvReset(p: HandlerId)                        // the prepare handler of a request has ended
    | EvWriteRound(i: nat, ok: bool)
    | EvWriteEnd(e: nat)
    | EvClosed                                     // on_close

  /** The environment's obligations: `connect` is the first call, start-up is completed once, a write brings a new
      handler and is given a free stream, only running timers fire, only requests that wait for it are reset, and
      nothing follows the close callback.  The event loop completes every write that the socket took, at the latest
      with an error before the close callback, and no other.  A frame may carry any stream id. */
  predicate Enabled(c: Conn, cfg: Config, ev: Event) {
    && !c.closed
    && (c.state == CNew ==> ev.EvConnect?)
    && match ev
       case EvConnect => true
       case EvConnected => c.state == Connecting
       case EvRegister => c.state == Connected
       case EvNotifyReady => !c.started && c.state != Connecting
       case EvClose(_) => true
       case EvWrite(h, stream, _, _) => h !in c.handlers && stream !in c.streams && 0 <= stream < cfg.maxStreams
       case EvFlush => true
       case EvResponse(_, _) => true
       case EvBadInput => true
       case EvTimer(h) => h in c.handlers && c.handlers[h].timer
       case EvReset(h) => h in c.handlers && c.handlers[h].preparing
       case EvWriteRound(i, _) =>
         i < |c.pendingWrites| && c.pendingWrites[i].progress.Sent? && c.pendingWrites[i].handlers != []
       case EvWriteEnd(i) =>
         i < |c.pendingWrites| && c.pendingWrites[i].progress.Sent? && c.pendingWrites[i].handlers == []
       case EvClosed => c.IsClosing() && forall i :: 0 <= i < |c.pendingWrites| ==> !c.pendingWrites[i].progress.Sent?
  }

  function Step(c: Conn, cfg: Config, ev: Event): Conn
    requires Enabled(c, cfg, ev)
  {
    match ev
    case EvConnect => if c.state == CNew then c.SetState(Connecting) else c
    case EvConnected => c.SetState(Connected)
    case EvRegister => c.SetState(RegisteringEvents)
    case EvNotifyReady => c.(started := true).SetState(Ready)
    case EvClose(defunct) => c.InternalClose(if defunct then CloseDefunct else Close)
    case EvWrite(h, stream, encoded, flush) => Write(c, cfg, h, stream, encoded, flush)
    case EvFlush => Flush(c)
    case EvResponse(stream, m) => Response(c, stream, m)
    case EvBadInput => c.NotifyError()
    case EvTimer(h) => TimerFires(c, h)
    case EvReset(h) => c.With(h, c.At(h).Reset())
    case EvWriteRound(i, ok) => WriteRound(c, i, ok)
    case EvWriteEnd(i) => WriteEnd(c, cfg, i)
    case EvClosed => OnClose(c)
  }

  ghost predicate ValidRun(c: Conn, cfg: Config, evs: seq<Event>)
    decreases |evs|
  {
    evs == [] || (Enabled(c, cfg, evs[0]) && ValidRun(Step(c, cfg, evs[0]), cfg, evs[1..]))
  }

  ghost function Run(c: Conn, cfg: Config, evs: seq<Event>): Conn
    requires ValidRun(c, cfg, evs)
    decreases |evs|
  {
    if evs == [] then c else Run(Step(c, cfg, evs[0]), cfg, evs[1..])
  }

  /** At some point of the run `bad` holds of the state and the next event. */
  ghost predicate Occurs(c: Conn, cfg: Config, evs: seq<Event>, bad: (Conn, Event) -> bool)
    requires ValidRun(c, cfg, evs)
    decreases |evs|
  {
    evs != [] && (bad(c, evs[0]) || Occurs(Step(c, cfg, evs[0]), cfg, evs[1..], bad))
  }

  // ---------- The invariant ----------

  ghost function Count(s: seq<HandlerId>, h: HandlerId): nat {
    if s == [] then 0 else (if s[0] == h then 1 else 0) + Count(s[1..], h)
  }

  /** How often `h` is listed in the pending writes. */
  ghost function Listed(ws: seq<PendingWrite>, h: HandlerId): nat {
    if ws == [] then 0 else Count(ws[0].handlers, h) + Listed(ws[1..], h)
  }

  ghost function TotalSize(ws: seq<PendingWrite>): nat {
    if ws == [] then 0 else ws[0].size + TotalSize(ws[1..])
  }

  /** The lists, the timer, the reference and the callbacks of one handler, as a function of its state. */
  ghost predicate HandlerInv(r: Handler, listed: nat, reading: nat) {
    && r.Calls() == (if r.state == Writing || r.state == Reading then 0 else 1)
    && r.timer == (r.state == Writing || r.state == Reading)
    && reading == (if InReadList(r.state) then 1 else 0)
    && if r.asserted then LostInv(r, listed)
       else
         && listed == (if InWriteList(r.state) then 1 else 0)
         && r.refs == (if r.state == New || r.state == Done then 0 else 1)
         && (r.preparing ==> r.state == Done || r.state == ReadBeforeWrite)
         && (r.state == Timeout || r.state == TimeoutWriteOutstanding ==> r.timeouts == 1)
         && (r.state == RetryWriteOutstanding ==> r.sets == 1)
  }

  /** A handler that was reset before its write was complete: the write callback does not know what to do with it. */
  ghost predicate LostInv(r: Handler, listed: nat) {
    r.state == New && !r.preparing && listed <= 1 && r.refs == 1
  }

  ghost predicate ListsInvAt(ws: seq<PendingWrite>, pending: seq<HandlerId>, hs: Handlers, h: HandlerId) {
    if h in hs then HandlerInv(hs[h], Listed(ws, h), Count(pending, h))
    else Listed(ws, h) == 0 && Count(pending, h) == 0
  }

  ghost predicate ListsInv(ws: seq<PendingWrite>, pending: seq<HandlerId>, hs: Handlers) {
    forall h :: ListsInvAt(ws, pending, hs, h)
  }

  /** A handler that still waits for a response has its own stream. */
  ghost predicate StreamOf(streams: map<int, HandlerId>, hs: Handlers, h: HandlerId) {
    h in hs && HoldsStream(hs[h].state) ==> hs[h].stream in streams && streams[hs[h].stream] == h
  }

  /** A stream in use belongs to a handler that still waits for a response. */
  ghost predicate OwnerOf(streams: map<int, HandlerId>, hs: Handlers, max: nat, s: int) {
    s in streams ==>
      && 0 <= s < max
      && streams[s] in hs
      && HoldsStream(hs[streams[s]].state)
      && hs[streams[s]].stream == s
  }

  ghost predicate StreamsInv(streams: map<int, HandlerId>, hs: Handlers, max: nat) {
    && (forall h :: StreamOf(streams, hs, h))
    && (forall s :: OwnerOf(streams, hs, max, s))
  }

  ghost predicate WritesInv(ws: seq<PendingWrite>, size: int) {
    && size == TotalSize(ws)
    && (forall i :: 0 <= i < |ws| - 1 ==> !ws[i].progress.Open?)
  }

  ghost predicate Inv(c: Conn, cfg: Config) {
    && ListsInv(c.pendingWrites, c.pendingReads, c.handlers)
    && StreamsInv(c.streams, c.handlers, cfg.maxStreams)
    && WritesInv(c.pendingWrites, c.pendingSize)
  }

  // ---------- Lists ----------

  lemma {:induction false} ListedUpdate(ws: seq<PendingWrite>, i: nat, w: PendingWrite, h: HandlerId)
    requires i < |ws|
    ensures Listed(ws[i := w], h) == Listed(ws, h) - Count(ws[i].handlers, h) + Count(w.handlers, h)
    ensures TotalSize(ws[i := w]) == TotalSize(ws) - ws[i].size + w.size
  {
    if i == 0 {
      assert ws[i := w][1..] == ws[1..];
    } else {
      assert ws[i := w][1..] == ws[1..][i - 1 := w];
      ListedUpdate(ws[1..], i - 1, w, h);
    }
  }

  lemma {:induction false} ListedAppend(ws: seq<PendingWrite>, w: PendingWrite, h: HandlerId)
    ensures Listed(ws + [w], h) == Listed(ws, h) + Count(w.handlers, h)
    ensures TotalSize(ws + [w]) == TotalSize(ws) + w.size
  {
    if ws == [] {
      assert (ws + [w])[1..] == [];
    } else {
      assert (ws + [w])[1..] == ws[1..] + [w];
      ListedAppend(ws[1..], w, h);
    }
  }

  lemma {:induction false} ListedRemoveAt(ws: seq<PendingWrite>, i: nat, h: HandlerId)
    requires i < |ws|
    ensures Listed(ws, h) == Listed(RemoveAt(ws, i), h) + Count(ws[i].handlers, h)
    ensures TotalSize(ws) == TotalSize(RemoveAt(ws, i)) + ws[i].size
  {
    if i == 0 {
      assert RemoveAt(ws, i) == ws[1..];
    } else {
      assert RemoveAt(ws, i)[0] == ws[0];
      assert RemoveAt(ws, i)[1..] == RemoveAt(ws[1..], i - 1);
      ListedRemoveAt(ws[1..], i - 1, h);
    }
  }

  lemma {:induction false} ListedAt(ws: seq<PendingWrite>, i: nat, h: HandlerId)
    requires i < |ws|
    ensures Listed(ws, h) >= Count(ws[i].handlers, h)
  {
    if i > 0 {
      ListedAt(ws[1..], i - 1, h);
    }
  }

  lemma {:induction false} CountAppend(s: seq<HandlerId>, t: seq<HandlerId>, h: HandlerId)
    ensures Count(s + t, h) == Count(s, h) + Count(t, h)
  {
    if s == [] {
      assert s + t == t;
    } else {
      assert (s + t)[1..] == s[1..] + t;
      CountAppend(s[1..], t, h);
    }
  }

  lemma {:induction false} ListedFlat(ws: seq<PendingWrite>, h: HandlerId)
    ensures Count(Flat(ws), h) == Listed(ws, h)
  {
    if ws != [] {
      ListedFlat(ws[1..], h);
      CountAppend(ws[0].handlers, Flat(ws[1..]), h);
    }
  }

  lemma {:induction false} RemoveOne(s: seq<HandlerId>, h: HandlerId, k: HandlerId)
    requires Count(s, h) > 0
    ensures Count(Remove(s, h), k) == Count(s, k) - (if k == h then 1 else 0)
  {
    if s[0] != h {
      RemoveOne(s[1..], h, k);
    }
  }

  lemma PushBack(s: seq<HandlerId>, h: HandlerId, k: HandlerId)
    ensures Count(s + [h], k) == Count(s, k) + (if k == h then 1 else 0)
  {
    CountAppend(s, [h], k);
  }

  // ---------- Every step keeps the invariant ----------

  ghost predicate SameLists(ws: seq<PendingWrite>, ws': seq<PendingWrite>) {
    forall h :: Listed(ws', h) == Listed(ws, h)
  }

  lemma SameListsKeepInv(ws: seq<PendingWrite>, ws': seq<PendingWrite>, pending: seq<HandlerId>, hs: Handlers)
    requires ListsInv(ws, pending, hs) && SameLists(ws, ws')
    ensures ListsInv(ws', pending, hs)
  {
    forall h ensures ListsInvAt(ws', pending, hs, h) { assert ListsInvAt(ws, pending, hs, h); }
  }

  /** The lists change only in the number of occurrences of `h`. */
  ghost predicate ListsTouch(ws: seq<PendingWrite>, pending: seq<HandlerId>,
                             ws': seq<PendingWrite>, pending': seq<HandlerId>, h: HandlerId) {
    forall k :: k != h ==> Listed(ws', k) == Listed(ws, k) && Count(pending', k) == Count(pending, k)
  }

  lemma TouchKeepsLists(ws: seq<PendingWrite>, pending: seq<HandlerId>,
                        ws': seq<PendingWrite>, pending': seq<HandlerId>, hs: Handlers, h: HandlerId, r: Handler)
    requires ListsInv(ws, pending, hs) && ListsTouch(ws, pending, ws', pending', h)
    requires HandlerInv(r, Listed(ws', h), Count(pending', h))
    ensures ListsInv(ws', pending', hs[h := r])
  {
    var hs' := hs[h := r];
    forall k ensures ListsInvAt(ws', pending', hs', k) { assert ListsInvAt(ws, pending, hs, k); }
  }

  lemma AcquireKeepsStreams(streams: map<int, HandlerId>, hs: Handlers, max: nat, s: int, h: HandlerId, r: Handler)
    requires StreamsInv(streams, hs, max) && s !in streams && 0 <= s < max && h !in hs
    requires HoldsStream(r.state) && r.stream == s
    ensures StreamsInv(streams[s := h], hs[h := r], max)
  {
    var streams', hs' := streams[s := h], hs[h := r];
    forall k ensures StreamOf(streams', hs', k) { assert StreamOf(streams, hs, k); }
    forall t ensures OwnerOf(streams', hs', max, t) { assert OwnerOf(streams, hs, max, t); }
  }

  /** The handler's record changes without the stream: it holds one after the change as before, or it is new. */
  lemma UpdateKeepsStreams(streams: map<int, HandlerId>, hs: Handlers, max: nat, h: HandlerId, r: Handler)
    requires StreamsInv(streams, hs, max)
    requires HoldsStream(r.state) <==> h in hs && HoldsStream(hs[h].state)
    requires h in hs ==> r.stream == hs[h].stream
    ensures StreamsInv(streams, hs[h := r], max)
  {
    var hs' := hs[h := r];
    forall k ensures StreamOf(streams, hs', k) { assert StreamOf(streams, hs, k); }
    forall t ensures OwnerOf(streams, hs', max, t) { assert OwnerOf(streams, hs, max, t); }
  }

  lemma ReleaseKeepsStreams(streams: map<int, HandlerId>, hs: Handlers, max: nat, s: int, r: Handler)
    requires StreamsInv(streams, hs, max) && s in streams && !HoldsStream(r.state)
    ensures StreamsInv(streams - {s}, hs[streams[s] := r], max)
  {
    var h := streams[s];
    assert OwnerOf(streams, hs, max, s);
    var streams', hs' := streams - {s}, hs[h := r];
    forall k ensures StreamOf(streams', hs', k) { assert StreamOf(streams, hs, k); }
    forall t ensures OwnerOf(streams', hs', max, t) { assert OwnerOf(streams, hs, max, t); }
  }

  lemma FlushParts(c: Conn)
    ensures Flush(c) == c.(pendingWrites := Flush(c).pendingWrites)
  {
  }

  lemma SetStateParts(c: Conn, next: ConnState)
    ensures
      var d := c.SetState(next);
      d == c.(state := d.state, balance := d.balance, asserted := d.asserted)
  {
    hide MayFollow;
  }

  lemma GrowParts(c: Conn, cfg: Config, encoded: nat)
    ensures
      var d := Grow(c, cfg, encoded);
      var over := c.pendingSize + encoded > cfg.high && c.state != Overwhelmed;
      && d == c.(state := d.state, balance := d.balance, asserted := d.asserted, pendingSize := c.pendingSize + encoded)
      && d.state == (if over && !c.IsClosing() then Overwhelmed else c.state)
      && d.asserted == (c.asserted || (over && c.state != Ready))
      && d.balance == c.balance - if over && c.state == Ready then 1 else 0
  {
  }

  lemma ShrinkParts(c: Conn, cfg: Config, written: nat)
    ensures
      var d := Shrink(c, cfg, written);
      d == c.(state := d.state, balance := d.balance, asserted := d.asserted, pendingSize := c.pendingSize - written)
  {
    SetStateParts(c.(pendingSize := c.pendingSize - written), Ready);
  }

  lemma NotifyErrorParts(c: Conn)
    ensures c.NotifyError() == c.(state := c.NotifyError().state, balance := c.NotifyError().balance,
                                  asserted := c.NotifyError().asserted)
  {
    SetStateParts(c, CloseDefunct);
  }

  lemma FlushKeepsInv(c: Conn, cfg: Config)
    requires Inv(c, cfg)
    ensures Inv(Flush(c), cfg)
  {
    var ws := c.pendingWrites;
    var ws' := Flush(c).pendingWrites;
    if ws != ws' {
      var w := Last(ws).(progress := Handed(c.state));
      forall h ensures Listed(ws', h) == Listed(ws, h) { ListedUpdate(ws, |ws| - 1, w, h); }
      ListedUpdate(ws, |ws| - 1, w, 0);
    }
    SameListsKeepInv(ws, ws', c.pendingReads, c.handlers);
  }

  lemma OpenedKeeps(ws: seq<PendingWrite>, size: int)
    requires WritesInv(ws, size)
    ensures WritesInv(Opened(ws), size) && SameLists(ws, Opened(ws))
  {
    var w := PendingWrite([], 0, Open);
    forall h ensures Listed(Opened(ws), h) == Listed(ws, h) { ListedAppend(ws, w, h); }
    ListedAppend(ws, w, 0);
  }

  lemma QueuedLists(ws: seq<PendingWrite>, h: HandlerId, encoded: nat, k: HandlerId)
    requires ws != []
    ensures Listed(Queued(ws, h, encoded), k) == Listed(ws, k) + (if k == h then 1 else 0)
    ensures TotalSize(Queued(ws, h, encoded)) == TotalSize(ws) + encoded
  {
    ListedUpdate(ws, |ws| - 1, Last(Queued(ws, h, encoded)), k);
    PushBack(Last(ws).handlers, h, k);
  }

  lemma EnqueueKeepsLists(ws: seq<PendingWrite>, pending: seq<HandlerId>, hs: Handlers, size: int,
                          h: HandlerId, encoded: nat, r: Handler)
    requires ListsInv(ws, pending, hs) && WritesInv(ws, size) && ws != [] && h !in hs
    requires HandlerInv(r, 1, 0)
    ensures ListsInv(Queued(ws, h, encoded), pending, hs[h := r]) && WritesInv(Queued(ws, h, encoded), size + encoded)
  {
    var ws' := Queued(ws, h, encoded);
    assert ListsInvAt(ws, pending, hs, h);
    forall k ensures Listed(ws', k) == Listed(ws, k) + (if k == h then 1 else 0) { QueuedLists(ws, h, encoded, k); }
    QueuedLists(ws, h, encoded, h);
    TouchKeepsLists(ws, pending, ws', pending, hs, h, r);
  }

  lemma AcceptParts(c: Conn, cfg: Config, h: HandlerId, stream: int, encoded: nat)
    requires c.pendingWrites != []
    ensures
      var d := Accept(c, cfg, h, stream, encoded);
      && d.pendingWrites == Queued(c.pendingWrites, h, encoded) && d.pendingReads == c.pendingReads
      && d.streams == c.streams[stream := h] && d.pendingSize == c.pendingSize + encoded
      && d.handlers == c.handlers[h := Acquired(stream).SetState(Writing).(timer := true)]
      && d.closed == c.closed && SameState(d, Grow(c, cfg, encoded))
  {
    hide Grow, Queued;
    GrowParts(c, cfg, encoded);
  }

  lemma EnqueueKeepsInv(c: Conn, cfg: Config, h: HandlerId, stream: int, encoded: int)
    requires Inv(c, cfg) && h !in c.handlers && stream !in c.streams && 0 <= stream < cfg.maxStreams
    ensures Inv(Enqueue(c, cfg, h, stream, encoded), cfg)
  {
    hide Accept, Opened, Queued, ListsInv, StreamsInv, WritesInv;
    var ws, hs := Opened(c.pendingWrites), c.handlers;
    OpenedKeeps(c.pendingWrites, c.pendingSize);
    SameListsKeepInv(c.pendingWrites, ws, c.pendingReads, hs);
    if encoded >= 0 {
      var r := Acquired(stream).SetState(Writing).(timer := true);
      AcceptParts(c.(pendingWrites := ws), cfg, h, stream, encoded);
      EnqueueKeepsLists(ws, c.pendingReads, hs, c.pendingSize, h, encoded, r);
      AcquireKeepsStreams(c.streams, hs, cfg.maxStreams, stream, h, r);
    } else {
      RejectKeepsLists(ws, c.pendingReads, hs, h, stream);
      UpdateKeepsStreams(c.streams, hs, cfg.maxStreams, h, Acquired(stream).OnError().DropRef());
    }
  }

  lemma RejectKeepsLists(ws: seq<PendingWrite>, pending: seq<HandlerId>, hs: Handlers, h: HandlerId, stream: int)
    requires ListsInv(ws, pending, hs) && h !in hs
    ensures ListsInv(ws, pending, hs[h := Acquired(stream).OnError().DropRef()])
  {
    assert ListsInvAt(ws, pending, hs, h);
    TouchKeepsLists(ws, pending, ws, pending, hs, h, Acquired(stream).OnError().DropRef());
  }

  lemma WriteKeepsInv(c: Conn, cfg: Config, h: HandlerId, stream: int, encoded: int, flush: bool)
    requires Inv(c, cfg) && h !in c.handlers && stream !in c.streams && 0 <= stream < cfg.maxStreams
    ensures Inv(Write(c, cfg, h, stream, encoded, flush), cfg)
  {
    EnqueueKeepsInv(c, cfg, h, stream, encoded);
    FlushKeepsInv(Enqueue(c, cfg, h, stream, encoded), cfg);
  }

  lemma RemoveKeepsLists(ws: seq<PendingWrite>, pending: seq<HandlerId>, hs: Handlers, h: HandlerId, r: Handler)
    requires ListsInv(ws, pending, hs) && h in hs && InReadList(hs[h].state)
    requires HandlerInv(r, 0, 0)
    ensures ListsInv(ws, Remove(pending, h), hs[h := r])
  {
    var pending' := Remove(pending, h);
    assert ListsInvAt(ws, pending, hs, h);
    forall k ensures Count(pending', k) == Count(pending, k) - (if k == h then 1 else 0) { RemoveOne(pending, h, k); }
    TouchKeepsLists(ws, pending, ws, pending', hs, h, r);
  }

  lemma AnsweredInv(r: Handler, m: Message, listed: nat, reading: nat)
    requires HandlerInv(r, listed, reading) && HoldsStream(r.state)
    ensures HandlerInv(Answered(r, m), listed, 0)
    ensures !HoldsStream(Answered(r, m).state) && !r.asserted && !Answered(r, m).asserted
  {
  }

  lemma ResponseKeepsInv(c: Conn, cfg: Config, stream: int, m: Message)
    requires Inv(c, cfg)
    ensures Inv(Response(c, stream, m), cfg)
  {
    hide Answered, HandlerInv, ListsInv, StreamsInv, WritesInv, Conn.NotifyError;
    if Undeliverable(c, stream, m) {
      NotifyErrorParts(c);
      StateKeepsInv(c, c.NotifyError(), cfg);
    } else if stream >= 0 {
      DeliveredKeepsInv(c, cfg, stream, m);
    }
  }

  lemma OwnerWaits(c: Conn, cfg: Config, stream: int)
    requires Inv(c, cfg) && stream in c.streams
    ensures
      var h := c.streams[stream];
      && h in c.handlers && HoldsStream(c.handlers[h].state)
      && HandlerInv(c.handlers[h], Listed(c.pendingWrites, h), Count(c.pendingReads, h))
  {
    hide HandlerInv;
    assert OwnerOf(c.streams, c.handlers, cfg.maxStreams, stream);
    assert ListsInvAt(c.pendingWrites, c.pendingReads, c.handlers, c.streams[stream]);
  }

  lemma DeliveredKeepsInv(c: Conn, cfg: Config, stream: int, m: Message)
    requires Inv(c, cfg) && stream in c.streams
    ensures Inv(Delivered(c.(streams := c.streams - {stream}), c.streams[stream], m), cfg)
  {
    hide Answered, ListsInv, StreamsInv, WritesInv;
    var h := c.streams[stream];
    OwnerWaits(c, cfg, stream);
    var r := Answered(c.handlers[h], m);
    AnsweredInv(c.handlers[h], m, Listed(c.pendingWrites, h), Count(c.pendingReads, h));
    ReleaseKeepsStreams(c.streams, c.handlers, cfg.maxStreams, stream, r);
    if InReadList(c.handlers[h].state) {
      RemoveKeepsLists(c.pendingWrites, c.pendingReads, c.handlers, h, r);
    } else {
      UpdateKeepsLists(c.pendingWrites, c.pendingReads, c.handlers, h, r);
    }
  }

  /** The handler's record changes and the lists do not. */
  lemma UpdateKeepsLists(ws: seq<PendingWrite>, pending: seq<HandlerId>, hs: Handlers, h: HandlerId, r: Handler)
    requires ListsInv(ws, pending, hs) && HandlerInv(r, Listed(ws, h), Count(pending, h))
    ensures ListsInv(ws, pending, hs[h := r])
  {
    hide HandlerInv;
    TouchKeepsLists(ws, pending, ws, pending, hs, h, r);
  }

  lemma ExpiredInv(r: Handler, listed: nat, reading: nat)
    requires HandlerInv(r, listed, reading) && r.timer
    ensures HandlerInv(Expired(r), listed, reading) && HoldsStream(r.state) && HoldsStream(Expired(r).state)
    ensures Expired(r).stream == r.stream && !r.asserted && !Expired(r).asserted
  {
  }

  lemma TimerKeepsInv(c: Conn, cfg: Config, h: HandlerId)
    requires Inv(c, cfg) && Enabled(c, cfg, EvTimer(h))
    ensures Inv(TimerFires(c, h), cfg)
  {
    hide Expired, HandlerInv, StreamsInv;
    assert ListsInvAt(c.pendingWrites, c.pendingReads, c.handlers, h);
    ExpiredInv(c.handlers[h], Listed(c.pendingWrites, h), Count(c.pendingReads, h));
    var r := Expired(c.handlers[h]);
    UpdateKeepsStreams(c.streams, c.handlers, cfg.maxStreams, h, r);
    UpdateKeepsLists(c.pendingWrites, c.pendingReads, c.handlers, h, r);
  }

  lemma ResetInv(r: Handler, listed: nat, reading: nat)
    requires HandlerInv(r, listed, reading) && r.preparing
    ensures HandlerInv(r.Reset(), listed, reading) && !HoldsStream(r.state) && !HoldsStream(r.Reset().state)
    ensures r.Reset().stream == r.stream && !r.asserted && (r.Reset().asserted <==> r.state == ReadBeforeWrite)
  {
  }

  lemma ResetKeepsInv(c: Conn, cfg: Config, h: HandlerId)
    requires Inv(c, cfg) && Enabled(c, cfg, EvReset(h))
    ensures Inv(c.With(h, c.At(h).Reset()), cfg)
  {
    hide Handler.Reset, HandlerInv, StreamsInv;
    assert ListsInvAt(c.pendingWrites, c.pendingReads, c.handlers, h);
    ResetInv(c.handlers[h], Listed(c.pendingWrites, h), Count(c.pendingReads, h));
    var r := c.handlers[h].Reset();
    UpdateKeepsStreams(c.streams, c.handlers, cfg.maxStreams, h, r);
    UpdateKeepsLists(c.pendingWrites, c.pendingReads, c.handlers, h, r);
  }

  lemma PoppedLists(ws: seq<PendingWrite>, i: nat, k: HandlerId)
    requires i < |ws| && ws[i].handlers != []
    ensures Listed(Popped(ws, i), k) == Listed(ws, k) - (if k == ws[i].handlers[0] then 1 else 0)
    ensures TotalSize(Popped(ws, i)) == TotalSize(ws)
  {
    ListedUpdate(ws, i, Popped(ws, i)[i], k);
  }

  /** Taking a handler from a write and putting it, with a new record, nowhere or into the reads. */
  lemma WrittenKeepsLists(ws: seq<PendingWrite>, pending: seq<HandlerId>, hs: Handlers, size: int,
                          i: nat, r: Handler)
    requires ListsInv(ws, pending, hs) && WritesInv(ws, size) && i < |ws| && ws[i].handlers != []
    requires HandlerInv(r, 0, if InReadList(r.state) then 1 else 0)
    ensures
      var h := ws[i].handlers[0];
      && h in hs
      && ListsInv(Popped(ws, i), if InReadList(r.state) then pending + [h] else pending, hs[h := r])
      && WritesInv(Popped(ws, i), size)
  {
    var h := ws[i].handlers[0];
    var ws' := Popped(ws, i);
    var pending' := if InReadList(r.state) then pending + [h] else pending;
    forall k ensures Listed(ws', k) == Listed(ws, k) - (if k == h then 1 else 0) { PoppedLists(ws, i, k); }
    forall k ensures Count(pending', k) == Count(pending, k) + (if k == h && InReadList(r.state) then 1 else 0) {
      PushBack(pending, h, k);
    }
    PoppedLists(ws, i, h);
    assert ListsInvAt(ws, pending, hs, h);
    TouchKeepsLists(ws, pending, ws', pending', hs, h, r);
  }

  lemma FirstWrittenInWriteList(c: Conn, cfg: Config, i: nat)
    requires Inv(c, cfg) && i < |c.pendingWrites| && c.pendingWrites[i].handlers != []
    ensures
      var h := c.pendingWrites[i].handlers[0];
      && h in c.handlers && HandlerInv(c.handlers[h], 1, 0) && StreamOf(c.streams, c.handlers, h)
  {
    var h := c.pendingWrites[i].handlers[0];
    PoppedLists(c.pendingWrites, i, h);
    assert ListsInvAt(c.pendingWrites, c.pendingReads, c.handlers, h);
  }

  lemma SentInv(r: Handler, ok: bool)
    requires HandlerInv(r, 1, 0)
    ensures HandlerInv(AfterWrite(r, ok), 0, if AwaitsRead(r, ok) then 1 else 0)
    ensures InReadList(AfterWrite(r, ok).state) <==> AwaitsRead(r, ok)
    ensures AfterWrite(r, ok).stream == r.stream
    ensures HoldsStream(AfterWrite(r, ok).state) <==> HoldsStream(r.state) && !WriteFails(r, ok)
    ensures AfterWrite(r, ok).asserted <==> r.asserted
  {
  }

  /** What the rest of the connection sees of one round: after a failed write it closes and its stream is free. */
  lemma WriteRoundParts(c: Conn, cfg: Config, i: nat, ok: bool)
    requires Inv(c, cfg) && i < |c.pendingWrites| && c.pendingWrites[i].handlers != []
    ensures
      var h := c.pendingWrites[i].handlers[0];
      var d, r := WriteRound(c, i, ok), c.At(h);
      var e := if WriteFails(r, ok) then c.NotifyError() else c;
      d == Conn(e.state, Popped(c.pendingWrites, i), if AwaitsRead(r, ok) then c.pendingReads + [h] else c.pendingReads,
                if WriteFails(r, ok) then c.streams - {r.stream} else c.streams, c.handlers[h := AfterWrite(r, ok)],
                c.pendingSize, e.started, e.balance, e.asserted, c.closed)
  {
    hide AfterWrite, Popped, Conn.NotifyError;
    FirstWrittenInWriteList(c, cfg, i);
    NotifyErrorParts(c);
    var ws := Popped(c.pendingWrites, i);
    NotifyErrorIgnoresWrites(c, ws);
  }

  lemma NotifyErrorIgnoresWrites(c: Conn, ws: seq<PendingWrite>)
    ensures c.(pendingWrites := ws).NotifyError() == c.NotifyError().(pendingWrites := ws)
  {
    hide MayFollow;
  }

  lemma WriteRoundKeepsInv(c: Conn, cfg: Config, i: nat, ok: bool)
    requires Inv(c, cfg) && i < |c.pendingWrites| && c.pendingWrites[i].handlers != []
    ensures Inv(WriteRound(c, i, ok), cfg)
  {
    hide AfterWrite, WriteRound, Conn.NotifyError, ListsInv, StreamsInv, WritesInv;
    var h := c.pendingWrites[i].handlers[0];
    FirstWrittenInWriteList(c, cfg, i);
    SentInv(c.handlers[h], ok);
    WriteRoundParts(c, cfg, i, ok);
    var r := AfterWrite(c.handlers[h], ok);
    WrittenKeepsLists(c.pendingWrites, c.pendingReads, c.handlers, c.pendingSize, i, r);
    if WriteFails(c.handlers[h], ok) {
      ReleaseKeepsStreams(c.streams, c.handlers, cfg.maxStreams, c.handlers[h].stream, r);
    } else {
      UpdateKeepsStreams(c.streams, c.handlers, cfg.maxStreams, h, r);
    }
  }

  lemma RemoveAtKeepsWrites(ws: seq<PendingWrite>, i: nat, size: int)
    requires i < |ws| && WritesInv(ws, size) && ws[i].handlers == []
    ensures WritesInv(RemoveAt(ws, i), size - ws[i].size) && SameLists(ws, RemoveAt(ws, i))
  {
    var ws' := RemoveAt(ws, i);
    forall h ensures Listed(ws', h) == Listed(ws, h) { ListedRemoveAt(ws, i, h); }
    ListedRemoveAt(ws, i, 0);
  }

  lemma WriteEndKeepsInv(c: Conn, cfg: Config, i: nat)
    requires Inv(c, cfg) && i < |c.pendingWrites| && c.pendingWrites[i].handlers == []
    ensures Inv(WriteEnd(c, cfg, i), cfg)
  {
    hide Shrink, Flush, ListsInv, StreamsInv, WritesInv;
    var ws := RemoveAt(c.pendingWrites, i);
    RemoveAtKeepsWrites(c.pendingWrites, i, c.pendingSize);
    SameListsKeepInv(c.pendingWrites, ws, c.pendingReads, c.handlers);
    ShrinkParts(c, cfg, c.pendingWrites[i].size);
    FlushKeepsInv(Shrink(c, cfg, c.pendingWrites[i].size).(pendingWrites := ws), cfg);
  }

  lemma StateKeepsInv(c: Conn, d: Conn, cfg: Config)
    requires Inv(c, cfg)
    requires d == c.(state := d.state, started := d.started, balance := d.balance, asserted := d.asserted)
    ensures Inv(d, cfg)
  {
  }

  lemma StepKeepsInv(c: Conn, cfg: Config, ev: Event)
    requires Inv(c, cfg) && Enabled(c, cfg, ev) && !ev.EvClosed?
    ensures Inv(Step(c, cfg, ev), cfg)
  {
    hide Inv;
    match ev
    case EvWrite(h, stream, encoded, flush) => WriteKeepsInv(c, cfg, h, stream, encoded, flush);
    case EvFlush => FlushKeepsInv(c, cfg);
    case EvResponse(stream, m) => ResponseKeepsInv(c, cfg, stream, m);
    case EvTimer(h) => TimerKeepsInv(c, cfg, h);
    case EvReset(h) => ResetKeepsInv(c, cfg, h);
    case EvWriteRound(i, ok) => WriteRoundKeepsInv(c, cfg, i, ok);
    case EvWriteEnd(i) => WriteEndKeepsInv(c, cfg, i);
    case EvConnect | EvConnected | EvRegister | EvNotifyReady | EvClose(_) | EvBadInput =>
      StateOnly(c, cfg, ev);
      StateKeepsInv(c, Step(c, cfg, ev), cfg);
    case EvClosed =>
  }

  lemma StateOnly(c: Conn, cfg: Config, ev: Event)
    requires Enabled(c, cfg, ev)
    requires ev.EvConnect? || ev.EvConnected? || ev.EvRegister? || ev.EvNotifyReady? || ev.EvClose? || ev.EvBadInput?
    ensures
      var d := Step(c, cfg, ev);
      d == c.(state := d.state, started := d.started, balance := d.balance, asserted := d.asserted)
  {
    hide Conn.SetState;
    SetStateParts(c, Connecting);
    SetStateParts(c, Connected);
    SetStateParts(c, RegisteringEvents);
    SetStateParts(c.(started := true), Ready);
    SetStateParts(c, Close);
    SetStateParts(c, CloseDefunct);
  }

  lemma WriteStaysOpen(c: Conn, cfg: Config, h: HandlerId, stream: int, encoded: int, flush: bool)
    ensures Write(c, cfg, h, stream, encoded, flush).closed == c.closed
  {
    hide Accept;
    var d := c.(pendingWrites := Opened(c.pendingWrites));
    if encoded >= 0 { AcceptParts(d, cfg, h, stream, encoded); }
    FlushParts(Enqueue(c, cfg, h, stream, encoded));
  }

  lemma ResponseStaysOpen(c: Conn, stream: int, m: Message)
    ensures Response(c, stream, m).closed == c.closed
  {
    hide Answered, Conn.NotifyError;
    NotifyErrorParts(c);
  }

  lemma WriteRoundStaysOpen(c: Conn, i: nat, ok: bool)
    requires i < |c.pendingWrites| && c.pendingWrites[i].handlers != []
    ensures WriteRound(c, i, ok).closed == c.closed
    ensures WriteRound(c, i, ok).pendingWrites == Popped(c.pendingWrites, i)
    ensures c.state != CNew ==> WriteRound(c, i, ok).state != CNew
  {
    hide AfterWrite;
  }

  lemma WriteEndParts(c: Conn, cfg: Config, i: nat)
    requires i < |c.pendingWrites|
    ensures WriteEnd(c, cfg, i).closed == c.closed && WriteEnd(c, cfg, i).handlers == c.handlers
  {
    hide Shrink;
    ShrinkParts(c, cfg, c.pendingWrites[i].size);
    FlushParts(Shrink(c, cfg, c.pendingWrites[i].size).(pendingWrites := RemoveAt(c.pendingWrites, i)));
  }

  lemma StepStaysOpen(c: Conn, cfg: Config, ev: Event)
    requires Enabled(c, cfg, ev) && !ev.EvClosed?
    ensures !Step(c, cfg, ev).closed
  {
    hide Write, Flush, Response, TimerFires, WriteRound, WriteEnd;
    match ev
    case EvWrite(h, stream, encoded, flush) => WriteStaysOpen(c, cfg, h, stream, encoded, flush);
    case EvFlush => FlushParts(c);
    case EvResponse(stream, m) => ResponseStaysOpen(c, stream, m);
    case EvTimer(h) => assert TimerFires(c, h) == c.With(h, Expired(c.At(h))) by { TimerIs(c, h); }
    case EvReset(h) =>
    case EvWriteRound(i, ok) => WriteRoundStaysOpen(c, i, ok);
    case EvWriteEnd(i) => WriteEndParts(c, cfg, i);
    case EvConnect | EvConnected | EvRegister | EvNotifyReady | EvClose(_) | EvBadInput => StateOnly(c, cfg, ev);
    case EvClosed =>
  }

  lemma TimerIs(c: Conn, h: HandlerId)
    ensures TimerFires(c, h) == c.With(h, Expired(c.At(h)))
  {
  }

  // ---------- Closing ----------

  /** Cleaning a list without repetitions cleans each of its handlers once and nothing else. */
  lemma {:induction false} CleanupOnce(hs: Handlers, pending: seq<HandlerId>)
    requires forall k :: Count(pending, k) <= 1
    requires forall k :: Count(pending, k) == 1 ==> k in hs
    ensures Cleanup(hs, pending).Keys == hs.Keys
    ensures forall k :: k in hs ==>
              Cleanup(hs, pending)[k] == if Count(pending, k) == 1 then Cleaned(hs[k]) else hs[k]
    decreases |pending|
  {
    if pending != [] {
      var hs' := hs[pending[0] := Cleaned(Find(hs, pending[0]))];
      assert Count(pending, pending[0]) == 1 + Count(pending[1..], pending[0]);
      forall k ensures Count(pending[1..], k) == Count(pending, k) - (if k == pending[0] then 1 else 0) {}
      CleanupOnce(hs', pending[1..]);
    }
  }

  /** A handler that the connection is done with; one that was reset too early can keep its reference. */
  ghost predicate Finished(r: Handler) { r.Calls() == 1 && !r.timer && (r.asserted || r.refs == 0) }

  ghost predicate Final(c: Conn) {
    && c.closed && c.pendingWrites == [] && c.pendingReads == []
    && forall h :: h in c.handlers ==> Finished(c.handlers[h])
  }

  lemma FlatInv(c: Conn, cfg: Config, h: HandlerId)
    requires Inv(c, cfg)
    ensures if h in c.handlers then HandlerInv(c.handlers[h], Count(Flat(c.pendingWrites), h), Count(c.pendingReads, h))
            else Count(Flat(c.pendingWrites), h) == 0 && Count(c.pendingReads, h) == 0
  {
    ListedFlat(c.pendingWrites, h);
    assert ListsInvAt(c.pendingWrites, c.pendingReads, c.handlers, h);
  }

  /** `on_close` cleans the handlers that are listed, once each, and no others. */
  lemma OnCloseHandlers(c: Conn, cfg: Config)
    requires Inv(c, cfg)
    ensures OnClose(c).handlers.Keys == c.handlers.Keys
    ensures forall h :: h in c.handlers ==>
              OnClose(c).handlers[h] ==
                if h in Flat(c.pendingWrites) || h in c.pendingReads then Cleaned(c.handlers[h]) else c.handlers[h]
  {
    var reading, writing := c.pendingReads, Flat(c.pendingWrites);
    forall h
      ensures Count(reading, h) + Count(writing, h) <= 1
      ensures h !in c.handlers ==> Count(reading, h) == 0 && Count(writing, h) == 0
      ensures Count(reading, h) > 0 <==> h in reading
      ensures Count(writing, h) > 0 <==> h in writing
    {
      FlatInv(c, cfg, h);
      CountMember(reading, h);
      CountMember(writing, h);
    }
    CleanupOnce(c.handlers, reading);
    CleanupOnce(Cleanup(c.handlers, reading), writing);
  }

  lemma OnCloseFinal(c: Conn, cfg: Config)
    requires Inv(c, cfg)
    ensures Final(OnClose(c))
  {
    OnCloseHandlers(c, cfg);
    forall h | h in c.handlers ensures Finished(OnClose(c).handlers[h]) {
      FlatInv(c, cfg, h);
      CountMember(c.pendingReads, h);
      CountMember(Flat(c.pendingWrites), h);
    }
  }

  // ---------- Whole runs ----------

  lemma InitInv(cfg: Config)
    ensures Inv(Init, cfg)
  {
    forall h ensures ListsInvAt([], [], Init.handlers, h) {}
    forall h ensures StreamOf(Init.streams, Init.handlers, h) {}
    forall s ensures OwnerOf(Init.streams, Init.handlers, cfg.maxStreams, s) {}
  }

  /** Nothing follows the close callback. */
  lemma ClosedIsLast(c: Conn, cfg: Config, evs: seq<Event>)
    requires evs != [] && evs[0].EvClosed? && ValidRun(c, cfg, evs)
    ensures evs[1..] == [] && Run(c, cfg, evs) == OnClose(c)
  {
    var d := Step(c, cfg, evs[0]);
    assert forall ev :: !Enabled(d, cfg, ev);
  }

  lemma {:induction false} RunKeepsInv(c: Conn, cfg: Config, evs: seq<Event>)
    requires Inv(c, cfg) && !c.closed && ValidRun(c, cfg, evs)
    ensures var d := Run(c, cfg, evs); if d.closed then Final(d) else Inv(d, cfg)
    decreases |evs|
  {
    hide Inv, Final, Step;
    if evs != [] {
      var d := Step(c, cfg, evs[0]);
      if evs[0].EvClosed? {
        OnCloseFinal(c, cfg);
        ClosedIsLast(c, cfg, evs);
      } else {
        StepKeepsInv(c, cfg, evs[0]);
        StepStaysOpen(c, cfg, evs[0]);
        RunKeepsInv(d, cfg, evs[1..]);
      }
    }
  }

  // ---------- Assertions about handlers ----------

  /** A prepare handler resets a request whose write callback is still to come. */
  predicate ResetsEarly(c: Conn, ev: Event, h: HandlerId) {
    ev == EvReset(h) && c.At(h).state == ReadBeforeWrite
  }

  predicate AssertedAt(hs: Handlers, h: HandlerId) { h in hs && hs[h].asserted }

  lemma WriteAsserts(c: Conn, cfg: Config, g: HandlerId, stream: int, encoded: int, flush: bool, h: HandlerId)
    requires g !in c.handlers
    ensures AssertedAt(Write(c, cfg, g, stream, encoded, flush).handlers, h) <==> AssertedAt(c.handlers, h)
  {
    hide Accept;
    var d := c.(pendingWrites := Opened(c.pendingWrites));
    if encoded >= 0 { AcceptParts(d, cfg, g, stream, encoded); }
    FlushParts(Enqueue(c, cfg, g, stream, encoded));
  }

  lemma ResponseAsserts(c: Conn, cfg: Config, stream: int, m: Message, h: HandlerId)
    requires Inv(c, cfg)
    ensures AssertedAt(Response(c, stream, m).handlers, h) <==> AssertedAt(c.handlers, h)
  {
    hide Inv, Answered, HandlerInv, Conn.NotifyError;
    NotifyErrorParts(c);
    if !Undeliverable(c, stream, m) && stream >= 0 {
      var g := c.streams[stream];
      OwnerWaits(c, cfg, stream);
      AnsweredInv(c.handlers[g], m, Listed(c.pendingWrites, g), Count(c.pendingReads, g));
    }
  }

  lemma TimerAsserts(c: Conn, cfg: Config, g: HandlerId, h: HandlerId)
    requires Inv(c, cfg) && Enabled(c, cfg, EvTimer(g))
    ensures AssertedAt(TimerFires(c, g).handlers, h) <==> AssertedAt(c.handlers, h)
  {
    hide Expired, HandlerInv;
    assert ListsInvAt(c.pendingWrites, c.pendingReads, c.handlers, g);
    ExpiredInv(c.handlers[g], Listed(c.pendingWrites, g), Count(c.pendingReads, g));
  }

  lemma ResetAsserts(c: Conn, cfg: Config, g: HandlerId, h: HandlerId)
    requires Inv(c, cfg) && Enabled(c, cfg, EvReset(g))
    ensures AssertedAt(c.With(g, c.At(g).Reset()).handlers, h) <==>
            AssertedAt(c.handlers, h) || ResetsEarly(c, EvReset(g), h)
  {
    hide Handler.Reset, HandlerInv;
    assert ListsInvAt(c.pendingWrites, c.pendingReads, c.handlers, g);
    ResetInv(c.handlers[g], Listed(c.pendingWrites, g), Count(c.pendingReads, g));
  }

  lemma WriteRoundAsserts(c: Conn, cfg: Config, i: nat, ok: bool, h: HandlerId)
    requires Inv(c, cfg) && i < |c.pendingWrites| && c.pendingWrites[i].handlers != []
    ensures AssertedAt(WriteRound(c, i, ok).handlers, h) <==> AssertedAt(c.handlers, h)
  {
    hide Inv, AfterWrite, WriteRound, HandlerInv;
    FirstWrittenInWriteList(c, cfg, i);
    SentInv(c.handlers[c.pendingWrites[i].handlers[0]], ok);
    WriteRoundParts(c, cfg, i, ok);
  }

  lemma CloseAsserts(c: Conn, cfg: Config, h: HandlerId)
    requires Inv(c, cfg)
    ensures AssertedAt(OnClose(c).handlers, h) <==> AssertedAt(c.handlers, h)
  {
    OnCloseHandlers(c, cfg);
    FlatInv(c, cfg, h);
    CountMember(c.pendingReads, h);
    CountMember(Flat(c.pendingWrites), h);
  }

  /** A step makes an assertion about a handler fire exactly if it resets the handler before its write callback. */
  lemma HandlerAssertsOnEarlyReset(c: Conn, cfg: Config, ev: Event, h: HandlerId)
    requires Inv(c, cfg) && Enabled(c, cfg, ev)
    ensures AssertedAt(Step(c, cfg, ev).handlers, h) <==> AssertedAt(c.handlers, h) || ResetsEarly(c, ev, h)
  {
    hide Inv, Write, Flush, Response, TimerFires, WriteRound, WriteEnd, OnClose, AssertedAt;
    match ev
    case EvWrite(g, stream, encoded, flush) => WriteAsserts(c, cfg, g, stream, encoded, flush, h);
    case EvResponse(stream, m) => ResponseAsserts(c, cfg, stream, m, h);
    case EvTimer(g) => TimerAsserts(c, cfg, g, h);
    case EvReset(g) => ResetAsserts(c, cfg, g, h);
    case EvWriteRound(i, ok) => WriteRoundAsserts(c, cfg, i, ok, h);
    case EvWriteEnd(i) => WriteEndParts(c, cfg, i);
    case EvFlush => FlushParts(c);
    case EvClosed => CloseAsserts(c, cfg, h);
    case EvConnect | EvConnected | EvRegister | EvNotifyReady | EvClose(_) | EvBadInput => StateOnly(c, cfg, ev);
  }

  lemma {:induction false} RunAssertsHandler(c: Conn, cfg: Config, evs: seq<Event>, h: HandlerId)
    requires Inv(c, cfg) && !c.closed && ValidRun(c, cfg, evs)
    ensures AssertedAt(Run(c, cfg, evs).handlers, h) <==>
            AssertedAt(c.handlers, h) || Occurs(c, cfg, evs, (d, ev) => ResetsEarly(d, ev, h))
    decreases |evs|
  {
    hide Inv, Step, ResetsEarly, AssertedAt;
    if evs != [] {
      var d := Step(c, cfg, evs[0]);
      HandlerAssertsOnEarlyReset(c, cfg, evs[0], h);
      if evs[0].EvClosed? {
        ClosedIsLast(c, cfg, evs);
      } else {
        StepKeepsInv(c, cfg, evs[0]);
        StepStaysOpen(c, cfg, evs[0]);
        RunAssertsHandler(d, cfg, evs[1..], h);
      }
    }
  }

  /** The run resets `h` when its write callback is still to come. */
  ghost predicate ResetEarly(cfg: Config, evs: seq<Event>, h: HandlerId)
    requires ValidRun(Init, cfg, evs)
  {
    Occurs(Init, cfg, evs, (c, ev) => ResetsEarly(c, ev, h))
  }

  /** Main result.  In every run no handler gets more than one callback, and an assertion about a handler fires exactly
      if a prepare handler resets it before its write callback; when the connection has closed, every handler it was
      given has had exactly one callback and its timer is stopped, and its reference has been dropped unless it was
      reset so early. */
  lemma ExactlyOnce(cfg: Config, evs: seq<Event>, h: HandlerId)
    requires ValidRun(Init, cfg, evs) && h in Run(Init, cfg, evs).handlers
    ensures
      var c := Run(Init, cfg, evs);
      var r := c.handlers[h];
      && (r.asserted <==> ResetEarly(cfg, evs, h))
      && r.Calls() <= 1
      && (c.closed ==> r.Calls() == 1 && !r.timer && (!ResetEarly(cfg, evs, h) ==> r.refs == 0))
  {
    InitInv(cfg);
    RunKeepsInv(Init, cfg, evs);
    RunAssertsHandler(Init, cfg, evs, h);
    var c := Run(Init, cfg, evs);
    if !c.closed {
      assert ListsInvAt(c.pendingWrites, c.pendingReads, c.handlers, h);
    }
  }

  /** In every reachable state of an open connection the state of a handler says in which list it is, whether
      its timer runs and whether a stream is reserved for it; only one that was reset early can be in a write list
      against its state. */
  lemma StateSaysWhere(cfg: Config, evs: seq<Event>, h: HandlerId)
    requires ValidRun(Init, cfg, evs)
    requires h in Run(Init, cfg, evs).handlers && !Run(Init, cfg, evs).closed
    ensures
      var c := Run(Init, cfg, evs);
      var r := c.handlers[h];
      var writing := exists i :: 0 <= i < |c.pendingWrites| && h in c.pendingWrites[i].handlers;
      && (InWriteList(r.state) ==> writing)
      && (writing ==> InWriteList(r.state) || ResetEarly(cfg, evs, h))
      && (InReadList(r.state) <==> h in c.pendingReads)
      && (r.timer <==> r.state == Writing || r.state == Reading)
      && (HoldsStream(r.state) <==> exists s :: s in c.streams && c.streams[s] == h)
  {
    InitInv(cfg);
    RunKeepsInv(Init, cfg, evs);
    RunAssertsHandler(Init, cfg, evs, h);
    var c := Run(Init, cfg, evs);
    assert ListsInvAt(c.pendingWrites, c.pendingReads, c.handlers, h);
    ListedExists(c.pendingWrites, h);
    CountMember(c.pendingReads, h);
    assert StreamOf(c.streams, c.handlers, h);
    if s :| s in c.streams && c.streams[s] == h {
      assert OwnerOf(c.streams, c.handlers, cfg.maxStreams, s);
    }
  }

  lemma {:induction false} CountMember(s: seq<HandlerId>, h: HandlerId)
    ensures Count(s, h) > 0 <==> h in s
  {
    if s != [] {
      CountMember(s[1..], h);
    }
  }

  lemma {:induction false} ListedExists(ws: seq<PendingWrite>, h: HandlerId)
    ensures Listed(ws, h) > 0 <==> exists i :: 0 <= i < |ws| && h in ws[i].handlers
  {
    if ws != [] {
      CountMember(ws[0].handlers, h);
      ListedExists(ws[1..], h);
      if i :| 0 <= i < |ws[1..]| && h in ws[1..][i].handlers {
        assert h in ws[i + 1].handlers;
      }
      if i :| 0 <= i < |ws| && h in ws[i].handlers {
        assert i > 0 ==> h in ws[1..][i - 1].handlers;
      }
    }
  }

  /** Two handlers that wait for a response never share a stream, so a late response cannot reach the wrong
      request. */
  lemma StreamsAreNotShared(cfg: Config, evs: seq<Event>, h: HandlerId, k: HandlerId)
    requires ValidRun(Init, cfg, evs) && !Run(Init, cfg, evs).closed
    requires h in Run(Init, cfg, evs).handlers && HoldsStream(Run(Init, cfg, evs).handlers[h].state)
    requires k in Run(Init, cfg, evs).handlers && HoldsStream(Run(Init, cfg, evs).handlers[k].state)
    requires h != k
    ensures Run(Init, cfg, evs).handlers[h].stream != Run(Init, cfg, evs).handlers[k].stream
  {
    InitInv(cfg);
    RunKeepsInv(Init, cfg, evs);
    var c := Run(Init, cfg, evs);
    assert StreamOf(c.streams, c.handlers, h) && StreamOf(c.streams, c.handlers, k);
  }

  // ---------- Assertions about the connection's own state ----------

  /** A write exceeds the high water mark outside READY and OVERWHELMED. */
  predicate WritesOver(c: Conn, cfg: Config, ev: Event) {
    && ev.EvWrite? && ev.encoded >= 0 && c.pendingSize + ev.encoded > cfg.high
    && c.state != Ready && c.state != Overwhelmed
  }

  /** Start-up completes on a connection that is already closing. */
  predicate StartsLate(c: Conn, ev: Event) { ev.EvNotifyReady? && c.IsClosing() }

  /** Start-up completes while more than the high water mark is queued. */
  predicate StartsOver(c: Conn, cfg: Config, ev: Event) {
    ev.EvNotifyReady? && !c.IsClosing() && c.pendingSize > cfg.high
  }

  /** `d` agrees with `c` in what the water marks, the notices and the assertions of the connection depend on. */
  predicate SameState(c: Conn, d: Conn) {
    && c.state == d.state && c.pendingSize == d.pendingSize && c.asserted == d.asserted
    && c.started == d.started && c.balance == d.balance
  }

  lemma FlushState(c: Conn)
    ensures SameState(c, Flush(c))
  {
  }

  lemma WriteState(c: Conn, cfg: Config, h: HandlerId, stream: int, encoded: int, flush: bool)
    ensures SameState(if encoded < 0 then c else Grow(c, cfg, encoded), Write(c, cfg, h, stream, encoded, flush))
  {
    hide Grow, Accept, Flush;
    var d := c.(pendingWrites := Opened(c.pendingWrites));
    if encoded >= 0 {
      AcceptParts(d, cfg, h, stream, encoded);
      GrowParts(c, cfg, encoded);
      GrowParts(d, cfg, encoded);
    }
    FlushState(Enqueue(c, cfg, h, stream, encoded));
  }

  lemma ResponseState(c: Conn, stream: int, m: Message)
    ensures SameState(if Undeliverable(c, stream, m) then c.NotifyError() else c, Response(c, stream, m))
  {
    hide Answered, Conn.NotifyError;
  }

  lemma WriteRoundState(c: Conn, cfg: Config, i: nat, ok: bool)
    requires Inv(c, cfg) && i < |c.pendingWrites| && c.pendingWrites[i].handlers != []
    ensures SameState(c, WriteRound(c, i, ok)) || SameState(c.NotifyError(), WriteRound(c, i, ok))
  {
    hide Inv, WriteRound, Conn.NotifyError;
    WriteRoundParts(c, cfg, i, ok);
    NotifyErrorParts(c);
  }

  lemma WriteEndState(c: Conn, cfg: Config, i: nat)
    requires i < |c.pendingWrites|
    ensures SameState(Shrink(c, cfg, c.pendingWrites[i].size), WriteEnd(c, cfg, i))
  {
    hide Shrink, Flush;
    FlushState(Shrink(c, cfg, c.pendingWrites[i].size).(pendingWrites := RemoveAt(c.pendingWrites, i)));
  }

  /** Every step acts on the state of the connection as one of a few transitions. */
  function StateStep(c: Conn, cfg: Config, ev: Event, failed: bool): Conn
    requires Enabled(c, cfg, ev)
  {
    match ev
    case EvConnect => if c.state == CNew then c.SetState(Connecting) else c
    case EvConnected => c.SetState(Connected)
    case EvRegister => c.SetState(RegisteringEvents)
    case EvNotifyReady => c.(started := true).SetState(Ready)
    case EvClose(defunct) => c.InternalClose(if defunct then CloseDefunct else Close)
    case EvWrite(_, _, encoded, _) => if encoded < 0 then c else Grow(c, cfg, encoded)
    case EvResponse(stream, m) => if Undeliverable(c, stream, m) then c.NotifyError() else c
    case EvBadInput => c.NotifyError()
    case EvWriteRound(_, _) => if failed then c.NotifyError() else c
    case EvWriteEnd(i) => Shrink(c, cfg, c.pendingWrites[i].size)
    case _ => c
  }

  lemma StepState(c: Conn, cfg: Config, ev: Event) returns (failed: bool)
    requires Inv(c, cfg) && Enabled(c, cfg, ev)
    ensures SameState(StateStep(c, cfg, ev, failed), Step(c, cfg, ev))
  {
    hide Inv, Write, Grow, Flush, Shrink, Response, WriteRound, WriteEnd, Conn.SetState, Conn.NotifyError;
    failed := false;
    match ev
    case EvWrite(h, stream, encoded, flush) => WriteState(c, cfg, h, stream, encoded, flush);
    case EvFlush => FlushState(c);
    case EvResponse(stream, m) => ResponseState(c, stream, m);
    case EvWriteRound(i, ok) =>
      WriteRoundState(c, cfg, i, ok);
      failed := !SameState(c, WriteRound(c, i, ok));
    case EvWriteEnd(i) => WriteEndState(c, cfg, i);
    case _ =>
  }

  lemma StateStepFaults(c: Conn, cfg: Config, ev: Event, failed: bool)
    requires Enabled(c, cfg, ev)
    ensures StateStep(c, cfg, ev, failed).asserted <==> c.asserted || WritesOver(c, cfg, ev) || StartsLate(c, ev)
  {
  }

  lemma StepAsserts(c: Conn, cfg: Config, ev: Event)
    requires Inv(c, cfg) && Enabled(c, cfg, ev)
    ensures Step(c, cfg, ev).asserted <==> c.asserted || WritesOver(c, cfg, ev) || StartsLate(c, ev)
  {
    hide Inv, Step, StateStep;
    var failed := StepState(c, cfg, ev);
    StateStepFaults(c, cfg, ev, failed);
  }

  lemma {:induction false} RunAsserts(c: Conn, cfg: Config, evs: seq<Event>)
    requires Inv(c, cfg) && !c.closed && ValidRun(c, cfg, evs)
    ensures Run(c, cfg, evs).asserted <==>
            c.asserted || Occurs(c, cfg, evs, (d, ev) => WritesOver(d, cfg, ev) || StartsLate(d, ev))
    decreases |evs|
  {
    hide Inv, Step, WritesOver, StartsLate;
    if evs != [] {
      StepAsserts(c, cfg, evs[0]);
      if evs[0].EvClosed? {
        ClosedIsLast(c, cfg, evs);
      } else {
        StepKeepsInv(c, cfg, evs[0]);
        StepStaysOpen(c, cfg, evs[0]);
        RunAsserts(Step(c, cfg, evs[0]), cfg, evs[1..]);
      }
    }
  }

  /** The two ways to make an assertion about the state of the connection fire: start-up completes on a connection that
      is already closing, or a write exceeds the high water mark outside READY and OVERWHELMED. */
  lemma AssertsExactlyOnFault(cfg: Config, evs: seq<Event>)
    requires ValidRun(Init, cfg, evs)
    ensures Run(Init, cfg, evs).asserted <==>
            Occurs(Init, cfg, evs, (c, ev) => WritesOver(c, cfg, ev) || StartsLate(c, ev))
  {
    InitInv(cfg);
    RunAsserts(Init, cfg, evs);
  }

  // ---------- Availability ----------

  /** What the listener has not been told of the connection being ready or not. */
  function Untold(c: Conn): int { (if c.state == Ready then 1 else 0) - c.balance }

  lemma StateStepTells(c: Conn, cfg: Config, ev: Event, failed: bool)
    requires Enabled(c, cfg, ev)
    ensures Untold(StateStep(c, cfg, ev, failed)) == Untold(c) + if StartsLate(c, ev) then 1 else 0
    ensures StateStep(c, cfg, ev, failed).started <==> c.started || ev.EvNotifyReady?
  {
  }

  lemma StepTells(c: Conn, cfg: Config, ev: Event)
    requires Inv(c, cfg) && Enabled(c, cfg, ev)
    ensures Untold(Step(c, cfg, ev)) == Untold(c) + if StartsLate(c, ev) then 1 else 0
    ensures Step(c, cfg, ev).started <==> c.started || ev.EvNotifyReady?
    ensures ev.EvNotifyReady? ==> !c.started
  {
    hide Inv, Step, StateStep;
    var failed := StepState(c, cfg, ev);
    StateStepTells(c, cfg, ev, failed);
  }

  lemma {:induction false} RunTells(c: Conn, cfg: Config, evs: seq<Event>)
    requires Inv(c, cfg) && !c.closed && ValidRun(c, cfg, evs)
    ensures
      var late := Occurs(c, cfg, evs, (d, ev) => StartsLate(d, ev));
      Untold(Run(c, cfg, evs)) == Untold(c) + (if late then 1 else 0) && (c.started ==> !late)
    decreases |evs|
  {
    hide Inv, Step, Untold;
    if evs != [] {
      StepTells(c, cfg, evs[0]);
      if evs[0].EvClosed? {
        ClosedIsLast(c, cfg, evs);
      } else {
        StepKeepsInv(c, cfg, evs[0]);
        StepStaysOpen(c, cfg, evs[0]);
        RunTells(Step(c, cfg, evs[0]), cfg, evs[1..]);
      }
    }
  }

  /** The listener has been told once more that the connection is available than that it is not while it is ready, and
      as often while it is not, unless its start-up was completed when it was already closing: then one notice that it
      is not available has come without the other. */
  lemma NoticesBalance(cfg: Config, evs: seq<Event>)
    requires ValidRun(Init, cfg, evs)
    ensures
      var c := Run(Init, cfg, evs);
      c.balance == (if c.state == Ready then 1 else 0)
                   - if Occurs(Init, cfg, evs, (d, ev) => StartsLate(d, ev)) then 1 else 0
  {
    InitInv(cfg);
    RunTells(Init, cfg, evs);
  }

  // ---------- Back-pressure ----------

  /** What the water marks are for. */
  ghost predicate Pressed(c: Conn, cfg: Config) {
    && (c.state == Overwhelmed ==> c.pendingSize >= cfg.low)
    && (c.state == Ready ==> c.pendingSize <= cfg.high)
  }

  /** In every state of the run. */
  ghost predicate AlwaysPressed(c: Conn, cfg: Config, evs: seq<Event>)
    requires ValidRun(c, cfg, evs)
    decreases |evs|
  {
    Pressed(c, cfg) && (evs == [] || AlwaysPressed(Step(c, cfg, evs[0]), cfg, evs[1..]))
  }

  ghost predicate PressureInv(c: Conn, cfg: Config) {
    Pressed(c, cfg) && (c.state != Overwhelmed && !c.IsClosing() ==> c.pendingSize <= cfg.high)
  }

  lemma StateStepPressure(c: Conn, cfg: Config, ev: Event, failed: bool)
    requires Enabled(c, cfg, ev) && PressureInv(c, cfg) && cfg.low <= cfg.high
    ensures
      var d := StateStep(c, cfg, ev, failed);
      if StartsOver(c, cfg, ev) then !Pressed(d, cfg) else PressureInv(d, cfg)
  {
  }

  lemma StepPressure(c: Conn, cfg: Config, ev: Event)
    requires Inv(c, cfg) && Enabled(c, cfg, ev) && PressureInv(c, cfg) && cfg.low <= cfg.high
    ensures
      var d := Step(c, cfg, ev);
      if StartsOver(c, cfg, ev) then !Pressed(d, cfg) else PressureInv(d, cfg)
  {
    hide Inv, Step, StateStep;
    var failed := StepState(c, cfg, ev);
    StateStepPressure(c, cfg, ev, failed);
  }

  lemma {:induction false} RunPressure(c: Conn, cfg: Config, evs: seq<Event>)
    requires Inv(c, cfg) && !c.closed && ValidRun(c, cfg, evs) && PressureInv(c, cfg) && cfg.low <= cfg.high
    ensures AlwaysPressed(c, cfg, evs) <==> !Occurs(c, cfg, evs, (d, ev) => StartsOver(d, cfg, ev))
    decreases |evs|
  {
    hide Inv, Step, Pressed, StartsOver;
    if evs != [] {
      var d := Step(c, cfg, evs[0]);
      StepPressure(c, cfg, evs[0]);
      if evs[0].EvClosed? {
        ClosedIsLast(c, cfg, evs);
      } else {
        StepKeepsInv(c, cfg, evs[0]);
        StepStaysOpen(c, cfg, evs[0]);
        if !StartsOver(c, cfg, evs[0]) { RunPressure(d, cfg, evs[1..]); }
      }
    }
  }

  /** In every run in which the water marks are in order: an overwhelmed connection always has at least the low mark
      queued and a ready one at most the high mark, exactly if start-up is not completed while more than the high mark
      is queued. */
  lemma BackPressure(cfg: Config, evs: seq<Event>)
    requires ValidRun(Init, cfg, evs) && cfg.low <= cfg.high
    ensures AlwaysPressed(Init, cfg, evs) <==> !Occurs(Init, cfg, evs, (c, ev) => StartsOver(c, cfg, ev))
  {
    InitInv(cfg);
    RunPressure(Init, cfg, evs);
  }

  /** Before start-up is complete, a connection whose writes kept below the high mark is neither ready nor
      overwhelmed. */
  ghost predicate StartInv(c: Conn, cfg: Config) {
    c.started || c.IsClosing() || (c.state != Ready && c.state != Overwhelmed && c.pendingSize <= cfg.high)
  }

  lemma StateStepStart(c: Conn, cfg: Config, ev: Event, failed: bool)
    requires Enabled(c, cfg, ev) && StartInv(c, cfg) && !WritesOver(c, cfg, ev)
    ensures StartInv(StateStep(c, cfg, ev, failed), cfg) && !StartsOver(c, cfg, ev)
  {
  }

  lemma StepStart(c: Conn, cfg: Config, ev: Event)
    requires Inv(c, cfg) && Enabled(c, cfg, ev) && StartInv(c, cfg) && !WritesOver(c, cfg, ev)
    ensures StartInv(Step(c, cfg, ev), cfg) && !StartsOver(c, cfg, ev)
  {
    hide Inv, Step, StateStep;
    var failed := StepState(c, cfg, ev);
    StateStepStart(c, cfg, ev, failed);
  }

  lemma {:induction false} SmallStart(c: Conn, cfg: Config, evs: seq<Event>)
    requires Inv(c, cfg) && !c.closed && ValidRun(c, cfg, evs) && StartInv(c, cfg)
    requires !Occurs(c, cfg, evs, (d, ev) => WritesOver(d, cfg, ev))
    ensures !Occurs(c, cfg, evs, (d, ev) => StartsOver(d, cfg, ev))
    decreases |evs|
  {
    hide Inv, Step, StartInv, WritesOver, StartsOver;
    if evs != [] {
      StepStart(c, cfg, evs[0]);
      if evs[0].EvClosed? {
        ClosedIsLast(c, cfg, evs);
      } else {
        StepKeepsInv(c, cfg, evs[0]);
        StepStaysOpen(c, cfg, evs[0]);
        SmallStart(Step(c, cfg, evs[0]), cfg, evs[1..]);
      }
    }
  }

  /** So the marks work if no write exceeds the high mark outside READY and OVERWHELMED. */
  lemma SmallStartUpKeepsPressure(cfg: Config, evs: seq<Event>)
    requires ValidRun(Init, cfg, evs) && cfg.low <= cfg.high
    requires !Occurs(Init, cfg, evs, (c, ev) => WritesOver(c, cfg, ev))
    ensures AlwaysPressed(Init, cfg, evs)
  {
    InitInv(cfg);
    SmallStart(Init, cfg, evs);
    RunPressure(Init, cfg, evs);
  }

  /** In every run of an open connection the byte counter is the sum of the queued writes, and only the last write can
      still be open. */
  lemma BytesAreQueued(cfg: Config, evs: seq<Event>)
    requires ValidRun(Init, cfg, evs) && !Run(Init, cfg, evs).closed
    ensures
      var c := Run(Init, cfg, evs);
      && c.pendingSize == TotalSize(c.pendingWrites)
      && (forall i :: 0 <= i < |c.pendingWrites| && c.pendingWrites[i].progress.Open? ==> i == |c.pendingWrites| - 1)
  {
    InitInv(cfg);
    RunKeepsInv(Init, cfg, evs);
  }

  // ---------- Runs that show what can go wrong ----------

  lemma RunCons(c: Conn, cfg: Config, ev: Event, evs: seq<Event>)
    requires Enabled(c, cfg, ev) && ValidRun(Step(c, cfg, ev), cfg, evs)
    ensures ValidRun(c, cfg, [ev] + evs) && Run(c, cfg, [ev] + evs) == Run(Step(c, cfg, ev), cfg, evs)
  {
    assert ([ev] + evs)[1..] == evs;
  }

  const FIRST_CONNECTED := Init.(state := Connected)

  const FIRST_READY := FIRST_CONNECTED.(state := Ready, started := true, balance := 1)

  /** A connection that has not written anything. */
  predicate IsUnused(b: Conn) { b == FIRST_CONNECTED || b == FIRST_READY }

  /** The connection with its first request, of `size` bytes, which has been sent or waits for `flush`. */
  function FirstWritten(b: Conn, size: nat, sent: bool): Conn {
    b.(pendingWrites := [PendingWrite([0], size, if sent then Sent else Open)], streams := map[0 := 0],
       handlers := map[0 := Acquired(0).(state := Writing, timer := true)], pendingSize := size)
  }

  lemma WritesFirst(b: Conn, cfg: Config, size: nat, flush: bool)
    requires IsUnused(b) && size <= cfg.high && cfg.maxStreams > 0
    ensures Enabled(b, cfg, EvWrite(0, 0, size, flush))
    ensures Step(b, cfg, EvWrite(0, 0, size, flush)) == FirstWritten(b, size, flush)
  {
    hide Grow;
    var open := PendingWrite([], 0, Open);
    assert Opened([]) == [open];
    assert open.handlers + [0] == [0];
    assert [open][0 := PendingWrite([0], size, Open)] == [PendingWrite([0], size, Open)];
    GrowParts(b.(pendingWrites := [open]), cfg, size);
    AcceptParts(b.(pendingWrites := [open]), cfg, 0, 0, size);
    var d, r := Enqueue(b, cfg, 0, 0, size), Acquired(0).(state := Writing, timer := true);
    assert map[][0 := 0] == map[0 := 0] && map[][0 := r] == map[0 := r];
    assert d == FirstWritten(b, size, false);
  }

  lemma Connects(b: Conn, cfg: Config, evs: seq<Event>) returns (all: seq<Event>)
    requires IsUnused(b) && ValidRun(b, cfg, evs)
    ensures ValidRun(Init, cfg, all) && Run(Init, cfg, all) == Run(b, cfg, evs)
  {
    all := evs;
    if b != FIRST_CONNECTED {
      assert Step(FIRST_CONNECTED, cfg, EvNotifyReady) == b;
      RunCons(FIRST_CONNECTED, cfg, EvNotifyReady, all);
      all := [EvNotifyReady] + all;
    }
    var c1 := Step(Init, cfg, EvConnect);
    assert Step(c1, cfg, EvConnected) == FIRST_CONNECTED;
    RunCons(c1, cfg, EvConnected, all);
    RunCons(Init, cfg, EvConnect, [EvConnected] + all);
    all := [EvConnect] + ([EvConnected] + all);
  }

  lemma ConnectsAndWrites(b: Conn, cfg: Config, size: nat, flush: bool, evs: seq<Event>) returns (all: seq<Event>)
    requires IsUnused(b) && size <= cfg.high && cfg.maxStreams > 0
    requires ValidRun(FirstWritten(b, size, flush), cfg, evs)
    ensures ValidRun(Init, cfg, all) && Run(Init, cfg, all) == Run(FirstWritten(b, size, flush), cfg, evs)
  {
    var w := EvWrite(0, 0, size, flush);
    WritesFirst(b, cfg, size, flush);
    RunCons(b, cfg, w, evs);
    all := Connects(b, cfg, [w] + evs);
  }

  /** While the first request of the start-up is outstanding, one read delivers a response for an unknown stream, which
      closes the connection, and then the response that completes start-up. */
  lemma StartUpAfterErrorAsserts(cfg: Config, size: nat) returns (evs: seq<Event>)
    requires size <= cfg.high && cfg.maxStreams > 0
    ensures ValidRun(Init, cfg, evs) && Run(Init, cfg, evs).asserted && Run(Init, cfg, evs).balance == -1
  {
    var c := FirstWritten(FIRST_CONNECTED, size, true);
    var unknown, answer := EvResponse(1, Answer), EvResponse(0, Answer);
    var c1 := Step(c, cfg, unknown);
    assert c1 == c.(state := CloseDefunct);
    var c2 := Step(c1, cfg, answer);
    assert c2.state == CloseDefunct && !c2.started && !c2.closed && c2.balance == 0;
    RunCons(c2, cfg, EvNotifyReady, []);
    RunCons(c1, cfg, answer, [EvNotifyReady]);
    evs := [answer] + [EvNotifyReady];
    RunCons(c, cfg, unknown, evs);
    evs := ConnectsAndWrites(FIRST_CONNECTED, cfg, size, true, [unknown] + evs);
  }

  /** The first request alone exceeds the high water mark, and start-up is completed before it has been written: the
      connection is ready with more than the high mark queued. */
  lemma LargeStartUpRequestAsserts(cfg: Config) returns (evs: seq<Event>)
    requires cfg.maxStreams > 0
    ensures ValidRun(Init, cfg, evs)
    ensures
      var c := Run(Init, cfg, evs);
      c.asserted && c.state == Ready && c.pendingSize == cfg.high + 1
  {
    hide Write, Grow;
    var w := EvWrite(0, 0, cfg.high + 1, true);
    var c1 := Step(FIRST_CONNECTED, cfg, w);
    WriteState(FIRST_CONNECTED, cfg, 0, 0, cfg.high + 1, true);
    WriteStaysOpen(FIRST_CONNECTED, cfg, 0, 0, cfg.high + 1, true);
    GrowParts(FIRST_CONNECTED, cfg, cfg.high + 1);
    assert c1.state == Overwhelmed && c1.asserted && !c1.started && c1.pendingSize == cfg.high + 1 && !c1.closed;
    RunCons(c1, cfg, EvNotifyReady, []);
    RunCons(FIRST_CONNECTED, cfg, w, [EvNotifyReady]);
    evs := Connects(FIRST_CONNECTED, cfg, [w] + [EvNotifyReady]);
  }

  /** The response to the first request comes before its write callback. */
  lemma FirstAnswered(cfg: Config, size: nat, sent: bool, m: Message) returns (c: Conn)
    ensures Enabled(FirstWritten(FIRST_READY, size, sent), cfg, EvResponse(0, m))
    ensures c == Step(FirstWritten(FIRST_READY, size, sent), cfg, EvResponse(0, m))
    ensures
      var first := FirstWritten(FIRST_READY, size, sent);
      c == first.(streams := map[], handlers := map[0 := Answered(first.handlers[0], m)])
  {
    hide Answered;
    c := Step(FirstWritten(FIRST_READY, size, sent), cfg, EvResponse(0, m));
    assert map[0 := 0] - {0} == map[];
  }

  /** One read delivers the error that the statement of the first request is not prepared, whereupon its preparation is
      written, and the answer to the preparation, which resets the request: both before the write callbacks. */
  lemma EarlyResetAsserts(cfg: Config, size: nat, more: nat) returns (evs: seq<Event>)
    requires size + more <= cfg.high && cfg.maxStreams > 0
    ensures ValidRun(Init, cfg, evs)
    ensures
      var c := Run(Init, cfg, evs);
      0 in c.handlers && c.handlers[0].asserted && !c.closed && !c.asserted
  {
    var c, unprepared := FirstWritten(FIRST_READY, size, true), EvResponse(0, Unprepared);
    var c1 := FirstAnswered(cfg, size, true, Unprepared);
    var rest := PreparedRun(c1, cfg, more);
    RunCons(c, cfg, unprepared, rest);
    evs := ConnectsAndWrites(FIRST_READY, cfg, size, true, [unprepared] + rest);
  }

  lemma PreparedRun(c: Conn, cfg: Config, more: nat) returns (evs: seq<Event>)
    requires c.handlers.Keys == {0} && c.handlers[0].preparing && c.handlers[0].state == ReadBeforeWrite
    requires c.state == Ready && c.streams == map[] && !c.closed && !c.asserted
    requires c.pendingSize + more <= cfg.high && cfg.maxStreams > 0
    ensures ValidRun(c, cfg, evs)
    ensures
      var d := Run(c, cfg, evs);
      0 in d.handlers && d.handlers[0].asserted && !d.closed && !d.asserted
  {
    hide Step, Enabled, Answered;
    var c1 := PrepareWritten(c, cfg, more);
    var c2 := PrepareAnswered(c1, cfg);
    ResetRun(c2, cfg);
    var prepare, prepared, reset := EvWrite(1, 0, more, true), EvResponse(0, Answer), EvReset(0);
    RunCons(c1, cfg, prepared, [reset]);
    RunCons(c, cfg, prepare, [prepared] + [reset]);
    evs := [prepare] + ([prepared] + [reset]);
  }

  /** The preparation, of `more` bytes, is written on the stream that has become free. */
  lemma PrepareWritten(c: Conn, cfg: Config, more: nat) returns (d: Conn)
    requires 0 in c.handlers && 1 !in c.handlers && c.streams == map[] && !c.closed && cfg.maxStreams > 0
    requires c.state == Ready && c.pendingSize + more <= cfg.high
    ensures Enabled(c, cfg, EvWrite(1, 0, more, true)) && d == Step(c, cfg, EvWrite(1, 0, more, true))
    ensures
      && d.state == Ready && d.asserted == c.asserted && !d.closed && d.streams == map[0 := 1]
      && d.handlers == c.handlers[1 := Acquired(0).(state := Writing, timer := true)]
  {
    hide Grow, Flush;
    d := Step(c, cfg, EvWrite(1, 0, more, true));
    var open := c.(pendingWrites := Opened(c.pendingWrites));
    GrowParts(open, cfg, more);
    AcceptParts(open, cfg, 1, 0, more);
    FlushParts(Enqueue(c, cfg, 1, 0, more));
    assert map[][0 := 1] == map[0 := 1];
  }

  lemma PrepareAnswered(c: Conn, cfg: Config) returns (d: Conn)
    requires 1 in c.handlers && c.handlers[1].state == Writing && c.streams == map[0 := 1] && !c.closed
    requires c.state == Ready
    ensures Enabled(c, cfg, EvResponse(0, Answer)) && d == Step(c, cfg, EvResponse(0, Answer))
    ensures
      && d.state == Ready && d.asserted == c.asserted && !d.closed
      && d.handlers == c.handlers[1 := Answered(c.handlers[1], Answer)]
  {
    hide Answered;
    d := Step(c, cfg, EvResponse(0, Answer));
  }

  lemma ResetRun(c: Conn, cfg: Config)
    requires 0 in c.handlers && c.handlers[0].preparing && c.handlers[0].state == ReadBeforeWrite
    requires !c.closed && c.state != CNew && !c.asserted
    ensures ValidRun(c, cfg, [EvReset(0)])
    ensures
      var d := Run(c, cfg, [EvReset(0)]);
      0 in d.handlers && d.handlers[0].asserted && !d.closed && !d.asserted
  {
    RunCons(c, cfg, EvReset(0), []);
    assert [EvReset(0)] + [] == [EvReset(0)];
  }
}
