/**
 The life of a connection pool and its availability for requests (pool.cpp), as a state machine.

 A connection is one of the pool's entries: in `pending` until its start-up is complete, in `connections` from then on
 until it is closed.  What a connection does by itself, and what the event loop calls back, are steps.  The assertion
 on the counter of available connections is recorded when it fails, and execution goes on as in a build without
 assertions.
 */
module PoolSpec {

  /** Overwhelmed connections are over their high mark for writes; they are not available. */
  datatype Conn = Starting | Ready | Overwhelmed | Closing

  datatype PoolState = New | Connecting | WaitingToConnect | Running | ClosingDown | Closed

  datatype Timer = Off | WaitToConnect | PartialReconnect

  datatype Config = Config(core: nat, max: nat, creation: nat, low: nat, high: nat, threshold: nat)
  {
    predicate Valid() { low <= high }

    function Limit(): nat { if core < max then max else core }
  }

  type Request = nat

  datatype Pool = Pool(state: PoolState, connections: seq<Conn>, pending: seq<Conn>, requests: seq<Request>,
                       available: int, isAvailable: bool, critical: bool, cancelReconnect: bool, timer: Timer,
                       asserted: bool,
                       // what has happened: whether CONNECTING was entered, the notices, what the worker was told
                       entered: bool, readyNotices: nat, closedNotices: nat, told: seq<bool>)
  {
    predicate IsClosing() { state.ClosingDown? || state.Closed? }

    predicate Empty() { connections == [] && pending == [] }

    /** How many connections are ready. */
    function ReadyCount(): nat { CountReady(connections) + CountReady(pending) }
  }

  const Fresh := Pool(New, [], [], [], 0, false, false, false, Off, false, false, 0, 0, [])

  function Without<T>(s: seq<T>, i: nat): seq<T>
    requires i < |s|
  {
    s[..i] + s[i + 1..]
  }

  function Repeat<T>(x: T, n: nat): (s: seq<T>)
    ensures |s| == n && forall i :: 0 <= i < n ==> s[i] == x
  {
    seq(n, _ => x)
  }

  function CountReady(conns: seq<Conn>): nat {
    if conns == [] then 0 else (if conns[0].Ready? then 1 else 0) + CountReady(conns[1..])
  }

  // ---------- pool.cpp ----------

  function SetAvailable(p: Pool, on: bool, cfg: Config): Pool {
    if on then
      if !p.isAvailable && p.available > 0 && |p.requests| < cfg.low
      then p.(isAvailable := true, told := p.told + [true])
      else p
    else
      if p.isAvailable then p.(isAvailable := false, told := p.told + [false]) else p
  }

  /** `on_availability_change` for a connection that has become ready. */
  function GainReady(p: Pool, cfg: Config): Pool { SetAvailable(p.(available := p.available + 1), true, cfg) }

  /** `on_availability_change` for a connection that is no longer ready. */
  function LoseReady(p: Pool, cfg: Config): Pool {
    var q := p.(available := p.available - 1, asserted := p.asserted || p.available - 1 < 0);
    if q.available == 0 then SetAvailable(q, false, cfg) else q
  }

  /** What `Connection::set_state` tells the pool when a connection goes from one state to another. */
  function Shift(p: Pool, from: Conn, to: Conn, cfg: Config): Pool {
    if from.Ready? && !to.Ready? then LoseReady(p, cfg)
    else if !from.Ready? && to.Ready? then GainReady(p, cfg)
    else p
  }

  function MaybeNotifyReady(p: Pool): Pool {
    if p.state.Connecting? && p.pending == [] then p.(state := Running, readyNotices := p.readyNotices + 1) else p
  }

  function MaybeClose(p: Pool): Pool {
    if p.state.ClosingDown? && p.Empty() then p.(state := Closed, closedNotices := p.closedNotices + 1) else p
  }

  function Spawn(p: Pool, n: nat): Pool {
    if p.IsClosing() then p else p.(pending := p.pending + Repeat(Starting, n))
  }

  function MaybeSpawn(p: Pool, cfg: Config): Pool {
    if |p.pending| >= cfg.creation || |p.connections| + |p.pending| >= cfg.max || !p.state.Running? then p
    else Spawn(p, 1)
  }

  function MaybeSpawnTimes(p: Pool, n: nat, cfg: Config): Pool {
    if n == 0 then p else MaybeSpawn(MaybeSpawnTimes(p, n - 1, cfg), cfg)
  }

  function Connect(p: Pool, cfg: Config): Pool {
    if p.state.New? || p.state.WaitingToConnect? then
      MaybeNotifyReady(Spawn(p.(timer := Off), cfg.core).(state := Connecting, entered := true))
    else p
  }

  function DelayedConnect(p: Pool): Pool {
    if p.state.New? then p.(state := WaitingToConnect, timer := WaitToConnect) else p
  }

  /** The loops of `close`: every ready connection lowers the counter. */
  function CloseConnections(p: Pool): Pool {
    var left := p.available - p.ReadyCount();
    p.(connections := Repeat(Closing, |p.connections|), pending := Repeat(Closing, |p.pending|),
       available := left, asserted := p.asserted || (p.ReadyCount() > 0 && left < 0))
  }

  function EnterClosing(p: Pool): Pool {
    p.(timer := Off, state := ClosingDown, readyNotices := p.readyNotices + if p.state.Connecting? then 1 else 0)
  }

  function BeginClose(p: Pool, cancel: bool, cfg: Config): Pool {
    CloseConnections(SetAvailable(EnterClosing(p), false, cfg).(cancelReconnect := cancel))
  }

  function Close(p: Pool, cancel: bool, cfg: Config): Pool {
    MaybeClose(if p.IsClosing() then p else BeginClose(p, cancel, cfg))
  }

  /** The outcome of writing a request: no stream, written, or written and now over the high mark. */
  datatype Outcome = NoStream | Written | WrittenOver

  function Return(p: Pool, i: nat, w: Outcome, cfg: Config): Pool
    requires i < |p.connections|
  {
    if !p.connections[i].Ready? || p.requests == [] then p
    else
      var q := SetAvailable(p.(requests := p.requests[1..]), true, cfg);
      if w.WrittenOver? then LoseReady(q.(connections := q.connections[i := Overwhelmed]), cfg) else q
  }

  /** A connection that is closing stays so when its start-up completes. */
  function Started(c: Conn): Conn { if c.Closing? then Closing else Ready }

  /** Start-up is complete: `set_state` tells the pool, with its test for `READY` on the new state it was asked for, so
      that a connection that is closing lowers the counter. */
  function Notice(p: Pool, c: Conn, cfg: Config): Pool {
    if c.Closing? then LoseReady(p, cfg) else Shift(p, c, Ready, cfg)
  }

  function Moved(p: Pool, i: nat): Pool
    requires i < |p.pending|
  {
    p.(pending := Without(p.pending, i), connections := p.connections + [Started(p.pending[i])])
  }

  /** `Connection::notify_ready`, which ends in `Pool::on_ready`. */
  function OnReady(p: Pool, i: nat, w: Outcome, cfg: Config): Pool
    requires i < |p.pending|
  {
    var q := Notice(p, p.pending[i], cfg);
    MaybeNotifyReady(Return(Moved(q, i), |q.connections|, w, cfg))
  }

  /** Why a connection has been closed. */
  datatype Cause = Cause(timeout: bool, defunct: bool, critical: bool)

  /** A defunct connection closes the pool. */
  function Fail(p: Pool, critical: bool, cfg: Config): Pool {
    Close(p.(critical := p.critical || critical), false, cfg)
  }

  /** `on_close` behind the removal of the connection. */
  function OnClosed(p: Pool, cause: Cause, cfg: Config): Pool {
    if cause.timeout && p.connections != [] then
      MaybeNotifyReady(p.(timer := if p.timer.Off? then PartialReconnect else p.timer))
    else if cause.defunct then Fail(p, cause.critical, cfg)
    else MaybeClose(MaybeNotifyReady(p))
  }

  function AddRequest(p: Pool, r: Request, cfg: Config): Pool {
    var q := p.(requests := p.requests + [r]);
    if |q.requests| > cfg.high then SetAvailable(q, false, cfg) else q
  }

  function RequestTimesOut(p: Pool, i: nat, cfg: Config): Pool
    requires i < |p.requests|
  {
    MaybeClose(SetAvailable(p.(requests := Without(p.requests, i)), true, cfg))
  }

  function TimerFires(p: Pool, cfg: Config): Pool {
    var q := p.(timer := Off);
    match p.timer
    case Off => p
    case WaitToConnect => Connect(q, cfg)
    case PartialReconnect =>
      var current := |p.connections| + |p.pending|;
      if current < cfg.core then Spawn(q, cfg.core - current) else q
  }

  /** How busy a connection is, as `find_least_busy` sees it. */
  datatype Load = Load(busy: nat, streams: nat)

  /** The first connection with the fewest pending requests. */
  function LeastBusy(loads: seq<Load>): (least: nat)
    requires loads != []
    ensures least < |loads|
    ensures forall k :: 0 <= k < |loads| ==> loads[least].busy <= loads[k].busy
    ensures forall k :: 0 <= k < least ==> loads[least].busy < loads[k].busy
  {
    if |loads| == 1 then 0
    else
      var l := LeastBusy(loads[..|loads| - 1]);
      if loads[|loads| - 1].busy < loads[l].busy then |loads| - 1 else l
  }

  predicate Usable(p: Pool, loads: seq<Load>, i: nat)
    requires |loads| == |p.connections| && i < |loads|
  {
    p.connections[i].Ready? && loads[i].streams > 0
  }

  /** What `borrow_connection` returns something for. */
  predicate Lends(p: Pool, loads: seq<Load>)
    requires |loads| == |p.connections|
  {
    loads != [] && Usable(p, loads, LeastBusy(loads))
  }

  function Borrow(p: Pool, loads: seq<Load>, cfg: Config): Pool
    requires |loads| == |p.connections|
  {
    if p.connections == [] then MaybeSpawnTimes(p, cfg.core, cfg)
    else
      var l := LeastBusy(loads);
      if !Usable(p, loads, l) || loads[l].busy >= cfg.threshold then MaybeSpawn(p, cfg) else p
  }

  // ---------- Runs ----------

  datatype Step =
    | ConnectCall
    | DelayedConnectCall
    | CloseCall(cancel: bool)
    | BorrowCall(loads: seq<Load>)
    | ReturnCall(at: nat, outcome: Outcome)
    | WaitCall(request: Request)
    | RequestTimer(at: nat)
    | ConnectTimer
    | BecomeReady(at: nat, outcome: Outcome) // a pending connection has completed its start-up
    | LateReady(at: nat)                     // and here it was already closing
    | ConnChange(at: nat, to: Conn)    // a connection changes its state by itself
    | PendingChange(at: nat, to: Conn) // a pending one does
    | CloseDone(at: nat, cause: Cause) // the close callback
    | PendingCloseDone(at: nat, cause: Cause)

  /** Writes overwhelm a connection and their completion relieves it, also during its start-up; it closes once. */
  predicate MayBecome(from: Conn, to: Conn) {
    match to
    case Starting => false
    case Ready => from.Overwhelmed?
    case Overwhelmed => from.Starting? || from.Ready?
    case Closing => !from.Closing?
  }

  predicate Enabled(p: Pool, s: Step) {
    match s
    case BorrowCall(loads) => |loads| == |p.connections|
    case ReturnCall(i, _) => i < |p.connections|
    case RequestTimer(i) => i < |p.requests|
    case ConnectTimer => !p.timer.Off?
    case BecomeReady(i, _) => i < |p.pending| && !p.pending[i].Closing?
    case LateReady(i) => i < |p.pending| && p.pending[i].Closing?
    case ConnChange(i, c) => i < |p.connections| && MayBecome(p.connections[i], c)
    case PendingChange(i, c) => i < |p.pending| && MayBecome(p.pending[i], c)
    case CloseDone(i, _) => i < |p.connections| && p.connections[i].Closing?
    case PendingCloseDone(i, _) => i < |p.pending| && p.pending[i].Closing?
    case _ => true
  }

  /** A connection in `connections` changes its state. */
  function Change(p: Pool, i: nat, c: Conn, cfg: Config): Pool
    requires i < |p.connections|
  {
    Shift(p.(connections := p.connections[i := c]), p.connections[i], c, cfg)
  }

  /** One of `pending` does. */
  function ChangePending(p: Pool, i: nat, c: Conn, cfg: Config): Pool
    requires i < |p.pending|
  {
    Shift(p.(pending := p.pending[i := c]), p.pending[i], c, cfg)
  }

  function Next(p: Pool, s: Step, cfg: Config): Pool
    requires Enabled(p, s)
  {
    match s
    case ConnectCall => Connect(p, cfg)
    case DelayedConnectCall => DelayedConnect(p)
    case CloseCall(cancel) => Close(p, cancel, cfg)
    case BorrowCall(loads) => Borrow(p, loads, cfg)
    case ReturnCall(i, w) => Return(p, i, w, cfg)
    case WaitCall(r) => AddRequest(p, r, cfg)
    case RequestTimer(i) => RequestTimesOut(p, i, cfg)
    case ConnectTimer => TimerFires(p, cfg)
    case BecomeReady(i, w) => OnReady(p, i, w, cfg)
    case LateReady(i) => OnReady(p, i, NoStream, cfg)
    case ConnChange(i, c) => Change(p, i, c, cfg)
    case PendingChange(i, c) => ChangePending(p, i, c, cfg)
    case CloseDone(i, cause) => OnClosed(p.(connections := Without(p.connections, i)), cause, cfg)
    case PendingCloseDone(i, cause) => OnClosed(p.(pending := Without(p.pending, i)), cause, cfg)
  }

  ghost predicate ValidRun(p: Pool, cfg: Config, steps: seq<Step>)
    decreases |steps|
  {
    steps == [] || (Enabled(p, steps[0]) && ValidRun(Next(p, steps[0], cfg), cfg, steps[1..]))
  }

  ghost function Run(p: Pool, cfg: Config, steps: seq<Step>): Pool
    requires ValidRun(p, cfg, steps)
    decreases |steps|
  {
    if steps == [] then p else Run(Next(p, steps[0], cfg), cfg, steps[1..])
  }

  function IsLate(s: Step): nat { if s.LateReady? then 1 else 0 }

  /** How many connections complete their start-up when they are already closing. */
  function CountLate(steps: seq<Step>): nat {
    if steps == [] then 0 else IsLate(steps[0]) + CountLate(steps[1..])
  }

  // ---------- The invariant ----------

  /** The counter misses one connection for each that was late. */
  ghost predicate Counted(available: int, connections: seq<Conn>, pending: seq<Conn>, late: nat) {
    available == CountReady(connections) + CountReady(pending) - late
  }

  ghost predicate Bounded(connections: seq<Conn>, pending: seq<Conn>, cfg: Config) {
    |connections| + |pending| <= cfg.Limit()
  }

  ghost predicate Placed(connections: seq<Conn>) { forall c :: c in connections ==> !c.Starting? }

  /** Availability with its two marks: between them it stays as it is. */
  ghost predicate Hysteresis(isAvailable: bool, available: int, waiting: nat, cfg: Config) {
    && (isAvailable ==> available > 0 && waiting <= cfg.high)
    && (available > 0 && waiting < cfg.low ==> isAvailable)
  }

  /** The worker is told of every change and of nothing else. */
  ghost predicate ToldAll(isAvailable: bool, told: seq<bool>) {
    && (told != [] ==> told[0])
    && (forall i, j :: 0 <= i < j < |told| && j == i + 1 ==> told[i] != told[j])
    && isAvailable == (told != [] && told[|told| - 1])
  }

  /** What the state says about the connections, apart from what `Settled` adds. */
  ghost predicate StateMatches(state: PoolState, connections: seq<Conn>, pending: seq<Conn>, timer: Timer) {
    && (state.New? ==> connections == [] && pending == [] && timer.Off?)
    && (state.WaitingToConnect? ==> connections == [] && pending == [] && timer.WaitToConnect?)
    && (state.ClosingDown? ==> forall c :: c in connections || c in pending ==> c.Closing?)
    && (state.Closed? ==> connections == [] && pending == [])
    && (timer.WaitToConnect? ==> state.WaitingToConnect?)
  }

  /** What `maybe_notify_ready` and `maybe_close` establish. */
  ghost predicate Settled(state: PoolState, connections: seq<Conn>, pending: seq<Conn>) {
    && (state.Connecting? ==> pending != [])
    && (state.ClosingDown? ==> connections != [] || pending != [])
  }

  ghost predicate Notified(state: PoolState, entered: bool, readyNotices: nat, closedNotices: nat) {
    && readyNotices == (if entered && !state.Connecting? then 1 else 0)
    && closedNotices == (if state.Closed? then 1 else 0)
    && (state.New? || state.WaitingToConnect? ==> !entered)
    && (state.Connecting? || state.Running? ==> entered)
  }

  /** The invariant without `Settled`. */
  ghost predicate Sound(p: Pool, late: nat, cfg: Config) {
    && Counted(p.available, p.connections, p.pending, late)
    && Bounded(p.connections, p.pending, cfg)
    && Placed(p.connections)
    && Hysteresis(p.isAvailable, p.available, |p.requests|, cfg)
    && ToldAll(p.isAvailable, p.told)
    && StateMatches(p.state, p.connections, p.pending, p.timer)
    && Notified(p.state, p.entered, p.readyNotices, p.closedNotices)
  }

  ghost predicate Inv(p: Pool, late: nat, cfg: Config) {
    Sound(p, late, cfg) && Settled(p.state, p.connections, p.pending)
  }

  // ---------- Counting ----------

  lemma {:induction false} CountAppend(a: seq<Conn>, b: seq<Conn>)
    ensures CountReady(a + b) == CountReady(a) + CountReady(b)
  {
    if a == [] {
      assert a + b == b;
    } else {
      assert (a + b)[1..] == a[1..] + b;
      CountAppend(a[1..], b);
    }
  }

  lemma CountAt(conns: seq<Conn>, i: nat)
    requires i < |conns|
    ensures CountReady(conns) == CountReady(Without(conns, i)) + if conns[i].Ready? then 1 else 0
  {
    assert conns == conns[..i] + conns[i..];
    assert conns[i..][0] == conns[i] && conns[i..][1..] == conns[i + 1..];
    CountAppend(conns[..i], conns[i..]);
    CountAppend(conns[..i], conns[i + 1..]);
  }

  lemma CountUpdate(conns: seq<Conn>, i: nat, c: Conn)
    requires i < |conns|
    ensures CountReady(conns[i := c]) ==
              CountReady(conns) - (if conns[i].Ready? then 1 else 0) + if c.Ready? then 1 else 0
  {
    CountAt(conns, i);
    CountAt(conns[i := c], i);
    assert Without(conns[i := c], i) == Without(conns, i);
  }

  lemma {:induction false} CountNone(conns: seq<Conn>)
    requires forall i :: 0 <= i < |conns| ==> !conns[i].Ready?
    ensures CountReady(conns) == 0
  {
    if conns != [] {
      CountNone(conns[1..]);
    }
  }

  // ---------- The parts of a step ----------

  lemma SetKeeps(p: Pool, on: bool, cfg: Config)
    requires ToldAll(p.isAvailable, p.told)
    ensures
      var q := SetAvailable(p, on, cfg);
      q == p.(isAvailable := q.isAvailable, told := q.told) && ToldAll(q.isAvailable, q.told)
  {
  }

  /** What a change of the counter keeps: availability is told and has its hysteresis, and nothing else changes. */
  ghost predicate Recounted(p: Pool, q: Pool, available: int, cfg: Config) {
    && q == p.(available := available, isAvailable := q.isAvailable, told := q.told, asserted := q.asserted)
    && ToldAll(q.isAvailable, q.told) && Hysteresis(q.isAvailable, available, |q.requests|, cfg)
  }

  lemma LoseKeeps(p: Pool, cfg: Config)
    requires ToldAll(p.isAvailable, p.told) && Hysteresis(p.isAvailable, p.available, |p.requests|, cfg)
    ensures Recounted(p, LoseReady(p, cfg), p.available - 1, cfg)
  {
    var q := p.(available := p.available - 1, asserted := p.asserted || p.available - 1 < 0);
    SetKeeps(q, false, cfg);
  }

  lemma GainKeeps(p: Pool, cfg: Config)
    requires cfg.Valid()
    requires ToldAll(p.isAvailable, p.told) && Hysteresis(p.isAvailable, p.available, |p.requests|, cfg)
    ensures Recounted(p, GainReady(p, cfg), p.available + 1, cfg)
  {
    SetKeeps(p.(available := p.available + 1), true, cfg);
  }

  lemma ShiftKeeps(p: Pool, from: Conn, to: Conn, cfg: Config)
    requires cfg.Valid()
    requires ToldAll(p.isAvailable, p.told) && Hysteresis(p.isAvailable, p.available, |p.requests|, cfg)
    ensures Recounted(p, Shift(p, from, to, cfg), p.available - CountReady([from]) + CountReady([to]), cfg)
  {
    if from.Ready? && !to.Ready? {
      LoseKeeps(p, cfg);
    } else if !from.Ready? && to.Ready? {
      GainKeeps(p, cfg);
    }
  }

  lemma ShiftKeepsSound(p: Pool, late: nat, from: Conn, to: Conn, cfg: Config)
    requires cfg.Valid()
    requires Counted(p.available - CountReady([from]) + CountReady([to]), p.connections, p.pending, late)
    requires Bounded(p.connections, p.pending, cfg) && Placed(p.connections)
    requires Hysteresis(p.isAvailable, p.available, |p.requests|, cfg) && ToldAll(p.isAvailable, p.told)
    requires StateMatches(p.state, p.connections, p.pending, p.timer)
    requires Notified(p.state, p.entered, p.readyNotices, p.closedNotices)
    ensures Sound(Shift(p, from, to, cfg), late, cfg)
    ensures SameConnections(p, Shift(p, from, to, cfg))
  {
    ShiftKeeps(p, from, to, cfg);
  }

  ghost predicate SameConnections(p: Pool, q: Pool) {
    q.state == p.state && q.connections == p.connections && q.pending == p.pending && q.requests == p.requests
  }

  lemma ChangeKeepsSound(p: Pool, late: nat, i: nat, c: Conn, cfg: Config)
    requires Sound(p, late, cfg) && cfg.Valid() && i < |p.connections|
    requires !c.Starting? && (p.IsClosing() ==> c.Closing?)
    ensures Sound(Change(p, i, c, cfg), late, cfg)
    ensures SameConnections(p.(connections := p.connections[i := c]), Change(p, i, c, cfg))
  {
    var q := p.(connections := p.connections[i := c]);
    CountUpdate(p.connections, i, c);
    UpdateIsFrom(p.connections, i, c);
    assert StateMatches(q.state, q.connections, q.pending, q.timer);
    ShiftKeepsSound(q, late, p.connections[i], c, cfg);
  }

  lemma ChangePendingKeepsSound(p: Pool, late: nat, i: nat, c: Conn, cfg: Config)
    requires Sound(p, late, cfg) && cfg.Valid() && i < |p.pending| && (p.IsClosing() ==> c.Closing?)
    ensures Sound(ChangePending(p, i, c, cfg), late, cfg)
    ensures SameConnections(p.(pending := p.pending[i := c]), ChangePending(p, i, c, cfg))
  {
    var q := p.(pending := p.pending[i := c]);
    CountUpdate(p.pending, i, c);
    UpdateIsFrom(p.pending, i, c);
    assert StateMatches(q.state, q.connections, q.pending, q.timer);
    ShiftKeepsSound(q, late, p.pending[i], c, cfg);
  }

  lemma UpdateIsFrom(conns: seq<Conn>, i: nat, c: Conn)
    requires i < |conns|
    ensures conns[i := c] != [] && conns != []
    ensures forall d :: d in conns[i := c] ==> d == c || d in conns
  {
  }

  lemma ReleaseKeepsSound(p: Pool, late: nat, requests: seq<Request>, cfg: Config)
    requires Sound(p, late, cfg) && cfg.Valid() && |requests| < |p.requests|
    ensures
      var q := SetAvailable(p.(requests := requests), true, cfg);
      Sound(q, late, cfg) && q == p.(requests := requests, isAvailable := q.isAvailable, told := q.told)
  {
    SetKeeps(p.(requests := requests), true, cfg);
  }

  lemma ReturnIsChange(p: Pool, i: nat, w: Outcome, cfg: Config)
    requires i < |p.connections| && p.connections[i].Ready? && p.requests != []
    ensures
      var q := SetAvailable(p.(requests := p.requests[1..]), true, cfg);
      Return(p, i, w, cfg) == if w.WrittenOver? then Change(q, i, Overwhelmed, cfg) else q
  {
  }

  lemma ReturnKeepsSound(p: Pool, late: nat, i: nat, w: Outcome, cfg: Config)
    requires Sound(p, late, cfg) && cfg.Valid() && i < |p.connections|
    ensures
      var q := Return(p, i, w, cfg);
      && Sound(q, late, cfg)
      && q.state == p.state && q.pending == p.pending && |q.connections| == |p.connections|
  {
    if p.connections[i].Ready? && p.requests != [] {
      assert p.connections[i] in p.connections;
      ReleaseKeepsSound(p, late, p.requests[1..], cfg);
      ReturnIsChange(p, i, w, cfg);
      if w.WrittenOver? {
        ChangeKeepsSound(SetAvailable(p.(requests := p.requests[1..]), true, cfg), late, i, Overwhelmed, cfg);
      }
    }
  }

  lemma AddKeepsInv(p: Pool, late: nat, r: Request, cfg: Config)
    requires Inv(p, late, cfg) && cfg.Valid()
    ensures Inv(AddRequest(p, r, cfg), late, cfg)
  {
    SetKeeps(p.(requests := p.requests + [r]), false, cfg);
  }

  lemma SpawnKeepsSound(p: Pool, late: nat, n: nat, cfg: Config)
    requires Sound(p, late, cfg) && (p.state.Connecting? || p.state.Running? || p.IsClosing())
    requires |p.connections| + |p.pending| + n <= cfg.Limit()
    ensures Sound(Spawn(p, n), late, cfg)
  {
    CountAppend(p.pending, Repeat(Starting, n));
    CountNone(Repeat(Starting, n));
  }

  lemma {:induction false} MaybeSpawnTimesKeepsInv(p: Pool, late: nat, n: nat, cfg: Config)
    requires Inv(p, late, cfg)
    ensures Inv(MaybeSpawnTimes(p, n, cfg), late, cfg)
  {
    if n > 0 {
      MaybeSpawnTimesKeepsInv(p, late, n - 1, cfg);
      var q := MaybeSpawnTimes(p, n - 1, cfg);
      if MaybeSpawn(q, cfg) != q {
        SpawnKeepsSound(q, late, 1, cfg);
      }
    }
  }

  lemma NotifySettles(p: Pool, late: nat, cfg: Config)
    requires Sound(p, late, cfg)
    ensures Sound(MaybeNotifyReady(p), late, cfg)
    ensures p.state.ClosingDown? ==> MaybeNotifyReady(p) == p
    ensures !p.state.ClosingDown? ==> Inv(MaybeNotifyReady(p), late, cfg)
  {
  }

  /** A pool with a connection is not closed by it. */
  lemma NotifySettlesNonEmpty(p: Pool, late: nat, cfg: Config)
    requires Sound(p, late, cfg) && p.connections != []
    ensures Inv(MaybeNotifyReady(p), late, cfg)
  {
    NotifySettles(p, late, cfg);
  }

  lemma MaybeCloseSettles(p: Pool, late: nat, cfg: Config)
    requires Sound(p, late, cfg)
    ensures Sound(MaybeClose(p), late, cfg)
    ensures !p.state.ClosingDown? ==> MaybeClose(p) == p
    ensures p.state.ClosingDown? ==> Inv(MaybeClose(p), late, cfg)
  {
  }

  lemma BeginCloseKeepsSound(p: Pool, late: nat, cancel: bool, cfg: Config)
    requires Sound(p, late, cfg) && !p.IsClosing()
    ensures Sound(BeginClose(p, cancel, cfg), late, cfg)
  {
    SetKeeps(EnterClosing(p), false, cfg);
    CountNone(Repeat(Closing, |p.connections|));
    CountNone(Repeat(Closing, |p.pending|));
    var r := BeginClose(p, cancel, cfg);
    assert Counted(r.available, r.connections, r.pending, late);
    assert StateMatches(r.state, r.connections, r.pending, r.timer);
  }

  lemma CloseKeepsInv(p: Pool, late: nat, cancel: bool, cfg: Config)
    requires Sound(p, late, cfg)
    ensures Inv(Close(p, cancel, cfg), late, cfg)
  {
    if p.IsClosing() {
      MaybeCloseSettles(p, late, cfg);
    } else {
      BeginCloseKeepsSound(p, late, cancel, cfg);
      MaybeCloseSettles(BeginClose(p, cancel, cfg), late, cfg);
    }
  }

  lemma ConnectKeepsInv(p: Pool, late: nat, cfg: Config)
    requires Sound(p, late, cfg) && Settled(p.state, p.connections, p.pending)
    ensures Inv(Connect(p, cfg), late, cfg)
  {
    if p.state.New? || p.state.WaitingToConnect? {
      var q := Spawn(p.(timer := Off), cfg.core).(state := Connecting, entered := true);
      assert p.connections == [] && p.pending == [];
      CountNone(q.pending);
      NotifySettles(q, late, cfg);
    }
  }

  lemma WaitingConnects(p: Pool, cfg: Config)
    requires p.timer.WaitToConnect? && p.state.WaitingToConnect?
    ensures TimerFires(p, cfg) == Connect(p, cfg)
  {
  }

  /** The timer that reconnects is off, and the pool can be in any state behind its start. */
  lemma OffKeepsInv(p: Pool, late: nat, cfg: Config)
    requires Inv(p, late, cfg) && !p.timer.WaitToConnect?
    ensures Inv(p.(timer := Off), late, cfg)
  {
  }

  lemma TimerKeepsInv(p: Pool, late: nat, cfg: Config)
    requires Inv(p, late, cfg)
    ensures Inv(TimerFires(p, cfg), late, cfg)
  {
    var current := |p.connections| + |p.pending|;
    if p.timer.WaitToConnect? {
      hide Connect;
      WaitingConnects(p, cfg);
      ConnectKeepsInv(p, late, cfg);
    } else {
      OffKeepsInv(p, late, cfg);
      if p.timer.PartialReconnect? && current < cfg.core {
        SpawnKeepsSound(p.(timer := Off), late, cfg.core - current, cfg);
      }
    }
  }

  lemma CountMoved(p: Pool, i: nat)
    requires i < |p.pending|
    ensures Moved(p, i).ReadyCount() ==
              p.ReadyCount() - CountReady([p.pending[i]]) + CountReady([Started(p.pending[i])])
  {
    CountAt(p.pending, i);
    CountAppend(p.connections, [Started(p.pending[i])]);
  }

  lemma NoticeKeeps(p: Pool, c: Conn, cfg: Config)
    requires cfg.Valid()
    requires ToldAll(p.isAvailable, p.told) && Hysteresis(p.isAvailable, p.available, |p.requests|, cfg)
    ensures Recounted(p, Notice(p, c, cfg),
                      p.available - CountReady([c]) + CountReady([Started(c)]) - (if c.Closing? then 1 else 0), cfg)
  {
    hide Shift, LoseReady, ToldAll, Hysteresis, Recounted;
    if c.Closing? { LoseKeeps(p, cfg); } else { ShiftKeeps(p, c, Ready, cfg); }
  }

  /** A connection moves from `pending` to `connections`; one that is late takes one more off the counter. */
  lemma MovedKeepsSound(p: Pool, late: nat, i: nat, cfg: Config)
    requires Sound(p, late, cfg) && cfg.Valid() && i < |p.pending|
    ensures
      var c := p.pending[i];
      var q := Notice(p, c, cfg);
      |q.connections| == |p.connections| && Sound(Moved(q, i), late + (if c.Closing? then 1 else 0), cfg)
  {
    hide Notice, ToldAll, Hysteresis, Notified, CountReady;
    var c := p.pending[i];
    assert c in p.pending;
    CountMoved(p, i);
    NoticeKeeps(p, c, cfg);
    WithoutIsFrom(p.pending, i);
    var q, r := Notice(p, c, cfg), Moved(Notice(p, c, cfg), i);
    assert r == Moved(p, i).(available := q.available, isAvailable := q.isAvailable, told := q.told,
                             asserted := q.asserted);
    assert StateMatches(r.state, r.connections, r.pending, r.timer);
  }

  lemma OnReadyKeepsInv(p: Pool, late: nat, i: nat, w: Outcome, cfg: Config)
    requires Inv(p, late, cfg) && cfg.Valid() && i < |p.pending|
    ensures Inv(OnReady(p, i, w, cfg), late + (if p.pending[i].Closing? then 1 else 0), cfg)
  {
    var late' := late + if p.pending[i].Closing? then 1 else 0;
    MovedKeepsSound(p, late, i, cfg);
    var r := Moved(Notice(p, p.pending[i], cfg), i);
    StartedKeepsInv(r, late', |p.connections|, w, cfg);
  }

  lemma StartedKeepsInv(r: Pool, late: nat, i: nat, w: Outcome, cfg: Config)
    requires Sound(r, late, cfg) && cfg.Valid() && i < |r.connections|
    ensures Inv(MaybeNotifyReady(Return(r, i, w, cfg)), late, cfg)
  {
    ReturnKeepsSound(r, late, i, w, cfg);
    NotifySettlesNonEmpty(Return(r, i, w, cfg), late, cfg);
  }

  lemma WithoutIsFrom(conns: seq<Conn>, i: nat)
    requires i < |conns|
    ensures |Without(conns, i)| == |conns| - 1 && forall c :: c in Without(conns, i) ==> c in conns
  {
  }

  lemma FailKeepsInv(p: Pool, late: nat, critical: bool, cfg: Config)
    requires Sound(p, late, cfg)
    ensures Inv(Fail(p, critical, cfg), late, cfg)
  {
    CloseKeepsInv(p.(critical := p.critical || critical), late, false, cfg);
  }

  lemma OnClosedKeepsInv(p: Pool, late: nat, cause: Cause, cfg: Config)
    requires Sound(p, late, cfg)
    ensures Inv(OnClosed(p, cause, cfg), late, cfg)
  {
    if cause.timeout && p.connections != [] {
      NotifySettlesNonEmpty(p.(timer := if p.timer.Off? then PartialReconnect else p.timer), late, cfg);
    } else if cause.defunct {
      FailKeepsInv(p, late, cause.critical, cfg);
    } else {
      NotifySettles(p, late, cfg);
      MaybeCloseSettles(MaybeNotifyReady(p), late, cfg);
    }
  }

  lemma CloseDoneKeepsInv(p: Pool, late: nat, i: nat, cause: Cause, cfg: Config)
    requires Inv(p, late, cfg) && i < |p.connections| && p.connections[i].Closing?
    ensures Inv(OnClosed(p.(connections := Without(p.connections, i)), cause, cfg), late, cfg)
  {
    CountAt(p.connections, i);
    WithoutIsFrom(p.connections, i);
    OnClosedKeepsInv(p.(connections := Without(p.connections, i)), late, cause, cfg);
  }

  lemma PendingCloseDoneKeepsInv(p: Pool, late: nat, i: nat, cause: Cause, cfg: Config)
    requires Inv(p, late, cfg) && i < |p.pending| && p.pending[i].Closing?
    ensures Inv(OnClosed(p.(pending := Without(p.pending, i)), cause, cfg), late, cfg)
  {
    CountAt(p.pending, i);
    WithoutIsFrom(p.pending, i);
    OnClosedKeepsInv(p.(pending := Without(p.pending, i)), late, cause, cfg);
  }

  lemma RequestTimerKeepsInv(p: Pool, late: nat, i: nat, cfg: Config)
    requires Inv(p, late, cfg) && cfg.Valid() && i < |p.requests|
    ensures Inv(RequestTimesOut(p, i, cfg), late, cfg)
  {
    ReleaseKeepsSound(p, late, Without(p.requests, i), cfg);
    MaybeCloseSettles(SetAvailable(p.(requests := Without(p.requests, i)), true, cfg), late, cfg);
  }

  lemma BorrowKeepsInv(p: Pool, late: nat, loads: seq<Load>, cfg: Config)
    requires Inv(p, late, cfg) && |loads| == |p.connections|
    ensures Inv(Borrow(p, loads, cfg), late, cfg)
  {
    MaybeSpawnTimesKeepsInv(p, late, cfg.core, cfg);
    MaybeSpawnTimesKeepsInv(p, late, 1, cfg);
    assert MaybeSpawnTimes(p, 1, cfg) == MaybeSpawn(MaybeSpawnTimes(p, 0, cfg), cfg);
  }

  lemma ChangeKeepsInv(p: Pool, late: nat, i: nat, c: Conn, cfg: Config)
    requires Inv(p, late, cfg) && cfg.Valid() && i < |p.connections| && !p.connections[i].Closing? && !c.Starting?
    ensures Inv(Change(p, i, c, cfg), late, cfg)
  {
    assert p.connections[i] in p.connections;
    ChangeKeepsSound(p, late, i, c, cfg);
  }

  lemma ChangePendingKeepsInv(p: Pool, late: nat, i: nat, c: Conn, cfg: Config)
    requires Inv(p, late, cfg) && cfg.Valid() && i < |p.pending| && !p.pending[i].Closing?
    ensures Inv(ChangePending(p, i, c, cfg), late, cfg)
  {
    assert p.pending[i] in p.pending;
    ChangePendingKeepsSound(p, late, i, c, cfg);
  }

  lemma StepKeepsInv(p: Pool, late: nat, s: Step, cfg: Config)
    requires Inv(p, late, cfg) && cfg.Valid() && Enabled(p, s)
    ensures Inv(Next(p, s, cfg), late + IsLate(s), cfg)
  {
    match s
    case ConnectCall => ConnectKeepsInv(p, late, cfg);
    case DelayedConnectCall =>
    case CloseCall(cancel) => CloseKeepsInv(p, late, cancel, cfg);
    case BorrowCall(loads) => BorrowKeepsInv(p, late, loads, cfg);
    case ReturnCall(i, w) => ReturnKeepsSound(p, late, i, w, cfg);
    case WaitCall(r) => AddKeepsInv(p, late, r, cfg);
    case RequestTimer(i) => RequestTimerKeepsInv(p, late, i, cfg);
    case ConnectTimer => TimerKeepsInv(p, late, cfg);
    case BecomeReady(i, w) => OnReadyKeepsInv(p, late, i, w, cfg);
    case LateReady(i) => OnReadyKeepsInv(p, late, i, NoStream, cfg);
    case ConnChange(i, c) => ChangeKeepsInv(p, late, i, c, cfg);
    case PendingChange(i, c) => ChangePendingKeepsInv(p, late, i, c, cfg);
    case CloseDone(i, cause) => CloseDoneKeepsInv(p, late, i, cause, cfg);
    case PendingCloseDone(i, cause) => PendingCloseDoneKeepsInv(p, late, i, cause, cfg);
  }

  lemma {:induction false} RunKeepsInv(p: Pool, late: nat, cfg: Config, steps: seq<Step>)
    requires Inv(p, late, cfg) && cfg.Valid() && ValidRun(p, cfg, steps)
    ensures Inv(Run(p, cfg, steps), late + CountLate(steps), cfg)
    decreases |steps|
  {
    hide Inv, Next;
    if steps != [] {
      StepKeepsInv(p, late, steps[0], cfg);
      RunKeepsInv(Next(p, steps[0], cfg), late + IsLate(steps[0]), cfg, steps[1..]);
    }
  }

  lemma FreshRunKeepsInv(p: Pool, cfg: Config, steps: seq<Step>)
    requires p == Fresh && cfg.Valid() && ValidRun(p, cfg, steps)
    ensures Inv(Run(p, cfg, steps), CountLate(steps), cfg)
  {
    assert cfg.Limit() >= 0;
    RunKeepsInv(p, 0, cfg, steps);
  }

  // ---------- What holds in every run ----------

  /** The worker hears that the pool is ready once, when the pool leaves CONNECTING for whatever reason, and that it is
      closed once, when it is. */
  lemma NotifiedOnce(p: Pool, cfg: Config, steps: seq<Step>)
    requires p == Fresh && cfg.Valid() && ValidRun(p, cfg, steps)
    ensures
      var q := Run(p, cfg, steps);
      && q.readyNotices == (if q.entered && !q.state.Connecting? then 1 else 0)
      && q.closedNotices == (if q.state.Closed? then 1 else 0)
  {
    FreshRunKeepsInv(p, cfg, steps);
  }

  /** A pool that is closing is closed as soon as its last connection is; one that is connecting has a connection
      that is. */
  lemma ClosesWithLastConnection(p: Pool, cfg: Config, steps: seq<Step>)
    requires p == Fresh && cfg.Valid() && ValidRun(p, cfg, steps)
    ensures
      var q := Run(p, cfg, steps);
      && (q.IsClosing() ==> (q.state.Closed? <==> q.Empty()))
      && (q.state.Connecting? ==> q.pending != [])
  {
    FreshRunKeepsInv(p, cfg, steps);
  }

  lemma ConnectionsBounded(p: Pool, cfg: Config, steps: seq<Step>)
    requires p == Fresh && cfg.Valid() && ValidRun(p, cfg, steps)
    ensures |Run(p, cfg, steps).connections| + |Run(p, cfg, steps).pending| <= cfg.Limit()
  {
    FreshRunKeepsInv(p, cfg, steps);
  }

  /** The counter is the number of ready connections less the number of those that completed their start-up when they
      were already closing, so it is right exactly if none did.  The pool is available only with a ready connection and
      with no more requests waiting than the high mark; it is available if the counter is positive and fewer requests
      wait than the low mark. */
  lemma AvailableWhenItShouldBe(p: Pool, cfg: Config, steps: seq<Step>)
    requires p == Fresh && cfg.Valid() && ValidRun(p, cfg, steps)
    ensures
      var q := Run(p, cfg, steps);
      && q.available == q.ReadyCount() - CountLate(steps)
      && (q.available == q.ReadyCount() <==> CountLate(steps) == 0)
      && (q.isAvailable ==> q.ReadyCount() > CountLate(steps) && |q.requests| <= cfg.high)
      && (q.ReadyCount() > CountLate(steps) && |q.requests| < cfg.low ==> q.isAvailable)
  {
    FreshRunKeepsInv(p, cfg, steps);
  }

  // ---------- The assertion on the counter ----------

  /** The run has a state with fewer ready connections than were late by then. */
  ghost predicate EverShort(p: Pool, late: nat, cfg: Config, steps: seq<Step>)
    requires ValidRun(p, cfg, steps)
    decreases |steps|
  {
    || p.ReadyCount() < late
    || (steps != [] && EverShort(Next(p, steps[0], cfg), late + IsLate(steps[0]), cfg, steps[1..]))
  }

  /** Neither the counter nor its assertion changes. */
  ghost predicate Uncounted(p: Pool, q: Pool) { q.available == p.available && q.asserted == p.asserted }

  /** What has been asserted so far shows in the counter, or was known before. */
  ghost predicate AssertsLike(p: Pool, q: Pool) {
    (p.available < 0 ==> p.asserted) ==> (q.asserted <==> p.asserted || q.available < 0)
  }

  lemma CloseAsserts(p: Pool, cancel: bool, cfg: Config)
    ensures AssertsLike(p, Close(p, cancel, cfg))
  {
  }

  lemma SettlingCountsNothing(p: Pool)
    ensures Uncounted(p, MaybeNotifyReady(p)) && Uncounted(p, MaybeClose(p))
  {
  }

  lemma FailAsserts(p: Pool, critical: bool, cfg: Config)
    ensures AssertsLike(p, Fail(p, critical, cfg))
  {
    CloseAsserts(p.(critical := p.critical || critical), false, cfg);
  }

  lemma OnClosedAsserts(p: Pool, cause: Cause, cfg: Config)
    ensures AssertsLike(p, OnClosed(p, cause, cfg))
  {
    if cause.timeout && p.connections != [] {
      SettlingCountsNothing(p.(timer := if p.timer.Off? then PartialReconnect else p.timer));
    } else if cause.defunct {
      FailAsserts(p, cause.critical, cfg);
    } else {
      SettlingCountsNothing(p);
      SettlingCountsNothing(MaybeNotifyReady(p));
    }
  }

  lemma ReturnAsserts(p: Pool, i: nat, w: Outcome, cfg: Config)
    requires i < |p.connections|
    ensures AssertsLike(p, Return(p, i, w, cfg))
  {
  }

  lemma ShiftAsserts(p: Pool, from: Conn, to: Conn, cfg: Config)
    ensures AssertsLike(p, Shift(p, from, to, cfg)) && AssertsLike(p, LoseReady(p, cfg))
  {
  }

  lemma ChangeAsserts(p: Pool, i: nat, c: Conn, cfg: Config)
    requires i < |p.connections|
    ensures AssertsLike(p, Change(p, i, c, cfg))
  {
    ShiftAsserts(p.(connections := p.connections[i := c]), p.connections[i], c, cfg);
  }

  lemma ChangePendingAsserts(p: Pool, i: nat, c: Conn, cfg: Config)
    requires i < |p.pending|
    ensures AssertsLike(p, ChangePending(p, i, c, cfg))
  {
    ShiftAsserts(p.(pending := p.pending[i := c]), p.pending[i], c, cfg);
  }

  lemma OnReadyAsserts(p: Pool, i: nat, w: Outcome, cfg: Config)
    requires i < |p.pending|
    ensures AssertsLike(p, OnReady(p, i, w, cfg))
  {
    var q := Notice(p, p.pending[i], cfg);
    assert AssertsLike(p, q);
    ReturnAsserts(Moved(q, i), |q.connections|, w, cfg);
  }

  lemma ConnectCountsNothing(p: Pool, cfg: Config)
    ensures Uncounted(p, Connect(p, cfg)) && Uncounted(p, TimerFires(p, cfg))
  {
  }

  lemma RequestsCountNothing(p: Pool, r: Request, i: nat, cfg: Config)
    ensures Uncounted(p, AddRequest(p, r, cfg))
    ensures i < |p.requests| ==> Uncounted(p, RequestTimesOut(p, i, cfg))
  {
  }

  lemma BorrowCountsNothing(p: Pool, loads: seq<Load>, cfg: Config)
    requires |loads| == |p.connections|
    ensures Uncounted(p, Borrow(p, loads, cfg))
  {
    BorrowOnlySpawns(p, loads, cfg);
  }

  lemma StepAsserts(p: Pool, s: Step, cfg: Config)
    requires Enabled(p, s)
    ensures AssertsLike(p, Next(p, s, cfg))
  {
    match s
    case ConnectCall => ConnectCountsNothing(p, cfg);
    case DelayedConnectCall =>
    case CloseCall(cancel) => CloseAsserts(p, cancel, cfg);
    case BorrowCall(loads) => BorrowCountsNothing(p, loads, cfg);
    case WaitCall(r) => RequestsCountNothing(p, r, 0, cfg);
    case RequestTimer(i) => RequestsCountNothing(p, 0, i, cfg);
    case ConnectTimer => ConnectCountsNothing(p, cfg);
    case ReturnCall(i, w) => ReturnAsserts(p, i, w, cfg);
    case BecomeReady(i, w) => OnReadyAsserts(p, i, w, cfg);
    case LateReady(i) => OnReadyAsserts(p, i, NoStream, cfg);
    case ConnChange(i, c) => ChangeAsserts(p, i, c, cfg);
    case PendingChange(i, c) => ChangePendingAsserts(p, i, c, cfg);
    case CloseDone(i, cause) => OnClosedAsserts(p.(connections := Without(p.connections, i)), cause, cfg);
    case PendingCloseDone(i, cause) => OnClosedAsserts(p.(pending := Without(p.pending, i)), cause, cfg);
  }

  ghost predicate EverNegative(p: Pool, cfg: Config, steps: seq<Step>)
    requires ValidRun(p, cfg, steps)
    decreases |steps|
  {
    p.available < 0 || (steps != [] && EverNegative(Next(p, steps[0], cfg), cfg, steps[1..]))
  }

  lemma {:induction false} RunAsserts(p: Pool, cfg: Config, steps: seq<Step>)
    requires ValidRun(p, cfg, steps) && (p.available < 0 ==> p.asserted)
    ensures Run(p, cfg, steps).asserted <==> p.asserted || EverNegative(p, cfg, steps)
    decreases |steps|
  {
    hide Next;
    if steps != [] {
      var q := Next(p, steps[0], cfg);
      StepAsserts(p, steps[0], cfg);
      assert q.asserted <==> p.asserted || q.available < 0;
      RunAsserts(q, cfg, steps[1..]);
    }
  }

  lemma InvCounts(p: Pool, late: nat, cfg: Config)
    requires Inv(p, late, cfg)
    ensures p.available < 0 <==> p.ReadyCount() < late
  {
  }

  lemma {:induction false} NegativeIsShort(p: Pool, late: nat, cfg: Config, steps: seq<Step>)
    requires Inv(p, late, cfg) && cfg.Valid() && ValidRun(p, cfg, steps)
    ensures EverNegative(p, cfg, steps) <==> EverShort(p, late, cfg, steps)
    decreases |steps|
  {
    hide Inv, Next;
    InvCounts(p, late, cfg);
    if steps != [] {
      var q, late' := Next(p, steps[0], cfg), late + IsLate(steps[0]);
      StepKeepsInv(p, late, steps[0], cfg);
      NegativeIsShort(q, late', cfg, steps[1..]);
    }
  }

  /** The assertion that the counter is not negative fails exactly in the runs in which, at some time, more connections
      had been late than were ready. */
  lemma CounterAsserts(p: Pool, cfg: Config, steps: seq<Step>)
    requires p == Fresh && cfg.Valid() && ValidRun(p, cfg, steps)
    ensures Run(p, cfg, steps).asserted <==> EverShort(p, 0, cfg, steps)
  {
    assert cfg.Limit() >= 0;
    RunAsserts(p, cfg, steps);
    NegativeIsShort(p, 0, cfg, steps);
  }

  /** So it never fails if no connection was late. */
  lemma OnTimeNeverAsserts(p: Pool, cfg: Config, steps: seq<Step>)
    requires p == Fresh && cfg.Valid() && ValidRun(p, cfg, steps) && CountLate(steps) == 0
    ensures !Run(p, cfg, steps).asserted
  {
    hide Next;
    CounterAsserts(p, cfg, steps);
    NeverShort(p, cfg, steps);
  }

  lemma {:induction false} NeverShort(p: Pool, cfg: Config, steps: seq<Step>)
    requires ValidRun(p, cfg, steps) && CountLate(steps) == 0
    ensures !EverShort(p, 0, cfg, steps)
    decreases |steps|
  {
    hide Next;
    if steps != [] {
      NeverShort(Next(p, steps[0], cfg), cfg, steps[1..]);
    }
  }

  lemma RunCons(p: Pool, cfg: Config, s: Step, steps: seq<Step>)
    requires Enabled(p, s) && ValidRun(Next(p, s, cfg), cfg, steps)
    ensures ValidRun(p, cfg, [s] + steps) && Run(p, cfg, [s] + steps) == Run(Next(p, s, cfg), cfg, steps)
  {
    hide Next;
    assert ([s] + steps)[1..] == steps;
  }

  /** What the witnesses below look at. */
  ghost predicate Looks(p: Pool, connections: seq<Conn>, pending: seq<Conn>, available: int, asserted: bool) {
    && p.connections == connections && p.pending == pending && p.requests == []
    && p.available == available && p.asserted == asserted && (available == 0 ==> !p.isAvailable)
  }

  lemma ConnectStep(cfg: Config)
    ensures Enabled(Fresh, ConnectCall)
    ensures Looks(Next(Fresh, ConnectCall, cfg), [], Repeat(Starting, cfg.core), 0, false)
  {
  }

  lemma ReadyStep(p: Pool, cfg: Config, pending: seq<Conn>)
    requires Looks(p, p.connections, [Starting] + pending, p.available, p.asserted) && p.available >= 0
    ensures Enabled(p, BecomeReady(0, NoStream))
    ensures Looks(Next(p, BecomeReady(0, NoStream), cfg), p.connections + [Ready], pending, p.available + 1, p.asserted)
  {
    assert Without([Starting] + pending, 0) == pending;
    OnReadyAlone(p, cfg);
    GainLooks(p, cfg);
  }

  lemma GainLooks(p: Pool, cfg: Config)
    requires p.available >= 0
    ensures SameConnections(p, GainReady(p, cfg))
    ensures GainReady(p, cfg).available == p.available + 1 && GainReady(p, cfg).asserted == p.asserted
  {
    SetKeepsConnections(p.(available := p.available + 1), true, cfg);
  }

  lemma LoseLooks(p: Pool, cfg: Config)
    requires p.available == 0 ==> !p.isAvailable
    ensures SameConnections(p, LoseReady(p, cfg))
    ensures
      var q := LoseReady(p, cfg);
      && q.available == p.available - 1 && q.asserted == (p.asserted || p.available < 1)
      && (q.available == 0 ==> !q.isAvailable)
  {
    ShiftKeepsConnections(p, Ready, Closing, cfg);
  }

  /** With no request waiting, a connection that has started only moves. */
  lemma OnReadyAlone(p: Pool, cfg: Config)
    requires p.pending != [] && p.requests == []
    ensures
      var q := Notice(p, p.pending[0], cfg);
      SameConnections(p, q) && OnReady(p, 0, NoStream, cfg) == MaybeNotifyReady(Moved(q, 0))
  {
    ShiftKeepsConnections(p, p.pending[0], Ready, cfg);
  }

  lemma LateStep(p: Pool, cfg: Config)
    requires Looks(p, p.connections, [Starting], p.available, p.asserted)
    ensures Enabled(p, PendingChange(0, Closing))
    ensures
      var q := Next(p, PendingChange(0, Closing), cfg);
      && Enabled(q, LateReady(0))
      && Looks(Next(q, LateReady(0), cfg), p.connections + [Closing], [], p.available - 1,
               p.asserted || p.available < 1)
  {
    assert [Starting][0 := Closing] == [Closing];
    assert Without([Closing], 0) == [];
    var q := Next(p, PendingChange(0, Closing), cfg);
    assert q == p.(pending := [Closing]);
    OnReadyAlone(q, cfg);
    LoseLooks(q, cfg);
  }

  /** A pool of one: the counter becomes negative. */
  lemma LateReadyAsserts(cfg: Config) returns (steps: seq<Step>)
    requires cfg.core == 1
    ensures ValidRun(Fresh, cfg, steps) && Run(Fresh, cfg, steps).asserted
    ensures Run(Fresh, cfg, steps).available == -1
  {
    var p1 := Next(Fresh, ConnectCall, cfg);
    ConnectStep(cfg);
    assert Repeat(Starting, 1) == [Starting];
    steps := LateRun(p1, cfg);
    RunCons(Fresh, cfg, ConnectCall, steps);
    steps := [ConnectCall] + steps;
  }

  lemma LateRun(p: Pool, cfg: Config) returns (steps: seq<Step>)
    requires Looks(p, p.connections, [Starting], p.available, p.asserted)
    ensures ValidRun(p, cfg, steps) && Looks(Run(p, cfg, steps), p.connections + [Closing], [], p.available - 1,
                                             p.asserted || p.available < 1)
  {
    LateStep(p, cfg);
    var q := Next(p, PendingChange(0, Closing), cfg);
    RunCons(q, cfg, LateReady(0), []);
    RunCons(p, cfg, PendingChange(0, Closing), [LateReady(0)]);
    steps := [PendingChange(0, Closing)] + [LateReady(0)];
  }

  lemma ReadyRun(cfg: Config) returns (p: Pool)
    requires cfg.core == 2
    ensures ValidRun(Fresh, cfg, [ConnectCall])
    ensures p == Next(Next(Fresh, ConnectCall, cfg), BecomeReady(0, NoStream), cfg)
    ensures Enabled(Next(Fresh, ConnectCall, cfg), BecomeReady(0, NoStream))
    ensures Looks(p, [Ready], [Starting], 1, false)
  {
    var p1 := Next(Fresh, ConnectCall, cfg);
    ConnectStep(cfg);
    assert Repeat(Starting, 2) == [Starting] + [Starting];
    ReadyStep(p1, cfg, [Starting]);
    assert [] + [Ready] == [Ready];
    p := Next(p1, BecomeReady(0, NoStream), cfg);
    RunCons(Fresh, cfg, ConnectCall, []);
  }

  lemma RunConsTwice(p: Pool, cfg: Config, s: Step, t: Step, steps: seq<Step>)
    requires Enabled(p, s) && Enabled(Next(p, s, cfg), t) && ValidRun(Next(Next(p, s, cfg), t, cfg), cfg, steps)
    ensures ValidRun(p, cfg, [s] + ([t] + steps))
    ensures Run(p, cfg, [s] + ([t] + steps)) == Run(Next(Next(p, s, cfg), t, cfg), cfg, steps)
  {
    hide Next;
    RunCons(Next(p, s, cfg), cfg, t, steps);
    RunCons(p, cfg, s, [t] + steps);
  }

  /** A pool of two: one connection is ready and the pool is not available. */
  lemma LateReadyHidesReady(cfg: Config) returns (steps: seq<Step>)
    requires cfg.core == 2
    ensures ValidRun(Fresh, cfg, steps)
    ensures
      var p := Run(Fresh, cfg, steps);
      p.connections == [Ready, Closing] && p.requests == [] && p.available == 0 && !p.isAvailable && !p.asserted
  {
    var p := ReadyRun(cfg);
    steps := LateRun(p, cfg);
    assert [Ready] + [Closing] == [Ready, Closing];
    RunConsTwice(Fresh, cfg, ConnectCall, BecomeReady(0, NoStream), steps);
    steps := [ConnectCall] + ([BecomeReady(0, NoStream)] + steps);
  }

  // ---------- What the worker is told ----------

  /** The worker is told of changes only, and what it was told last holds. */
  lemma ToldEveryChange(p: Pool, cfg: Config, steps: seq<Step>, i: nat)
    requires p == Fresh && cfg.Valid() && ValidRun(p, cfg, steps)
    ensures
      var q := Run(p, cfg, steps);
      && (0 < i < |q.told| ==> q.told[i] != q.told[i - 1])
      && (i == |q.told| - 1 ==> q.told[i] == q.isAvailable)
  {
    FreshRunKeepsInv(p, cfg, steps);
  }

  lemma {:induction false} MaybeSpawnTimesOnlySpawns(p: Pool, n: nat, cfg: Config)
    ensures
      var q := MaybeSpawnTimes(p, n, cfg);
      q == p.(pending := q.pending) && (!p.state.Running? ==> q == p)
  {
    if n > 0 {
      MaybeSpawnTimesOnlySpawns(p, n - 1, cfg);
    }
  }

  lemma BorrowOnlySpawns(p: Pool, loads: seq<Load>, cfg: Config)
    requires |loads| == |p.connections|
    ensures
      var q := Borrow(p, loads, cfg);
      q == p.(pending := q.pending) && (!p.state.Running? ==> q == p)
  {
    MaybeSpawnTimesOnlySpawns(p, cfg.core, cfg);
  }

  ghost predicate EnablesBelow(p: Pool, q: Pool, cfg: Config) {
    !p.isAvailable && q.isAvailable ==> |q.requests| < cfg.low
  }

  lemma ReturnEnablesBelow(p: Pool, i: nat, w: Outcome, cfg: Config)
    requires i < |p.connections|
    ensures EnablesBelow(p, Return(p, i, w, cfg), cfg)
  {
  }

  lemma NoticeEnablesBelow(p: Pool, c: Conn, cfg: Config)
    ensures EnablesBelow(p, Notice(p, c, cfg), cfg)
    ensures Notice(p, c, cfg).requests == p.requests
  {
  }

  lemma OnReadyEnablesBelow(p: Pool, i: nat, w: Outcome, cfg: Config)
    requires i < |p.pending|
    ensures EnablesBelow(p, OnReady(p, i, w, cfg), cfg)
  {
    var q := Notice(p, p.pending[i], cfg);
    NoticeEnablesBelow(p, p.pending[i], cfg);
    StartedEnablesBelow(Moved(q, i), |q.connections|, w, cfg);
  }

  lemma StartedEnablesBelow(r: Pool, i: nat, w: Outcome, cfg: Config)
    requires i < |r.connections|
    ensures EnablesBelow(r, MaybeNotifyReady(Return(r, i, w, cfg)), cfg)
    ensures |MaybeNotifyReady(Return(r, i, w, cfg)).requests| <= |r.requests|
  {
    ReturnEnablesBelow(r, i, w, cfg);
  }

  lemma CloseDisables(p: Pool, cancel: bool, cfg: Config)
    ensures Close(p, cancel, cfg).isAvailable ==> p.isAvailable
  {
  }

  lemma FailDisables(p: Pool, critical: bool, cfg: Config)
    ensures Fail(p, critical, cfg).isAvailable ==> p.isAvailable
  {
    CloseDisables(p.(critical := p.critical || critical), false, cfg);
  }

  lemma OnClosedDisables(p: Pool, cause: Cause, cfg: Config)
    ensures OnClosed(p, cause, cfg).isAvailable ==> p.isAvailable
  {
    FailDisables(p, cause.critical, cfg);
  }

  lemma RequestsEnableBelow(p: Pool, r: Request, i: nat, cfg: Config)
    ensures EnablesBelow(p, AddRequest(p, r, cfg), cfg)
    ensures i < |p.requests| ==> EnablesBelow(p, RequestTimesOut(p, i, cfg), cfg)
  {
  }

  lemma TimerEnablesNothing(p: Pool, cfg: Config)
    ensures EnablesBelow(p, TimerFires(p, cfg), cfg)
  {
  }

  lemma ChangeEnablesBelow(p: Pool, i: nat, c: Conn, cfg: Config)
    requires i < |p.connections|
    ensures EnablesBelow(p, Change(p, i, c, cfg), cfg)
  {
  }

  lemma ChangePendingEnablesBelow(p: Pool, i: nat, c: Conn, cfg: Config)
    requires i < |p.pending|
    ensures EnablesBelow(p, ChangePending(p, i, c, cfg), cfg)
  {
  }

  /** A pool that is not available becomes available only below the low mark. */
  lemma EnabledBelowLowMark(p: Pool, s: Step, cfg: Config)
    requires Enabled(p, s)
    ensures EnablesBelow(p, Next(p, s, cfg), cfg)
  {
    hide Close, Borrow, Return, OnReady, OnClosed, AddRequest, RequestTimesOut, TimerFires, Change, ChangePending;
    match s
    case WaitCall(r) => RequestsEnableBelow(p, r, 0, cfg);
    case RequestTimer(i) => RequestsEnableBelow(p, 0, i, cfg);
    case ConnectTimer => TimerEnablesNothing(p, cfg);
    case ConnChange(i, c) => ChangeEnablesBelow(p, i, c, cfg);
    case PendingChange(i, c) => ChangePendingEnablesBelow(p, i, c, cfg);
    case CloseCall(cancel) => CloseDisables(p, cancel, cfg);
    case BorrowCall(loads) => BorrowOnlySpawns(p, loads, cfg);
    case ReturnCall(i, w) => ReturnEnablesBelow(p, i, w, cfg);
    case BecomeReady(i, w) => OnReadyEnablesBelow(p, i, w, cfg);
    case LateReady(i) => OnReadyEnablesBelow(p, i, NoStream, cfg);
    case CloseDone(i, cause) => OnClosedDisables(p.(connections := Without(p.connections, i)), cause, cfg);
    case PendingCloseDone(i, cause) => OnClosedDisables(p.(pending := Without(p.pending, i)), cause, cfg);
    case _ =>
  }

  ghost predicate NoMore(p: Pool, q: Pool) {
    q.IsClosing() && |q.connections| + |q.pending| <= |p.connections| + |p.pending|
  }

  lemma CloseIsFinal(p: Pool, cancel: bool, cfg: Config)
    requires p.IsClosing()
    ensures NoMore(p, Close(p, cancel, cfg))
  {
    assert Close(p, cancel, cfg) == MaybeClose(p);
  }

  lemma OnClosedIsFinal(p: Pool, cause: Cause, cfg: Config)
    requires p.IsClosing()
    ensures NoMore(p, OnClosed(p, cause, cfg))
  {
    CloseIsFinal(p.(critical := p.critical || cause.critical), false, cfg);
  }

  lemma OnReadyIsFinal(p: Pool, i: nat, w: Outcome, cfg: Config)
    requires i < |p.pending| && p.IsClosing()
    ensures NoMore(p, OnReady(p, i, w, cfg))
  {
    var q := Notice(p, p.pending[i], cfg);
    ShiftKeepsConnections(p, p.pending[i], Ready, cfg);
    ReturnKeepsSize(Moved(q, i), |q.connections|, w, cfg);
  }

  lemma SetKeepsConnections(p: Pool, on: bool, cfg: Config)
    ensures SameConnections(p, SetAvailable(p, on, cfg))
  {
  }

  lemma ShiftKeepsConnections(p: Pool, from: Conn, to: Conn, cfg: Config)
    ensures SameConnections(p, Shift(p, from, to, cfg)) && SameConnections(p, LoseReady(p, cfg))
  {
    SetKeepsConnections(p.(available := p.available + 1), true, cfg);
    SetKeepsConnections(
      p.(available := p.available - 1, asserted := p.asserted || p.available - 1 < 0), false, cfg);
  }

  lemma ReturnKeepsSize(p: Pool, i: nat, w: Outcome, cfg: Config)
    requires i < |p.connections|
    ensures
      var q := Return(p, i, w, cfg);
      q.state == p.state && q.pending == p.pending && |q.connections| == |p.connections|
  {
    if p.connections[i].Ready? && p.requests != [] {
      var q := SetAvailable(p.(requests := p.requests[1..]), true, cfg);
      SetKeepsConnections(p.(requests := p.requests[1..]), true, cfg);
      ShiftKeepsConnections(q.(connections := q.connections[i := Overwhelmed]), Ready, Overwhelmed, cfg);
    }
  }

  lemma ChangeKeepsSize(p: Pool, i: nat, c: Conn, cfg: Config)
    requires p.IsClosing() && i < |p.connections|
    ensures NoMore(p, Change(p, i, c, cfg))
  {
    ShiftKeepsConnections(p.(connections := p.connections[i := c]), p.connections[i], c, cfg);
  }

  lemma ChangePendingKeepsSize(p: Pool, i: nat, c: Conn, cfg: Config)
    requires p.IsClosing() && i < |p.pending|
    ensures NoMore(p, ChangePending(p, i, c, cfg))
  {
    ShiftKeepsConnections(p.(pending := p.pending[i := c]), p.pending[i], c, cfg);
  }

  lemma RequestsAreNoConnections(p: Pool, r: Request, i: nat, cfg: Config)
    requires p.IsClosing()
    ensures NoMore(p, AddRequest(p, r, cfg))
    ensures i < |p.requests| ==> NoMore(p, RequestTimesOut(p, i, cfg))
  {
    hide SetAvailable;
    SetKeepsConnections(p.(requests := p.requests + [r]), false, cfg);
    if i < |p.requests| { SetKeepsConnections(p.(requests := Without(p.requests, i)), true, cfg); }
  }

  lemma TimerIsFinal(p: Pool, cfg: Config)
    requires p.IsClosing()
    ensures NoMore(p, TimerFires(p, cfg))
  {
  }

  /** Once a pool is closing, it stays so and gets no more connections. */
  lemma ClosingIsFinal(p: Pool, s: Step, cfg: Config)
    requires Enabled(p, s) && p.IsClosing()
    ensures NoMore(p, Next(p, s, cfg))
  {
    hide Close, Borrow, Return, OnReady, Change, ChangePending, OnClosed, AddRequest, RequestTimesOut, TimerFires;
    match s
    case WaitCall(r) => RequestsAreNoConnections(p, r, 0, cfg);
    case RequestTimer(i) => RequestsAreNoConnections(p, 0, i, cfg);
    case ConnectTimer => TimerIsFinal(p, cfg);
    case CloseCall(cancel) => CloseIsFinal(p, cancel, cfg);
    case BorrowCall(loads) => BorrowOnlySpawns(p, loads, cfg);
    case ReturnCall(i, w) => ReturnKeepsSize(p, i, w, cfg);
    case BecomeReady(i, w) => OnReadyIsFinal(p, i, w, cfg);
    case LateReady(i) => OnReadyIsFinal(p, i, NoStream, cfg);
    case ConnChange(i, c) => ChangeKeepsSize(p, i, c, cfg);
    case PendingChange(i, c) => ChangePendingKeepsSize(p, i, c, cfg);
    case CloseDone(i, cause) => OnClosedIsFinal(p.(connections := Without(p.connections, i)), cause, cfg);
    case PendingCloseDone(i, cause) => OnClosedIsFinal(p.(pending := Without(p.pending, i)), cause, cfg);
    case _ =>
  }

  // ---------- Lending ----------

  /** One connection is tried before another: it has fewer pending requests, or as many and an earlier place. */
  predicate Before(loads: seq<Load>, j: nat, i: nat)
    requires j < |loads| && i < |loads|
  {
    loads[j].busy < loads[i].busy || (loads[j].busy == loads[i].busy && j < i)
  }

  /** Nothing is lent exactly if every usable connection has one before it that is not usable. */
  lemma LendsUnlessPassedOver(p: Pool, loads: seq<Load>)
    requires |loads| == |p.connections|
    ensures
      !Lends(p, loads) <==>
      forall i: nat :: i < |loads| && Usable(p, loads, i) ==>
        exists j: nat :: j < |loads| && !Usable(p, loads, j) && Before(loads, j, i)
  {
    if loads != [] {
      var l := LeastBusy(loads);
      forall i: nat | i < |loads| && i != l ensures Before(loads, l, i) && !Before(loads, i, l) {
        assert loads[l].busy <= loads[i].busy;
      }
    }
  }

  /** A ready connection with a free stream is passed over in a reachable state: a less busy one is closing. */
  lemma ReadyPassedOver(cfg: Config, loads: seq<Load>) returns (steps: seq<Step>)
    requires cfg.core == 2 && |loads| == 2 && loads[0].busy < loads[1].busy && loads[1].streams > 0
    ensures ValidRun(Fresh, cfg, steps)
    ensures
      var p := Run(Fresh, cfg, steps);
      p.connections == [Closing, Ready] && Usable(p, loads, 1) && !Lends(p, loads)
  {
    var ready, close := BecomeReady(0, NoStream), ConnChange(0, Closing);
    var p := ReadyRun(cfg);
    ReadyStep(p, cfg, []);
    assert [Starting] + [] == [Starting] && [Ready] + [Ready] == [Ready, Ready];
    var q := Next(p, ready, cfg);
    CloseStep(q, cfg);
    RunCons(q, cfg, close, []);
    RunCons(p, cfg, ready, [close]);
    steps := [ready] + [close];
    RunConsTwice(Fresh, cfg, ConnectCall, ready, steps);
    steps := [ConnectCall] + ([ready] + steps);
    assert loads[LeastBusy(loads)].busy <= loads[0].busy;
  }

  lemma CloseStep(p: Pool, cfg: Config)
    requires p.connections == [Ready, Ready]
    ensures Enabled(p, ConnChange(0, Closing)) && Next(p, ConnChange(0, Closing), cfg).connections == [Closing, Ready]
  {
    assert [Ready, Ready][0 := Closing] == [Closing, Ready];
    ShiftKeepsConnections(p.(connections := [Closing, Ready]), Ready, Closing, cfg);
  }
}
