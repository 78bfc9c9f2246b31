/**
 When a pool gets connections, shuts down, tries again later and serves the requests that wait (pool.cpp).
 */
module PoolGrowth {
  import opened PoolSpec

  function Size(p: Pool): nat { |p.connections| + |p.pending| }

  function Least(a: nat, b: nat): (m: nat)
    ensures m <= a && m <= b && (m == a || m == b)
  {
    if a < b then a else b
  }

  function Difference(a: nat, b: nat): nat { if a < b then 0 else a - b }

  // ---------- Connections that are opened ----------

  /** How many connections may be opened on demand. */
  function Room(p: Pool, cfg: Config): nat {
    if p.state != Running then 0 else Least(Difference(cfg.creation, |p.pending|), Difference(cfg.max, Size(p)))
  }

  predicate MayConnect(p: Pool) { p.state == New || p.state == WaitingToConnect }

  /** How many connections a step opens: all core ones to connect, the missing core ones to reconnect, and on demand
      one, or the core number if there is none, as far as there is room. */
  function Opened(p: Pool, s: Step, cfg: Config): nat
    requires Enabled(p, s)
  {
    match s
    case ConnectCall => if MayConnect(p) then cfg.core else 0
    case ConnectTimer =>
      if p.timer == WaitToConnect then if MayConnect(p) then cfg.core else 0
      else if p.IsClosing() then 0
      else Difference(cfg.core, Size(p))
    case BorrowCall(loads) =>
      if loads == [] then Least(cfg.core, Room(p, cfg))
      else if Spare(p, loads, cfg) then 0
      else Least(1, Room(p, cfg))
    case _ => 0
  }

  /** The first of the least busy connections is ready, has a free stream and is below the threshold. */
  predicate Spare(p: Pool, loads: seq<Load>, cfg: Config)
    requires |loads| == |p.connections| && loads != []
  {
    var l := LeastBusy(loads);
    p.connections[l] == Ready && loads[l].streams > 0 && loads[l].busy < cfg.threshold
  }

  lemma SpawnIs(p: Pool, cfg: Config)
    ensures MaybeSpawn(p, cfg) == p.(pending := p.pending + Repeat(Starting, Least(1, Room(p, cfg))))
  {
    assert p.pending + Repeat(Starting, 0) == p.pending;
  }

  lemma RepeatMore(a: nat, b: nat)
    ensures Repeat(Starting, a) + Repeat(Starting, b) == Repeat(Starting, a + b)
  {
  }

  lemma {:induction false} SpawnTimesIs(p: Pool, n: nat, cfg: Config)
    ensures MaybeSpawnTimes(p, n, cfg) == p.(pending := p.pending + Repeat(Starting, Least(n, Room(p, cfg))))
  {
    if n == 0 {
      assert p.pending + Repeat(Starting, 0) == p.pending;
    } else {
      hide MaybeSpawn;
      SpawnTimesIs(p, n - 1, cfg);
      var done := Least(n - 1, Room(p, cfg));
      var q := p.(pending := p.pending + Repeat(Starting, done));
      SpawnIs(q, cfg);
      RepeatMore(done, Least(1, Room(q, cfg)));
      assert Room(q, cfg) == Room(p, cfg) - done;
      assert (p.pending + Repeat(Starting, done)) + Repeat(Starting, Least(1, Room(q, cfg))) ==
             p.pending + (Repeat(Starting, done) + Repeat(Starting, Least(1, Room(q, cfg))));
    }
  }

  lemma ConnectOpens(p: Pool, cfg: Config)
    ensures
      var q := Connect(p, cfg);
      && q.connections == p.connections
      && q.pending == p.pending + Repeat(Starting, if MayConnect(p) then cfg.core else 0)
  {
    assert p.pending + Repeat(Starting, 0) == p.pending;
  }

  lemma BorrowOpens(p: Pool, loads: seq<Load>, cfg: Config)
    requires |loads| == |p.connections|
    ensures
      Borrow(p, loads, cfg) == p.(pending := p.pending + Repeat(Starting, Opened(p, BorrowCall(loads), cfg)))
  {
    hide MaybeSpawn, MaybeSpawnTimes;
    SpawnTimesIs(p, cfg.core, cfg);
    SpawnIs(p, cfg);
    assert p.pending + Repeat(Starting, 0) == p.pending;
  }

  lemma TimerOpens(p: Pool, cfg: Config)
    requires Enabled(p, ConnectTimer)
    ensures
      var q := TimerFires(p, cfg);
      && q.connections == p.connections
      && q.pending == p.pending + Repeat(Starting, Opened(p, ConnectTimer, cfg))
  {
    ConnectOpens(p.(timer := Off), cfg);
    assert p.pending + Repeat(Starting, 0) == p.pending;
  }

  /** The steps that change no number of connections but by a close callback. */
  lemma OthersOpenNothing(p: Pool, s: Step, cfg: Config)
    requires Enabled(p, s) && !s.ConnectCall? && !s.ConnectTimer? && !s.BorrowCall?
    ensures Size(Next(p, s, cfg)) == Size(p) - if s.CloseDone? || s.PendingCloseDone? then 1 else 0
  {
    hide Return, OnReady, Close, OnClosed, AddRequest, RequestTimesOut, Change, ChangePending;
    match s
    case CloseCall(cancel) => CloseKeepsSize(p, cancel, cfg);
    case ReturnCall(i, w) => ReturnKeepsSize(p, i, w, cfg);
    case WaitCall(r) => AddParts(p, r, cfg);
    case RequestTimer(i) => TimeoutParts(p, i, cfg);
    case BecomeReady(i, w) => OnReadyKeepsSize(p, i, w, cfg);
    case LateReady(i) => OnReadyKeepsSize(p, i, NoStream, cfg);
    case ConnChange(i, c) => ChangeParts(p, i, c, cfg);
    case PendingChange(i, c) => ChangePendingParts(p, i, c, cfg);
    case CloseDone(i, cause) => OnClosedKeepsSize(p.(connections := Without(p.connections, i)), cause, cfg);
    case PendingCloseDone(i, cause) => OnClosedKeepsSize(p.(pending := Without(p.pending, i)), cause, cfg);
    case _ =>
  }

  lemma CloseKeepsSize(p: Pool, cancel: bool, cfg: Config)
    ensures Size(Close(p, cancel, cfg)) == Size(p)
  {
    hide SetAvailable;
    SetKeepsConnections(EnterClosing(p), false, cfg);
  }

  lemma OnClosedKeepsSize(p: Pool, cause: Cause, cfg: Config)
    ensures Size(OnClosed(p, cause, cfg)) == Size(p)
  {
    hide Close, MaybeNotifyReady, MaybeClose;
    CloseKeepsSize(p.(critical := p.critical || cause.critical), false, cfg);
    SettleParts(p);
    SettleParts(p.(timer := PartialReconnect));
    SettleParts(MaybeNotifyReady(p));
  }

  lemma OnReadyKeepsSize(p: Pool, i: nat, w: Outcome, cfg: Config)
    requires i < |p.pending|
    ensures Size(OnReady(p, i, w, cfg)) == Size(p)
  {
    hide Return, Shift, LoseReady;
    var q := Notice(p, p.pending[i], cfg);
    ShiftKeepsConnections(p, p.pending[i], Ready, cfg);
    ReturnKeepsSize(Moved(q, i), |q.connections|, w, cfg);
  }

  /** A step opens as many connections as are wanted, behind those that are pending, and changes nothing else about the
      connections; no other step brings one, and only a close callback takes one. */
  lemma GrowsExactly(p: Pool, s: Step, cfg: Config)
    requires Enabled(p, s)
    ensures
      var q := Next(p, s, cfg);
      && Size(q) == Size(p) + Opened(p, s, cfg) - (if s.CloseDone? || s.PendingCloseDone? then 1 else 0)
      && (s.ConnectCall? || s.ConnectTimer? || s.BorrowCall? ==>
            q.connections == p.connections && q.pending == p.pending + Repeat(Starting, Opened(p, s, cfg)))
  {
    hide Next, Opened;
    if s.ConnectCall? || s.ConnectTimer? || s.BorrowCall? {
      OpenersOpen(p, s, cfg);
    } else {
      OthersOpenNothing(p, s, cfg);
      OthersOpen(p, s, cfg);
    }
  }

  lemma OpenersOpen(p: Pool, s: Step, cfg: Config)
    requires Enabled(p, s) && (s.ConnectCall? || s.ConnectTimer? || s.BorrowCall?)
    ensures
      var q := Next(p, s, cfg);
      q.connections == p.connections && q.pending == p.pending + Repeat(Starting, Opened(p, s, cfg))
  {
    hide Connect, TimerFires, Borrow;
    match s
    case ConnectCall => ConnectOpens(p, cfg);
    case ConnectTimer => TimerOpens(p, cfg);
    case BorrowCall(loads) => BorrowOpens(p, loads, cfg);
    case _ =>
  }

  lemma OthersOpen(p: Pool, s: Step, cfg: Config)
    requires Enabled(p, s) && !s.ConnectCall? && !s.ConnectTimer? && !s.BorrowCall?
    ensures Opened(p, s, cfg) == 0
  {
  }

  // ---------- Shutting down ----------

  /** What shuts a pool down: its holder, or a connection that was closed for an error, unless it only took too long and
      there are others. */
  predicate Shuts(p: Pool, s: Step)
    requires Enabled(p, s)
  {
    match s
    case CloseCall(_) => true
    case CloseDone(_, cause) => cause.defunct && !(cause.timeout && |p.connections| > 1)
    case PendingCloseDone(_, cause) => cause.defunct && !(cause.timeout && |p.connections| > 0)
    case _ => false
  }

  lemma CloseShuts(p: Pool, cancel: bool, cfg: Config)
    ensures Close(p, cancel, cfg).IsClosing() && Close(p, cancel, cfg).critical == p.critical
    ensures Close(p, cancel, cfg).timer == if p.IsClosing() then p.timer else Off
  {
    CloseParts(p, cancel, cfg);
  }

  /** `close` changes the connections, the counter, the notices, the timer and the state. */
  lemma CloseParts(p: Pool, cancel: bool, cfg: Config)
    ensures
      var q := Close(p, cancel, cfg);
      && q.requests == p.requests && q.critical == p.critical && q.IsClosing()
      && q.timer == if p.IsClosing() then p.timer else Off
  {
    hide BeginClose;
    BeginParts(p, cancel, cfg);
  }

  lemma BeginParts(p: Pool, cancel: bool, cfg: Config)
    ensures
      var q := BeginClose(p, cancel, cfg);
      q.requests == p.requests && q.critical == p.critical && q.state == ClosingDown && q.timer == Off
  {
    hide SetAvailable;
    SetOnlyTells(EnterClosing(p), false, cfg);
  }

  /** `maybe_notify_ready` and `maybe_close` change the state and the notices. */
  lemma SettleParts(p: Pool)
    ensures
      var q, r := MaybeNotifyReady(p), MaybeClose(p);
      && q == p.(state := q.state, readyNotices := q.readyNotices) && q.IsClosing() == p.IsClosing()
      && r == p.(state := r.state, closedNotices := r.closedNotices) && r.IsClosing() == p.IsClosing()
  {
  }

  lemma OnClosedShuts(p: Pool, cause: Cause, cfg: Config)
    ensures
      var q, alone := OnClosed(p, cause, cfg), !(cause.timeout && p.connections != []);
      && (q.IsClosing() <==> p.IsClosing() || (cause.defunct && alone))
      && (q.critical <==> p.critical || (cause.defunct && alone && cause.critical))
      && q.timer == (if !alone then if p.timer == Off then PartialReconnect else p.timer
                     else if cause.defunct && !p.IsClosing() then Off
                     else p.timer)
  {
    hide Close, MaybeNotifyReady, MaybeClose;
    CloseShuts(p.(critical := p.critical || cause.critical), false, cfg);
    SettleParts(p);
    SettleParts(p.(timer := PartialReconnect));
    SettleParts(MaybeNotifyReady(p));
  }

  lemma AddParts(p: Pool, r: Request, cfg: Config)
    ensures
      var q := AddRequest(p, r, cfg);
      && q.connections == p.connections && q.pending == p.pending && q.state == p.state
      && q.critical == p.critical && q.timer == p.timer && q.requests == p.requests + [r]
  {
    hide SetAvailable;
    SetOnlyTells(p.(requests := p.requests + [r]), false, cfg);
  }

  lemma TimeoutParts(p: Pool, i: nat, cfg: Config)
    requires i < |p.requests|
    ensures
      var q := RequestTimesOut(p, i, cfg);
      && q.connections == p.connections && q.pending == p.pending && q.IsClosing() == p.IsClosing()
      && q.critical == p.critical && q.timer == p.timer && q.requests == p.requests[..i] + p.requests[i + 1..]
  {
    hide SetAvailable;
    SetOnlyTells(p.(requests := Without(p.requests, i)), true, cfg);
  }

  lemma ChangeParts(p: Pool, i: nat, c: Conn, cfg: Config)
    requires i < |p.connections|
    ensures
      var q := Change(p, i, c, cfg);
      && Size(q) == Size(p) && q.state == p.state && q.critical == p.critical && q.timer == p.timer
      && q.requests == p.requests
  {
    hide Shift;
    ShiftOnlyCounts(p.(connections := p.connections[i := c]), p.connections[i], c, cfg);
  }

  lemma ChangePendingParts(p: Pool, i: nat, c: Conn, cfg: Config)
    requires i < |p.pending|
    ensures
      var q := ChangePending(p, i, c, cfg);
      && Size(q) == Size(p) && q.state == p.state && q.critical == p.critical && q.timer == p.timer
      && q.requests == p.requests
  {
    hide Shift;
    ShiftOnlyCounts(p.(pending := p.pending[i := c]), p.pending[i], c, cfg);
  }

  /** What the timer of the pool waits for after a step. */
  function TimerAfter(p: Pool, s: Step): Timer
    requires Enabled(p, s)
  {
    match s
    case ConnectCall => if MayConnect(p) then Off else p.timer
    case DelayedConnectCall => if p.state == New then WaitToConnect else p.timer
    case ConnectTimer => Off
    case CloseCall(_) => if p.IsClosing() then p.timer else Off
    case CloseDone(_, cause) => AfterLoss(p, cause, |p.connections| > 1)
    case PendingCloseDone(_, cause) => AfterLoss(p, cause, |p.connections| > 0)
    case _ => p.timer
  }

  /** A lost connection that took too long is tried again later if there are others. */
  function AfterLoss(p: Pool, cause: Cause, others: bool): Timer {
    if cause.timeout && others then if p.timer == Off then PartialReconnect else p.timer
    else if cause.defunct && !p.IsClosing() then Off
    else p.timer
  }

  /** A step shuts the pool down exactly for these reasons, remembers a critical failure that did so, and sets and stops
      the timer as described. */
  lemma ShutsExactly(p: Pool, s: Step, cfg: Config)
    requires Enabled(p, s)
    ensures
      var q := Next(p, s, cfg);
      && (q.IsClosing() <==> p.IsClosing() || Shuts(p, s))
      && (q.critical <==> p.critical || (Shuts(p, s) && !s.CloseCall? && s.cause.critical))
      && q.timer == TimerAfter(p, s)
  {
    hide Close, Borrow, OnClosed, Return, OnReady, Connect, TimerFires;
    hide AddRequest, RequestTimesOut, Change, ChangePending, DelayedConnect;
    match s
    case ConnectCall => ConnectShutsNothing(p, cfg);
    case DelayedConnectCall => DelayShutsNothing(p);
    case ConnectTimer => TimerShutsNothing(p, cfg);
    case CloseCall(cancel) => CloseShuts(p, cancel, cfg);
    case BorrowCall(loads) => BorrowOnlySpawns(p, loads, cfg);
    case ReturnCall(i, w) => ReturnServes(p, i, w, cfg);
    case WaitCall(r) => AddParts(p, r, cfg);
    case RequestTimer(i) => TimeoutParts(p, i, cfg);
    case BecomeReady(i, w) => ReadyServes(p, i, w, cfg);
    case LateReady(i) => ReadyServes(p, i, NoStream, cfg);
    case ConnChange(i, c) => ChangeParts(p, i, c, cfg);
    case PendingChange(i, c) => ChangePendingParts(p, i, c, cfg);
    case CloseDone(i, cause) => OnClosedShuts(p.(connections := Without(p.connections, i)), cause, cfg);
    case PendingCloseDone(i, cause) => OnClosedShuts(p.(pending := Without(p.pending, i)), cause, cfg);
  }

  lemma ConnectShutsNothing(p: Pool, cfg: Config)
    ensures
      var q := Connect(p, cfg);
      && q.IsClosing() == p.IsClosing() && q.critical == p.critical && q.requests == p.requests
      && q.timer == if MayConnect(p) then Off else p.timer
  {
  }

  lemma DelayShutsNothing(p: Pool)
    ensures
      var q := DelayedConnect(p);
      && q.IsClosing() == p.IsClosing() && q.critical == p.critical && q.requests == p.requests
      && q.timer == if p.state == New then WaitToConnect else p.timer
  {
  }

  lemma TimerShutsNothing(p: Pool, cfg: Config)
    requires Enabled(p, ConnectTimer)
    ensures
      var q := TimerFires(p, cfg);
      q.IsClosing() == p.IsClosing() && q.critical == p.critical && q.requests == p.requests && q.timer == Off
  {
    hide Connect;
    ConnectShutsNothing(p.(timer := Off), cfg);
  }

  lemma SetOnlyTells(p: Pool, on: bool, cfg: Config)
    ensures
      var q := SetAvailable(p, on, cfg);
      q == p.(isAvailable := q.isAvailable, told := q.told)
  {
  }

  lemma LoseOnlyCounts(p: Pool, cfg: Config)
    ensures
      var q := LoseReady(p, cfg);
      q == p.(available := q.available, isAvailable := q.isAvailable, told := q.told, asserted := q.asserted)
  {
    hide SetAvailable;
    SetOnlyTells(p.(available := p.available - 1, asserted := p.asserted || p.available - 1 < 0), false, cfg);
  }

  lemma ShiftOnlyCounts(p: Pool, from: Conn, to: Conn, cfg: Config)
    ensures
      var q := Shift(p, from, to, cfg);
      q == p.(available := q.available, isAvailable := q.isAvailable, told := q.told, asserted := q.asserted)
  {
    hide SetAvailable, LoseReady;
    LoseOnlyCounts(p, cfg);
    SetOnlyTells(p.(available := p.available + 1), true, cfg);
  }

  // ---------- Waiting requests ----------

  lemma ReturnServes(p: Pool, i: nat, w: Outcome, cfg: Config)
    requires i < |p.connections|
    ensures
      var q := Return(p, i, w, cfg);
      && q.state == p.state && q.critical == p.critical && q.timer == p.timer && q.pending == p.pending
      && q.requests == if p.connections[i] == Ready && p.requests != [] then p.requests[1..] else p.requests
  {
    hide SetAvailable, LoseReady;
    if p.requests != [] {
      SetOnlyTells(p.(requests := p.requests[1..]), true, cfg);
      LoseOnlyCounts(SetAvailable(p.(requests := p.requests[1..]), true, cfg)
                       .(connections := p.connections[i := Overwhelmed]), cfg);
    }
  }

  lemma ReadyServes(p: Pool, i: nat, w: Outcome, cfg: Config)
    requires i < |p.pending|
    ensures
      var q := OnReady(p, i, w, cfg);
      && q.IsClosing() == p.IsClosing() && q.critical == p.critical && q.timer == p.timer
      && q.requests == if p.pending[i] != Closing && p.requests != [] then p.requests[1..] else p.requests
  {
    hide Return, Shift, LoseReady;
    LoseOnlyCounts(p, cfg);
    ShiftOnlyCounts(p, p.pending[i], Ready, cfg);
    var q := Notice(p, p.pending[i], cfg);
    ReturnServes(Moved(q, i), |q.connections|, w, cfg);
  }

  lemma CloseKeepsRequests(p: Pool, cancel: bool, cfg: Config)
    ensures Close(p, cancel, cfg).requests == p.requests
  {
    hide Close;
    CloseParts(p, cancel, cfg);
  }

  lemma OnClosedKeepsRequests(p: Pool, cause: Cause, cfg: Config)
    ensures OnClosed(p, cause, cfg).requests == p.requests
  {
    hide Close;
    CloseKeepsRequests(p.(critical := p.critical || cause.critical), false, cfg);
  }

  /** Requests wait in the order in which they came: a new one is the last, a connection that is ready takes the first,
      one whose timer fires goes, and no other step changes them. */
  lemma RequestsInOrder(p: Pool, s: Step, cfg: Config)
    requires Enabled(p, s)
    ensures
      var rs := Next(p, s, cfg).requests;
      match s
      case WaitCall(r) => rs == p.requests + [r]
      case RequestTimer(i) => rs == p.requests[..i] + p.requests[i + 1..]
      case ReturnCall(i, _) =>
        rs == if p.connections[i] == Ready && p.requests != [] then p.requests[1..] else p.requests
      case BecomeReady(_, _) => rs == if p.requests != [] then p.requests[1..] else p.requests
      case _ => rs == p.requests
  {
    hide Close, Borrow, OnClosed, Return, OnReady, Connect, TimerFires;
    hide AddRequest, RequestTimesOut, Change, ChangePending, DelayedConnect;
    match s
    case ConnectCall => ConnectShutsNothing(p, cfg);
    case DelayedConnectCall => DelayShutsNothing(p);
    case ConnectTimer => TimerShutsNothing(p, cfg);
    case CloseCall(cancel) => CloseKeepsRequests(p, cancel, cfg);
    case BorrowCall(loads) => BorrowOnlySpawns(p, loads, cfg);
    case ReturnCall(i, w) => ReturnServes(p, i, w, cfg);
    case WaitCall(r) => AddParts(p, r, cfg);
    case RequestTimer(i) => TimeoutParts(p, i, cfg);
    case BecomeReady(i, w) => ReadyServes(p, i, w, cfg);
    case LateReady(i) => ReadyServes(p, i, NoStream, cfg);
    case ConnChange(i, c) => ChangeParts(p, i, c, cfg);
    case PendingChange(i, c) => ChangePendingParts(p, i, c, cfg);
    case CloseDone(i, cause) => OnClosedKeepsRequests(p.(connections := Without(p.connections, i)), cause, cfg);
    case PendingCloseDone(i, cause) => OnClosedKeepsRequests(p.(pending := Without(p.pending, i)), cause, cfg);
  }

  // ---------- Where the connections are ----------

  /** The state of a connection behind writing the first waiting request on it, if it can take one. */
  function Served(c: Conn, waiting: bool, w: Outcome): Conn {
    if c == Ready && waiting && w == WrittenOver then Overwhelmed else c
  }

  /** A pool that shuts down closes all its connections at once. */
  function ClosedIf(shuts: bool, conns: seq<Conn>): seq<Conn> { if shuts then Repeat(Closing, |conns|) else conns }

  lemma ReturnPlaces(p: Pool, i: nat, w: Outcome, cfg: Config)
    requires i < |p.connections|
    ensures
      var q := Return(p, i, w, cfg);
      && q.pending == p.pending
      && q.connections == p.connections[i := Served(p.connections[i], p.requests != [], w)]
  {
    hide SetAvailable, LoseReady;
    if p.requests != [] {
      SetOnlyTells(p.(requests := p.requests[1..]), true, cfg);
      LoseOnlyCounts(SetAvailable(p.(requests := p.requests[1..]), true, cfg)
                       .(connections := p.connections[i := Overwhelmed]), cfg);
    }
  }

  /** A connection whose start-up is complete leaves its place among the pending ones and becomes the last of the rest,
      READY unless it was closing, and takes the first waiting request. */
  lemma ReadyPlaces(p: Pool, i: nat, w: Outcome, cfg: Config)
    requires i < |p.pending|
    ensures
      var q, c := OnReady(p, i, w, cfg), if p.pending[i] == Closing then Closing else Ready;
      && q.pending == p.pending[..i] + p.pending[i + 1..]
      && q.connections == p.connections + [Served(c, p.requests != [], w)]
  {
    hide Return, Shift, LoseReady;
    LoseOnlyCounts(p, cfg);
    ShiftOnlyCounts(p, p.pending[i], Ready, cfg);
    var q := Notice(p, p.pending[i], cfg);
    ReturnPlaces(Moved(q, i), |q.connections|, w, cfg);
  }

  lemma ChangePlaces(p: Pool, i: nat, j: nat, c: Conn, cfg: Config)
    ensures i < |p.connections| ==>
              var q := Change(p, i, c, cfg);
              q.connections == p.connections[i := c] && q.pending == p.pending
    ensures j < |p.pending| ==>
              var q := ChangePending(p, j, c, cfg);
              q.connections == p.connections && q.pending == p.pending[j := c]
  {
    hide Shift;
    if i < |p.connections| {
      ShiftOnlyCounts(p.(connections := p.connections[i := c]), p.connections[i], c, cfg);
    }
    if j < |p.pending| { ShiftOnlyCounts(p.(pending := p.pending[j := c]), p.pending[j], c, cfg); }
  }

  lemma ClosePlaces(p: Pool, cancel: bool, cfg: Config)
    ensures
      var q := Close(p, cancel, cfg);
      && q.connections == ClosedIf(!p.IsClosing(), p.connections)
      && q.pending == ClosedIf(!p.IsClosing(), p.pending)
      && q.cancelReconnect == if p.IsClosing() then p.cancelReconnect else cancel
  {
    hide SetAvailable;
    SetOnlyTells(EnterClosing(p), false, cfg);
  }

  lemma OnClosedPlaces(p: Pool, cause: Cause, cfg: Config)
    ensures
      var q := OnClosed(p, cause, cfg);
      var shuts := cause.defunct && !(cause.timeout && p.connections != []) && !p.IsClosing();
      && q.connections == ClosedIf(shuts, p.connections) && q.pending == ClosedIf(shuts, p.pending)
      && q.cancelReconnect == (!shuts && p.cancelReconnect)
  {
    hide Close, MaybeNotifyReady, MaybeClose;
    ClosePlaces(p.(critical := p.critical || cause.critical), false, cfg);
    SettleParts(p);
    SettleParts(p.(timer := PartialReconnect));
    SettleParts(MaybeNotifyReady(p));
  }

  /** Where the connections are behind a step that opens none, and whether the pool may be connected to again. */
  predicate Places(p: Pool, s: Step, q: Pool)
    requires Enabled(p, s)
  {
    var shuts := Shuts(p, s) && !p.IsClosing();
    && q.cancelReconnect == (if !shuts then p.cancelReconnect else s.CloseCall? && s.cancel)
    && match s
       case ReturnCall(i, w) =>
         && q.connections == p.connections[i := Served(p.connections[i], p.requests != [], w)]
         && q.pending == p.pending
       case BecomeReady(i, w) =>
         && q.connections == p.connections + [Served(Ready, p.requests != [], w)]
         && q.pending == p.pending[..i] + p.pending[i + 1..]
       case LateReady(i) =>
         q.connections == p.connections + [Closing] && q.pending == p.pending[..i] + p.pending[i + 1..]
       case ConnChange(i, c) => q.connections == p.connections[i := c] && q.pending == p.pending
       case PendingChange(i, c) => q.connections == p.connections && q.pending == p.pending[i := c]
       case CloseDone(i, _) =>
         && q.connections == ClosedIf(shuts, p.connections[..i] + p.connections[i + 1..])
         && q.pending == ClosedIf(shuts, p.pending)
       case PendingCloseDone(i, _) =>
         && q.connections == ClosedIf(shuts, p.connections)
         && q.pending == ClosedIf(shuts, p.pending[..i] + p.pending[i + 1..])
       case _ => q.connections == ClosedIf(shuts, p.connections) && q.pending == ClosedIf(shuts, p.pending)
  }

  predicate OpensNone(s: Step) { !s.ConnectCall? && !s.ConnectTimer? && !s.BorrowCall? }

  predicate OfOne(s: Step) {
    s.ReturnCall? || s.BecomeReady? || s.LateReady? || s.ConnChange? || s.PendingChange?
  }

  lemma ReadyIsPlaced(p: Pool, s: Step, cfg: Config)
    requires Enabled(p, s) && (s.BecomeReady? || s.LateReady?)
    ensures Places(p, s, Next(p, s, cfg))
  {
    CancelStays(p, s, cfg);
    hide OnReady, ClosedIf, Served;
    ReadyPlaces(p, s.at, if s.BecomeReady? then s.outcome else NoStream, cfg);
    assert Served(Closing, p.requests != [], NoStream) == Closing by { LateTakesNothing(p.requests != []); }
  }

  lemma LateTakesNothing(waiting: bool)
    ensures Served(Closing, waiting, NoStream) == Closing
  {
  }

  lemma OnePlaces(p: Pool, s: Step, cfg: Config)
    requires Enabled(p, s) && OfOne(s)
    ensures Places(p, s, Next(p, s, cfg))
  {
    if s.BecomeReady? || s.LateReady? {
      ReadyIsPlaced(p, s, cfg);
    } else {
      CancelStays(p, s, cfg);
      hide Return, Change, ChangePending, ClosedIf, Served;
      match s
      case ReturnCall(i, w) => ReturnPlaces(p, i, w, cfg);
      case ConnChange(i, c) => ChangePlaces(p, i, |p.pending|, c, cfg);
      case PendingChange(i, c) => ChangePlaces(p, |p.connections|, i, c, cfg);
      case _ =>
    }
  }

  lemma LossPlaces(p: Pool, i: nat, cause: Cause, cfg: Config)
    requires i < |p.connections| && p.connections[i] == Closing
    ensures Places(p, CloseDone(i, cause), Next(p, CloseDone(i, cause), cfg))
  {
    hide OnClosed, ClosedIf;
    OnClosedPlaces(p.(connections := Without(p.connections, i)), cause, cfg);
  }

  lemma PendingLossPlaces(p: Pool, i: nat, cause: Cause, cfg: Config)
    requires i < |p.pending| && p.pending[i] == Closing
    ensures Places(p, PendingCloseDone(i, cause), Next(p, PendingCloseDone(i, cause), cfg))
  {
    hide OnClosed, ClosedIf;
    OnClosedPlaces(p.(pending := Without(p.pending, i)), cause, cfg);
  }

  lemma OtherPlaces(p: Pool, s: Step, cfg: Config)
    requires Enabled(p, s) && OpensNone(s) && !OfOne(s) && !s.CloseDone? && !s.PendingCloseDone?
    ensures Places(p, s, Next(p, s, cfg))
  {
    if !s.CloseCall? { CancelStays(p, s, cfg); }
    hide Close, AddRequest, RequestTimesOut;
    match s
    case CloseCall(cancel) => ClosePlaces(p, cancel, cfg);
    case WaitCall(r) => AddParts(p, r, cfg);
    case RequestTimer(i) => TimeoutParts(p, i, cfg);
    case _ =>
  }

  lemma PlacesExactly(p: Pool, s: Step, cfg: Config)
    requires Enabled(p, s) && OpensNone(s)
    ensures Places(p, s, Next(p, s, cfg))
  {
    hide Places, Next;
    match s
    case CloseDone(i, cause) => LossPlaces(p, i, cause, cfg);
    case PendingCloseDone(i, cause) => PendingLossPlaces(p, i, cause, cfg);
    case _ => if OfOne(s) { OnePlaces(p, s, cfg); } else { OtherPlaces(p, s, cfg); }
  }

  lemma CancelStays(p: Pool, s: Step, cfg: Config)
    requires Enabled(p, s) && !s.CloseCall? && !s.CloseDone? && !s.PendingCloseDone? && OpensNone(s)
    ensures Next(p, s, cfg).cancelReconnect == p.cancelReconnect
  {
    hide SetAvailable, Shift, LoseReady;
    match s
    case ReturnCall(i, w) => ReturnCancels(p, i, w, cfg);
    case WaitCall(r) => SetOnlyTells(p.(requests := p.requests + [r]), false, cfg);
    case RequestTimer(i) => SetOnlyTells(p.(requests := Without(p.requests, i)), true, cfg);
    case BecomeReady(i, w) => ReadyCancels(p, i, w, cfg);
    case LateReady(i) => ReadyCancels(p, i, NoStream, cfg);
    case ConnChange(i, c) => ShiftOnlyCounts(p.(connections := p.connections[i := c]), p.connections[i], c, cfg);
    case PendingChange(i, c) => ShiftOnlyCounts(p.(pending := p.pending[i := c]), p.pending[i], c, cfg);
    case _ =>
  }

  lemma ReturnCancels(p: Pool, i: nat, w: Outcome, cfg: Config)
    requires i < |p.connections|
    ensures Return(p, i, w, cfg).cancelReconnect == p.cancelReconnect
  {
    hide SetAvailable, LoseReady;
    if p.requests != [] {
      SetOnlyTells(p.(requests := p.requests[1..]), true, cfg);
      LoseOnlyCounts(SetAvailable(p.(requests := p.requests[1..]), true, cfg)
                       .(connections := p.connections[i := Overwhelmed]), cfg);
    }
  }

  lemma ReadyCancels(p: Pool, i: nat, w: Outcome, cfg: Config)
    requires i < |p.pending|
    ensures OnReady(p, i, w, cfg).cancelReconnect == p.cancelReconnect
  {
    hide Return, Shift, LoseReady;
    LoseOnlyCounts(p, cfg);
    ShiftOnlyCounts(p, p.pending[i], Ready, cfg);
    var q := Notice(p, p.pending[i], cfg);
    ReturnCancels(Moved(q, i), |q.connections|, w, cfg);
  }

  // ---------- Whole runs ----------

  ghost predicate EverShuts(p: Pool, cfg: Config, steps: seq<Step>)
    requires ValidRun(p, cfg, steps)
    decreases |steps|
  {
    steps != [] && (Shuts(p, steps[0]) || EverShuts(Next(p, steps[0], cfg), cfg, steps[1..]))
  }

  /** How many connections the steps of a run open, and how many close callbacks it has. */
  ghost function AllOpened(p: Pool, cfg: Config, steps: seq<Step>): nat
    requires ValidRun(p, cfg, steps)
    decreases |steps|
  {
    if steps == [] then 0
    else Opened(p, steps[0], cfg) + AllOpened(Next(p, steps[0], cfg), cfg, steps[1..])
  }

  function AllClosed(steps: seq<Step>): nat {
    if steps == [] then 0
    else (if steps[0].CloseDone? || steps[0].PendingCloseDone? then 1 else 0) + AllClosed(steps[1..])
  }

  lemma {:induction false} RunShutsAndGrows(p: Pool, cfg: Config, steps: seq<Step>)
    requires ValidRun(p, cfg, steps)
    ensures Run(p, cfg, steps).IsClosing() <==> p.IsClosing() || EverShuts(p, cfg, steps)
    ensures Size(Run(p, cfg, steps)) + AllClosed(steps) == Size(p) + AllOpened(p, cfg, steps)
    decreases |steps|
  {
    hide Next, Shuts, Opened, Enabled;
    if steps != [] {
      ShutsExactly(p, steps[0], cfg);
      GrowsExactly(p, steps[0], cfg);
      RunShutsAndGrows(Next(p, steps[0], cfg), cfg, steps[1..]);
    }
  }

  /** In every run a pool is closing exactly if something has shut it down, and it has all the connections that were
      opened but those that have closed. */
  lemma ShutsAndGrows(cfg: Config, steps: seq<Step>)
    requires ValidRun(Fresh, cfg, steps)
    ensures
      var p := Run(Fresh, cfg, steps);
      && (p.IsClosing() <==> EverShuts(Fresh, cfg, steps))
      && Size(p) + AllClosed(steps) == AllOpened(Fresh, cfg, steps)
  {
    RunShutsAndGrows(Fresh, cfg, steps);
  }
}
