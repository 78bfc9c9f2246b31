/**
 The class of pool.cpp: every method updates the fields as the source does and is proved to compute its function of
 `PoolSpec`.
 */
module PoolObject {
  import opened Spec = PoolSpec

  lemma NothingCounted()
    ensures CountReady([]) == 0
  {
  }

  lemma CountStep(conns: seq<Conn>, i: nat)
    requires i < |conns|
    ensures CountReady(conns[..i + 1]) == CountReady(conns[..i]) + if conns[i].Ready? then 1 else 0
  {
    assert conns[..i + 1] == conns[..i] + [conns[i]];
    CountAppend(conns[..i], [conns[i]]);
  }

  class Pool {
    const cfg: Config
    var state: PoolState
    var connections: seq<Conn>
    var pending: seq<Conn>
    var requests: seq<Request>
    var available: int
    var isAvailable: bool
    var critical: bool
    var cancelReconnect: bool
    var timer: Timer
    ghost var asserted: bool
    ghost var entered: bool
    ghost var readyNotices: nat
    ghost var closedNotices: nat
    ghost var told: seq<bool>

    ghost function Value(): Spec.Pool
      reads this
    {
      Spec.Pool(state, connections, pending, requests, available, isAvailable, critical, cancelReconnect, timer,
                asserted, entered, readyNotices, closedNotices, told)
    }

    constructor (cfg: Config)
      ensures Value() == Fresh && this.cfg == cfg
    {
      this.cfg := cfg;
      state, connections, pending, requests, available, timer := New, [], [], [], 0, Off;
      isAvailable, critical, cancelReconnect := false, false, false;
      asserted, entered, readyNotices, closedNotices, told := false, false, 0, 0, [];
    }

    method SetIsAvailable(on: bool)
      modifies this`isAvailable, this`told
      ensures Value() == SetAvailable(old(Value()), on, cfg)
    {
      if on {
        if !isAvailable && available > 0 && |requests| < cfg.low {
          told := told + [true];
          isAvailable := true;
        }
      } else {
        if isAvailable {
          told := told + [false];
          isAvailable := false;
        }
      }
    }

    /** The assertion that the counter is not negative is recorded when it fails. */
    method OnAvailabilityChange(ready: bool)
      modifies this`available, this`isAvailable, this`told, this`asserted
      ensures Value() == if ready then GainReady(old(Value()), cfg) else LoseReady(old(Value()), cfg)
    {
      if ready {
        available := available + 1;
        SetIsAvailable(true);
      } else {
        available := available - 1;
        asserted := asserted || available < 0;
        if available == 0 {
          SetIsAvailable(false);
        }
      }
    }

    method MaybeNotifyReady()
      modifies this`state, this`readyNotices
      ensures Value() == Spec.MaybeNotifyReady(old(Value()))
    {
      if state.Connecting? && pending == [] {
        state := Running;
        readyNotices := readyNotices + 1;
      }
    }

    method MaybeClose()
      modifies this`state, this`closedNotices
      ensures Value() == Spec.MaybeClose(old(Value()))
    {
      if state.ClosingDown? && connections == [] && pending == [] {
        state := Closed;
        closedNotices := closedNotices + 1;
      }
    }

    method SpawnConnection()
      modifies this`pending
      ensures Value() == Spawn(old(Value()), 1)
    {
      if !state.ClosingDown? && !state.Closed? {
        assert Repeat(Starting, 1) == [Starting];
        pending := pending + [Starting];
      }
    }

    method MaybeSpawnConnection()
      modifies this`pending
      ensures Value() == MaybeSpawn(old(Value()), cfg)
    {
      if |pending| >= cfg.creation { return; }
      if |connections| + |pending| >= cfg.max { return; }
      if !state.Running? { return; }
      SpawnConnection();
    }

    method SpawnConnections(n: nat)
      modifies this`pending
      ensures Value() == Spawn(old(Value()), n)
    {
      assert pending + Repeat(Starting, 0) == pending;
      for i := 0 to n
        invariant Value() == Spawn(old(Value()), i)
      {
        SpawnConnection();
        assert Repeat(Starting, i + 1) == Repeat(Starting, i) + Repeat(Starting, 1);
        assert old(pending) + Repeat(Starting, i + 1) == (old(pending) + Repeat(Starting, i)) + Repeat(Starting, 1);
      }
    }

    method Connect()
      modifies this
      ensures Value() == Spec.Connect(old(Value()), cfg)
    {
      if state.New? || state.WaitingToConnect? {
        timer := Off;
        assert Value() == old(Value()).(timer := Off);
        SpawnConnections(cfg.core);
        state := Connecting;
        entered := true;
        assert Value() == Spawn(old(Value()).(timer := Off), cfg.core).(state := Connecting, entered := true);
        MaybeNotifyReady();
      }
    }

    method DelayedConnect()
      modifies this
      ensures Value() == Spec.DelayedConnect(old(Value()))
    {
      if state.New? {
        state := WaitingToConnect;
        timer := WaitToConnect;
      }
    }

    /** `Connection::close`, when the pool is not available: a ready connection tells the pool. */
    method CloseConnection(c: Conn)
      requires !isAvailable
      modifies this`available, this`isAvailable, this`told, this`asserted
      ensures available == old(available) - if c.Ready? then 1 else 0
      ensures asserted <==> old(asserted) || (c.Ready? && available < 0)
      ensures !isAvailable && told == old(told)
    {
      if c.Ready? {
        OnAvailabilityChange(false);
      }
    }

    /** The first loop of `close`. */
    method CloseConnections()
      requires !isAvailable
      modifies this`connections, this`available, this`isAvailable, this`told, this`asserted
      ensures connections == Repeat(Closing, |old(connections)|)
      ensures available == old(available) - CountReady(old(connections))
      ensures asserted <==> old(asserted) || (CountReady(old(connections)) > 0 && available < 0)
      ensures !isAvailable && told == old(told)
    {
      hide CountReady;
      ghost var before := connections;
      NothingCounted();
      var i := 0;
      while i < |connections|
        invariant i <= |connections| == |before|
        invariant forall j :: 0 <= j < i ==> connections[j] == Closing
        invariant connections[i..] == before[i..]
        invariant available == old(available) - CountReady(before[..i])
        invariant asserted <==> old(asserted) || (CountReady(before[..i]) > 0 && available < 0)
        invariant !isAvailable && told == old(told)
      {
        assert connections[i] == before[i..][0];
        CountStep(before, i);
        CloseConnection(connections[i]);
        connections := connections[i := Closing];
        i := i + 1;
      }
      assert before[..|before|] == before;
    }

    /** The second loop of `close`. */
    method ClosePending()
      requires !isAvailable
      modifies this`pending, this`available, this`isAvailable, this`told, this`asserted
      ensures pending == Repeat(Closing, |old(pending)|)
      ensures available == old(available) - CountReady(old(pending))
      ensures asserted <==> old(asserted) || (CountReady(old(pending)) > 0 && available < 0)
      ensures !isAvailable && told == old(told)
    {
      hide CountReady;
      ghost var before := pending;
      NothingCounted();
      var i := 0;
      while i < |pending|
        invariant i <= |pending| == |before|
        invariant forall j :: 0 <= j < i ==> pending[j] == Closing
        invariant pending[i..] == before[i..]
        invariant available == old(available) - CountReady(before[..i])
        invariant asserted <==> old(asserted) || (CountReady(before[..i]) > 0 && available < 0)
        invariant !isAvailable && told == old(told)
      {
        assert pending[i] == before[i..][0];
        CountStep(before, i);
        CloseConnection(pending[i]);
        pending := pending[i := Closing];
        i := i + 1;
      }
      assert before[..|before|] == before;
    }

    method CloseAll()
      requires !isAvailable
      modifies this`connections, this`pending, this`available, this`isAvailable, this`told, this`asserted
      ensures Value() == Spec.CloseConnections(old(Value()))
    {
      CloseConnections();
      ClosePending();
    }

    method EnterClosing()
      modifies this`timer, this`state, this`readyNotices
      ensures Value() == Spec.EnterClosing(old(Value()))
    {
      timer := Off;
      if state.Connecting? {
        state := ClosingDown;
        readyNotices := readyNotices + 1;
      } else {
        state := ClosingDown;
      }
    }

    method BeginClose(cancel: bool)
      modifies this
      ensures Value() == Spec.BeginClose(old(Value()), cancel, cfg)
    {
      EnterClosing();
      SetIsAvailable(false);
      cancelReconnect := cancel;
      CloseAll();
    }

    method Close(cancel: bool)
      modifies this
      ensures Value() == Spec.Close(old(Value()), cancel, cfg)
    {
      if !state.ClosingDown? && !state.Closed? {
        BeginClose(cancel);
      }
      MaybeClose();
    }

    method FindLeastBusy(loads: seq<Load>) returns (found: bool, i: nat)
      requires |loads| == |connections| > 0
      ensures i == LeastBusy(loads)
      ensures found <==> Usable(Value(), loads, LeastBusy(loads))
    {
      i := 0;
      assert loads[..1] == [loads[0]];
      for k := 1 to |loads|
        invariant i < k && i == LeastBusy(loads[..k])
      {
        assert loads[..k + 1][..k] == loads[..k];
        if loads[k].busy < loads[i].busy {
          i := k;
        }
      }
      assert loads[..|loads|] == loads;
      found := connections[i].Ready? && loads[i].streams > 0;
    }

    /** A connection that is returned is ready, has a free stream and is the least busy of all, ready or not. */
    method BorrowConnection(loads: seq<Load>) returns (found: bool, i: nat)
      requires |loads| == |connections|
      modifies this`pending
      ensures Value() == Borrow(old(Value()), loads, cfg)
      ensures found <==> old(Lends(Value(), loads))
      ensures found ==> i == LeastBusy(loads)
    {
      found, i := false, 0;
      if connections == [] {
        for k := 0 to cfg.core
          invariant Value() == MaybeSpawnTimes(old(Value()), k, cfg)
          invariant connections == old(connections)
        {
          MaybeSpawnConnection();
        }
        return;
      }
      found, i := FindLeastBusy(loads);
      if !found || loads[i].busy >= cfg.threshold {
        MaybeSpawnConnection();
      }
    }

    method RemovePendingRequest(i: nat)
      requires i < |requests|
      modifies this`requests, this`isAvailable, this`told
      ensures Value() == SetAvailable(old(Value()).(requests := Without(old(requests), i)), true, cfg)
    {
      requests := requests[..i] + requests[i + 1..];
      SetIsAvailable(true);
    }

    method ReturnConnection(i: nat, w: Outcome)
      requires i < |connections|
      modifies this
      ensures Value() == Return(old(Value()), i, w, cfg)
    {
      if !connections[i].Ready? || requests == [] { return; }
      assert Without(requests, 0) == requests[1..];
      RemovePendingRequest(0);
      if w.WrittenOver? {
        connections := connections[i := Overwhelmed];
        OnAvailabilityChange(false);
      }
    }

    /** The change of availability when start-up is complete. */
    method TellStarted(c: Conn)
      modifies this`available, this`isAvailable, this`told, this`asserted
      ensures Value() == Notice(old(Value()), c, cfg)
    {
      if !c.Ready? {
        OnAvailabilityChange(!c.Closing?);
      }
    }

    /** `Connection::notify_ready`, which tells of the availability first and then calls `on_ready`. */
    method OnReady(i: nat, w: Outcome)
      requires i < |pending|
      modifies this
      ensures Value() == Spec.OnReady(old(Value()), i, w, cfg)
    {
      var c := pending[i];
      TellStarted(c);
      pending := pending[..i] + pending[i + 1..];
      connections := connections + [Started(c)];
      assert Value() == Moved(Notice(old(Value()), c, cfg), i);
      hide Notice;
      ReturnConnection(|connections| - 1, w);
      MaybeNotifyReady();
    }

    /** `on_close` for a connection of either list. */
    method OnClose(isPending: bool, i: nat, cause: Cause)
      requires i < if isPending then |pending| else |connections|
      modifies this
      ensures Value() == OnClosed(
                old(if isPending then Value().(pending := Without(pending, i))
                    else Value().(connections := Without(connections, i))), cause, cfg)
    {
      if isPending {
        pending := pending[..i] + pending[i + 1..];
      } else {
        connections := connections[..i] + connections[i + 1..];
      }
      AfterClose(cause);
    }

    method AfterClose(cause: Cause)
      modifies this
      ensures Value() == OnClosed(old(Value()), cause, cfg)
    {
      if cause.timeout && connections != [] {
        if timer.Off? {
          timer := PartialReconnect;
        }
        MaybeNotifyReady();
      } else if cause.defunct {
        if cause.critical {
          critical := true;
        }
        Close(false);
      } else {
        MaybeNotifyReady();
        MaybeClose();
      }
    }

    method WaitForConnection(r: Request)
      modifies this
      ensures Value() == AddRequest(old(Value()), r, cfg)
    {
      requests := requests + [r];
      if |requests| > cfg.high {
        SetIsAvailable(false);
      }
    }

    method OnPendingRequestTimeout(i: nat)
      requires i < |requests|
      modifies this
      ensures Value() == RequestTimesOut(old(Value()), i, cfg)
    {
      RemovePendingRequest(i);
      MaybeClose();
    }

    /** `on_wait_to_connect` and `on_partial_reconnect`. */
    method OnConnectTimer()
      requires !timer.Off?
      modifies this
      ensures Value() == TimerFires(old(Value()), cfg)
    {
      var expired := timer;
      timer := Off;
      if expired.WaitToConnect? {
        Connect();
      } else {
        var current := |connections| + |pending|;
        if current < cfg.core {
          SpawnConnections(cfg.core - current);
        }
      }
    }
  }
}
