/**
 A connection as its pool sees it (connection.cpp, pool.cpp): the steps that the pool allows its connections are those
 that the connections take, with the same notices about availability.
 */
module PoolConnection {
  import opened RequestLifecycle
  import PoolSpec

  /** What a pool knows of a connection. */
  function View(c: Conn): PoolSpec.Conn {
    match c.state
    case Ready => PoolSpec.Ready
    case Overwhelmed => PoolSpec.Overwhelmed
    case Close | CloseDefunct => PoolSpec.Closing
    case CNew | Connecting | Connected | RegisteringEvents => PoolSpec.Starting
  }

  function Told(c: Conn): int { c.balance }

  /** What the connection adds to the counter of its pool. */
  function Counted(c: PoolSpec.Conn): nat { if c.Ready? then 1 else 0 }

  // ---------- One step ----------

  lemma StateStepViews(c: Conn, cfg: Config, ev: Event, failed: bool)
    requires Enabled(c, cfg, ev)
    ensures
      var d := StateStep(c, cfg, ev, failed);
      if ev.EvNotifyReady? then View(d) == PoolSpec.Started(View(c))
      else View(d) == View(c) || PoolSpec.MayBecome(View(c), View(d))
  {
  }

  lemma StepViews(c: Conn, cfg: Config, ev: Event)
    requires Inv(c, cfg) && Enabled(c, cfg, ev)
    ensures
      var d := Step(c, cfg, ev);
      && (if ev.EvNotifyReady? then View(d) == PoolSpec.Started(View(c))
          else View(d) == View(c) || PoolSpec.MayBecome(View(c), View(d)))
      && d.balance - c.balance == Counted(View(d)) - Counted(View(c)) - (if StartsLate(c, ev) then 1 else 0)
      && (d.started <==> c.started || ev.EvNotifyReady?) && (ev.EvNotifyReady? ==> !c.started)
  {
    hide Inv, Step, StateStep;
    var failed := StepState(c, cfg, ev);
    StateStepViews(c, cfg, ev, failed);
    StepTells(c, cfg, ev);
  }

  /** Where a pool has the connection: at `i` in `pending` until its start-up is complete, then at `i` in
      `connections`. */
  ghost predicate Holds(p: PoolSpec.Pool, c: Conn, i: nat) {
    if c.started then i < |p.connections| && p.connections[i] == View(c)
    else i < |p.pending| && p.pending[i] == View(c)
  }

  /** The step of the pool for an event of the connection at `i`, if it is one. */
  function Steps(c: Conn, d: Conn, ev: Event, i: nat): seq<PoolSpec.Step> {
    if ev.EvNotifyReady? then
      [if View(c).Closing? then PoolSpec.LateReady(i) else PoolSpec.BecomeReady(i, PoolSpec.NoStream)]
    else if View(d) == View(c) then []
    else [if c.started then PoolSpec.ConnChange(i, View(d)) else PoolSpec.PendingChange(i, View(d))]
  }

  /** Where a pool with `n` connections has the connection after the event. */
  function Place(ev: Event, i: nat, n: nat): nat { if ev.EvNotifyReady? then n else i }

  lemma SetAvailableParts(p: PoolSpec.Pool, on: bool, cfg: PoolSpec.Config)
    ensures
      var q := PoolSpec.SetAvailable(p, on, cfg);
      q == p.(isAvailable := q.isAvailable, told := q.told)
  {
  }

  lemma ShiftParts(p: PoolSpec.Pool, from: PoolSpec.Conn, to: PoolSpec.Conn, cfg: PoolSpec.Config)
    ensures
      var q := PoolSpec.Shift(p, from, to, cfg);
      && q.connections == p.connections && q.pending == p.pending
      && q.available == p.available + Counted(to) - Counted(from)
  {
    hide PoolSpec.SetAvailable;
    SetAvailableParts(p.(available := p.available + 1), true, cfg);
    SetAvailableParts(p.(available := p.available - 1, asserted := p.asserted || p.available - 1 < 0), false, cfg);
  }

  lemma NoticeParts(p: PoolSpec.Pool, c: PoolSpec.Conn, cfg: PoolSpec.Config)
    ensures
      var q := PoolSpec.Notice(p, c, cfg);
      && q.connections == p.connections && q.pending == p.pending
      && q.available == p.available + if c.Closing? then -1 else if c.Ready? then 0 else 1
  {
    hide PoolSpec.SetAvailable;
    if c.Closing? {
      SetAvailableParts(p.(available := p.available - 1, asserted := p.asserted || p.available - 1 < 0), false, cfg);
    } else {
      hide PoolSpec.Shift;
      ShiftParts(p, c, PoolSpec.Ready, cfg);
    }
  }

  lemma ReturnParts(p: PoolSpec.Pool, i: nat, cfg: PoolSpec.Config)
    requires i < |p.connections|
    ensures
      var q := PoolSpec.Return(p, i, PoolSpec.NoStream, cfg);
      q.connections == p.connections && q.pending == p.pending && q.available == p.available
  {
    hide PoolSpec.SetAvailable;
    if p.requests != [] { SetAvailableParts(p.(requests := p.requests[1..]), true, cfg); }
  }

  lemma ReadyJoins(p: PoolSpec.Pool, i: nat, cfg: PoolSpec.Config)
    requires i < |p.pending|
    ensures
      var q, conn := PoolSpec.OnReady(p, i, PoolSpec.NoStream, cfg), p.pending[i];
      && q.connections == p.connections + [PoolSpec.Started(conn)]
      && q.available == p.available + if conn.Closing? then -1 else if conn.Ready? then 0 else 1
  {
    hide PoolSpec.Notice, PoolSpec.Return;
    NoticeParts(p, p.pending[i], cfg);
    var told := PoolSpec.Notice(p, p.pending[i], cfg);
    ReturnParts(PoolSpec.Moved(told, i), |told.connections|, cfg);
  }

  /** Every event of a connection but its close callback is no step of the pool, or one that the pool allows: then the
      pool sees what the connection has become, and its counter follows the notices. */
  lemma StepJoins(c: Conn, cfg: Config, ev: Event, p: PoolSpec.Pool, pcfg: PoolSpec.Config, i: nat)
    requires Inv(c, cfg) && Enabled(c, cfg, ev) && !ev.EvClosed? && Holds(p, c, i)
    ensures
      var d := Step(c, cfg, ev);
      var steps := Steps(c, d, ev, i);
      && PoolSpec.ValidRun(p, pcfg, steps)
      && Holds(PoolSpec.Run(p, pcfg, steps), d, Place(ev, i, |p.connections|))
      && (!ev.EvNotifyReady? ==> |PoolSpec.Run(p, pcfg, steps).connections| == |p.connections|)
      && PoolSpec.Run(p, pcfg, steps).available - p.available == d.balance - c.balance
  {
    hide Inv, Step, PoolSpec.Shift, PoolSpec.OnReady;
    StepViews(c, cfg, ev);
    var d := Step(c, cfg, ev);
    var steps := Steps(c, d, ev, i);
    if steps == [] { return; }
    assert steps[1..] == [];
    if ev.EvNotifyReady? {
      ReadyJoins(p, i, pcfg);
    } else if c.started {
      ShiftParts(p.(connections := p.connections[i := View(d)]), View(c), View(d), pcfg);
    } else {
      ShiftParts(p.(pending := p.pending[i := View(d)]), View(c), View(d), pcfg);
    }
  }

  /** The close callback comes when the pool allows it, and tells nothing. */
  lemma ClosedJoins(c: Conn, cfg: Config, p: PoolSpec.Pool, i: nat, cause: PoolSpec.Cause)
    requires Enabled(c, cfg, EvClosed) && Holds(p, c, i)
    ensures PoolSpec.Enabled(p, if c.started then PoolSpec.CloseDone(i, cause) else PoolSpec.PendingCloseDone(i, cause))
    ensures Step(c, cfg, EvClosed).balance == c.balance
  {
  }

  // ---------- Whole runs ----------

  lemma {:induction false} PoolRunAppend(p: PoolSpec.Pool, cfg: PoolSpec.Config, a: seq<PoolSpec.Step>,
                                         b: seq<PoolSpec.Step>)
    requires PoolSpec.ValidRun(p, cfg, a) && PoolSpec.ValidRun(PoolSpec.Run(p, cfg, a), cfg, b)
    ensures PoolSpec.ValidRun(p, cfg, a + b)
    ensures PoolSpec.Run(p, cfg, a + b) == PoolSpec.Run(PoolSpec.Run(p, cfg, a), cfg, b)
    decreases |a|
  {
    if a == [] {
      assert a + b == b;
    } else {
      hide PoolSpec.Next;
      assert (a + b)[1..] == a[1..] + b;
      PoolRunAppend(PoolSpec.Next(p, a[0], cfg), cfg, a[1..], b);
    }
  }

  /** The steps of a pool for the events of its connection at `i`, which comes to `n` when its start-up is complete. */
  ghost function RunSteps(c: Conn, cfg: Config, evs: seq<Event>, i: nat, n: nat): seq<PoolSpec.Step>
    requires ValidRun(c, cfg, evs)
    decreases |evs|
  {
    if evs == [] then []
    else
      var d := Step(c, cfg, evs[0]);
      Steps(c, d, evs[0], i) + RunSteps(d, cfg, evs[1..], Place(evs[0], i, n), n)
  }

  lemma {:induction false} RunJoinsFrom(c: Conn, cfg: Config, evs: seq<Event>, p: PoolSpec.Pool, pcfg: PoolSpec.Config,
                                        i: nat, n: nat)
    requires Inv(c, cfg) && !c.closed && ValidRun(c, cfg, evs) && !Run(c, cfg, evs).closed && Holds(p, c, i)
    requires if c.started then i == n else |p.connections| == n
    ensures
      var d, steps := Run(c, cfg, evs), RunSteps(c, cfg, evs, i, n);
      && PoolSpec.ValidRun(p, pcfg, steps)
      && Holds(PoolSpec.Run(p, pcfg, steps), d, if d.started then n else i)
      && PoolSpec.Run(p, pcfg, steps).available - p.available == d.balance - c.balance
      && (c.started ==> d.started)
    decreases |evs|
  {
    hide Inv, Step, Enabled, Holds, Steps, PoolSpec.Next, PoolSpec.Enabled;
    if evs != [] {
      NotTheLast(c, cfg, evs);
      var d := Step(c, cfg, evs[0]);
      StepKeepsInv(c, cfg, evs[0]);
      StepStaysOpen(c, cfg, evs[0]);
      StepViews(c, cfg, evs[0]);
      StepJoins(c, cfg, evs[0], p, pcfg, i);
      var first, at := Steps(c, d, evs[0], i), Place(evs[0], i, n);
      var q := PoolSpec.Run(p, pcfg, first);
      RunJoinsFrom(d, cfg, evs[1..], q, pcfg, at, n);
      PoolRunAppend(p, pcfg, first, RunSteps(d, cfg, evs[1..], at, n));
    }
  }

  lemma NotTheLast(c: Conn, cfg: Config, evs: seq<Event>)
    requires ValidRun(c, cfg, evs) && evs != [] && !Run(c, cfg, evs).closed
    ensures !evs[0].EvClosed?
  {
    if evs[0].EvClosed? { ClosedIsLast(c, cfg, evs); }
  }

  /** Main result: whatever a new connection goes through until its close callback, in any pool that has it among its
      pending ones, is a run of the pool, at the end of which the pool sees the connection as it is, and its counter has
      changed by the notices of the connection. */
  lemma RunJoins(cfg: Config, evs: seq<Event>, p: PoolSpec.Pool, pcfg: PoolSpec.Config, i: nat)
    requires ValidRun(Init, cfg, evs) && !Run(Init, cfg, evs).closed
    requires i < |p.pending| && p.pending[i].Starting?
    ensures
      var d, steps := Run(Init, cfg, evs), RunSteps(Init, cfg, evs, i, |p.connections|);
      && PoolSpec.ValidRun(p, pcfg, steps)
      && Holds(PoolSpec.Run(p, pcfg, steps), d, if d.started then |p.connections| else i)
      && PoolSpec.Run(p, pcfg, steps).available == p.available + d.balance
  {
    InitInv(cfg);
    RunJoinsFrom(Init, cfg, evs, p, pcfg, i, |p.connections|);
  }

  lemma {:induction false} StartedIsNotStarting(c: Conn, cfg: Config, evs: seq<Event>)
    requires Inv(c, cfg) && !c.closed && ValidRun(c, cfg, evs) && (c.started ==> !View(c).Starting?)
    ensures Run(c, cfg, evs).started ==> !View(Run(c, cfg, evs)).Starting?
    decreases |evs|
  {
    hide Inv, Step, Enabled;
    if evs != [] {
      StepViews(c, cfg, evs[0]);
      if evs[0].EvClosed? {
        ClosedIsLast(c, cfg, evs);
      } else {
        StepKeepsInv(c, cfg, evs[0]);
        StepStaysOpen(c, cfg, evs[0]);
        StartedIsNotStarting(Step(c, cfg, evs[0]), cfg, evs[1..]);
      }
    }
  }

  /** In every run, a connection whose start-up is complete is not starting any more. */
  lemma NoneStartsAgain(cfg: Config, evs: seq<Event>)
    requires ValidRun(Init, cfg, evs)
    ensures Run(Init, cfg, evs).started ==> !View(Run(Init, cfg, evs)).Starting?
  {
    InitInv(cfg);
    StartedIsNotStarting(Init, cfg, evs);
  }
}
