/**
 The query plan that defers slow hosts (latency_aware_policy.cpp), against the plan of its child policy.
 */
module LatencyAwarePolicy {
  import opened Options

  type Host = string

  // ---------- Which hosts are slow ----------

  /** The tracked average of a host, -1 if there is none, and the time since it was updated. */
  datatype Latency = Latency(average: int, measured: nat, elapsed: nat)

  datatype Settings = Settings(exclusionThreshold: real, retryPeriod: nat, minMeasured: nat)

  /** The cast of a double to an integer type. */
  function Truncate(r: real): int { if r >= 0.0 then r.Floor else -(-r).Floor }

  predicate Known(l: Latency, s: Settings) {
    l.average >= 0 && l.measured >= s.minMeasured && l.elapsed <= s.retryPeriod
  }

  /** A host is returned at once unless its average is known and exceeds the threshold. */
  predicate Fast(l: Latency, minAverage: int, s: Settings) {
    minAverage < 0 || !Known(l, s) || l.average <= Truncate(s.exclusionThreshold * minAverage as real)
  }

  /** The least of the known averages, if there is one. */
  ghost predicate IsLeast(latencies: seq<Latency>, s: Settings, least: Option<int>) {
    match least
    case None => forall i :: 0 <= i < |latencies| ==> !Known(latencies[i], s)
    case Some(a) =>
      && (exists i :: 0 <= i < |latencies| && Known(latencies[i], s) && latencies[i].average == a)
      && forall i :: 0 <= i < |latencies| && Known(latencies[i], s) ==> a <= latencies[i].average
  }

  /** `on_work`. */
  method MinAverage(latencies: seq<Latency>, s: Settings) returns (least: Option<int>)
    ensures IsLeast(latencies, s, least)
  {
    least := None;
    for i := 0 to |latencies|
      invariant least.None? <==> forall k :: 0 <= k < i ==> !Known(latencies[k], s)
      invariant least.Some? ==> exists k :: 0 <= k < i && Known(latencies[k], s) && latencies[k].average == least.value
      invariant least.Some? ==> forall k :: 0 <= k < i && Known(latencies[k], s) ==> least.value <= latencies[k].average
    {
      if Known(latencies[i], s) && (least.None? || latencies[i].average < least.value) {
        least := Some(latencies[i].average);
      }
    }
  }

  function Averages(hosts: seq<Host>, tracked: Host -> Latency): seq<Latency> {
    seq(|hosts|, i requires 0 <= i < |hosts| => tracked(hosts[i]))
  }

  /** The product with a number below one is less, and with one at or above one it is not. */
  lemma Scaled(threshold: real, a: int)
    requires a >= 0
    ensures a <= Truncate(threshold * a as real) <==> threshold >= 1.0 || a == 0
  {
    if threshold >= 1.0 {
      assert threshold * a as real >= 1.0 * a as real;
    } else if a > 0 {
      assert threshold * a as real < 1.0 * a as real;
    }
  }

  /** Measured against the least average, the fastest hosts are fast exactly if the threshold is at least one or they
      take no time at all, and if they are not, then no host with a known average is. */
  lemma FastestIsFast(hosts: seq<Host>, tracked: Host -> Latency, s: Settings, least: int, h: Host)
    requires IsLeast(Averages(hosts, tracked), s, Some(least)) && h in hosts && Known(tracked(h), s)
    ensures tracked(h).average == least ==>
              (Fast(tracked(h), least, s) <==> s.exclusionThreshold >= 1.0 || least == 0)
    ensures Fast(tracked(h), least, s) ==> s.exclusionThreshold >= 1.0 || least == 0
  {
    var i :| 0 <= i < |hosts| && hosts[i] == h;
    assert Averages(hosts, tracked)[i] == tracked(h);
    Scaled(s.exclusionThreshold, least);
  }

  // ---------- The plan ----------

  function Kept(hosts: seq<Host>, fast: Host -> bool, which: bool): seq<Host> {
    if hosts == [] then [] else (if fast(hosts[0]) == which then [hosts[0]] else []) + Kept(hosts[1..], fast, which)
  }

  lemma {:induction false} KeptIsPartition(hosts: seq<Host>, fast: Host -> bool)
    ensures multiset(Kept(hosts, fast, true)) + multiset(Kept(hosts, fast, false)) == multiset(hosts)
  {
    if hosts != [] {
      KeptIsPartition(hosts[1..], fast);
      assert hosts == [hosts[0]] + hosts[1..];
    }
  }

  lemma {:induction false} KeptHolds(hosts: seq<Host>, fast: Host -> bool, which: bool, h: Host)
    ensures h in Kept(hosts, fast, which) <==> h in hosts && fast(h) == which
  {
    if hosts != [] {
      KeptHolds(hosts[1..], fast, which, h);
    }
  }

  lemma TruncatedAbove(a: int, limit: real)
    requires a >= 0
    ensures a > Truncate(limit) <==> a as real > limit && !(a == 0 && limit > -1.0)
  {
  }

  /** A host is deferred exactly if there is a minimum, its own average is known, from enough measurements of which the
      last is recent enough, and that average exceeds the threshold times the minimum; an average of zero does not
      exceed what the cast makes zero. */
  lemma DeferredExactly(child: seq<Host>, tracked: Host -> Latency, s: Settings, minAverage: int, h: Host)
    requires h in child
    ensures
      var l, limit := tracked(h), s.exclusionThreshold * minAverage as real;
      h in Kept(child, g => Fast(tracked(g), minAverage, s), false) <==>
      && minAverage >= 0
      && l.average >= 0 && l.measured >= s.minMeasured && l.elapsed <= s.retryPeriod
      && l.average as real > limit && !(l.average == 0 && limit > -1.0)
  {
    var l, limit := tracked(h), s.exclusionThreshold * minAverage as real;
    KeptHolds(child, g => Fast(tracked(g), minAverage, s), false, h);
    if l.average >= 0 { TruncatedAbove(l.average, limit); }
  }

  /** Where the fastest hosts are in the plan: among the fast ones exactly if the threshold is at least one or they take
      no time at all, and otherwise with all the others whose average is known among those that are deferred. */
  lemma FastestComesFirst(child: seq<Host>, hosts: seq<Host>, tracked: Host -> Latency, s: Settings, least: int)
    requires IsLeast(Averages(hosts, tracked), s, Some(least))
    ensures
      var fast := g => Fast(tracked(g), least, s);
      forall h :: h in child && h in hosts && Known(tracked(h), s) ==>
        if s.exclusionThreshold >= 1.0 || least == 0 then
          tracked(h).average == least ==> h in Kept(child, fast, true)
        else h in Kept(child, fast, false)
  {
    hide IsLeast, Fast, Known;
    var fast := g => Fast(tracked(g), least, s);
    forall h | h in child && h in hosts && Known(tracked(h), s)
      ensures
        if s.exclusionThreshold >= 1.0 || least == 0 then
          tracked(h).average == least ==> h in Kept(child, fast, true)
        else h in Kept(child, fast, false)
    {
      FastestIsFast(hosts, tracked, s, least, h);
      KeptHolds(child, fast, true, h);
      KeptHolds(child, fast, false, h);
    }
  }

  lemma Regroup(a: seq<Host>, b: seq<Host>, c: seq<Host>)
    ensures (a + b) + c == a + (b + c) && [] + c == c
  {
  }

  /** What is still to come as long as the verdicts stay the same: fast hosts of the child, then the deferred ones. */
  function Coming(child: seq<Host>, deferred: seq<Host>, fast: Host -> bool): seq<Host> {
    Kept(child, fast, true) + (deferred + Kept(child, fast, false))
  }

  /** Whatever the verdicts have been, no host of the child plan is lost or made up. */
  ghost predicate Balanced(returned: seq<Host>, deferred: seq<Host>, child: seq<Host>, all: seq<Host>) {
    multiset(returned) + multiset(deferred) + multiset(child) == multiset(all)
  }

  lemma FastFirst(child: seq<Host>, deferred: seq<Host>, fast: Host -> bool, returned: seq<Host>, all: seq<Host>)
    requires child != [] && fast(child[0]) && Balanced(returned, deferred, child, all)
    ensures Coming(child, deferred, fast) == [child[0]] + Coming(child[1..], deferred, fast)
    ensures Balanced(returned + [child[0]], deferred, child[1..], all)
  {
    Regroup([child[0]], Kept(child[1..], fast, true), deferred + Kept(child[1..], fast, false));
    Regroup([], [], Kept(child[1..], fast, false));
    assert child == [child[0]] + child[1..];
  }

  lemma SlowLast(child: seq<Host>, deferred: seq<Host>, fast: Host -> bool, returned: seq<Host>, all: seq<Host>)
    requires child != [] && !fast(child[0]) && Balanced(returned, deferred, child, all)
    ensures Coming(child, deferred, fast) == Coming(child[1..], deferred + [child[0]], fast)
    ensures Balanced(returned, deferred + [child[0]], child[1..], all)
  {
    Regroup(deferred, [child[0]], Kept(child[1..], fast, false));
    Regroup([], [], Kept(child[1..], fast, true));
    assert child == [child[0]] + child[1..];
  }

  lemma DeferredNext(deferred: seq<Host>, fast: Host -> bool, returned: seq<Host>, all: seq<Host>)
    requires Balanced(returned, deferred, [], all)
    ensures Coming([], deferred, fast) == deferred
    ensures deferred == [] ==> multiset(returned) == multiset(all)
    ensures deferred != [] ==> Balanced(returned + [deferred[0]], deferred[1..], [], all)
  {
    if deferred != [] { assert deferred == [deferred[0]] + deferred[1..]; }
  }

  class QueryPlan {
    var child: seq<Host> // what the child plan will still return
    var skipped: seq<Host>
    var skippedIndex: nat
    ghost const all: seq<Host>
    ghost var returned: seq<Host>

    ghost predicate Valid()
      reads this
    {
      skippedIndex <= |skipped| && Balanced(returned, skipped[skippedIndex..], child, all)
    }

    ghost function Rest(fast: Host -> bool): seq<Host>
      requires Valid()
      reads this
    {
      Coming(child, skipped[skippedIndex..], fast)
    }

    constructor (hosts: seq<Host>)
      ensures Valid() && all == hosts && returned == []
      ensures child == hosts && skipped == [] && skippedIndex == 0
    {
      child, skipped, skippedIndex := hosts, [], 0;
      all, returned := hosts, [];
    }

    method ComputeNext(fast: Host -> bool) returns (host: Option<Host>)
      requires Valid()
      modifies this
      ensures Valid()
      ensures old(Rest(fast)) == if host.Some? then [host.value] + Rest(fast) else []
      ensures returned == if host.Some? then old(returned) + [host.value] else old(returned)
      ensures host.None? ==> Rest(fast) == [] && multiset(returned) == multiset(all)
    {
      hide Coming, Balanced;
      while child != []
        invariant Valid() && Rest(fast) == old(Rest(fast)) && returned == old(returned)
        decreases |child|
      {
        var h := child[0];
        if fast(h) {
          Give(h, fast);
          return Some(h);
        }
        Defer(h, fast);
      }
      host := NextDeferred(fast);
    }

    method Give(h: Host, fast: Host -> bool)
      requires Valid() && child != [] && h == child[0] && fast(h)
      modifies this`child, this`returned
      ensures Valid() && old(Rest(fast)) == [h] + Rest(fast) && returned == old(returned) + [h]
    {
      FastFirst(child, skipped[skippedIndex..], fast, returned, all);
      child := child[1..];
      returned := returned + [h];
    }

    method Defer(h: Host, fast: Host -> bool)
      requires Valid() && child != [] && h == child[0] && !fast(h)
      modifies this`child, this`skipped
      ensures Valid() && Rest(fast) == old(Rest(fast)) && |child| < |old(child)|
    {
      ghost var deferred := skipped[skippedIndex..];
      SlowLast(child, deferred, fast, returned, all);
      child := child[1..];
      skipped := skipped + [h];
      assert skipped[skippedIndex..] == deferred + [h];
    }

    method NextDeferred(fast: Host -> bool) returns (host: Option<Host>)
      requires Valid() && child == []
      modifies this`skippedIndex, this`returned
      ensures Valid()
      ensures old(Rest(fast)) == if host.Some? then [host.value] + Rest(fast) else []
      ensures returned == if host.Some? then old(returned) + [host.value] else old(returned)
      ensures host.None? ==> Rest(fast) == [] && multiset(returned) == multiset(all)
    {
      DeferredNext(skipped[skippedIndex..], fast, returned, all);
      if skippedIndex < |skipped| {
        host := Some(skipped[skippedIndex]);
        assert skipped[skippedIndex..] == [host.value] + skipped[skippedIndex + 1..];
        skippedIndex := skippedIndex + 1;
        returned := returned + [host.value];
        DeferredNext(skipped[skippedIndex..], fast, returned, all);
        return;
      }
      return None;
    }
  }

  /** With verdicts that stay the same, the plan is the fast hosts and then the others, each in the child's order. */
  method DrainPlan(hosts: seq<Host>, fast: Host -> bool) returns (result: seq<Host>)
    ensures result == Kept(hosts, fast, true) + Kept(hosts, fast, false)
    ensures multiset(result) == multiset(hosts)
  {
    var plan := new QueryPlan(hosts);
    KeptIsPartition(hosts, fast);
    Regroup([], [], Kept(hosts, fast, false));
    result := [];
    Regroup([], [], plan.Rest(fast));
    ghost var whole := plan.Rest(fast);
    var host := plan.ComputeNext(fast);
    while host.Some?
      invariant plan.Valid() && fresh(plan)
      invariant whole == if host.Some? then result + ([host.value] + plan.Rest(fast)) else result
      decreases host.Some?, |plan.Rest(fast)|
    {
      Regroup(result, [host.value], plan.Rest(fast));
      result := result + [host.value];
      host := plan.ComputeNext(fast);
    }
  }
}
