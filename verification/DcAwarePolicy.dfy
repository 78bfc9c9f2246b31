/**
 The query plan of the policy that prefers the local data center (dc_aware_policy.cpp), against a description of the
 whole plan, and the distances that the policy gives to hosts.
 */
module DcAwarePolicy {
  import opened Options

  datatype Host = Host(address: string, dc: string)

  /** A data center with its live hosts. */
  datatype Center = Center(name: string, hosts: seq<Host>)

  /** The remote data centers are in the order of their names. */
  datatype Policy = Policy(localDc: string, usedPerRemote: nat, skipRemoteForLocal: bool, local: seq<Host>,
                           remote: seq<Center>)

  function Min(a: nat, b: nat): (m: nat)
    ensures m <= a && m <= b && (m == a || m == b)
  {
    if a < b then a else b
  }

  // ---------- The plan ----------

  /** `index % n`, by subtraction. */
  function Position(index: nat, n: nat): (r: nat)
    requires n > 0
    ensures r < n
  {
    if index < n then index else Position(index - n, n)
  }

  lemma {:induction false} PositionIsRemainder(index: nat, n: nat)
    requires n > 0
    ensures Position(index, n) == index % n
  {
    var q, r := index / n, index % n;
    assert index == q * n + r;
    if index < n {
      Remainder(index, 0, index, n);
    } else {
      PositionIsRemainder(index - n, n);
      assert q > 0;
      assert index - n == (q - 1) * n + r;
      Remainder(index - n, q - 1, r, n);
    }
  }

  lemma Remainder(m: nat, q: nat, r: nat, n: nat)
    requires n > 0 && m == q * n + r && r < n
    ensures m % n == r
  {
    var d := m / n - q;
    assert m == m / n * n + m % n;
    assert d * n == m / n * n - q * n;
    if d >= 1 { Multiple(d, n); }
    if d <= -1 { Multiple(-d, n); }
  }

  lemma Multiple(m: nat, n: nat)
    requires m > 0
    ensures m * n >= n
  {
    assert m * n == (m - 1) * n + n;
  }

  lemma {:induction false} NextPosition(index: nat, n: nat)
    requires n > 0
    ensures Position(index + 1, n) == if Position(index, n) + 1 < n then Position(index, n) + 1 else 0
  {
    if index >= n {
      NextPosition(index - n, n);
    }
  }

  /** `n` hosts around the list from position `index`. */
  function Around(hosts: seq<Host>, index: nat, n: nat): (asked: seq<Host>)
    requires n > 0 ==> hosts != []
    ensures |asked| == n
    decreases n
  {
    if n == 0 then [] else [hosts[Position(index, |hosts|)]] + Around(hosts, index + 1, n - 1)
  }

  function RemoteOrder(centers: seq<Center>, index: nat, used: nat): seq<Host> {
    if centers == [] then []
    else
      var n := Min(|centers[0].hosts|, used);
      Around(centers[0].hosts, index, n) + RemoteOrder(centers[1..], index + n, used)
  }

  /** The hosts in the order in which a plan asks them whether they are up: local hosts, then some hosts of each remote
      data center unless the consistency level is local. */
  function Order(p: Policy, index: nat, localOnly: bool): seq<Host> {
    Around(p.local, index, |p.local|) +
    if p.skipRemoteForLocal && localOnly then [] else RemoteOrder(p.remote, index + |p.local|, p.usedPerRemote)
  }

  /** What `is_up` says of a host when the counter of the plan is at a number: hosts go up and down all the time. */
  type Answers = (nat, Host) -> bool

  /** The hosts that are up when they are asked, one at each number from `index`. */
  function Kept(hosts: seq<Host>, index: nat, up: Answers): seq<Host> {
    if hosts == [] then [] else (if up(index, hosts[0]) then [hosts[0]] else []) + Kept(hosts[1..], index + 1, up)
  }

  /** All that a plan returns. */
  function Plan(p: Policy, index: nat, localOnly: bool, up: Answers): seq<Host> {
    Kept(Order(p, index, localOnly), index, up)
  }

  // ---------- One question after the other ----------

  /** From `was` the hosts before `now` have been asked in vain. */
  ghost predicate Skips(was: seq<Host>, from: nat, up: Answers, now: seq<Host>, index: nat) {
    && from <= index <= from + |was| && now == was[index - from..]
    && forall k :: 0 <= k < index - from ==> !up(from + k, was[k])
  }

  /** The first host of `was` that is up is returned, and `now` is left. */
  ghost predicate Returns(was: seq<Host>, from: nat, up: Answers, host: Option<Host>, now: seq<Host>, index: nat) {
    match host
    case None => now == [] && Skips(was, from, up, [], index)
    case Some(h) => from < index && Skips(was, from, up, [h] + now, index - 1) && up(index - 1, h)
  }

  lemma SkipsNone(was: seq<Host>, from: nat, up: Answers)
    ensures Skips(was, from, up, was, from)
  {
  }

  lemma NoneReturned(was: seq<Host>, from: nat, up: Answers, index: nat)
    requires Skips(was, from, up, [], index)
    ensures Returns(was, from, up, None, [], index)
  {
  }

  lemma OneReturned(was: seq<Host>, from: nat, up: Answers, h: Host, now: seq<Host>, index: nat)
    requires index > 0 && Skips(was, from, up, [h] + now, index - 1) && up(index - 1, h)
    ensures Returns(was, from, up, Some(h), now, index)
  {
  }

  lemma SkipsMore(a: seq<Host>, i: nat, up: Answers, b: seq<Host>, j: nat, c: seq<Host>, k: nat)
    requires Skips(a, i, up, b, j) && Skips(b, j, up, c, k)
    ensures Skips(a, i, up, c, k)
  {
    forall n | 0 <= n < k - i ensures !up(i + n, a[n]) {
      assert n >= j - i ==> a[n] == b[n - (j - i)] && !up(j + (n - (j - i)), b[n - (j - i)]);
    }
  }

  lemma SkipsThenReturns(a: seq<Host>, i: nat, up: Answers, b: seq<Host>, j: nat, host: Option<Host>, c: seq<Host>,
                         k: nat)
    requires Skips(a, i, up, b, j) && Returns(b, j, up, host, c, k)
    ensures Returns(a, i, up, host, c, k)
  {
    hide Skips;
    match host
    case None => SkipsMore(a, i, up, b, j, [], k);
    case Some(h) => SkipsMore(a, i, up, b, j, [h] + c, k - 1); SkipsOn(a, i, up, b, j);
  }

  lemma SkipsOn(a: seq<Host>, i: nat, up: Answers, b: seq<Host>, j: nat)
    requires Skips(a, i, up, b, j)
    ensures i <= j
  {
  }

  lemma SkipsBefore(a: seq<Host>, i: nat, up: Answers, b: seq<Host>, j: nat, behind: seq<Host>)
    requires Skips(a, i, up, b, j)
    ensures Skips(a + behind, i, up, b + behind, j)
  {
  }

  lemma ReturnsBefore(a: seq<Host>, i: nat, up: Answers, host: Option<Host>, b: seq<Host>, j: nat, behind: seq<Host>)
    requires Returns(a, i, up, host, b, j)
    ensures host.Some? ==> Returns(a + behind, i, up, host, b + behind, j)
    ensures host.None? ==> Skips(a + behind, i, up, behind, j)
  {
    match host
    case None =>
      SkipsBefore(a, i, up, [], j, behind);
      assert [] + behind == behind;
    case Some(h) =>
      SkipsBefore(a, i, up, [h] + b, j - 1, behind);
      assert ([h] + b) + behind == [h] + (b + behind);
  }

  lemma {:induction false} SkipsKeep(was: seq<Host>, from: nat, up: Answers, now: seq<Host>, index: nat)
    requires Skips(was, from, up, now, index)
    ensures Kept(was, from, up) == Kept(now, index, up)
    decreases index - from
  {
    if from < index {
      assert !up(from + 0, was[0]);
      forall k | 0 <= k < index - (from + 1) ensures !up(from + 1 + k, was[1..][k]) {
        assert !up(from + (k + 1), was[k + 1]);
      }
      SkipsKeep(was[1..], from + 1, up, now, index);
    }
  }

  lemma ReturnsKeep(was: seq<Host>, from: nat, up: Answers, host: Option<Host>, now: seq<Host>, index: nat)
    requires Returns(was, from, up, host, now, index)
    ensures Kept(was, from, up) == if host.Some? then [host.value] + Kept(now, index, up) else []
    ensures host.Some? ==> |now| < |was|
  {
    match host
    case None => SkipsKeep(was, from, up, [], index);
    case Some(h) =>
      SkipsKeep(was, from, up, [h] + now, index - 1);
      assert ([h] + now)[1..] == now;
  }

  lemma AroundFirst(hosts: seq<Host>, index: nat, n: nat)
    requires hosts != [] && n > 0
    ensures Around(hosts, index, n) == [hosts[index % |hosts|]] + Around(hosts, index + 1, n - 1)
  {
    PositionIsRemainder(index, |hosts|);
  }

  /** The hosts around a list, one position after the other. */
  lemma {:induction false} AroundAt(hosts: seq<Host>, index: nat, n: nat, k: nat)
    requires hosts != [] && k < n
    ensures Around(hosts, index, n)[k] == hosts[(index + k) % |hosts|]
    decreases k
  {
    AroundFirst(hosts, index, n);
    if k > 0 { AroundAt(hosts, index + 1, n - 1, k - 1); }
  }

  lemma AroundNone(hosts: seq<Host>, index: nat)
    ensures Around(hosts, index, 0) == []
  {
  }

  lemma NoCenters(index: nat, used: nat)
    ensures RemoteOrder([], index, used) == []
  {
  }

  class QueryPlan {
    const policy: Policy
    const localOnly: bool // the consistency level is one of a local data center
    var hosts: seq<Host>
    var remoteDcs: Option<seq<Center>> // none until they are needed
    var localRemaining: nat
    var remoteRemaining: nat
    var index: nat

    ghost predicate Valid()
      reads this
    {
      && (localRemaining > 0 || remoteRemaining > 0 ==> hosts != [])
      && (remoteDcs.None? ==> remoteRemaining == 0)
      && (localRemaining > 0 ==> remoteDcs.None?)
      && (policy.skipRemoteForLocal && localOnly ==> remoteDcs.None?)
    }

    ghost function LocalRest(): seq<Host>
      requires Valid()
      reads this
    {
      Around(hosts, index, localRemaining)
    }

    ghost function RemoteRest(): seq<Host>
      requires Valid()
      reads this
    {
      if policy.skipRemoteForLocal && localOnly then []
      else if remoteDcs.None? then RemoteOrder(policy.remote, index + localRemaining, policy.usedPerRemote)
      else
        Around(hosts, index, remoteRemaining) +
        RemoteOrder(remoteDcs.value, index + remoteRemaining, policy.usedPerRemote)
    }

    /** The hosts that have not been asked. */
    ghost function Rest(): seq<Host>
      requires Valid()
      reads this
    {
      LocalRest() + RemoteRest()
    }

    constructor (policy: Policy, localOnly: bool, index: nat)
      ensures Valid() && Rest() == Order(policy, index, localOnly) && this.index == index
    {
      this.policy, this.localOnly, this.index := policy, localOnly, index;
      hosts, remoteDcs, localRemaining, remoteRemaining := policy.local, None, |policy.local|, 0;
    }

    /** The loops over the hosts at hand. */
    method NextHere(remaining: nat, up: Answers) returns (host: Option<Host>, left: nat)
      requires remaining > 0 ==> hosts != []
      modifies this`index
      ensures left <= remaining && index == old(index) + (remaining - left)
      ensures Returns(Around(hosts, old(index), remaining), old(index), up, host, Around(hosts, index, left), index)
    {
      hide Skips, Returns, Around;
      ghost var was := Around(hosts, index, remaining);
      SkipsNone(was, index, up);
      left := remaining;
      while left > 0
        invariant left <= remaining && index == old(index) + (remaining - left)
        invariant Skips(was, old(index), up, Around(hosts, index, left), index)
      {
        AroundFirst(hosts, index, left);
        left := left - 1;
        var h := hosts[index % |hosts|];
        index := index + 1;
        if up(index - 1, h) {
          OneReturned(was, old(index), up, h, Around(hosts, index, left), index);
          return Some(h), left;
        }
        AskedInVain(was, old(index), up, h, Around(hosts, index, left), index - 1);
      }
      AroundNone(hosts, index);
      NoneReturned(was, old(index), up, index);
      return None, left;
    }

    /** The first host that is up when it is asked, and nothing if there is none; the hosts behind it are left. */
    method ComputeNext(up: Answers) returns (host: Option<Host>)
      requires Valid()
      modifies this
      ensures Valid()
      ensures Returns(old(Rest()), old(index), up, host, Rest(), index)
    {
      ghost var was := Rest();
      host := NextLocal(up);
      if host.Some? { return; }
      NothingLocal();
      if policy.skipRemoteForLocal && localOnly {
        return None;
      }
      PrepareRemote();
      ghost var now, from := RemoteRest(), index;
      host := NextRemote(up);
      NothingLocal();
      SkipsThenReturns(was, old(index), up, now, from, host, Rest(), index);
    }

    lemma NothingLocal()
      requires Valid() && localRemaining == 0
      ensures Rest() == RemoteRest()
    {
    }

    method NextLocal(up: Answers) returns (host: Option<Host>)
      requires Valid()
      modifies this`index, this`localRemaining
      ensures Valid()
      ensures host.Some? ==> Returns(old(Rest()), old(index), up, host, Rest(), index)
      ensures host.None? ==> localRemaining == 0 && Skips(old(Rest()), old(index), up, RemoteRest(), index)
    {
      hide Skips, Returns, Around, RemoteOrder;
      ghost var was, behind := LocalRest(), RemoteRest();
      ghost var total := index + localRemaining;
      host, localRemaining := NextHere(localRemaining, up);
      assert index + localRemaining == total;
      assert RemoteRest() == behind;
      ReturnsBefore(was, old(index), up, host, LocalRest(), index, behind);
      if host.None? { NoneIsLeft(was, old(index), up, LocalRest(), index); }
    }

    method PrepareRemote()
      requires Valid() && localRemaining == 0 && !(policy.skipRemoteForLocal && localOnly)
      modifies this`remoteDcs
      ensures Valid() && remoteDcs.Some? && RemoteRest() == old(RemoteRest())
    {
      if remoteDcs.None? {
        remoteDcs := Some(policy.remote);
        assert Around(hosts, index, remoteRemaining) == [];
      }
    }

    method NextRemote(up: Answers) returns (host: Option<Host>)
      requires Valid() && localRemaining == 0 && remoteDcs.Some?
      modifies this
      ensures Valid() && localRemaining == 0
      ensures Returns(old(RemoteRest()), old(index), up, host, RemoteRest(), index)
    {
      hide Skips, Returns, Around, RemoteOrder;
      ghost var was := RemoteRest();
      SkipsNone(was, index, up);
      while true
        invariant Valid() && localRemaining == 0 && remoteDcs.Some?
        invariant Skips(was, old(index), up, RemoteRest(), index)
        decreases |remoteDcs.value|
      {
        ghost var now, from := RemoteRest(), index;
        host := NextInCenter(up);
        if host.Some? {
          SkipsThenReturns(was, old(index), up, now, from, host, RemoteRest(), index);
          return;
        }
        SkipsMore(was, old(index), up, now, from, RemoteRest(), index);
        if remoteDcs.value == [] { break; }
        NextCenter();
      }
      NothingRemote();
      NoneReturned(was, old(index), up, index);
      return None;
    }

    lemma NothingRemote()
      requires Valid() && remoteDcs == Some([]) && remoteRemaining == 0
      ensures RemoteRest() == []
    {
    }

    method NextInCenter(up: Answers) returns (host: Option<Host>)
      requires Valid() && localRemaining == 0 && remoteDcs.Some?
      modifies this`index, this`remoteRemaining
      ensures Valid()
      ensures host.Some? ==> Returns(old(RemoteRest()), old(index), up, host, RemoteRest(), index)
      ensures host.None? ==> remoteRemaining == 0 && Skips(old(RemoteRest()), old(index), up, RemoteRest(), index)
    {
      hide Skips, Returns, Around, RemoteOrder;
      ghost var was, from := Around(hosts, index, remoteRemaining), index;
      ghost var behind := RemoteOrder(remoteDcs.value, index + remoteRemaining, policy.usedPerRemote);
      ghost var total := index + remoteRemaining;
      assert RemoteRest() == was + behind;
      host, remoteRemaining := NextHere(remoteRemaining, up);
      assert index + remoteRemaining == total;
      ghost var here := Around(hosts, index, remoteRemaining);
      assert RemoteRest() == here + behind;
      ReturnsBefore(was, from, up, host, here, index, behind);
      if host.None? {
        NoneIsLeft(was, from, up, here, index);
        assert here + behind == behind;
      }
    }

    method NextCenter()
      requires Valid() && localRemaining == 0 && remoteRemaining == 0 && remoteDcs.Some? && remoteDcs.value != []
      modifies this`hosts, this`remoteRemaining, this`remoteDcs
      ensures Valid() && RemoteRest() == old(RemoteRest())
      ensures remoteDcs.Some? && |remoteDcs.value| < |old(remoteDcs).value|
    {
      hide Around;
      ghost var dcs := remoteDcs.value;
      AroundNone(hosts, index);
      hosts := remoteDcs.value[0].hosts;
      remoteRemaining := Min(|hosts|, policy.usedPerRemote);
      remoteDcs := Some(remoteDcs.value[1..]);
      assert RemoteRest() == RemoteOrder(dcs, index, policy.usedPerRemote);
    }
  }

  lemma AskedInVain(was: seq<Host>, from: nat, up: Answers, h: Host, now: seq<Host>, index: nat)
    requires Skips(was, from, up, [h] + now, index) && !up(index, h)
    ensures Skips(was, from, up, now, index + 1)
  {
    assert was[index - from] == ([h] + now)[0];
    assert was[index + 1 - from..] == was[index - from..][1..];
  }

  lemma NoneIsLeft(was: seq<Host>, from: nat, up: Answers, now: seq<Host>, index: nat)
    requires Returns(was, from, up, None, now, index)
    ensures now == []
  {
  }

  /** Asking until there is no host gives the whole plan. */
  method DrainPlan(policy: Policy, localOnly: bool, index: nat, up: Answers) returns (hosts: seq<Host>)
    ensures hosts == Plan(policy, index, localOnly, up)
  {
    hide Returns, Order, Kept, Around, RemoteOrder, QueryPlan.Rest;
    var plan := new QueryPlan(policy, localOnly, index);
    hosts := [];
    ghost var coming := Plan(policy, index, localOnly, up);
    ghost var was, from := plan.Rest(), plan.index;
    var host := plan.ComputeNext(up);
    ReturnsKeep(was, from, up, host, plan.Rest(), plan.index);
    while host.Some?
      invariant plan.Valid() && fresh(plan)
      invariant Plan(policy, index, localOnly, up) == hosts + coming
      invariant coming == if host.Some? then [host.value] + Kept(plan.Rest(), plan.index, up) else []
      decreases host.Some?, |plan.Rest()|
    {
      was, from := plan.Rest(), plan.index;
      coming := Kept(was, from, up);
      Regroup(hosts, [host.value], coming);
      hosts := hosts + [host.value];
      host := plan.ComputeNext(up);
      ReturnsKeep(was, from, up, host, plan.Rest(), plan.index);
    }
  }

  lemma Regroup(a: seq<Host>, b: seq<Host>, c: seq<Host>)
    ensures (a + b) + c == a + (b + c)
  {
  }

  // ---------- Completeness and order ----------

  lemma {:induction false} KeptAppend(a: seq<Host>, b: seq<Host>, index: nat, up: Answers)
    ensures Kept(a + b, index, up) == Kept(a, index, up) + Kept(b, index + |a|, up)
  {
    if a == [] {
      assert a + b == b;
    } else {
      var first := if up(index, a[0]) then [a[0]] else [];
      assert (a + b)[1..] == a[1..] + b;
      KeptAppend(a[1..], b, index + 1, up);
      assert Kept(a + b, index, up) == first + Kept(a[1..] + b, index + 1, up);
      Regroup(first, Kept(a[1..], index + 1, up), Kept(b, index + |a|, up));
    }
  }

  lemma {:induction false} KeptAlways(hosts: seq<Host>, index: nat, up: Answers, h: Host)
    requires forall k :: up(k, h)
    ensures multiset(Kept(hosts, index, up))[h] == multiset(hosts)[h]
  {
    if hosts != [] {
      var rest := hosts[1..];
      KeptAlways(rest, index + 1, up, h);
      var first := if up(index, hosts[0]) then [hosts[0]] else [];
      assert Kept(hosts, index, up) == first + Kept(rest, index + 1, up);
      assert multiset(first)[h] == if hosts[0] == h then 1 else 0;
      assert hosts == [hosts[0]] + rest;
    }
  }

  lemma {:induction false} KeptMembers(hosts: seq<Host>, index: nat, up: Answers)
    ensures forall h :: h in Kept(hosts, index, up) ==> h in hosts
  {
    if hosts != [] {
      KeptMembers(hosts[1..], index + 1, up);
    }
  }

  lemma {:induction false} KeptAll(hosts: seq<Host>, index: nat, up: Answers)
    requires forall k, h :: up(k, h)
    ensures Kept(hosts, index, up) == hosts
  {
    if hosts != [] {
      KeptAll(hosts[1..], index + 1, up);
    }
  }

  /** `k` hosts around the list from position `r`. */
  function Window(hosts: seq<Host>, r: nat, k: nat): (w: seq<Host>)
    requires r < |hosts| && k <= |hosts|
    ensures |w| == k
    ensures forall j :: 0 <= j < k ==> w[j] == hosts[if r + j < |hosts| then r + j else r + j - |hosts|]
  {
    (hosts[r..] + hosts[..r])[..k]
  }

  lemma WindowStep(hosts: seq<Host>, r: nat, k: nat)
    requires r < |hosts| && 0 < k <= |hosts|
    ensures Window(hosts, r, k) == [hosts[r]] + Window(hosts, if r + 1 < |hosts| then r + 1 else 0, k - 1)
  {
  }

  lemma {:induction false} AroundIsWindow(hosts: seq<Host>, index: nat, k: nat)
    requires hosts != [] && k <= |hosts|
    ensures Around(hosts, index, k) == Window(hosts, Position(index, |hosts|), k)
    decreases k
  {
    if k > 0 {
      NextPosition(index, |hosts|);
      AroundIsWindow(hosts, index + 1, k - 1);
      WindowStep(hosts, Position(index, |hosts|), k);
    }
  }

  lemma AroundIsRotation(hosts: seq<Host>, index: nat) returns (r: nat)
    ensures r <= |hosts| && Around(hosts, index, |hosts|) == hosts[r..] + hosts[..r]
    ensures multiset(Around(hosts, index, |hosts|)) == multiset(hosts)
  {
    r := 0;
    if hosts != [] {
      r := Position(index, |hosts|);
      AroundIsWindow(hosts, index, |hosts|);
    }
    assert hosts == hosts[..r] + hosts[r..];
  }

  /** Every local host is asked, exactly as often as it is in the list, before any remote host.  What the local hosts
      answer does not change who is asked. */
  lemma LocalHostsFirst(p: Policy, index: nat, localOnly: bool, up: Answers)
    ensures
      var n, order := |p.local|, Order(p, index, localOnly);
      && n <= |order| && multiset(order[..n]) == multiset(p.local)
      && (p.skipRemoteForLocal && localOnly ==> order[n..] == [])
      && Plan(p, index, localOnly, up) == Kept(order[..n], index, up) + Kept(order[n..], index + n, up)
      && forall h :: (forall k :: up(k, h)) ==> multiset(Kept(order[..n], index, up))[h] == multiset(p.local)[h]
  {
    var n, order := |p.local|, Order(p, index, localOnly);
    var r := AroundIsRotation(p.local, index);
    assert order[..n] == Around(p.local, index, n);
    assert order == order[..n] + order[n..];
    KeptAppend(order[..n], order[n..], index, up);
    forall h | forall k :: up(k, h) ensures multiset(Kept(order[..n], index, up))[h] == multiset(p.local)[h] {
      KeptAlways(order[..n], index, up, h);
    }
  }

  // ---------- No host twice ----------

  ghost predicate Distinct(hosts: seq<Host>) { forall i, j :: 0 <= i < j < |hosts| ==> hosts[i] != hosts[j] }

  lemma {:induction false} KeptDistinct(hosts: seq<Host>, index: nat, up: Answers)
    requires Distinct(hosts)
    ensures Distinct(Kept(hosts, index, up))
  {
    if hosts != [] {
      KeptDistinct(hosts[1..], index + 1, up);
      KeptMembers(hosts[1..], index + 1, up);
      assert hosts[0] !in hosts[1..];
    }
  }

  lemma AroundDistinct(hosts: seq<Host>, index: nat, k: nat)
    requires k <= |hosts| && Distinct(hosts)
    ensures Distinct(Around(hosts, index, k))
  {
    if k > 0 {
      AroundIsWindow(hosts, index, k);
    }
  }

  lemma AroundMembers(hosts: seq<Host>, index: nat, k: nat)
    requires k <= |hosts|
    ensures forall h :: h in Around(hosts, index, k) ==> h in hosts
  {
    if k > 0 {
      AroundIsWindow(hosts, index, k);
    }
  }

  ghost predicate AllFrom(hosts: seq<Host>, dc: string) { forall h :: h in hosts ==> h.dc == dc }

  function CenterNames(centers: seq<Center>): set<string> {
    if centers == [] then {} else {centers[0].name} + CenterNames(centers[1..])
  }

  /** Each data center has its own hosts and its own name. */
  ghost predicate Named(centers: seq<Center>) {
    centers == [] ||
    (AllFrom(centers[0].hosts, centers[0].name) && centers[0].name !in CenterNames(centers[1..]) && Named(centers[1..]))
  }

  ghost predicate AllDistinct(centers: seq<Center>) {
    centers == [] || (Distinct(centers[0].hosts) && AllDistinct(centers[1..]))
  }

  /** What a remote data center holds. */
  ghost predicate InCenters(centers: seq<Center>, h: Host) {
    centers != [] && ((centers[0].name == h.dc && h in centers[0].hosts) || InCenters(centers[1..], h))
  }

  lemma {:induction false} AbsentCenter(centers: seq<Center>, h: Host)
    requires h.dc !in CenterNames(centers)
    ensures !InCenters(centers, h)
  {
    if centers != [] {
      AbsentCenter(centers[1..], h);
    }
  }

  ghost predicate Apart(a: seq<Host>, b: seq<Host>) { forall h :: h in a ==> h !in b }

  lemma AppendDistinct(a: seq<Host>, b: seq<Host>)
    requires Distinct(a) && Distinct(b) && Apart(a, b)
    ensures Distinct(a + b)
  {
    forall i, j | 0 <= i < j < |a + b| ensures (a + b)[i] != (a + b)[j] {
      if i < |a| <= j {
        assert a[i] in a && b[j - |a|] in b;
      }
    }
  }

  lemma {:induction false} RemoteMembers(centers: seq<Center>, index: nat, used: nat)
    requires Named(centers)
    ensures forall h :: h in RemoteOrder(centers, index, used) ==> used > 0 && InCenters(centers, h)
  {
    if centers != [] {
      var n := Min(|centers[0].hosts|, used);
      AroundMembers(centers[0].hosts, index, n);
      RemoteMembers(centers[1..], index + n, used);
    }
  }

  lemma CenterApart(centers: seq<Center>, index: nat, n: nat, there: seq<Host>)
    requires Named(centers) && centers != [] && n <= |centers[0].hosts|
    requires forall h :: h in there ==> InCenters(centers[1..], h)
    ensures Apart(Around(centers[0].hosts, index, n), there)
  {
    AroundMembers(centers[0].hosts, index, n);
    forall h | h in Around(centers[0].hosts, index, n) ensures h !in there {
      AbsentCenter(centers[1..], h);
    }
  }

  lemma {:induction false} RemoteDistinct(centers: seq<Center>, index: nat, used: nat)
    requires Named(centers) && AllDistinct(centers)
    ensures Distinct(RemoteOrder(centers, index, used))
  {
    if centers != [] {
      hide Around, Distinct, InCenters, Apart;
      var n := Min(|centers[0].hosts|, used);
      AroundDistinct(centers[0].hosts, index, n);
      RemoteMembers(centers[1..], index + n, used);
      RemoteDistinct(centers[1..], index + n, used);
      CenterApart(centers, index, n, RemoteOrder(centers[1..], index + n, used));
      AppendDistinct(Around(centers[0].hosts, index, n), RemoteOrder(centers[1..], index + n, used));
    }
  }

  /** The lists of the policy are such that no plan asks a host twice. */
  ghost predicate NoRepeats(p: Policy) {
    Distinct(p.local) && (p.usedPerRemote == 0 || forall h :: h in p.local ==> !InCenters(p.remote, h))
  }

  lemma OrderDistinct(p: Policy, index: nat, localOnly: bool)
    requires Named(p.remote) && AllDistinct(p.remote) && NoRepeats(p)
    ensures Distinct(Order(p, index, localOnly))
  {
    hide Around, RemoteOrder, Named, AllDistinct, InCenters, Distinct;
    var locals := Around(p.local, index, |p.local|);
    var remotes := RemoteOrder(p.remote, index + |p.local|, p.usedPerRemote);
    AroundMembers(p.local, index, |p.local|);
    AroundDistinct(p.local, index, |p.local|);
    RemoteMembers(p.remote, index + |p.local|, p.usedPerRemote);
    RemoteDistinct(p.remote, index + |p.local|, p.usedPerRemote);
    AppendDistinct(locals, remotes);
    assert locals + [] == locals;
  }

  /** A host of a remote data center is asked by some plan. */
  lemma {:induction false} ReachesRemote(centers: seq<Center>, used: nat, h: Host, base: nat) returns (index: nat)
    requires InCenters(centers, h) && used > 0
    ensures index >= base && h in RemoteOrder(centers, index, used)
  {
    var n := Min(|centers[0].hosts|, used);
    if centers[0].name == h.dc && h in centers[0].hosts {
      index := ReachesHost(centers[0].hosts, h, base, n);
    } else {
      index := ReachesRemote(centers[1..], used, h, base + n);
      index := index - n;
    }
  }

  lemma ReachesHost(hosts: seq<Host>, h: Host, base: nat, n: nat) returns (index: nat)
    requires h in hosts && 0 < n <= |hosts|
    ensures index >= base && h in Around(hosts, index, n)
  {
    var k :| 0 <= k < |hosts| && hosts[k] == h;
    index := base * |hosts| + k;
    Multiple(|hosts|, base);
    PositionIsRemainder(index, |hosts|);
    Remainder(index, base, k, |hosts|);
    assert Position(index, |hosts|) == k;
    assert Around(hosts, index, n)[0] == h;
  }

  lemma TwiceRepeats(a: seq<Host>, b: seq<Host>, h: Host)
    requires h in a && h in b
    ensures !Distinct(a + b)
  {
    var i :| 0 <= i < |a| && a[i] == h;
    var j :| 0 <= j < |b| && b[j] == h;
    assert (a + b)[i] == (a + b)[|a| + j];
  }

  predicate AllUp(index: nat, h: Host) { true }

  lemma RepeatedLocal(p: Policy)
    requires !Distinct(p.local)
    ensures !Distinct(Plan(p, 0, false, AllUp))
  {
    hide Kept, RemoteOrder;
    var order := Order(p, 0, false);
    KeptAll(order, 0, AllUp);
    if p.local != [] { AroundIsWindow(p.local, 0, |p.local|); }
    var i, j :| 0 <= i < j < |p.local| && p.local[i] == p.local[j];
    assert order[i] == order[j];
  }

  lemma RepeatedRemote(p: Policy, h: Host) returns (index: nat)
    requires h in p.local && InCenters(p.remote, h) && p.usedPerRemote > 0
    ensures !Distinct(Plan(p, index, false, AllUp))
  {
    hide Kept, RemoteOrder, Around, Distinct;
    index := ReachesRemote(p.remote, p.usedPerRemote, h, |p.local|);
    index := index - |p.local|;
    KeptAll(Order(p, index, false), index, AllUp);
    var r := AroundIsRotation(p.local, index);
    assert h in multiset(Around(p.local, index, |p.local|));
    TwiceRepeats(Around(p.local, index, |p.local|), RemoteOrder(p.remote, index + |p.local|, p.usedPerRemote), h);
  }

  /** No plan returns a host twice, wherever it starts and whatever the hosts answer, exactly if the local list has no
      host twice and, should remote hosts be used at all, none that a remote data center has too. */
  lemma NoHostTwice(p: Policy)
    requires Named(p.remote) && AllDistinct(p.remote)
    ensures (forall index, localOnly, up :: Distinct(Plan(p, index, localOnly, up))) <==> NoRepeats(p)
  {
    hide Named, AllDistinct, InCenters, Distinct, Order, Kept;
    if NoRepeats(p) {
      forall index: nat, localOnly, up: Answers ensures Distinct(Plan(p, index, localOnly, up)) {
        OrderDistinct(p, index, localOnly);
        KeptDistinct(Order(p, index, localOnly), index, up);
      }
    } else if !Distinct(p.local) {
      RepeatedLocal(p);
    } else {
      var h :| h in p.local && InCenters(p.remote, h);
      var index := RepeatedRemote(p, h);
    }
  }

  // ---------- The quota of a remote data center ----------

  function FromCenter(hosts: seq<Host>, dc: string): nat {
    if hosts == [] then 0 else (if hosts[0].dc == dc then 1 else 0) + FromCenter(hosts[1..], dc)
  }

  lemma {:induction false} FromCenterAppend(a: seq<Host>, b: seq<Host>, dc: string)
    ensures FromCenter(a + b, dc) == FromCenter(a, dc) + FromCenter(b, dc)
  {
    if a == [] {
      assert a + b == b;
    } else {
      assert (a + b)[1..] == a[1..] + b;
      FromCenterAppend(a[1..], b, dc);
    }
  }

  lemma {:induction false} FromCenterUniform(hosts: seq<Host>, name: string, dc: string)
    requires AllFrom(hosts, name)
    ensures FromCenter(hosts, dc) == if dc == name then |hosts| else 0
  {
    if hosts != [] {
      FromCenterUniform(hosts[1..], name, dc);
    }
  }

  lemma {:induction false} KeptCounts(hosts: seq<Host>, index: nat, up: Answers, dc: string)
    ensures FromCenter(Kept(hosts, index, up), dc) <= FromCenter(hosts, dc)
  {
    if hosts != [] {
      KeptCounts(hosts[1..], index + 1, up, dc);
      FromCenterAppend(if up(index, hosts[0]) then [hosts[0]] else [], Kept(hosts[1..], index + 1, up), dc);
    }
  }

  /** The number of hosts of the data center `dc`. */
  function SizeOf(centers: seq<Center>, dc: string): nat {
    if centers == [] then 0
    else if centers[0].name == dc then |centers[0].hosts|
    else SizeOf(centers[1..], dc)
  }

  lemma {:induction false} SizeOfAbsent(centers: seq<Center>, dc: string)
    requires dc !in CenterNames(centers)
    ensures SizeOf(centers, dc) == 0
  {
    if centers != [] {
      SizeOfAbsent(centers[1..], dc);
    }
  }

  lemma AroundCount(c: Center, index: nat, n: nat, dc: string)
    requires n <= |c.hosts| && AllFrom(c.hosts, c.name)
    ensures FromCenter(Around(c.hosts, index, n), dc) == if dc == c.name then n else 0
  {
    AroundMembers(c.hosts, index, n);
    FromCenterUniform(Around(c.hosts, index, n), c.name, dc);
  }

  lemma {:induction false} RemoteCount(centers: seq<Center>, index: nat, used: nat, dc: string)
    requires Named(centers)
    ensures FromCenter(RemoteOrder(centers, index, used), dc) == Min(SizeOf(centers, dc), used)
  {
    if centers != [] {
      hide Around, AllFrom, FromCenter;
      var n := Min(|centers[0].hosts|, used);
      AroundCount(centers[0], index, n, dc);
      RemoteCount(centers[1..], index + n, used, dc);
      FromCenterAppend(Around(centers[0].hosts, index, n), RemoteOrder(centers[1..], index + n, used), dc);
      if centers[0].name == dc { SizeOfAbsent(centers[1..], dc); }
    } else {
      assert RemoteOrder(centers, index, used) == [];
      assert FromCenter([], dc) == 0;
    }
  }

  lemma OrderCount(p: Policy, index: nat, localOnly: bool, dc: string)
    requires Named(p.remote)
    ensures FromCenter(Order(p, index, localOnly), dc) ==
              FromCenter(p.local, dc) +
              if p.skipRemoteForLocal && localOnly then 0 else Min(SizeOf(p.remote, dc), p.usedPerRemote)
  {
    hide Around, RemoteOrder, Named, FromCenter;
    var r := AroundIsRotation(p.local, index);
    FromCenterAppend(p.local[r..], p.local[..r], dc);
    FromCenterAppend(p.local[..r], p.local[r..], dc);
    assert p.local == p.local[..r] + p.local[r..];
    var locals := Around(p.local, index, |p.local|);
    RemoteCount(p.remote, index + |p.local|, p.usedPerRemote, dc);
    FromCenterAppend(locals, RemoteOrder(p.remote, index + |p.local|, p.usedPerRemote), dc);
    assert locals + [] == locals;
  }

  /** No plan returns more hosts of a data center than are allowed of a remote one, exactly if there are so few of its
      hosts in the local list that those taken from its own list do not exceed the rest. */
  lemma RemoteQuota(p: Policy, dc: string)
    requires Named(p.remote)
    ensures (forall index, localOnly, up :: FromCenter(Plan(p, index, localOnly, up), dc) <= p.usedPerRemote) <==>
            FromCenter(p.local, dc) + Min(SizeOf(p.remote, dc), p.usedPerRemote) <= p.usedPerRemote
  {
    hide Named, Order, Kept, FromCenter, SizeOf;
    forall index: nat, localOnly, up: Answers
      ensures FromCenter(Plan(p, index, localOnly, up), dc) <=
                FromCenter(p.local, dc) + Min(SizeOf(p.remote, dc), p.usedPerRemote)
    {
      OrderCount(p, index, localOnly, dc);
      KeptCounts(Order(p, index, localOnly), index, up, dc);
    }
    OrderCount(p, 0, false, dc);
    KeptAll(Order(p, 0, false), 0, AllUp);
    assert FromCenter(Plan(p, 0, false, AllUp), dc) == FromCenter(Order(p, 0, false), dc);
  }

  // ---------- Distances ----------

  datatype Distance = Local | Remote | Ignore

  /** `distance` looks at the first hosts of a remote data center, whatever the position of the plans. */
  ghost function DistanceOf(p: Policy, c: Center, h: Host): Distance
    requires h.dc == c.name
  {
    if p.localDc == "" || h.dc == p.localDc then Local
    else if exists i :: 0 <= i < Min(|c.hosts|, p.usedPerRemote) && c.hosts[i].address == h.address then Remote
    else Ignore
  }

  ghost predicate DistinctAddresses(hosts: seq<Host>) {
    forall i, j :: 0 <= i < j < |hosts| ==> hosts[i].address != hosts[j].address
  }

  ghost predicate IsRemote(p: Policy, c: Center) {
    && p.localDc != "" && c.name != p.localDc && DistinctAddresses(c.hosts) && c.hosts != []
    && forall h :: h in c.hosts ==> h.dc == c.name
  }

  /** Without a local data center every host is local; a host of another one is remote exactly if its address is among
      those of the first hosts of its list. */
  lemma DistanceMeans(p: Policy, c: Center, h: Host)
    requires h.dc == c.name
    ensures DistanceOf(p, c, h) == Local <==> p.localDc == "" || h.dc == p.localDc
    ensures DistanceOf(p, c, h) == Remote <==>
            && p.localDc != "" && h.dc != p.localDc
            && exists i :: 0 <= i < |c.hosts| && i < p.usedPerRemote && c.hosts[i].address == h.address
  {
    if i :| 0 <= i < |c.hosts| && i < p.usedPerRemote && c.hosts[i].address == h.address {
      assert i < Min(|c.hosts|, p.usedPerRemote);
    }
  }

  lemma DistanceAt(p: Policy, c: Center, k: nat)
    requires IsRemote(p, c) && k < |c.hosts|
    ensures DistanceOf(p, c, c.hosts[k]) == if k < Min(|c.hosts|, p.usedPerRemote) then Remote else Ignore
  {
    assert c.hosts[k] in c.hosts;
  }

  /** The hosts that a plan whose counter has come to `index` asks in a remote data center. */
  function Asked(p: Policy, c: Center, index: nat): seq<Host> {
    Around(c.hosts, index, Min(|c.hosts|, p.usedPerRemote))
  }

  /** The policy ignores none of the hosts. */
  ghost predicate NoneIgnored(p: Policy, c: Center, hosts: seq<Host>) {
    forall h :: h in hosts ==> h.dc == c.name && DistanceOf(p, c, h) != Ignore
  }

  /** Whether the place in the list that is asked `k`-th from position `r` is among the first `n`. */
  predicate InFront(c: Center, r: nat, k: nat, n: nat) {
    if r + k < |c.hosts| then r + k < n else r + k - |c.hosts| < n
  }

  lemma AskedAt(p: Policy, c: Center, index: nat, k: nat)
    requires IsRemote(p, c) && k < Min(|c.hosts|, p.usedPerRemote)
    ensures
      var n, h := Min(|c.hosts|, p.usedPerRemote), Asked(p, c, index)[k];
      h.dc == c.name && DistanceOf(p, c, h) == if InFront(c, index % |c.hosts|, k, n) then Remote else Ignore
  {
    hide DistanceOf, Around;
    var r := Position(index, |c.hosts|);
    PositionIsRemainder(index, |c.hosts|);
    AroundIsWindow(c.hosts, index, Min(|c.hosts|, p.usedPerRemote));
    DistanceAt(p, c, if r + k < |c.hosts| then r + k else r + k - |c.hosts|);
  }

  /** A host is asked and is up. */
  ghost predicate FoundUp(hosts: seq<Host>, index: nat, up: Answers, h: Host) {
    exists k :: 0 <= k < |hosts| && hosts[k] == h && up(index + k, h)
  }

  lemma FoundFirst(hosts: seq<Host>, index: nat, up: Answers, h: Host)
    requires hosts != []
    ensures FoundUp(hosts, index, up, h) <==>
            (hosts[0] == h && up(index, h)) || FoundUp(hosts[1..], index + 1, up, h)
  {
    var rest := hosts[1..];
    if FoundUp(rest, index + 1, up, h) {
      var k :| 0 <= k < |rest| && rest[k] == h && up(index + 1 + k, h);
      assert hosts[k + 1] == h && up(index + (k + 1), h);
    }
    if FoundUp(hosts, index, up, h) {
      var k :| 0 <= k < |hosts| && hosts[k] == h && up(index + k, h);
      assert k > 0 ==> rest[k - 1] == h && up(index + 1 + (k - 1), h);
    }
    assert hosts[0] == h && up(index + 0, h) ==> FoundUp(hosts, index, up, h);
  }

  lemma {:induction false} KeptAt(hosts: seq<Host>, index: nat, up: Answers, h: Host)
    ensures h in Kept(hosts, index, up) <==> FoundUp(hosts, index, up, h)
  {
    if hosts != [] {
      hide FoundUp;
      FoundFirst(hosts, index, up, h);
      KeptAt(hosts[1..], index + 1, up, h);
    } else {
      assert !FoundUp(hosts, index, up, h);
    }
  }

  /** What a plan takes from a remote data center agrees with the distances exactly if every host that it asked behind
      the first ones was down. */
  lemma AgreesWithDistances(p: Policy, c: Center, index: nat, up: Answers)
    requires IsRemote(p, c)
    ensures
      var n, asked := Min(|c.hosts|, p.usedPerRemote), Asked(p, c, index);
      NoneIgnored(p, c, Kept(asked, index, up)) <==>
      forall k :: 0 <= k < n && up(index + k, asked[k]) ==> InFront(c, index % |c.hosts|, k, n)
  {
    hide Kept, Around, DistanceOf, IsRemote, InFront;
    var n, asked := Min(|c.hosts|, p.usedPerRemote), Asked(p, c, index);
    forall k | 0 <= k < n
      ensures asked[k].dc == c.name
      ensures DistanceOf(p, c, asked[k]) == if InFront(c, index % |c.hosts|, k, n) then Remote else Ignore
      ensures up(index + k, asked[k]) ==> asked[k] in Kept(asked, index, up)
    {
      AskedAt(p, c, index, k);
      KeptAt(asked, index, up, asked[k]);
    }
    forall h | h in Kept(asked, index, up) ensures exists k :: 0 <= k < n && asked[k] == h && up(index + k, h) {
      KeptAt(asked, index, up, h);
    }
  }

  /** It agrees whatever the hosts answer, and also if they are all up, exactly if the plan takes nothing or everything
      or happens to start at the front of the list. */
  lemma PlanAgreesWithDistances(p: Policy, c: Center, index: nat)
    requires IsRemote(p, c)
    ensures
      var asked := Asked(p, c, index);
      var always := p.usedPerRemote == 0 || p.usedPerRemote >= |c.hosts| || index % |c.hosts| == 0;
      && ((forall up :: NoneIgnored(p, c, Kept(asked, index, up))) <==> always)
      && (NoneIgnored(p, c, asked) <==> always)
  {
    hide Kept, Around, NoneIgnored;
    var n, r, asked := Min(|c.hosts|, p.usedPerRemote), index % |c.hosts|, Asked(p, c, index);
    forall up: Answers
      ensures NoneIgnored(p, c, Kept(asked, index, up)) <==>
              forall k :: 0 <= k < n && up(index + k, asked[k]) ==> InFront(c, r, k, n)
    {
      AgreesWithDistances(p, c, index, up);
    }
    KeptAll(asked, index, AllUp);
    assert Kept(asked, index, AllUp) == asked;
    if 0 < n < |c.hosts| && r > 0 {
      var k := if r >= n then 0 else n - r;
      assert !InFront(c, r, k, n) && AllUp(index + k, asked[k]);
    }
  }

  /** A plan returns a host that the policy ignores. */
  lemma IgnoredIsReturned(p: Policy, a: Host, b: Host)
    requires p.localDc != "" && p.usedPerRemote == 1 && !p.skipRemoteForLocal && p.local == []
    requires a.dc == b.dc != p.localDc && a.address != b.address && p.remote == [Center(a.dc, [a, b])]
    ensures Plan(p, 1, true, AllUp) == [b] && DistanceOf(p, p.remote[0], b) == Ignore
  {
    assert RemoteOrder(p.remote, 1, 1) == Around([a, b], 1, 1) + RemoteOrder([], 2, 1);
    assert Around([a, b], 1, 1) == [b] + Around([a, b], 2, 0);
    assert Order(p, 1, true) == [b];
    KeptAll([b], 1, AllUp);
  }

  // ---------- The lists of hosts ----------

  /** `add_host`: a host with the same address is replaced. */
  function AddHost(hosts: seq<Host>, h: Host): seq<Host> {
    if hosts == [] then [h]
    else if hosts[0].address == h.address then [h] + hosts[1..]
    else [hosts[0]] + AddHost(hosts[1..], h)
  }

  /** `remove_host`: the first host with the address goes. */
  function RemoveHost(hosts: seq<Host>, h: Host): seq<Host> {
    if hosts == [] then []
    else if hosts[0].address == h.address then hosts[1..]
    else [hosts[0]] + RemoveHost(hosts[1..], h)
  }

  /** The first place with the address, or the end of the list. */
  ghost predicate FirstPlace(hosts: seq<Host>, h: Host, i: nat) {
    && i <= |hosts| && (forall k :: 0 <= k < i ==> hosts[k].address != h.address)
    && (i < |hosts| ==> hosts[i].address == h.address)
  }

  lemma PlaceBehind(hosts: seq<Host>, h: Host, i: nat)
    requires FirstPlace(hosts, h, i) && i > 0
    ensures hosts[0].address != h.address && FirstPlace(hosts[1..], h, i - 1)
  {
    forall k | 0 <= k < i - 1 ensures hosts[1..][k].address != h.address { assert hosts[k + 1].address != h.address; }
  }

  /** Adding a host replaces the first one with its address or appends it. */
  lemma {:induction false} AddHostIs(hosts: seq<Host>, h: Host, i: nat)
    requires FirstPlace(hosts, h, i)
    ensures AddHost(hosts, h) == if i < |hosts| then hosts[i := h] else hosts + [h]
  {
    if i > 0 {
      PlaceBehind(hosts, h, i);
      hide FirstPlace;
      AddHostIs(hosts[1..], h, i - 1);
    }
  }

  /** Removing a host takes the first one with its address. */
  lemma {:induction false} RemoveHostIs(hosts: seq<Host>, h: Host, i: nat)
    requires FirstPlace(hosts, h, i)
    ensures RemoveHost(hosts, h) == if i < |hosts| then hosts[..i] + hosts[i + 1..] else hosts
  {
    if i > 0 {
      PlaceBehind(hosts, h, i);
      assert i <= |hosts|;
      hide FirstPlace;
      RemoveHostIs(hosts[1..], h, i - 1);
    }
  }

  lemma AddHostAt(hosts: seq<Host>, h: Host, i: nat)
    requires i < |hosts|
    ensures hosts[..i] + AddHost(hosts[i..], h) ==
              if hosts[i].address == h.address then hosts[i := h] else hosts[..i + 1] + AddHost(hosts[i + 1..], h)
  {
    assert hosts[i..][1..] == hosts[i + 1..];
    if hosts[i].address == h.address {
      assert hosts[i := h] == hosts[..i] + ([h] + hosts[i + 1..]);
    } else {
      assert hosts[..i + 1] == hosts[..i] + [hosts[i]];
      Regroup(hosts[..i], [hosts[i]], AddHost(hosts[i + 1..], h));
    }
  }

  method AddToHosts(hosts: seq<Host>, h: Host) returns (r: seq<Host>)
    ensures r == AddHost(hosts, h)
  {
    r := hosts;
    var i := 0;
    while i < |hosts|
      invariant i <= |hosts| && r == hosts && AddHost(hosts, h) == hosts[..i] + AddHost(hosts[i..], h)
    {
      hide AddHost;
      AddHostAt(hosts, h, i);
      if hosts[i].address == h.address {
        r := hosts[i := h];
        return;
      }
      i := i + 1;
    }
    assert hosts[..|hosts|] == hosts;
    r := hosts + [h];
  }

  lemma RemoveHostAt(hosts: seq<Host>, h: Host, i: nat)
    requires i < |hosts|
    ensures hosts[..i] + RemoveHost(hosts[i..], h) ==
              hosts[..if hosts[i].address == h.address then i else i + 1] +
              if hosts[i].address == h.address then hosts[i + 1..] else RemoveHost(hosts[i + 1..], h)
  {
    assert hosts[i..][1..] == hosts[i + 1..];
    if hosts[i].address != h.address {
      assert hosts[..i + 1] == hosts[..i] + [hosts[i]];
      Regroup(hosts[..i], [hosts[i]], RemoveHost(hosts[i + 1..], h));
    }
  }

  method RemoveFromHosts(hosts: seq<Host>, h: Host) returns (r: seq<Host>)
    ensures r == RemoveHost(hosts, h)
  {
    r := hosts;
    var i := 0;
    while i < |hosts|
      invariant i <= |hosts| && r == hosts && RemoveHost(hosts, h) == hosts[..i] + RemoveHost(hosts[i..], h)
    {
      hide RemoveHost;
      RemoveHostAt(hosts, h, i);
      if hosts[i].address == h.address {
        r := hosts[..i] + hosts[i + 1..];
        return;
      }
      i := i + 1;
    }
    assert hosts[..|hosts|] == hosts;
  }

  predicate HasAddress(hosts: seq<Host>, h: Host) { exists i :: 0 <= i < |hosts| && hosts[i].address == h.address }

  lemma HasAddressFirst(hosts: seq<Host>, g: Host)
    requires hosts != []
    ensures HasAddress(hosts, g) <==> hosts[0].address == g.address || HasAddress(hosts[1..], g)
  {
    if HasAddress(hosts[1..], g) {
      var j :| 0 <= j < |hosts[1..]| && hosts[1..][j].address == g.address;
      assert hosts[j + 1].address == g.address;
    }
    if HasAddress(hosts, g) {
      var i :| 0 <= i < |hosts| && hosts[i].address == g.address;
      assert i > 0 ==> hosts[1..][i - 1].address == g.address;
    }
  }

  lemma {:induction false} AddHostAddresses(hosts: seq<Host>, h: Host, g: Host)
    ensures HasAddress(AddHost(hosts, h), g) <==> HasAddress(hosts, g) || g.address == h.address
  {
    HasAddressFirst(AddHost(hosts, h), g);
    if hosts != [] {
      HasAddressFirst(hosts, g);
      if hosts[0].address == h.address {
        assert AddHost(hosts, h)[1..] == hosts[1..];
      } else {
        assert AddHost(hosts, h)[1..] == AddHost(hosts[1..], h);
        AddHostAddresses(hosts[1..], h, g);
      }
    }
  }

  lemma DistinctFirst(hosts: seq<Host>)
    requires hosts != []
    ensures DistinctAddresses(hosts) <==> !HasAddress(hosts[1..], hosts[0]) && DistinctAddresses(hosts[1..])
  {
    if HasAddress(hosts[1..], hosts[0]) {
      var j :| 0 <= j < |hosts[1..]| && hosts[1..][j].address == hosts[0].address;
      assert hosts[j + 1].address == hosts[0].address;
    }
    if !DistinctAddresses(hosts) {
      var i, j :| 0 <= i < j < |hosts| && hosts[i].address == hosts[j].address;
      assert hosts[1..][j - 1] == hosts[j];
      assert i > 0 ==> hosts[1..][i - 1] == hosts[i];
    }
  }

  /** The list of a remote data center never holds an address twice. */
  lemma {:induction false} AddHostKeepsDistinct(hosts: seq<Host>, h: Host)
    requires DistinctAddresses(hosts)
    ensures DistinctAddresses(AddHost(hosts, h)) && h in AddHost(hosts, h)
  {
    if hosts != [] {
      DistinctFirst(hosts);
      DistinctFirst(AddHost(hosts, h));
      if hosts[0].address == h.address {
        assert AddHost(hosts, h)[1..] == hosts[1..];
      } else {
        assert AddHost(hosts, h)[1..] == AddHost(hosts[1..], h);
        AddHostKeepsDistinct(hosts[1..], h);
        AddHostAddresses(hosts[1..], h, hosts[0]);
      }
    }
  }

  /** Adding a host and removing it changes nothing exactly if its address was not there. */
  lemma {:induction false} RemoveUndoesAdd(hosts: seq<Host>, h: Host)
    ensures RemoveHost(AddHost(hosts, h), h) == hosts <==> !HasAddress(hosts, h)
  {
    if hosts != [] {
      HasAddressFirst(hosts, h);
      if hosts[0].address == h.address {
        assert |RemoveHost(AddHost(hosts, h), h)| < |hosts|;
      } else {
        RemoveUndoesAdd(hosts[1..], h);
        var left := RemoveHost(AddHost(hosts[1..], h), h);
        assert AddHost(hosts, h)[1..] == AddHost(hosts[1..], h);
        assert RemoveHost(AddHost(hosts, h), h) == [hosts[0]] + left;
        assert ([hosts[0]] + left)[1..] == left;
      }
    }
  }

  /** The local list grows by a push: it stays without repetition exactly if the host was not there. */
  lemma LocalAddRepeats(hosts: seq<Host>, h: Host)
    requires DistinctAddresses(hosts)
    ensures DistinctAddresses(hosts + [h]) <==> !HasAddress(hosts, h)
  {
    if HasAddress(hosts, h) {
      var i :| 0 <= i < |hosts| && hosts[i].address == h.address;
      assert (hosts + [h])[i].address == (hosts + [h])[|hosts|].address;
    }
  }
}
