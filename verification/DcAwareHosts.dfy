/**
 The lists of live hosts that the policy of dc_aware_policy.cpp keeps from the events about hosts, and when they are
 such that no plan returns a host twice.
 */
module DcAwareHosts {
  import opened DcAwarePolicy

  // ---------- Events ----------

  /** The order of the names in a map. */
  predicate Less(a: string, b: string) {
    b != "" && (a == "" || a[0] < b[0] || (a[0] == b[0] && Less(a[1..], b[1..])))
  }

  /** `add_host_to_dc`. */
  function AddToCenter(centers: seq<Center>, h: Host): seq<Center> {
    if centers == [] || Less(h.dc, centers[0].name) then [Center(h.dc, [h])] + centers
    else if centers[0].name == h.dc then [Center(h.dc, AddHost(centers[0].hosts, h))] + centers[1..]
    else [centers[0]] + AddToCenter(centers[1..], h)
  }

  /** `remove_host_from_dc`. */
  function RemoveFromCenter(centers: seq<Center>, h: Host): seq<Center> {
    if centers == [] then []
    else if centers[0].name == h.dc then [Center(h.dc, RemoveHost(centers[0].hosts, h))] + centers[1..]
    else [centers[0]] + RemoveFromCenter(centers[1..], h)
  }

  /** The first host with a data center names the local one, unless it is configured. */
  function LocalDc(p: Policy, h: Host): string { if p.localDc == "" then h.dc else p.localDc }

  function OnAdd(p: Policy, h: Host): Policy {
    var q := p.(localDc := LocalDc(p, h));
    if h.dc == q.localDc then q.(local := q.local + [h]) else q.(remote := AddToCenter(q.remote, h))
  }

  function OnRemove(p: Policy, h: Host): Policy {
    if h.dc == p.localDc then p.(local := RemoveHost(p.local, h)) else p.(remote := RemoveFromCenter(p.remote, h))
  }

  datatype Event = Add(host: Host) | Remove(host: Host) | Up(host: Host) | Down(host: Host)

  function Step(p: Policy, ev: Event): Policy {
    match ev
    case Add(h) => OnAdd(p, h)
    case Remove(h) => OnRemove(p, h)
    case Up(h) => OnAdd(p, h)
    case Down(h) => OnRemove(p, h)
  }

  function Run(p: Policy, evs: seq<Event>): Policy
    decreases |evs|
  {
    if evs == [] then p else Run(Step(p, evs[0]), evs[1..])
  }

  /** A policy without hosts; its local data center is configured, taken from the first connection, or still open. */
  predicate Initial(p: Policy) { p.local == [] && p.remote == [] }

  /** The fields of the policy that the events change. */
  class LiveHosts {
    var policy: Policy

    constructor (policy: Policy)
      ensures this.policy == policy
    {
      this.policy := policy;
    }

    method Added(h: Host)
      modifies this
      ensures policy == OnAdd(old(policy), h)
    {
      if policy.localDc == "" && h.dc != "" {
        policy := policy.(localDc := h.dc);
      }
      if h.dc == policy.localDc {
        policy := policy.(local := policy.local + [h]);
      } else {
        policy := policy.(remote := AddToCenter(policy.remote, h));
      }
    }

    method Removed(h: Host)
      modifies this
      ensures policy == OnRemove(old(policy), h)
    {
      if h.dc == policy.localDc {
        var hosts := RemoveFromHosts(policy.local, h);
        policy := policy.(local := hosts);
      } else {
        policy := policy.(remote := RemoveFromCenter(policy.remote, h));
      }
    }
  }

  // ---------- What every run keeps ----------

  lemma {:induction false} LessIsStrict(a: string, b: string)
    ensures !Less(a, a) && (Less(a, b) || Less(b, a) || a == b)
    decreases |a|
  {
    if a != "" {
      LessIsStrict(a[1..], if b == "" then "" else b[1..]);
      assert a == [a[0]] + a[1..];
      assert b != "" ==> b == [b[0]] + b[1..];
    }
  }

  lemma {:induction false} LessIsTransitive(a: string, b: string, c: string)
    requires Less(a, b) && Less(b, c)
    ensures Less(a, c)
    decreases |a|
  {
    if a != "" && a[0] == b[0] && b[0] == c[0] {
      LessIsTransitive(a[1..], b[1..], c[1..]);
    }
  }

  /** The first `k` characters agree, and then `a` ends or has the smaller character. */
  predicate DiffersAt(a: string, b: string, k: nat) {
    k <= |a| && k < |b| && a[..k] == b[..k] && (k == |a| || a[k] < b[k])
  }

  /** The order of the dictionary. */
  lemma {:induction false} LessMeans(a: string, b: string)
    ensures Less(a, b) <==> exists k: nat :: DiffersAt(a, b, k)
    decreases |a|
  {
    if b != "" {
      if a == "" || a[0] < b[0] {
        assert DiffersAt(a, b, 0);
      } else if a[0] == b[0] {
        var c, d := a[1..], b[1..];
        LessMeans(c, d);
        if k: nat :| DiffersAt(c, d, k) {
          assert a == [a[0]] + c && b == [b[0]] + d;
          assert a[..k + 1] == [a[0]] + c[..k] && b[..k + 1] == [b[0]] + d[..k];
          assert DiffersAt(a, b, k + 1);
        }
        if k: nat :| DiffersAt(a, b, k) {
          assert k > 0;
          assert c[..k - 1] == a[..k][1..] && d[..k - 1] == b[..k][1..];
          assert DiffersAt(c, d, k - 1);
        }
      } else {
        forall k: nat ensures !DiffersAt(a, b, k) {
          if 0 < k <= |a| && k < |b| { assert a[..k][0] == a[0] && b[..k][0] == b[0]; }
        }
      }
    }
  }

  /** The data centers are sorted by their names, and each has its own hosts, without repetition. */
  ghost predicate CentersInv(centers: seq<Center>) {
    centers == [] ||
    (&& DistinctAddresses(centers[0].hosts) && AllFrom(centers[0].hosts, centers[0].name)
     && (forall n :: n in CenterNames(centers[1..]) ==> Less(centers[0].name, n))
     && CentersInv(centers[1..]))
  }

  /** No host has a data center that sorts it out of the local list: it is the local one, or there is none. */
  ghost predicate LocalInv(p: Policy) { forall h :: h in p.local ==> h.dc == p.localDc || h.dc == "" }

  ghost predicate Inv(p: Policy) {
    && CentersInv(p.remote) && LocalInv(p)
    && (p.localDc == "" ==> p.remote == [])
    && p.localDc !in CenterNames(p.remote)
  }

  lemma {:induction false} CentersAreValid(centers: seq<Center>)
    requires CentersInv(centers)
    ensures Named(centers) && AllDistinct(centers)
  {
    if centers != [] {
      CentersAreValid(centers[1..]);
      LessIsStrict(centers[0].name, "");
    }
  }

  lemma {:induction false} AddHostFrom(hosts: seq<Host>, h: Host, dc: string)
    requires AllFrom(hosts, dc) && h.dc == dc
    ensures AllFrom(AddHost(hosts, h), dc)
  {
    if hosts != [] && hosts[0].address != h.address {
      AddHostFrom(hosts[1..], h, dc);
    }
  }

  lemma {:induction false} RemoveHostAddresses(hosts: seq<Host>, h: Host)
    ensures forall g :: HasAddress(RemoveHost(hosts, h), g) ==> HasAddress(hosts, g)
    ensures forall g :: g in RemoveHost(hosts, h) ==> g in hosts
    ensures DistinctAddresses(hosts) ==>
              DistinctAddresses(RemoveHost(hosts, h)) && !HasAddress(RemoveHost(hosts, h), h)
  {
    if hosts != [] {
      RemoveHostAddresses(hosts[1..], h);
      DistinctFirst(hosts);
      forall g ensures HasAddress(hosts, g) <==> hosts[0].address == g.address || HasAddress(hosts[1..], g) {
        HasAddressFirst(hosts, g);
      }
      if hosts[0].address != h.address {
        var left := RemoveHost(hosts, h);
        assert left[1..] == RemoveHost(hosts[1..], h);
        DistinctFirst(left);
        forall g ensures HasAddress(left, g) <==> left[0].address == g.address || HasAddress(left[1..], g) {
          HasAddressFirst(left, g);
        }
      } else if DistinctAddresses(hosts) {
        SameAddress(hosts[1..], hosts[0], h);
      }
    }
  }

  lemma SameAddress(hosts: seq<Host>, g: Host, h: Host)
    requires g.address == h.address
    ensures HasAddress(hosts, g) <==> HasAddress(hosts, h)
  {
  }

  lemma {:induction false} AddToCenterKeeps(centers: seq<Center>, h: Host)
    requires CentersInv(centers)
    ensures CentersInv(AddToCenter(centers, h))
    ensures CenterNames(AddToCenter(centers, h)) == CenterNames(centers) + {h.dc}
  {
    hide DistinctAddresses;
    if centers == [] {
      AddHostKeepsDistinct([], h);
      assert ([Center(h.dc, [h])] + centers)[1..] == centers;
    } else if Less(h.dc, centers[0].name) {
      forall n | n in CenterNames(centers[1..]) ensures Less(h.dc, n) {
        LessIsTransitive(h.dc, centers[0].name, n);
      }
      AddHostKeepsDistinct([], h);
      assert ([Center(h.dc, [h])] + centers)[1..] == centers;
    } else {
      LessIsStrict(h.dc, centers[0].name);
      var grown := AddToCenter(centers, h);
      if centers[0].name == h.dc {
        AddHostFrom(centers[0].hosts, h, h.dc);
        AddHostKeepsDistinct(centers[0].hosts, h);
        assert grown[1..] == centers[1..];
      } else {
        AddToCenterKeeps(centers[1..], h);
        assert grown[1..] == AddToCenter(centers[1..], h);
      }
    }
  }

  lemma {:induction false} RemoveFromCenterKeeps(centers: seq<Center>, h: Host)
    requires CentersInv(centers)
    ensures CentersInv(RemoveFromCenter(centers, h)) && !InCenters(RemoveFromCenter(centers, h), h)
    ensures CenterNames(RemoveFromCenter(centers, h)) == CenterNames(centers)
  {
    hide DistinctAddresses;
    if centers != [] {
      var left := RemoveFromCenter(centers, h);
      if centers[0].name == h.dc {
        RemoveHostAddresses(centers[0].hosts, h);
        HasAddressOf(RemoveHost(centers[0].hosts, h), h);
        assert left[1..] == centers[1..];
        LessIsStrict(h.dc, h.dc);
        AbsentCenter(centers[1..], h);
      } else {
        RemoveFromCenterKeeps(centers[1..], h);
        assert left[1..] == RemoveFromCenter(centers[1..], h);
      }
    }
  }

  lemma HasAddressOf(hosts: seq<Host>, h: Host)
    ensures h in hosts ==> HasAddress(hosts, h)
  {
  }

  lemma StepKeepsInv(p: Policy, ev: Event)
    requires Inv(p)
    ensures Inv(Step(p, ev))
  {
    hide CentersInv;
    AddToCenterKeeps(p.remote, ev.host);
    RemoveFromCenterKeeps(p.remote, ev.host);
    RemoveHostAddresses(p.local, ev.host);
    assert CenterNames([]) == {};
  }

  // ---------- When no plan returns a host twice ----------

  /** An event that spoils the plans: a host that is in the local list is pushed to it again, or goes to the remote ones
      too, for it was there before there was a local data center, and remote hosts are used. */
  predicate Spoils(p: Policy, ev: Event) {
    && (ev.Add? || ev.Up?) && ev.host in p.local
    && (ev.host.dc == LocalDc(p, ev.host) || p.usedPerRemote > 0)
  }

  lemma PushDistinct(hosts: seq<Host>, h: Host)
    ensures Distinct(hosts + [h]) <==> Distinct(hosts) && h !in hosts
  {
    if Distinct(hosts + [h]) {
      forall i, j | 0 <= i < j < |hosts| ensures hosts[i] != hosts[j] { assert (hosts + [h])[i] != (hosts + [h])[j]; }
      forall i | 0 <= i < |hosts| ensures hosts[i] != h { assert (hosts + [h])[i] != (hosts + [h])[|hosts|]; }
    }
  }

  lemma {:induction false} RemoveKeepsDistinct(hosts: seq<Host>, h: Host)
    requires Distinct(hosts)
    ensures Distinct(RemoveHost(hosts, h))
  {
    if hosts != [] {
      DistinctTail(hosts);
      if hosts[0].address != h.address {
        var left := RemoveHost(hosts, h);
        RemoveKeepsDistinct(hosts[1..], h);
        RemoveHostAddresses(hosts[1..], h);
        assert left == [hosts[0]] + RemoveHost(hosts[1..], h);
        assert hosts[0] !in RemoveHost(hosts[1..], h);
      }
    }
  }

  lemma DistinctTail(hosts: seq<Host>)
    requires Distinct(hosts) && hosts != []
    ensures Distinct(hosts[1..]) && hosts[0] !in hosts[1..]
  {
    forall i, j | 0 <= i < j < |hosts[1..]| ensures hosts[1..][i] != hosts[1..][j] {
      assert hosts[i + 1] != hosts[j + 1];
    }
    forall i | 0 <= i < |hosts[1..]| ensures hosts[1..][i] != hosts[0] { assert hosts[i + 1] != hosts[0]; }
  }

  lemma {:induction false} AddHostMembers(hosts: seq<Host>, h: Host)
    ensures h in AddHost(hosts, h) && forall g :: g in AddHost(hosts, h) ==> g == h || g in hosts
  {
    if hosts != [] && hosts[0].address != h.address {
      AddHostMembers(hosts[1..], h);
    }
  }

  lemma InCentersCons(c: Center, rest: seq<Center>, g: Host)
    ensures InCenters([c] + rest, g) <==> (c.name == g.dc && g in c.hosts) || InCenters(rest, g)
  {
    assert ([c] + rest)[1..] == rest;
  }

  lemma {:induction false} AddToCenterHolds(centers: seq<Center>, h: Host, g: Host)
    ensures InCenters(AddToCenter(centers, h), h)
    ensures InCenters(AddToCenter(centers, h), g) ==> g == h || InCenters(centers, g)
  {
    if centers == [] || Less(h.dc, centers[0].name) {
      InCentersCons(Center(h.dc, [h]), centers, h);
      InCentersCons(Center(h.dc, [h]), centers, g);
    } else if centers[0].name == h.dc {
      AddHostMembers(centers[0].hosts, h);
      InCentersCons(Center(h.dc, AddHost(centers[0].hosts, h)), centers[1..], h);
      InCentersCons(Center(h.dc, AddHost(centers[0].hosts, h)), centers[1..], g);
    } else {
      AddToCenterHolds(centers[1..], h, g);
      InCentersCons(centers[0], AddToCenter(centers[1..], h), h);
      InCentersCons(centers[0], AddToCenter(centers[1..], h), g);
    }
  }

  lemma {:induction false} RemoveFromCenterHolds(centers: seq<Center>, h: Host, g: Host)
    ensures InCenters(RemoveFromCenter(centers, h), g) ==> InCenters(centers, g)
  {
    if centers != [] {
      if centers[0].name == h.dc {
        RemoveHostAddresses(centers[0].hosts, h);
        InCentersCons(Center(h.dc, RemoveHost(centers[0].hosts, h)), centers[1..], g);
      } else {
        RemoveFromCenterHolds(centers[1..], h, g);
        InCentersCons(centers[0], RemoveFromCenter(centers[1..], h), g);
      }
    }
  }

  lemma PushSpoils(p: Policy, h: Host)
    requires Inv(p) && NoRepeats(p) && h.dc == LocalDc(p, h)
    ensures NoRepeats(OnAdd(p, h)) <==> !Spoils(p, Add(h))
  {
    hide CentersInv, Distinct, AddToCenter, InCenters;
    PushDistinct(p.local, h);
    AbsentCenter(p.remote, h);
    var q := OnAdd(p, h);
    assert q.local == p.local + [h] && q.remote == p.remote && q.usedPerRemote == p.usedPerRemote;
    forall g ensures g in q.local <==> g in p.local || g == h { }
  }

  lemma CenterSpoils(p: Policy, h: Host)
    requires Inv(p) && NoRepeats(p) && h.dc != LocalDc(p, h)
    ensures NoRepeats(OnAdd(p, h)) <==> !Spoils(p, Add(h))
  {
    hide CentersInv, Distinct, AddToCenter, InCenters;
    forall g ensures InCenters(AddToCenter(p.remote, h), g) ==> g == h || InCenters(p.remote, g) {
      AddToCenterHolds(p.remote, h, g);
    }
    AddToCenterHolds(p.remote, h, h);
  }

  lemma RemoveSpoilsNothing(p: Policy, h: Host)
    requires NoRepeats(p)
    ensures NoRepeats(OnRemove(p, h))
  {
    hide Distinct, InCenters;
    forall g ensures InCenters(RemoveFromCenter(p.remote, h), g) ==> InCenters(p.remote, g) {
      RemoveFromCenterHolds(p.remote, h, g);
    }
    RemoveHostAddresses(p.local, h);
    RemoveKeepsDistinct(p.local, h);
  }

  lemma StepSpoils(p: Policy, ev: Event)
    requires Inv(p) && NoRepeats(p)
    ensures NoRepeats(Step(p, ev)) <==> !Spoils(p, ev)
  {
    hide Inv, NoRepeats, OnAdd, OnRemove;
    if ev.Remove? || ev.Down? {
      RemoveSpoilsNothing(p, ev.host);
    } else if ev.host.dc == LocalDc(p, ev.host) {
      PushSpoils(p, ev.host);
    } else {
      CenterSpoils(p, ev.host);
    }
  }

  /** No plan that is made now returns a host twice, wherever it starts, for every consistency level, and whatever the
      hosts answer. */
  ghost predicate PlansDistinct(p: Policy) {
    forall index, localOnly, up :: Distinct(Plan(p, index, localOnly, up))
  }

  ghost predicate AlwaysDistinct(p: Policy, evs: seq<Event>)
    decreases |evs|
  {
    PlansDistinct(p) && (evs == [] || AlwaysDistinct(Step(p, evs[0]), evs[1..]))
  }

  ghost predicate EverSpoils(p: Policy, evs: seq<Event>)
    decreases |evs|
  {
    evs != [] && (Spoils(p, evs[0]) || EverSpoils(Step(p, evs[0]), evs[1..]))
  }

  lemma InvDistinct(p: Policy)
    requires Inv(p)
    ensures PlansDistinct(p) <==> NoRepeats(p)
  {
    CentersAreValid(p.remote);
    hide Plan, Distinct, NoRepeats;
    NoHostTwice(p);
  }

  lemma {:induction false} RunSpoils(p: Policy, evs: seq<Event>)
    requires Inv(p) && NoRepeats(p)
    ensures AlwaysDistinct(p, evs) <==> !EverSpoils(p, evs)
    decreases |evs|
  {
    hide Inv, NoRepeats, Spoils, Step, PlansDistinct;
    InvDistinct(p);
    if evs != [] {
      StepSpoils(p, evs[0]);
      StepKeepsInv(p, evs[0]);
      InvDistinct(Step(p, evs[0]));
      if Spoils(p, evs[0]) {
        NowDistinct(Step(p, evs[0]), evs[1..]);
      } else {
        RunSpoils(Step(p, evs[0]), evs[1..]);
      }
    }
  }

  lemma NowDistinct(p: Policy, evs: seq<Event>)
    ensures AlwaysDistinct(p, evs) ==> PlansDistinct(p)
  {
  }

  lemma {:induction false} RunInv(p: Policy, evs: seq<Event>)
    requires Inv(p)
    ensures Inv(Run(p, evs))
    decreases |evs|
  {
    hide Inv, Step;
    if evs != [] {
      StepKeepsInv(p, evs[0]);
      RunInv(Step(p, evs[0]), evs[1..]);
    }
  }

  lemma InitialInv(p: Policy)
    requires Initial(p)
    ensures Inv(p) && NoRepeats(p)
  {
  }

  /** Main result: through a run of host events no plan ever returns a host twice, if and only if no event spoils the
      plans. */
  lemma PlansStayDistinct(p: Policy, evs: seq<Event>)
    requires Initial(p)
    ensures AlwaysDistinct(p, evs) <==> !EverSpoils(p, evs)
  {
    InitialInv(p);
    RunSpoils(p, evs);
  }

  /** In every run, what the lists must be like for the plans that are made now. */
  lemma PlansAreDistinct(p: Policy, evs: seq<Event>)
    requires Initial(p)
    ensures
      var q := Run(p, evs);
      (forall index, localOnly, up :: Distinct(Plan(q, index, localOnly, up))) <==>
      Distinct(q.local) && (q.usedPerRemote == 0 || forall h :: h in q.local ==> !InCenters(q.remote, h))
  {
    hide Inv, Plan, InCenters, Distinct;
    InitialInv(p);
    RunInv(p, evs);
    InvDistinct(Run(p, evs));
  }

  lemma {:induction false} NoneFrom(hosts: seq<Host>, dc: string)
    requires forall h :: h in hosts ==> h.dc != dc
    ensures FromCenter(hosts, dc) == 0
  {
    if hosts != [] {
      NoneFrom(hosts[1..], dc);
    }
  }

  /** In every run, plans keep to the quota of a remote data center that has a name.  To that of the hosts without a
      data center they keep exactly if those of the local list leave room for the others. */
  lemma QuotaIsKept(p: Policy, evs: seq<Event>, dc: string)
    requires Initial(p) && dc in CenterNames(Run(p, evs).remote)
    ensures
      var q := Run(p, evs);
      (forall index, localOnly, up :: FromCenter(Plan(q, index, localOnly, up), dc) <= q.usedPerRemote) <==>
      dc != "" || FromCenter(q.local, "") + Min(SizeOf(q.remote, ""), q.usedPerRemote) <= q.usedPerRemote
  {
    hide Plan, FromCenter, SizeOf;
    InitialInv(p);
    RunInv(p, evs);
    var q := Run(p, evs);
    CentersAreValid(q.remote);
    hide CentersInv, Named, AllDistinct;
    RemoteQuota(q, dc);
    if dc != "" { NoneFrom(q.local, dc); }
  }

  lemma PairOrder(p: Policy, h: Host, index: nat, localOnly: bool)
    requires p.local == [h, h] && p.remote == []
    ensures Plan(p, index, localOnly, AllUp) == [h, h]
  {
    hide Around, RemoteOrder, Kept;
    AroundIsWindow([h, h], index, 2);
    assert Around([h, h], index, 2) == [h, h];
    NoCenters(index + 2, p.usedPerRemote);
    assert Order(p, index, localOnly) == [h, h];
    KeptAll([h, h], index, AllUp);
  }

  lemma AddedAndUp(p: Policy, h: Host)
    requires Initial(p) && (p.localDc == "" || p.localDc == h.dc)
    ensures
      var q := Run(p, [Add(h), Up(h)]);
      q.local == [h, h] && q.remote == []
  {
    var p1 := Step(p, Add(h));
    assert p1.local == [] + [h] == [h] && p1.remote == [];
    var p2 := Step(p1, Up(h));
    assert p2.local == [h] + [h] == [h, h] && p2.remote == [];
    hide Step;
    assert [Add(h), Up(h)][1..] == [Up(h)] && [Up(h)][1..] == [];
    assert Run(p, [Add(h), Up(h)]) == Run(p1, [Up(h)]) == Run(p2, []) == p2;
  }

  /** A host that is added and then reported to be up is returned twice. */
  lemma ReturnedTwice(p: Policy, h: Host, index: nat, localOnly: bool)
    requires Initial(p) && (p.localDc == "" || p.localDc == h.dc)
    ensures Plan(Run(p, [Add(h), Up(h)]), index, localOnly, AllUp) == [h, h]
  {
    hide Run, Plan;
    AddedAndUp(p, h);
    PairOrder(Run(p, [Add(h), Up(h)]), h, index, localOnly);
  }

  // ---------- Hosts that are not forgotten ----------

  ghost predicate Listed(p: Policy, h: Host) { h in p.local || InCenters(p.remote, h) }

  lemma {:induction false} AddHostKeepsOthers(hosts: seq<Host>, h: Host, g: Host)
    requires g in hosts && g.address != h.address
    ensures g in AddHost(hosts, h) && g in RemoveHost(hosts, h)
  {
    if hosts[0].address != h.address && hosts[0] != g {
      AddHostKeepsOthers(hosts[1..], h, g);
    }
  }

  lemma {:induction false} CentersKeepOthers(centers: seq<Center>, h: Host, g: Host)
    requires InCenters(centers, g) && (g.address != h.address || g.dc != h.dc)
    ensures InCenters(AddToCenter(centers, h), g) && InCenters(RemoveFromCenter(centers, h), g)
  {
    var c, rest := centers[0], centers[1..];
    assert centers == [c] + rest;
    InCentersCons(c, rest, g);
    InCentersCons(Center(h.dc, [h]), centers, g);
    InCentersCons(Center(h.dc, AddHost(c.hosts, h)), rest, g);
    InCentersCons(Center(h.dc, RemoveHost(c.hosts, h)), rest, g);
    InCentersCons(c, AddToCenter(rest, h), g);
    InCentersCons(c, RemoveFromCenter(rest, h), g);
    if g in c.hosts && c.name == g.dc {
      if g.dc == h.dc { AddHostKeepsOthers(c.hosts, h, g); }
    } else {
      CentersKeepOthers(rest, h, g);
    }
  }

  /** A host that is added is listed where its data center belongs, and replaces nothing but one with its address and
      its data center. */
  lemma AddedIsListed(p: Policy, h: Host, g: Host)
    ensures
      var q := OnAdd(p, h);
      && (if h.dc == LocalDc(p, h) then h in q.local else InCenters(q.remote, h) && q.local == p.local)
      && (Listed(q, g) ==> g == h || Listed(p, g))
      && (Listed(p, g) && (g.address != h.address || g.dc != h.dc) ==> Listed(q, g))
  {
    hide AddToCenter, RemoveFromCenter, InCenters;
    AddToCenterHolds(p.remote, h, g);
    if InCenters(p.remote, g) && (g.address != h.address || g.dc != h.dc) { CentersKeepOthers(p.remote, h, g); }
  }

  /** Removing a host brings no other and takes none with another address. */
  lemma OthersStayListed(p: Policy, h: Host, g: Host)
    requires g.address != h.address
    ensures Listed(OnRemove(p, h), g) <==> Listed(p, g)
  {
    hide AddToCenter, RemoveFromCenter, InCenters;
    RemoveHostAddresses(p.local, h);
    RemoveFromCenterHolds(p.remote, h, g);
    if InCenters(p.remote, g) { CentersKeepOthers(p.remote, h, g); }
    if g in p.local { AddHostKeepsOthers(p.local, h, g); }
  }

  /** The first data center that comes with a host, or none. */
  function FirstDc(evs: seq<Event>): string {
    if evs == [] then ""
    else if (evs[0].Add? || evs[0].Up?) && evs[0].host.dc != "" then evs[0].host.dc
    else FirstDc(evs[1..])
  }

  /** The local data center is the one that is configured, or else the first one that comes with a host. */
  lemma {:induction false} LocalDcIsFirst(p: Policy, evs: seq<Event>)
    ensures Run(p, evs).localDc == if p.localDc != "" then p.localDc else FirstDc(evs)
    decreases |evs|
  {
    if evs != [] {
      LocalDcIsFirst(Step(p, evs[0]), evs[1..]);
    }
  }

  /** The list holds the host behind one with its address. */
  ghost predicate Behind(hosts: seq<Host>, h: Host) {
    exists i, j :: 0 <= i < j < |hosts| && hosts[i].address == h.address && hosts[j] == h
  }

  lemma {:induction false} RemoveLeaves(hosts: seq<Host>, h: Host)
    ensures h in RemoveHost(hosts, h) <==> Behind(hosts, h)
  {
    if hosts != [] {
      RemoveLeaves(hosts[1..], h);
      BehindFirst(hosts, h);
    }
  }

  lemma BehindFirst(hosts: seq<Host>, h: Host)
    requires hosts != []
    ensures Behind(hosts, h) <==> if hosts[0].address == h.address then h in hosts[1..] else Behind(hosts[1..], h)
  {
    if hosts[0].address == h.address {
      if j :| 0 <= j < |hosts[1..]| && hosts[1..][j] == h { assert hosts[j + 1] == h; }
      if Behind(hosts, h) {
        var i, j :| 0 <= i < j < |hosts| && hosts[i].address == h.address && hosts[j] == h;
        assert hosts[1..][j - 1] == h;
      }
    } else {
      if Behind(hosts[1..], h) {
        var i, j :| 0 <= i < j < |hosts[1..]| && hosts[1..][i].address == h.address && hosts[1..][j] == h;
        assert hosts[i + 1].address == h.address && hosts[j + 1] == h;
      }
      if Behind(hosts, h) {
        var i, j :| 0 <= i < j < |hosts| && hosts[i].address == h.address && hosts[j] == h;
        assert hosts[1..][i - 1].address == h.address && hosts[1..][j - 1] == h;
      }
    }
  }

  /** In every run, a host is still listed after its removal exactly if it is in the local list and not of the local
      data center, so that it is looked for among the remote ones, or stands there behind one with its address. */
  lemma RemovalForgets(p: Policy, evs: seq<Event>, h: Host)
    requires Initial(p)
    ensures
      var q := Run(p, evs);
      Listed(OnRemove(q, h), h) <==> if h.dc == q.localDc then Behind(q.local, h) else h in q.local
  {
    hide CentersInv, Behind;
    InitialInv(p);
    RunInv(p, evs);
    var q := Run(p, evs);
    RemoveFromCenterKeeps(q.remote, h);
    RemoveLeaves(q.local, h);
    if h.dc == q.localDc { AbsentCenter(q.remote, h); }
  }

  /** A host without a data center is added first, and never goes. */
  lemma NeverForgotten(p: Policy, h: Host, g: Host)
    requires Initial(p) && p.localDc == "" && h.dc == "" && g.dc != ""
    ensures h in Run(p, [Add(h), Add(g), Remove(h)]).local
  {
    var p1 := Step(p, Add(h));
    assert p1 == p.(local := [h]);
    var p2 := Step(p1, Add(g));
    assert p2.local == [h] + [g] && p2.localDc == g.dc;
    var p3 := Step(p2, Remove(h));
    assert p3.local[0] == h;
    hide Step;
    assert [Add(h), Add(g), Remove(h)][1..] == [Add(g), Remove(h)];
    assert [Add(g), Remove(h)][1..] == [Remove(h)] && [Remove(h)][1..] == [];
    assert Run(p2, [Remove(h)]) == Run(p3, []) == p3;
    assert Run(p1, [Add(g), Remove(h)]) == p3;
  }
}
