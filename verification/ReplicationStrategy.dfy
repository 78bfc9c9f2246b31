/**
 Replica placement (replication_strategy.cpp).

 The ring is the token map in token order.  `NetworkTopology` models the walk of
 `NetworkTopologyStrategy::tokens_to_replicas`; what the walk chooses in one data center is shown to be a
 prefix of an order that is defined without quotas, without early exit and without the other data centers.
 */
module ReplicationStrategy {

  type Token = seq<nat>

  datatype Host = Host(address: string, dc: string, rack: string)

  type Factors = map<string, nat>

  function Get<V>(m: map<string, V>, k: string, default: V): V { if k in m then m[k] else default }

  /** The ring as it is met when walking once around from position `i`. */
  function Rotate(ring: seq<Host>, i: nat): seq<Host>
    requires i <= |ring|
  {
    ring[i..] + ring[..i]
  }

  lemma Wraps(i: nat, k: nat, n: nat)
    requires i < n && k <= n
    ensures (i + k) % n == if i + k < n then i + k else i + k - n
  {
    var m := if i + k < n then i + k else i + k - n;
    var d := (i + k) / n;
    assert i + k == d * n + (i + k) % n;
    assert d >= 2 ==> d * n >= 2 * n;
    assert d == 0 ==> d * n == 0;
    assert d == 1 ==> d * n == n;
  }

  /** The walk begins at the token itself and takes one position after the other, once around. */
  lemma RotateAt(ring: seq<Host>, i: nat, k: nat)
    requires i < |ring| && k < |ring|
    ensures |Rotate(ring, i)| == |ring| && Rotate(ring, i)[k] == ring[(i + k) % |ring|]
  {
    Wraps(i, k, |ring|);
  }

  function ByDc(hs: seq<Host>, dc: string): seq<Host> {
    if hs == [] then [] else (if hs[0].dc == dc then [hs[0]] else []) + ByDc(hs[1..], dc)
  }

  function Racks(hs: seq<Host>): set<string> { set h | h in hs && h.rack != "" :: h.rack }

  function Min(a: nat, b: nat): (m: nat)
    ensures m <= a && m <= b && (m == a || m == b)
  {
    if a < b then a else b
  }

  function Take(s: seq<Host>, n: nat): seq<Host> { s[..Min(|s|, n)] }

  // ---------- The walk ----------

  /** What the walk keeps for one data center. */
  datatype Center = Center(count: nat, observed: set<string>, skipped: seq<Host>)

  datatype Walk = Walk(counts: map<string, nat>, observed: map<string, set<string>>, skipped: map<string, seq<Host>>,
                       replicas: seq<Host>)
  {
    function At(dc: string): Center { Center(Get(counts, dc, 0), Get(observed, dc, {}), Get(skipped, dc, [])) }
  }

  const Start := Walk(map[], map[], map[], [])

  predicate Wanted(factors: Factors, dc: string) { dc != "" && dc in factors }

  /** The deferred hosts that are used when `h` shows the last of `total` racks. */
  function Drained(c: Center, h: Host, rf: nat, total: nat): (n: nat)
    requires c.count < rf
    ensures n <= |c.skipped|
  {
    if |c.observed + {h.rack}| == total then Min(|c.skipped|, rf - (c.count + 1)) else 0
  }

  /** The hosts that a visit of `h` adds to the replicas. */
  function Added(c: Center, h: Host, rf: nat, total: nat): seq<Host> {
    if c.count >= rf then []
    else if h.rack == "" || |c.observed| == total then [h]
    else if h.rack in c.observed then []
    else [h] + c.skipped[..Drained(c, h, rf, total)]
  }

  function VisitCenter(c: Center, h: Host, rf: nat, total: nat): Center {
    if c.count >= rf then c
    else if h.rack == "" || |c.observed| == total then c.(count := c.count + 1)
    else if h.rack in c.observed then c.(skipped := c.skipped + [h])
    else
      var n := Drained(c, h, rf, total);
      Center(c.count + 1 + n, c.observed + {h.rack}, c.skipped[n..])
  }

  /** One round of the inner loop of `NetworkTopologyStrategy::tokens_to_replicas`. */
  function Visit(w: Walk, h: Host, factors: Factors, racks: map<string, set<string>>): Walk {
    if !Wanted(factors, h.dc) then w
    else
      var rf, total := factors[h.dc], |Get(racks, h.dc, {})|;
      var c := VisitCenter(w.At(h.dc), h, rf, total);
      Walk(w.counts[h.dc := c.count], w.observed[h.dc := c.observed], w.skipped[h.dc := c.skipped],
           w.replicas + Added(w.At(h.dc), h, rf, total))
  }

  function VisitAll(w: Walk, hs: seq<Host>, factors: Factors, racks: map<string, set<string>>): Walk
    decreases |hs|
  {
    if hs == [] then w else VisitAll(Visit(w, hs[0], factors, racks), hs[1..], factors, racks)
  }

  /** The racks of each data center, as `racks_in_dcs` collects them. */
  ghost predicate AreRacksOf(racks: map<string, set<string>>, ring: seq<Host>) {
    forall dc :: dc != "" ==> Get(racks, dc, {}) == Racks(ByDc(ring, dc))
  }

  method RacksInDcs(ring: seq<Host>) returns (racks: map<string, set<string>>)
    ensures AreRacksOf(racks, ring)
  {
    racks := map[];
    for i := 0 to |ring|
      invariant AreRacksOf(racks, ring[..i])
    {
      var h := ring[i];
      assert ring[..i + 1] == ring[..i] + [h];
      forall dc ensures Racks(ByDc(ring[..i + 1], dc)) ==
          Racks(ByDc(ring[..i], dc)) + if h.dc == dc && h.rack != "" then {h.rack} else {} {
        RacksOfLast(ring[..i], h, dc);
      }
      ghost var before := racks;
      if h.dc != "" && h.rack != "" {
        racks := racks[h.dc := Get(racks, h.dc, {}) + {h.rack}];
      }
      forall dc | dc != "" ensures Get(racks, dc, {}) == Racks(ByDc(ring[..i + 1], dc)) {
        assert Get(before, dc, {}) == Racks(ByDc(ring[..i], dc));
      }
    }
    assert ring[..|ring|] == ring;
  }

  /** The body of the inner loop for a host of a wanted data center, as the source writes it. */
  method VisitHost(w: Walk, h: Host, rf: nat, total: nat) returns (c: Center, replicas: seq<Host>)
    ensures c == VisitCenter(w.At(h.dc), h, rf, total)
    ensures replicas == w.replicas + Added(w.At(h.dc), h, rf, total)
  {
    c, replicas := w.At(h.dc), w.replicas;
    if c.count >= rf { return; }
    if h.rack == "" || |c.observed| == total {
      c := c.(count := c.count + 1);
      replicas := replicas + [h];
    } else if h.rack in c.observed {
      c := c.(skipped := c.skipped + [h]);
    } else {
      c := c.(count := c.count + 1, observed := c.observed + {h.rack});
      replicas := replicas + [h];
      if |c.observed| == total {
        var n := 0;
        var waiting := c.skipped;
        while c.skipped != [] && c.count < rf
          invariant n <= |waiting| && c.skipped == waiting[n..]
          invariant c.count == w.At(h.dc).count + 1 + n <= rf
          invariant replicas == w.replicas + [h] + waiting[..n]
          invariant c.observed == w.At(h.dc).observed + {h.rack}
          decreases |c.skipped|
        {
          assert waiting[..n + 1] == waiting[..n] + [waiting[n]];
          c, replicas := c.(count := c.count + 1, skipped := c.skipped[1..]), replicas + [c.skipped[0]];
          n := n + 1;
        }
        assert n == Drained(w.At(h.dc), h, rf, total);
      }
    }
  }

  /** The inner loop, with its early exit and its iterator that wraps around. */
  method ReplicasFrom(ring: seq<Host>, i: nat, factors: Factors, racks: map<string, set<string>>)
    returns (replicas: seq<Host>)
    requires i < |ring|
    ensures replicas == Replicas(ring, i, factors, racks)
    ensures Wanted(factors, ring[i].dc) && factors[ring[i].dc] > 0 ==> replicas != [] && replicas[0] == ring[i]
  {
    FirstReplica(ring, i, factors, racks);
    var w := Start;
    var j := i;
    var count := 0;
    while count < |ring| && w.counts != factors
      invariant 0 <= count <= |ring|
      invariant j == if i + count < |ring| then i + count else i + count - |ring|
      invariant VisitAll(w, Rotate(ring, i)[count..], factors, racks) ==
                  VisitAll(Start, Rotate(ring, i), factors, racks)
    {
      var h := ring[j];
      assert h == Rotate(ring, i)[count];
      assert Rotate(ring, i)[count..][1..] == Rotate(ring, i)[count + 1..];
      j := j + 1;
      if j == |ring| {
        j := 0;
      }
      count := count + 1;
      if Wanted(factors, h.dc) {
        var c, chosen := VisitHost(w, h, factors[h.dc], |Get(racks, h.dc, {})|);
        w := Walk(w.counts[h.dc := c.count], w.observed[h.dc := c.observed], w.skipped[h.dc := c.skipped], chosen);
      }
    }
    if w.counts == factors {
      SatisfiedStops(w, Rotate(ring, i)[count..], factors, racks);
    }
    replicas := w.replicas;
  }

  /** The early exit is sound: once every count is at its factor, the rest of the ring adds nothing. */
  lemma {:induction false} SatisfiedStops(w: Walk, hs: seq<Host>, factors: Factors, racks: map<string, set<string>>)
    requires w.counts == factors
    ensures VisitAll(w, hs, factors, racks).replicas == w.replicas
    decreases |hs|
  {
    if hs != [] {
      var w' := Visit(w, hs[0], factors, racks);
      assert w'.counts == factors && w'.replicas == w.replicas;
      SatisfiedStops(w', hs[1..], factors, racks);
    }
  }

  function Hosts(primary: seq<(Token, Host)>): seq<Host> {
    seq(|primary|, i requires 0 <= i < |primary| => primary[i].1)
  }

  predicate DistinctTokens(primary: seq<(Token, Host)>) {
    forall i, j :: 0 <= i < j < |primary| ==> primary[i].0 != primary[j].0
  }

  /** `NetworkTopologyStrategy::tokens_to_replicas`; `primary` lists the token map in order. */
  method TokensToReplicas(primary: seq<(Token, Host)>, factors: Factors) returns (output: map<Token, seq<Host>>)
    requires DistinctTokens(primary)
    ensures forall t :: t in output <==> exists i :: 0 <= i < |primary| && primary[i].0 == t
    ensures forall i :: 0 <= i < |primary| ==>
              exists racks :: AreRacksOf(racks, Hosts(primary)) &&
                output[primary[i].0] == Replicas(Hosts(primary), i, factors, racks)
    ensures forall i :: 0 <= i < |primary| && Wanted(factors, primary[i].1.dc) && factors[primary[i].1.dc] > 0 ==>
              output[primary[i].0] != [] && output[primary[i].0][0] == primary[i].1
  {
    var ring := Hosts(primary);
    var racks := RacksInDcs(ring);
    output := map[];
    for i := 0 to |primary|
      invariant forall t :: t in output <==> exists k :: 0 <= k < i && primary[k].0 == t
      invariant forall k :: 0 <= k < i ==> output[primary[k].0] == Replicas(ring, k, factors, racks)
      invariant forall k :: 0 <= k < i && Wanted(factors, ring[k].dc) && factors[ring[k].dc] > 0 ==>
                  output[primary[k].0] != [] && output[primary[k].0][0] == ring[k]
    {
      var replicas := ReplicasFrom(ring, i, factors, racks);
      output := output[primary[i].0 := replicas];
    }
  }

  /** The racks of a data center are those that one of its hosts names. */
  lemma RacksAre(ring: seq<Host>, dc: string, rack: string)
    ensures rack in Racks(ByDc(ring, dc)) <==>
            rack != "" && exists i :: 0 <= i < |ring| && ring[i].dc == dc && ring[i].rack == rack
  {
    forall h ensures h in ByDc(ring, dc) <==> h in ring && h.dc == dc { ByDcHolds(ring, dc, h); }
    if rack in Racks(ByDc(ring, dc)) {
      var h :| h in ByDc(ring, dc) && h.rack == rack;
      var i :| 0 <= i < |ring| && ring[i] == h;
    }
    if i :| 0 <= i < |ring| && ring[i].dc == dc && ring[i].rack == rack { assert ring[i] in ByDc(ring, dc); }
  }

  /** A data center has its own hosts, each as often as the ring, and no others. */
  lemma {:induction false} ByDcHolds(hs: seq<Host>, dc: string, h: Host)
    ensures multiset(ByDc(hs, dc))[h] == if h.dc == dc then multiset(hs)[h] else 0
  {
    if hs != [] {
      ByDcHolds(hs[1..], dc, h);
      assert hs == [hs[0]] + hs[1..];
    }
  }

  lemma RacksOfLast(hs: seq<Host>, h: Host, dc: string)
    ensures Racks(ByDc(hs + [h], dc)) == Racks(ByDc(hs, dc)) + if h.dc == dc && h.rack != "" then {h.rack} else {}
  {
    ByDcAppend(hs, [h], dc);
    RacksAppend(ByDc(hs, dc), ByDc([h], dc));
    assert ByDc([h], dc) == if h.dc == dc then [h] else [];
    assert Racks([h]) == if h.rack == "" then {} else {h.rack};
    assert Racks([]) == {};
  }

  // ---------- One data center ----------

  lemma {:induction false} ByDcAppend(a: seq<Host>, b: seq<Host>, dc: string)
    ensures ByDc(a + b, dc) == ByDc(a, dc) + ByDc(b, dc)
  {
    if a == [] {
      assert a + b == b;
    } else {
      var first := if a[0].dc == dc then [a[0]] else [];
      assert (a + b)[0] == a[0] && (a + b)[1..] == a[1..] + b;
      ByDcAppend(a[1..], b, dc);
      assert first + (ByDc(a[1..], dc) + ByDc(b, dc)) == (first + ByDc(a[1..], dc)) + ByDc(b, dc);
    }
  }

  /** The order in which a data center's hosts would be chosen if there were no quota: hosts of unseen racks and
      hosts without a rack as they come, the others deferred until the last of `total` racks is seen. */
  function Order(hs: seq<Host>, seen: set<string>, deferred: seq<Host>, total: nat): seq<Host>
    decreases |hs|
  {
    if |seen| == total then deferred + hs
    else if hs == [] then []
    else if hs[0].rack == "" then [hs[0]] + Order(hs[1..], seen, deferred, total)
    else if hs[0].rack in seen then Order(hs[1..], seen, deferred + [hs[0]], total)
    else [hs[0]] + Order(hs[1..], seen + {hs[0].rack}, deferred, total)
  }

  lemma RacksAppend(a: seq<Host>, b: seq<Host>)
    ensures Racks(a + b) == Racks(a) + Racks(b)
  {
  }

  /** All hosts of one data center, visited one after the other. */
  function VisitCenterAll(c: Center, hs: seq<Host>, rf: nat, total: nat): seq<Host>
    decreases |hs|
  {
    if hs == [] then []
    else Added(c, hs[0], rf, total) + VisitCenterAll(VisitCenter(c, hs[0], rf, total), hs[1..], rf, total)
  }

  ghost predicate AllOf(hs: seq<Host>, dc: string) { forall h :: h in hs ==> h.dc == dc }

  ghost predicate SkippedApart(w: Walk) { forall dc :: AllOf(Get(w.skipped, dc, []), dc) }

  lemma {:induction false} ByDcAllOf(hs: seq<Host>, dc: string, dc': string)
    requires AllOf(hs, dc)
    ensures ByDc(hs, dc') == if dc == dc' then hs else []
  {
    if hs != [] {
      ByDcAllOf(hs[1..], dc, dc');
    }
  }

  lemma VisitKeepsSkippedApart(w: Walk, h: Host, factors: Factors, racks: map<string, set<string>>)
    requires SkippedApart(w)
    ensures SkippedApart(Visit(w, h, factors, racks))
  {
    var w' := Visit(w, h, factors, racks);
    assert AllOf(Get(w.skipped, h.dc, []), h.dc);
    forall d ensures AllOf(Get(w'.skipped, d, []), d) { assert AllOf(Get(w.skipped, d, []), d); }
  }

  /** A visit of another data center leaves this one alone; a visit of this one depends only on this one. */
  lemma VisitProjects(w: Walk, h: Host, factors: Factors, racks: map<string, set<string>>, dc: string)
    requires SkippedApart(w) && Wanted(factors, dc)
    ensures
      var w' := Visit(w, h, factors, racks);
      var rf, total := factors[dc], |Get(racks, dc, {})|;
      && w'.At(dc) == (if h.dc == dc then VisitCenter(w.At(dc), h, rf, total) else w.At(dc))
      && ByDc(w'.replicas, dc) == ByDc(w.replicas, dc) + (if h.dc == dc then Added(w.At(dc), h, rf, total) else [])
  {
    hide VisitCenter, Added, ByDc, AllOf;
    if Wanted(factors, h.dc) {
      var added := Added(w.At(h.dc), h, factors[h.dc], |Get(racks, h.dc, {})|);
      AddedFromCenter(w, h, factors[h.dc], |Get(racks, h.dc, {})|);
      ByDcAppend(w.replicas, added, dc);
      ByDcAllOf(added, h.dc, dc);
    }
  }

  lemma AddedFromCenter(w: Walk, h: Host, rf: nat, total: nat)
    requires SkippedApart(w)
    ensures AllOf(Added(w.At(h.dc), h, rf, total), h.dc)
  {
    assert AllOf(Get(w.skipped, h.dc, []), h.dc);
  }

  lemma {:induction false} VisitAllProjects(w: Walk, hs: seq<Host>, factors: Factors, racks: map<string, set<string>>,
                                            dc: string)
    requires SkippedApart(w) && Wanted(factors, dc)
    ensures ByDc(VisitAll(w, hs, factors, racks).replicas, dc) ==
              ByDc(w.replicas, dc) + VisitCenterAll(w.At(dc), ByDc(hs, dc), factors[dc], |Get(racks, dc, {})|)
    decreases |hs|
  {
    if hs != [] {
      var w' := Visit(w, hs[0], factors, racks);
      var c, rf, total := w.At(dc), factors[dc], |Get(racks, dc, {})|;
      VisitProjects(w, hs[0], factors, racks, dc);
      VisitKeepsSkippedApart(w, hs[0], factors, racks);
      VisitAllProjects(w', hs[1..], factors, racks, dc);
      var later := VisitCenterAll(w'.At(dc), ByDc(hs[1..], dc), rf, total);
      if hs[0].dc == dc {
        assert ByDc(hs, dc)[0] == hs[0] && ByDc(hs, dc)[1..] == ByDc(hs[1..], dc);
        Assoc(ByDc(w.replicas, dc), Added(c, hs[0], rf, total), later);
      } else {
        assert ByDc(hs, dc) == ByDc(hs[1..], dc);
        Assoc(ByDc(w.replicas, dc), [], later);
      }
    }
  }

  lemma Assoc(a: seq<Host>, b: seq<Host>, c: seq<Host>)
    ensures (a + b) + c == a + (b + c)
    ensures [] + c == c
  {
  }

  ghost predicate CenterInv(c: Center, rf: nat, total: nat) {
    c.count <= rf && (|c.observed| == total && c.count < rf ==> c.skipped == [])
  }

  /** What the quota-free order would still choose, cut at what is left of the quota. */
  function Plan(c: Center, hs: seq<Host>, rf: nat, total: nat): seq<Host>
    requires c.count <= rf
  {
    Take(Order(hs, c.observed, c.skipped, total), rf - c.count)
  }

  lemma TakeSplits(h: Host, skipped: seq<Host>, rest: seq<Host>, left: nat)
    requires left > 0
    ensures
      var n := Min(|skipped|, left - 1);
      Take([h] + (skipped + rest), left) == ([h] + skipped[..n]) + Take(skipped[n..] + rest, left - 1 - n)
  {
    var n := Min(|skipped|, left - 1);
    var whole := [h] + (skipped + rest);
    assert whole == ([h] + skipped[..n]) + (skipped[n..] + rest);
    TakeOfAppend([h] + skipped[..n], skipped[n..] + rest, left);
  }

  lemma TakeOfAppend(a: seq<Host>, b: seq<Host>, n: nat)
    requires |a| <= n
    ensures Take(a + b, n) == a + Take(b, n - |a|)
  {
  }

  /** The visit that sees the last rack drains the deferred hosts. */
  lemma LastRackKeepsPlan(c: Center, hs: seq<Host>, rf: nat, total: nat)
    requires CenterInv(c, rf, total) && hs != [] && c.count < rf && |c.observed| != total
    requires hs[0].rack != "" && hs[0].rack !in c.observed && |c.observed + {hs[0].rack}| == total
    ensures CenterInv(VisitCenter(c, hs[0], rf, total), rf, total)
    ensures Plan(c, hs, rf, total) ==
              Added(c, hs[0], rf, total) + Plan(VisitCenter(c, hs[0], rf, total), hs[1..], rf, total)
  {
    TakeSplits(hs[0], c.skipped, hs[1..], rf - c.count);
    OrderStep(hs, c.observed, c.skipped, total);
  }

  lemma VisitKeepsPlan(c: Center, hs: seq<Host>, rf: nat, total: nat)
    requires CenterInv(c, rf, total) && hs != []
    ensures CenterInv(VisitCenter(c, hs[0], rf, total), rf, total)
    ensures Plan(c, hs, rf, total) ==
              Added(c, hs[0], rf, total) + Plan(VisitCenter(c, hs[0], rf, total), hs[1..], rf, total)
  {
    var h, rest := hs[0], hs[1..];
    if c.count < rf && |c.observed| == total {
      assert [] + hs == [h] + ([] + rest);
    } else if c.count < rf && h.rack != "" && h.rack !in c.observed && |c.observed + {h.rack}| == total {
      LastRackKeepsPlan(c, hs, rf, total);
    } else if c.count < rf && h.rack != "" && h.rack !in c.observed {
      assert c.skipped[0..] == c.skipped && [h] + c.skipped[..0] == [h];
    }
  }

  lemma {:induction false} VisitAllKeepsPlan(c: Center, hs: seq<Host>, rf: nat, total: nat)
    requires CenterInv(c, rf, total)
    ensures VisitCenterAll(c, hs, rf, total) == Plan(c, hs, rf, total)
    decreases |hs|
  {
    if hs == [] {
      if |c.observed| == total && c.count < rf { assert c.skipped + hs == []; }
    } else {
      VisitKeepsPlan(c, hs, rf, total);
      VisitAllKeepsPlan(VisitCenter(c, hs[0], rf, total), hs[1..], rf, total);
    }
  }

  /** Main result about the walk: in each wanted data center it chooses the first `rf` hosts of the quota-free
      order of that data center. */
  lemma ChosenIsPrefixOfOrder(hs: seq<Host>, factors: Factors, racks: map<string, set<string>>, dc: string)
    requires Wanted(factors, dc)
    ensures ByDc(VisitAll(Start, hs, factors, racks).replicas, dc) ==
              Take(Order(ByDc(hs, dc), {}, [], |Get(racks, dc, {})|), factors[dc])
  {
    var total, rf := |Get(racks, dc, {})|, factors[dc];
    assert forall d :: Get(Start.skipped, d, []) == [];
    VisitAllProjects(Start, hs, factors, racks, dc);
    VisitAllKeepsPlan(Start.At(dc), ByDc(hs, dc), rf, total);
  }

  // ---------- The order of one data center ----------

  /** The shortest prefix in which all racks have been seen, for hosts that do show `total` racks. */
  function CoverLength(hs: seq<Host>, seen: set<string>, total: nat): (n: nat)
    ensures n <= |hs|
    decreases |hs|
  {
    if |seen| == total || hs == [] then 0
    else 1 + CoverLength(hs[1..], if hs[0].rack == "" then seen else seen + {hs[0].rack}, total)
  }

  /** The hosts without a rack and the first host of each rack that is not in `seen`. */
  function Firsts(hs: seq<Host>, seen: set<string>): seq<Host>
    decreases |hs|
  {
    if hs == [] then []
    else if hs[0].rack == "" then [hs[0]] + Firsts(hs[1..], seen)
    else if hs[0].rack in seen then Firsts(hs[1..], seen)
    else [hs[0]] + Firsts(hs[1..], seen + {hs[0].rack})
  }

  /** The other hosts. */
  function Repeats(hs: seq<Host>, seen: set<string>): seq<Host>
    decreases |hs|
  {
    if hs == [] then []
    else if hs[0].rack == "" then Repeats(hs[1..], seen)
    else if hs[0].rack in seen then [hs[0]] + Repeats(hs[1..], seen)
    else Repeats(hs[1..], seen + {hs[0].rack})
  }

  /** The racks seen after `h`. */
  function See(seen: set<string>, h: Host): set<string> { if h.rack == "" then seen else seen + {h.rack} }

  lemma SeeFirst(hs: seq<Host>, seen: set<string>)
    requires hs != []
    ensures seen + Racks(hs) == See(seen, hs[0]) + Racks(hs[1..])
  {
    assert hs == [hs[0]] + hs[1..];
    RacksAppend([hs[0]], hs[1..]);
    assert Racks([hs[0]]) == if hs[0].rack == "" then {} else {hs[0].rack};
  }

  /** `a` can be read off `b` from front to back. */
  ghost predicate InOrder(a: seq<Host>, b: seq<Host>) {
    a == [] || (b != [] && ((a[0] == b[0] && InOrder(a[1..], b[1..])) || InOrder(a, b[1..])))
  }

  /** Neither those that come first of their racks nor the deferred ones change places among themselves. */
  lemma {:induction false} PartsInOrder(hs: seq<Host>, seen: set<string>)
    ensures InOrder(Firsts(hs, seen), hs) && InOrder(Repeats(hs, seen), hs)
    decreases |hs|
  {
    if hs != [] {
      SeeFirst(hs, seen);
      PartsInOrder(hs[1..], See(seen, hs[0]));
      PartsInOrder(hs[1..], seen);
    }
  }

  lemma NothingToSee(seen: set<string>)
    ensures seen + Racks([]) == seen
  {
  }

  /** How the first `n` hosts split when the first one is taken off. */
  lemma SplitStep(hs: seq<Host>, n: nat, seen: set<string>)
    requires 1 <= n <= |hs|
    ensures
      var h, rest := hs[0], hs[1..][..n - 1];
      var repeated := h.rack != "" && h.rack in seen;
      && Firsts(hs[..n], seen) == (if repeated then [] else [h]) + Firsts(rest, See(seen, h))
      && Repeats(hs[..n], seen) == (if repeated then [h] else []) + Repeats(rest, See(seen, h))
      && hs[n..] == hs[1..][n - 1..]
  {
    assert hs[..n][0] == hs[0] && hs[..n][1..] == hs[1..][..n - 1];
    if hs[0].rack in seen { assert seen + {hs[0].rack} == seen; }
  }

  lemma OrderStep(hs: seq<Host>, seen: set<string>, deferred: seq<Host>, total: nat)
    requires hs != [] && |seen| != total
    ensures
      var h := hs[0];
      Order(hs, seen, deferred, total) ==
        if h.rack != "" && h.rack in seen then Order(hs[1..], See(seen, h), deferred + [h], total)
        else [h] + Order(hs[1..], See(seen, h), deferred, total)
  {
    if hs[0].rack in seen { assert seen + {hs[0].rack} == seen; }
  }

  lemma Regroup(a: seq<Host>, b: seq<Host>, d: seq<Host>, e: seq<Host>, last: seq<Host>, h: Host)
    ensures [h] + (a + (d + e) + last) == ([h] + a) + (d + ([] + e)) + last
    ensures a + ((d + [h]) + e) + last == ([] + a) + (d + ([h] + e)) + last
  {
    assert (d + [h]) + e == d + ([h] + e);
  }

  /** The order in closed form: up to the host that shows the last rack, the first host of each rack and then the
      deferred ones; after it, every host as it comes. */
  lemma {:induction false} OrderClosedForm(hs: seq<Host>, seen: set<string>, deferred: seq<Host>, total: nat)
    requires |seen + Racks(hs)| == total
    ensures
      var n := CoverLength(hs, seen, total);
      Order(hs, seen, deferred, total) == Firsts(hs[..n], seen) + (deferred + Repeats(hs[..n], seen)) + hs[n..]
    decreases |hs|
  {
    var n := CoverLength(hs, seen, total);
    NothingToSee(seen);
    if |seen| == total {
      assert hs[..0] == [] && hs[0..] == hs;
      assert [] + (deferred + []) + hs == deferred + hs;
    } else {
      var h, rest := hs[0], hs[1..];
      SeeFirst(hs, seen);
      SplitStep(hs, n, seen);
      OrderStep(hs, seen, deferred, total);
      var deferred' := if h.rack != "" && h.rack in seen then deferred + [h] else deferred;
      OrderClosedForm(rest, See(seen, h), deferred', total);
      var p := rest[..n - 1];
      Regroup(Firsts(p, See(seen, h)), [], deferred, Repeats(p, See(seen, h)), rest[n - 1..], h);
    }
  }

  // ---------- Quotas and racks ----------

  lemma {:induction false} SplitIsPermutation(hs: seq<Host>, seen: set<string>)
    ensures multiset(Firsts(hs, seen)) + multiset(Repeats(hs, seen)) == multiset(hs)
    decreases |hs|
  {
    if hs != [] {
      assert hs == [hs[0]] + hs[1..];
      SplitIsPermutation(hs[1..], if hs[0].rack == "" || hs[0].rack in seen then seen else seen + {hs[0].rack});
    }
  }

  lemma OrderIsPermutation(hs: seq<Host>)
    ensures multiset(Order(hs, {}, [], |Racks(hs)|)) == multiset(hs)
  {
    assert {} + Racks(hs) == Racks(hs);
    OrderClosedForm(hs, {}, [], |Racks(hs)|);
    var n := CoverLength(hs, {}, |Racks(hs)|);
    SplitIsPermutation(hs[..n], {});
    RegroupIsPermutation(hs, n, Firsts(hs[..n], {}), Repeats(hs[..n], {}));
  }

  lemma RegroupIsPermutation(hs: seq<Host>, n: nat, a: seq<Host>, b: seq<Host>)
    requires n <= |hs| && multiset(a) + multiset(b) == multiset(hs[..n])
    ensures multiset(a + ([] + b) + hs[n..]) == multiset(hs)
  {
    assert hs == hs[..n] + hs[n..] && [] + b == b;
  }

  /** When every host has a rack, the first hosts of the order show one unseen rack each until all have been seen. */
  lemma {:induction false} OrderSpreads(hs: seq<Host>, seen: set<string>, deferred: seq<Host>, total: nat)
    requires |seen + Racks(hs)| == total && forall h :: h in hs ==> h.rack != ""
    ensures
      var order := Order(hs, seen, deferred, total);
      && |seen| <= total && total - |seen| <= |order|
      && (forall k :: 0 <= k < total - |seen| ==> order[k].rack != "" && order[k].rack !in seen)
      && (forall j, k :: 0 <= j < k < total - |seen| ==> order[j].rack != order[k].rack)
    decreases |hs|
  {
    NothingToSee(seen);
    SubsetSize(seen, seen + Racks(hs));
    if |seen| != total {
      SeeFirst(hs, seen);
      OrderStep(hs, seen, deferred, total);
      var h := hs[0];
      if h.rack in seen {
        assert See(seen, h) == seen;
        OrderSpreads(hs[1..], See(seen, h), deferred + [h], total);
      } else {
        OrderSpreads(hs[1..], See(seen, h), deferred, total);
      }
    }
  }

  lemma {:induction false} SubsetSize<T>(a: set<T>, b: set<T>)
    requires a <= b
    ensures |a| <= |b|
  {
    if a != {} {
      var x :| x in a;
      SubsetSize(a - {x}, b - {x});
    }
  }

  /** The replicas of the token at position `i`. */
  function Replicas(ring: seq<Host>, i: nat, factors: Factors, racks: map<string, set<string>>): seq<Host>
    requires i < |ring|
  {
    VisitAll(Start, Rotate(ring, i), factors, racks).replicas
  }

  /** The hosts that the walk has chosen stay the first ones of its result, in the order in which it chose them. */
  lemma {:induction false} ReplicasGrow(w: Walk, hs: seq<Host>, k: nat, factors: Factors,
                                        racks: map<string, set<string>>)
    requires k <= |hs|
    ensures
      var early, all := VisitAll(w, hs[..k], factors, racks).replicas, VisitAll(w, hs, factors, racks).replicas;
      w.replicas <= early <= all
    decreases |hs|
  {
    if hs != [] {
      hide Visit;
      VisitAppends(w, hs[0], factors, racks);
      var w' := Visit(w, hs[0], factors, racks);
      if k > 0 {
        assert hs[..k][0] == hs[0] && hs[..k][1..] == hs[1..][..k - 1];
        ReplicasGrow(w', hs[1..], k - 1, factors, racks);
      } else {
        assert hs[..k] == [];
        ReplicasGrow(w', hs[1..], 0, factors, racks);
      }
    }
  }

  lemma VisitAppends(w: Walk, h: Host, factors: Factors, racks: map<string, set<string>>)
    ensures w.replicas <= Visit(w, h, factors, racks).replicas
  {
  }

  /** The first replica of a token is its own host, if the data center has a positive factor. */
  lemma FirstReplica(ring: seq<Host>, i: nat, factors: Factors, racks: map<string, set<string>>)
    requires i < |ring|
    ensures
      var all := Replicas(ring, i, factors, racks);
      Wanted(factors, ring[i].dc) && factors[ring[i].dc] > 0 ==> all != [] && all[0] == ring[i]
  {
    var hs := Rotate(ring, i);
    if Wanted(factors, ring[i].dc) && factors[ring[i].dc] > 0 {
      var w := Visit(Start, hs[0], factors, racks);
      assert VisitAll(w, [], factors, racks) == w;
      assert hs[..1] == [hs[0]] && [hs[0]][1..] == [];
      assert VisitAll(Start, hs[..1], factors, racks) == w;
      assert w.replicas != [] && w.replicas[0] == ring[i];
      ReplicasGrow(Start, hs, 1, factors, racks);
    }
  }

  lemma RotateKeepsCenter(ring: seq<Host>, i: nat, dc: string)
    requires i <= |ring|
    ensures multiset(ByDc(Rotate(ring, i), dc)) == multiset(ByDc(ring, dc))
    ensures |ByDc(Rotate(ring, i), dc)| == |ByDc(ring, dc)|
    ensures Racks(ByDc(Rotate(ring, i), dc)) == Racks(ByDc(ring, dc))
  {
    assert ring == ring[..i] + ring[i..];
    ByDcAppend(ring[..i], ring[i..], dc);
    ByDcAppend(ring[i..], ring[..i], dc);
    RacksAppend(ByDc(ring[..i], dc), ByDc(ring[i..], dc));
    RacksAppend(ByDc(ring[i..], dc), ByDc(ring[..i], dc));
  }

  lemma PrefixOfPermutation(order: seq<Host>, hs: seq<Host>, n: nat)
    requires multiset(order) == multiset(hs)
    ensures |Take(order, n)| == Min(n, |hs|)
    ensures multiset(Take(order, n)) <= multiset(hs)
  {
    assert |order| == |multiset(order)| && |hs| == |multiset(hs)|;
    assert order == Take(order, n) + order[Min(|order|, n)..];
  }

  lemma {:induction false} NothingUnwanted(w: Walk, hs: seq<Host>, factors: Factors, racks: map<string, set<string>>,
                                           dc: string)
    requires SkippedApart(w) && !Wanted(factors, dc)
    ensures ByDc(VisitAll(w, hs, factors, racks).replicas, dc) == ByDc(w.replicas, dc)
    decreases |hs|
  {
    if hs != [] {
      var h := hs[0];
      VisitKeepsSkippedApart(w, h, factors, racks);
      if Wanted(factors, h.dc) {
        var added := Added(w.At(h.dc), h, factors[h.dc], |Get(racks, h.dc, {})|);
        AddedFromCenter(w, h, factors[h.dc], |Get(racks, h.dc, {})|);
        ByDcAppend(w.replicas, added, dc);
        ByDcAllOf(added, h.dc, dc);
      }
      NothingUnwanted(Visit(w, h, factors, racks), hs[1..], factors, racks, dc);
    }
  }

  /** Exact quota: from every start, each data center with a factor gets as many replicas as its factor, or all it
      has, taken from distinct ring positions; a data center without a factor gets none. */
  lemma ExactQuota(ring: seq<Host>, i: nat, factors: Factors, racks: map<string, set<string>>, dc: string)
    requires i < |ring| && AreRacksOf(racks, ring)
    ensures |ByDc(Replicas(ring, i, factors, racks), dc)| ==
              if Wanted(factors, dc) then Min(factors[dc], |ByDc(ring, dc)|) else 0
    ensures multiset(ByDc(Replicas(ring, i, factors, racks), dc)) <= multiset(ByDc(ring, dc))
  {
    assert forall d :: Get(Start.skipped, d, []) == [];
    if Wanted(factors, dc) {
      var hs := ByDc(Rotate(ring, i), dc);
      ChosenIsPrefixOfOrder(Rotate(ring, i), factors, racks, dc);
      RotateKeepsCenter(ring, i, dc);
      OrderIsPermutation(hs);
      PrefixOfPermutation(Order(hs, {}, [], |Racks(hs)|), ByDc(ring, dc), factors[dc]);
    } else {
      NothingUnwanted(Start, Rotate(ring, i), factors, racks, dc);
    }
  }

  ghost predicate Distinct(hs: seq<Host>) { forall j, k :: 0 <= j < k < |hs| ==> hs[j] != hs[k] }

  lemma {:induction false} DistinctIsSingle(hs: seq<Host>)
    ensures Distinct(hs) <==> forall h :: multiset(hs)[h] <= 1
  {
    if hs != [] {
      assert hs == [hs[0]] + hs[1..];
      DistinctIsSingle(hs[1..]);
      forall h ensures multiset(hs)[h] == multiset(hs[1..])[h] + if h == hs[0] then 1 else 0 {}
      if Distinct(hs) {
        assert hs[0] !in hs[1..];
      } else if hs[0] in hs[1..] {
        assert multiset(hs)[hs[0]] > 1;
      } else {
        var j, k :| 0 <= j < k < |hs| && hs[j] == hs[k];
        assert j > 0;
        assert hs[1..][j - 1] == hs[1..][k - 1];
        assert !Distinct(hs[1..]);
        var h :| multiset(hs[1..])[h] > 1;
        assert multiset(hs)[h] > 1;
      }
    }
  }

  /** The walk never asks whether a host was chosen before.  A host that owns one token is chosen at most once; when
      the factor takes the whole data center, no host is chosen twice exactly if no host owns two tokens. */
  lemma HostsChosenOnce(ring: seq<Host>, i: nat, factors: Factors, racks: map<string, set<string>>, dc: string)
    requires i < |ring| && AreRacksOf(racks, ring) && Wanted(factors, dc)
    ensures Distinct(ByDc(ring, dc)) ==> Distinct(ByDc(Replicas(ring, i, factors, racks), dc))
    ensures factors[dc] >= |ByDc(ring, dc)| ==>
              (Distinct(ByDc(Replicas(ring, i, factors, racks), dc)) <==> Distinct(ByDc(ring, dc)))
  {
    var chosen, own := ByDc(Replicas(ring, i, factors, racks), dc), ByDc(ring, dc);
    ExactQuota(ring, i, factors, racks, dc);
    DistinctIsSingle(chosen);
    DistinctIsSingle(own);
    if |chosen| == |own| {
      assert |multiset(chosen)| == |multiset(own)|;
      assert |multiset(own) - multiset(chosen)| == 0;
      assert multiset(chosen) + (multiset(own) - multiset(chosen)) == multiset(own);
    }
  }

  /** With virtual nodes a quota of two can be filled by one host although a second one is there. */
  lemma OneHostFillsQuota(a: Host, b: Host, factors: Factors, racks: map<string, set<string>>)
    requires a != b && a.dc == b.dc != "" && a.rack == b.rack != "" && Get(factors, a.dc, 0) == 2
    requires AreRacksOf(racks, [a, a, b])
    ensures ByDc(Replicas([a, a, b], 0, factors, racks), a.dc) == [a, a]
  {
    var ring := [a, a, b];
    assert Rotate(ring, 0) == ring;
    ByDcAllOf(ring, a.dc, a.dc);
    assert Get(racks, a.dc, {}) == Racks(ring) == {a.rack};
    ChosenIsPrefixOfOrder(ring, factors, racks, a.dc);
    OrderStep(ring, {}, [], 1);
    assert See({}, a) == {a.rack} && ring[1..] == [a, b];
  }

  lemma {:induction false} DistinctRacks(hs: seq<Host>)
    requires forall k :: 0 <= k < |hs| ==> hs[k].rack != ""
    requires forall j, k :: 0 <= j < k < |hs| ==> hs[j].rack != hs[k].rack
    ensures |Racks(hs)| == |hs|
  {
    if hs == [] {
      assert Racks(hs) == {};
    } else {
      var rest, last := hs[..|hs| - 1], hs[|hs| - 1];
      assert hs == rest + [last];
      DistinctRacks(rest);
      RacksAppend(rest, [last]);
      assert Racks([last]) == {last.rack};
      assert last.rack !in Racks(rest);
    }
  }

  ghost predicate AllRacked(hs: seq<Host>) { forall h :: h in hs ==> h.rack != "" }

  lemma PrefixSpreads(order: seq<Host>, own: set<string>, rf: nat)
    requires |own| <= |order| && Racks(order) <= own
    requires forall k :: 0 <= k < |own| ==> order[k].rack != ""
    requires forall j, k :: 0 <= j < k < |own| ==> order[j].rack != order[k].rack
    ensures |Racks(Take(order, rf))| == Min(rf, |own|)
  {
    var taken := Take(order, rf);
    var front := order[..Min(rf, |own|)];
    DistinctRacks(front);
    assert forall h :: h in front ==> h in taken;
    assert Racks(front) <= Racks(taken);
    assert forall h :: h in taken ==> h in order;
    assert Racks(taken) <= Racks(order);
    SubsetSize(Racks(front), Racks(taken));
    SubsetSize(Racks(taken), own);
    if rf <= |own| {
      assert front == taken;
    }
  }

  lemma InMultiset(s: seq<Host>, h: Host)
    ensures h in s <==> h in multiset(s)
  {
  }

  /** Rack spread: when every host of a data center has a rack, its replicas cover as many racks as there can be
      covered, and no rack comes a second time before all of them have come once. */
  lemma RacksSpread(ring: seq<Host>, i: nat, factors: Factors, racks: map<string, set<string>>, dc: string)
    requires i < |ring| && AreRacksOf(racks, ring) && Wanted(factors, dc) && AllRacked(ByDc(ring, dc))
    ensures
      var chosen, total := ByDc(Replicas(ring, i, factors, racks), dc), |Racks(ByDc(ring, dc))|;
      && |Racks(chosen)| == Min(factors[dc], total)
      && forall j, k :: 0 <= j < k < |chosen| && chosen[j].rack == chosen[k].rack ==> k >= total
  {
    var hs := ByDc(Rotate(ring, i), dc);
    var order := Order(hs, {}, [], |Racks(hs)|);
    RotateKeepsCenter(ring, i, dc);
    ChosenIsPrefixOfOrder(Rotate(ring, i), factors, racks, dc);
    OrderIsPermutation(hs);
    forall h ensures (h in hs <==> h in ByDc(ring, dc)) && (h in order <==> h in hs) {
      InMultiset(hs, h);
      InMultiset(ByDc(ring, dc), h);
      InMultiset(order, h);
    }
    assert {} + Racks(hs) == Racks(hs);
    OrderSpreads(hs, {}, [], |Racks(hs)|);
    PrefixSpreads(order, Racks(hs), factors[dc]);
  }

  // ---------- Hosts with several tokens ----------

  /** Hosts without a rack do not repeat. */
  ghost predicate UnrackedOnce(hs: seq<Host>) {
    forall j, k :: 0 <= j < k < |hs| && hs[j].rack == "" && hs[k].rack == "" ==> hs[j] != hs[k]
  }

  /** No two hosts share a rack, and no rack is in `seen`. */
  ghost predicate Spread(hs: seq<Host>, seen: set<string>) {
    && (forall k :: 0 <= k < |hs| && hs[k].rack != "" ==> hs[k].rack !in seen)
    && (forall j, k :: 0 <= j < k < |hs| && hs[j].rack != "" ==> hs[j].rack != hs[k].rack)
  }

  lemma {:induction false} FirstsSpread(hs: seq<Host>, seen: set<string>)
    ensures Spread(Firsts(hs, seen), seen)
    decreases |hs|
  {
    if hs != [] {
      if hs[0].rack == "" || hs[0].rack in seen {
        FirstsSpread(hs[1..], seen);
      } else {
        FirstsSpread(hs[1..], seen + {hs[0].rack});
      }
    }
  }

  ghost predicate Apart(a: seq<Host>, b: seq<Host>) { forall h :: h in a ==> h !in b }

  lemma DistinctParts(a: seq<Host>, b: seq<Host>)
    ensures Distinct(a + b) <==> Distinct(a) && Distinct(b) && Apart(b, a)
  {
    if Distinct(a + b) {
      forall j, k | 0 <= j < k < |a| ensures a[j] != a[k] { assert (a + b)[j] != (a + b)[k]; }
      forall j, k | 0 <= j < k < |b| ensures b[j] != b[k] { assert (a + b)[|a| + j] != (a + b)[|a| + k]; }
      forall j, k | 0 <= j < |a| && 0 <= k < |b| ensures a[j] != b[k] { assert (a + b)[j] != (a + b)[|a| + k]; }
    } else {
      var j, k :| 0 <= j < k < |a + b| && (a + b)[j] == (a + b)[k];
      assert j < |a| <= k ==> a[j] in a && b[k - |a|] in b;
    }
  }

  lemma TakeOfBoth(a: seq<Host>, b: seq<Host>, n: nat)
    ensures Take(a + b, n) == Take(a, n) + Take(b, if n < |a| then 0 else n - |a|)
  {
  }

  /** The hosts of one data center as a walk from position `i` meets them, up to the one that shows the last rack. */
  function UntilCovered(ring: seq<Host>, i: nat, dc: string): seq<Host>
    requires i < |ring|
  {
    var hs := ByDc(Rotate(ring, i), dc);
    hs[..CoverLength(hs, {}, |Racks(hs)|)]
  }

  /** Those behind them. */
  function AfterCovered(ring: seq<Host>, i: nat, dc: string): seq<Host>
    requires i < |ring|
  {
    var hs := ByDc(Rotate(ring, i), dc);
    hs[CoverLength(hs, {}, |Racks(hs)|)..]
  }

  /** The hosts that show racks first, or have none, and then the others, deferred ones first. */
  lemma ChosenInParts(ring: seq<Host>, i: nat, factors: Factors, racks: map<string, set<string>>, dc: string)
    requires i < |ring| && AreRacksOf(racks, ring) && Wanted(factors, dc)
    ensures
      var front := UntilCovered(ring, i, dc);
      ByDc(Replicas(ring, i, factors, racks), dc) ==
        Take(Firsts(front, {}) + (Repeats(front, {}) + AfterCovered(ring, i, dc)), factors[dc])
  {
    hide Order, Firsts, Repeats, CoverLength, VisitAll, ByDc;
    var hs := ByDc(Rotate(ring, i), dc);
    ChosenIsPrefixOfOrder(Rotate(ring, i), factors, racks, dc);
    RotateKeepsCenter(ring, i, dc);
    assert {} + Racks(hs) == Racks(hs);
    OrderClosedForm(hs, {}, [], |Racks(hs)|);
    NothingDeferred(Firsts(UntilCovered(ring, i, dc), {}), Repeats(UntilCovered(ring, i, dc), {}),
                    AfterCovered(ring, i, dc));
  }

  lemma NothingDeferred(a: seq<Host>, b: seq<Host>, c: seq<Host>)
    ensures a + ([] + b) + c == a + (b + c)
  {
    assert [] + b == b;
  }

  /** The exact condition, for every factor, under which no host is chosen twice: among the hosts that are taken, those
      without a rack do not repeat, and those that are taken behind the first hosts of the racks neither repeat nor are
      among these. */
  lemma HostsChosenOnceExactly(ring: seq<Host>, i: nat, factors: Factors, racks: map<string, set<string>>, dc: string)
    requires i < |ring| && AreRacksOf(racks, ring) && Wanted(factors, dc)
    ensures
      var front, rf := UntilCovered(ring, i, dc), factors[dc];
      var firsts := Firsts(front, {});
      var later := Take(Repeats(front, {}) + AfterCovered(ring, i, dc), if rf < |firsts| then 0 else rf - |firsts|);
      Distinct(ByDc(Replicas(ring, i, factors, racks), dc)) <==>
        UnrackedOnce(Take(firsts, rf)) && Distinct(later) && Apart(later, Take(firsts, rf))
  {
    var front, rf := UntilCovered(ring, i, dc), factors[dc];
    var firsts, others := Firsts(front, {}), Repeats(front, {}) + AfterCovered(ring, i, dc);
    var later := Take(others, if rf < |firsts| then 0 else rf - |firsts|);
    ChosenInParts(ring, i, factors, racks, dc);
    TakeOfBoth(firsts, others, rf);
    DistinctParts(Take(firsts, rf), later);
    FirstsSpread(front, {});
    SpreadDistinct(firsts, rf);
  }

  lemma SpreadDistinct(hs: seq<Host>, n: nat)
    requires Spread(hs, {})
    ensures Distinct(Take(hs, n)) <==> UnrackedOnce(Take(hs, n))
  {
    var t := Take(hs, n);
    forall j, k | 0 <= j < k < |t| && t[j].rack != "" ensures t[j] != t[k] { assert hs[j].rack != hs[k].rack; }
  }

  /** When every host has a rack, a factor up to the number of racks never takes a host twice, however many tokens it
      has. */
  lemma RackedHostsChosenOnce(ring: seq<Host>, i: nat, factors: Factors, racks: map<string, set<string>>, dc: string)
    requires i < |ring| && AreRacksOf(racks, ring) && Wanted(factors, dc) && AllRacked(ByDc(ring, dc))
    requires factors[dc] <= |Racks(ByDc(ring, dc))|
    ensures Distinct(ByDc(Replicas(ring, i, factors, racks), dc))
  {
    RacksSpread(ring, i, factors, racks, dc);
    ExactQuota(ring, i, factors, racks, dc);
  }

  // ---------- SimpleStrategy ----------

  /** The inner loop of `SimpleStrategy::tokens_to_replicas`: its test comes after the first host, so a factor of 0
      still gives one replica. */
  method SimpleReplicasFrom(ring: seq<Host>, i: nat, rf: nat) returns (replicas: seq<Host>)
    requires i < |ring|
    ensures |replicas| == if rf == 0 then 1 else if rf < |ring| then rf else |ring|
    ensures forall k :: 0 <= k < |replicas| ==> replicas[k] == ring[(i + k) % |ring|]
  {
    var target := Min(rf, |ring|);
    replicas := [];
    var j := i;
    while true
      invariant j == if i + |replicas| < |ring| then i + |replicas| else i + |replicas| - |ring|
      invariant |replicas| <= target && (|replicas| < target || replicas == [])
      invariant forall k :: 0 <= k < |replicas| ==> replicas[k] == ring[(i + k) % |ring|]
      decreases |ring| - |replicas|
    {
      Wraps(i, |replicas|, |ring|);
      replicas := replicas + [ring[j]];
      j := j + 1;
      if j == |ring| {
        j := 0;
      }
      if |replicas| >= target { break; }
    }
  }
}
