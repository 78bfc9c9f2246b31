/**
 The case-insensitive hash table (hash_table.hpp), with linear probing over an index of pointers and a chain of
 entries for names that differ in case only.

 A pointer names the allocation it points into, because growing `entries_` moves the entries and leaves older
 pointers dangling.  Lookups are compared with a linear scan over the names.
 */
module HashTable {
  import opened Strings

  // ---------- Names ----------

  /** A name in double quotes asks for the exact case. */
  predicate Quoted(name: string) { |name| > 0 && name[0] == '"' && name[|name| - 1] == '"' }

  function Unquoted(name: string): string {
    if !Quoted(name) then name else if |name| == 1 then "" else name[1..|name| - 1]
  }

  // ---------- The specification: a linear scan ----------

  predicate Matches(candidate: string, name: string, exact: bool) {
    if exact then candidate == name else Lower(candidate) == Lower(name)
  }

  /** The positions below `n` of the names that match, in order. */
  function Scan(names: seq<string>, name: string, exact: bool, n: nat): seq<nat>
    requires n <= |names|
  {
    if n == 0 then []
    else Scan(names, name, exact, n - 1) + if Matches(names[n - 1], name, exact) then [n - 1] else []
  }

  /** The matches below `n`, each once and in order. */
  ghost predicate AreMatches(found: seq<nat>, names: seq<string>, name: string, exact: bool, n: nat)
    requires n <= |names|
  {
    && (forall i: nat :: i in found <==> i < n && Matches(names[i], name, exact))
    && (forall j, k :: 0 <= j < k < |found| ==> found[j] < found[k])
  }

  /** The scan finds every match once, in the order of insertion. */
  lemma {:induction false} ScanFindsMatches(names: seq<string>, name: string, exact: bool, n: nat)
    requires n <= |names|
    ensures
      var found := Scan(names, name, exact, n);
      && (forall i: nat :: i in found <==> i < n && Matches(names[i], name, exact))
      && (forall j, k :: 0 <= j < k < |found| ==> found[j] < found[k])
  {
    ScanIsMatches(names, name, exact, n);
    hide Scan, Matches;
  }

  lemma {:induction false} ScanIsMatches(names: seq<string>, name: string, exact: bool, n: nat)
    requires n <= |names|
    ensures AreMatches(Scan(names, name, exact, n), names, name, exact, n)
  {
    hide Scan, Matches, AreMatches;
    if n == 0 {
      NoMatches(names, name, exact);
    } else {
      ScanIsMatches(names, name, exact, n - 1);
      ScanAppends(names, name, exact, n - 1);
      OneMoreMatch(Scan(names, name, exact, n - 1), names, name, exact, n - 1);
    }
  }

  lemma NoMatches(names: seq<string>, name: string, exact: bool)
    ensures AreMatches(Scan(names, name, exact, 0), names, name, exact, 0)
  {
  }

  lemma OneMoreMatch(found: seq<nat>, names: seq<string>, name: string, exact: bool, n: nat)
    requires n < |names| && AreMatches(found, names, name, exact, n)
    ensures AreMatches(if Matches(names[n], name, exact) then found + [n] else found, names, name, exact, n + 1)
  {
    hide Matches;
    if Matches(names[n], name, exact) { AppendLarger(found, n); }
  }

  lemma ScanAppends(names: seq<string>, name: string, exact: bool, n: nat)
    requires n < |names|
    ensures Scan(names, name, exact, n + 1) ==
              if Matches(names[n], name, exact) then Scan(names, name, exact, n) + [n] else Scan(names, name, exact, n)
  {
  }

  lemma AppendLarger(found: seq<nat>, n: nat)
    requires forall j, k :: 0 <= j < k < |found| ==> found[j] < found[k]
    requires forall i: nat :: i in found ==> i < n
    ensures forall i: nat :: i in found + [n] <==> i in found || i == n
    ensures
      var more := found + [n];
      forall j, k :: 0 <= j < k < |more| ==> more[j] < more[k]
  {
    forall j | 0 <= j < |found| ensures found[j] < n { assert found[j] in found; }
  }

  function Lookup(names: seq<string>, name: string): seq<nat> {
    Scan(names, Unquoted(name), Quoted(name), |names|)
  }

  /** What a lookup is for: a name in quotes finds what is written between them, and any other name finds what is the
      same up to case.  A lone quote is taken for the quotes of the empty name. */
  predicate Finds(name: string, candidate: string) {
    if name == "\"" then candidate == ""
    else if |name| >= 2 && name[0] == '"' && name[|name| - 1] == '"' then name == "\"" + candidate + "\""
    else SameUpToCase(name, candidate)
  }

  /** The specification finds exactly these, once and in order. */
  lemma LookupFinds(names: seq<string>, name: string)
    ensures
      var found := Lookup(names, name);
      && (forall i: nat :: i in found <==> i < |names| && Finds(name, names[i]))
      && (forall j, k :: 0 <= j < k < |found| ==> found[j] < found[k])
  {
    ScanFindsMatches(names, Unquoted(name), Quoted(name), |names|);
    forall i: nat | i < |names| ensures Matches(names[i], Unquoted(name), Quoted(name)) <==> Finds(name, names[i]) {
      MatchFinds(names[i], name);
    }
  }

  lemma MatchFinds(candidate: string, name: string)
    ensures Matches(candidate, Unquoted(name), Quoted(name)) <==> Finds(name, candidate)
  {
    if Quoted(name) && |name| > 1 {
      var inner := name[1..|name| - 1];
      assert name == "\"" + inner + "\"";
      assert ("\"" + candidate + "\"")[1..|candidate| + 1] == candidate;
    } else {
      LowerMeans(name, candidate);
    }
  }

  lemma {:induction false} ScanMisses(names: seq<string>, name: string, exact: bool, m: nat, n: nat)
    requires m <= n <= |names|
    requires forall i :: m <= i < n ==> Lower(names[i]) != Lower(name)
    ensures Scan(names, name, exact, n) == Scan(names, name, exact, m)
  {
    if m < n {
      ScanMisses(names, name, exact, m, n - 1);
    }
  }

  // ---------- Pointers, probes and chains ----------

  datatype Ptr = Null | To(buffer: nat, at: nat)

  datatype Entry = Entry(name: string, index: nat, next: Ptr)

  function Keys(entries: seq<Entry>): (keys: seq<string>)
    ensures |keys| == |entries| && forall i :: 0 <= i < |keys| ==> keys[i] == Lower(entries[i].name)
  {
    seq(|entries|, i requires 0 <= i < |entries| => Lower(entries[i].name))
  }

  function Names(entries: seq<Entry>): (names: seq<string>)
    ensures |names| == |entries| && forall i :: 0 <= i < |names| ==> names[i] == entries[i].name
  {
    seq(|entries|, i requires 0 <= i < |entries| => entries[i].name)
  }

  predicate Seen(keys: seq<string>, k: nat, key: string)
    requires k <= |keys|
  {
    exists j :: 0 <= j < k && keys[j] == key
  }

  predicate First(keys: seq<string>, i: nat) { i < |keys| && !Seen(keys, i, keys[i]) }

  predicate Distinct(keys: seq<string>) { forall i, j :: 0 <= i < j < |keys| ==> keys[i] != keys[j] }

  /** Distinct up to case. */
  lemma DistinctMeans(entries: seq<Entry>)
    ensures Distinct(Keys(entries)) <==>
            forall i, j :: 0 <= i < j < |entries| ==> !SameUpToCase(entries[i].name, entries[j].name)
  {
    hide SameUpToCase, Lower;
    forall i, j | 0 <= i < |entries| && 0 <= j < |entries|
      ensures Keys(entries)[i] == Keys(entries)[j] <==> SameUpToCase(entries[i].name, entries[j].name)
    {
      LowerMeans(entries[i].name, entries[j].name);
    }
  }

  lemma {:induction false} FirstWith(keys: seq<string>, i: nat) returns (f: nat)
    requires i < |keys|
    ensures f <= i && keys[f] == keys[i] && First(keys, f)
  {
    if Seen(keys, i, keys[i]) {
      var j :| 0 <= j < i && keys[j] == keys[i];
      f := FirstWith(keys, j);
    } else {
      f := i;
    }
  }

  /** The slot at distance `d` from `home`, around the index. */
  function Slot(n: nat, home: nat, d: nat): (s: nat)
    requires home < n && d <= n
    ensures s < n
  {
    if home + d < n then home + d else home + d - n
  }

  function Home(hash: string -> nat, n: nat, key: string): (h: nat)
    requires n > 0
    ensures h < n
  {
    hash(key) % n
  }

  /** Every used slot points to the first entry of its name, and no two slots to the same entry. */
  ghost predicate SlotsHoldFirsts(index: seq<Ptr>, keys: seq<string>, k: nat, buffer: nat) {
    && (forall s :: 0 <= s < |index| && index[s].To? ==>
          index[s].buffer == buffer && index[s].at < k && First(keys, index[s].at))
    && (forall s, t :: 0 <= s < t < |index| && index[s].To? && index[t].To? ==> index[s].at != index[t].at)
  }

  /** Entry `i` is met by a probe that is at distance `d` from `home`, with no empty slot before it. */
  predicate Reached(index: seq<Ptr>, home: nat, buffer: nat, i: nat, d: nat)
    requires home < |index| && d <= |index|
    decreases |index| - d
  {
    && d < |index|
    && var p := index[Slot(|index|, home, d)];
       p.To? && (p == To(buffer, i) || Reached(index, home, buffer, i, d + 1))
  }

  predicate Findable(index: seq<Ptr>, keys: seq<string>, i: nat, buffer: nat, hash: string -> nat)
    requires |index| > 0 && i < |keys|
  {
    Reached(index, Home(hash, |index|, keys[i]), buffer, i, 0)
  }

  /** The index describes the first `k` entries. */
  ghost predicate Indexed(index: seq<Ptr>, keys: seq<string>, k: nat, buffer: nat, hash: string -> nat) {
    && k <= |keys| && |index| > 0
    && SlotsHoldFirsts(index, keys, k, buffer)
    && forall i: nat {:trigger Findable(index, keys, i, buffer, hash)} :: i < k && First(keys, i) ==>
         Findable(index, keys, i, buffer, hash)
  }

  predicate InRange(index: seq<Ptr>, k: nat) { forall s :: 0 <= s < |index| && index[s].To? ==> index[s].at < k }

  /** The distance at which a probe for `key` stops, or the size of the index if it comes round. */
  function Stop(index: seq<Ptr>, keys: seq<string>, key: string, home: nat, d: nat): (stop: nat)
    requires home < |index| && d <= |index| && InRange(index, |keys|)
    ensures d <= stop <= |index|
    ensures stop < |index| ==>
              var p := index[Slot(|index|, home, stop)];
              p.Null? || keys[p.at] == key
    decreases |index| - d
  {
    if d == |index| then d
    else
      var p := index[Slot(|index|, home, d)];
      if p.Null? || keys[p.at] == key then d else Stop(index, keys, key, home, d + 1)
  }

  lemma {:induction false} StopAtFirst(index: seq<Ptr>, keys: seq<string>, k: nat, buffer: nat, f: nat, home: nat,
                                       d: nat)
    requires k <= |keys| && SlotsHoldFirsts(index, keys, k, buffer) && f < k && First(keys, f)
    requires home < |index| && d <= |index| && Reached(index, home, buffer, f, d)
    ensures
      var stop := Stop(index, keys, keys[f], home, d);
      stop < |index| && index[Slot(|index|, home, stop)] == To(buffer, f)
    decreases |index| - d
  {
    var p := index[Slot(|index|, home, d)];
    if p != To(buffer, f) {
      assert First(keys, p.at);
      StopAtFirst(index, keys, k, buffer, f, home, d + 1);
    }
  }

  /** A probe that does not stop at a used slot has shown that the name is not there. */
  lemma MissIsAbsent(index: seq<Ptr>, keys: seq<string>, k: nat, buffer: nat, hash: string -> nat, key: string)
    requires Indexed(index, keys, k, buffer, hash)
    ensures
      var home := Home(hash, |index|, key);
      var stop := Stop(index, keys, key, home, 0);
      stop == |index| || index[Slot(|index|, home, stop)].Null? ==> !Seen(keys, k, key)
  {
    if Seen(keys, k, key) {
      var j :| 0 <= j < k && keys[j] == key;
      var f := FirstWith(keys, j);
      assert Findable(index, keys, f, buffer, hash);
      StopAtFirst(index, keys, k, buffer, f, Home(hash, |index|, key), 0);
    }
  }

  lemma {:induction false} Pigeonhole(s: seq<nat>, k: nat)
    requires forall i :: 0 <= i < |s| ==> s[i] < k
    requires forall i, j :: 0 <= i < j < |s| ==> s[i] != s[j]
    ensures |s| <= k
    decreases k
  {
    if |s| > 0 {
      assert s[0] < k;
      if p :| 0 <= p < |s| && s[p] == k - 1 {
        Pigeonhole(s[..p] + s[p + 1..], k - 1);
      } else {
        Pigeonhole(s, k - 1);
      }
    }
  }

  lemma {:induction false} FullProbe(index: seq<Ptr>, keys: seq<string>, key: string, home: nat, d: nat, s: nat)
    requires home < |index| && d <= |index| && InRange(index, |keys|) && s < |index|
    requires d <= if home <= s then s - home else s + |index| - home
    requires Stop(index, keys, key, home, d) == |index|
    ensures index[s].To?
    decreases |index| - d
  {
    if Slot(|index|, home, d) != s {
      FullProbe(index, keys, key, home, d + 1, s);
    }
  }

  /** The index is larger than the number of entries, so a probe never comes round. */
  lemma ProbeStops(index: seq<Ptr>, keys: seq<string>, k: nat, buffer: nat, key: string, home: nat)
    requires k <= |keys| && SlotsHoldFirsts(index, keys, k, buffer) && k < |index| && home < |index|
    ensures Stop(index, keys, key, home, 0) < |index|
  {
    if Stop(index, keys, key, home, 0) == |index| {
      forall s: nat | s < |index| ensures index[s].To? {
        FullProbe(index, keys, key, home, 0, s);
      }
      Pigeonhole(seq(|index|, s requires 0 <= s < |index| => index[s].at), k);
    }
  }

  lemma {:induction false} FillKeepsReached(index: seq<Ptr>, home: nat, buffer: nat, i: nat, d: nat, s: nat, p: Ptr)
    requires home < |index| && d <= |index| && s < |index| && index[s].Null? && p.To?
    requires Reached(index, home, buffer, i, d)
    ensures Reached(index[s := p], home, buffer, i, d)
    decreases |index| - d
  {
    if index[Slot(|index|, home, d)] != To(buffer, i) {
      FillKeepsReached(index, home, buffer, i, d + 1, s, p);
    }
  }

  lemma {:induction false} FillReaches(index: seq<Ptr>, keys: seq<string>, key: string, home: nat, d: nat, p: Ptr)
    requires home < |index| && d <= |index| && InRange(index, |keys|) && p.To?
    requires
      var stop := Stop(index, keys, key, home, d);
      stop < |index| && index[Slot(|index|, home, stop)].Null?
    ensures Reached(index[Slot(|index|, home, Stop(index, keys, key, home, d)) := p], home, p.buffer, p.at, d)
    decreases |index| - d
  {
    if d < Stop(index, keys, key, home, d) {
      FillReaches(index, keys, key, home, d + 1, p);
    }
  }

  /** Filling the empty slot where the probe for entry `k` stopped adds it. */
  lemma FillKeepsIndexed(index: seq<Ptr>, keys: seq<string>, k: nat, buffer: nat, hash: string -> nat, h: nat)
    requires Indexed(index, keys, k, buffer, hash) && k < |keys|
    requires
      var home := Home(hash, |index|, keys[k]);
      var stop := Stop(index, keys, keys[k], home, 0);
      stop < |index| && h == Slot(|index|, home, stop) && index[h].Null?
    ensures Indexed(index[h := To(buffer, k)], keys, k + 1, buffer, hash)
  {
    var index' := index[h := To(buffer, k)];
    assert InRange(index, |keys|);
    hide Indexed, First, Findable, Stop, Home, Slot, Seen;
    MissIsAbsent(index, keys, k, buffer, hash, keys[k]);
    FillSlots(index, keys, k, buffer, hash, h);
    FillFindsNew(index, keys, k, buffer, hash, h);
    forall i: nat | i < k && First(keys, i) ensures Findable(index', keys, i, buffer, hash) {
      FillKeepsFindable(index, keys, k, buffer, hash, h, i);
    }
    OneMoreIndexed(index', keys, k, buffer, hash);
  }

  lemma OneMoreIndexed(index: seq<Ptr>, keys: seq<string>, k: nat, buffer: nat, hash: string -> nat)
    requires k < |keys| && |index| > 0 && SlotsHoldFirsts(index, keys, k + 1, buffer)
    requires Findable(index, keys, k, buffer, hash)
    requires forall i: nat :: i < k && First(keys, i) ==> Findable(index, keys, i, buffer, hash)
    ensures Indexed(index, keys, k + 1, buffer, hash)
  {
    hide Findable, First, SlotsHoldFirsts;
  }

  lemma FillSlots(index: seq<Ptr>, keys: seq<string>, k: nat, buffer: nat, hash: string -> nat, h: nat)
    requires Indexed(index, keys, k, buffer, hash) && k < |keys| && !Seen(keys, k, keys[k])
    requires h < |index| && index[h].Null?
    ensures SlotsHoldFirsts(index[h := To(buffer, k)], keys, k + 1, buffer)
  {
    hide Seen, Findable;
  }

  lemma FillFindsNew(index: seq<Ptr>, keys: seq<string>, k: nat, buffer: nat, hash: string -> nat, h: nat)
    requires k < |keys| && |index| > 0 && InRange(index, |keys|)
    requires
      var home := Home(hash, |index|, keys[k]);
      var stop := Stop(index, keys, keys[k], home, 0);
      stop < |index| && h == Slot(|index|, home, stop) && index[h].Null?
    ensures Findable(index[h := To(buffer, k)], keys, k, buffer, hash)
  {
    FillReaches(index, keys, keys[k], Home(hash, |index|, keys[k]), 0, To(buffer, k));
  }

  lemma FillKeepsFindable(index: seq<Ptr>, keys: seq<string>, k: nat, buffer: nat, hash: string -> nat, h: nat, i: nat)
    requires Indexed(index, keys, k, buffer, hash) && k < |keys| && h < |index| && index[h].Null?
    requires i < k && First(keys, i)
    ensures Findable(index[h := To(buffer, k)], keys, i, buffer, hash)
  {
    hide First, Reached;
    assert Findable(index, keys, i, buffer, hash);
    FillKeepsReached(index, Home(hash, |index|, keys[i]), buffer, i, 0, h, To(buffer, k));
  }

  /** A further entry of a known name needs no slot. */
  lemma RepeatKeepsIndexed(index: seq<Ptr>, keys: seq<string>, k: nat, buffer: nat, hash: string -> nat)
    requires Indexed(index, keys, k, buffer, hash) && k < |keys| && Seen(keys, k, keys[k])
    ensures Indexed(index, keys, k + 1, buffer, hash)
  {
    assert !First(keys, k);
  }

  /** The next entry below `k` of the same name as `i`, from `j` on. */
  function NextSame(keys: seq<string>, i: nat, j: nat, k: nat, buffer: nat): (p: Ptr)
    requires i < |keys| && j <= k <= |keys|
    ensures p.To? ==> p.buffer == buffer && j <= p.at < k && keys[p.at] == keys[i]
    ensures p.To? ==> forall l :: j <= l < p.at ==> keys[l] != keys[i]
    ensures p.Null? ==> forall l :: j <= l < k ==> keys[l] != keys[i]
    decreases k - j
  {
    if j == k then Null else if keys[j] == keys[i] then To(buffer, j) else NextSame(keys, i, j + 1, k, buffer)
  }

  /** The chains link the first `k` entries by name; the other entries are not linked. */
  ghost predicate Chained(entries: seq<Entry>, k: nat, buffer: nat) {
    && k <= |entries|
    && (forall i: nat {:trigger entries[i].next} :: i < k ==>
          entries[i].next == NextSame(Keys(entries), i, i + 1, k, buffer))
    && (forall i: nat {:trigger entries[i].next} :: k <= i < |entries| ==> entries[i].next == Null)
  }

  /** The next entry of a chain is the next one with the name. */
  lemma ChainStays(entries: seq<Entry>, k: nat, buffer: nat, i: nat)
    requires Chained(entries, k, buffer) && i < k
    ensures
      var next := entries[i].next;
      && (next.To? ==> !Dangles(next, buffer) && i < next.at < k && Keys(entries)[next.at] == Keys(entries)[i])
      && forall l :: i < l < (if next.To? then next.at else k) ==> Keys(entries)[l] != Keys(entries)[i]
  {
    assert entries[i].next == NextSame(Keys(entries), i, i + 1, k, buffer);
  }

  /** Linking the last entry of a chain to entry `k` chains one entry more. */
  lemma LinkKeepsChained(entries: seq<Entry>, k: nat, buffer: nat, last: nat)
    requires Chained(entries, k, buffer) && last < k < |entries|
    ensures
      var linked := entries[last := entries[last].(next := To(buffer, k))];
      Keys(entries)[last] == Keys(entries)[k] && entries[last].next == Null ==>
        Keys(linked) == Keys(entries) && Chained(linked, k + 1, buffer)
  {
    var linked := entries[last := entries[last].(next := To(buffer, k))];
    var keys := Keys(entries);
    assert Keys(linked) == keys;
    if keys[last] == keys[k] && entries[last].next == Null {
      assert NextSame(keys, last, last + 1, k, buffer) == Null;
      forall i: nat | i < k ensures linked[i].next == NextSame(keys, i, i + 1, k + 1, buffer) {
        NextSameGrows(keys, i, i + 1, k, buffer);
        assert entries[i].next == NextSame(keys, i, i + 1, k, buffer);
      }
    }
  }

  lemma {:induction false} NextSameGrows(keys: seq<string>, i: nat, j: nat, k: nat, buffer: nat)
    requires i < |keys| && j <= k < |keys|
    ensures NextSame(keys, i, j, k + 1, buffer) ==
              if NextSame(keys, i, j, k, buffer).To? then NextSame(keys, i, j, k, buffer)
              else if keys[k] == keys[i] then To(buffer, k) else Null
    decreases k - j
  {
    if j < k && keys[j] != keys[i] {
      NextSameGrows(keys, i, j + 1, k, buffer);
    }
  }

  /** An entry of a new name leaves the chains as they are. */
  lemma NewNameKeepsChained(entries: seq<Entry>, k: nat, buffer: nat)
    requires Chained(entries, k, buffer) && k < |entries| && !Seen(Keys(entries), k, Keys(entries)[k])
    ensures Chained(entries, k + 1, buffer)
  {
    var keys := Keys(entries);
    forall i: nat | i < k ensures entries[i].next == NextSame(keys, i, i + 1, k + 1, buffer) {
      NextSameGrows(keys, i, i + 1, k, buffer);
    }
  }

  /** The first `k` entries are indexed and linked. */
  ghost predicate Consistent(entries: seq<Entry>, index: seq<Ptr>, k: nat, buffer: nat, hash: string -> nat) {
    && (forall i :: 0 <= i < |entries| ==> entries[i].index == i)
    && Indexed(index, Keys(entries), k, buffer, hash)
    && Chained(entries, k, buffer)
  }

  // ---------- The table ----------

  function Pow2(i: nat): (p: nat)
    ensures p > 0
  {
    if i == 0 then 1 else 2 * Pow2(i - 1)
  }

  ghost predicate IsPow2(n: nat) { exists i :: n == Pow2(i) }

  /** `next_pow_2`: the smallest power of two from 2 on that is not below `num`. */
  method NextPow2(num: nat) returns (next: nat)
    ensures next >= num && next >= 2 && IsPow2(next)
    ensures next > 2 ==> next / 2 < num
  {
    next := 2;
    assert Pow2(1) == 2;
    var i := 0;
    while next < num
      invariant i == 0 ==> next == 2
      invariant i > 0 ==> next == Pow2(i - 1) && (i > 1 ==> Pow2(i - 2) < num) && num > 2
      invariant IsPow2(next)
      decreases if i == 0 then num + 1 else num - next
    {
      next, i := Pow2(i), i + 1;
    }
  }

  class CaseInsensitiveHashTable {
    const hash: string -> nat
    var entries: seq<Entry>
    var capacity: nat // of the allocation that holds the entries
    var buffer: nat // which allocation that is
    var index: seq<Ptr> // the index mask is its length less one
    var broken: bool // a dangling pointer has been followed

    ghost predicate Valid()
      reads this
    {
      && !broken
      && 16 <= capacity && |entries| <= capacity < |index| && IsPow2(|index|)
      && Consistent(entries, index, |entries|, buffer, hash)
    }

    constructor (hash: string -> nat, capacity: nat)
      ensures Valid() && this.hash == hash
      ensures entries == [] && this.capacity == if capacity < 16 then 16 else capacity
    {
      this.hash := hash;
      entries, this.capacity, buffer, index, broken := [], 16, 0, [], false;
      new;
      Reset(capacity);
    }

    method Reset(wanted: nat)
      modifies this`capacity, this`buffer, this`index
      ensures capacity == if wanted < old(capacity) then old(capacity) else wanted
      ensures buffer == if wanted > old(capacity) then old(buffer) + 1 else old(buffer)
      ensures capacity < |index| && IsPow2(|index|) && forall s :: 0 <= s < |index| ==> index[s] == Null
    {
      var cap := if wanted < capacity then capacity else wanted;
      var size := NextPow2(4 * cap / 3 + 1);
      index := seq(size, _ => Null);
      if cap > capacity {
        buffer := buffer + 1;
        capacity := cap;
      }
    }

    /** The probe of `add_index` and `get_indices`. */
    method Probe(name: string) returns (full: bool, h: nat)
      requires |index| > 0 && InRange(index, |entries|)
      ensures
        var home := Home(hash, |index|, Lower(name));
        var stop := Stop(index, Keys(entries), Lower(name), home, 0);
        (full <==> stop == |index|) && h == Slot(|index|, home, stop)
    {
      var n := |index|;
      h := hash(Lower(name)) % n;
      var start := h;
      ghost var d := 0;
      while index[h].To? && !IEquals(name, entries[index[h].at].name)
        invariant d < n && h == Slot(n, start, d)
        invariant Stop(index, Keys(entries), Lower(name), start, d) == Stop(index, Keys(entries), Lower(name), start, 0)
        decreases n - d
      {
        WrapStep(n, start, d);
        h, d := (h + 1) % n, d + 1;
        if h == start {
          return true, h;
        }
      }
      return false, h;
    }

    /** The end of `add_index`: entry `k` is linked behind the chain that starts at `first`. */
    method Link(first: nat, k: nat)
      requires first < k < |entries| && Keys(entries)[first] == Keys(entries)[k]
      requires PointForward(entries, k, buffer)
      modifies this`entries, this`broken
      ensures SameNames(entries, old(entries))
      ensures old(Chained(entries, k, buffer)) ==> Chained(entries, k + 1, buffer) && broken == old(broken)
      ensures Dangles(old(entries)[first].next, buffer) ==> broken
    {
      hide Chained, NextSame, Keys, Lower;
      ghost var keys := Keys(entries);
      ghost var chained := Chained(entries, k, buffer);
      var curr := first;
      while entries[curr].next.To?
        invariant entries == old(entries) && broken == old(broken)
        invariant curr < k && (chained ==> keys[curr] == keys[k])
        invariant curr == first || !Dangles(entries[first].next, buffer)
        decreases k - curr
      {
        if chained { ChainStays(entries, k, buffer, curr); }
        if Dangles(entries[curr].next, buffer) {
          broken := true;
          return;
        }
        curr := entries[curr].next.at;
      }
      if chained { LinkKeepsChained(entries, k, buffer, curr); }
      entries := entries[curr := entries[curr].(next := To(buffer, k))];
    }

    method AddIndex(k: nat)
      requires k < |entries| && k < |index| && Indexed(index, Keys(entries), k, buffer, hash)
      requires PointForward(entries, k, buffer)
      modifies this`entries, this`index, this`broken
      ensures SameNames(entries, old(entries))
      ensures |index| == old(|index|) && Indexed(index, Keys(entries), k + 1, buffer, hash)
      ensures !Seen(Keys(entries), k, Keys(entries)[k]) ==> entries == old(entries) && broken == old(broken)
      ensures old(Consistent(entries, index, k, buffer, hash)) ==>
                Consistent(entries, index, k + 1, buffer, hash) && broken == old(broken)
      ensures forall f: nat {:trigger Dangles(old(entries)[f].next, buffer)} | f < k && First(Keys(entries), f) &&
                Keys(entries)[f] == Keys(entries)[k] :: Dangles(old(entries)[f].next, buffer) ==> broken
    {
      ghost var keys := Keys(entries);
      ProbeStops(index, keys, k, buffer, keys[k], Home(hash, |index|, keys[k]));
      MissIsAbsent(index, keys, k, buffer, hash, keys[k]);
      var full, h := Probe(entries[k].name);
      if full { return; }
      if index[h].Null? {
        FillKeepsIndexed(index, keys, k, buffer, hash, h);
        if Chained(entries, k, buffer) { NewNameKeepsChained(entries, k, buffer); }
        index := index[h := To(buffer, k)];
      } else {
        assert keys[index[h].at] == keys[k];
        RepeatKeepsIndexed(index, keys, k, buffer, hash);
        Link(index[h].at, k);
        assert Keys(entries) == keys;
      }
    }

    /** The body of the loop in `reindex`. */
    method IndexAgain(i: nat)
      requires !broken && i < |entries| < |index| && Indexed(index, Keys(entries), i, buffer, hash)
      requires NextsDangle(entries, buffer)
      modifies this`entries, this`index, this`broken
      ensures |index| == old(|index|) && Indexed(index, Keys(entries), i + 1, buffer, hash)
      ensures SameNames(entries, old(entries)[i := old(entries)[i].(index := i)])
      ensures Names(entries) == old(Names(entries)) && Keys(entries) == old(Keys(entries))
      ensures broken <==> Seen(Keys(entries), i, Keys(entries)[i])
      ensures !broken ==> entries == old(entries)[i := old(entries)[i].(index := i)] && NextsDangle(entries, buffer)
    {
      hide Indexed, Chained, NextsDangle, PointForward, Seen, First, Dangles, Keys, Names;
      RelabelKeepsDangling(entries, i, buffer);
      RelabelKeepsNames(entries, i);
      entries := entries[i := entries[i].(index := i)];
      ghost var keys, before := Keys(entries), entries;
      DanglingPointsForward(entries, i, buffer);
      AddIndex(i);
      SameNamesGiveNames(entries, before);
      if Seen(keys, i, keys[i]) {
        var f := SeenDangles(before, i, buffer);
      }
    }

    method Reindex()
      requires !broken && |entries| < |index| && forall s :: 0 <= s < |index| ==> index[s] == Null
      requires NextsDangle(entries, buffer)
      modifies this`entries, this`index, this`broken
      ensures Names(entries) == old(Names(entries)) && |index| == old(|index|)
      ensures broken <==> !Distinct(old(Keys(entries)))
      ensures !broken ==> Indexed(index, Keys(entries), |entries|, buffer, hash) && Chained(entries, |entries|, buffer)
      ensures !broken ==> forall i :: 0 <= i < |entries| ==> entries[i].index == i
    {
      ghost var keys, names := Keys(entries), Names(entries);
      assert Indexed(index, keys, 0, buffer, hash);
      hide Indexed, Chained, NextsDangle, Seen, Keys, Names, Distinct;
      for i := 0 to |entries|
        invariant !broken && |index| == old(|index|) && |entries| == |keys|
        invariant Keys(entries) == keys && Names(entries) == names && NextsDangle(entries, buffer)
        invariant forall j :: 0 <= j < i ==> entries[j].index == j
        invariant Indexed(index, keys, i, buffer, hash)
        invariant forall j: nat :: j < i ==> !Seen(keys, j, keys[j])
      {
        hide SameNames;
        IndexAgain(i);
        if broken {
          SeenRepeats(keys, i);
          return;
        }
      }
      NothingDangles(entries, buffer);
    }

    /** Growing moves the entries and builds a new index; it follows a dangling pointer exactly if two names are equal
        up to case. */
    method Resize(wanted: nat)
      requires Valid() && wanted > capacity
      modifies this
      ensures Names(entries) == old(Names(entries)) && capacity == wanted
      ensures broken <==> !Distinct(old(Keys(entries)))
      ensures !broken ==> Valid()
    {
      GrownNextsDangle(entries, buffer);
      Reset(wanted);
      Reindex();
    }

    /** The part of `add` behind the growth. */
    method Push(name: string)
      requires Valid() && |entries| < capacity
      modifies this`entries, this`index, this`broken
      ensures Valid() && Names(entries) == old(Names(entries)) + [name]
    {
      hide Indexed, Chained, PointForward, Dangles;
      ghost var before := entries;
      var i := |entries|;
      var e := Entry(name, i, Null);
      PushIsReady(before, e, index, buffer, hash);
      entries := entries + [e];
      AddIndex(i);
      SameNamesGiveNames(entries, before + [e]);
    }

    method Add(name: string) returns (i: nat)
      requires Valid()
      modifies this
      ensures i == old(|entries|)
      ensures broken <==> old(|entries| >= capacity && !Distinct(Keys(entries)))
      ensures !broken ==> Valid() && Names(entries) == old(Names(entries)) + [name]
      ensures capacity == if i < old(capacity) then old(capacity) else 2 * old(capacity)
    {
      i := |entries|;
      if i >= capacity {
        Resize(2 * capacity);
        assert |Names(entries)| == i;
        if broken { return; }
      }
      Push(name);
    }

    /** `set_entries`, called when the table is built.  Space is reserved for all entries first, so that names may
        repeat. */
    method SetEntries(names: seq<string>)
      requires !broken && 16 <= capacity
      modifies this
      ensures Valid() && Names(entries) == names && capacity >= |names|
    {
      entries := [];
      Reset(|names|);
      for i := 0 to |names|
        invariant Valid() && Names(entries) == names[..i] && capacity >= |names|
      {
        assert |entries| == |Names(entries)| == i;
        assert names[..i + 1] == names[..i] + [names[i]];
        var k := Add(names[i]);
      }
    }

    /** `get_indices` finds what a linear scan over the names finds: every entry that the name stands for, once and in
        order. */
    method GetIndices(name: string) returns (result: seq<nat>)
      requires Valid()
      ensures result == Lookup(Names(entries), name)
      ensures forall i: nat :: i in result <==> i < |entries| && Finds(name, entries[i].name)
      ensures forall j, k :: 0 <= j < k < |result| ==> result[j] < result[k]
    {
      hide Lookup, Finds;
      LookupFinds(Names(entries), name);
      result := Search(name);
    }

    method Search(name: string) returns (result: seq<nat>)
      requires Valid()
      ensures result == Lookup(Names(entries), name)
    {
      var exact, inner := Quoted(name), Unquoted(name);
      result := [];
      ghost var key := Lower(inner);
      ProbeStops(index, Keys(entries), |entries|, buffer, key, Home(hash, |index|, key));
      MissIsAbsent(index, Keys(entries), |entries|, buffer, hash, key);
      var full, h := Probe(inner);
      if full {
        return;
      }
      if index[h].Null? {
        ScanMisses(Names(entries), inner, exact, 0, |entries|);
        return;
      }
      result := Collect(index[h].at, inner, exact);
    }

    /** The walk along the chain at the end of `get_indices`. */
    method Collect(first: nat, name: string, exact: bool) returns (result: seq<nat>)
      requires Consistent(entries, index, |entries|, buffer, hash)
      requires First(Keys(entries), first) && Keys(entries)[first] == Lower(name)
      ensures result == Scan(Names(entries), name, exact, |entries|)
    {
      result := [];
      var entry := To(buffer, first);
      ScanMisses(Names(entries), name, exact, 0, first);
      while entry.To?
        invariant entry.To? ==> entry.at < |entries| && Keys(entries)[entry.at] == Lower(name)
        invariant result == Scan(Names(entries), name, exact, if entry.To? then entry.at else |entries|)
        decreases if entry.To? then |entries| - entry.at else 0
      {
        var at := entry.at;
        if !exact || name == entries[at].name {
          result := result + [entries[at].index];
        }
        entry := entries[at].next;
        ScanAlongChain(entries, buffer, name, exact, at);
      }
    }
  }

  lemma ScanAlongChain(entries: seq<Entry>, buffer: nat, name: string, exact: bool, at: nat)
    requires Chained(entries, |entries|, buffer) && at < |entries| && Keys(entries)[at] == Lower(name)
    ensures
      var next := entries[at].next;
      && (next.To? ==> at < next.at < |entries| && Keys(entries)[next.at] == Lower(name))
      && Scan(Names(entries), name, exact, if next.To? then next.at else |entries|) ==
           Scan(Names(entries), name, exact, at) + if !exact || name == entries[at].name then [at] else []
  {
    hide Scan, Lower, NextSame, Chained;
    ChainStays(entries, |entries|, buffer, at);
    var next := entries[at].next;
    ScanMisses(Names(entries), name, exact, at + 1, if next.To? then next.at else |entries|);
    ScanStep(Names(entries), name, exact, at);
  }

  lemma ScanStep(names: seq<string>, name: string, exact: bool, n: nat)
    requires n < |names| && Lower(names[n]) == Lower(name)
    ensures Scan(names, name, exact, n + 1) ==
              Scan(names, name, exact, n) + if !exact || name == names[n] then [n] else []
  {
  }

  /** Equal names past the capacity: the growth follows a dangling pointer. */
  method RepeatsThenGrow(hash: string -> nat, name: string) returns (table: CaseInsensitiveHashTable)
    ensures fresh(table) && table.broken
  {
    table := new CaseInsensitiveHashTable(hash, 16);
    for i := 0 to 16
      invariant fresh(table) && table.Valid() && table.capacity == 16
      invariant Names(table.entries) == seq(i, _ => name)
    {
      assert |Names(table.entries)| == i;
      assert seq(i + 1, _ => name) == seq(i, _ => name) + [name];
      var k := table.Add(name);
    }
    assert |Names(table.entries)| == 16;
    assert Names(table.entries)[0] == Names(table.entries)[1] == name;
    assert Keys(table.entries)[0] == Keys(table.entries)[1];
    var k := table.Add(name);
  }

  lemma PushIsReady(entries: seq<Entry>, e: Entry, index: seq<Ptr>, buffer: nat, hash: string -> nat)
    requires Consistent(entries, index, |entries|, buffer, hash) && e.next == Null && e.index == |entries|
    ensures Consistent(entries + [e], index, |entries|, buffer, hash)
    ensures PointForward(entries + [e], |entries|, buffer)
    ensures Names(entries + [e]) == Names(entries) + [e.name]
  {
    PushKeepsChained(entries, e, buffer);
    PushKeepsIndexed(index, Keys(entries), Keys(entries + [e]), buffer, hash);
    ChainedPointsForward(entries + [e], |entries|, buffer);
  }

  lemma SameNamesGiveNames(a: seq<Entry>, b: seq<Entry>)
    requires SameNames(a, b)
    ensures Names(a) == Names(b) && |a| == |b|
  {
  }

  lemma ChainedPointsForward(entries: seq<Entry>, k: nat, buffer: nat)
    requires Chained(entries, k, buffer)
    ensures PointForward(entries, k, buffer)
  {
    forall i: nat | i < k ensures entries[i].next == NextSame(Keys(entries), i, i + 1, k, buffer) {}
  }

  /** Every link leads into another allocation, and every entry that is followed by one of its name has a link. */
  ghost predicate NextsDangle(entries: seq<Entry>, buffer: nat) {
    && (forall i {:trigger entries[i].next} :: 0 <= i < |entries| && entries[i].next.To? ==>
          Dangles(entries[i].next, buffer))
    && (forall i {:trigger entries[i].next} :: 0 <= i < |entries| ==>
          (entries[i].next.To? <==> exists j :: i < j < |entries| && Keys(entries)[j] == Keys(entries)[i]))
  }

  lemma GrownNextsDangle(entries: seq<Entry>, buffer: nat)
    requires Chained(entries, |entries|, buffer)
    ensures NextsDangle(entries, buffer + 1)
  {
  }

  lemma RelabelKeepsDangling(entries: seq<Entry>, i: nat, buffer: nat)
    requires NextsDangle(entries, buffer) && i < |entries|
    ensures NextsDangle(entries[i := entries[i].(index := i)], buffer)
    ensures Keys(entries[i := entries[i].(index := i)]) == Keys(entries)
  {
    var entries' := entries[i := entries[i].(index := i)];
    assert Keys(entries') == Keys(entries);
    forall j | 0 <= j < |entries| ensures entries'[j].next == entries[j].next {}
  }

  lemma RelabelKeepsNames(entries: seq<Entry>, i: nat)
    requires i < |entries|
    ensures Names(entries[i := entries[i].(index := i)]) == Names(entries)
  {
  }

  lemma DanglingPointsForward(entries: seq<Entry>, k: nat, buffer: nat)
    requires NextsDangle(entries, buffer) && k <= |entries|
    ensures PointForward(entries, k, buffer)
  {
  }

  lemma SeenDangles(entries: seq<Entry>, i: nat, buffer: nat) returns (f: nat)
    requires NextsDangle(entries, buffer) && i < |entries| && Seen(Keys(entries), i, Keys(entries)[i])
    ensures f < i && First(Keys(entries), f) && Keys(entries)[f] == Keys(entries)[i]
    ensures Dangles(entries[f].next, buffer)
  {
    f := FirstSeen(Keys(entries), i);
    assert entries[f].next.To?;
  }

  lemma SeenRepeats(keys: seq<string>, i: nat)
    requires i < |keys| && Seen(keys, i, keys[i])
    ensures !Distinct(keys)
  {
  }

  lemma NothingDangles(entries: seq<Entry>, buffer: nat)
    requires NextsDangle(entries, buffer)
    requires forall j: nat :: j < |entries| ==> !Seen(Keys(entries), j, Keys(entries)[j])
    ensures Distinct(Keys(entries)) && Chained(entries, |entries|, buffer)
  {
    var keys := Keys(entries);
    forall i, j | 0 <= i < j < |keys| ensures keys[i] != keys[j] { assert !Seen(keys, j, keys[j]); }
    forall i: nat | i < |entries| ensures entries[i].next == NextSame(keys, i, i + 1, |entries|, buffer) {
      assert NextSame(keys, i, i + 1, |entries|, buffer).Null?;
    }
  }

  lemma FirstSeen(keys: seq<string>, k: nat) returns (f: nat)
    requires k < |keys| && Seen(keys, k, keys[k])
    ensures f < k && First(keys, f) && keys[f] == keys[k]
  {
    f := FirstWith(keys, k);
  }

  lemma PushKeepsIndexed(index: seq<Ptr>, keys: seq<string>, keys': seq<string>, buffer: nat, hash: string -> nat)
    requires Indexed(index, keys, |keys|, buffer, hash) && keys <= keys'
    ensures Indexed(index, keys', |keys|, buffer, hash)
  {
    forall i: nat | i < |keys|
      ensures First(keys, i) <==> First(keys', i)
      ensures Findable(index, keys, i, buffer, hash) <==> Findable(index, keys', i, buffer, hash)
    {
      assert keys[i] == keys'[i];
      assert Seen(keys, i, keys[i]) <==> Seen(keys', i, keys'[i]);
    }
  }

  lemma PushKeepsChained(entries: seq<Entry>, e: Entry, buffer: nat)
    requires Chained(entries, |entries|, buffer) && e.next == Null
    ensures Keys(entries) <= Keys(entries + [e])
    ensures Chained(entries + [e], |entries|, buffer)
  {
    var longer := entries + [e];
    forall i: nat | i < |entries| ensures longer[i].next == NextSame(Keys(longer), i, i + 1, |entries|, buffer) {
      NextSameOfPrefix(Keys(entries), Keys(longer), i, i + 1, buffer);
      assert entries[i].next == NextSame(Keys(entries), i, i + 1, |entries|, buffer);
    }
  }

  lemma {:induction false} NextSameOfPrefix(keys: seq<string>, keys': seq<string>, i: nat, j: nat, buffer: nat)
    requires i < |keys| && j <= |keys| && keys <= keys'
    ensures NextSame(keys, i, j, |keys|, buffer) == NextSame(keys', i, j, |keys|, buffer)
    decreases |keys| - j
  {
    if j < |keys| {
      NextSameOfPrefix(keys, keys', i, j + 1, buffer);
    }
  }

  predicate Dangles(p: Ptr, buffer: nat) { p.To? && p.buffer != buffer }

  /** Pointers into the current allocation point to a later entry below `k`. */
  ghost predicate PointForward(entries: seq<Entry>, k: nat, buffer: nat)
    requires k <= |entries|
  {
    forall i: nat {:trigger entries[i].next} :: i < k && entries[i].next.To? && !Dangles(entries[i].next, buffer) ==>
      i < entries[i].next.at < k
  }

  /** Only chain pointers may differ. */
  ghost predicate SameNames(a: seq<Entry>, b: seq<Entry>) {
    && |a| == |b| && Keys(a) == Keys(b)
    && forall i :: 0 <= i < |a| ==> a[i].name == b[i].name && a[i].index == b[i].index
  }

  lemma WrapStep(n: nat, start: nat, d: nat)
    requires start < n && d < n
    ensures Slot(n, start, d + 1) == (Slot(n, start, d) + 1) % n
    ensures Slot(n, start, d + 1) == start ==> d + 1 == n
  {
    var h := Slot(n, start, d);
    if h + 1 < n {
      assert (h + 1) % n == h + 1;
    } else {
      assert n % n == 0;
    }
  }
}
