/**
 Vyukov's bounded multi-producer multi-consumer queue (mpmc_queue.hpp), as a protocol: any number of threads,
 each load, store and compare-and-swap one step, steps interleaving freely under sequential consistency.
 Tickets do not wrap.

 `enq` and `out` are the history: the value of every claimed enqueue ticket, and the value returned for every
 dequeue ticket whose call has returned.
 */
module MpmcQueue {

  type ThreadId = nat
  type Value = int

  /** Where a thread is in `enqueue` or `dequeue`; `pos` is the source's local variable of that name. */
  datatype Pc =
    | EnqLoaded(value: Value, pos: nat)     // pos has been loaded from tail_
    | EnqMatched(value: Value, pos: nat)    // the slot's sequence number was pos when it was loaded
    | EnqStale(value: Value)                // about to load tail_ (again)
    | EnqClaimed(value: Value, pos: nat)    // the CAS on tail_ succeeded
    | EnqWritten(value: Value, pos: nat)    // the data is stored
    | DeqLoaded(pos: nat)
    | DeqMatched(pos: nat)
    | DeqStale
    | DeqClaimed(pos: nat)
    | DeqRead(pos: nat, got: Value)
  {
    /** The ticket a thread has claimed and not given back yet, or -1. */
    function EnqTicket(): int { if EnqClaimed? || EnqWritten? then pos else -1 }
    function DeqTicket(): int { if DeqClaimed? || DeqRead? then pos else -1 }
  }

  datatype Queue = Queue(seqs: seq<nat>, data: seq<Value>, tail: nat, head: nat, threads: map<ThreadId, Pc>,
                         enq: seq<Value>, out: map<nat, Value>)

  datatype Event =
    | CallEnqueue(t: ThreadId, value: Value)
    | CallDequeue(t: ThreadId)
    | Advance(t: ThreadId, spurious: bool)   // the thread's next step; a weak CAS may fail spuriously

  /** `next_pow_2` gives a size of at least two. */
  predicate IsSize(n: nat) { n >= 2 }

  function Slot(p: nat, n: nat): (s: nat)
    requires n > 0
    ensures s < n
  {
    p % n
  }

  function Init(n: nat): Queue
    requires IsSize(n)
  {
    Queue(seq(n, i requires 0 <= i => i), seq(n, _ => 0), 0, 0, map[], [], map[])
  }

  predicate WellFormed(q: Queue, n: nat) {
    IsSize(n) && |q.seqs| == n && |q.data| == n
  }

  predicate Enabled(q: Queue, e: Event) {
    match e
    case CallEnqueue(t, _) => t !in q.threads
    case CallDequeue(t) => t !in q.threads
    case Advance(t, _) => t in q.threads
  }

  function Goto(q: Queue, t: ThreadId, pc: Pc): Queue { q.(threads := q.threads[t := pc]) }
  function Return(q: Queue, t: ThreadId): Queue { q.(threads := q.threads - {t}) }

  function Step(q: Queue, n: nat, e: Event): Queue
    requires WellFormed(q, n) && Enabled(q, e)
  {
    match e
    case CallEnqueue(t, v) => Goto(q, t, EnqStale(v))
    case CallDequeue(t) => Goto(q, t, DeqStale)
    case Advance(t, spurious) =>
      match q.threads[t]
      case EnqStale(v) => Goto(q, t, EnqLoaded(v, q.tail))
      case EnqLoaded(v, pos) =>
        var dif := q.seqs[Slot(pos, n)] - pos;
        if dif == 0 then Goto(q, t, EnqMatched(v, pos))
        else if dif < 0 then Return(q, t)                    // the queue is full
        else Goto(q, t, EnqStale(v))
      case EnqMatched(v, pos) =>
        if q.tail == pos && !spurious then Goto(q.(tail := pos + 1, enq := q.enq + [v]), t, EnqClaimed(v, pos))
        else Goto(q, t, EnqLoaded(v, q.tail))
      case EnqClaimed(v, pos) => Goto(q.(data := q.data[Slot(pos, n) := v]), t, EnqWritten(v, pos))
      case EnqWritten(v, pos) => Return(q.(seqs := q.seqs[Slot(pos, n) := pos + 1]), t)
      case DeqStale => Goto(q, t, DeqLoaded(q.head))
      case DeqLoaded(pos) =>
        var dif := q.seqs[Slot(pos, n)] - (pos + 1);
        if dif == 0 then Goto(q, t, DeqMatched(pos))
        else if dif < 0 then Return(q, t)                    // the queue is empty
        else Goto(q, t, DeqStale)
      case DeqMatched(pos) =>
        if q.head == pos && !spurious then Goto(q.(head := pos + 1), t, DeqClaimed(pos))
        else Goto(q, t, DeqLoaded(q.head))
      case DeqClaimed(pos) => Goto(q, t, DeqRead(pos, q.data[Slot(pos, n)]))
      case DeqRead(pos, v) => Return(q.(seqs := q.seqs[Slot(pos, n) := pos + n], out := q.out[pos := v]), t)
  }

  ghost predicate ValidRun(q: Queue, n: nat, es: seq<Event>)
    requires WellFormed(q, n)
    decreases |es|
  {
    es == [] || (Enabled(q, es[0]) && ValidRun(Step(q, n, es[0]), n, es[1..]))
  }

  ghost function Run(q: Queue, n: nat, es: seq<Event>): (r: Queue)
    requires WellFormed(q, n) && ValidRun(q, n, es)
    ensures WellFormed(r, n)
    decreases |es|
  {
    if es == [] then q else Run(Step(q, n, es[0]), n, es[1..])
  }

  // ---------- The invariant ----------

  ghost predicate EnqHeld(q: Queue, p: nat) { exists t :: t in q.threads && q.threads[t].EnqTicket() == p }
  ghost predicate DeqHeld(q: Queue, p: nat) { exists t :: t in q.threads && q.threads[t].DeqTicket() == p }

  /** Slot `s` waits for the enqueue with ticket `p`. */
  ghost predicate Free(q: Queue, n: nat, s: nat, p: nat)
    requires WellFormed(q, n) && s < n
  {
    p == q.seqs[s] && Slot(p, n) == s && q.head <= p < q.head + n && (p < q.tail ==> EnqHeld(q, p))
  }

  /** Slot `s` holds the value of ticket `p`. */
  ghost predicate Full(q: Queue, n: nat, s: nat, p: nat)
    requires WellFormed(q, n) && s < n
  {
    && p + 1 == q.seqs[s] && Slot(p, n) == s && p < q.tail <= p + n && p < |q.enq| && q.data[s] == q.enq[p]
    && (p < q.head ==> DeqHeld(q, p))
  }

  ghost predicate SlotInv(q: Queue, n: nat, s: nat)
    requires WellFormed(q, n) && s < n
  {
    Free(q, n, s, q.seqs[s]) || (q.seqs[s] > 0 && Full(q, n, s, q.seqs[s] - 1))
  }

  ghost predicate ThreadInv(q: Queue, n: nat, pc: Pc)
    requires WellFormed(q, n)
  {
    match pc
    case EnqStale(_) => true
    case EnqLoaded(_, pos) => pos <= q.tail
    case EnqMatched(_, pos) => pos <= q.tail && (pos == q.tail ==> q.seqs[Slot(pos, n)] == pos)
    case EnqClaimed(v, pos) => pos < q.tail && q.seqs[Slot(pos, n)] == pos && pos < |q.enq| && q.enq[pos] == v
    case EnqWritten(v, pos) =>
      pos < q.tail && q.seqs[Slot(pos, n)] == pos && pos < |q.enq| && q.enq[pos] == v && q.data[Slot(pos, n)] == v
    case DeqStale => true
    case DeqLoaded(pos) => pos <= q.head
    case DeqMatched(pos) => pos <= q.head && (pos == q.head ==> q.seqs[Slot(pos, n)] == pos + 1)
    case DeqClaimed(pos) => pos < q.head && q.seqs[Slot(pos, n)] == pos + 1
    case DeqRead(pos, v) => pos < q.head && q.seqs[Slot(pos, n)] == pos + 1 && pos < |q.enq| && v == q.enq[pos]
  }

  ghost predicate SlotsInv(q: Queue, n: nat)
    requires WellFormed(q, n)
  {
    forall s :: 0 <= s < n ==> SlotInv(q, n, s)
  }

  ghost predicate ThreadsInv(q: Queue, n: nat)
    requires WellFormed(q, n)
  {
    forall t :: t in q.threads ==> ThreadInv(q, n, q.threads[t])
  }

  ghost predicate OwnersInv(threads: map<ThreadId, Pc>) {
    forall t, u :: t in threads && u in threads && t != u ==> NoSharedTicket(threads[t], threads[u])
  }

  ghost predicate NoSharedTicket(a: Pc, b: Pc) {
    (a.EnqTicket() == b.EnqTicket() ==> a.EnqTicket() == -1) && (a.DeqTicket() == b.DeqTicket() ==> a.DeqTicket() == -1)
  }

  /** Every claimed dequeue ticket has been answered with the value of its ticket, or is still being answered. */
  ghost predicate OutInv(q: Queue) {
    && (forall p :: p in q.out ==> p < q.head && p < |q.enq| && q.out[p] == q.enq[p])
    && (forall p :: 0 <= p < q.head ==> (p in q.out <==> !DeqHeld(q, p)))
  }

  ghost predicate Inv(q: Queue, n: nat) {
    && WellFormed(q, n)
    && q.head <= q.tail <= q.head + n && |q.enq| == q.tail
    && SlotsInv(q, n)
    && ThreadsInv(q, n)
    && OwnersInv(q.threads)
    && OutInv(q)
  }

  // ---------- Slots ----------

  lemma MultipleAtLeast(d: int, n: int)
    requires n > 0
    ensures d >= 1 ==> d * n >= n
    ensures d <= -1 ==> d * n <= 0 - n
  {
    if d >= 1 {
      assert (d - 1) * n >= 0;
    } else if d <= -1 {
      assert (-1 - d) * n >= 0;
    }
  }

  /** Tickets of the same slot that are less than a round apart are the same. */
  lemma SameSlot(p: nat, r: nat, n: nat)
    requires n > 0 && Slot(p, n) == Slot(r, n) && p < r + n && r < p + n
    ensures p == r
  {
    assert p == p / n * n + p % n && r == r / n * n + r % n;
    assert p - r == (p / n - r / n) * n;
    MultipleAtLeast(p / n - r / n, n);
  }

  lemma NextRound(p: nat, n: nat)
    requires n > 0
    ensures Slot(p + n, n) == Slot(p, n)
  {
    var d := (p + n) / n - p / n - 1;
    assert p == p / n * n + p % n && p + n == (p + n) / n * n + (p + n) % n;
    assert d * n == p % n - (p + n) % n;
    MultipleAtLeast(d, n);
  }

  lemma AdjacentSlots(p: nat, n: nat)
    requires IsSize(n)
    ensures Slot(p, n) != Slot(p + 1, n)
  {
    if Slot(p, n) == Slot(p + 1, n) {
      SameSlot(p, p + 1, n);
    }
  }

  // ---------- Every step keeps the invariant ----------

  /** Between `q` and `q'` only thread `t` moves. */
  ghost predicate OnlyMoves(q: Queue, q': Queue, t: ThreadId) {
    && (forall u :: u != t ==> (u in q.threads <==> u in q'.threads))
    && (forall u :: u in q.threads && u != t ==> q'.threads[u] == q.threads[u])
  }

  ghost function EnqTicketOf(q: Queue, t: ThreadId): int { if t in q.threads then q.threads[t].EnqTicket() else -1 }
  ghost function DeqTicketOf(q: Queue, t: ThreadId): int { if t in q.threads then q.threads[t].DeqTicket() else -1 }

  ghost predicate OwnsNothing(q: Queue, t: ThreadId) { EnqTicketOf(q, t) == -1 && DeqTicketOf(q, t) == -1 }

  /** Tickets that thread `t` does not own before or after its move are held by the same threads. */
  lemma HeldByOthers(q: Queue, q': Queue, t: ThreadId, p: nat)
    requires OnlyMoves(q, q', t)
    ensures EnqTicketOf(q, t) != p && EnqTicketOf(q', t) != p ==> EnqHeld(q', p) == EnqHeld(q, p)
    ensures DeqTicketOf(q, t) != p && DeqTicketOf(q', t) != p ==> DeqHeld(q', p) == DeqHeld(q, p)
  {
  }

  /** A thread that keeps its ticket changes nothing about who holds what. */
  lemma SameHeld(q: Queue, q': Queue, t: ThreadId, p: nat)
    requires OnlyMoves(q, q', t)
    requires EnqTicketOf(q, t) == EnqTicketOf(q', t) && DeqTicketOf(q, t) == DeqTicketOf(q', t)
    ensures EnqHeld(q', p) == EnqHeld(q, p) && DeqHeld(q', p) == DeqHeld(q, p)
  {
  }

  lemma OwnersAfterMove(q: Queue, q': Queue, t: ThreadId)
    requires OnlyMoves(q, q', t) && OwnersInv(q.threads)
    requires t in q'.threads ==> forall u :: u in q.threads && u != t ==> NoSharedTicket(q'.threads[t], q.threads[u])
    ensures OwnersInv(q'.threads)
  {
  }

  lemma SlotsAfterMove(q: Queue, q': Queue, n: nat)
    requires WellFormed(q, n) && SlotsInv(q, n) && q' == q.(threads := q'.threads)
    requires forall p :: EnqHeld(q', p) == EnqHeld(q, p) && DeqHeld(q', p) == DeqHeld(q, p)
    ensures SlotsInv(q', n)
  {
    forall s | 0 <= s < n ensures SlotInv(q', n, s) { assert SlotInv(q, n, s); }
  }

  /** A step that only moves one thread from a place where it owns nothing to another such place. */
  lemma MoveKeepsInv(q: Queue, n: nat, t: ThreadId, q': Queue)
    requires Inv(q, n)
    requires q' == q.(threads := q'.threads) && OnlyMoves(q, q', t) && OwnsNothing(q, t) && OwnsNothing(q', t)
    requires t in q'.threads ==> ThreadInv(q, n, q'.threads[t])
    ensures Inv(q', n)
  {
    forall p: nat ensures EnqHeld(q', p) == EnqHeld(q, p) && DeqHeld(q', p) == DeqHeld(q, p) {
      HeldByOthers(q, q', t, p);
    }
    SlotsAfterMove(q, q', n);
    OwnersAfterMove(q, q', t);
    forall u | u in q'.threads ensures ThreadInv(q', n, q'.threads[u]) {
      if u != t { assert ThreadInv(q, n, q.threads[u]); }
    }
  }

  // The CAS on `tail_` succeeds.

  lemma ClaimEnqSlot(q: Queue, q': Queue, n: nat, t: ThreadId, pos: nat, v: Value, s: nat)
    requires WellFormed(q, n) && s < n && SlotInv(q, n, s)
    requires q.tail == pos == |q.enq| && q.seqs[Slot(pos, n)] == pos && q.head <= pos
    requires t in q.threads && OwnsNothing(q, t)
    requires q' == Goto(q.(tail := pos + 1, enq := q.enq + [v]), t, EnqClaimed(v, pos))
    ensures SlotInv(q', n, s)
  {
    var p := q.seqs[s];
    if Free(q, n, s, p) {
      if p == pos {
        assert q'.threads[t].EnqTicket() == pos;
      } else {
        HeldByOthers(q, q', t, p);
      }
      assert Free(q', n, s, p);
    } else {
      HeldByOthers(q, q', t, p - 1);
      NextRound(p - 1, n);
      assert Full(q', n, s, p - 1);
    }
  }

  lemma ClaimEnqThread(q: Queue, q': Queue, n: nat, t: ThreadId, pos: nat, v: Value, u: ThreadId)
    requires WellFormed(q, n) && t in q.threads && q.threads[t] == EnqMatched(v, pos) && q.tail == pos == |q.enq|
    requires q' == Goto(q.(tail := pos + 1, enq := q.enq + [v]), t, EnqClaimed(v, pos))
    requires u in q.threads && u != t && ThreadInv(q, n, q.threads[u])
    ensures ThreadInv(q', n, q.threads[u]) && NoSharedTicket(q'.threads[t], q.threads[u])
  {
  }

  lemma ClaimEnqFree(q: Queue, n: nat, t: ThreadId, pos: nat, v: Value)
    requires Inv(q, n) && t in q.threads && q.threads[t] == EnqMatched(v, pos) && q.tail == pos
    ensures q.seqs[Slot(pos, n)] == pos && OwnsNothing(q, t)
    ensures ThreadInv(Goto(q.(tail := pos + 1, enq := q.enq + [v]), t, EnqClaimed(v, pos)), n, EnqClaimed(v, pos))
    ensures pos < q.head + n
  {
    assert ThreadInv(q, n, q.threads[t]) && SlotInv(q, n, Slot(pos, n));
    if pos > 0 { AdjacentSlots(pos - 1, n); }
    assert Free(q, n, Slot(pos, n), pos);
  }

  lemma ClaimEnqKeepsInv(q: Queue, n: nat, t: ThreadId, pos: nat, v: Value)
    requires Inv(q, n) && t in q.threads && q.threads[t] == EnqMatched(v, pos) && q.tail == pos
    ensures Inv(Goto(q.(tail := pos + 1, enq := q.enq + [v]), t, EnqClaimed(v, pos)), n)
  {
    hide SlotInv, ThreadInv, NoSharedTicket;
    var q' := Goto(q.(tail := pos + 1, enq := q.enq + [v]), t, EnqClaimed(v, pos));
    ClaimEnqFree(q, n, t, pos, v);
    forall s | 0 <= s < n ensures SlotInv(q', n, s) { ClaimEnqSlot(q, q', n, t, pos, v, s); }
    forall u | u in q.threads && u != t
      ensures NoSharedTicket(q'.threads[t], q.threads[u]) && ThreadInv(q', n, q.threads[u])
    {
      ClaimEnqThread(q, q', n, t, pos, v, u);
    }
    OwnersAfterMove(q, q', t);
    forall p: nat ensures DeqHeld(q', p) == DeqHeld(q, p) { HeldByOthers(q, q', t, p); }
  }

  // The enqueuer stores its data.

  lemma WriteSlot(q: Queue, q': Queue, n: nat, pos: nat, v: Value, s: nat)
    requires WellFormed(q, n) && s < n && SlotInv(q, n, s)
    requires q.seqs[Slot(pos, n)] == pos
    requires q' == q.(data := q.data[Slot(pos, n) := v], threads := q'.threads)
    requires forall p :: EnqHeld(q', p) == EnqHeld(q, p) && DeqHeld(q', p) == DeqHeld(q, p)
    ensures SlotInv(q', n, s)
  {
    var p := q.seqs[s];
    if Free(q, n, s, p) {
      assert Free(q', n, s, p);
    } else {
      AdjacentSlots(p - 1, n);
      assert Full(q', n, s, p - 1);
    }
  }

  lemma WriteThread(q: Queue, q': Queue, n: nat, t: ThreadId, pos: nat, v: Value, u: ThreadId)
    requires WellFormed(q, n) && t in q.threads && q.threads[t] == EnqClaimed(v, pos) && ThreadInv(q, n, q.threads[t])
    requires q' == Goto(q.(data := q.data[Slot(pos, n) := v]), t, EnqWritten(v, pos))
    requires u in q.threads && u != t && ThreadInv(q, n, q.threads[u]) && NoSharedTicket(q.threads[t], q.threads[u])
    ensures ThreadInv(q', n, q.threads[u]) && NoSharedTicket(q'.threads[t], q.threads[u])
  {
  }

  lemma WriteTicket(q: Queue, q': Queue, n: nat, t: ThreadId, pos: nat, v: Value)
    requires WellFormed(q, n) && t in q.threads && q.threads[t] == EnqClaimed(v, pos) && ThreadInv(q, n, q.threads[t])
    requires q' == Goto(q.(data := q.data[Slot(pos, n) := v]), t, EnqWritten(v, pos))
    ensures q.seqs[Slot(pos, n)] == pos && ThreadInv(q', n, q'.threads[t])
  {
  }

  lemma WriteKeepsInv(q: Queue, n: nat, t: ThreadId, pos: nat, v: Value)
    requires Inv(q, n) && t in q.threads && q.threads[t] == EnqClaimed(v, pos)
    ensures Inv(Goto(q.(data := q.data[Slot(pos, n) := v]), t, EnqWritten(v, pos)), n)
  {
    hide SlotInv, ThreadInv, NoSharedTicket, EnqHeld, DeqHeld;
    var q' := Goto(q.(data := q.data[Slot(pos, n) := v]), t, EnqWritten(v, pos));
    WriteTicket(q, q', n, t, pos, v);
    forall p: nat ensures EnqHeld(q', p) == EnqHeld(q, p) && DeqHeld(q', p) == DeqHeld(q, p) {
      SameHeld(q, q', t, p);
    }
    forall s | 0 <= s < n ensures SlotInv(q', n, s) { WriteSlot(q, q', n, pos, v, s); }
    forall u | u in q.threads && u != t
      ensures NoSharedTicket(q'.threads[t], q.threads[u]) && ThreadInv(q', n, q.threads[u])
    {
      WriteThread(q, q', n, t, pos, v, u);
    }
    OwnersAfterMove(q, q', t);
  }

  // The enqueuer stores the sequence number.

  /** A slot that is not the one thread `t` owns keeps its invariant when `t` leaves. */
  lemma OtherSlot(q: Queue, q': Queue, n: nat, t: ThreadId, pos: nat, s: nat)
    requires WellFormed(q, n) && WellFormed(q', n) && s < n && SlotInv(q, n, s) && s != Slot(pos, n)
    requires q'.seqs[s] == q.seqs[s] && q' == q.(seqs := q'.seqs, threads := q'.threads, out := q'.out)
    requires OnlyMoves(q, q', t) && OwnsNothing(q', t)
    requires EnqTicketOf(q, t) == -1 || EnqTicketOf(q, t) == pos
    requires DeqTicketOf(q, t) == -1 || DeqTicketOf(q, t) == pos
    ensures SlotInv(q', n, s)
  {
    var p := q.seqs[s];
    if Free(q, n, s, p) {
      HeldByOthers(q, q', t, p);
      assert Free(q', n, s, p);
    } else {
      HeldByOthers(q, q', t, p - 1);
      assert Full(q', n, s, p - 1);
    }
  }

  lemma PublishSlot(q: Queue, q': Queue, n: nat, t: ThreadId, pos: nat, v: Value)
    requires Inv(q, n) && t in q.threads && q.threads[t] == EnqWritten(v, pos)
    requires q' == Return(q.(seqs := q.seqs[Slot(pos, n) := pos + 1]), t)
    ensures SlotInv(q', n, Slot(pos, n))
  {
    var s := Slot(pos, n);
    assert ThreadInv(q, n, q.threads[t]) && SlotInv(q, n, s);
    if pos > 0 { AdjacentSlots(pos - 1, n); }
    assert Free(q, n, s, pos);
    assert Full(q', n, s, pos);
  }

  lemma PublishThread(q: Queue, q': Queue, n: nat, t: ThreadId, pos: nat, v: Value, u: ThreadId)
    requires WellFormed(q, n) && t in q.threads && q.threads[t] == EnqWritten(v, pos) && ThreadInv(q, n, q.threads[t])
    requires q' == Return(q.(seqs := q.seqs[Slot(pos, n) := pos + 1]), t)
    requires u in q.threads && u != t && ThreadInv(q, n, q.threads[u]) && NoSharedTicket(q.threads[t], q.threads[u])
    ensures ThreadInv(q', n, q.threads[u])
  {
    if pos > 0 { AdjacentSlots(pos - 1, n); }
  }

  lemma PublishKeepsInv(q: Queue, n: nat, t: ThreadId, pos: nat, v: Value)
    requires Inv(q, n) && t in q.threads && q.threads[t] == EnqWritten(v, pos)
    ensures Inv(Return(q.(seqs := q.seqs[Slot(pos, n) := pos + 1]), t), n)
  {
    hide SlotInv, ThreadInv, NoSharedTicket;
    var q' := Return(q.(seqs := q.seqs[Slot(pos, n) := pos + 1]), t);
    PublishSlot(q, q', n, t, pos, v);
    forall s | 0 <= s < n && s != Slot(pos, n) ensures SlotInv(q', n, s) { OtherSlot(q, q', n, t, pos, s); }
    forall u | u in q'.threads ensures ThreadInv(q', n, q'.threads[u]) { PublishThread(q, q', n, t, pos, v, u); }
    OwnersAfterMove(q, q', t);
    forall p: nat ensures DeqHeld(q', p) == DeqHeld(q, p) { HeldByOthers(q, q', t, p); }
  }

  // The CAS on `head_` succeeds.

  lemma ClaimDeqSlot(q: Queue, q': Queue, n: nat, t: ThreadId, pos: nat, s: nat)
    requires WellFormed(q, n) && s < n && SlotInv(q, n, s)
    requires q.head == pos && q.seqs[Slot(pos, n)] == pos + 1
    requires t in q.threads && OwnsNothing(q, t)
    requires q' == Goto(q.(head := pos + 1), t, DeqClaimed(pos))
    ensures SlotInv(q', n, s)
  {
    var p := q.seqs[s];
    if Free(q, n, s, p) {
      HeldByOthers(q, q', t, p);
      assert Free(q', n, s, p);
    } else {
      if p - 1 == pos {
        assert q'.threads[t].DeqTicket() == pos;
      } else {
        HeldByOthers(q, q', t, p - 1);
      }
      assert Full(q', n, s, p - 1);
    }
  }

  lemma ClaimDeqThread(q: Queue, q': Queue, n: nat, t: ThreadId, pos: nat, u: ThreadId)
    requires WellFormed(q, n) && t in q.threads && q.threads[t] == DeqMatched(pos) && q.head == pos
    requires q' == Goto(q.(head := pos + 1), t, DeqClaimed(pos))
    requires u in q.threads && u != t && ThreadInv(q, n, q.threads[u])
    ensures ThreadInv(q', n, q.threads[u]) && NoSharedTicket(q'.threads[t], q.threads[u])
  {
  }

  lemma ClaimDeqFull(q: Queue, n: nat, t: ThreadId, pos: nat)
    requires Inv(q, n) && t in q.threads && q.threads[t] == DeqMatched(pos) && q.head == pos
    ensures q.seqs[Slot(pos, n)] == pos + 1 && OwnsNothing(q, t) && pos < q.tail
    ensures ThreadInv(Goto(q.(head := pos + 1), t, DeqClaimed(pos)), n, DeqClaimed(pos))
  {
    assert ThreadInv(q, n, q.threads[t]) && SlotInv(q, n, Slot(pos, n));
    AdjacentSlots(pos, n);
    assert Full(q, n, Slot(pos, n), pos);
  }

  lemma ClaimDeqOut(q: Queue, q': Queue, t: ThreadId, pos: nat)
    requires OutInv(q) && t in q.threads && OwnsNothing(q, t) && q.head == pos
    requires q' == Goto(q.(head := pos + 1), t, DeqClaimed(pos))
    ensures OutInv(q')
  {
    assert q'.threads[t].DeqTicket() == pos;
    forall p: nat | p != pos ensures DeqHeld(q', p) == DeqHeld(q, p) { HeldByOthers(q, q', t, p); }
  }

  lemma ClaimDeqKeepsInv(q: Queue, n: nat, t: ThreadId, pos: nat)
    requires Inv(q, n) && t in q.threads && q.threads[t] == DeqMatched(pos) && q.head == pos
    ensures Inv(Goto(q.(head := pos + 1), t, DeqClaimed(pos)), n)
  {
    hide SlotInv, ThreadInv, NoSharedTicket, OutInv;
    var q' := Goto(q.(head := pos + 1), t, DeqClaimed(pos));
    ClaimDeqFull(q, n, t, pos);
    forall s | 0 <= s < n ensures SlotInv(q', n, s) { ClaimDeqSlot(q, q', n, t, pos, s); }
    forall u | u in q.threads && u != t
      ensures NoSharedTicket(q'.threads[t], q.threads[u]) && ThreadInv(q', n, q.threads[u])
    {
      ClaimDeqThread(q, q', n, t, pos, u);
    }
    OwnersAfterMove(q, q', t);
    ClaimDeqOut(q, q', t, pos);
  }

  // The dequeuer loads the data.

  lemma ReadThread(q: Queue, q': Queue, n: nat, t: ThreadId, pos: nat, u: ThreadId)
    requires WellFormed(q, n) && t in q.threads && q.threads[t] == DeqClaimed(pos)
    requires q' == Goto(q, t, DeqRead(pos, q.data[Slot(pos, n)]))
    requires u in q.threads && u != t && ThreadInv(q, n, q.threads[u]) && NoSharedTicket(q.threads[t], q.threads[u])
    ensures ThreadInv(q', n, q.threads[u]) && NoSharedTicket(q'.threads[t], q.threads[u])
  {
  }

  lemma ReadTicket(q: Queue, n: nat, t: ThreadId, pos: nat)
    requires Inv(q, n) && t in q.threads && q.threads[t] == DeqClaimed(pos)
    ensures
      var pc := DeqRead(pos, q.data[Slot(pos, n)]);
      ThreadInv(Goto(q, t, pc), n, pc)
  {
    assert ThreadInv(q, n, q.threads[t]) && SlotInv(q, n, Slot(pos, n));
    AdjacentSlots(pos, n);
  }

  lemma ReadKeepsInv(q: Queue, n: nat, t: ThreadId, pos: nat)
    requires Inv(q, n) && t in q.threads && q.threads[t] == DeqClaimed(pos)
    ensures Inv(Goto(q, t, DeqRead(pos, q.data[Slot(pos, n)])), n)
  {
    hide SlotInv, ThreadInv, NoSharedTicket, EnqHeld, DeqHeld;
    var q' := Goto(q, t, DeqRead(pos, q.data[Slot(pos, n)]));
    ReadTicket(q, n, t, pos);
    forall p: nat ensures EnqHeld(q', p) == EnqHeld(q, p) && DeqHeld(q', p) == DeqHeld(q, p) {
      SameHeld(q, q', t, p);
    }
    SlotsAfterMove(q, q', n);
    forall u | u in q.threads && u != t
      ensures NoSharedTicket(q'.threads[t], q.threads[u]) && ThreadInv(q', n, q.threads[u])
    {
      ReadThread(q, q', n, t, pos, u);
    }
    OwnersAfterMove(q, q', t);
  }

  // The dequeuer gives the slot back and returns.

  lemma ReleaseSlot(q: Queue, q': Queue, n: nat, t: ThreadId, pos: nat, v: Value)
    requires Inv(q, n) && t in q.threads && q.threads[t] == DeqRead(pos, v)
    requires q' == Return(q.(seqs := q.seqs[Slot(pos, n) := pos + n], out := q.out[pos := v]), t)
    ensures SlotInv(q', n, Slot(pos, n))
  {
    var s := Slot(pos, n);
    assert ThreadInv(q, n, q.threads[t]) && SlotInv(q, n, s);
    AdjacentSlots(pos, n);
    NextRound(pos, n);
    assert Full(q, n, s, pos);
    assert Free(q', n, s, pos + n);
  }

  lemma ReleaseThread(q: Queue, q': Queue, n: nat, t: ThreadId, pos: nat, v: Value, u: ThreadId)
    requires WellFormed(q, n) && t in q.threads && q.threads[t] == DeqRead(pos, v) && ThreadInv(q, n, q.threads[t])
    requires q' == Return(q.(seqs := q.seqs[Slot(pos, n) := pos + n], out := q.out[pos := v]), t)
    requires u in q.threads && u != t && ThreadInv(q, n, q.threads[u]) && NoSharedTicket(q.threads[t], q.threads[u])
    ensures ThreadInv(q', n, q.threads[u])
  {
    AdjacentSlots(pos, n);
  }

  lemma ReleaseOut(q: Queue, q': Queue, n: nat, t: ThreadId, pos: nat, v: Value)
    requires WellFormed(q, n) && OutInv(q) && OwnersInv(q.threads)
    requires t in q.threads && q.threads[t] == DeqRead(pos, v) && ThreadInv(q, n, q.threads[t])
    requires q' == Return(q.(seqs := q.seqs[Slot(pos, n) := pos + n], out := q.out[pos := v]), t)
    ensures OutInv(q')
  {
    forall p: nat | p != pos ensures DeqHeld(q', p) == DeqHeld(q, p) { HeldByOthers(q, q', t, p); }
    forall u | u in q'.threads ensures q'.threads[u].DeqTicket() != pos {
      assert NoSharedTicket(q.threads[t], q.threads[u]);
    }
  }

  lemma ReleaseKeepsInv(q: Queue, n: nat, t: ThreadId, pos: nat, v: Value)
    requires Inv(q, n) && t in q.threads && q.threads[t] == DeqRead(pos, v)
    ensures Inv(Return(q.(seqs := q.seqs[Slot(pos, n) := pos + n], out := q.out[pos := v]), t), n)
  {
    var q' := Return(q.(seqs := q.seqs[Slot(pos, n) := pos + n], out := q.out[pos := v]), t);
    ReleaseSlot(q, q', n, t, pos, v);
    forall s | 0 <= s < n && s != Slot(pos, n) ensures SlotInv(q', n, s) { OtherSlot(q, q', n, t, pos, s); }
    forall u | u in q'.threads ensures ThreadInv(q', n, q'.threads[u]) { ReleaseThread(q, q', n, t, pos, v, u); }
    OwnersAfterMove(q, q', t);
    ReleaseOut(q, q', n, t, pos, v);
  }

  /** The steps of a thread that owns a ticket. */
  lemma OwnerStep(q: Queue, n: nat, t: ThreadId)
    requires WellFormed(q, n) && t in q.threads && !OwnsNothing(q, t)
    ensures
      var q' := Step(q, n, Advance(t, false));
      match q.threads[t]
      case EnqClaimed(v, pos) => q' == Goto(q.(data := q.data[Slot(pos, n) := v]), t, EnqWritten(v, pos))
      case EnqWritten(v, pos) => q' == Return(q.(seqs := q.seqs[Slot(pos, n) := pos + 1]), t)
      case DeqClaimed(pos) => q' == Goto(q, t, DeqRead(pos, q.data[Slot(pos, n)]))
      case DeqRead(pos, v) => q' == Return(q.(seqs := q.seqs[Slot(pos, n) := pos + n], out := q.out[pos := v]), t)
      case _ => false
  {
  }

  lemma OwnerStepKeepsInv(q: Queue, n: nat, t: ThreadId)
    requires Inv(q, n) && t in q.threads && !OwnsNothing(q, t)
    ensures Inv(Step(q, n, Advance(t, false)), n)
  {
    assert WellFormed(q, n);
    hide Inv, Step, Slot, Goto, Return, OwnsNothing;
    OwnerStep(q, n, t);
    match q.threads[t]
    case EnqClaimed(v, pos) => WriteKeepsInv(q, n, t, pos, v);
    case EnqWritten(v, pos) => PublishKeepsInv(q, n, t, pos, v);
    case DeqClaimed(pos) => ReadKeepsInv(q, n, t, pos);
    case DeqRead(pos, v) => ReleaseKeepsInv(q, n, t, pos, v);
    case _ =>
  }

  /** The outcome of a thread's next step when it claims nothing. */
  predicate Quiet(q: Queue, t: ThreadId, spurious: bool) {
    t in q.threads &&
    match q.threads[t]
    case EnqMatched(_, pos) => q.tail != pos || spurious
    case DeqMatched(pos) => q.head != pos || spurious
    case EnqClaimed(_, _) => false
    case EnqWritten(_, _) => false
    case DeqClaimed(_) => false
    case DeqRead(_, _) => false
    case _ => true
  }

  lemma QuietStep(q: Queue, n: nat, t: ThreadId, spurious: bool)
    requires WellFormed(q, n) && Quiet(q, t, spurious) && ThreadInv(q, n, q.threads[t])
    ensures
      var q' := Step(q, n, Advance(t, spurious));
      && q' == q.(threads := q'.threads) && OnlyMoves(q, q', t) && OwnsNothing(q, t) && OwnsNothing(q', t)
      && (t in q'.threads ==> ThreadInv(q, n, q'.threads[t]))
  {
  }

  lemma QuietStepKeepsInv(q: Queue, n: nat, t: ThreadId, spurious: bool)
    requires Inv(q, n) && Quiet(q, t, spurious)
    ensures Inv(Step(q, n, Advance(t, spurious)), n)
  {
    hide SlotsInv, ThreadInv, OwnersInv, OutInv, Step;
    assert ThreadInv(q, n, q.threads[t]);
    QuietStep(q, n, t, spurious);
    MoveKeepsInv(q, n, t, Step(q, n, Advance(t, spurious)));
  }

  lemma ClaimStepKeepsInv(q: Queue, n: nat, t: ThreadId)
    requires Inv(q, n) && t in q.threads && OwnsNothing(q, t) && !Quiet(q, t, false)
    ensures Inv(Step(q, n, Advance(t, false)), n)
  {
    assert WellFormed(q, n);
    hide Inv, Slot, Goto, Return;
    match q.threads[t]
    case EnqMatched(v, pos) => ClaimEnqKeepsInv(q, n, t, pos, v);
    case DeqMatched(pos) => ClaimDeqKeepsInv(q, n, t, pos);
    case _ =>
  }

  lemma CallKeepsInv(q: Queue, n: nat, t: ThreadId, pc: Pc)
    requires Inv(q, n) && t !in q.threads && (pc.EnqStale? || pc.DeqStale?)
    ensures Inv(Goto(q, t, pc), n)
  {
    MoveKeepsInv(q, n, t, Goto(q, t, pc));
  }

  lemma CallStep(q: Queue, n: nat, e: Event)
    requires WellFormed(q, n) && Enabled(q, e) && !e.Advance?
    ensures e.CallEnqueue? ==> Step(q, n, e) == Goto(q, e.t, EnqStale(e.value))
    ensures e.CallDequeue? ==> Step(q, n, e) == Goto(q, e.t, DeqStale)
  {
  }

  lemma StepKeepsInv(q: Queue, n: nat, e: Event)
    requires Inv(q, n) && Enabled(q, e)
    ensures Inv(Step(q, n, e), n)
  {
    assert WellFormed(q, n);
    hide Inv, Step, Slot, Goto, Return, Quiet, OwnsNothing;
    if !e.Advance? { CallStep(q, n, e); }
    match e
    case CallEnqueue(t, v) => CallKeepsInv(q, n, t, EnqStale(v));
    case CallDequeue(t) => CallKeepsInv(q, n, t, DeqStale);
    case Advance(t, spurious) =>
      if Quiet(q, t, spurious) {
        QuietStepKeepsInv(q, n, t, spurious);
      } else if OwnsNothing(q, t) {
        ClaimStepKeepsInv(q, n, t);
      } else {
        OwnerStepKeepsInv(q, n, t);
      }
  }

  lemma FirstRound(p: nat, n: nat)
    requires p < n
    ensures Slot(p, n) == p
  {
  }

  lemma InitInv(n: nat)
    requires IsSize(n)
    ensures Inv(Init(n), n)
  {
    var q := Init(n);
    forall s | 0 <= s < n ensures SlotInv(q, n, s) {
      FirstRound(s, n);
      assert Free(q, n, s, s);
    }
  }

  lemma {:induction false} RunKeepsInv(q: Queue, n: nat, es: seq<Event>)
    requires Inv(q, n) && ValidRun(q, n, es)
    ensures Inv(Run(q, n, es), n)
    decreases |es|
  {
    if es != [] {
      StepKeepsInv(q, n, es[0]);
      RunKeepsInv(Step(q, n, es[0]), n, es[1..]);
    }
  }

  // ---------- Main results ----------

  /** In every run the dequeue with ticket `p` returns the value of the enqueue with ticket `p`, and no claimed
      dequeue ticket is without its value or its thread: nothing is lost, duplicated or reordered. */
  lemma Delivery(n: nat, es: seq<Event>, p: nat)
    requires IsSize(n) && ValidRun(Init(n), n, es)
    ensures
      var q := Run(Init(n), n, es);
      && |q.enq| == q.tail
      && (p in q.out ==> p < q.head <= q.tail && q.out[p] == q.enq[p])
      && (p < q.head ==> (p in q.out <==> !DeqHeld(q, p)))
  {
    InitInv(n);
    RunKeepsInv(Init(n), n, es);
  }

  /** A ticket between head and tail is in the buffer, or its enqueuer has yet to publish it. */
  lemma Buffered(n: nat, es: seq<Event>, p: nat)
    requires IsSize(n) && ValidRun(Init(n), n, es)
    ensures
      var q := Run(Init(n), n, es);
      && q.head <= q.tail <= q.head + n && |q.enq| == q.tail
      && (q.head <= p < q.tail ==>
            || (q.seqs[Slot(p, n)] == p + 1 && q.data[Slot(p, n)] == q.enq[p])
            || (q.seqs[Slot(p, n)] == p && EnqHeld(q, p)))
  {
    InitInv(n);
    RunKeepsInv(Init(n), n, es);
    var q := Run(Init(n), n, es);
    if q.head <= p < q.tail {
      var s := Slot(p, n);
      assert SlotInv(q, n, s);
      var r := q.seqs[s];
      if Free(q, n, s, r) {
        SameSlot(p, r, n);
      } else {
        SameSlot(p, r - 1, n);
      }
    }
  }

  /** Two threads that hold tickets never share a slot, so between claim and release nobody else reads or writes
      a slot's data. */
  lemma SlotExclusive(n: nat, es: seq<Event>, t: ThreadId, u: ThreadId)
    requires IsSize(n) && ValidRun(Init(n), n, es)
    requires t in Run(Init(n), n, es).threads && u in Run(Init(n), n, es).threads && t != u
    requires !OwnsNothing(Run(Init(n), n, es), t) && !OwnsNothing(Run(Init(n), n, es), u)
    ensures
      var q := Run(Init(n), n, es);
      Slot(q.threads[t].pos, n) != Slot(q.threads[u].pos, n)
  {
    InitInv(n);
    RunKeepsInv(Init(n), n, es);
    var q := Run(Init(n), n, es);
    hide SlotsInv, OutInv, ThreadInv, NoSharedTicket;
    assert ThreadInv(q, n, q.threads[t]) && ThreadInv(q, n, q.threads[u]) && NoSharedTicket(q.threads[t], q.threads[u]);
    TicketsApart(q, n, q.threads[t], q.threads[u]);
  }

  lemma TicketsApart(q: Queue, n: nat, a: Pc, b: Pc)
    requires WellFormed(q, n) && ThreadInv(q, n, a) && ThreadInv(q, n, b) && NoSharedTicket(a, b)
    requires (a.EnqTicket() != -1 || a.DeqTicket() != -1) && (b.EnqTicket() != -1 || b.DeqTicket() != -1)
    ensures Slot(a.pos, n) != Slot(b.pos, n)
  {
    AdjacentSlots(a.pos, n);
    AdjacentSlots(b.pos, n);
  }

  /** A sequence number that matched when it was loaded still matches when the CAS succeeds. */
  lemma MatchSurvives(n: nat, es: seq<Event>, t: ThreadId)
    requires IsSize(n) && ValidRun(Init(n), n, es) && t in Run(Init(n), n, es).threads
    ensures
      var q := Run(Init(n), n, es);
      match q.threads[t]
      case EnqMatched(_, pos) => q.tail == pos ==> q.seqs[Slot(pos, n)] == pos
      case DeqMatched(pos) => q.head == pos ==> q.seqs[Slot(pos, n)] == pos + 1
      case _ => true
  {
    InitInv(n);
    RunKeepsInv(Init(n), n, es);
    var q := Run(Init(n), n, es);
    assert ThreadInv(q, n, q.threads[t]);
  }

  /** When no call is in progress, what has been returned is the enqueued sequence up to head, in ticket order,
      and the buffer holds the rest. */
  lemma Quiescent(n: nat, es: seq<Event>)
    requires IsSize(n) && ValidRun(Init(n), n, es)
    requires Run(Init(n), n, es).threads == map[]
    ensures
      var q := Run(Init(n), n, es);
      && |q.enq| == q.tail && q.head <= q.tail
      && (forall p :: p in q.out <==> 0 <= p < q.head)
      && (forall p :: 0 <= p < q.head ==> q.out[p] == q.enq[p])
      && (forall p :: q.head <= p < q.tail ==> q.data[Slot(p, n)] == q.enq[p])
  {
    InitInv(n);
    RunKeepsInv(Init(n), n, es);
    forall p: nat ensures Run(Init(n), n, es).head <= p < Run(Init(n), n, es).tail ==>
        Run(Init(n), n, es).data[Slot(p, n)] == Run(Init(n), n, es).enq[p] {
      Buffered(n, es, p);
    }
  }

  /** What is known about the slot of a ticket, whatever ticket the slot is at. */
  lemma SlotOf(q: Queue, n: nat, p: nat)
    requires Inv(q, n)
    ensures
      var r := q.seqs[Slot(p, n)];
      || (Free(q, n, Slot(p, n), r) && (p - n < r < p + n ==> r == p))
      || (r > 0 && Full(q, n, Slot(p, n), r - 1) && (p - n < r - 1 < p + n ==> r - 1 == p))
  {
    var s := Slot(p, n);
    var r := q.seqs[s];
    assert SlotInv(q, n, s);
    if Free(q, n, s, r) {
      if p - n < r < p + n { SameSlot(p, r, n); }
    } else {
      if p - n < r - 1 < p + n { SameSlot(p, r - 1, n); }
    }
  }

  lemma FullExactlyAt(q: Queue, n: nat, pos: nat)
    requires Inv(q, n) && pos <= q.tail
    ensures q.seqs[Slot(pos, n)] < pos <==> pos >= n && pos - n !in q.out
  {
    var r := q.seqs[Slot(pos, n)];
    SlotOf(q, n, pos);
    if pos >= n {
      NextRound(pos - n, n);
      SlotOf(q, n, pos - n);
    }
  }

  lemma EmptyExactlyAt(q: Queue, n: nat, pos: nat)
    requires Inv(q, n) && pos <= q.head
    ensures q.seqs[Slot(pos, n)] < pos + 1 <==> pos >= q.tail || EnqHeld(q, pos)
  {
    SlotOf(q, n, pos);
    if EnqHeld(q, pos) {
      var u :| u in q.threads && q.threads[u].EnqTicket() == pos;
      assert ThreadInv(q, n, q.threads[u]);
    }
  }

  // ---------- When a call returns ----------

  /** What ends the call of a thread with its next step: the queue is full or empty for its ticket, or it has done what
      it came for. */
  ghost predicate Ends(q: Queue, n: nat, pc: Pc) {
    match pc
    case EnqLoaded(_, pos) => pos >= n && pos - n !in q.out
    case DeqLoaded(pos) => pos >= q.tail || EnqHeld(q, pos)
    case EnqWritten(_, _) => true
    case DeqRead(_, _) => true
    case _ => false
  }

  /** In every run a call returns with its next step exactly if it has written or read its slot, or has no ticket and
      finds the value of the round before still there, or no value yet.  A failed compare-and-swap never ends a call. */
  lemma ReturnsExactly(n: nat, es: seq<Event>, t: ThreadId, spurious: bool)
    requires IsSize(n) && ValidRun(Init(n), n, es) && t in Run(Init(n), n, es).threads
    ensures
      var q := Run(Init(n), n, es);
      t !in Step(q, n, Advance(t, spurious)).threads <==> Ends(q, n, q.threads[t])
  {
    InitInv(n);
    RunKeepsInv(Init(n), n, es);
    var q := Run(Init(n), n, es);
    assert ThreadInv(q, n, q.threads[t]);
    match q.threads[t]
    case EnqLoaded(_, pos) => FullExactlyAt(q, n, pos);
    case DeqLoaded(pos) => EmptyExactlyAt(q, n, pos);
    case _ =>
  }

  /** In every run an `enqueue` that has no ticket gives up with its next step exactly when it looks at the sequence
      number of a slot whose value of the round before has not been returned yet. */
  lemma FullExactly(n: nat, es: seq<Event>, t: ThreadId, spurious: bool)
    requires IsSize(n) && ValidRun(Init(n), n, es) && t in Run(Init(n), n, es).threads
    requires
      var pc := Run(Init(n), n, es).threads[t];
      pc.EnqStale? || pc.EnqLoaded? || pc.EnqMatched?
    ensures
      var q := Run(Init(n), n, es);
      var pc := q.threads[t];
      && (t !in Step(q, n, Advance(t, spurious)).threads <==>
          pc.EnqLoaded? && pc.pos >= n && pc.pos - n !in q.out)
      && (pc.EnqLoaded? ==> (q.seqs[Slot(pc.pos, n)] < pc.pos <==> pc.pos >= n && pc.pos - n !in q.out))
  {
    ReturnsExactly(n, es, t, spurious);
    InitInv(n);
    RunKeepsInv(Init(n), n, es);
    var q := Run(Init(n), n, es);
    assert ThreadInv(q, n, q.threads[t]);
    hide Step, SlotsInv, OutInv, OwnersInv;
    if q.threads[t].EnqLoaded? { FullExactlyAt(q, n, q.threads[t].pos); }
  }

  /** In every run a `dequeue` that has no ticket gives up with its next step exactly when it looks at the sequence
      number of a slot whose value has not been published yet. */
  lemma EmptyExactly(n: nat, es: seq<Event>, t: ThreadId, spurious: bool)
    requires IsSize(n) && ValidRun(Init(n), n, es) && t in Run(Init(n), n, es).threads
    requires
      var pc := Run(Init(n), n, es).threads[t];
      pc.DeqStale? || pc.DeqLoaded? || pc.DeqMatched?
    ensures
      var q := Run(Init(n), n, es);
      var pc := q.threads[t];
      && (t !in Step(q, n, Advance(t, spurious)).threads <==>
          pc.DeqLoaded? && (pc.pos >= q.tail || EnqHeld(q, pc.pos)))
      && (pc.DeqLoaded? ==> (q.seqs[Slot(pc.pos, n)] < pc.pos + 1 <==> pc.pos >= q.tail || EnqHeld(q, pc.pos)))
  {
    ReturnsExactly(n, es, t, spurious);
    InitInv(n);
    RunKeepsInv(Init(n), n, es);
    var q := Run(Init(n), n, es);
    assert ThreadInv(q, n, q.threads[t]);
    hide Step, SlotsInv, OutInv, OwnersInv;
    if q.threads[t].DeqLoaded? { EmptyExactlyAt(q, n, q.threads[t].pos); }
  }

  /** A step changes no other thread. */
  lemma OthersStay(q: Queue, n: nat, e: Event, u: ThreadId)
    requires WellFormed(q, n) && Enabled(q, e) && u != e.t
    ensures u in Step(q, n, e).threads <==> u in q.threads
    ensures u in q.threads ==> Step(q, n, e).threads[u] == q.threads[u]
  {
  }

  // ---------- A thread on its own ----------

  function Steps(t: ThreadId, k: nat): seq<Event> { if k == 0 then [] else [Advance(t, false)] + Steps(t, k - 1) }

  /** At the tail the sequence number is either the ticket or older, and at the head either published or not. */
  lemma AtTheEnds(q: Queue, n: nat)
    requires Inv(q, n)
    ensures
      var r := q.seqs[Slot(q.tail, n)];
      r <= q.tail && (r < q.tail <==> q.tail >= n && q.tail - n !in q.out)
    ensures
      var r := q.seqs[Slot(q.head, n)];
      r <= q.head + 1 && (r < q.head + 1 <==> q.head == q.tail || EnqHeld(q, q.head))
  {
    hide SlotsInv, ThreadsInv, OwnersInv, OutInv;
    FullExactlyAt(q, n, q.tail);
    EmptyExactlyAt(q, n, q.head);
    SlotOf(q, n, q.tail);
    SlotOf(q, n, q.head);
  }

  lemma RunCons(q: Queue, n: nat, e: Event, es: seq<Event>)
    requires WellFormed(q, n) && Enabled(q, e) && ValidRun(Step(q, n, e), n, es)
    ensures ValidRun(q, n, [e] + es) && Run(q, n, [e] + es) == Run(Step(q, n, e), n, es)
  {
    assert ([e] + es)[1..] == es;
  }

  lemma RunOne(q: Queue, n: nat, t: ThreadId, k: nat)
    requires WellFormed(q, n) && t in q.threads && k > 0
    requires ValidRun(Step(q, n, Advance(t, false)), n, Steps(t, k - 1))
    ensures ValidRun(q, n, Steps(t, k))
    ensures Run(q, n, Steps(t, k)) == Run(Step(q, n, Advance(t, false)), n, Steps(t, k - 1))
  {
    RunCons(q, n, Advance(t, false), Steps(t, k - 1));
  }

  /** A thread that has matched and finds the counter unchanged goes through to the end. */
  lemma EnqueueGoesThrough(q: Queue, n: nat, t: ThreadId, v: Value)
    requires WellFormed(q, n) && t in q.threads && q.threads[t] == EnqMatched(v, q.tail)
    ensures ValidRun(q, n, Steps(t, 3))
    ensures
      var d := Run(q, n, Steps(t, 3));
      && t !in d.threads && d.tail == q.tail + 1 && d.head == q.head && d.enq == q.enq + [v] && d.out == q.out
      && d.seqs[Slot(q.tail, n)] == q.tail + 1 && d.data[Slot(q.tail, n)] == v
  {
    hide Slot;
    var q1 := Step(q, n, Advance(t, false));
    assert q1.threads[t] == EnqClaimed(v, q.tail);
    var q2 := Step(q1, n, Advance(t, false));
    var q3 := Step(q2, n, Advance(t, false));
    assert Run(q3, n, Steps(t, 0)) == q3;
    RunOne(q2, n, t, 1);
    RunOne(q1, n, t, 2);
    RunOne(q, n, t, 3);
  }

  lemma DequeueGoesThrough(q: Queue, n: nat, t: ThreadId)
    requires WellFormed(q, n) && t in q.threads && q.threads[t] == DeqMatched(q.head)
    ensures ValidRun(q, n, Steps(t, 3))
    ensures
      var d := Run(q, n, Steps(t, 3));
      && t !in d.threads && d.tail == q.tail && d.head == q.head + 1 && d.enq == q.enq
      && d.out == q.out[q.head := q.data[Slot(q.head, n)]]
  {
    hide Slot;
    var q1 := Step(q, n, Advance(t, false));
    assert q1.threads[t] == DeqClaimed(q.head);
    var q2 := Step(q1, n, Advance(t, false));
    var q3 := Step(q2, n, Advance(t, false));
    assert Run(q3, n, Steps(t, 0)) == q3;
    RunOne(q2, n, t, 1);
    RunOne(q1, n, t, 2);
    RunOne(q, n, t, 3);
  }

  /** In every run, whatever the other threads have left undone: a thread that then runs alone through `enqueue`
      returns, having put its value into the queue exactly if the ticket of the round before has been returned. */
  lemma EnqueueAlone(n: nat, es: seq<Event>, t: ThreadId, v: Value)
    returns (k: nat)
    requires IsSize(n) && ValidRun(Init(n), n, es) && t !in Run(Init(n), n, es).threads
    ensures
      var q := Run(Init(n), n, es);
      var call := [CallEnqueue(t, v)] + Steps(t, k);
      && ValidRun(q, n, call)
      && var d := Run(q, n, call);
         && t !in d.threads && d.head == q.head && d.out == q.out
         && (if q.tail >= n && q.tail - n !in q.out then d.tail == q.tail && d.enq == q.enq
             else d.tail == q.tail + 1 && d.enq == q.enq + [v]
                  && d.seqs[Slot(q.tail, n)] == q.tail + 1 && d.data[Slot(q.tail, n)] == v)
  {
    InitInv(n);
    RunKeepsInv(Init(n), n, es);
    var q := Run(Init(n), n, es);
    AtTheEnds(q, n);
    hide Inv, Slot, Ends;
    var q1 := Step(q, n, CallEnqueue(t, v));
    var q2 := Step(q1, n, Advance(t, false));
    assert q2.threads[t] == EnqLoaded(v, q.tail);
    var q3 := Step(q2, n, Advance(t, false));
    if q.seqs[Slot(q.tail, n)] < q.tail {
      k := 2;
      assert Run(q3, n, Steps(t, 0)) == q3;
    } else {
      k := 5;
      EnqueueGoesThrough(q3, n, t, v);
    }
    RunOne(q2, n, t, k - 1);
    RunOne(q1, n, t, k);
    RunCons(q, n, CallEnqueue(t, v), Steps(t, k));
  }

  /** And one that runs alone through `dequeue` returns, with the next value exactly if that has been published. */
  lemma DequeueAlone(n: nat, es: seq<Event>, t: ThreadId)
    returns (k: nat)
    requires IsSize(n) && ValidRun(Init(n), n, es) && t !in Run(Init(n), n, es).threads
    ensures
      var q := Run(Init(n), n, es);
      var call := [CallDequeue(t)] + Steps(t, k);
      && ValidRun(q, n, call) && |q.enq| == q.tail
      && var d := Run(q, n, call);
         && t !in d.threads && d.tail == q.tail && d.enq == q.enq
         && (if q.head >= q.tail || EnqHeld(q, q.head) then d.head == q.head && d.out == q.out
             else d.head == q.head + 1 && d.out == q.out[q.head := q.enq[q.head]])
  {
    InitInv(n);
    RunKeepsInv(Init(n), n, es);
    var q := Run(Init(n), n, es);
    AtTheEnds(q, n);
    Buffered(n, es, q.head);
    hide Inv, Slot, Ends;
    var q1 := Step(q, n, CallDequeue(t));
    var q2 := Step(q1, n, Advance(t, false));
    assert q2.threads[t] == DeqLoaded(q.head);
    var q3 := Step(q2, n, Advance(t, false));
    if q.seqs[Slot(q.head, n)] < q.head + 1 {
      k := 2;
      assert Run(q3, n, Steps(t, 0)) == q3;
    } else {
      k := 5;
      DequeueGoesThrough(q3, n, t);
    }
    RunOne(q2, n, t, k - 1);
    RunOne(q1, n, t, k);
    RunCons(q, n, CallDequeue(t), Steps(t, k));
  }
}
