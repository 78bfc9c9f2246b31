/**
 The writer/reader phaser behind the latency histograms (metrics.hpp), as a protocol: any number of writers
 in `record_value`, and one reader at a time (it holds the histogram's mutex) in `add` and `flip_phase`.
 Every load, store, exchange and increment of an atomic is one step; steps interleave freely.

 Epochs are 64-bit in the source.  Here they are integers, and a writer may enter only while the epoch of the
 current phase has room, which is the assumption that fewer than 2^63 writers enter during one phase.
 */
module Phaser {

  type ThreadId = nat
  type Index = i: int | 0 <= i < 2

  const INT64_MIN := -0x8000_0000_0000_0000
  const INT64_MAX := 0x7fff_ffff_ffff_ffff

  /** Where a thread is in `record_value`; `epoch` is what `writer_critical_section_enter` gave it and `era` is
      the number of flips before it entered. */
  datatype Writer =
    | Entered(era: nat, epoch: int)
    | Recording(era: nat, epoch: int, index: Index)   // between loading the index and the end of hdr_record_value
    | Recorded(era: nat, epoch: int)

  /** Where the reader is in `add`; `from` is the histogram it took out of use. */
  datatype Reader =
    | Idle
    | Loaded(seen: Index)
    | Swapped(from: Index)
    | Decided(from: Index, nextEven: bool)
    | Cleared(from: Index, nextEven: bool)
    | Spinning(from: Index, nextEven: bool, target: int)
    | Reading(from: Index)

  /** Two histograms, as the values that they hold. */
  type Histograms = h: seq<multiset<int>> | |h| == 2 witness [multiset{}, multiset{}]

  /** `total` is the histogram that the reader adds to, and `read` what each of the two held when it was added last. */
  datatype State = State(start: int, evenEnd: int, oddEnd: int, active: Index, flips: nat,
                         writers: map<ThreadId, Writer>, reader: Reader, histograms: Histograms,
                         total: multiset<int>, read: Histograms)

  datatype Event =
    | Enter(t: ThreadId)
    | LoadIndex(t: ThreadId)
    | Record(t: ThreadId, value: int)
    | End(t: ThreadId)
    | ReaderStep

  const NONE: Histograms := [multiset{}, multiset{}]

  const Init := State(0, 0, INT64_MIN, 0, 0, map[], Idle, NONE, multiset{}, NONE)

  function Flip(i: Index): Index { 1 - i }

  predicate Enabled(s: State, e: Event) {
    match e
    case Enter(t) => t !in s.writers && (if s.start < 0 then s.start + 1 < 0 else s.start < INT64_MAX)
    case LoadIndex(t) => t in s.writers && s.writers[t].Entered?
    case Record(t, _) => t in s.writers && s.writers[t].Recording?
    case End(t) => t in s.writers && s.writers[t].Recorded?
    case ReaderStep => true
  }

  function Step(s: State, e: Event): State
    requires Enabled(s, e)
  {
    match e
    case Enter(t) => s.(writers := s.writers[t := Entered(s.flips, s.start)], start := s.start + 1)
    case LoadIndex(t) => s.(writers := s.writers[t := Recording(s.writers[t].era, s.writers[t].epoch, s.active)])
    case Record(t, v) =>
      var i := s.writers[t].index;
      s.(writers := s.writers[t := Recorded(s.writers[t].era, s.writers[t].epoch)],
         histograms := s.histograms[i := s.histograms[i] + multiset{v}])
    case End(t) =>
      var s' := s.(writers := s.writers - {t});
      if s.writers[t].epoch < 0 then s'.(oddEnd := s.oddEnd + 1) else s'.(evenEnd := s.evenEnd + 1)
    case ReaderStep => ReaderNext(s)
  }

  /** The reader's next step; the one in `Spinning` is one turn of the spin loop. */
  function ReaderNext(s: State): State {
    match s.reader
    case Idle => s.(reader := Loaded(s.active))
    case Loaded(seen) => s.(active := Flip(seen), reader := Swapped(s.active))
    case Swapped(from) => s.(reader := Decided(from, s.start < 0))
    case Decided(from, even) =>
      if even then s.(evenEnd := 0, reader := Cleared(from, even))
      else s.(oddEnd := INT64_MIN, reader := Cleared(from, even))
    case Cleared(from, even) =>
      s.(start := if even then 0 else INT64_MIN, flips := s.flips + 1, reader := Spinning(from, even, s.start))
    case Spinning(from, even, target) =>
      if CaughtUp(s, even, target) then s.(reader := Reading(from)) else s
    case Reading(from) =>
      s.(reader := Idle, total := s.total + s.histograms[from], read := s.read[from := s.histograms[from]])
  }

  /** The test of the spin loop. */
  predicate CaughtUp(s: State, nextEven: bool, target: int) {
    if nextEven then s.oddEnd == target else s.evenEnd == target
  }

  ghost predicate ValidRun(s: State, es: seq<Event>)
    decreases |es|
  {
    es == [] || (Enabled(s, es[0]) && ValidRun(Step(s, es[0]), es[1..]))
  }

  ghost function Run(s: State, es: seq<Event>): State
    requires ValidRun(s, es)
    decreases |es|
  {
    if es == [] then s else Run(Step(s, es[0]), es[1..])
  }

  // ---------- The invariant ----------

  /** The writers inside their critical section that entered in an odd (or even) phase. */
  function Inside(ws: map<ThreadId, Writer>, odd: bool): set<ThreadId> {
    set t | t in ws && (ws[t].epoch < 0) == odd
  }

  function EndOf(s: State, odd: bool): int { if odd then s.oddEnd else s.evenEnd }

  function Base(odd: bool): int { if odd then INT64_MIN else 0 }

  /** Entered count = ended count + writers inside, for the current phase and for the one being left. */
  ghost predicate CountInv(s: State) {
    var odd := s.start < 0;
    && s.start == EndOf(s, odd) + |Inside(s.writers, odd)|
    && EndOf(s, odd) >= Base(odd)
    && (match s.reader
        case Spinning(_, _, target) => target == EndOf(s, !odd) + |Inside(s.writers, !odd)|
        case Cleared(_, _) => |Inside(s.writers, !odd)| == 0 && EndOf(s, !odd) == Base(!odd)
        case _ => |Inside(s.writers, !odd)| == 0)
  }

  /** What the reader remembers is still true. */
  ghost predicate ReaderInv(s: State) {
    match s.reader
    case Idle => true
    case Loaded(seen) => s.active == seen
    case Swapped(from) => s.active == Flip(from)
    case Decided(from, even) => s.active == Flip(from) && (even <==> s.start < 0)
    case Cleared(from, even) => s.active == Flip(from) && (even <==> s.start < 0)
    case Spinning(from, even, _) => s.active == Flip(from) && (even <==> s.start >= 0)
    case Reading(from) => s.active == Flip(from)
  }

  /** After the flip the writers of the new phase do not use the histogram that was taken out of use. */
  ghost predicate AwayInv(s: State) {
    s.reader.Spinning? || s.reader.Reading? ==>
      forall t :: t in s.writers && s.writers[t].Recording? && ((s.writers[t].epoch < 0) == (s.start < 0)) ==>
        s.writers[t].index != s.reader.from
  }

  /** The sign of a writer's epoch tells whether it entered after the last flip or between the last two. */
  ghost predicate EraInv(s: State) {
    forall t :: t in s.writers ==>
      s.writers[t].era == if (s.writers[t].epoch < 0) == (s.start < 0) then s.flips else s.flips - 1
  }

  ghost predicate Inv(s: State) {
    EraInv(s) && CountInv(s) && ReaderInv(s) && AwayInv(s)
  }

  // ---------- Counting writers ----------

  lemma InsideAdd(ws: map<ThreadId, Writer>, t: ThreadId, w: Writer, odd: bool)
    requires t !in ws
    ensures |Inside(ws[t := w], odd)| == |Inside(ws, odd)| + (if (w.epoch < 0) == odd then 1 else 0)
  {
    assert Inside(ws[t := w], odd) == if (w.epoch < 0) == odd then Inside(ws, odd) + {t} else Inside(ws, odd);
  }

  lemma InsideMove(ws: map<ThreadId, Writer>, t: ThreadId, w: Writer, odd: bool)
    requires t in ws && w.epoch == ws[t].epoch
    ensures Inside(ws[t := w], odd) == Inside(ws, odd)
  {
  }

  lemma InsideRemove(ws: map<ThreadId, Writer>, t: ThreadId, odd: bool)
    requires t in ws
    ensures |Inside(ws - {t}, odd)| == |Inside(ws, odd)| - (if (ws[t].epoch < 0) == odd then 1 else 0)
  {
    assert Inside(ws - {t}, odd) == Inside(ws, odd) - {t};
  }

  // ---------- Every step keeps the invariant ----------

  lemma EnterKeepsInv(s: State, t: ThreadId)
    requires Inv(s) && Enabled(s, Enter(t))
    ensures Inv(Step(s, Enter(t)))
  {
    InsideAdd(s.writers, t, Entered(s.flips, s.start), true);
    InsideAdd(s.writers, t, Entered(s.flips, s.start), false);
  }

  lemma MoveKeepsInv(s: State, t: ThreadId, e: Event)
    requires Inv(s) && Enabled(s, e) && (e == LoadIndex(t) || (e.Record? && e.t == t))
    ensures Inv(Step(s, e))
  {
    InsideMove(s.writers, t, Step(s, e).writers[t], true);
    InsideMove(s.writers, t, Step(s, e).writers[t], false);
  }

  lemma EndKeepsInv(s: State, t: ThreadId)
    requires Inv(s) && Enabled(s, End(t))
    ensures Inv(Step(s, End(t)))
  {
    InsideRemove(s.writers, t, true);
    InsideRemove(s.writers, t, false);
    if (s.writers[t].epoch < 0) != (s.start < 0) {
      assert t in Inside(s.writers, !(s.start < 0));
    }
  }

  lemma NobodyInside(ws: map<ThreadId, Writer>, odd: bool, t: ThreadId)
    requires |Inside(ws, odd)| == 0 && t in ws
    ensures (ws[t].epoch < 0) != odd
  {
    assert Inside(ws, odd) == {};
    assert t !in Inside(ws, odd);
  }

  lemma ReaderKeepsInv(s: State)
    requires Inv(s)
    ensures Inv(ReaderNext(s))
  {
    match s.reader
    case Cleared(_, _) =>
      // Nobody has entered in the new phase yet.
      forall t | t in s.writers ensures (s.writers[t].epoch < 0) == (s.start < 0) {
        NobodyInside(s.writers, !(s.start < 0), t);
      }
    case _ =>
  }

  lemma StepKeepsInv(s: State, e: Event)
    requires Inv(s) && Enabled(s, e)
    ensures Inv(Step(s, e))
  {
    match e
    case Enter(t) => EnterKeepsInv(s, t);
    case LoadIndex(t) => MoveKeepsInv(s, t, e);
    case Record(t, _) => MoveKeepsInv(s, t, e);
    case End(t) => EndKeepsInv(s, t);
    case ReaderStep => ReaderKeepsInv(s);
  }

  lemma {:induction false} RunKeepsInv(s: State, es: seq<Event>)
    requires Inv(s) && ValidRun(s, es)
    ensures Inv(Run(s, es))
    decreases |es|
  {
    if es != [] {
      StepKeepsInv(s, es[0]);
      RunKeepsInv(Step(s, es[0]), es[1..]);
    }
  }

  // ---------- Main results ----------

  /** In every run: once the flip has returned, every writer that entered before it has left its critical section,
      and no writer is recording into the histogram that is being read. */
  lemma ReaderIsAlone(es: seq<Event>, t: ThreadId)
    requires ValidRun(Init, es)
    requires Run(Init, es).reader.Reading? && t in Run(Init, es).writers
    ensures
      var s := Run(Init, es);
      && s.writers[t].era == s.flips
      && (s.writers[t].Recording? ==> s.writers[t].index != s.reader.from)
  {
    RunKeepsInv(Init, es);
    var s := Run(Init, es);
    NobodyInside(s.writers, !(s.start < 0), t);
  }

  /** So while the reader adds the histogram up, no step of any thread changes it. */
  lemma SnapshotIsStable(es: seq<Event>, e: Event)
    requires ValidRun(Init, es) && Enabled(Run(Init, es), e)
    requires Run(Init, es).reader.Reading?
    ensures
      var s := Run(Init, es);
      Step(s, e).histograms[s.reader.from] == s.histograms[s.reader.from]
  {
    RunKeepsInv(Init, es);
    if e.Record? {
      ReaderIsAlone(es, e.t);
    }
  }

  /** The spin loop ends exactly when the last writer of the old phase has left: it never ends early and it never
      waits for a writer of the new phase. */
  lemma SpinEndsExactlyWhenDrained(es: seq<Event>)
    requires ValidRun(Init, es) && Run(Init, es).reader.Spinning?
    ensures
      var s := Run(Init, es);
      CaughtUp(s, s.reader.nextEven, s.reader.target) <==> forall t :: t in s.writers ==> s.writers[t].era == s.flips
  {
    RunKeepsInv(Init, es);
    var s := Run(Init, es);
    var leaving := Inside(s.writers, !(s.start < 0));
    if |leaving| == 0 {
      forall t | t in s.writers ensures s.writers[t].era == s.flips {
        NobodyInside(s.writers, !(s.start < 0), t);
      }
    } else {
      var t :| t in leaving;
    }
  }

  // ---------- What the histograms hold ----------

  /** The values that are recorded. */
  function Values(es: seq<Event>): multiset<int> {
    if es == [] then multiset{} else (if es[0].Record? then multiset{es[0].value} else multiset{}) + Values(es[1..])
  }

  /** The index that thread `t` found active when it loaded it last, which was `was` before the run. */
  ghost function LastLoaded(s: State, es: seq<Event>, t: ThreadId, was: Index): Index
    requires ValidRun(s, es)
    decreases |es|
  {
    if es == [] then was
    else LastLoaded(Step(s, es[0]), es[1..], t, if es[0] == LoadIndex(t) then s.active else was)
  }

  /** For each thread the index that it found active. */
  type Indices = ThreadId -> Index

  function Load(loaded: Indices, s: State, e: Event): Indices {
    t => if e == LoadIndex(t) then s.active else loaded(t)
  }

  /** The values recorded by writers that had found index `i` active. */
  ghost function ValuesAt(s: State, es: seq<Event>, i: Index, loaded: Indices): multiset<int>
    requires ValidRun(s, es)
    decreases |es|
  {
    if es == [] then multiset{}
    else
      (if es[0].Record? && loaded(es[0].t) == i then multiset{es[0].value} else multiset{}) +
      ValuesAt(Step(s, es[0]), es[1..], i, Load(loaded, s, es[0]))
  }

  /** Recording threads have not forgotten what they loaded. */
  ghost predicate Remembers(s: State, loaded: Indices) {
    forall t :: t in s.writers && s.writers[t].Recording? ==> s.writers[t].index == loaded(t)
  }

  lemma StepRemembers(s: State, e: Event, loaded: Indices)
    requires Enabled(s, e) && Remembers(s, loaded)
    ensures Remembers(Step(s, e), Load(loaded, s, e))
  {
  }

  /** A step records its value, if it has one, and nothing else, where the writer has loaded its index. */
  lemma StepRecords(s: State, e: Event, loaded: Indices, i: Index)
    requires Enabled(s, e) && Remembers(s, loaded)
    ensures Step(s, e).histograms[i] ==
              s.histograms[i] + if e.Record? && loaded(e.t) == i then multiset{e.value} else multiset{}
  {
  }

  lemma {:induction false} RunRecords(s: State, es: seq<Event>, loaded: Indices, i: Index)
    requires ValidRun(s, es) && Remembers(s, loaded)
    ensures Run(s, es).histograms[i] == s.histograms[i] + ValuesAt(s, es, i, loaded)
    decreases |es|
  {
    hide Step, Remembers;
    if es != [] {
      StepRemembers(s, es[0], loaded);
      StepRecords(s, es[0], loaded, i);
      RunRecords(Step(s, es[0]), es[1..], Load(loaded, s, es[0]), i);
    }
  }

  lemma {:induction false} ValuesSplit(s: State, es: seq<Event>, loaded: Indices)
    requires ValidRun(s, es)
    ensures ValuesAt(s, es, 0, loaded) + ValuesAt(s, es, 1, loaded) == Values(es)
    decreases |es|
  {
    hide Step;
    if es != [] { ValuesSplit(Step(s, es[0]), es[1..], Load(loaded, s, es[0])); }
  }

  /** Before a thread has loaded an index, it does not matter which. */
  function Unloaded(t: ThreadId): Index { 0 }

  /** In every run the two histograms together hold exactly the values that have been recorded. */
  lemma NothingIsLost(es: seq<Event>)
    requires ValidRun(Init, es)
    ensures Run(Init, es).histograms[0] + Run(Init, es).histograms[1] == Values(es)
  {
    RunRecords(Init, es, Unloaded, 0);
    RunRecords(Init, es, Unloaded, 1);
    ValuesSplit(Init, es, Unloaded);
  }

  /** In every run, when the flip has returned: the histogram that is read holds exactly the values recorded by writers
      that had found it active, no such writer has its value still to record, and `hdr_add` adds just these values to
      the total. */
  lemma AddTakesRecorded(es: seq<Event>)
    requires ValidRun(Init, es) && Run(Init, es).reader.Reading?
    ensures
      var s := Run(Init, es);
      var recorded := ValuesAt(Init, es, s.reader.from, Unloaded);
      && s.histograms[s.reader.from] == recorded
      && (forall t :: t in s.writers && s.writers[t].Recording? ==> LastLoaded(Init, es, t, 0) != s.reader.from)
      && Step(s, ReaderStep).total == s.total + recorded
      && Step(s, ReaderStep).read[s.reader.from] == recorded
  {
    var s := Run(Init, es);
    RunRecords(Init, es, Unloaded, s.reader.from);
    forall t | t in s.writers && s.writers[t].Recording? ensures LastLoaded(Init, es, t, 0) != s.reader.from {
      ReaderIsAlone(es, t);
      RunLoads(Init, es, t, 0);
    }
  }

  lemma {:induction false} RunLoads(s: State, es: seq<Event>, t: ThreadId, was: Index)
    requires ValidRun(s, es) && (t in s.writers && s.writers[t].Recording? ==> s.writers[t].index == was)
    ensures
      var d := Run(s, es);
      t in d.writers && d.writers[t].Recording? ==> d.writers[t].index == LastLoaded(s, es, t, was)
    decreases |es|
  {
    if es != [] {
      RunLoads(Step(s, es[0]), es[1..], t, if es[0] == LoadIndex(t) then s.active else was);
    }
  }

  // ---------- The total ----------

  /** A histogram is added that held something when it was added before. */
  predicate AddsAgain(s: State, e: Event) {
    e.ReaderStep? && s.reader.Reading? && s.read[s.reader.from] != multiset{}
  }

  ghost predicate EverAddsAgain(s: State, es: seq<Event>)
    requires ValidRun(s, es)
    decreases |es|
  {
    es != [] && (AddsAgain(s, es[0]) || EverAddsAgain(Step(s, es[0]), es[1..]))
  }

  /** What the total holds more than once; it never gets less. */
  ghost predicate Surplus(s: State, more: multiset<int>) { s.total == s.read[0] + s.read[1] + more }

  lemma StepSurplus(s: State, e: Event, more: multiset<int>) returns (now: multiset<int>)
    requires Enabled(s, e) && Surplus(s, more)
    ensures Surplus(Step(s, e), now) && (now == multiset{} <==> more == multiset{} && !AddsAgain(s, e))
  {
    now := if e.ReaderStep? && s.reader.Reading? then more + s.read[s.reader.from] else more;
  }

  lemma {:induction false} RunSurplus(s: State, es: seq<Event>, more: multiset<int>)
    requires ValidRun(s, es) && Surplus(s, more)
    ensures
      var d := Run(s, es);
      d.total == d.read[0] + d.read[1] <==> more == multiset{} && !EverAddsAgain(s, es)
    decreases |es|
  {
    hide Step, AddsAgain;
    if es != [] {
      var now := StepSurplus(s, es[0], more);
      RunSurplus(Step(s, es[0]), es[1..], now);
    } else {
      var once := s.read[0] + s.read[1];
      assert more == (once + more) - once;
    }
  }

  /** Main result: in every run, the total holds the values of the histograms as they were added last, each once, if and
      only if no histogram has been added again after it held something.  Neither the total nor the histograms are ever
      cleared. */
  lemma TotalCountsOnce(es: seq<Event>)
    requires ValidRun(Init, es)
    ensures
      var s := Run(Init, es);
      s.total == s.read[0] + s.read[1] <==> !EverAddsAgain(Init, es)
  {
    RunSurplus(Init, es, multiset{});
  }

  lemma {:induction false} RunAppend(s: State, a: seq<Event>, b: seq<Event>)
    requires ValidRun(s, a) && ValidRun(Run(s, a), b)
    ensures ValidRun(s, a + b) && Run(s, a + b) == Run(Run(s, a), b)
    decreases |a|
  {
    hide Step;
    if a == [] {
      assert a + b == b;
    } else {
      assert (a + b)[1..] == a[1..] + b;
      RunAppend(Step(s, a[0]), a[1..], b);
    }
  }

  lemma RunCons(s: State, e: Event, es: seq<Event>)
    requires Enabled(s, e) && ValidRun(Step(s, e), es)
    ensures ValidRun(s, [e] + es) && Run(s, [e] + es) == Run(Step(s, e), es)
  {
    assert ([e] + es)[1..] == es;
  }

  function ReaderSteps(n: nat): seq<Event> { if n == 0 then [] else [ReaderStep] + ReaderSteps(n - 1) }

  function After(s: State, n: nat): State
    decreases n
  {
    if n == 0 then s else After(ReaderNext(s), n - 1)
  }

  lemma {:induction false} ReaderRuns(s: State, n: nat)
    ensures ValidRun(s, ReaderSteps(n)) && Run(s, ReaderSteps(n)) == After(s, n)
    ensures Values(ReaderSteps(n)) == multiset{}
    decreases n
  {
    hide ReaderNext;
    if n > 0 {
      ReaderRuns(ReaderNext(s), n - 1);
      RunCons(s, ReaderStep, ReaderSteps(n - 1));
    }
  }

  lemma AfterSome(s: State)
    ensures After(s, 3) == ReaderNext(ReaderNext(ReaderNext(s)))
    ensures After(s, 7) == After(After(s, 3), 4)
    ensures After(s, 4) == ReaderNext(ReaderNext(ReaderNext(ReaderNext(s))))
  {
    hide ReaderNext;
  }

  /** One `add` while nobody records. */
  lemma QuietAdd(s: State) returns (es: seq<Event>)
    requires Inv(s) && s.reader.Idle? && s.writers == map[]
    ensures ValidRun(s, es) && Inv(Run(s, es)) && Values(es) == multiset{}
    ensures
      var d := Run(s, es);
      && d.reader.Idle? && d.writers == map[] && d.histograms == s.histograms && d.active == Flip(s.active)
      && d.total == s.total + s.histograms[s.active]
  {
    es := ReaderSteps(7);
    ReaderRuns(s, 7);
    RunKeepsInv(s, es);
    assert |Inside(map[], true)| == 0 == |Inside(map[], false)|;
    hide After, ReaderSteps, Run, ValidRun, AwayInv, EraInv, Inside;
    AfterSome(s);
    QuietSwap(s);
    AfterSome(After(s, 3));
    QuietFlip(After(s, 3));
  }

  lemma QuietSwap(s: State)
    requires s.reader.Idle?
    ensures ReaderNext(ReaderNext(ReaderNext(s))) ==
              s.(reader := Decided(s.active, s.start < 0), active := Flip(s.active))
  {
  }

  lemma QuietFlip(s: State)
    requires s.reader.Decided? && (s.reader.nextEven <==> s.start < 0) && s.start == EndOf(s, s.start < 0)
    ensures
      var d, from := ReaderNext(ReaderNext(ReaderNext(ReaderNext(s)))), s.reader.from;
      && d.reader.Idle? && d.writers == s.writers && d.histograms == s.histograms && d.active == s.active
      && d.total == s.total + s.histograms[from]
  {
    var s2 := ReaderNext(ReaderNext(s));
    assert s2.reader == Spinning(s.reader.from, s.start < 0, s.start);
    assert CaughtUp(s2, s.start < 0, s.start);
  }

  /** One value is recorded, and three snapshots are taken: the third counts it twice. */
  lemma ThirdSnapshotRepeats(v: int) returns (es: seq<Event>)
    ensures ValidRun(Init, es) && Values(es) == multiset{v} && Run(Init, es).total == multiset{v, v}
  {
    var first := RecordOne(v);
    var s := Run(Init, first);
    RunKeepsInv(Init, first);
    var a := QuietAdd(s);
    var b := QuietAdd(Run(s, a));
    var c := QuietAdd(Run(Run(s, a), b));
    RunAppend(Run(s, a), b, c);
    RunAppend(s, a, b + c);
    RunAppend(Init, first, a + (b + c));
    es := first + (a + (b + c));
    NothingIsLost(es);
    assert multiset{v} + multiset{} + multiset{v} == multiset{v, v};
  }

  lemma RecordOne(v: int) returns (es: seq<Event>)
    ensures ValidRun(Init, es)
    ensures
      var s := Run(Init, es);
      && s.reader.Idle? && s.writers == map[] && s.active == 0 && s.total == multiset{}
      && s.histograms == [multiset{v}, multiset{}]
  {
    var s1 := Step(Init, Enter(0));
    var s2 := Step(s1, LoadIndex(0));
    var s3 := Step(s2, Record(0, v));
    assert multiset{} + multiset{v} == multiset{v};
    assert s3.histograms == [multiset{v}, multiset{}];
    var s4 := Step(s3, End(0));
    assert s4.writers == map[];
    assert Run(s3, [End(0)]) == s4;
    RunCons(s2, Record(0, v), [End(0)]);
    RunCons(s1, LoadIndex(0), [Record(0, v)] + [End(0)]);
    es := [LoadIndex(0)] + ([Record(0, v)] + [End(0)]);
    RunCons(Init, Enter(0), es);
    es := [Enter(0)] + es;
  }
}
