/** The shared worker pools of chunked_secure_box.py and split_key_guard.py as interleaved steps.
    An owner is a box with one item, or a guard with one item per cell; several workers peek, pop,
    lock the owner, service the item and push it back, each under its own short locks. */
module Scheduler {
  datatype Item = Item(owner: nat, cell: nat)

  /** A heap entry; `seq` breaks ties so that owners are never compared. */
  datatype Entry = Entry(due: int, seqNo: nat, item: Item)

  /** Where a worker stands in its loop. */
  datatype Phase =
    | Top
    | Saw
    | Popped(item: Item)
    | Inside(item: Item)
    | Servicing(item: Item)
    | Returning(item: Item, delay: nat)
  {
    predicate Holds(i: Item) {
      !Top? && !Saw? && item == i
    }

    predicate Locks(o: nat) {
      (Inside? || Servicing?) && item.owner == o
    }
  }

  datatype State = State(
    heap: set<Entry>,
    seqNo: nat,
    now: int,
    workers: seq<Phase>,
    readers: set<nat>,
    registered: set<Item>,
    retired: set<Item>,
    removed: set<nat>,
    closed: set<nat>)

  // ---------------------------------------------------------------- steps

  datatype Action =
    | Tick(to: int)
    | Register(items: seq<Item>, dues: seq<int>)
    | Peek(w: nat)
    | Pop(w: nat)
    | Lock(w: nat)
    | Check(w: nat, paused: bool, delay: nat)
    | Finish(w: nat, raised: bool, delay: nat)
    | Push(w: nat)
    | ReaderLock(owner: nat)
    | ReaderUnlock(owner: nat)
    | Collapse(owner: nat)
    | Close(owner: nat)

  /** heapq orders entries by due time, then sequence number. */
  predicate Before(a: Entry, b: Entry) {
    a.due < b.due || (a.due == b.due && a.seqNo <= b.seqNo)
  }

  predicate IsTop(heap: set<Entry>, e: Entry) {
    e in heap && forall f :: f in heap ==> Before(e, f)
  }

  /** The owner's lock is free. */
  predicate Free(s: State, o: nat) {
    o !in s.readers && forall w :: 0 <= w < |s.workers| ==> !s.workers[w].Locks(o)
  }

  function At(s: State, w: nat, phase: Phase): State
    requires w < |s.workers|
  {
    s.(workers := s.workers[w := phase])
  }

  /** The entries a registration pushes, numbered from seqNo + 1. */
  function Entries(items: seq<Item>, dues: seq<int>, seqNo: nat): set<Entry>
    requires |items| == |dues|
  {
    set k | 0 <= k < |items| :: Entry(dues[k], seqNo + 1 + k, items[k])
  }

  predicate Distinct(items: seq<Item>) {
    forall j, k :: 0 <= j < k < |items| ==> items[j] != items[k]
  }

  ghost predicate Step(s: State, a: Action, t: State) {
    match a
    case Tick(to) => to >= s.now && t == s.(now := to)
    case Register(items, dues) =>
      && |items| == |dues| && Distinct(items) && (forall i :: i in items ==> i !in s.registered)
      && t == s.(heap := s.heap + Entries(items, dues, s.seqNo), seqNo := s.seqNo + |items|,
                 registered := s.registered + set i | i in items)
    case Peek(w) =>
      // Sees an entry that is due; with none it waits and starts over, which changes nothing.
      w < |s.workers| && s.workers[w].Top? && t == At(s, w, Saw)
    case Pop(w) =>
      && w < |s.workers| && s.workers[w].Saw?
      && (if exists e :: IsTop(s.heap, e) && e.due <= s.now then
            exists e :: IsTop(s.heap, e) && e.due <= s.now && t == At(s.(heap := s.heap - {e}), w, Popped(e.item))
          else t == At(s, w, Top))
    case Lock(w) =>
      && w < |s.workers| && s.workers[w].Popped? && Free(s, s.workers[w].item.owner)
      && t == At(s, w, Inside(s.workers[w].item))
    case Check(w, paused, delay) =>
      && w < |s.workers| && s.workers[w].Inside?
      && (var i := s.workers[w].item;
          t == if i.owner in s.removed then At(s.(retired := s.retired + {i}), w, Top)
               else if paused then At(s, w, Returning(i, delay))
               else At(s, w, Servicing(i)))
    case Finish(w, raised, delay) =>
      && w < |s.workers| && s.workers[w].Servicing?
      && (var i := s.workers[w].item;
          t == if raised then At(s.(retired := s.retired + {i}), w, Top) else At(s, w, Returning(i, delay)))
    case Push(w) =>
      && w < |s.workers| && s.workers[w].Returning?
      && (var phase := s.workers[w];
          var entry := Entry(s.now + phase.delay, s.seqNo + 1, phase.item);
          t == At(s.(heap := s.heap + {entry}, seqNo := s.seqNo + 1), w, Top))
    case ReaderLock(o) => Free(s, o) && t == s.(readers := s.readers + {o})
    case ReaderUnlock(o) => t == s.(readers := s.readers - {o})
    case Collapse(o) => Free(s, o) && t == s.(removed := s.removed + {o})
    case Close(o) => o in s.removed && t == s.(closed := s.closed + {o})
  }

  function Initial(workers: nat): State {
    State({}, 0, 0, seq(workers, i => Top), {}, {}, {}, {}, {})
  }

  // ---------------------------------------------------------------- the invariant

  predicate InHeap(s: State, i: Item) {
    exists e :: e in s.heap && e.item == i
  }

  predicate Held(s: State, i: Item) {
    exists w :: 0 <= w < |s.workers| && s.workers[w].Holds(i)
  }

  /** Each entry has its own item and its own number. */
  ghost predicate HeapDistinct(s: State) {
    && (forall e :: e in s.heap ==> e.seqNo <= s.seqNo)
    && (forall e, f :: e in s.heap && f in s.heap && (e.item == f.item || e.seqNo == f.seqNo) ==> e == f)
  }

  ghost predicate WorkersDistinct(s: State) {
    forall v, w, i :: 0 <= v < |s.workers| && 0 <= w < |s.workers| ==>
      s.workers[v].Holds(i) && s.workers[w].Holds(i) ==> v == w
  }

  /** Every registered item is in exactly one place. */
  ghost predicate OnePlace(s: State, i: Item) {
    if InHeap(s, i) then !Held(s, i) && i !in s.retired
    else if Held(s, i) then i !in s.retired
    else i in s.retired
  }

  ghost predicate Placed(s: State) {
    && (forall i :: i in s.registered ==> OnePlace(s, i))
    && (forall i :: InHeap(s, i) || Held(s, i) || i in s.retired ==> i in s.registered)
  }

  /** An owner's lock has one holder. */
  ghost predicate LocksDistinct(s: State) {
    && (forall v, w, o :: 0 <= v < |s.workers| && 0 <= w < |s.workers| ==>
      s.workers[v].Locks(o) && s.workers[w].Locks(o) ==> v == w)
    && (forall w, o :: 0 <= w < |s.workers| && s.workers[w].Locks(o) ==> o !in s.readers)
  }

  /** No worker is servicing an item of an owner whose removed flag is set, let alone one whose
      memory has been released. */
  ghost predicate NoneTouched(s: State) {
    && s.closed <= s.removed
    && (forall w :: 0 <= w < |s.workers| && s.workers[w].Servicing? ==> s.workers[w].item.owner !in s.removed)
  }

  ghost predicate Inv(s: State) {
    HeapDistinct(s) && WorkersDistinct(s) && Placed(s) && LocksDistinct(s) && NoneTouched(s)
  }

  // ---------------------------------------------------------------- where items are after a step

  lemma HeldAfter(s: State, w: nat, phase: Phase, i: Item)
    requires w < |s.workers| && WorkersDistinct(s)
    ensures Held(At(s, w, phase), i) <==> phase.Holds(i) || (Held(s, i) && !s.workers[w].Holds(i))
  {
    var t := At(s, w, phase);
    if Held(t, i) {
      var v :| 0 <= v < |t.workers| && t.workers[v].Holds(i);
      assert v != w ==> s.workers[v].Holds(i);
    }
    if phase.Holds(i) {
      assert t.workers[w].Holds(i);
    }
    if Held(s, i) && !s.workers[w].Holds(i) {
      var v :| 0 <= v < |s.workers| && s.workers[v].Holds(i);
      assert t.workers[v].Holds(i);
    }
  }

  lemma HeldHere(s: State, w: nat, i: Item)
    requires w < |s.workers| && s.workers[w].Holds(i)
    ensures Held(s, i)
  {
  }

  lemma InHeapAfterPush(s: State, t: State, e: Entry, i: Item)
    requires t.heap == s.heap + {e}
    ensures InHeap(t, i) <==> InHeap(s, i) || i == e.item
  {
    assert e in t.heap;
  }

  lemma InHeapAfterPop(s: State, t: State, e: Entry, i: Item)
    requires HeapDistinct(s) && e in s.heap && t.heap == s.heap - {e}
    ensures InHeap(t, i) <==> InHeap(s, i) && i != e.item
  {
    if InHeap(s, i) && i != e.item {
      var f :| f in s.heap && f.item == i;
      assert f in t.heap;
    }
  }

  lemma InHeapEntry(s: State, e: Entry)
    requires e in s.heap
    ensures InHeap(s, e.item)
  {
  }

  // ---------------------------------------------------------------- each kind of step keeps it

  /** Worker w goes from `from` to `to` and nothing else about the places of items changes, except
      as the flags say: the item it held is retired, or pushed back. */
  lemma MoveKeepsPlaced(s: State, t: State, w: nat, phase: Phase)
    requires Inv(s) && w < |s.workers| && t.workers == s.workers[w := phase]
    requires t.heap == s.heap && t.registered == s.registered
    requires forall i :: phase.Holds(i) ==> s.workers[w].Holds(i)
    requires forall i :: i in t.retired <==> i in s.retired || (s.workers[w].Holds(i) && !phase.Holds(i))
    ensures Placed(t)
  {
    forall i ensures Held(t, i) <==> phase.Holds(i) || (Held(s, i) && !s.workers[w].Holds(i)) {
      HeldAfter(s, w, phase, i);
      assert Held(t, i) == Held(At(s, w, phase), i);
    }
    forall i ensures s.workers[w].Holds(i) ==> Held(s, i) {}
    assert forall i :: InHeap(t, i) <==> InHeap(s, i);
    hide InHeap, Held, HeapDistinct, WorkersDistinct;
  }

  lemma PopKeepsPlaced(s: State, w: nat, e: Entry)
    requires Inv(s) && w < |s.workers| && s.workers[w].Saw? && e in s.heap
    ensures Placed(At(s.(heap := s.heap - {e}), w, Popped(e.item)))
  {
    var t := At(s.(heap := s.heap - {e}), w, Popped(e.item));
    forall i
      ensures Held(t, i) <==> i == e.item || Held(s, i)
      ensures InHeap(t, i) <==> InHeap(s, i) && i != e.item
    {
      HeldAfter(s, w, Popped(e.item), i);
      assert Held(t, i) == Held(At(s, w, Popped(e.item)), i);
      InHeapAfterPop(s, t, e, i);
    }
    InHeapEntry(s, e);
    hide InHeap, Held, HeapDistinct, WorkersDistinct;
  }

  lemma PushKeepsPlaced(s: State, t: State, w: nat, e: Entry)
    requires Inv(s) && w < |s.workers| && s.workers[w].Returning? && e.item == s.workers[w].item
    requires t.heap == s.heap + {e} && t.workers == s.workers[w := Top]
    requires t.registered == s.registered && t.retired == s.retired
    ensures Placed(t)
  {
    forall i
      ensures Held(t, i) <==> Held(s, i) && i != e.item
      ensures InHeap(t, i) <==> InHeap(s, i) || i == e.item
    {
      HeldAfter(s, w, Top, i);
      assert Held(t, i) == Held(At(s, w, Top), i);
      InHeapAfterPush(s, t, e, i);
    }
    HeldHere(s, w, e.item);
    hide InHeap, Held, HeapDistinct, WorkersDistinct;
  }

  lemma EntriesOf(items: seq<Item>, dues: seq<int>, seqNo: nat)
    requires |items| == |dues| && Distinct(items)
    ensures var added := Entries(items, dues, seqNo);
      && (forall e :: e in added ==> e.item in items && seqNo < e.seqNo <= seqNo + |items|)
      && (forall e, f :: e in added && f in added && (e.item == f.item || e.seqNo == f.seqNo) ==> e == f)
      && (forall i :: i in items ==> exists e :: e in added && e.item == i)
  {
    forall i | i in items
      ensures exists e :: e in Entries(items, dues, seqNo) && e.item == i
    {
      var k :| 0 <= k < |items| && items[k] == i;
      assert Entry(dues[k], seqNo + 1 + k, items[k]) in Entries(items, dues, seqNo);
    }
  }

  lemma RegisterKeepsInv(s: State, items: seq<Item>, dues: seq<int>, t: State)
    requires Inv(s) && Step(s, Register(items, dues), t)
    ensures Inv(t)
  {
    EntriesOf(items, dues, s.seqNo);
    var added := Entries(items, dues, s.seqNo);
    assert HeapDistinct(t) by {
      forall e | e in s.heap
        ensures e.item in s.registered
      {
        InHeapEntry(s, e);
      }
    }
    forall i
      ensures InHeap(t, i) <==> InHeap(s, i) || i in items
      ensures Held(t, i) <==> Held(s, i)
    {
      if InHeap(s, i) {
        var e :| e in s.heap && e.item == i;
        assert e in t.heap;
      }
      if i in items {
        var e :| e in added && e.item == i;
        assert e in t.heap;
      }
    }
    hide InHeap, Held, HeapDistinct;
  }

  lemma PopKeepsInv(s: State, w: nat, t: State)
    requires Inv(s) && Step(s, Pop(w), t)
    ensures Inv(t)
  {
    if exists e :: IsTop(s.heap, e) && e.due <= s.now {
      var e :| IsTop(s.heap, e) && e.due <= s.now && t == At(s.(heap := s.heap - {e}), w, Popped(e.item));
      PopKeepsPlaced(s, w, e);
      InHeapEntry(s, e);
      hide InHeap, IsTop;
      assert !Held(s, e.item);
      assert forall v :: 0 <= v < |s.workers| ==> !s.workers[v].Holds(e.item);
    } else {
      MoveKeepsPlaced(s, t, w, Top);
    }
  }

  lemma MoveKeepsInv(s: State, a: Action, t: State)
    requires Inv(s) && Step(s, a, t)
    requires a.Peek? || a.Lock? || a.Check? || a.Finish?
    ensures Inv(t)
  {
    MoveKeepsPlaced(s, t, a.w, t.workers[a.w]);
    hide InHeap, Held, Placed;
  }

  lemma PushKeepsInv(s: State, w: nat, t: State)
    requires Inv(s) && Step(s, Push(w), t)
    ensures Inv(t)
  {
    var phase := s.workers[w];
    var e := Entry(s.now + phase.delay, s.seqNo + 1, phase.item);
    PushKeepsPlaced(s, t, w, e);
    HeldHere(s, w, e.item);
    assert HeapDistinct(t) by {
      forall f | f in s.heap
        ensures f.item != e.item
      {
        InHeapEntry(s, f);
      }
    }
    hide InHeap, Held, Placed, HeapDistinct;
  }

  lemma OutsideKeepsInv(s: State, a: Action, t: State)
    requires Inv(s) && Step(s, a, t)
    requires a.Tick? || a.ReaderLock? || a.ReaderUnlock? || a.Collapse? || a.Close?
    ensures Inv(t)
  {
    assert forall i :: InHeap(t, i) <==> InHeap(s, i);
    assert forall i :: Held(t, i) <==> Held(s, i);
    if a.Collapse? {
      forall w | 0 <= w < |s.workers| && s.workers[w].Servicing?
        ensures s.workers[w].item.owner != a.owner
      {
        assert !s.workers[w].Locks(a.owner);
      }
    }
    hide InHeap, Held;
  }

  lemma StepKeepsInv(s: State, a: Action, t: State)
    requires Inv(s) && Step(s, a, t)
    ensures Inv(t)
  {
    hide Inv, Step;
    match a
    case Register(items, dues) => RegisterKeepsInv(s, items, dues, t);
    case Pop(w) => PopKeepsInv(s, w, t);
    case Push(w) => PushKeepsInv(s, w, t);
    case Tick(_) => OutsideKeepsInv(s, a, t);
    case ReaderLock(_) => OutsideKeepsInv(s, a, t);
    case ReaderUnlock(_) => OutsideKeepsInv(s, a, t);
    case Collapse(_) => OutsideKeepsInv(s, a, t);
    case Close(_) => OutsideKeepsInv(s, a, t);
    case _ => MoveKeepsInv(s, a, t);
  }

  // ---------------------------------------------------------------- whole runs

  /** states[0] is the start, and states[k + 1] follows states[k] by actions[k]. */
  ghost predicate Run(states: seq<State>, actions: seq<Action>, workers: nat) {
    && |states| == |actions| + 1 && states[0] == Initial(workers)
    && forall k :: 0 <= k < |actions| ==> Step(states[k], actions[k], states[k + 1])
  }

  lemma {:induction false} EveryStateInv(states: seq<State>, actions: seq<Action>, workers: nat, k: nat)
    requires Run(states, actions, workers) && k < |states|
    ensures Inv(states[k])
    decreases k
  {
    if k > 0 {
      EveryStateInv(states, actions, workers, k - 1);
      assert Step(states[k - 1], actions[k - 1], states[k]);
      StepKeepsInv(states[k - 1], actions[k - 1], states[k]);
    }
  }

  /** Workers v and w are servicing items of the same owner. */
  predicate SameOwner(s: State, v: int, w: int) {
    && 0 <= v < |s.workers| && 0 <= w < |s.workers| && s.workers[v].Servicing? && s.workers[w].Servicing?
    && s.workers[v].item.owner == s.workers[w].item.owner
  }

  /** For any number of workers and any interleaving: a registered item is in the heap, with one
      worker, or retired, and only one of these; no two workers service items of one owner at once;
      and a worker never services an item of an owner whose removed flag is set. */
  lemma OneWorkerAtATime(states: seq<State>, actions: seq<Action>, workers: nat, k: nat)
    requires Run(states, actions, workers) && k < |states|
    ensures var s := states[k];
      && (forall i :: i in s.registered ==> OnePlace(s, i))
      && (forall e, f :: e in s.heap && f in s.heap && e.item == f.item ==> e == f)
      && (forall v, w :: SameOwner(s, v, w) ==> v == w)
      && (forall w :: 0 <= w < |s.workers| && s.workers[w].Servicing? ==>
            s.workers[w].item.owner !in s.removed && s.workers[w].item.owner !in s.closed)
  {
    EveryStateInv(states, actions, workers, k);
    var s := states[k];
    forall v, w | SameOwner(s, v, w)
      ensures v == w
    {
      assert s.workers[v].Locks(s.workers[v].item.owner) && s.workers[w].Locks(s.workers[v].item.owner);
    }
    hide InHeap, Held, Step, Run;
  }

  /** Entries are totally ordered by due time and number, so the heap never compares owners. */
  lemma TiesNeverReachOwners(states: seq<State>, actions: seq<Action>, workers: nat, k: nat, e: Entry, f: Entry)
    requires Run(states, actions, workers) && k < |states|
    requires e in states[k].heap && f in states[k].heap && e.due == f.due && e.seqNo == f.seqNo
    ensures e == f
  {
    EveryStateInv(states, actions, workers, k);
  }

  // ---------------------------------------------------------------- dropping one keeps the rest

  /** Action k retires item i. */
  ghost predicate Drops(s: State, a: Action, i: Item) {
    || (a.Check? && a.w < |s.workers| && s.workers[a.w] == Inside(i) && i.owner in s.removed)
    || (a.Finish? && a.w < |s.workers| && s.workers[a.w] == Servicing(i) && a.raised)
  }

  lemma OnlyDropsRetire(s: State, a: Action, t: State, i: Item)
    requires Step(s, a, t) && i !in s.retired && i in t.retired
    ensures Drops(s, a, i)
  {
    hide Free, IsTop, Entries;
  }

  lemma RegisteredStays(s: State, a: Action, t: State, i: Item)
    requires Step(s, a, t) && i in s.registered
    ensures i in t.registered
  {
    hide Free, IsTop, Entries;
  }

  lemma UndroppedStays(states: seq<State>, actions: seq<Action>, workers: nat, i: Item, k: nat)
    requires Run(states, actions, workers) && k < |actions|
    requires i in states[k].registered && i !in states[k].retired && !Drops(states[k], actions[k], i)
    ensures i in states[k + 1].registered && i !in states[k + 1].retired
  {
    assert Step(states[k], actions[k], states[k + 1]);
    hide *;
    RegisteredStays(states[k], actions[k], states[k + 1], i);
    if i in states[k + 1].retired {
      OnlyDropsRetire(states[k], actions[k], states[k + 1], i);
    }
  }

  lemma ScheduledNow(states: seq<State>, actions: seq<Action>, workers: nat, i: Item, k: nat)
    requires Run(states, actions, workers) && k < |states|
    requires i in states[k].registered && i !in states[k].retired
    ensures InHeap(states[k], i) != Held(states[k], i)
  {
    EveryStateInv(states, actions, workers, k);
    hide Run, InHeap, Held;
  }

  lemma RunLength(states: seq<State>, actions: seq<Action>, workers: nat)
    requires Run(states, actions, workers)
    ensures |states| == |actions| + 1
  {
    hide Step;
  }

  /** An item whose owner is never collapsed and whose own service never raises stays scheduled,
      whatever happens to every other item: it is in the heap or with exactly one worker. */
  lemma {:induction false} OthersStayScheduled(states: seq<State>, actions: seq<Action>, workers: nat, i: Item,
                                               start: nat, stop: nat)
    requires Run(states, actions, workers) && start <= stop < |states|
    requires i in states[start].registered && i !in states[start].retired
    requires forall k :: start <= k < stop ==> !Drops(states[k], actions[k], i)
    ensures i in states[stop].registered && i !in states[stop].retired
    ensures InHeap(states[stop], i) != Held(states[stop], i)
    decreases stop
  {
    hide *;
    RunLength(states, actions, workers);
    if start < stop {
      OthersStayScheduled(states, actions, workers, i, start, stop - 1);
      UndroppedStays(states, actions, workers, i, stop - 1);
    }
    ScheduledNow(states, actions, workers, i, stop);
  }

  // ---------------------------------------------------------------- what is dropped stays dropped

  lemma DropsRetire(s: State, a: Action, t: State, i: Item)
    requires Step(s, a, t) && Drops(s, a, i)
    ensures i in t.retired
  {
    hide Free, IsTop, Entries;
  }

  lemma RetiredStays(s: State, a: Action, t: State, i: Item)
    requires Step(s, a, t) && i in s.retired
    ensures i in t.retired
  {
    hide Free, IsTop, Entries;
  }

  lemma StepOfRun(states: seq<State>, actions: seq<Action>, workers: nat, k: nat)
    requires Run(states, actions, workers) && k < |actions|
    ensures |states| == |actions| + 1 && Step(states[k], actions[k], states[k + 1])
  {
    hide Step;
  }

  lemma RetiredIsNowhere(s: State, i: Item)
    requires Inv(s) && i in s.retired
    ensures !InHeap(s, i) && forall w :: 0 <= w < |s.workers| ==> !s.workers[w].Holds(i)
  {
    assert !Held(s, i);
    hide InHeap, HeapDistinct, WorkersDistinct, LocksDistinct, NoneTouched;
  }

  /** An item whose service raised, or that was found with its owner removed, is in the heap and with
      a worker never again: no box whose promotion raised is hopped a second time. */
  lemma {:induction false} DroppedForEver(states: seq<State>, actions: seq<Action>, workers: nat, i: Item, k: nat,
                                          later: nat)
    requires Run(states, actions, workers) && k < |actions| && k < later < |states|
    requires Drops(states[k], actions[k], i)
    ensures i in states[later].retired && !InHeap(states[later], i)
    ensures forall w :: 0 <= w < |states[later].workers| ==> !states[later].workers[w].Holds(i)
    decreases later
  {
    hide *;
    RunLength(states, actions, workers);
    StepOfRun(states, actions, workers, later - 1);
    if later == k + 1 {
      DropsRetire(states[k], actions[k], states[k + 1], i);
    } else {
      DroppedForEver(states, actions, workers, i, k, later - 1);
      RetiredStays(states[later - 1], actions[later - 1], states[later], i);
    }
    EveryStateInv(states, actions, workers, later);
    RetiredIsNowhere(states[later], i);
  }

  /** Retired is exactly what some action dropped. */
  lemma {:induction false} RetiredExactly(states: seq<State>, actions: seq<Action>, workers: nat, i: Item, k: nat)
    requires Run(states, actions, workers) && k < |states|
    ensures i in states[k].retired <==> exists j :: 0 <= j < k && Drops(states[j], actions[j], i)
    decreases k
  {
    hide *;
    RunLength(states, actions, workers);
    if k == 0 {
      NoneRetiredAtFirst(states, actions, workers);
    } else {
      RetiredExactly(states, actions, workers, i, k - 1);
      StepOfRun(states, actions, workers, k - 1);
      var s, a, t := states[k - 1], actions[k - 1], states[k];
      if i in s.retired {
        RetiredStays(s, a, t, i);
      } else if i in t.retired {
        OnlyDropsRetire(s, a, t, i);
      } else if Drops(s, a, i) {
        DropsRetire(s, a, t, i);
      }
    }
  }

  lemma NoneRetiredAtFirst(states: seq<State>, actions: seq<Action>, workers: nat)
    requires Run(states, actions, workers)
    ensures states[0].retired == {}
  {
    hide Step;
  }

  // ---------------------------------------------------------------- when an item is serviced

  /** Only a due entry is taken, and of the due ones the first in the order of the heap. */
  lemma OnlyFirstDueIsTaken(s: State, a: Action, t: State, w: nat, i: Item)
    requires Step(s, a, t) && w < |s.workers| == |t.workers|
    requires t.workers[w] == Popped(i) && s.workers[w] != Popped(i)
    ensures exists e ::
      && e in s.heap && e.item == i && e !in t.heap && e.due <= s.now
      && forall f :: f in s.heap ==> e.due < f.due || (e.due == f.due && e.seqNo <= f.seqNo)
  {
    hide Free, Entries;
  }

  /** A service begins only in the check that finds the owner neither removed nor paused, by the
      worker that has its lock; and then nobody else is inside that owner. */
  lemma ServiceBegins(s: State, a: Action, t: State, w: nat, i: Item)
    requires Inv(s) && Step(s, a, t) && w < |s.workers| == |t.workers|
    requires t.workers[w] == Servicing(i) && s.workers[w] != Servicing(i)
    ensures a.Check? && a.w == w && !a.paused && s.workers[w] == Inside(i) && i.owner !in s.removed
    ensures i.owner !in s.readers && forall v :: 0 <= v < |s.workers| && s.workers[v].Locks(i.owner) ==> v == w
  {
    assert s.workers[w].Locks(i.owner);
    hide Free, IsTop, Entries, HeapDistinct, WorkersDistinct, Placed;
  }

  /** The item is not before its time: nobody is servicing it, and nobody can before `limit`. */
  ghost predicate Rests(s: State, i: Item, limit: int) {
    || s.now >= limit
    || ((forall e :: e in s.heap && e.item == i ==> e.due >= limit)
        && (forall w :: 0 <= w < |s.workers| && s.workers[w].Holds(i) ==>
              s.workers[w].Returning? && s.now + s.workers[w].delay >= limit))
  }

  lemma StepKeepsResting(s: State, a: Action, t: State, i: Item, limit: int)
    requires Step(s, a, t) && Rests(s, i, limit) && i in s.registered
    ensures Rests(t, i, limit)
  {
    hide Free, Drops;
    if a.Pop? {
      hide Entries;
    } else if a.Register? {
      var added := Entries(a.items, a.dues, s.seqNo);
      assert forall e :: e in added ==> e.item in a.items;
      hide Entries, IsTop;
    } else {
      hide IsTop, Entries;
    }
  }

  lemma FinishRests(s: State, a: Action, t: State, i: Item)
    requires Inv(s) && Step(s, a, t) && a.Finish? && !a.raised && a.w < |s.workers| && s.workers[a.w] == Servicing(i)
    ensures Rests(t, i, s.now + a.delay) && i in t.registered
  {
    assert s.workers[a.w].Holds(i);
    assert Held(s, i) && !InHeap(s, i);
    hide Free, IsTop, Entries, LocksDistinct, NoneTouched;
  }

  lemma {:induction false} RestsAlongRun(states: seq<State>, actions: seq<Action>, workers: nat, i: Item, k: nat,
                                         later: nat)
    requires Run(states, actions, workers) && k < |actions| && k < later < |states|
    requires actions[k].Finish? && !actions[k].raised && actions[k].w < |states[k].workers|
    requires states[k].workers[actions[k].w] == Servicing(i)
    ensures Rests(states[later], i, states[k].now + actions[k].delay) && i in states[later].registered
    decreases later
  {
    hide *;
    RunLength(states, actions, workers);
    StepOfRun(states, actions, workers, later - 1);
    if later == k + 1 {
      EveryStateInv(states, actions, workers, k);
      FinishRests(states[k], actions[k], states[k + 1], i);
    } else {
      RestsAlongRun(states, actions, workers, i, k, later - 1);
      StepKeepsResting(states[later - 1], actions[later - 1], states[later], i, states[k].now + actions[k].delay);
      RegisteredStays(states[later - 1], actions[later - 1], states[later], i);
    }
  }

  /** Between two services of an item at least the delay the first one returned passes. */
  lemma ServedNoSoonerThanDelay(states: seq<State>, actions: seq<Action>, workers: nat, i: Item, k: nat, later: nat,
                                w: nat)
    requires Run(states, actions, workers) && k < |actions| && k < later < |states|
    requires actions[k].Finish? && !actions[k].raised && actions[k].w < |states[k].workers|
    requires states[k].workers[actions[k].w] == Servicing(i)
    requires w < |states[later].workers| && states[later].workers[w] == Servicing(i)
    ensures states[later].now >= states[k].now + actions[k].delay
  {
    RestsAlongRun(states, actions, workers, i, k, later);
    assert states[later].workers[w].Holds(i);
    hide Run;
  }

  /** Nothing is due before it was put back with its delay: a push leaves the item's only entry at
      the present time plus the delay. */
  lemma PushedWithDelay(s: State, a: Action, t: State, w: nat, e: Entry)
    requires Inv(s) && Step(s, a, t) && w < |s.workers| == |t.workers| && s.workers[w].Returning?
      && !t.workers[w].Returning?
    requires e in t.heap && e.item == s.workers[w].item
    ensures t.workers[w].Top? && e.due == s.now + s.workers[w].delay
  {
    assert s.workers[w].Holds(e.item);
    assert Held(s, e.item) && !InHeap(s, e.item);
    hide Free, IsTop, Entries, LocksDistinct, NoneTouched;
  }

  // ---------------------------------------------------------------- one whole turn

  /** What a worker's turn finds in the owner of the item it took. */
  datatype Found = Gone | Paused(delay: nat) | Served(delay: nat) | Raising

  /** What a whole turn does: an item of a removed owner, or whose service raises, is retired; every
      other goes back with its delay. */
  function Turned(s: State, e: Entry, found: Found): State {
    if found.Gone? || found.Raising? then s.(heap := s.heap - {e}, retired := s.retired + {e.item})
    else s.(heap := s.heap - {e} + {Entry(s.now + found.delay, s.seqNo + 1, e.item)}, seqNo := s.seqNo + 1)
  }

  /** A worker that starts over can go through with a turn whenever an entry is due and the owner's
      lock is free, and that is what the turn does. */
  lemma WholeTurn(s: State, w: nat, e: Entry, found: Found) returns (states: seq<State>, actions: seq<Action>)
    requires w < |s.workers| && s.workers[w].Top? && IsTop(s.heap, e) && e.due <= s.now && Free(s, e.item.owner)
    requires found.Gone? <==> e.item.owner in s.removed
    ensures Path(states, actions) && states[0] == s && states[|actions|] == Turned(s, e, found)
  {
    hide *;
    var taken := s.(heap := s.heap - {e});
    TakingTurn(s, w, e);
    TurnedIs(s, e, found);
    states, actions := Stay(s);
    states, actions := Extend(states, actions, Peek(w), At(s, w, Saw));
    states, actions := Extend(states, actions, Pop(w), At(taken, w, Popped(e.item)));
    states, actions := Extend(states, actions, Lock(w), At(taken, w, Inside(e.item)));
    if found.Gone? {
      GoneTurn(taken, w, e.item);
      states, actions := Extend(states, actions, Check(w, false, 0), Turned(s, e, found));
    } else if found.Paused? {
      PausedTurn(taken, w, e.item, found.delay);
      var returning := At(taken, w, Returning(e.item, found.delay));
      states, actions := Extend(states, actions, Check(w, true, found.delay), returning);
      states, actions := Extend(states, actions, Push(w), Turned(s, e, found));
    } else {
      states, actions := ServiceTurn(taken, w, e.item, found, states, actions, Turned(s, e, found));
    }
  }

  lemma ServiceTurn(s: State, w: nat, i: Item, found: Found, begun: seq<State>, acts: seq<Action>, end: State)
    returns (states: seq<State>, actions: seq<Action>)
    requires w < |s.workers| && s.workers[w].Top? && i.owner !in s.removed && (found.Served? || found.Raising?)
    requires Path(begun, acts) && |begun| == |acts| + 1 && begun[|acts|] == At(s, w, Inside(i))
    requires end == if found.Raising? then s.(retired := s.retired + {i})
                    else s.(heap := s.heap + {Entry(s.now + found.delay, s.seqNo + 1, i)}, seqNo := s.seqNo + 1)
    ensures Path(states, actions) && |states| == |actions| + 1 && states[0] == begun[0] && states[|actions|] == end
  {
    hide *;
    RaisingTurn(s, w, i);
    states, actions := Extend(begun, acts, Check(w, false, 0), At(s, w, Servicing(i)));
    if found.Raising? {
      states, actions := Extend(states, actions, Finish(w, true, 0), end);
    } else {
      ServedTurn(s, w, i, found.delay);
      states, actions := Extend(states, actions, Finish(w, false, found.delay), At(s, w, Returning(i, found.delay)));
      states, actions := Extend(states, actions, Push(w), end);
    }
  }

  ghost predicate Path(states: seq<State>, actions: seq<Action>) {
    && |states| == |actions| + 1
    && forall k :: 0 <= k < |actions| ==> Step(states[k], actions[k], states[k + 1])
  }

  lemma Stay(s: State) returns (states: seq<State>, actions: seq<Action>)
    ensures Path(states, actions) && |actions| == 0 && |states| == 1 && states[0] == s
  {
    states, actions := [s], [];
  }

  lemma Extend(states: seq<State>, actions: seq<Action>, a: Action, t: State)
    returns (states': seq<State>, actions': seq<Action>)
    requires Path(states, actions) && |states| == |actions| + 1 && Step(states[|actions|], a, t)
    ensures Path(states', actions') && |states'| == |actions'| + 1 == |states| + 1
    ensures states'[0] == states[0] && states'[|actions'|] == t
  {
    hide Step;
    states', actions' := states + [t], actions + [a];
  }

  lemma TurnedIs(s: State, e: Entry, found: Found)
    ensures var taken := s.(heap := s.heap - {e});
      Turned(s, e, found)
      == if found.Gone? || found.Raising? then taken.(retired := taken.retired + {e.item})
         else
           taken.(heap := taken.heap + {Entry(taken.now + found.delay, taken.seqNo + 1, e.item)},
                  seqNo := taken.seqNo + 1)
  {
  }

  lemma AtTwice(s: State, w: nat, p: Phase, q: Phase)
    requires w < |s.workers|
    ensures At(At(s, w, p), w, q) == At(s, w, q) && (s.workers[w] == q ==> At(s, w, q) == s)
  {
  }

  lemma TakingTurn(s: State, w: nat, e: Entry)
    requires w < |s.workers| && s.workers[w].Top? && IsTop(s.heap, e) && e.due <= s.now && Free(s, e.item.owner)
    ensures var taken := s.(heap := s.heap - {e});
      && Step(s, Peek(w), At(s, w, Saw)) && Step(At(s, w, Saw), Pop(w), At(taken, w, Popped(e.item)))
      && Step(At(taken, w, Popped(e.item)), Lock(w), At(taken, w, Inside(e.item)))
  {
    var taken := s.(heap := s.heap - {e});
    AtTwice(taken, w, Saw, Popped(e.item));
    AtTwice(taken, w, Popped(e.item), Inside(e.item));
    hide IsTop;
  }

  lemma GoneTurn(s: State, w: nat, i: Item)
    requires w < |s.workers| && s.workers[w].Top? && i.owner in s.removed
    ensures Step(At(s, w, Inside(i)), Check(w, false, 0), s.(retired := s.retired + {i}))
  {
    AtTwice(s.(retired := s.retired + {i}), w, Inside(i), Top);
  }

  lemma PausedTurn(s: State, w: nat, i: Item, delay: nat)
    requires w < |s.workers| && s.workers[w].Top? && i.owner !in s.removed
    ensures Step(At(s, w, Inside(i)), Check(w, true, delay), At(s, w, Returning(i, delay)))
    ensures Step(At(s, w, Returning(i, delay)), Push(w),
                 s.(heap := s.heap + {Entry(s.now + delay, s.seqNo + 1, i)}, seqNo := s.seqNo + 1))
  {
    AtTwice(s, w, Inside(i), Returning(i, delay));
    var end := s.(heap := s.heap + {Entry(s.now + delay, s.seqNo + 1, i)}, seqNo := s.seqNo + 1);
    AtTwice(end, w, Returning(i, delay), Top);
  }

  lemma ServedTurn(s: State, w: nat, i: Item, delay: nat)
    requires w < |s.workers| && s.workers[w].Top? && i.owner !in s.removed
    ensures Step(At(s, w, Inside(i)), Check(w, false, 0), At(s, w, Servicing(i)))
    ensures Step(At(s, w, Servicing(i)), Finish(w, false, delay), At(s, w, Returning(i, delay)))
    ensures Step(At(s, w, Returning(i, delay)), Push(w),
                 s.(heap := s.heap + {Entry(s.now + delay, s.seqNo + 1, i)}, seqNo := s.seqNo + 1))
  {
    AtTwice(s, w, Inside(i), Servicing(i));
    AtTwice(s, w, Servicing(i), Returning(i, delay));
    PausedTurn(s, w, i, delay);
  }

  lemma RaisingTurn(s: State, w: nat, i: Item)
    requires w < |s.workers| && s.workers[w].Top? && i.owner !in s.removed
    ensures Step(At(s, w, Inside(i)), Check(w, false, 0), At(s, w, Servicing(i)))
    ensures Step(At(s, w, Servicing(i)), Finish(w, true, 0), s.(retired := s.retired + {i}))
  {
    AtTwice(s, w, Inside(i), Servicing(i));
    AtTwice(s.(retired := s.retired + {i}), w, Servicing(i), Top);
  }
}
