/** splice_move: a writer thread, the splicing loop and a reader thread over two bounded pipes. */
module Splice {
  import opened Bytes
  import opened Wrappers

  const CHUNK: nat := 64 * 1024

  /** `unsent` is what the writer has not written, `remaining` the splicer's own counter; the three
      flags say which thread has finished and closed its ends. */
  datatype State = State(
    unsent: Blob, pipe1: Blob, remaining: nat, pipe2: Blob, received: Blob,
    writerDone: bool, splicerDone: bool, readerDone: bool)

  datatype Capacities = Capacities(first: nat, second: nat)

  /** Each thread moves n bytes, or ends its loop.  WriteFails is a write into a pipe whose read
      end is closed; SpliceEnds is splice() returning 0. */
  datatype Action =
    | Write(n: nat) | WriterEnds | WriteFails
    | Splice(n: nat) | SplicerEnds | SpliceEnds
    | Read(n: nat) | ReaderEnds

  ghost predicate Step(c: Capacities, s: State, a: Action, t: State) {
    match a
    case Write(n) =>
      && !s.writerDone && !s.splicerDone && 1 <= n <= Min(CHUNK, |s.unsent|) && |s.pipe1| + n <= c.first
      && t == s.(unsent := s.unsent[n..], pipe1 := s.pipe1 + s.unsent[..n])
    case WriterEnds => !s.writerDone && s.unsent == [] && t == s.(writerDone := true)
    case WriteFails => !s.writerDone && s.unsent != [] && s.splicerDone && t == s.(writerDone := true)
    case Splice(n) =>
      && !s.splicerDone && 1 <= n <= Min(CHUNK, s.remaining) && n <= |s.pipe1| && |s.pipe2| + n <= c.second
      && t == s.(pipe1 := s.pipe1[n..], pipe2 := s.pipe2 + s.pipe1[..n], remaining := s.remaining - n)
    case SplicerEnds => !s.splicerDone && s.remaining == 0 && t == s.(splicerDone := true)
    case SpliceEnds => !s.splicerDone && s.remaining > 0 && s.pipe1 == [] && s.writerDone
      && t == s.(splicerDone := true)
    case Read(n) =>
      && !s.readerDone && 1 <= n <= Min(CHUNK, |s.pipe2|)
      && t == s.(pipe2 := s.pipe2[n..], received := s.received + s.pipe2[..n])
    case ReaderEnds => !s.readerDone && s.pipe2 == [] && s.splicerDone && t == s.(readerDone := true)
  }

  function Initial(data: Blob): State {
    State(data, [], |data|, [], [], false, false, false)
  }

  /** Nothing is lost, duplicated or reordered; the counter is what is still ahead of the splicer. */
  ghost predicate Inv(c: Capacities, data: Blob, s: State) {
    && s.received + s.pipe2 + s.pipe1 + s.unsent == data
    && |s.pipe1| <= c.first && |s.pipe2| <= c.second
    && s.remaining == |s.pipe1| + |s.unsent|
    && (s.writerDone ==> s.unsent == [])
    && (s.splicerDone ==> s.remaining == 0)
    && (s.readerDone ==> s.splicerDone && s.pipe2 == [])
  }

  lemma StepKeepsInv(c: Capacities, data: Blob, s: State, a: Action, t: State)
    requires Inv(c, data, s) && Step(c, s, a, t)
    ensures Inv(c, data, t)
    ensures !a.WriteFails? && !a.SpliceEnds?
  {
    match a
    case Write(n) =>
      assert s.received + s.pipe2 + (s.pipe1 + s.unsent[..n]) + s.unsent[n..]
        == s.received + s.pipe2 + s.pipe1 + s.unsent;
    case Splice(n) =>
      assert s.received + (s.pipe2 + s.pipe1[..n]) + s.pipe1[n..] + s.unsent
        == s.received + s.pipe2 + s.pipe1 + s.unsent;
    case Read(n) =>
      assert (s.received + s.pipe2[..n]) + s.pipe2[n..] + s.pipe1 + s.unsent
        == s.received + s.pipe2 + s.pipe1 + s.unsent;
    case _ =>
  }

  predicate Finished(s: State) {
    s.writerDone && s.splicerDone && s.readerDone
  }

  /** With any positive capacities some thread can move until all have finished. */
  lemma SomeThreadCanMove(c: Capacities, data: Blob, s: State)
    requires c.first > 0 && c.second > 0 && Inv(c, data, s) && !Finished(s)
    ensures exists a, t :: Step(c, s, a, t)
  {
    if !s.readerDone && s.pipe2 != [] {
      assert Step(c, s, Read(1), s.(pipe2 := s.pipe2[1..], received := s.received + s.pipe2[..1]));
    } else if !s.readerDone && s.splicerDone {
      assert Step(c, s, ReaderEnds, s.(readerDone := true));
    } else if !s.splicerDone && s.remaining == 0 {
      assert Step(c, s, SplicerEnds, s.(splicerDone := true));
    } else if !s.splicerDone && s.pipe1 != [] {
      assert Step(c, s, Splice(1),
        s.(pipe1 := s.pipe1[1..], pipe2 := s.pipe2 + s.pipe1[..1], remaining := s.remaining - 1));
    } else if s.unsent == [] {
      assert Step(c, s, WriterEnds, s.(writerDone := true));
    } else {
      assert Step(c, s, Write(1), s.(unsent := s.unsent[1..], pipe1 := s.pipe1 + s.unsent[..1]));
    }
  }

  /** Every byte has up to three moves to make, every thread one ending. */
  function Weight(s: State): nat {
    3 * |s.unsent| + 2 * |s.pipe1| + |s.pipe2|
    + (if s.writerDone then 0 else 1) + (if s.splicerDone then 0 else 1) + (if s.readerDone then 0 else 1)
  }

  lemma StepLosesWeight(c: Capacities, s: State, a: Action, t: State)
    requires Step(c, s, a, t)
    ensures Weight(t) < Weight(s)
  {
  }

  /** What a step does to everything the induction carries: n is the number of steps so far. */
  lemma StepKeepsAll(c: Capacities, data: Blob, s: State, a: Action, t: State, n: nat)
    requires Step(c, s, a, t) && Inv(c, data, s) && Weight(s) + n <= 3 * |data| + 3
    ensures Inv(c, data, t) && Weight(t) + n + 1 <= 3 * |data| + 3
    ensures !a.WriteFails? && !a.SpliceEnds?
  {
    StepKeepsInv(c, data, s, a, t);
    StepLosesWeight(c, s, a, t);
    hide *;
  }

  lemma InitialInv(c: Capacities, data: Blob)
    ensures Inv(c, data, Initial(data)) && Weight(Initial(data)) == 3 * |data| + 3
  {
    assert [] + [] + [] + data == data;
  }

  ghost predicate Run(c: Capacities, data: Blob, states: seq<State>, actions: seq<Action>) {
    && |states| == |actions| + 1 && states[0] == Initial(data)
    && forall k :: 0 <= k < |actions| ==> Step(c, states[k], actions[k], states[k + 1])
  }

  /** Along any run, for any partial reads and writes: received, second pipe, first pipe and unsent
      concatenate to the input, no write fails, and no splice ends early. */
  lemma {:induction false} EveryStateInv(c: Capacities, data: Blob, states: seq<State>, actions: seq<Action>, k: nat)
    requires Run(c, data, states, actions) && k < |states|
    ensures Inv(c, data, states[k]) && Weight(states[k]) + k <= 3 * |data| + 3
    ensures forall j :: 0 <= j < k ==> !actions[j].WriteFails? && !actions[j].SpliceEnds?
    decreases k
  {
    if k == 0 {
      InitialInv(c, data);
    } else {
      hide Inv, Step, Weight;
      EveryStateInv(c, data, states, actions, k - 1);
      StepKeepsAll(c, data, states[k - 1], actions[k - 1], states[k], k - 1);
    }
  }

  /** No run has more than 3 * len(data) + 3 steps, and one that can go no further has returned
      exactly the input. */
  lemma ResultEqualsInput(c: Capacities, data: Blob, states: seq<State>, actions: seq<Action>)
    requires c.first > 0 && c.second > 0 && Run(c, data, states, actions)
    ensures |actions| <= 3 * |data| + 3
    ensures var last := states[|actions|];
      (forall a, t :: !Step(c, last, a, t)) ==> Finished(last) && last.received == data
    ensures Finished(states[|actions|]) ==> states[|actions|].received == data
  {
    var last := states[|actions|];
    EveryStateInv(c, data, states, actions, |actions|);
    if !Finished(last) {
      SomeThreadCanMove(c, data, last);
    } else {
      assert last.received + [] + [] + [] == last.received;
    }
  }
}
