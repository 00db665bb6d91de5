/** The two-generation rotation: where a box is after any number of hops, and with which keys. */
module BoxRotation {
  import opened Bytes
  import opened Crypto
  import opened BoxModel
  import opened Wrappers

  /** A box as its constructor leaves it: every chunk under the first key. */
  function Fresh(p: Primitives, pieces: seq<Blob>, key: Blob, nextKey: Blob, nonces: seq<Blob>, dataLen: nat): Box
    requires |nonces| == |pieces|
  {
    Box(seq(|pieces|, i requires 0 <= i < |pieces| => Seal(p, pieces[i], key, nonces[i])),
        Flags(false, |pieces|), 0, 0, NewGuard(p, key), NewGuard(p, nextKey), dataLen)
  }

  lemma FreshHolds(p: Primitives, pieces: seq<Blob>, key: Blob, nextKey: Blob, nonces: seq<Blob>)
    requires |nonces| == |pieces| > 0
    ensures Holds(p, Fresh(p, pieces, key, nextKey, nonces, |Concat(pieces)|), pieces)
  {
    NewGuardHoldsKey(p, key);
    NewGuardHoldsKey(p, nextKey);
  }

  /** The trust arguments of the hops among the events, in order. */
  function Trusts(events: seq<Event>): seq<Trust> {
    if events == [] then []
    else
      var front, last := events[..|events| - 1], events[|events| - 1];
      Trusts(front) + if last.HopEvent? then [last.trust] else []
  }

  /** How many laps of n chunks h hops complete, and where in the next lap they end. */
  function Laps(h: nat, n: nat): nat
    requires n > 0
  {
    h / n
  }

  function Turn(h: nat, n: nat): nat
    requires n > 0
  {
    h % n
  }

  /** The number of hops in g laps. */
  function Hops(g: nat, n: nat): nat {
    g * n
  }

  /** The key of generation g: the first is the initial key, the second was derived when the box
      was made, and each later one by the hop that completed lap g - 1. */
  function Generation(p: Primitives, key: Blob, nextKey: Blob, trusts: seq<Trust>, n: nat, g: nat): Option<Blob> {
    if g == 0 then Some(key)
    else if g == 1 then Some(nextKey)
    else
      var last := Hops(g - 1, n) - 1;
      match Generation(p, key, nextKey, trusts, n, g - 1)
      case None => None
      case Some(k) => if 0 <= last < |trusts| then NextKey(p, k, trusts[last]) else None
  }

  lemma {:induction false} GenerationExtends(p: Primitives, key: Blob, nextKey: Blob, trusts: seq<Trust>,
                                             more: seq<Trust>, n: nat, g: nat)
    requires Generation(p, key, nextKey, trusts, n, g).Some?
    ensures Generation(p, key, nextKey, trusts + more, n, g) == Generation(p, key, nextKey, trusts, n, g)
    decreases g
  {
    if g >= 2 {
      GenerationExtends(p, key, nextKey, trusts, more, n, g - 1);
    }
  }

  /** Flags, cursor, hop count and keys after |trusts| hops. */
  ghost predicate Position(p: Primitives, b: Box, key: Blob, nextKey: Blob, trusts: seq<Trust>) {
    && b.Shaped()
    && b.hops == |trusts|
    && b.nextChunk == Turn(|trusts|, |b.chunks|)
    && (forall i :: 0 <= i < |b.chunks| ==> (b.onNext[i] <==> i < b.nextChunk))
    && KeysOf(p, b, key, nextKey, trusts, Laps(|trusts|, |b.chunks|))
  }

  /** The box is between generations g and g + 1. */
  ghost predicate KeysOf(p: Primitives, b: Box, key: Blob, nextKey: Blob, trusts: seq<Trust>, g: nat) {
    var lower := Generation(p, key, nextKey, trusts, |b.chunks|, g);
    var upper := Generation(p, key, nextKey, trusts, |b.chunks|, g + 1);
    lower.Some? && upper.Some? && ReadKey(p, b.current) == lower && ReadKey(p, b.next) == upper
  }

  lemma LapStep(h: nat, n: nat)
    requires n > 0
    ensures Turn(h, n) < n && (Turn(h, n) + 1) % n == Turn(h + 1, n)
    ensures Turn(h + 1, n) != 0 ==> Laps(h + 1, n) == Laps(h, n) && Turn(h + 1, n) == Turn(h, n) + 1
    ensures Turn(h + 1, n) == 0 ==>
      Laps(h + 1, n) == Laps(h, n) + 1 && Turn(h, n) + 1 == n && Hops(Laps(h, n) + 1, n) == h + 1
  {
    var q, r := h / n, h % n;
    if r + 1 < n {
      DivModUnique(h + 1, n, q, r + 1);
      DivModUnique(r + 1, n, 0, r + 1);
    } else {
      DivModUnique(h + 1, n, q + 1, 0);
      DivModUnique(n, n, 1, 0);
    }
  }

  lemma DivModUnique(a: nat, n: nat, q: nat, r: nat)
    requires n > 0 && r < n && a == q * n + r
    ensures a / n == q && a % n == r
  {
    var q', r' := a / n, a % n;
    SameQuotient(n, q, r, q', r');
  }

  lemma SameQuotient(n: nat, q: nat, r: nat, q': nat, r': nat)
    requires r < n && r' < n && q * n + r == q' * n + r'
    ensures q == q'
  {
    if q' < q {
      NextMultiple(n, q', q);
    } else if q < q' {
      NextMultiple(n, q, q');
    }
  }

  lemma NextMultiple(n: nat, low: nat, high: nat)
    requires low < high
    ensures high * n >= low * n + n
  {
    var gap := high - low - 1;
    assert (low + 1 + gap) * n == low * n + n + gap * n;
  }

  /** What a hop does when no chunk at or after the cursor has migrated: it moves one chunk to the
      next key, and promotes exactly when that was the last chunk of the lap. */
  lemma HopMigrates(p: Primitives, b: Box, nonce: Blob, trust: Trust, pieces: seq<Blob>)
    requires Holds(p, b, pieces) && !trust.FetchRaised?
    requires forall i :: 0 <= i < |b.chunks| ==> (b.onNext[i] <==> i < b.nextChunk)
    ensures var after, n := Hop(p, b, nonce, trust), |b.chunks|;
      && after.Finished? && after.box.Shaped() && |after.box.chunks| == n && after.box.hops == b.hops + 1
      && after.box.nextChunk == (b.nextChunk + 1) % n
      && after.box.chunks[b.nextChunk].nonce == nonce
      && (forall i :: 0 <= i < n && i != b.nextChunk ==> after.box.chunks[i] == b.chunks[i])
      && (after.box.nextChunk != 0 ==>
            && after.box.current == b.current && after.box.next == b.next
            && forall i :: 0 <= i < n ==> (after.box.onNext[i] <==> i <= b.nextChunk))
      && (after.box.nextChunk == 0 ==>
            && after.box.current == b.next
            && ReadKey(p, after.box.next) == NextKey(p, ReadKey(p, b.next).value, trust)
            && forall i :: 0 <= i < n ==> !after.box.onNext[i])
  {
    var currentKey, nextKey := ReadKey(p, b.current).value, ReadKey(p, b.next).value;
    ReencryptHolds(p, b.chunks[b.nextChunk], currentKey, nextKey, nonce, pieces[b.nextChunk]);
    assert Reencrypt(p, b.chunks[b.nextChunk], currentKey, nextKey, nonce).value.nonce == nonce;
    hide ChunkHolds, Reencrypt, Holds;
    NewGuardHoldsKey(p, NextKey(p, nextKey, trust).value);
    hide NewGuard, ReadKey, NextKey;
    if b.nextChunk + 1 < |b.chunks| {
      DivModUnique(b.nextChunk + 1, |b.chunks|, 0, b.nextChunk + 1);
    }
  }

  /** One hop, in a box that holds its data, moves to the next position; the branch for a chunk
      that is already on the next key is not taken. */
  lemma HopAdvances(p: Primitives, b: Box, nonce: Blob, trust: Trust, key: Blob, nextKey: Blob, trusts: seq<Trust>,
                    pieces: seq<Blob>)
    requires Holds(p, b, pieces) && Position(p, b, key, nextKey, trusts) && !trust.FetchRaised?
    ensures !b.onNext[b.nextChunk]
    ensures Hop(p, b, nonce, trust).Finished?
    ensures Position(p, Hop(p, b, nonce, trust).box, key, nextKey, trusts + [trust])
  {
    var n, h := |b.chunks|, |trusts|;
    var g := Laps(h, n);
    LapStep(h, n);
    HopMigrates(p, b, nonce, trust, pieces);
    GenerationExtends(p, key, nextKey, trusts, [trust], n, g);
    GenerationExtends(p, key, nextKey, trusts, [trust], n, g + 1);
    hide Holds, Hop, Turn, Laps, Hops, ReadKey, NextKey;
    if Turn(h + 1, n) == 0 {
      assert (trusts + [trust])[Hops(g + 1, n) - 1] == trust;
    }
  }

  lemma BounceKeepsPosition(p: Primitives, b: Box, inNext: bool, cell: nat, key: Blob, nextKey: Blob,
                            trusts: seq<Trust>)
    requires Position(p, b, key, nextKey, trusts)
    ensures Position(p, BounceCell(b, inNext, cell), key, nextKey, trusts)
  {
    if inNext && cell < |b.next| {
      BounceKeepsStored(b.next, cell);
    } else if !inNext && cell < |b.current| {
      BounceKeepsStored(b.current, cell);
    }
  }

  lemma {:induction false} AfterLast(p: Primitives, b: Box, front: seq<Event>, last: Event, pieces: seq<Blob>)
    requires b.Shaped() && Holds(p, b, pieces) && NoneRaise(front)
    ensures After(p, b, front + [last]) == After(p, After(p, b, front), [last])
    decreases |front|
  {
    if front == [] {
      assert front + [last] == [last];
    } else {
      assert (front + [last])[0] == front[0] && (front + [last])[1..] == front[1..] + [last];
      hide Hop, BounceCell, Holds;
      match front[0]
      case HopEvent(nonce, trust) =>
        HopKeepsData(p, b, nonce, trust, pieces);
        AfterLast(p, Hop(p, b, nonce, trust).box, front[1..], last, pieces);
      case BounceEvent(inNext, cell) =>
        BounceKeepsData(p, b, inNext, cell, pieces);
        AfterLast(p, BounceCell(b, inNext, cell), front[1..], last, pieces);
    }
  }

  predicate NoneRaise(events: seq<Event>) {
    forall e :: e in events && e.HopEvent? ==> !e.trust.FetchRaised?
  }

  /** After any interleaving of h hops, none of which raises, with cell bounces: flag i is set
      exactly when i < nextChunk, nextChunk is h mod the chunk count, and the current key is that
      of generation h div the chunk count. */
  lemma {:induction false} EveryStatePosition(p: Primitives, pieces: seq<Blob>, key: Blob, nextKey: Blob,
                                              nonces: seq<Blob>, events: seq<Event>)
    requires |nonces| == |pieces| > 0 && NoneRaise(events)
    ensures var b := After(p, Fresh(p, pieces, key, nextKey, nonces, |Concat(pieces)|), events);
      Position(p, b, key, nextKey, Trusts(events)) && Holds(p, b, pieces)
    decreases |events|
  {
    var b0 := Fresh(p, pieces, key, nextKey, nonces, |Concat(pieces)|);
    FreshHolds(p, pieces, key, nextKey, nonces);
    EveryStateHoldsData(p, b0, events, pieces);
    if events == [] {
      NewGuardHoldsKey(p, key);
      NewGuardHoldsKey(p, nextKey);
    } else {
      var front, last := events[..|events| - 1], events[|events| - 1];
      assert events == front + [last];
      EveryStatePosition(p, pieces, key, nextKey, nonces, front);
      hide Holds, Position, Hop, BounceCell, Fresh;
      AfterLast(p, b0, front, last, pieces);
      var b := After(p, b0, front);
      match last
      case HopEvent(nonce, trust) =>
        HopAdvances(p, b, nonce, trust, key, nextKey, Trusts(front), pieces);
        assert After(p, b, [last]) == Hop(p, b, nonce, trust).box by { assert [last][1..] == []; }
      case BounceEvent(inNext, cell) =>
        BounceKeepsPosition(p, b, inNext, cell, key, nextKey, Trusts(front));
        assert After(p, b, [last]) == BounceCell(b, inNext, cell) by { assert [last][1..] == []; }
        assert Trusts(front) + [] == Trusts(front);
    }
  }

  /** The "already on next" branch is unreachable: whenever a hop starts, the chunk it takes
      still waits on the current key. */
  lemma RefreshBranchUnreachable(p: Primitives, pieces: seq<Blob>, key: Blob, nextKey: Blob, nonces: seq<Blob>,
                                 events: seq<Event>)
    requires |nonces| == |pieces| > 0 && NoneRaise(events)
    ensures var b := After(p, Fresh(p, pieces, key, nextKey, nonces, |Concat(pieces)|), events);
      !b.onNext[b.nextChunk]
  {
    EveryStatePosition(p, pieces, key, nextKey, nonces, events);
  }

  // ---------------------------------------------------------------- without a trust group

  function Ratchet(p: Primitives, key: Blob, g: nat): Blob {
    if g == 0 then key else p.sha256(Ratchet(p, key, g - 1) + RATCHET)
  }

  /** Without a trust group, generation g is the initial key ratcheted g times. */
  lemma {:induction false} GenerationIsRatchet(p: Primitives, key: Blob, trusts: seq<Trust>, n: nat, g: nat)
    requires forall t :: t in trusts ==> t == NoTrustGroup
    requires Generation(p, key, Ratchet(p, key, 1), trusts, n, g).Some?
    ensures Generation(p, key, Ratchet(p, key, 1), trusts, n, g) == Some(Ratchet(p, key, g))
    decreases g
  {
    if g >= 2 {
      GenerationIsRatchet(p, key, trusts, n, g - 1);
      assert trusts[Hops(g - 1, n) - 1] in trusts;
    }
  }

  /** After h hops the current key is the initial key ratcheted h div chunk_count times. */
  lemma CurrentKeyIsRatchet(p: Primitives, pieces: seq<Blob>, key: Blob, nonces: seq<Blob>, events: seq<Event>)
    requires |nonces| == |pieces| > 0
    requires forall t :: t in Trusts(events) ==> t == NoTrustGroup
    requires NoneRaise(events)
    ensures var b := After(p, Fresh(p, pieces, key, Ratchet(p, key, 1), nonces, |Concat(pieces)|), events);
      ReadKey(p, b.current) == Some(Ratchet(p, key, Laps(|Trusts(events)|, |pieces|)))
  {
    var b := After(p, Fresh(p, pieces, key, Ratchet(p, key, 1), nonces, |Concat(pieces)|), events);
    hide *;
    EveryStatePosition(p, pieces, key, Ratchet(p, key, 1), nonces, events);
    PositionKey(p, b, key, Ratchet(p, key, 1), Trusts(events), pieces);
    GenerationIsRatchet(p, key, Trusts(events), |pieces|, Laps(|Trusts(events)|, |pieces|));
  }

  lemma PositionKey(p: Primitives, b: Box, key: Blob, nextKey: Blob, trusts: seq<Trust>, pieces: seq<Blob>)
    requires pieces != [] && Position(p, b, key, nextKey, trusts) && Holds(p, b, pieces)
    ensures var generation := Generation(p, key, nextKey, trusts, |pieces|, Laps(|trusts|, |pieces|));
      generation.Some? && ReadKey(p, b.current) == generation
  {
  }

  // ---------------------------------------------------------------- a promotion that raises

  /** If deriving the new key raises in the middle of a promotion, both guards hold the same key,
      every flag is set, and a snapshot still returns the original data. */
  lemma RaisedPromotionKeepsData(p: Primitives, b: Box, nonce: Blob, pieces: seq<Blob>)
    requires Holds(p, b, pieces) && Hop(p, b, nonce, FetchRaised).Raised?
    ensures var half := Hop(p, b, nonce, FetchRaised).box;
      && half.current == half.next && All(half.onNext) && half.nextChunk == 0 && half.hops == b.hops + 1
      && Snapshot(p, half) == Some(Concat(pieces))
  {
    HopKeepsData(p, b, nonce, FetchRaised, pieces);
    var half := Hop(p, b, nonce, FetchRaised).box;
    SnapshotIsData(p, half, [], pieces);
    ReencryptHolds(p, b.chunks[b.nextChunk],
      KeyOf(b, b.nextChunk, ReadKey(p, b.current).value, ReadKey(p, b.next).value),
                   ReadKey(p, b.next).value, nonce, pieces[b.nextChunk]);
    hide ChunkHolds, Snapshot, Opened;
  }
}
