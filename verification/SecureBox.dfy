/** ChunkedSecureBox: the object, proved against the functions of BoxModel and Streams. */
module SecureBox {
  import opened Bytes
  import opened Crypto
  import opened BoxModel
  import opened BoxRotation
  import opened KeyRatchet
  import opened KeyGuards
  import opened ChunkedBox
  import opened Slicing
  import opened Streams
  import opened Wrappers

  type NonceSource = nat -> Nonce

  function NonceList(nonces: NonceSource, n: nat): (r: seq<Blob>)
    ensures |r| == n && forall i :: 0 <= i < n ==> r[i] == nonces(i)
  {
    seq(n, i requires 0 <= i < n => nonces(i))
  }

  /** The chunks of a new box. */
  function SealedAll(p: Primitives, pieces: seq<Blob>, key: Blob, nonces: NonceSource): seq<Sealed> {
    seq(|pieces|, i requires 0 <= i < |pieces| => Seal(p, pieces[i], key, nonces(i)))
  }

  lemma SealedAppend(p: Primitives, pieces: seq<Blob>, one: Blob, key: Blob, nonces: NonceSource)
    ensures SealedAll(p, pieces + [one], key, nonces)
      == SealedAll(p, pieces, key, nonces) + [Seal(p, one, key, nonces(|pieces|))]
  {
    hide Seal;
  }

  // ---------------------------------------------------------------- filling a box

  /** for i in range(0, len(data), size): chunks.append(_new_chunk(pools, data[i:i + size], key)) */
  method AppendSlices(p: Primitives, data: Blob, size: nat, key: Blob, nonces: NonceSource,
                      pools: seq<ChunkPool>, chunks: seq<Chunk>, ghost pieces: seq<Blob>)
    returns (pools': seq<ChunkPool>, chunks': seq<Chunk>)
    requires size > 0 && |pieces| == |chunks| && Filled(pools, chunks, SealedAll(p, pieces, key, nonces))
    modifies Memory(pools)
    ensures |chunks'| == |pieces + Slices(data, size)|
    ensures Filled(pools', chunks', SealedAll(p, pieces + Slices(data, size), key, nonces))
    ensures fresh(Memory(pools') - Memory(pools))
  {
    hide Filled, SealedAll, Seal, Memory, Slices, Take;
    pools', chunks' := pools, chunks;
    ghost var pieces' := pieces;
    var i := 0;
    assert data[0..] == data;
    while i < |data|
      invariant |pieces'| == |chunks'| && Filled(pools', chunks', SealedAll(p, pieces', key, nonces))
      invariant fresh(Memory(pools') - Memory(pools))
      invariant pieces' + Slices(data[Min(i, |data|)..], size) == pieces + Slices(data, size)
    {
      var piece := Take(data[i..], size);
      var chunk;
      pools', chunk := NewChunk(p, pools', piece, key, nonces(|chunks'|), chunks', SealedAll(p, pieces', key, nonces));
      SealedAppend(p, pieces', piece, key, nonces);
      SliceAt(data, i, size);
      pieces', chunks', i := pieces' + [piece], chunks' + [chunk], i + size;
    }
    NoSlices(size);
    assert data[Min(i, |data|)..] == [] && pieces' + [] == pieces';
  }

  lemma SliceAt(data: Blob, i: nat, size: nat)
    requires i < |data| && size > 0
    ensures Slices(data[i..], size) == [Take(data[i..], size)] + Slices(data[Min(i + size, |data|)..], size)
  {
    var piece := Take(data[i..], size);
    assert data[i..][|piece|..] == data[Min(i + size, |data|)..];
  }

  lemma NoSlices(size: nat)
    requires size > 0
    ensures Slices([], size) == []
  {
  }

  /** The chunks of __init__: the data is cut in memory; where nothing is cut, one empty chunk. */
  method ChunksFromMemory(p: Primitives, data: Blob, size: int, key: Blob, nonces: NonceSource)
    returns (pools: seq<ChunkPool>, chunks: seq<Chunk>)
    requires size != 0
    ensures |chunks| == |CutMemory(data, size)|
    ensures Filled(pools, chunks, SealedAll(p, CutMemory(data, size), key, nonces))
    ensures fresh(Slots(chunks))
  {
    NothingFilled(p, key, nonces);
    hide Filled, SealedAll, Seal;
    pools, chunks := [], [];
    if size > 0 {
      pools, chunks := AppendSlices(p, data, size, key, nonces, [], [], []);
      assert [] + Slices(data, size) == Slices(data, size);
    }
    if chunks == [] {
      pools, chunks := OneEmptyChunk(p, key, nonces);
    }
    SlotsInMemory(pools, chunks, SealedAll(p, CutMemory(data, size), key, nonces));
  }

  lemma SlotsInMemory(pools: seq<ChunkPool>, chunks: seq<Chunk>, sealed: seq<Sealed>)
    requires Filled(pools, chunks, sealed)
    ensures forall b :: b in Slots(chunks) ==> b in Memory(pools)
  {
    hide Ready, Views, Extents, Separate;
  }

  lemma NothingFilled(p: Primitives, key: Blob, nonces: NonceSource)
    ensures Filled([], [], SealedAll(p, [], key, nonces))
  {
  }

  /** [_new_chunk(pools, b"", key)] */
  method OneEmptyChunk(p: Primitives, key: Blob, nonces: NonceSource) returns (pools: seq<ChunkPool>,
                       chunks: seq<Chunk>)
    ensures |chunks| == 1 && Filled(pools, chunks, SealedAll(p, [[]], key, nonces))
    ensures fresh(Memory(pools))
  {
    NothingFilled(p, key, nonces);
    ghost var none: seq<Blob> := [];
    SealedAppend(p, none, [], key, nonces);
    assert none + [[]] == [[]];
    hide Filled, SealedAll, Seal;
    var chunk;
    pools, chunk := NewChunk(p, [], [], key, nonces(0), [], SealedAll(p, [], key, nonces));
    chunks := [chunk];
    assert [] + [chunk] == [chunk];
  }

  /** The chunks of from_file: the file is read in blocks of RAW_READ_SIZE, each cut on its own. */
  method ChunksFromFile(p: Primitives, file: Blob, size: int, key: Blob, nonces: NonceSource)
    returns (pools: seq<ChunkPool>, chunks: seq<Chunk>)
    requires size != 0 || file == []
    ensures |chunks| == |CutFile(file, size)|
    ensures Filled(pools, chunks, SealedAll(p, CutFile(file, size), key, nonces))
    ensures fresh(Slots(chunks))
  {
    NothingFilled(p, key, nonces);
    hide *;
    pools, chunks := [], [];
    if size > 0 {
      pools, chunks := ChunksFromBlocks(p, file, RawReadSize(size), size, key, nonces);
    }
    CutFileBy(file, size);
    if chunks == [] {
      pools, chunks := OneEmptyChunk(p, key, nonces);
    }
    SlotsInMemory(pools, chunks, SealedAll(p, CutFile(file, size), key, nonces));
  }

  lemma CutFileBy(file: Blob, size: int)
    requires size != 0 || file == []
    ensures size <= 0 ==> CutFile(file, size) == [[]]
    ensures size > 0 ==>
      var pieces := BlockSlices(file, RawReadSize(size), size);
      CutFile(file, size) == if pieces == [] then [[]] else pieces
  {
    hide BlockSlices;
  }

  /** The loop over the blocks. */
  method ChunksFromBlocks(p: Primitives, file: Blob, raw: nat, size: nat, key: Blob, nonces: NonceSource)
    returns (pools: seq<ChunkPool>, chunks: seq<Chunk>)
    requires raw > 0 && size > 0
    ensures |chunks| == |BlockSlices(file, raw, size)|
    ensures Filled(pools, chunks, SealedAll(p, BlockSlices(file, raw, size), key, nonces))
    ensures fresh(Memory(pools))
  {
    NothingFilled(p, key, nonces);
    hide *;
    var rest := file;
    ghost var pieces: seq<Blob> := [];
    pools, chunks := [], [];
    assert pieces + BlockSlices(file, raw, size) == BlockSlices(file, raw, size);
    while rest != []
      invariant |pieces| == |chunks| && Filled(pools, chunks, SealedAll(p, pieces, key, nonces)) && fresh(Memory(pools))
      invariant pieces + BlockSlices(rest, raw, size) == BlockSlices(file, raw, size)
      decreases |rest|
    {
      var block := Take(rest, raw);
      BlockStep(pieces, rest, raw, size);
      pools, chunks := AppendSlices(p, block, size, key, nonces, pools, chunks, pieces);
      pieces := pieces + Slices(block, size);
      rest := rest[|block|..];
    }
    NoBlocks(pieces, raw, size);
  }

  lemma BlockStep(pieces: seq<Blob>, rest: Blob, raw: nat, size: nat)
    requires rest != [] && raw > 0 && size > 0
    ensures 0 < |Take(rest, raw)| <= |rest|
    ensures pieces + BlockSlices(rest, raw, size)
         == pieces + Slices(Take(rest, raw), size) + BlockSlices(rest[|Take(rest, raw)|..], raw, size)
  {
  }

  lemma NoBlocks(pieces: seq<Blob>, raw: nat, size: nat)
    requires raw > 0 && size > 0
    ensures pieces + BlockSlices([], raw, size) == pieces
  {
  }

  // ---------------------------------------------------------------- the object

  ghost predicate NoSharedCell(a: SplitKeyGuard, b: SplitKeyGuard) {
    forall i, j :: 0 <= i < |a.cells| && 0 <= j < |b.cells| ==> a.cells[i] != b.cells[j]
  }

  /** SplitKeyGuard(key) beside another guard: the two share no cell. */
  method GuardBeside(p: Primitives, key: Blob, other: SplitKeyGuard) returns (guard: SplitKeyGuard)
    ensures fresh(guard) && (forall c :: c in guard.cells ==> fresh(c)) && NoSharedCell(other, guard)
    ensures guard.Valid() && guard.p == p && !guard.removed && !guard.closed && guard.View() == NewGuard(p, key)
  {
    hide NewGuard;
    ghost var cells := other.cells;
    label Before:
    guard := new SplitKeyGuard(p, key);
    forall i, j | 0 <= i < |cells| && 0 <= j < |guard.cells|
      ensures cells[i] != guard.cells[j]
    {
      assert guard.cells[j] in guard.cells && fresh@Before(guard.cells[j]);
    }
  }

  /** The current and the next guard of a new box. */
  method TwoGuards(p: Primitives, key: Blob, nextKey: Blob) returns (current: SplitKeyGuard, next: SplitKeyGuard)
    ensures current != next && NoSharedCell(current, next)
    ensures fresh(current) && fresh(next)
    ensures forall c :: c in current.cells || c in next.cells ==> fresh(c)
    ensures current.Valid() && current.p == p && !current.closed && current.View() == NewGuard(p, key)
    ensures next.Valid() && next.p == p && !next.closed && next.View() == NewGuard(p, nextKey)
  {
    hide NewGuard;
    current := new SplitKeyGuard(p, key);
    next := GuardBeside(p, nextKey, current);
  }

  class ChunkedSecureBox {
    const p: Primitives
    var pools: seq<ChunkPool>
    var chunks: seq<Chunk>
    var onNext: seq<bool>
    var nextChunk: nat
    var hops: nat
    var currentGuard: SplitKeyGuard
    var nextGuard: SplitKeyGuard
    var dataLen: nat
    var paused: bool
    var removed: bool
    const notifies: bool                  // there is an on_new_guard callback
    var reported: seq<SplitKeyGuard>      // the guards whose regions it was called with, in order

    ghost predicate Valid()
      reads this, currentGuard, nextGuard
    {
      && Separate(chunks) && |onNext| == |chunks| && nextChunk < |chunks|
      && currentGuard.Valid() && nextGuard.Valid() && currentGuard.p == p && nextGuard.p == p
      && !currentGuard.closed && !nextGuard.closed
      && (currentGuard == nextGuard || NoSharedCell(currentGuard, nextGuard))
    }

    ghost function View(): Box
      requires Separate(chunks)
      reads this, Slots(chunks), currentGuard.cells, nextGuard.cells
    {
      Box(Views(chunks), onNext, nextChunk, hops, currentGuard.View(), nextGuard.View(), dataLen)
    }

    /** __init__ once its keys exist: a box over bytes in memory. */
    constructor (p: Primitives, data: Blob, size: int, key: Blob, nextKey: Blob, nonces: NonceSource, notifies: bool)
      requires size != 0
      ensures Valid() && this.p == p && this.notifies == notifies && reported == [] && !removed && !paused
      ensures Apart() && fresh(Parts())
      ensures |pools| <= 1 + 2 * Pools.Sum(Lengths(View().chunks)) / Pools.POOL_SIZE
      ensures var pieces := CutMemory(data, size);
        View() == Fresh(p, pieces, key, nextKey, NonceList(nonces, |pieces|), |data|)
    {
      hide CutMemory, Filled, SealedAll, Separate, Views, NewGuard, Fresh, Slots, Lengths, Pools.Sum, NoSharedCell,
           SplitKeyGuard.View;
      var current, next := TwoGuards(p, key, nextKey);
      var filled, made := ChunksFromMemory(p, data, size, key, nonces);
      this.p, pools, chunks, onNext := p, filled, made, Flags(false, |made|);
      nextChunk, hops, dataLen, paused, removed := 0, 0, |data|, false, false;
      currentGuard, nextGuard, this.notifies, reported := current, next, notifies, [];
      FewPools(filled, made, SealedAll(p, CutMemory(data, size), key, nonces));
      FilledViews(filled, made, SealedAll(p, CutMemory(data, size), key, nonces));
      FreshParts(p, CutMemory(data, size), key, nextKey, nonces, |data|);
    }

    /** from_file once its keys exist: the same over a file read in blocks. */
    constructor FromFile(p: Primitives, file: Blob, size: int, key: Blob, nextKey: Blob, nonces: NonceSource,
                         notifies: bool)
      requires size != 0 || file == []
      ensures Valid() && this.p == p && this.notifies == notifies && reported == [] && !removed && !paused
      ensures Apart() && fresh(Parts())
      ensures |pools| <= 1 + 2 * Pools.Sum(Lengths(View().chunks)) / Pools.POOL_SIZE
      ensures var pieces := CutFile(file, size);
        View() == Fresh(p, pieces, key, nextKey, NonceList(nonces, |pieces|), |file|)
    {
      hide CutFile, Filled, SealedAll, Separate, Views, NewGuard, Fresh, Slots, Lengths, Pools.Sum, NoSharedCell,
           SplitKeyGuard.View;
      var current, next := TwoGuards(p, key, nextKey);
      var filled, made := ChunksFromFile(p, file, size, key, nonces);
      this.p, pools, chunks, onNext := p, filled, made, Flags(false, |made|);
      nextChunk, hops, dataLen, paused, removed := 0, 0, |file|, false, false;
      currentGuard, nextGuard, this.notifies, reported := current, next, notifies, [];
      FewPools(filled, made, SealedAll(p, CutFile(file, size), key, nonces));
      FilledViews(filled, made, SealedAll(p, CutFile(file, size), key, nonces));
      FreshParts(p, CutFile(file, size), key, nextKey, nonces, |file|);
    }

    /** The two guards are different objects, as they are until a promotion raises. */
    predicate Apart()
      reads this
    {
      currentGuard != nextGuard
    }

    /** What a hop or a bounce may write. */
    ghost function Parts(): (r: set<object>)
      reads this
      ensures this in r
    {
      {this, currentGuard, nextGuard} + Slots(chunks)
      + (set c | c in currentGuard.cells :: c as object) + (set c | c in nextGuard.cells :: c as object)
    }

    /** ChunkedSecureBox(data, ...): derives the second key from the first, which raises when the
        trust group does, and cuts the data, which raises for a chunk size of 0. */
    static method Make(p: Primitives, data: Blob, size: int, key: Blob, trust: Trust, nonces: NonceSource,
                       notifies: bool)
      returns (box: Option<ChunkedSecureBox>)
      ensures box.None? <==> trust.FetchRaised? || size == 0
      ensures box.Some? ==> fresh(box.value.Parts()) && box.value.Valid() && box.value.Apart() && box.value.p == p
      ensures box.Some? ==> var pieces := CutMemory(data, size);
        box.value.View() == Fresh(p, pieces, key, NextKey(p, key, trust).value, NonceList(nonces, |pieces|), |data|)
      ensures box.Some? ==>
        && ReadKey(p, box.value.View().current) == Some(key)
        && ReadKey(p, box.value.View().next) == Some(Folded(p, key, [Secret(trust)]))
      ensures box.Some? ==> box.value.notifies == notifies && box.value.reported == [] && !box.value.removed
    {
      hide CutMemory, Fresh, Separate, Views, ChunkedSecureBox.Parts, Folded;
      var nextKey := NextKey(p, key, trust);
      if nextKey == None || size == 0 {
        return None;
      }
      FirstKeys(p, CutMemory(data, size), key, trust, nonces, |data|);
      var made := new ChunkedSecureBox(p, data, size, key, nextKey.value, nonces, notifies);
      box := Some(made);
    }

    /** ChunkedSecureBox.from_file(path, ...) */
    static method MakeFromFile(p: Primitives, file: Blob, size: int, key: Blob, trust: Trust, nonces: NonceSource,
                               notifies: bool)
      returns (box: Option<ChunkedSecureBox>)
      ensures box.None? <==> trust.FetchRaised? || (size == 0 && file != [])
      ensures box.Some? ==> fresh(box.value.Parts()) && box.value.Valid() && box.value.Apart() && box.value.p == p
      ensures box.Some? ==> var pieces := CutFile(file, size);
        box.value.View() == Fresh(p, pieces, key, NextKey(p, key, trust).value, NonceList(nonces, |pieces|), |file|)
      ensures box.Some? ==>
        && ReadKey(p, box.value.View().current) == Some(key)
        && ReadKey(p, box.value.View().next) == Some(Folded(p, key, [Secret(trust)]))
      ensures box.Some? ==> box.value.notifies == notifies && box.value.reported == [] && !box.value.removed
    {
      hide CutFile, Fresh, Separate, Views, ChunkedSecureBox.Parts, Folded;
      var nextKey := NextKey(p, key, trust);
      if nextKey == None || (size == 0 && file != []) {
        return None;
      }
      FirstKeys(p, CutFile(file, size), key, trust, nonces, |file|);
      var made := new ChunkedSecureBox.FromFile(p, file, size, key, nextKey.value, nonces, notifies);
      box := Some(made);
    }

    /** The first half of a hop: the chunk at the cursor moves to the next key. */
    method MigrateLocked(currentKey: Blob, nextKey: Blob, nonce: Nonce) returns (done: bool)
      requires Valid()
      modifies `onNext, `nextChunk, `hops, chunks[nextChunk].pool.buf
      ensures Valid()
      ensures var r := Migrate(p, old(View()), currentKey, nextKey, nonce);
        done == r.Some? && View() == if done then r.value else old(View())
      ensures var moved := chunks[old(nextChunk)];
        moved.InBounds() && moved.Outside(old(moved.pool.buf[..]), moved.pool.buf[..])
    {
      hide Separate, Chunk.Outside, Chunk.View, Reencrypt, Stored, Views, SplitKeyGuard.View, SplitKeyGuard.Valid;
      var idx := nextChunk;
      var chunk := chunks[idx];
      ghost var before := View();
      SeparateAt(chunks, idx);
      assert before.chunks[idx] == chunk.View();
      if !onNext[idx] {
        done := RewriteAt(p, chunk, currentKey, nextKey, nonce, chunks, idx);
      } else {
        done := RewriteAt(p, chunk, nextKey, nextKey, nonce, chunks, idx);
      }
      if done {
        Advance();
      }
    }

    method Advance()
      requires Valid()
      modifies `onNext, `nextChunk, `hops
      ensures Valid()
      ensures var b := old(View());
        View() == b.(onNext := b.onNext[b.nextChunk := true],
                     nextChunk := (b.nextChunk + 1) % |b.chunks|,
                     hops := b.hops + 1)
    {
      hide Separate, Views;
      onNext := onNext[nextChunk := true];
      nextChunk := (nextChunk + 1) % |chunks|;
      hops := hops + 1;
    }

    /** The second half, when a generation is complete: next becomes current, a new next guard is
        made and reported, and the old current guard is collapsed.  Were the two guards already one
        object, that would collapse the guard in use. */
    method PromoteLocked(nextKey: Blob, trust: Trust) returns (done: bool)
      requires Valid()
      modifies `onNext, `currentGuard, `nextGuard, `reported, currentGuard`removed, currentGuard`closed
      ensures var r := Promote(p, old(View()), nextKey, trust); done == r.Finished? && View() == r.box
      ensures currentGuard == old(nextGuard)
      ensures old(Apart()) || !done ==> Valid()
      ensures old(Apart()) && done ==> Apart()
      ensures !old(Apart()) && done ==> currentGuard.closed
      ensures done ==> Promoted(old(currentGuard), old(reported))
      ensures done ==> ReadKey(p, View().next) == Some(Folded(p, nextKey, [Secret(trust)]))
      ensures done ==> fresh(nextGuard) && forall c :: c in nextGuard.cells ==> fresh(c)
      ensures !done ==> nextGuard == old(nextGuard) && reported == old(reported)
    {
      hide Separate, Views, NextKey, NewGuard, SplitKeyGuard.View, NoSharedCell;
      var oldCurrent := currentGuard;
      currentGuard := nextGuard;
      var newKey := NextKey(p, nextKey, trust);
      if newKey == None {
        return false;
      }
      InstallNext(oldCurrent, newKey.value);
      NextGuardKey(p, nextKey, trust);
      done := true;
    }

    /** Makes and reports the new next guard, collapses the old current one, and clears the flags. */
    method InstallNext(oldCurrent: SplitKeyGuard, newKey: Blob)
      requires Separate(chunks) && currentGuard.Valid()
      modifies `onNext, `nextGuard, `reported, oldCurrent`removed, oldCurrent`closed
      ensures View() == old(View()).(next := NewGuard(p, newKey), onNext := Flags(false, |chunks|))
      ensures fresh(nextGuard) && forall c :: c in nextGuard.cells ==> fresh(c)
      ensures nextGuard.Valid() && nextGuard.p == p && !nextGuard.closed && NoSharedCell(currentGuard, nextGuard)
      ensures currentGuard.Valid() && Promoted(oldCurrent, old(reported))
    {
      hide Separate, Views, NewGuard, NoSharedCell, SplitKeyGuard.View, Flags;
      nextGuard := GuardBeside(p, newKey, currentGuard);
      if notifies {
        reported := reported + [nextGuard];
      }
      oldCurrent.Collapse();
      onNext := Flags(false, |chunks|);
    }

    /** What a finished promotion leaves besides the box: the old current guard is collapsed, and
        the callback has been called with the new next guard. */
    ghost predicate Promoted(oldCurrent: SplitKeyGuard, before: seq<SplitKeyGuard>)
      reads this, oldCurrent
    {
      oldCurrent.removed && oldCurrent.closed && reported == if notifies then before + [nextGuard] else before
    }

    /** _do_one_hop_locked: the box becomes what Hop says; in the pools only the slot of the chunk
        at the cursor is written. */
    method DoOneHopLocked(nonce: Nonce, trust: Trust) returns (done: bool)
      requires Valid()
      modifies `onNext, `nextChunk, `hops, `currentGuard, `nextGuard, `reported
      modifies chunks[nextChunk].pool.buf, currentGuard`removed, currentGuard`closed
      ensures done == Hop(p, old(View()), nonce, trust).Finished? && View() == Hop(p, old(View()), nonce, trust).box
      ensures var moved := chunks[old(nextChunk)];
        moved.InBounds() && moved.Outside(old(moved.pool.buf[..]), moved.pool.buf[..])
      ensures old(Apart()) || !done ==> Valid()
      ensures old(Apart()) && done ==> Apart()
      ensures nextGuard == old(nextGuard) ==>
        reported == old(reported) && currentGuard in {old(currentGuard), old(nextGuard)}
      ensures nextGuard != old(nextGuard) ==>
        && fresh(nextGuard) && (forall c :: c in nextGuard.cells ==> fresh(c))
        && currentGuard == old(nextGuard) && Promoted(old(currentGuard), old(reported))
    {
      hide Separate, Views, ReadKey, Migrate, Promote;
      ghost var before := View();
      SeparateAt(chunks, nextChunk);
      var currentKey := currentGuard.Reconstruct();
      var nextKey := nextGuard.Reconstruct();
      assert currentKey == ReadKey(p, before.current) && nextKey == ReadKey(p, before.next);
      if currentKey == None || nextKey == None {
        return false;
      }
      assert View() == before;
      done := MigrateLocked(currentKey.value, nextKey.value, nonce);
      assert done == Migrate(p, before, currentKey.value, nextKey.value, nonce).Some?;
      assert done ==> View() == Migrate(p, before, currentKey.value, nextKey.value, nonce).value;
      if done && nextChunk == 0 && All(onNext) {
        done := PromoteLocked(nextKey.value, trust);
      }
    }

    /** A worker of the cell scheduler services one cell of one of the two guards: in the box that
        is the bounce event, or both bounce events when the guards are one object. */
    method ServiceGuardCell(inNext: bool, cell: nat) returns (bounced: bool)
      requires Valid() && cell < |GuardAt(inNext).cells|
      modifies GuardAt(inNext)`hops, GuardAt(inNext).cells[cell]
      ensures Valid() && bounced == !GuardAt(inNext).removed
      ensures View() ==
        if !bounced then old(View())
        else if Apart() then BounceCell(old(View()), inNext, cell)
        else BounceCell(BounceCell(old(View()), false, cell), true, cell)
    {
      hide Separate, Views, SplitKeyGuard.View;
      var guard := GuardAt(inNext);
      bounced := guard.ServiceCell(cell);
    }

    function GuardAt(inNext: bool): SplitKeyGuard
      reads this
    {
      if inNext then nextGuard else currentGuard
    }

    /** chunk.decrypt under the key its flag selects. */
    method OpenChunk(i: nat, currentKey: Blob, nextKey: Blob, ghost b: Box) returns (plain: Option<Blob>)
      requires Valid() && b == View() && i < |chunks|
      ensures Separate(chunks) && b == View()
      ensures b.Shaped() && |b.chunks| == |chunks| && b.chunks[i].plainLen == chunks[i].plainLen
      ensures plain == Open(p, b.chunks[i], KeyOf(b, i, currentKey, nextKey))
    {
      hide Separate, Open, SplitKeyGuard.View, SplitKeyGuard.Valid;
      SeparateAt(chunks, i);
      plain := chunks[i].Decrypt(p, if onNext[i] then nextKey else currentKey);
      assert b.chunks[i] == chunks[i].View();
    }

    /** Both keys, as every reader of the box fetches them first. */
    method ReadKeys(ghost b: Box) returns (currentKey: Option<Blob>, nextKey: Option<Blob>)
      requires Valid() && b == View()
      ensures currentKey == ReadKey(p, b.current) && nextKey == ReadKey(p, b.next)
      ensures Separate(chunks) && b == View()
      ensures b.Shaped() && |b.chunks| == |chunks| && b.dataLen == dataLen
    {
      currentKey := currentGuard.Reconstruct();
      nextKey := nextGuard.Reconstruct();
    }

    /** The body of snapshot(), under the lock. */
    method OpenAll(ghost b: Box) returns (data: Option<Blob>)
      requires Valid() && b == View()
      ensures b.Shaped() && data == Snapshot(p, b)
    {
      hide *;
      var currentKey, nextKey := ReadKeys(b);
      SnapshotBy(p, b);
      if currentKey == None || nextKey == None {
        return None;
      }
      var out: Blob := [];
      for i := 0 to |chunks|
        invariant Valid() && Separate(chunks) && b == View()
        invariant Opened(p, b, currentKey.value, nextKey.value, i) == Some(out)
      {
        var plain := OpenChunk(i, currentKey.value, nextKey.value, b);
        OpenedStep(p, b, currentKey.value, nextKey.value, i);
        if plain == None {
          OpenedStops(p, b, currentKey.value, nextKey.value, i + 1, |chunks|);
          return None;
        }
        out := out + Take(plain.value, chunks[i].plainLen);
      }
      data := Some(Take(out, dataLen));
    }

    /** snapshot().  An exception leaves the box paused: nothing clears the flag on that path. */
    method TakeSnapshot() returns (data: Option<Blob>)
      requires Valid()
      modifies `paused
      ensures Valid() && View() == old(View())
      ensures data == Snapshot(p, View()) && paused == data.None?
    {
      hide Separate, Views, Snapshot, SplitKeyGuard.View, SplitKeyGuard.Valid;
      paused := true;
      ghost var b := View();
      data := OpenAll(b);
      if data.Some? {
        paused := false;
      }
      assert View() == b;
    }

    /** The body of stream_to, under the lock. */
    method SendAll(ghost b: Box) returns (sent: seq<Blob>, done: bool)
      requires Valid() && b == View()
      ensures b.Shaped() && StreamTo(p, b) == if done then Complete(sent) else Broken(sent)
    {
      hide *;
      sent := [];
      var currentKey, nextKey := ReadKeys(b);
      StreamBy(p, b);
      if currentKey == None || nextKey == None {
        return [], false;
      }
      var remaining: int := dataLen;
      var i := 0;
      PrependEnds(sent, Pieces(p, b, currentKey.value, nextKey.value, 0, remaining));
      while i < |chunks| && remaining > 0
        invariant i <= |chunks| && Valid() && Separate(chunks) && b == View()
        invariant StreamTo(p, b) == Prepend(sent, Pieces(p, b, currentKey.value, nextKey.value, i, remaining))
        decreases |chunks| - i
      {
        var plain := OpenChunk(i, currentKey.value, nextKey.value, b);
        PiecesStep(p, b, currentKey.value, nextKey.value, i, remaining);
        if plain == None {
          PrependEnds(sent, Broken([]));
          return sent, false;
        }
        var piece := Take(plain.value, Min(chunks[i].plainLen, remaining));
        PrependOne(sent, piece, Pieces(p, b, currentKey.value, nextKey.value, i + 1, remaining - |piece|));
        sent := sent + [piece];
        remaining := remaining - |piece|;
        i := i + 1;
      }
      PiecesEnd(p, b, currentKey.value, nextKey.value, i, remaining);
      PrependEnds(sent, Complete([]));
      done := true;
    }

    /** stream_to, with everything handed to `write`. */
    method SendTo() returns (sent: seq<Blob>, done: bool)
      requires Valid()
      modifies `paused
      ensures Valid() && View() == old(View()) && !paused
      ensures (if done then Complete(sent) else Broken(sent)) == StreamTo(p, View())
    {
      hide Separate, Views, StreamTo, SplitKeyGuard.View, SplitKeyGuard.Valid;
      paused := true;
      ghost var b := View();
      sent, done := SendAll(b);
      paused := false;
      assert View() == b;
    }

    /** The body of stream_to_wrapped, under the lock.  A ciphertext too long for its four-byte
        length raises. */
    method WrapAll(transit: Blob, nonces: NonceSource, ghost b: Box) returns (file: Blob, done: bool)
      requires Valid() && b == View()
      ensures b.Shaped() && WrappedFrom(p, transit, nonces, StreamTo(p, b), file, done)
    {
      hide *;
      file := [];
      ghost var sent: seq<Blob> := [];
      var currentKey, nextKey := ReadKeys(b);
      StreamBy(p, b);
      WrappedNothing(p, transit, nonces);
      if currentKey == None || nextKey == None {
        WrappedEnd(p, transit, nonces, Broken([]), [], [], false);
        return [], false;
      }
      var remaining: int := dataLen;
      var i, n := 0, 0;
      PrependEnds(sent, Pieces(p, b, currentKey.value, nextKey.value, 0, remaining));
      while i < |chunks| && remaining > 0
        invariant i <= |chunks| && Valid() && Separate(chunks) && b == View()
        invariant StreamTo(p, b) == Prepend(sent, Pieces(p, b, currentKey.value, nextKey.value, i, remaining))
        invariant n == |sent| && WrappedSoFar(p, transit, nonces, sent, file)
        decreases |chunks| - i
      {
        var plain := OpenChunk(i, currentKey.value, nextKey.value, b);
        PiecesStep(p, b, currentKey.value, nextKey.value, i, remaining);
        if plain == None {
          PrependEnds(sent, Broken([]));
          WrappedEnd(p, transit, nonces, StreamTo(p, b), sent, file, false);
          return file, false;
        }
        var piece := Take(plain.value, Min(chunks[i].plainLen, remaining));
        PrependOne(sent, piece, Pieces(p, b, currentKey.value, nextKey.value, i + 1, remaining - |piece|));
        var ct := p.aes.encrypt(transit, nonces(n), piece);
        CtLength(p, transit, nonces(n), piece);
        if |ct| >= LENGTH_LIMIT {
          var rest := Pieces(p, b, currentKey.value, nextKey.value, i + 1, remaining - |piece|);
          TooLong(p, transit, nonces, sent + [piece], rest, file);
          return file, false;
        }
        WrappedMore(p, transit, nonces, sent, piece, file);
        file := file + (BigEndian(|ct|) + nonces(n) + ct);
        sent, n := sent + [piece], n + 1;
        remaining := remaining - |piece|;
        i := i + 1;
      }
      PiecesEnd(p, b, currentKey.value, nextKey.value, i, remaining);
      PrependEnds(sent, Complete([]));
      WrappedEnd(p, transit, nonces, StreamTo(p, b), sent, file, true);
      done := true;
    }

    /** stream_to_wrapped, with everything handed to `write`. */
    method SendWrapped(transit: Blob, nonces: NonceSource) returns (file: Blob, done: bool)
      requires Valid()
      modifies `paused
      ensures Valid() && View() == old(View()) && !paused
      ensures WrappedFrom(p, transit, nonces, StreamTo(p, View()), file, done)
    {
      hide Separate, Views, StreamTo, SplitKeyGuard.View, SplitKeyGuard.Valid, WrappedFrom;
      paused := true;
      ghost var b := View();
      file, done := WrapAll(transit, nonces, b);
      paused := false;
      assert View() == b;
    }

    /** collapse(): the flag, then both guards, then every pool. */
    method Collapse()
      requires Valid()
      modifies `removed, currentGuard`removed, currentGuard`closed, nextGuard`removed, nextGuard`closed
      modifies pools`closed
      ensures removed && currentGuard.removed && nextGuard.removed && currentGuard.closed && nextGuard.closed
      ensures forall q :: q in pools ==> q.closed
    {
      removed := true;
      currentGuard.Collapse();
      nextGuard.Collapse();
      for i := 0 to |pools|
        invariant removed && currentGuard.removed && nextGuard.removed && currentGuard.closed && nextGuard.closed
        invariant forall j :: 0 <= j < i ==> pools[j].closed
      {
        pools[i].Collapse();
      }
    }
  }

  /** What a wrapped file is, given the pieces stream_to would send: their frames in order when all
      fit, and an exception otherwise. */
  ghost predicate WrappedFrom(p: Primitives, transit: Blob, nonces: NonceSource, stream: Stream<seq<Blob>>,
                              file: Blob, done: bool) {
    if Fits(stream.sent) then
      done == stream.Complete? && file == Wrapped(p, transit, NonceList(nonces, |stream.sent|), stream.sent)
    else !done
  }

  ghost predicate WrappedSoFar(p: Primitives, transit: Blob, nonces: NonceSource, sent: seq<Blob>, file: Blob) {
    Fits(sent) && file == Wrapped(p, transit, NonceList(nonces, |sent|), sent)
  }

  lemma WrappedNothing(p: Primitives, transit: Blob, nonces: NonceSource)
    ensures WrappedSoFar(p, transit, nonces, [], [])
  {
  }

  lemma WrappedEnd(p: Primitives, transit: Blob, nonces: NonceSource, stream: Stream<seq<Blob>>, sent: seq<Blob>,
                   file: Blob, done: bool)
    requires WrappedSoFar(p, transit, nonces, sent, file) && stream == if done then Complete(sent) else Broken(sent)
    ensures WrappedFrom(p, transit, nonces, stream, file, done)
  {
  }

  lemma CtLength(p: Primitives, key: Blob, nonce: Blob, data: Blob)
    ensures |p.aes.encrypt(key, nonce, data)| == |data| + TAG_LEN
  {
  }

  lemma TooLong(p: Primitives, transit: Blob, nonces: NonceSource, sent: seq<Blob>, rest: Stream<seq<Blob>>, file: Blob)
    requires sent != [] && |sent[|sent| - 1]| + TAG_LEN >= LENGTH_LIMIT
    ensures WrappedFrom(p, transit, nonces, Prepend(sent, rest), file, false)
  {
    assert Prepend(sent, rest).sent[|sent| - 1] == sent[|sent| - 1];
  }

  lemma WrappedMore(p: Primitives, transit: Blob, nonces: NonceSource, sent: seq<Blob>, piece: Blob, file: Blob)
    requires WrappedSoFar(p, transit, nonces, sent, file) && |piece| + TAG_LEN < LENGTH_LIMIT
    ensures var ct := p.aes.encrypt(transit, nonces(|sent|), piece);
      && |ct| < LENGTH_LIMIT
      && WrappedSoFar(p, transit, nonces, sent + [piece], file + (BigEndian(|ct|) + nonces(|sent|) + ct))
  {
    hide Wrapped, BigEndian;
    var list := NonceList(nonces, |sent| + 1);
    assert Fits(sent + [piece]);
    WrappedAppend(p, transit, list, sent, piece);
    assert list[..|sent|] == NonceList(nonces, |sent|);
  }

  function Prepend(sent: seq<Blob>, rest: Stream<seq<Blob>>): Stream<seq<Blob>> {
    rest.(sent := sent + rest.sent)
  }

  lemma PrependEnds(sent: seq<Blob>, rest: Stream<seq<Blob>>)
    ensures sent == [] ==> Prepend(sent, rest) == rest
    ensures rest == Complete([]) ==> Prepend(sent, rest) == Complete(sent)
    ensures rest == Broken([]) ==> Prepend(sent, rest) == Broken(sent)
  {
    assert sent == [] ==> sent + rest.sent == rest.sent;
    assert rest.sent == [] ==> sent + rest.sent == sent;
  }

  lemma PrependOne(sent: seq<Blob>, piece: Blob, rest: Stream<seq<Blob>>)
    ensures Prepend(sent, Before(piece, rest)) == Prepend(sent + [piece], rest)
  {
    assert sent + ([piece] + rest.sent) == sent + [piece] + rest.sent;
  }

  lemma SnapshotBy(p: Primitives, b: Box)
    requires b.Shaped()
    ensures ReadKey(p, b.current) == None || ReadKey(p, b.next) == None ==> Snapshot(p, b) == None
    ensures ReadKey(p, b.current).Some? && ReadKey(p, b.next).Some? ==>
      var currentKey, nextKey := ReadKey(p, b.current).value, ReadKey(p, b.next).value;
      var out := Opened(p, b, currentKey, nextKey, |b.chunks|);
      Opened(p, b, currentKey, nextKey, 0) == Some([])
      && Snapshot(p, b) == if out.Some? then Some(Take(out.value, b.dataLen)) else None
  {
  }

  lemma OpenedStep(p: Primitives, b: Box, currentKey: Blob, nextKey: Blob, i: nat)
    requires b.Shaped() && i < |b.chunks| && Opened(p, b, currentKey, nextKey, i).Some?
    ensures var plain := Open(p, b.chunks[i], KeyOf(b, i, currentKey, nextKey));
      var out := Opened(p, b, currentKey, nextKey, i).value;
      Opened(p, b, currentKey, nextKey, i + 1)
      == if plain.Some? then Some(out + Take(plain.value, b.chunks[i].plainLen)) else None
  {
  }

  lemma StreamBy(p: Primitives, b: Box)
    requires b.Shaped()
    ensures ReadKey(p, b.current) == None || ReadKey(p, b.next) == None ==> StreamTo(p, b) == Broken([])
    ensures ReadKey(p, b.current).Some? && ReadKey(p, b.next).Some? ==>
      StreamTo(p, b) == Pieces(p, b, ReadKey(p, b.current).value, ReadKey(p, b.next).value, 0, b.dataLen)
  {
  }

  lemma PiecesStep(p: Primitives, b: Box, currentKey: Blob, nextKey: Blob, i: nat, remaining: int)
    requires b.Shaped() && i < |b.chunks| && remaining > 0
    ensures var plain := Open(p, b.chunks[i], KeyOf(b, i, currentKey, nextKey));
      Pieces(p, b, currentKey, nextKey, i, remaining)
      == if plain == None then Broken([])
         else
           var piece := Take(plain.value, Min(b.chunks[i].plainLen, remaining));
           Before(piece, Pieces(p, b, currentKey, nextKey, i + 1, remaining - |piece|))
  {
  }

  lemma PiecesEnd(p: Primitives, b: Box, currentKey: Blob, nextKey: Blob, i: nat, remaining: int)
    requires b.Shaped() && i <= |b.chunks| && (i == |b.chunks| || remaining <= 0)
    ensures Pieces(p, b, currentKey, nextKey, i, remaining) == Complete([])
  {
  }

  lemma {:induction false} OpenedStops(p: Primitives, b: Box, currentKey: Blob, nextKey: Blob, n: nat, m: nat)
    requires b.Shaped() && n <= m <= |b.chunks| && Opened(p, b, currentKey, nextKey, n) == None
    ensures Opened(p, b, currentKey, nextKey, m) == None
    decreases m
  {
    if n < m {
      OpenedStops(p, b, currentKey, nextKey, n, m - 1);
    }
  }

  lemma SeparateAt(chunks: seq<Chunk>, n: nat)
    requires Separate(chunks) && n < |chunks|
    ensures chunks[n].InBounds()
  {
  }

  /** The allocator's bound on pools, for the pools of a box. */
  lemma FewPools(pools: seq<ChunkPool>, chunks: seq<Chunk>, sealed: seq<Sealed>)
    requires Filled(pools, chunks, sealed)
    ensures |pools| <= 1 + 2 * Pools.Sum(Lengths(sealed)) / Pools.POOL_SIZE
  {
    Pools.PoolCountBound(Lengths(sealed));
    assert |Extents(pools)| == |pools|;
    hide *;
  }

  lemma FilledViews(pools: seq<ChunkPool>, chunks: seq<Chunk>, sealed: seq<Sealed>)
    requires Filled(pools, chunks, sealed)
    ensures Separate(chunks) && Views(chunks) == sealed
  {
  }

  /** The guard a derivation makes reads back the hash of the old key, the secret and the suffix. */
  lemma NextGuardKey(p: Primitives, key: Blob, trust: Trust)
    requires NextKey(p, key, trust).Some?
    ensures var next := NextKey(p, key, trust);
      ReadKey(p, NewGuard(p, next.value)) == Some(Folded(p, key, [Secret(trust)]))
  {
    assert Folded(p, key, []) == key && [] + [Secret(trust)] == [Secret(trust)];
    NextKeyIsFolded(p, key, [], trust);
    NewGuardHoldsKey(p, NextKey(p, key, trust).value);
    hide NewGuard, ReadKey, NextKey, Folded;
  }

  lemma FirstKeys(p: Primitives, pieces: seq<Blob>, key: Blob, trust: Trust, nonces: NonceSource, dataLen: nat)
    requires NextKey(p, key, trust).Some?
    ensures var b := Fresh(p, pieces, key, NextKey(p, key, trust).value, NonceList(nonces, |pieces|), dataLen);
      ReadKey(p, b.current) == Some(key) && ReadKey(p, b.next) == Some(Folded(p, key, [Secret(trust)]))
  {
    NextGuardKey(p, key, trust);
    NewGuardHoldsKey(p, key);
    hide NewGuard, ReadKey, Folded, Seal;
  }

  lemma FreshParts(p: Primitives, pieces: seq<Blob>, key: Blob, nextKey: Blob, nonces: NonceSource, dataLen: nat)
    ensures Fresh(p, pieces, key, nextKey, NonceList(nonces, |pieces|), dataLen)
         == Box(SealedAll(p, pieces, key, nonces), Flags(false, |pieces|), 0, 0,
                NewGuard(p, key), NewGuard(p, nextKey), dataLen)
  {
    hide Seal, NewGuard;
  }
}
