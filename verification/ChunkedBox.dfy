/** chunked_secure_box.py over real memory: pools are byte arrays, chunks are slots in them, and
    the box's methods compute what BoxModel says. */
module ChunkedBox {
  import opened Bytes
  import opened Crypto
  import opened BoxModel
  import Pools
  import opened Wrappers

  // ---------------------------------------------------------------- pools

  /** _ChunkPool */
  class ChunkPool {
    const buf: array<Byte>
    const size: nat
    var cursor: nat
    var closed: bool

    ghost predicate Valid()
      reads this
    {
      buf.Length == size && cursor <= size
    }

    ghost function Extent(): Pools.Extent
      reads this
    {
      Pools.Extent(size, cursor)
    }

    constructor (size: nat)
      ensures Valid() && fresh(buf) && Extent() == Pools.Extent(size, 0) && !closed
    {
      this.size, cursor, closed := size, 0, false;
      buf := new Byte[size](i => 0);
    }

    method Collapse()
      modifies `closed
      ensures closed
    {
      closed := true;
    }

    method TryAllocate(length: nat) returns (offset: Option<nat>)
      requires Valid()
      modifies `cursor
      ensures Valid()
      ensures offset == if old(cursor) + length > size then None else Some(old(cursor))
      ensures cursor == if offset.Some? then old(cursor) + length else old(cursor)
    {
      if cursor + length > size {
        return None;
      }
      offset := Some(cursor);
      cursor := cursor + length;
    }
  }

  ghost function Extents(pools: seq<ChunkPool>): (r: seq<Pools.Extent>)
    reads pools
    ensures |r| == |pools| && forall i :: 0 <= i < |r| ==> r[i] == pools[i].Extent()
  {
    seq(|pools|, i requires 0 <= i < |pools| reads pools => pools[i].Extent())
  }

  /** Writes bytes at an offset: `buf[o:o + len(bytes)] = bytes`. */
  method Blit(buf: array<Byte>, o: nat, bytes: Blob)
    requires o + |bytes| <= buf.Length
    modifies buf
    ensures buf[o..o + |bytes|] == bytes
    ensures forall k :: 0 <= k < buf.Length && !(o <= k < o + |bytes|) ==> buf[k] == old(buf[k])
  {
    for i := 0 to |bytes|
      invariant forall k :: 0 <= k < i ==> buf[o + k] == bytes[k]
      invariant forall k :: 0 <= k < buf.Length && !(o <= k < o + i) ==> buf[k] == old(buf[k])
    {
      buf[o + i] := bytes[i];
    }
  }

  // ---------------------------------------------------------------- chunks

  /** _Chunk: its slot in a pool, and the lengths it was made with. */
  datatype Chunk = Chunk(pool: ChunkPool, offset: nat, plainLen: nat, payloadLen: nat) {
    function End(): nat {
      offset + NONCE_LEN + payloadLen
    }

    ghost predicate InBounds() {
      End() <= pool.buf.Length
    }

    ghost predicate Apart(other: Chunk) {
      pool.buf != other.pool.buf || End() <= other.offset || other.End() <= offset
    }

    /** What the slot holds when the pool holds these bytes. */
    ghost function In(bytes: Blob): Sealed
      requires End() <= |bytes|
    {
      Sealed(bytes[offset..offset + NONCE_LEN], bytes[offset + NONCE_LEN..End()], plainLen)
    }

    ghost function View(): Sealed
      requires InBounds()
      reads pool.buf
    {
      In(pool.buf[..])
    }

    /** The two contents of the pool agree outside the slot. */
    ghost predicate Outside(before: Blob, after: Blob) {
      |before| == |after| && forall k :: 0 <= k < |before| && !(offset <= k < End()) ==> after[k] == before[k]
    }

    /** Writes a nonce and a ciphertext into the slot. */
    method Store(nonce: Nonce, ct: Blob)
      requires InBounds() && |ct| == payloadLen
      modifies pool.buf
      ensures View() == Sealed(nonce, ct, plainLen)
      ensures Outside(old(pool.buf[..]), pool.buf[..])
    {
      Blit(pool.buf, offset, nonce);
      Blit(pool.buf, offset + NONCE_LEN, ct);
      assert pool.buf[..][offset..offset + NONCE_LEN] == nonce;
      assert pool.buf[..][offset + NONCE_LEN..End()] == ct;
    }

    /** decrypt */
    method Decrypt(p: Primitives, key: Blob) returns (plain: Option<Blob>)
      requires InBounds()
      ensures plain == Open(p, View(), key)
    {
      var start := offset + NONCE_LEN;
      var compressed := p.aes.decrypt(key, pool.buf[offset..start], pool.buf[start..start + payloadLen]);
      if compressed == None {
        return None;
      }
      plain := if compressed.value != [] then p.lzma.decompress(compressed.value) else Some([]);
    }
  }

  // ---------------------------------------------------------------- filling the pools

  ghost function Bufs(pools: seq<ChunkPool>): set<array<Byte>> {
    set q | q in pools :: q.buf
  }

  /** The pools and their memory. */
  ghost function Memory(pools: seq<ChunkPool>): (r: set<object>)
    ensures Heads(pools) <= r && (pools == [] ==> r == {})
  {
    Heads(pools) + Bufs(pools)
  }

  ghost function Heads(pools: seq<ChunkPool>): set<object> {
    set q | q in pools
  }

  ghost predicate Ready(pools: seq<ChunkPool>)
    reads pools
  {
    && (forall i :: 0 <= i < |pools| ==> pools[i].Valid())
    && (forall i, j :: 0 <= i < j < |pools| ==> pools[i] != pools[j] && pools[i].buf != pools[j].buf)
  }

  /** Every chunk lies inside its pool, and no two overlap. */
  ghost predicate Separate(chunks: seq<Chunk>) {
    && (forall i :: 0 <= i < |chunks| ==> chunks[i].InBounds())
    && (forall i, j :: 0 <= i < j < |chunks| ==> chunks[i].Apart(chunks[j]))
  }

  ghost function Slots(chunks: seq<Chunk>): set<array<Byte>> {
    set c | c in chunks :: c.pool.buf
  }

  ghost function Views(chunks: seq<Chunk>): (r: seq<Sealed>)
    requires Separate(chunks)
    reads Slots(chunks)
    ensures |r| == |chunks| && forall i :: 0 <= i < |r| ==> r[i] == chunks[i].View()
  {
    seq(|chunks|, i requires 0 <= i < |chunks| reads Slots(chunks) => chunks[i].View())
  }

  /** A ciphertext that decrypts is TAG_LEN longer than its plaintext, so a slot never grows. */
  lemma SameLength(p: Primitives, key: Blob, nonce: Blob, ct: Blob)
    requires p.aes.decrypt(key, nonce, ct).Some?
    ensures |ct| == |p.aes.decrypt(key, nonce, ct).value| + TAG_LEN
  {
    assert p.aes.encrypt(key, nonce, p.aes.decrypt(key, nonce, ct).value) == ct;
  }

  /** Writing inside one slot leaves what is apart from it as it was. */
  lemma ApartKept(c: Chunk, other: Chunk, before: Blob, after: Blob)
    requires c.Outside(before, after) && other.End() <= |before|
    requires c.End() <= other.offset || other.End() <= c.offset
    ensures other.In(after) == other.In(before)
  {
  }

  /** Writes a nonce and a ciphertext into the slot of chunk n, leaving every other chunk as it was. */
  method StoreAt(chunk: Chunk, nonce: Nonce, ct: Blob, ghost chunks: seq<Chunk>, ghost n: nat)
    requires Separate(chunks) && n < |chunks| && chunk == chunks[n] && |ct| == chunk.payloadLen
    modifies chunk.pool.buf
    ensures Views(chunks) == old(Views(chunks))[n := Sealed(nonce, ct, chunk.plainLen)]
    ensures chunk.Outside(old(chunk.pool.buf[..]), chunk.pool.buf[..])
  {
    ghost var before := chunk.pool.buf[..];
    chunk.Store(nonce, ct);
    forall i | 0 <= i < |chunks| && i != n && chunks[i].pool.buf == chunk.pool.buf
      ensures chunks[i].View() == chunks[i].In(before)
    {
      assert chunks[i].Apart(chunk) || chunk.Apart(chunks[i]);
      ApartKept(chunk, chunks[i], before, chunk.pool.buf[..]);
    }
  }

  /** _Chunk.reencrypt on chunk n: decrypts under one key and encrypts under another, in place,
      touching no byte outside the chunk's own slot. */
  method RewriteAt(p: Primitives, chunk: Chunk, from: Blob, to: Blob, nonce: Nonce, ghost chunks: seq<Chunk>,
                   ghost n: nat)
    returns (done: bool)
    requires Separate(chunks) && n < |chunks| && chunk == chunks[n]
    modifies chunk.pool.buf
    ensures chunk.InBounds() && chunk.Outside(old(chunk.pool.buf[..]), chunk.pool.buf[..])
    ensures var r := Reencrypt(p, old(chunk.View()), from, to, nonce);
      done == r.Some? && Views(chunks) == if done then old(Views(chunks))[n := r.value] else old(Views(chunks))
  {
    var start := chunk.offset + NONCE_LEN;
    var oldNonce, ct := chunk.pool.buf[chunk.offset..start], chunk.pool.buf[start..start + chunk.payloadLen];
    assert chunk.View() == Sealed(oldNonce, ct, chunk.plainLen);
    var compressed := p.aes.decrypt(from, oldNonce, ct);
    if compressed == None {
      return false;
    }
    SameLength(p, from, oldNonce, ct);
    StoreAt(chunk, nonce, p.aes.encrypt(to, nonce, compressed.value), chunks, n);
    done := true;
  }

  ghost predicate Packed(pools: seq<ChunkPool>, chunks: seq<Chunk>)
    reads pools
  {
    && Separate(chunks)
    && (forall i :: 0 <= i < |chunks| ==> chunks[i].pool in pools && chunks[i].End() <= chunks[i].pool.cursor)
  }

  function Lengths(sealed: seq<Sealed>): seq<nat> {
    seq(|sealed|, i requires 0 <= i < |sealed| => |sealed[i].nonce| + |sealed[i].ct|)
  }

  /** The chunks hold these values, laid out as the allocator says. */
  ghost predicate Filled(pools: seq<ChunkPool>, chunks: seq<Chunk>, sealed: seq<Sealed>)
    reads pools, Slots(chunks)
  {
    && Ready(pools) && Packed(pools, chunks) && Views(chunks) == sealed
    && Extents(pools) == Pools.PlaceAll(Lengths(sealed)).pools
  }

  /** Starts a new pool with one payload in it; allocating there cannot fail. */
  method StartPool(pools: seq<ChunkPool>, total: nat, ghost chunks: seq<Chunk>) returns (grown: seq<ChunkPool>)
    requires Ready(pools) && Packed(pools, chunks) && !Pools.HasRoom(Extents(pools), total)
    ensures Ready(grown) && |grown| == |pools| + 1 && pools <= grown && Packed(grown, chunks)
    ensures fresh(grown[|pools|]) && fresh(grown[|pools|].buf) && grown[|pools|].cursor == total
    ensures Pools.Place(Extents(pools), total) == Pools.Placed(Extents(grown), Pools.Slot(|pools|, 0, total))
  {
    var pool := new ChunkPool(Pools.NewPoolSize(total));
    grown := pools + [pool];
    var offset := pool.TryAllocate(total);
    hide Pools.Place, Separate;
    PlacedInNew(Extents(pools), Extents(grown), total);
  }

  /** The pool and offset for a payload: the last pool if it fits there, else a new one.  The
      slot lies above every chunk already in that pool. */
  method Allocate(pools: seq<ChunkPool>, total: nat, ghost chunks: seq<Chunk>) returns (grown: seq<ChunkPool>,
                  offset: nat)
    requires Ready(pools) && Packed(pools, chunks)
    modifies Heads(pools)
    ensures Ready(grown) && grown != [] && Packed(grown, chunks)
    ensures forall q :: q in grown && q !in pools ==> fresh(q) && fresh(q.buf)
    ensures Extents(grown) == Pools.Place(old(Extents(pools)), total).pools
    ensures grown[|grown| - 1].cursor == offset + total
    ensures forall i :: 0 <= i < |chunks| && chunks[i].pool.buf == grown[|grown| - 1].buf ==> chunks[i].End() <= offset
  {
    hide Pools.Place, Separate;
    if pools != [] {
      var last := pools[|pools| - 1];
      var room := last.TryAllocate(total);
      if room.Some? {
        PlacedInLast(old(Extents(pools)), Extents(pools), total);
        return pools, room.value;
      }
    }
    assert Extents(pools) == old(Extents(pools));
    grown := StartPool(pools, total, chunks);
    offset := 0;
  }

  lemma PlacedInLast(before: seq<Pools.Extent>, after: seq<Pools.Extent>, total: nat)
    requires Pools.HasRoom(before, total) && |after| == |before|
    requires forall i :: 0 <= i < |before| - 1 ==> after[i] == before[i]
    requires after[|after| - 1] == before[|before| - 1].(used := before[|before| - 1].used + total)
    ensures Pools.Place(before, total) == Pools.Placed(after, Pools.Slot(|after| - 1, before[|before| - 1].used, total))
  {
  }

  lemma PlacedInNew(before: seq<Pools.Extent>, after: seq<Pools.Extent>, total: nat)
    requires !Pools.HasRoom(before, total) && |after| == |before| + 1 && after[..|before|] == before
    requires after[|before|] == Pools.Extent(Pools.NewPoolSize(total), total)
    ensures Pools.Place(before, total) == Pools.Placed(after, Pools.Slot(|before|, 0, total))
  {
  }

  /** A chunk with its slot reserved but not yet written. */
  method Reserve(pools: seq<ChunkPool>, plainLen: nat, payloadLen: nat, ghost chunks: seq<Chunk>,
                 ghost sealed: seq<Sealed>)
    returns (grown: seq<ChunkPool>, chunk: Chunk)
    requires Filled(pools, chunks, sealed)
    modifies Heads(pools)
    ensures Ready(grown) && Packed(grown, chunks + [chunk]) && Separate(chunks) && Views(chunks) == sealed
    ensures chunk.pool in grown && chunk.plainLen == plainLen && chunk.payloadLen == payloadLen
    ensures Extents(grown) == Pools.Place(Pools.PlaceAll(Lengths(sealed)).pools, NONCE_LEN + payloadLen).pools
    ensures chunk.pool.buf in Memory(pools) || fresh(chunk.pool.buf)
    ensures fresh(Memory(grown) - Memory(pools))
  {
    hide Extents, Pools.Place, Pools.PlaceAll, Lengths;
    var offset;
    grown, offset := Allocate(pools, NONCE_LEN + payloadLen, chunks);
    chunk := Chunk(grown[|grown| - 1], offset, plainLen, payloadLen);
    PackedOneMore(grown, chunks, chunk);
  }

  /** Writes the reserved chunk. */
  method WriteReserved(chunk: Chunk, nonce: Nonce, ct: Blob,
                       ghost pools: seq<ChunkPool>, ghost chunks: seq<Chunk>, ghost sealed: seq<Sealed>)
    requires Ready(pools) && Packed(pools, chunks + [chunk]) && chunk.payloadLen == |ct| && Separate(chunks)
      && Views(chunks) == sealed
    requires Extents(pools) == Pools.Place(Pools.PlaceAll(Lengths(sealed)).pools, NONCE_LEN + |ct|).pools
    modifies chunk.pool.buf
    ensures Filled(pools, chunks + [chunk], sealed + [Sealed(nonce, ct, chunk.plainLen)])
  {
    hide *;
    ghost var all, one := chunks + [chunk], Sealed(nonce, ct, chunk.plainLen);
    PackedSeparate(pools, all);
    ViewsAppend(chunks, chunk, one);
    LengthsAppend(sealed, one);
    StoreAt(chunk, nonce, ct, all, |chunks|);
    FilledBy(pools, all, sealed + [one]);
  }

  lemma PackedSeparate(pools: seq<ChunkPool>, chunks: seq<Chunk>)
    requires Packed(pools, chunks)
    ensures Separate(chunks)
  {
  }

  lemma FilledBy(pools: seq<ChunkPool>, chunks: seq<Chunk>, sealed: seq<Sealed>)
    requires Ready(pools) && Packed(pools, chunks) && Separate(chunks) && Views(chunks) == sealed
    requires Extents(pools) == Pools.PlaceAll(Lengths(sealed)).pools
    ensures Filled(pools, chunks, sealed)
  {
  }

  /** _new_chunk: one more chunk, placed as the allocator says, with every earlier one intact. */
  method NewChunk(p: Primitives, pools: seq<ChunkPool>, plaintext: Blob, key: Blob, nonce: Nonce,
                  ghost chunks: seq<Chunk>, ghost sealed: seq<Sealed>)
    returns (grown: seq<ChunkPool>, chunk: Chunk)
    requires Filled(pools, chunks, sealed)
    modifies Memory(pools)
    ensures Filled(grown, chunks + [chunk], sealed + [Seal(p, plaintext, key, nonce)])
    ensures fresh(Memory(grown) - Memory(pools))
  {
    hide *;
    var ct := p.aes.encrypt(key, nonce, Pack(p, plaintext));
    SealParts(p, plaintext, key, nonce);
    grown, chunk := Reserve(pools, |plaintext|, |ct|, chunks, sealed);
    WriteReserved(chunk, nonce, ct, grown, chunks, sealed);
  }

  lemma SealParts(p: Primitives, plain: Blob, key: Blob, nonce: Blob)
    ensures Seal(p, plain, key, nonce) == Sealed(nonce, p.aes.encrypt(key, nonce, Pack(p, plain)), |plain|)
  {
  }

  lemma ViewsAppend(chunks: seq<Chunk>, chunk: Chunk, one: Sealed)
    requires Separate(chunks) && Separate(chunks + [chunk])
    ensures (chunks + [chunk])[|chunks|] == chunk
    ensures Views(chunks + [chunk])[|chunks| := one] == Views(chunks) + [one]
  {
  }

  lemma PackedOneMore(pools: seq<ChunkPool>, chunks: seq<Chunk>, chunk: Chunk)
    requires Ready(pools) && Packed(pools, chunks) && chunk.pool in pools && chunk.End() == chunk.pool.cursor
    requires forall i :: 0 <= i < |chunks| && chunks[i].pool.buf == chunk.pool.buf ==> chunks[i].End() <= chunk.offset
    ensures Packed(pools, chunks + [chunk]) && Separate(chunks + [chunk])
  {
    assert chunk.pool.Valid();
  }

  lemma LengthsAppend(sealed: seq<Sealed>, one: Sealed)
    ensures Pools.PlaceAll(Lengths(sealed + [one])).pools
         == Pools.Place(Pools.PlaceAll(Lengths(sealed)).pools, |one.nonce| + |one.ct|).pools
  {
    var lengths := Lengths(sealed + [one]);
    assert lengths[..|lengths| - 1] == Lengths(sealed);
  }
}
