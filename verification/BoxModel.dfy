/** The falling box of chunked_secure_box.py as a value: what one hop, one bounce of a key cell,
    and a snapshot do.  SecureBox implements this over real byte pools. */
module BoxModel {
  import opened Bytes
  import opened Crypto
  import opened Wrappers

  // ---------------------------------------------------------------- keys in cells

  /** _RawCell: two pages, of which one is active. */
  datatype Cell = Cell(a: Byte, b: Byte, onA: bool) {
    function Read(): Byte {
      if onA then a else b
    }

    function Write(value: Byte): Cell {
      if onA then this.(a := value) else this.(b := value)
    }

    function Bounce(): Cell {
      if onA then Cell(a, a, false) else Cell(b, b, true)
    }
  }

  type Guard = seq<Cell>

  function Stored(g: Guard): (s: Blob)
    ensures |s| == |g|
    ensures forall i :: 0 <= i < |g| ==> s[i] == g[i].Read()
  {
    seq(|g|, i requires 0 <= i < |g| => g[i].Read())
  }

  const KEY_PRESET: nat := 9
  const CHUNK_PRESET: nat := 6

  /** SplitKeyGuard(key) */
  function NewGuard(p: Primitives, key: Blob): Guard {
    var compressed := p.lzma.compress(KEY_PRESET, key);
    seq(|compressed|, i requires 0 <= i < |compressed| => Cell(compressed[i], 0, true))
  }

  /** reconstruct(); None is LZMAError. */
  function ReadKey(p: Primitives, g: Guard): Option<Blob> {
    p.lzma.decompress(Stored(g))
  }

  lemma NewGuardHoldsKey(p: Primitives, key: Blob)
    ensures ReadKey(p, NewGuard(p, key)) == Some(key)
  {
    assert Stored(NewGuard(p, key)) == p.lzma.compress(KEY_PRESET, key);
  }

  // ---------------------------------------------------------------- chunks

  /** `s[:limit]` */
  function Take(s: Blob, limit: nat): Blob {
    if limit <= |s| then s[..limit] else s
  }

  /** What a chunk's slot holds, and the length of its plaintext. */
  datatype Sealed = Sealed(nonce: Blob, ct: Blob, plainLen: nat)

  /** `lzma.compress(plaintext, preset=6) if plaintext else b""` */
  function Pack(p: Primitives, plain: Blob): Blob {
    if plain == [] then [] else p.lzma.compress(CHUNK_PRESET, plain)
  }

  /** `lzma.decompress(compressed) if compressed else b""` */
  function Unpack(p: Primitives, packed: Blob): Option<Blob> {
    if packed == [] then Some([]) else p.lzma.decompress(packed)
  }

  lemma UnpackPack(p: Primitives, plain: Blob)
    ensures Unpack(p, Pack(p, plain)) == Some(plain)
  {
  }

  /** _new_chunk */
  function Seal(p: Primitives, plain: Blob, key: Blob, nonce: Blob): Sealed {
    Sealed(nonce, p.aes.encrypt(key, nonce, Pack(p, plain)), |plain|)
  }

  /** _Chunk.reencrypt; None is InvalidTag. */
  function Reencrypt(p: Primitives, c: Sealed, from: Blob, to: Blob, nonce: Blob): Option<Sealed> {
    match p.aes.decrypt(from, c.nonce, c.ct)
    case None => None
    case Some(packed) => Some(Sealed(nonce, p.aes.encrypt(to, nonce, packed), c.plainLen))
  }

  /** _Chunk.decrypt */
  function Open(p: Primitives, c: Sealed, key: Blob): Option<Blob> {
    match p.aes.decrypt(key, c.nonce, c.ct)
    case None => None
    case Some(packed) => Unpack(p, packed)
  }

  // ---------------------------------------------------------------- the box

  datatype Box = Box(
    chunks: seq<Sealed>,
    onNext: seq<bool>,
    nextChunk: nat,
    hops: nat,
    current: Guard,
    next: Guard,
    dataLen: nat)
  {
    predicate Shaped() {
      chunks != [] && |onNext| == |chunks| && nextChunk < |chunks|
    }
  }

  /** What deriving a new key depends on: no trust group, the group's answer, or its exception. */
  datatype Trust = NoTrustGroup | Fetched(external: Blob) | FetchRaised

  /** b"vstorage-ratchet" */
  const RATCHET: Blob := [118, 115, 116, 111, 114, 97, 103, 101, 45, 114, 97, 116, 99, 104, 101, 116]

  /** _next_key; None when the trust group raises. */
  function NextKey(p: Primitives, key: Blob, trust: Trust): Option<Blob> {
    match trust
    case NoTrustGroup => Some(p.sha256(key + RATCHET))
    case Fetched(external) => Some(p.sha256(key + external + RATCHET))
    case FetchRaised => None
  }

  /** A hop either finishes or raises; both leave a box behind. */
  datatype Outcome = Finished(box: Box) | Raised(box: Box)

  function Flags(value: bool, n: nat): seq<bool> {
    seq(n, i => value)
  }

  predicate All(flags: seq<bool>) {
    forall i :: 0 <= i < |flags| ==> flags[i]
  }

  /** The key chunk i is under. */
  function KeyOf(b: Box, i: nat, currentKey: Blob, nextKey: Blob): Blob
    requires b.Shaped() && i < |b.chunks|
  {
    if b.onNext[i] then nextKey else currentKey
  }

  /** Re-encrypts the chunk at the cursor under the next key and moves the cursor on; None is
      InvalidTag. */
  function Migrate(p: Primitives, b: Box, currentKey: Blob, nextKey: Blob, nonce: Blob): Option<Box>
    requires b.Shaped()
  {
    var idx := b.nextChunk;
    match Reencrypt(p, b.chunks[idx], KeyOf(b, idx, currentKey, nextKey), nextKey, nonce)
    case None => None
    case Some(sealed) =>
      Some(b.(chunks := b.chunks[idx := sealed], onNext := b.onNext[idx := true],
              nextChunk := (idx + 1) % |b.chunks|, hops := b.hops + 1))
  }

  /** _do_one_hop_locked */
  function Hop(p: Primitives, b: Box, nonce: Blob, trust: Trust): Outcome
    requires b.Shaped()
  {
    match (ReadKey(p, b.current), ReadKey(p, b.next))
    case (Some(currentKey), Some(nextKey)) =>
      (match Migrate(p, b, currentKey, nextKey, nonce)
       case None => Raised(b)
       case Some(moved) =>
         if moved.nextChunk == 0 && All(moved.onNext) then Promote(p, moved, nextKey, trust) else Finished(moved))
    case _ => Raised(b)
  }

  /** The end of a generation: next becomes current, and a fresh next is derived from it. */
  function Promote(p: Primitives, b: Box, nextKey: Blob, trust: Trust): Outcome {
    var half := b.(current := b.next);
    match NextKey(p, nextKey, trust)
    case None => Raised(half)
    case Some(key) => Finished(half.(next := NewGuard(p, key), onNext := Flags(false, |b.chunks|)))
  }

  /** snapshot() */
  function Snapshot(p: Primitives, b: Box): Option<Blob>
    requires b.Shaped()
  {
    match (ReadKey(p, b.current), ReadKey(p, b.next))
    case (Some(currentKey), Some(nextKey)) =>
      (match Opened(p, b, currentKey, nextKey, |b.chunks|)
       case None => None
       case Some(out) => Some(Take(out, b.dataLen)))
    case _ => None
  }

  /** The plaintexts of the first n chunks, one after the other. */
  function Opened(p: Primitives, b: Box, currentKey: Blob, nextKey: Blob, n: nat): Option<Blob>
    requires b.Shaped() && n <= |b.chunks|
  {
    if n == 0 then Some([])
    else
      match (Opened(p, b, currentKey, nextKey, n - 1), Open(p, b.chunks[n - 1], KeyOf(b, n - 1, currentKey, nextKey)))
      case (Some(out), Some(plain)) => Some(out + Take(plain, b.chunks[n - 1].plainLen))
      case _ => None
  }

  // ---------------------------------------------------------------- what a box holds

  function Concat(pieces: seq<Blob>): Blob {
    if pieces == [] then [] else Concat(pieces[..|pieces| - 1]) + pieces[|pieces| - 1]
  }

  lemma {:induction false} ConcatAppend(a: seq<Blob>, b: seq<Blob>)
    ensures Concat(a + b) == Concat(a) + Concat(b)
    decreases |b|
  {
    if b == [] {
      assert a + b == a;
    } else {
      var front, last := b[..|b| - 1], b[|b| - 1];
      ConcatAppend(a, front);
      assert (a + b)[..|a + b| - 1] == a + front;
      assert (a + b)[|a + b| - 1] == last;
      assert Concat(a) + (Concat(front) + last) == (Concat(a) + Concat(front)) + last;
    }
  }

  /** Chunk i decrypts, under the key its flag selects, to the packed piece i. */
  ghost predicate ChunkHolds(p: Primitives, c: Sealed, key: Blob, piece: Blob) {
    p.aes.decrypt(key, c.nonce, c.ct) == Some(Pack(p, piece)) && c.plainLen == |piece|
  }

  ghost predicate Holds(p: Primitives, b: Box, pieces: seq<Blob>) {
    && b.Shaped() && |pieces| == |b.chunks| && b.dataLen == |Concat(pieces)|
    && ReadKey(p, b.current).Some? && ReadKey(p, b.next).Some?
    && forall i :: 0 <= i < |pieces| ==>
      ChunkHolds(p, b.chunks[i], KeyOf(b, i, ReadKey(p, b.current).value, ReadKey(p, b.next).value), pieces[i])
  }

  lemma ReencryptHolds(p: Primitives, c: Sealed, from: Blob, to: Blob, nonce: Blob, piece: Blob)
    requires ChunkHolds(p, c, from, piece)
    ensures var r := Reencrypt(p, c, from, to, nonce);
      r.Some? && ChunkHolds(p, r.value, to, piece) && |r.value.ct| == |Pack(p, piece)| + TAG_LEN
  {
  }

  /** One hop keeps the data, whether it finishes or the promotion raises. */
  lemma HopKeepsData(p: Primitives, b: Box, nonce: Blob, trust: Trust, pieces: seq<Blob>)
    requires Holds(p, b, pieces)
    ensures Holds(p, Hop(p, b, nonce, trust).box, pieces)
    ensures Hop(p, b, nonce, trust).Raised? ==> trust.FetchRaised?
  {
    var currentKey, nextKey := ReadKey(p, b.current).value, ReadKey(p, b.next).value;
    var idx := b.nextChunk;
    ReencryptHolds(p, b.chunks[idx], KeyOf(b, idx, currentKey, nextKey), nextKey, nonce, pieces[idx]);
    hide ChunkHolds, Reencrypt;
    var sealed := Reencrypt(p, b.chunks[idx], KeyOf(b, idx, currentKey, nextKey), nextKey, nonce).value;
    var moved := b.(chunks := b.chunks[idx := sealed], onNext := b.onNext[idx := true],
                    nextChunk := (idx + 1) % |b.chunks|, hops := b.hops + 1);
    assert Holds(p, moved, pieces);
    if moved.nextChunk == 0 && All(moved.onNext) {
      PromoteKeepsData(p, moved, nextKey, trust, pieces);
    }
  }

  lemma PromoteKeepsData(p: Primitives, b: Box, nextKey: Blob, trust: Trust, pieces: seq<Blob>)
    requires Holds(p, b, pieces) && All(b.onNext) && ReadKey(p, b.next) == Some(nextKey)
    ensures Holds(p, Promote(p, b, nextKey, trust).box, pieces)
    ensures Promote(p, b, nextKey, trust).Raised? <==> trust.FetchRaised?
  {
    hide ChunkHolds;
    var key := NextKey(p, nextKey, trust);
    if key.Some? {
      NewGuardHoldsKey(p, key.value);
    }
  }

  /** A bounce moves a key byte to its other page and changes nothing else. */
  function BounceCell(b: Box, inNext: bool, cell: nat): Box {
    if inNext then
      if cell < |b.next| then b.(next := b.next[cell := b.next[cell].Bounce()]) else b
    else
      if cell < |b.current| then b.(current := b.current[cell := b.current[cell].Bounce()]) else b
  }

  lemma BounceKeepsStored(g: Guard, cell: nat)
    requires cell < |g|
    ensures Stored(g[cell := g[cell].Bounce()]) == Stored(g)
  {
  }

  lemma BounceKeepsData(p: Primitives, b: Box, inNext: bool, cell: nat, pieces: seq<Blob>)
    requires Holds(p, b, pieces)
    ensures Holds(p, BounceCell(b, inNext, cell), pieces)
  {
    hide ChunkHolds;
    if inNext && cell < |b.next| {
      BounceKeepsStored(b.next, cell);
    } else if !inNext && cell < |b.current| {
      BounceKeepsStored(b.current, cell);
    }
  }

  // ---------------------------------------------------------------- any interleaving

  /** What the threads do to a box between two readings of it. */
  datatype Event = HopEvent(nonce: Blob, trust: Trust) | BounceEvent(inNext: bool, cell: nat)

  /** What is left of a schedule for a box that the scheduler has dropped: its cells still bounce. */
  function Bounces(events: seq<Event>): (r: seq<Event>)
    ensures |r| <= |events|
  {
    if events == [] then []
    else if events[0].BounceEvent? then [events[0]] + Bounces(events[1..])
    else Bounces(events[1..])
  }

  /** A hop that raises is the last one: the scheduler drops the box. */
  function After(p: Primitives, b: Box, events: seq<Event>): Box
    requires b.Shaped()
    ensures After(p, b, events).Shaped()
    decreases |events|
  {
    if events == [] then b
    else
      match events[0]
      case HopEvent(nonce, trust) =>
        (match Hop(p, b, nonce, trust)
         case Finished(b') => After(p, b', events[1..])
         case Raised(b') => After(p, b', Bounces(events[1..])))
      case BounceEvent(inNext, cell) => After(p, BounceCell(b, inNext, cell), events[1..])
  }

  /** In every state reached by any interleaving of hops and cell bounces, with or without a
      promotion that raises, every chunk decrypts under the key its flag selects. */
  lemma {:induction false} EveryStateHoldsData(p: Primitives, b: Box, events: seq<Event>, pieces: seq<Blob>)
    requires Holds(p, b, pieces)
    ensures Holds(p, After(p, b, events), pieces)
    decreases |events|
  {
    if events != [] {
      hide Holds, Hop, BounceCell;
      assert b.Shaped() by { HoldsShaped(p, b, pieces); }
      match events[0]
      case HopEvent(nonce, trust) =>
        HopKeepsData(p, b, nonce, trust, pieces);
        EveryStateHoldsData(p, Hop(p, b, nonce, trust).box,
                            if Hop(p, b, nonce, trust).Finished? then events[1..] else Bounces(events[1..]), pieces);
      case BounceEvent(inNext, cell) =>
        BounceKeepsData(p, b, inNext, cell, pieces);
        EveryStateHoldsData(p, BounceCell(b, inNext, cell), events[1..], pieces);
    }
  }

  lemma HoldsShaped(p: Primitives, b: Box, pieces: seq<Blob>)
    requires Holds(p, b, pieces)
    ensures b.Shaped()
  {
  }

  lemma {:induction false} OpenedIsConcat(p: Primitives, b: Box, pieces: seq<Blob>, n: nat)
    requires Holds(p, b, pieces) && n <= |pieces|
    ensures Opened(p, b, ReadKey(p, b.current).value, ReadKey(p, b.next).value, n) == Some(Concat(pieces[..n]))
    decreases n
  {
    if n > 0 {
      OpenedIsConcat(p, b, pieces, n - 1);
      UnpackPack(p, pieces[n - 1]);
      assert pieces[..n][..n - 1] == pieces[..n - 1];
      assert Take(pieces[n - 1], b.chunks[n - 1].plainLen) == pieces[n - 1];
      hide Unpack, Pack;
      assert Open(p, b.chunks[n - 1], KeyOf(b, n - 1, ReadKey(p, b.current).value, ReadKey(p, b.next).value))
        == Some(pieces[n - 1]);
    }
  }

  /** A snapshot taken in any reachable state returns the data the box was made from. */
  lemma SnapshotIsData(p: Primitives, b: Box, events: seq<Event>, pieces: seq<Blob>)
    requires Holds(p, b, pieces)
    ensures Snapshot(p, After(p, b, events)) == Some(Concat(pieces))
  {
    EveryStateHoldsData(p, b, events, pieces);
    var b' := After(p, b, events);
    OpenedIsConcat(p, b', pieces, |pieces|);
    assert pieces[..|pieces|] == pieces;
    assert Take(Concat(pieces), b'.dataLen) == Concat(pieces);
  }

  /** In every such state the box's memory has nothing of the data but ciphertext: each chunk is
      exactly the encryption, under the key its flag selects, of its piece compressed. */
  lemma EveryStateIsEncrypted(p: Primitives, b: Box, events: seq<Event>, pieces: seq<Blob>, i: nat)
    requires Holds(p, b, pieces) && i < |pieces|
    ensures var b' := After(p, b, events);
      && b'.Shaped() && i < |b'.chunks| && ReadKey(p, b'.current).Some? && ReadKey(p, b'.next).Some?
      && var key := if b'.onNext[i] then ReadKey(p, b'.next).value else ReadKey(p, b'.current).value;
         b'.chunks[i].ct
         == p.aes.encrypt(key, b'.chunks[i].nonce, if pieces[i] == [] then [] else p.lzma.compress(6, pieces[i]))
  {
    EveryStateHoldsData(p, b, events, pieces);
    hide After, Concat, ReadKey;
  }

  // ---------------------------------------------------------------- the recorded length

  lemma HopIgnoresLength(p: Primitives, b: Box, nonce: Blob, trust: Trust, d: nat)
    requires b.Shaped()
    ensures var r := Hop(p, b, nonce, trust);
      Hop(p, b.(dataLen := d), nonce, trust)
      == if r.Finished? then Finished(r.box.(dataLen := d)) else Raised(r.box.(dataLen := d))
  {
    hide ReadKey, Reencrypt, NextKey, NewGuard, All;
  }

  lemma {:induction false} AfterIgnoresLength(p: Primitives, b: Box, events: seq<Event>, d: nat)
    requires b.Shaped()
    ensures After(p, b.(dataLen := d), events) == After(p, b, events).(dataLen := d)
    decreases |events|
  {
    if events != [] {
      hide Hop;
      match events[0]
      case HopEvent(nonce, trust) =>
        HopIgnoresLength(p, b, nonce, trust, d);
        var r := Hop(p, b, nonce, trust);
        AfterIgnoresLength(p, r.box, if r.Finished? then events[1..] else Bounces(events[1..]), d);
      case BounceEvent(inNext, cell) =>
        AfterIgnoresLength(p, BounceCell(b, inNext, cell), events[1..], d);
    }
  }

  lemma {:induction false} OpenedIgnoresLength(p: Primitives, b: Box, currentKey: Blob, nextKey: Blob, n: nat, d: nat)
    requires b.Shaped() && n <= |b.chunks|
    ensures Opened(p, b.(dataLen := d), currentKey, nextKey, n) == Opened(p, b, currentKey, nextKey, n)
    decreases n
  {
    if n > 0 {
      OpenedIgnoresLength(p, b, currentKey, nextKey, n - 1, d);
    }
  }

  /** Whatever length a box records, a snapshot is what its chunks hold, cut to that length. */
  lemma SnapshotTakesLength(p: Primitives, b: Box, events: seq<Event>, pieces: seq<Blob>, d: nat)
    requires Holds(p, b, pieces)
    ensures Snapshot(p, After(p, b.(dataLen := d), events)) == Some(Take(Concat(pieces), d))
  {
    EveryStateHoldsData(p, b, events, pieces);
    AfterIgnoresLength(p, b, events, d);
    var b' := After(p, b, events);
    OpenedIgnoresLength(p, b', ReadKey(p, b'.current).value, ReadKey(p, b'.next).value, |pieces|, d);
    OpenedIsConcat(p, b', pieces, |pieces|);
    assert pieces[..|pieces|] == pieces;
    hide Opened, ReadKey, Take, Concat, After;
  }
}
