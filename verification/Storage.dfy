/** secure_system.py: saving a file into three boxes and getting it back. */
module Storage {
  import opened Bytes
  import opened Crypto
  import opened BoxModel
  import opened BoxRotation
  import opened KeyRatchet
  import opened ChunkedBox
  import opened Slicing
  import opened Streams
  import opened SecureBox
  import opened Splitter
  import opened Wrappers

  // ---------------------------------------------------------------- on values

  /** The chunks _make_box cuts a piece into. */
  function ChunksOf(piece: Splitter.Piece, size: int): (r: seq<Blob>)
    requires size != 0
    ensures r != []
  {
    match piece
    case InMemory(bytes) => CutMemory(bytes, size)
    case FromFile(bytes) => CutFile(bytes, size)
  }

  lemma ChunksAreBytes(piece: Splitter.Piece, size: nat)
    requires size > 0
    ensures Concat(ChunksOf(piece, size)) == piece.bytes
    ensures forall c :: c in ChunksOf(piece, size) ==> |c| <= size
  {
    SlicesAreData(piece.bytes, size);
    BlockSlicesAreData(piece.bytes, RawReadSize(size), size);
  }

  /** How the bytes reach the box: from memory through split_bytes, or from disk through split_file. */
  function SplitFor(p: Primitives, raw: Blob, name: string, ext: string, onDisk: bool, lib: Library): SplitResult {
    if onDisk then SplitFile(p, raw, name, ext, lib) else SplitBytes(p, raw, name, ext, lib)
  }

  lemma SourceIsRaw(p: Primitives, raw: Blob, name: string, ext: string, onDisk: bool, lib: Library)
    ensures SplitFor(p, raw, name, ext, onDisk, lib).Source().bytes == raw
  {
    SourceIsOriginal(p, raw, name, ext, lib);
  }

  /** Saving and then retrieving "full" returns exactly the input, for every extension, chunk size
      and schedule of hops and bounces, promotions that raise included; streaming it out returns
      the same, and so does reading back the wrapped stream. */
  lemma SavedFileComesBack(p: Primitives, raw: Blob, name: string, ext: string, onDisk: bool, lib: Library, size: nat,
                           key: Blob, nextKey: Blob, nonces: NonceSource, events: seq<Event>,
                           transit: Blob, sendNonces: seq<Blob>)
    requires size > 0
    ensures var chunks := ChunksOf(SplitFor(p, raw, name, ext, onDisk, lib).Source(), size);
      var box := After(p, Fresh(p, chunks, key, nextKey, NonceList(nonces, |chunks|), |raw|), events);
      && Snapshot(p, box) == Some(raw)
      && StreamTo(p, box).Complete? && Concat(StreamTo(p, box).sent) == raw
      && (size + TAG_LEN < LENGTH_LIMIT && Nonces(sendNonces) && |sendNonces| >= |chunks| ==>
        Fits(StreamTo(p, box).sent) && |sendNonces| >= |StreamTo(p, box).sent|
        && Unwrapped(p, transit, Wrapped(p, transit, sendNonces, StreamTo(p, box).sent)) == Complete(raw))
  {
    var piece := SplitFor(p, raw, name, ext, onDisk, lib).Source();
    SourceIsRaw(p, raw, name, ext, onDisk, lib);
    ChunksAreBytes(piece, size);
    var chunks := ChunksOf(piece, size);
    assert size + TAG_LEN < LENGTH_LIMIT ==> Fits(chunks);
    hide *;
    FreshHolds(p, chunks, key, nextKey, NonceList(nonces, |chunks|));
    var box := Fresh(p, chunks, key, nextKey, NonceList(nonces, |chunks|), |raw|);
    SnapshotIsData(p, box, events, chunks);
    StreamIsSnapshot(p, box, events, chunks);
    if size + TAG_LEN < LENGTH_LIMIT && Nonces(sendNonces) && |sendNonces| >= |chunks| {
      WrappedBoxReadsBack(p, box, events, chunks, transit, sendNonces);
    }
  }

  /** Exactly which chunk sizes keep the data: every positive one.  With a negative one the box
      silently holds nothing, and only an empty input comes back. */
  lemma ChunkSizeIsExact(p: Primitives, piece: Splitter.Piece, size: int, key: Blob, nextKey: Blob,
                         nonces: NonceSource, events: seq<Event>)
    requires size != 0
    ensures var chunks := ChunksOf(piece, size);
      var box := Fresh(p, chunks, key, nextKey, NonceList(nonces, |chunks|), |piece.bytes|);
      Snapshot(p, After(p, box, events)) == Some(piece.bytes) <==> size > 0 || piece.bytes == []
  {
    var chunks, raw := ChunksOf(piece, size), piece.bytes;
    if size > 0 {
      ChunksAreBytes(piece, size);
    } else {
      assert chunks == [[]] && chunks[..0] == [] && Concat(chunks) == [];
    }
    var all := Concat(chunks);
    assert size > 0 ==> Take(all, |raw|) == raw;
    assert size < 0 ==> Take(all, |raw|) == [];
    hide *;
    FreshHolds(p, chunks, key, nextKey, NonceList(nonces, |chunks|));
    var box := Fresh(p, chunks, key, nextKey, NonceList(nonces, |chunks|), |all|);
    SnapshotTakesLength(p, box, events, chunks, |raw|);
    FreshLength(p, chunks, key, nextKey, NonceList(nonces, |chunks|), |all|, |raw|);
  }

  lemma FreshLength(p: Primitives, chunks: seq<Blob>, key: Blob, nextKey: Blob, nonces: seq<Blob>, n: nat, d: nat)
    requires |nonces| == |chunks|
    ensures Fresh(p, chunks, key, nextKey, nonces, d) == Fresh(p, chunks, key, nextKey, nonces, n).(dataLen := d)
  {
    hide Seal, NewGuard;
  }

  // ---------------------------------------------------------------- on objects

  /** The box's chunks hold exactly this data. */
  ghost predicate Keeps(box: ChunkedSecureBox, data: Blob)
    reads box, box.currentGuard, box.nextGuard, box.currentGuard.cells, box.nextGuard.cells, Slots(box.chunks)
  {
    box.Valid() && exists pieces :: Holds(box.p, box.View(), pieces) && Concat(pieces) == data
  }

  /** What one box takes from outside: its key, what the trust group answers when the second key
      is derived, and the nonces of its chunks. */
  datatype Supply = Supply(key: Blob, trust: Trust, nonces: NonceSource)

  /** The box starts with the key it was supplied and one derived with the group's secret, and tells
      the watchdog of new guards if there is one. */
  ghost predicate Started(box: ChunkedSecureBox, p: Primitives, supply: Supply, watchdog: bool)
    reads box, box.currentGuard, box.nextGuard, box.currentGuard.cells, box.nextGuard.cells
  {
    && box.p == p && box.notifies == watchdog && box.reported == [] && !box.removed
    && ReadKey(p, box.currentGuard.View()) == Some(supply.key)
    && ReadKey(p, box.nextGuard.View()) == Some(Folded(p, supply.key, [Secret(supply.trust)]))
  }

  /** _make_box; None when the trust group raises. */
  method MakeBox(p: Primitives, piece: Splitter.Piece, size: nat, supply: Supply, notifies: bool)
    returns (box: Option<ChunkedSecureBox>)
    requires size > 0
    ensures box.None? <==> supply.trust.FetchRaised?
    ensures box.Some? ==> fresh(box.value.Parts()) && box.value.Apart() && Keeps(box.value, piece.bytes)
    ensures box.Some? ==> Started(box.value, p, supply, notifies)
  {
    hide *;
    if piece.FromFile? {
      box := ChunkedSecureBox.MakeFromFile(p, piece.bytes, size, supply.key, supply.trust, supply.nonces, notifies);
    } else {
      box := ChunkedSecureBox.Make(p, piece.bytes, size, supply.key, supply.trust, supply.nonces, notifies);
    }
    ChunksByKind(piece, size);
    if box.Some? {
      ghost var pieces := ChunksOf(piece, size);
      ChunksAreBytes(piece, size);
      NextKeyUnlessRaised(p, supply.key, supply.trust);
      FreshHolds(p, pieces, supply.key, NextKey(p, supply.key, supply.trust).value, NonceList(supply.nonces, |pieces|));
      ValidIsSeparate(box.value);
      KeepsBy(box.value, pieces, piece.bytes);
      StartedBy(box.value, p, supply, notifies);
    }
  }

  lemma ChunksByKind(piece: Splitter.Piece, size: nat)
    requires size > 0
    ensures ChunksOf(piece, size)
         == if piece.FromFile? then CutFile(piece.bytes, size) else CutMemory(piece.bytes, size)
  {
    hide CutMemory, CutFile;
  }

  lemma NextKeyUnlessRaised(p: Primitives, key: Blob, trust: Trust)
    ensures NextKey(p, key, trust).None? <==> trust.FetchRaised?
  {
  }

  lemma StartedBy(box: ChunkedSecureBox, p: Primitives, supply: Supply, watchdog: bool)
    requires Separate(box.chunks) && box.p == p && box.notifies == watchdog && box.reported == [] && !box.removed
    requires ReadKey(p, box.View().current) == Some(supply.key)
    requires ReadKey(p, box.View().next) == Some(Folded(p, supply.key, [Secret(supply.trust)]))
    ensures Started(box, p, supply, watchdog)
  {
    hide Separate, ReadKey, Folded;
  }

  lemma ValidIsSeparate(box: ChunkedSecureBox)
    requires box.Valid()
    ensures Separate(box.chunks)
  {
    hide Separate;
  }

  lemma KeepsBy(box: ChunkedSecureBox, pieces: seq<Blob>, data: Blob)
    requires box.Valid() && Separate(box.chunks) && Holds(box.p, box.View(), pieces) && Concat(pieces) == data
    ensures Keeps(box, data)
  {
    hide Holds, Concat, Separate;
  }

  /** A hop of a box keeps its data, whether or not it raises. */
  method HopBox(box: ChunkedSecureBox, nonce: Nonce, trust: Trust, ghost data: Blob) returns (done: bool)
    requires Keeps(box, data) && box.Apart()
    modifies box.Parts()
    ensures Keeps(box, data) && fresh(box.Parts() - old(box.Parts()))
    ensures if done then box.Apart() else trust.FetchRaised?
    ensures box.View() == Hop(box.p, old(box.View()), nonce, trust).box
  {
    hide Holds, Hop, Separate, Views;
    ghost var pieces :| Holds(box.p, box.View(), pieces) && Concat(pieces) == data;
    HopKeepsData(box.p, box.View(), nonce, trust, pieces);
    done := box.DoOneHopLocked(nonce, trust);
    assert Holds(box.p, box.View(), pieces);
  }

  lemma CellInParts(box: ChunkedSecureBox, inNext: bool, cell: nat)
    requires cell < |box.GuardAt(inNext).cells|
    ensures box.GuardAt(inNext) in box.Parts() && box.GuardAt(inNext).cells[cell] in box.Parts()
  {
    hide Slots;
    var c := box.GuardAt(inNext).cells[cell];
    assert c in box.GuardAt(inNext).cells;
  }

  /** So does moving a cell of either guard, also once the two guards are one object. */
  method BounceBox(box: ChunkedSecureBox, inNext: bool, cell: nat, ghost data: Blob)
    requires Keeps(box, data) && cell < |box.GuardAt(inNext).cells|
    modifies box.Parts()
    ensures Keeps(box, data) && box.Parts() == old(box.Parts()) && box.Apart() == old(box.Apart())
    ensures !box.GuardAt(inNext).removed && box.Apart() ==> box.View() == BounceCell(old(box.View()), inNext, cell)
  {
    hide Holds, BounceCell, Separate, Views;
    ghost var b := box.View();
    ghost var pieces :| Holds(box.p, b, pieces) && Concat(pieces) == data;
    BounceKeepsData(box.p, b, inNext, cell, pieces);
    BounceKeepsData(box.p, b, false, cell, pieces);
    BounceKeepsData(box.p, BounceCell(b, false, cell), true, cell, pieces);
    CellInParts(box, inNext, cell);
    var _ := box.ServiceGuardCell(inNext, cell);
    assert Holds(box.p, box.View(), pieces);
  }

  /** retrieve(), from the box that holds the original. */
  method Retrieve(box: ChunkedSecureBox, ghost data: Blob) returns (out: Option<Blob>)
    requires Keeps(box, data)
    modifies box
    ensures out == Some(data) && Keeps(box, data)
  {
    hide Holds, Snapshot, Separate, Views, After;
    ghost var pieces :| Holds(box.p, box.View(), pieces) && Concat(pieces) == data;
    SnapshotNow(box.p, box.View(), pieces);
    out := box.TakeSnapshot();
    assert Holds(box.p, box.View(), pieces);
  }

  lemma SnapshotNow(p: Primitives, b: Box, pieces: seq<Blob>)
    requires Holds(p, b, pieces)
    ensures b.Shaped() && Snapshot(p, b) == Some(Concat(pieces))
  {
    SnapshotIsData(p, b, [], pieces);
  }

  /** _Held */
  datatype HeldFile = HeldFile(
    content: ChunkedSecureBox, structure: ChunkedSecureBox, metadata: ChunkedSecureBox,
    reconstructFrom: Original, originalSize: nat, name: string)
  {
    function Source(): ChunkedSecureBox {
      if reconstructFrom.Content? then content else structure
    }
  }

  /** What _hold takes from outside: a supply for each box, and whether there is a watchdog. */
  datatype Surroundings = Surroundings(content: Supply, structure: Supply, metadata: Supply, watchdog: bool) {
    predicate Raises() {
      content.trust.FetchRaised? || structure.trust.FetchRaised? || metadata.trust.FetchRaised?
    }
  }

  /** _hold: three boxes, each keeping its piece; None when deriving a key for one of them raises. */
  method Hold(p: Primitives, split: SplitResult, size: nat, around: Surroundings, name: string)
    returns (held: Option<HeldFile>)
    requires size > 0
    ensures held.None? <==> around.Raises()
    ensures held.Some? ==>
      var h := held.value;
      && Keeps(h.content, split.content.bytes) && Keeps(h.structure, split.structure.bytes)
      && Keeps(h.metadata, split.metadata)
      && Keeps(h.Source(), split.Source().bytes) && h.originalSize == |split.Source().bytes| && h.name == name
      && fresh(h.Source().Parts()) && h.Source().Apart()
    ensures held.Some? ==>
      && Started(held.value.content, p, around.content, around.watchdog)
      && Started(held.value.structure, p, around.structure, around.watchdog)
      && Started(held.value.metadata, p, around.metadata, around.watchdog)
  {
    hide Keeps, Started;
    var content := MakeBox(p, split.content, size, around.content, around.watchdog);
    if content == None {
      return None;
    }
    var structure := MakeBox(p, split.structure, size, around.structure, around.watchdog);
    if structure == None {
      return None;
    }
    var metadata := MakeBox(p, InMemory(split.metadata), size, around.metadata, around.watchdog);
    if metadata == None {
      return None;
    }
    var originalSize := if split.reconstructFrom.Content? then PieceSize(split.content) else PieceSize(split.structure);
    held := Some(HeldFile(content.value, structure.value, metadata.value, split.reconstructFrom, originalSize, name));
  }

  /** A turn of a worker: of the box scheduler on the box, or of the cell scheduler on a cell of one
      of its guards. */
  datatype Work = HopWork(nonce: Nonce, trust: Trust) | CellWork(inNext: bool, cell: nat)

  /** One turn.  A box whose hop has raised is not hopped again; its cells still bounce. */
  method Serve(box: ChunkedSecureBox, scheduled: bool, work: Work, ghost data: Blob) returns (still: bool)
    requires Keeps(box, data) && (scheduled ==> box.Apart())
    modifies box.Parts()
    ensures Keeps(box, data) && fresh(box.Parts() - old(box.Parts())) && (still ==> box.Apart())
    ensures work.HopWork? ==>
      box.View() == if scheduled then Hop(box.p, old(box.View()), work.nonce, work.trust).box else old(box.View())
  {
    hide Keeps, ChunkedSecureBox.Parts;
    still := scheduled;
    match work
    case HopWork(nonce, trust) =>
      if scheduled {
        still := HopBox(box, nonce, trust, data);
      }
    case CellWork(inNext, cell) =>
      if cell < |box.GuardAt(inNext).cells| {
        BounceBox(box, inNext, cell, data);
      }
  }

  /** Through the objects: hold a file's split, let the workers of both schedulers serve its box in
      any order, and "full" is the input byte for byte. */
  method SaveHopRetrieve(p: Primitives, raw: Blob, name: string, ext: string, onDisk: bool, lib: Library,
                         size: nat, around: Surroundings, schedule: seq<Work>)
    returns (out: Option<Blob>)
    requires size > 0
    ensures out == if around.Raises() then None else Some(raw)
  {
    hide *;
    var split := SplitFor(p, raw, name, ext, onDisk, lib);
    SourceIsRaw(p, raw, name, ext, onDisk, lib);
    var held := Hold(p, split, size, around, name);
    if held == None {
      return None;
    }
    var box, scheduled := held.value.Source(), true;
    for i := 0 to |schedule|
      invariant Keeps(box, raw) && fresh(box.Parts()) && (scheduled ==> box.Apart())
    {
      ghost var before := box.Parts();
      label Turn:
      scheduled := Serve(box, scheduled, schedule[i], raw);
      assert fresh@Turn(box.Parts() - before);
      forall o | o in box.Parts() - before ensures fresh(o) {
        assert fresh@Turn(o);
      }
      assert box.Parts() <= before + (box.Parts() - before);
    }
    out := Retrieve(box, raw);
  }
}
