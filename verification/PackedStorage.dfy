/** packed_system.py: every file's pieces, compressed, in three shared boxes. */
module PackedStorage {
  import opened Bytes
  import opened Crypto
  import opened PackedBox
  import opened Splitter
  import opened Wrappers

  /** _compress */
  function Compress(p: Primitives, preset: nat, data: Blob): Blob {
    if data == [] then [] else p.lzma.compress(preset, data)
  }

  /** _decompress; None is LZMAError. */
  function Decompress(p: Primitives, data: Blob): Option<Blob> {
    if data == [] then Some([]) else p.lzma.decompress(data)
  }

  lemma DecompressCompress(p: Primitives, preset: nat, data: Blob)
    ensures Decompress(p, Compress(p, preset, data)) == Some(data)
  {
  }

  /** What was saved under an id, for the proof: the three pieces. */
  datatype Saved = Saved(content: Blob, structure: Blob, metadata: Blob)

  datatype Which = Full | ContentPiece | StructurePiece | MetadataPiece

  function PieceOf(s: Saved, which: Which, reconstructFrom: Original): Blob {
    match which
    case Full => if reconstructFrom.Content? then s.content else s.structure
    case ContentPiece => s.content
    case StructurePiece => s.structure
    case MetadataPiece => s.metadata
  }

  /** A box holds exactly the compressed form of one piece of each saved file. */
  ghost predicate BoxMatches(p: Primitives, preset: nat, contents: map<FileId, Blob>, saved: map<FileId, Saved>,
                             which: Which)
  {
    && contents.Keys == saved.Keys
    && forall id :: id in saved ==> contents[id] == Compress(p, preset, PieceOf(saved[id], which, Content))
  }

  lemma MatchesAdd(p: Primitives, preset: nat, contents: map<FileId, Blob>, saved: map<FileId, Saved>, which: Which,
                   id: FileId, s: Saved)
    requires BoxMatches(p, preset, contents, saved, which) && id !in saved
    ensures id !in contents
    ensures
      var piece := Compress(p, preset, PieceOf(s, which, Content));
      BoxMatches(p, preset, contents[id := piece], saved[id := s], which)
  {
    hide Compress;
  }

  lemma MatchesRemove(p: Primitives, preset: nat, contents: map<FileId, Blob>, saved: map<FileId, Saved>,
                      which: Which, id: FileId)
    requires BoxMatches(p, preset, contents, saved, which)
    ensures BoxMatches(p, preset, contents - {id}, saved - {id}, which)
  {
    hide Compress;
  }

  lemma PiecesSaved(p: Primitives, raw: Blob, name: string, ext: string, lib: Library)
    ensures var split := SplitBytes(p, raw, name, ext, lib);
      var s := Saved(split.content.bytes, split.structure.bytes, split.metadata);
      && PieceOf(s, Full, split.reconstructFrom) == raw && PieceOf(s, ContentPiece, Content) == s.content
      && PieceOf(s, StructurePiece, Content) == s.structure && PieceOf(s, MetadataPiece, Content) == s.metadata
  {
    SourceIsOriginal(p, raw, name, ext, lib);
  }

  /** What a box holds for a saved file is its piece, compressed unless empty, and decompresses to it. */
  lemma MatchesGet(p: Primitives, preset: nat, contents: map<FileId, Blob>, saved: map<FileId, Saved>, which: Which,
                   id: FileId)
    requires BoxMatches(p, preset, contents, saved, which) && id in saved
    ensures id in contents && Decompress(p, contents[id]) == Some(PieceOf(saved[id], which, Content))
    ensures var piece := PieceOf(saved[id], which, Content);
      contents[id] == if piece == [] then [] else p.lzma.compress(preset, piece)
  {
    DecompressCompress(p, preset, PieceOf(saved[id], which, Content));
    hide Decompress, PieceOf;
  }

  /** "full" is one of the first two pieces. */
  function Resolve(which: Which, reconstructFrom: Original): Which {
    if which.Full? then (if reconstructFrom.Content? then ContentPiece else StructurePiece) else which
  }

  lemma ResolvePiece(s: Saved, which: Which, reconstructFrom: Original)
    ensures PieceOf(s, Resolve(which, reconstructFrom), Content) == PieceOf(s, which, reconstructFrom)
  {
  }

  lemma ResolvedIsPiece(which: Which, reconstructFrom: Original)
    ensures Resolve(which, reconstructFrom) != Full
  {
  }

  class PackedVirtualStorage {
    const p: Primitives
    const preset: nat
    const contentBox: PackedFallingBox
    const structureBox: PackedFallingBox
    const metadataBox: PackedFallingBox
    var meta: map<FileId, Original>
    ghost var saved: map<FileId, Saved>

    ghost predicate Valid()
      reads this, contentBox, structureBox, metadataBox
    {
      && contentBox != structureBox && contentBox != metadataBox && structureBox != metadataBox
      && contentBox.Valid() && structureBox.Valid() && metadataBox.Valid()
      && meta.Keys == saved.Keys
      && BoxMatches(p, preset, contentBox.Contents(), saved, ContentPiece)
      && BoxMatches(p, preset, structureBox.Contents(), saved, StructurePiece)
      && BoxMatches(p, preset, metadataBox.Contents(), saved, MetadataPiece)
    }

    constructor (p: Primitives, preset: nat)
      ensures Valid() && meta == map[] && saved == map[]
      ensures fresh(contentBox) && fresh(structureBox) && fresh(metadataBox)
    {
      this.p, this.preset, meta, saved := p, preset, map[], map[];
      contentBox := new PackedFallingBox();
      structureBox := new PackedFallingBox();
      metadataBox := new PackedFallingBox();
    }

    /** save_bytes, under a new uuid. */
    method SaveBytes(raw: Blob, name: string, ext: string, lib: Library, id: FileId)
      requires Valid() && id !in meta
      modifies this, contentBox, structureBox, metadataBox
      ensures Valid()
      ensures var split := SplitBytes(p, raw, name, ext, lib);
        && meta == old(meta)[id := split.reconstructFrom]
        && saved == old(saved)[id := Saved(split.content.bytes, split.structure.bytes, split.metadata)]
      ensures PieceOf(saved[id], Full, meta[id]) == raw
    {
      hide Compress, BoxMatches, SplitBytes, PieceOf, PackedFallingBox.Valid, PackedFallingBox.Contents;
      var split := SplitBytes(p, raw, name, ext, lib);
      ghost var s := Saved(split.content.bytes, split.structure.bytes, split.metadata);
      PiecesSaved(p, raw, name, ext, lib);
      MatchesAdd(p, preset, contentBox.Contents(), saved, ContentPiece, id, s);
      MatchesAdd(p, preset, structureBox.Contents(), saved, StructurePiece, id, s);
      MatchesAdd(p, preset, metadataBox.Contents(), saved, MetadataPiece, id, s);
      AddPieces(id, Compress(p, preset, split.content.bytes), Compress(p, preset, split.structure.bytes),
                Compress(p, preset, split.metadata));
      meta := meta[id := split.reconstructFrom];
      saved := saved[id := s];
    }

    method AddPieces(id: FileId, content: Blob, structure: Blob, metadata: Blob)
      requires contentBox != structureBox && contentBox != metadataBox && structureBox != metadataBox
      requires contentBox.Valid() && structureBox.Valid() && metadataBox.Valid()
      requires id !in contentBox.Contents() && id !in structureBox.Contents() && id !in metadataBox.Contents()
      modifies contentBox, structureBox, metadataBox
      ensures contentBox.Valid() && structureBox.Valid() && metadataBox.Valid()
      ensures contentBox.Contents() == old(contentBox.Contents())[id := content]
      ensures structureBox.Contents() == old(structureBox.Contents())[id := structure]
      ensures metadataBox.Contents() == old(metadataBox.Contents())[id := metadata]
    {
      hide *;
      contentBox.Add(id, content);
      structureBox.Add(id, structure);
      metadataBox.Add(id, metadata);
    }

    /** retrieve(); None is KeyError. */
    method Retrieve(id: FileId, which: Which) returns (data: Option<Blob>)
      requires Valid()
      modifies contentBox, structureBox, metadataBox
      ensures Valid() && data == if id in meta then Some(PieceOf(saved[id], which, meta[id])) else None
    {
      hide Compress, Decompress, PieceOf, Resolve, BoxMatches, PackedFallingBox.Valid, PackedFallingBox.Contents;
      if id !in meta {
        return None;
      }
      var chosen := Resolve(which, meta[id]);
      ResolvePiece(saved[id], which, meta[id]);
      if chosen == ContentPiece {
        data := Fetch(contentBox, id, ContentPiece);
      } else if chosen == StructurePiece {
        data := Fetch(structureBox, id, StructurePiece);
      } else {
        ResolvedIsPiece(which, meta[id]);
        data := Fetch(metadataBox, id, MetadataPiece);
      }
    }

    method Fetch(box: PackedFallingBox, id: FileId, ghost which: Which) returns (data: Option<Blob>)
      requires box.Valid() && BoxMatches(p, preset, box.Contents(), saved, which) && id in saved
      modifies box
      ensures box.Valid() && box.Contents() == old(box.Contents())
      ensures data == Some(PieceOf(saved[id], which, Content))
    {
      hide *;
      MatchesGet(p, preset, box.Contents(), saved, which, id);
      var compressed := box.Get(id);
      data := Decompress(p, compressed.value);
    }

    /** forget() */
    method Forget(id: FileId)
      requires Valid()
      modifies this, contentBox, structureBox, metadataBox
      ensures Valid() && meta == old(meta) - {id} && saved == old(saved) - {id}
    {
      hide BoxMatches, PackedFallingBox.Valid, PackedFallingBox.Contents;
      if id !in meta {
        assert meta - {id} == meta && saved - {id} == saved;
        return;
      }
      MatchesRemove(p, preset, contentBox.Contents(), saved, ContentPiece, id);
      MatchesRemove(p, preset, structureBox.Contents(), saved, StructurePiece, id);
      MatchesRemove(p, preset, metadataBox.Contents(), saved, MetadataPiece, id);
      RemovePieces(id);
      meta := meta - {id};
      saved := saved - {id};
    }

    method RemovePieces(id: FileId)
      requires contentBox != structureBox && contentBox != metadataBox && structureBox != metadataBox
      requires contentBox.Valid() && structureBox.Valid() && metadataBox.Valid()
      modifies contentBox, structureBox, metadataBox
      ensures contentBox.Valid() && structureBox.Valid() && metadataBox.Valid()
      ensures contentBox.Contents() == old(contentBox.Contents()) - {id}
      ensures structureBox.Contents() == old(structureBox.Contents()) - {id}
      ensures metadataBox.Contents() == old(metadataBox.Contents()) - {id}
    {
      hide *;
      var found := contentBox.Remove(id);
      found := structureBox.Remove(id);
      found := metadataBox.Remove(id);
    }

    /** Each box falls once. */
    method Fall()
      requires Valid()
      modifies contentBox, structureBox, metadataBox
      ensures Valid()
    {
      hide BoxMatches, PackedFallingBox.Valid, PackedFallingBox.Contents;
      contentBox.Fall();
      structureBox.Fall();
      metadataBox.Fall();
    }
  }
}
