/** splitter.py: a file becomes content, structure and metadata; one of the first two is the
    original byte for byte. */
module Splitter {
  import opened Bytes
  import opened Crypto
  import opened Digits
  import opened BoxModel

  const ZIP_CONTAINER_EXTS: set<string> := {".docx", ".xlsx", ".pptx"}
  const ALREADY_COMPRESSED_EXTS: set<string> :=
    {".jpg", ".jpeg", ".png", ".gif", ".webp", ".mp4", ".mp3", ".aac", ".zip", ".gz", ".xz", ".bin"}

  /** Bytes in memory, or a FromFile marker for a file with these bytes. */
  datatype Piece = InMemory(bytes: Blob) | FromFile(bytes: Blob)

  datatype Original = Content | Structure

  datatype SplitResult = SplitResult(content: Piece, structure: Piece, metadata: Blob, reconstructFrom: Original) {
    function Source(): Piece {
      if reconstructFrom.Content? then content else structure
    }
  }

  /** PDF text extraction, Office XML extraction and str.encode: library code whose result may be
      anything. */
  datatype Library = Library(pdf: Blob -> Blob, office: (Blob, string) -> Blob, utf8: string -> Blob)

  // ---------------------------------------------------------------- metadata

  /** name, extension, size and digest of the whole file, on one line. */
  function MetadataText(name: string, ext: string, size: nat, digest: Blob): string {
    "name=" + name + "\text=" + ext + "\tsize=" + Decimal(size) + "\tsha256=" + Hex(digest)
  }

  function Metadata(p: Primitives, raw: Blob, name: string, ext: string, lib: Library): Blob {
    lib.utf8(MetadataText(name, ext, |raw|, p.sha256(raw)))
  }

  const HASH_CHUNK_SIZE: nat := 4 * 1024 * 1024

  /** _metadata_bytes_for_path: the digest is updated block by block. */
  method MetadataForPath(p: Primitives, file: Blob, name: string, ext: string, lib: Library) returns (metadata: Blob)
    ensures metadata == Metadata(p, file, name, ext, lib)
  {
    hide Decimal, Hex;
    var hashed, rest: Blob := [], file;
    while rest != []
      invariant hashed + rest == file
      decreases |rest|
    {
      var chunk := Take(rest, HASH_CHUNK_SIZE);
      hashed, rest := hashed + chunk, rest[|chunk|..];
    }
    assert hashed == file;
    metadata := lib.utf8(MetadataText(name, ext, |file|, p.sha256(hashed)));
  }

  /** The metadata tells size and digest, whatever the names are. */
  lemma MetadataTells(name: string, ext: string, size: nat, digest: Blob, name': string, ext': string, size': nat,
                      digest': Blob)
    requires MetadataText(name, ext, size, digest) == MetadataText(name', ext', size', digest')
    ensures size == size' && digest == digest'
  {
    hide *;
    var tail := "\tsha256";
    var front := InFields(name, ext, size, digest, tail);
    var front' := InFields(name', ext', size', digest', tail);
    LastFields(front, Decimal(size), Hex(digest), front', Decimal(size'), Hex(digest'), tail);
    DecimalRoundTrip(size);
    DecimalRoundTrip(size');
    HexRoundTrip(digest);
    HexRoundTrip(digest');
  }

  lemma InFields(name: string, ext: string, size: nat, digest: Blob, tail: string) returns (front: string)
    requires tail == "\tsha256"
    ensures MetadataText(name, ext, size, digest) == front + "=" + Decimal(size) + tail + "=" + Hex(digest)
    ensures '=' !in Decimal(size) && '=' !in Hex(digest) && '=' !in tail
  {
    front := "name=" + name + "\text=" + ext + "\tsize";
    assert tail + "=" == "\tsha256=" && "\tsize" + "=" == "\tsize=";
    hide Decimal, Hex;
  }

  lemma LastFields(front: string, d: string, h: string, front': string, d': string, h': string, tail: string)
    requires front + "=" + d + tail + "=" + h == front' + "=" + d' + tail + "=" + h'
    requires '=' !in d && '=' !in d' && '=' !in h && '=' !in h' && '=' !in tail
    ensures d == d' && h == h'
  {
    SplitAtLast(front + "=" + d + tail, front' + "=" + d' + tail, h, h', '=');
    assert front + "=" + d + tail == front + "=" + (d + tail);
    assert front' + "=" + d' + tail == front' + "=" + (d' + tail);
    SplitAtLast(front, front', d + tail, d' + tail, '=');
    assert d == (d + tail)[..|d + tail| - |tail|];
    assert d' == (d' + tail)[..|d' + tail| - |tail|];
  }

  // ---------------------------------------------------------------- the split

  /** split_file, for a lower-cased extension. */
  function SplitFile(p: Primitives, file: Blob, name: string, ext: string, lib: Library): SplitResult {
    var metadata := Metadata(p, file, name, ext, lib);
    if ext == ".pdf" then SplitResult(InMemory(lib.pdf(file)), FromFile(file), metadata, Structure)
    else if ext in ZIP_CONTAINER_EXTS
      then SplitResult(InMemory(lib.office(file, ext)), FromFile(file), metadata, Structure)
    else if ext in ALREADY_COMPRESSED_EXTS then SplitResult(InMemory([]), FromFile(file), metadata, Structure)
    else SplitResult(FromFile(file), InMemory(lib.utf8(ext)), metadata, Content)
  }

  /** split_bytes */
  function SplitBytes(p: Primitives, raw: Blob, name: string, ext: string, lib: Library): SplitResult {
    var metadata := Metadata(p, raw, name, ext, lib);
    if ext == ".pdf" then SplitResult(InMemory(lib.pdf(raw)), InMemory(raw), metadata, Structure)
    else if ext in ZIP_CONTAINER_EXTS
      then SplitResult(InMemory(lib.office(raw, ext)), InMemory(raw), metadata, Structure)
    else if ext in ALREADY_COMPRESSED_EXTS then SplitResult(InMemory([]), InMemory(raw), metadata, Structure)
    else SplitResult(InMemory(raw), InMemory(lib.utf8(ext)), metadata, Content)
  }

  /** piece_size */
  function PieceSize(piece: Piece): nat {
    |piece.bytes|
  }

  /** For every extension the piece to reconstruct from is the input itself, and its size is the
      size reported; split_bytes never asks for a file to be read. */
  lemma SourceIsOriginal(p: Primitives, raw: Blob, name: string, ext: string, lib: Library)
    ensures SplitFile(p, raw, name, ext, lib).Source() == FromFile(raw)
    ensures SplitBytes(p, raw, name, ext, lib).Source() == InMemory(raw)
    ensures var split := SplitBytes(p, raw, name, ext, lib); split.content.InMemory? && split.structure.InMemory?
    ensures PieceSize(SplitFile(p, raw, name, ext, lib).Source()) == |raw|
  {
    hide Metadata;
  }

  /** Both entry points split alike, and only the original is left on disk.  What the pieces are by
      extension: text taken from a PDF or an Office file beside the original; nothing beside a file
      that is already compressed; the original and its extension for everything else.  The metadata
      always has the size and the digest of the input. */
  lemma PiecesByExtension(p: Primitives, raw: Blob, name: string, ext: string, lib: Library)
    ensures var file, bytes := SplitFile(p, raw, name, ext, lib), SplitBytes(p, raw, name, ext, lib);
      && file.content.bytes == bytes.content.bytes && file.structure.bytes == bytes.structure.bytes
      && file.reconstructFrom == bytes.reconstructFrom
      && (file.content.FromFile? <==> file.reconstructFrom.Content?)
      && (file.structure.FromFile? <==> file.reconstructFrom.Structure?)
      && file.metadata == bytes.metadata == lib.utf8(MetadataText(name, ext, |raw|, p.sha256(raw)))
    ensures var content, structure := SplitFile(p, raw, name, ext, lib).content.bytes,
                                      SplitFile(p, raw, name, ext, lib).structure.bytes;
      && (ext == ".pdf" ==> content == lib.pdf(raw) && structure == raw)
      && (ext in {".docx", ".xlsx", ".pptx"} ==> content == lib.office(raw, ext) && structure == raw)
      && (ext in {".jpg", ".jpeg", ".png", ".gif", ".webp", ".mp4", ".mp3", ".aac", ".zip", ".gz", ".xz", ".bin"} ==>
            content == [] && structure == raw)
      && (ext in {"", ".txt", ".json", ".csv", ".md", ".py", ".html"} ==> content == raw && structure == lib.utf8(ext))
    ensures SplitFile(p, raw, name, ext, lib).reconstructFrom.Structure?
      <==> ext == ".pdf" || ext in ZIP_CONTAINER_EXTS || ext in ALREADY_COMPRESSED_EXTS
  {
    hide MetadataText;
  }
}
