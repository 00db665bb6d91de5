/** How a box cuts its input into chunks: from memory, and from a file read in larger blocks. */
module Slicing {
  import opened Bytes
  import opened BoxModel

  /** [data[i:i + size] for i in range(0, len(data), size)] */
  function Slices(data: Blob, size: nat): seq<Blob>
    requires size > 0
    decreases |data|
  {
    if data == [] then [] else [Take(data, size)] + Slices(data[|Take(data, size)|..], size)
  }

  /** The same cut made block by block: each block of `raw` bytes is sliced on its own. */
  function BlockSlices(data: Blob, raw: nat, size: nat): seq<Blob>
    requires raw > 0 && size > 0
    decreases |data|
  {
    if data == [] then []
    else Slices(Take(data, raw), size) + BlockSlices(data[|Take(data, raw)|..], raw, size)
  }

  /** Both entry points hold a single empty chunk rather than none. */
  function OrEmpty(pieces: seq<Blob>): (r: seq<Blob>)
    ensures r != [] && Concat(r) == Concat(pieces)
  {
    if pieces == [] then [[]] else pieces
  }

  /** RAW_READ_SIZE */
  function RawReadSize(size: int): (raw: nat)
    ensures raw >= size && raw > 0
  {
    if size > 16 * 1024 * 1024 then size else 16 * 1024 * 1024
  }

  /** The chunks of __init__.  A range with a negative step is empty, so a negative chunk size cuts
      nothing and one empty chunk is made; a step of 0 raises. */
  function CutMemory(data: Blob, size: int): (r: seq<Blob>)
    requires size != 0
    ensures r != []
  {
    if size < 0 then [[]] else OrEmpty(Slices(data, size))
  }

  /** The chunks of from_file, where range() is reached only if there is something to read. */
  function CutFile(file: Blob, size: int): (r: seq<Blob>)
    requires size != 0 || file == []
    ensures r != []
  {
    if size <= 0 then [[]] else OrEmpty(BlockSlices(file, RawReadSize(size), size))
  }

  lemma {:induction false} ConcatCons(head: Blob, rest: seq<Blob>)
    ensures Concat([head] + rest) == head + Concat(rest)
  {
    ConcatAppend([head], rest);
    assert [head][..0] == [];
    assert Concat([head]) == head;
  }

  /** The slices are the data again, none is empty, and all but the last have the chunk size. */
  lemma {:induction false} SlicesAreData(data: Blob, size: nat)
    requires size > 0
    ensures Concat(Slices(data, size)) == data
    ensures forall piece :: piece in Slices(data, size) ==> 0 < |piece| <= size
    ensures forall i :: 0 <= i < |Slices(data, size)| - 1 ==> |Slices(data, size)[i]| == size
    decreases |data|
  {
    if data != [] {
      hide *;
      FirstSlice(data, size);
      var head, rest := Take(data, size), data[|Take(data, size)|..];
      SlicesAreData(rest, size);
      ConcatCons(head, Slices(rest, size));
    }
  }

  lemma FirstSlice(data: Blob, size: nat)
    requires size > 0 && data != []
    ensures var head := Take(data, size);
      && 0 < |head| <= size && |head| <= |data| && data == head + data[|head|..]
      && Slices(data, size) == [head] + Slices(data[|head|..], size)
      && (Slices(data[|head|..], size) != [] ==> |head| == size)
  {
  }

  /** The same of a file, whether or not the block size is a multiple of the chunk size. */
  lemma {:induction false} BlockSlicesAreData(data: Blob, raw: nat, size: nat)
    requires raw > 0 && size > 0
    ensures Concat(BlockSlices(data, raw, size)) == data
    ensures forall piece :: piece in BlockSlices(data, raw, size) ==> 0 < |piece| <= size
    decreases |data|
  {
    if data != [] {
      var block, rest := Take(data, raw), data[|Take(data, raw)|..];
      SlicesAreData(block, size);
      BlockSlicesAreData(rest, raw, size);
      ConcatAppend(Slices(block, size), BlockSlices(rest, raw, size));
      assert data == block + rest;
    }
  }

  /** The length of m blocks. */
  function BlocksLength(m: nat, raw: nat): (r: nat)
    ensures r == m * raw
  {
    if m == 0 then 0 else raw + BlocksLength(m - 1, raw)
  }

  /** No slice straddles two blocks: where a block ends, a slice ends. */
  lemma {:induction false} BlocksEndSlices(data: Blob, raw: nat, size: nat, m: nat) returns (j: nat)
    requires raw > 0 && size > 0 && BlocksLength(m, raw) <= |data|
    ensures j <= |BlockSlices(data, raw, size)|
    ensures Concat(BlockSlices(data, raw, size)[..j]) == data[..BlocksLength(m, raw)]
    decreases m
  {
    hide *;
    BlocksStep(m, raw);
    if m == 0 {
      j := 0;
      NoPiecesYet();
    } else {
      var block, rest, end := data[..raw], data[raw..], BlocksLength(m - 1, raw);
      FirstBlock(data, raw, size);
      SlicesAreData(block, size);
      j := BlocksEndSlices(rest, raw, size, m - 1);
      var first, more := Slices(block, size), BlockSlices(rest, raw, size);
      ConcatAppend(first, more[..j]);
      assert (first + more)[..|first| + j] == first + more[..j];
      assert data[..raw + end] == block + rest[..end];
      j := |first| + j;
    }
  }

  lemma BlocksStep(m: nat, raw: nat)
    ensures BlocksLength(m, raw) == if m == 0 then 0 else raw + BlocksLength(m - 1, raw)
  {
  }

  lemma NoPiecesYet()
    ensures Concat([]) == []
  {
  }

  lemma FirstBlock(data: Blob, raw: nat, size: nat)
    requires 0 < raw <= |data| && size > 0
    ensures BlockSlices(data, raw, size) == Slices(data[..raw], size) + BlockSlices(data[raw..], raw, size)
  {
  }

  /** When the block size is a multiple of the chunk size the two cuts agree. */
  lemma {:induction false} SameCut(data: Blob, blocks: nat, size: nat)
    requires blocks > 0 && size > 0
    ensures blocks * size > 0 && BlockSlices(data, blocks * size, size) == Slices(data, size)
    decreases |data|
  {
    assert blocks * size >= size by { assert blocks * size == size + (blocks - 1) * size; }
    var raw := blocks * size;
    if data != [] {
      var block, rest := Take(data, raw), data[|Take(data, raw)|..];
      SameCut(rest, blocks, size);
      if |data| <= raw {
        assert block == data && rest == [];
      } else {
        SlicesSplit(data, blocks, size);
      }
    }
  }

  lemma {:induction false} SlicesSplit(data: Blob, n: nat, size: nat)
    requires size > 0 && 0 <= n * size <= |data|
    ensures Slices(data, size) == Slices(data[..n * size], size) + Slices(data[n * size..], size)
    decreases n
  {
    if n == 0 {
      assert data[0 * size..] == data && data[..0 * size] == [];
    } else {
      assert n * size == size + (n - 1) * size;
      var rest := data[size..];
      SlicesSplit(rest, n - 1, size);
      assert data[..n * size][..size] == data[..size];
      assert data[..n * size][size..] == rest[..(n - 1) * size];
      assert data[n * size..] == rest[(n - 1) * size..];
    }
  }
}
