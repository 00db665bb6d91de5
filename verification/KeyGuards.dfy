/** split_key_guard.py: a key kept as one cell per byte of its compressed form. */
module KeyGuards {
  import opened Bytes
  import opened Crypto
  import opened BoxModel
  import opened Wrappers

  /** _RawCell: one byte in one of two pages. */
  class RawCell {
    var pageA: Byte
    var pageB: Byte
    var onA: bool

    function View(): Cell
      reads this
    {
      Cell(pageA, pageB, onA)
    }

    constructor (value: Byte)
      ensures View() == Cell(value, 0, true)
    {
      pageA, pageB, onA := value, 0, true;
    }

    method Bounce()
      modifies this
      ensures View() == old(View()).Bounce() && View().Read() == old(View().Read()) && onA != old(onA)
    {
      if onA {
        pageB := pageA;
        onA := false;
      } else {
        pageA := pageB;
        onA := true;
      }
    }

    method Read() returns (value: Byte)
      ensures value == View().Read()
    {
      value := if onA then pageA else pageB;
    }

    method Write(value: Byte)
      modifies this
      ensures View() == old(View()).Write(value) && View().Read() == value
    {
      if onA {
        pageA := value;
      } else {
        pageB := value;
      }
    }
  }

  class SplitKeyGuard {
    const p: Primitives
    const cells: seq<RawCell>
    var hops: seq<nat>
    var removed: bool
    var closed: bool     // the pages of its cells are unmapped

    ghost predicate Valid()
      reads this
    {
      |hops| == |cells| && forall i, j :: 0 <= i < j < |cells| ==> cells[i] != cells[j]
    }

    ghost function View(): (g: Guard)
      reads cells
      ensures |g| == |cells| && forall i :: 0 <= i < |g| ==> g[i] == cells[i].View()
    {
      seq(|cells|, i requires 0 <= i < |cells| reads cells => cells[i].View())
    }

    constructor (p: Primitives, key: Blob)
      ensures Valid() && this.p == p && !removed && !closed && View() == NewGuard(p, key)
      ensures forall c :: c in cells ==> fresh(c)
    {
      var compressed := p.lzma.compress(KEY_PRESET, key);
      var made: seq<RawCell> := [];
      while |made| < |compressed|
        invariant |made| <= |compressed|
        invariant forall c :: c in made ==> fresh(c)
        invariant forall i, j :: 0 <= i < j < |made| ==> made[i] != made[j]
        invariant forall i :: 0 <= i < |made| ==> made[i].View() == Cell(compressed[i], 0, true)
      {
        var cell := new RawCell(compressed[|made|]);
        made := made + [cell];
      }
      this.p, cells, hops, removed, closed := p, made, seq(|made|, i => 0), false, false;
    }

    method Reconstruct() returns (key: Option<Blob>)
      ensures key == ReadKey(p, View())
    {
      var compressed: Blob := [];
      for i := 0 to |cells|
        invariant compressed == Stored(View())[..i]
      {
        var value := cells[i].Read();
        compressed := compressed + [value];
      }
      assert compressed == Stored(View());
      key := p.lzma.decompress(compressed);
    }

    /** Rewrites every cell in place, unless the compressed length changed. */
    method Update(newKey: Blob) returns (done: bool)
      requires Valid()
      modifies cells
      ensures Valid() && done == (|p.lzma.compress(KEY_PRESET, newKey)| == |cells|)
      ensures done ==> ReadKey(p, View()) == Some(newKey)
      ensures !done ==> View() == old(View())
    {
      var compressed := p.lzma.compress(KEY_PRESET, newKey);
      if |compressed| != |cells| {
        return false;
      }
      for i := 0 to |cells|
        invariant forall k :: 0 <= k < i ==> cells[k].View().Read() == compressed[k]
      {
        cells[i].Write(compressed[i]);
      }
      assert Stored(View()) == compressed;
      done := true;
    }

    /** What a worker of the cell scheduler does to one cell while it holds the guard's lock. */
    method ServiceCell(idx: nat) returns (bounced: bool)
      requires Valid() && idx < |cells|
      modifies `hops, cells[idx]
      ensures Valid() && bounced == !removed
      ensures View() == if bounced then old(View())[idx := old(View())[idx].Bounce()] else old(View())
      ensures hops == if bounced then old(hops)[idx := old(hops)[idx] + 1] else old(hops)
      ensures ReadKey(p, View()) == old(ReadKey(p, View()))
    {
      bounced := !removed;
      if bounced {
        BounceKeepsStored(View(), idx);
        cells[idx].Bounce();
        hops := hops[idx := hops[idx] + 1];
        assert View() == old(View())[idx := old(View())[idx].Bounce()];
      }
    }

    /** Sets the flag under the lock, then closes the pages. */
    method Collapse()
      modifies `removed, `closed
      ensures removed && closed
    {
      removed := true;
      closed := true;
    }
  }
}
