/** The bump allocator that packs chunk payloads into pools, as a function on sizes. */
module Pools {
  /** _POOL_SIZE */
  const POOL_SIZE: nat := 64 * 1024 * 1024

  /** A pool's size and its cursor. */
  datatype Extent = Extent(size: nat, used: nat)

  /** Where a payload went: [offset, offset + length) of pool number `pool`. */
  datatype Slot = Slot(pool: nat, offset: nat, length: nat)

  datatype Placed = Placed(pools: seq<Extent>, slot: Slot)

  predicate HasRoom(pools: seq<Extent>, length: nat) {
    pools != [] && pools[|pools| - 1].used + length <= pools[|pools| - 1].size
  }

  function NewPoolSize(length: nat): nat {
    if length > POOL_SIZE then length else POOL_SIZE
  }

  /** The allocation in _new_chunk: the last pool if the payload fits there, else a new pool. */
  function Place(pools: seq<Extent>, length: nat): Placed {
    if HasRoom(pools, length) then
      var last := |pools| - 1;
      Placed(pools[last := pools[last].(used := pools[last].used + length)], Slot(last, pools[last].used, length))
    else
      Placed(pools + [Extent(NewPoolSize(length), length)], Slot(|pools|, 0, length))
  }

  datatype Layout = Layout(pools: seq<Extent>, slots: seq<Slot>)

  function PlaceAll(lengths: seq<nat>): (r: Layout)
    ensures |r.slots| == |lengths|
  {
    if lengths == [] then Layout([], [])
    else
      var before := PlaceAll(lengths[..|lengths| - 1]);
      var placed := Place(before.pools, lengths[|lengths| - 1]);
      Layout(placed.pools, before.slots + [placed.slot])
  }

  ghost predicate InBounds(pools: seq<Extent>, s: Slot) {
    s.pool < |pools| && s.offset + s.length <= pools[s.pool].used <= pools[s.pool].size
  }

  ghost predicate Disjoint(s: Slot, t: Slot) {
    s.pool != t.pool || s.offset + s.length <= t.offset || t.offset + t.length <= s.offset
  }

  /** Allocating in a new pool always succeeds, so the caller's retry never returns None. */
  lemma RetrySucceeds(pools: seq<Extent>, length: nat)
    ensures HasRoom(pools + [Extent(NewPoolSize(length), 0)], length)
    ensures InBounds(Place(pools, length).pools, Place(pools, length).slot)
    ensures !HasRoom(pools, length) ==> Place(pools, length) == Place(pools + [Extent(NewPoolSize(length), 0)], length)
  {
    var extended := pools + [Extent(NewPoolSize(length), 0)];
    assert extended[|extended| - 1 := Extent(NewPoolSize(length), length)]
      == pools + [Extent(NewPoolSize(length), length)];
  }

  /** Over any sequence of payloads the slots lie inside their pools and do not overlap. */
  lemma {:induction false} SlotsAreSeparate(lengths: seq<nat>)
    ensures var layout := PlaceAll(lengths);
      && (forall i :: 0 <= i < |lengths| ==>
        layout.slots[i].length == lengths[i] && InBounds(layout.pools, layout.slots[i]))
      && (forall i, j :: 0 <= i < j < |lengths| ==> Disjoint(layout.slots[i], layout.slots[j]))
    decreases |lengths|
  {
    if lengths != [] {
      var front, last := lengths[..|lengths| - 1], lengths[|lengths| - 1];
      SlotsAreSeparate(front);
      RetrySucceeds(PlaceAll(front).pools, last);
    }
  }

  // ---------------------------------------------------------------- how many pools

  function Sum(lengths: seq<nat>): nat {
    if lengths == [] then 0 else Sum(lengths[..|lengths| - 1]) + lengths[|lengths| - 1]
  }

  function Used(pools: seq<Extent>): nat {
    if pools == [] then 0 else Used(pools[..|pools| - 1]) + pools[|pools| - 1].used
  }

  /** Each pool but the last, together with its successor, is more than a pool full. */
  ghost predicate Crowded(pools: seq<Extent>) {
    && (forall i :: 0 <= i < |pools| ==> pools[i].size >= POOL_SIZE)
    && (forall i :: 0 < i < |pools| ==> pools[i - 1].used + pools[i].used > POOL_SIZE)
  }

  lemma PlaceKeepsCrowded(pools: seq<Extent>, length: nat)
    requires Crowded(pools)
    ensures Crowded(Place(pools, length).pools) && Used(Place(pools, length).pools) == Used(pools) + length
  {
    var after := Place(pools, length).pools;
    if HasRoom(pools, length) {
      assert after[..|after| - 1] == pools[..|pools| - 1];
    } else {
      assert after[..|after| - 1] == pools;
    }
  }

  lemma {:induction false} LayoutCrowded(lengths: seq<nat>)
    ensures Crowded(PlaceAll(lengths).pools) && Used(PlaceAll(lengths).pools) == Sum(lengths)
    decreases |lengths|
  {
    if lengths != [] {
      LayoutCrowded(lengths[..|lengths| - 1]);
      PlaceKeepsCrowded(PlaceAll(lengths[..|lengths| - 1]).pools, lengths[|lengths| - 1]);
    }
  }

  lemma {:induction false} CrowdedBound(pools: seq<Extent>)
    requires Crowded(pools) && pools != []
    ensures (|pools| - 1) * POOL_SIZE + pools[|pools| - 1].used <= 2 * Used(pools)
    decreases |pools|
  {
    if |pools| > 1 {
      var front := pools[..|pools| - 1];
      CrowdedBound(front);
      assert front[|front| - 1] == pools[|pools| - 2];
    }
  }

  /** There are at most 1 + 2 * total / POOL_SIZE pools. */
  lemma PoolCountBound(lengths: seq<nat>)
    ensures |PlaceAll(lengths).pools| <= 1 + 2 * Sum(lengths) / POOL_SIZE
  {
    hide *;
    LayoutCrowded(lengths);
    var pools := PlaceAll(lengths).pools;
    if pools != [] {
      CrowdedBound(pools);
    }
    Quotient(|pools|, Sum(lengths));
  }

  lemma Quotient(n: nat, total: nat)
    requires n > 0 ==> (n - 1) * POOL_SIZE <= 2 * total
    ensures n <= 1 + 2 * total / POOL_SIZE
  {
  }

  // ---------------------------------------------------------------- how large they are

  /** A payload larger than a pool has one of its own, of just its size; every other pool has the
      standard size. */
  ghost predicate Fitted(layout: Layout, lengths: seq<nat>, q: nat)
    requires q < |layout.pools| && |layout.slots| == |lengths|
  {
    var pool := layout.pools[q];
    || pool.size == POOL_SIZE
    || (pool.size > POOL_SIZE && pool.used == pool.size
        && exists i :: 0 <= i < |lengths| && lengths[i] == pool.size && layout.slots[i] == Slot(q, 0, pool.size))
  }

  lemma {:induction false} PoolSizes(lengths: seq<nat>, q: nat)
    requires q < |PlaceAll(lengths).pools|
    ensures Fitted(PlaceAll(lengths), lengths, q)
    decreases |lengths|
  {
    if lengths != [] {
      var front, last := lengths[..|lengths| - 1], lengths[|lengths| - 1];
      var before, after := PlaceAll(front), PlaceAll(lengths);
      if q < |before.pools| {
        PoolSizes(front, q);
        var pool := before.pools[q];
        if pool.size != POOL_SIZE {
          var i :| 0 <= i < |front| && front[i] == pool.size && before.slots[i] == Slot(q, 0, pool.size);
          assert lengths[i] == pool.size && after.slots[i] == Slot(q, 0, pool.size);
        }
      } else if last > POOL_SIZE {
        assert lengths[|front|] == last && after.slots[|front|] == Slot(q, 0, last);
      }
    }
  }
}
