/** process_watchdog.py's region table, and the registrars of secure_system.py that fill it. */
module Watchdog {
  import opened Wrappers

  const MAX_REGIONS: nat := 200_000

  /** A c_uint64 */
  type Word = n: nat | n < 0x1_0000_0000_0000_0000

  datatype Region = Region(addr: Word, length: Word)

  /** The table: MAX_REGIONS entries, of which the first `count` are watched. */
  datatype Table = Table(entries: seq<Region>, count: nat)

  function Patch(entries: seq<Region>, start: nat, regions: seq<Region>): (r: seq<Region>)
    requires start + |regions| <= |entries|
    ensures |r| == |entries|
  {
    entries[..start] + regions + entries[start + |regions|..]
  }

  /** add_regions; None is RuntimeError. */
  function Add(t: Table, regions: seq<Region>): Option<Table>
    requires |t.entries| == MAX_REGIONS
  {
    if t.count + |regions| > MAX_REGIONS then None
    else Some(Table(Patch(t.entries, t.count, regions), t.count + |regions|))
  }

  /** reserve_slot; None is -1. */
  function Reserve(t: Table, size: nat): Option<nat> {
    if t.count + size > MAX_REGIONS then None else Some(t.count)
  }

  // ---------------------------------------------------------------- the shared array

  class ProcessWatchdog {
    const regions: array<Word>
    var count: nat

    ghost predicate Valid()
      reads this
    {
      regions.Length == 2 * MAX_REGIONS && count <= MAX_REGIONS
    }

    ghost function View(): (t: Table)
      requires Valid()
      reads this, regions
      ensures |t.entries| == MAX_REGIONS
    {
      Table(Entries(), count)
    }

    ghost function Entries(): (r: seq<Region>)
      requires Valid()
      reads this, regions
      ensures |r| == MAX_REGIONS && forall j :: 0 <= j < MAX_REGIONS ==>
        r[j] == Region(regions[j * 2], regions[j * 2 + 1])
    {
      seq(MAX_REGIONS, j requires 0 <= j < MAX_REGIONS && Valid() reads this, regions =>
        Region(regions[j * 2], regions[j * 2 + 1]))
    }

    constructor ()
      ensures Valid() && fresh(regions)
      ensures View() == Table(seq(MAX_REGIONS, j => Region(0, 0)), 0)
    {
      regions := new Word[2 * MAX_REGIONS](i => 0);
      count := 0;
      new;
      assert Entries() == seq(MAX_REGIONS, j => Region(0, 0));
    }

    /** The loop both writers share. */
    method Write(start: nat, batch: seq<Region>)
      requires Valid() && start + |batch| <= MAX_REGIONS
      modifies regions
      ensures Entries() == Patch(old(Entries()), start, batch)
    {
      for j := 0 to |batch|
        invariant forall k :: 0 <= k < MAX_REGIONS ==>
          Entries()[k] == if start <= k < start + j then batch[k - start] else old(Entries())[k]
      {
        ghost var before := Entries();
        ghost var flat := regions[..];
        regions[(start + j) * 2] := batch[j].addr;
        regions[(start + j) * 2 + 1] := batch[j].length;
        forall k | 0 <= k < MAX_REGIONS
          ensures Entries()[k] == if k == start + j then batch[j] else before[k]
        {
          assert before[k] == Region(flat[k * 2], flat[k * 2 + 1]);
          assert k != start + j ==> regions[k * 2] == flat[k * 2] && regions[k * 2 + 1] == flat[k * 2 + 1];
        }
      }
      assert Entries() == Patch(old(Entries()), start, batch);
    }

    method AddRegions(batch: seq<Region>) returns (done: bool)
      requires Valid()
      modifies `count, regions
      ensures Valid() && done == Add(old(View()), batch).Some?
      ensures View() == if done then Add(old(View()), batch).value else old(View())
      ensures done <==> old(count) + |batch| <= MAX_REGIONS
      ensures count == old(count) + (if done then |batch| else 0)
      ensures done ==> Entries()[old(count)..count] == batch
      ensures forall j :: 0 <= j < MAX_REGIONS && !(old(count) <= j < count) ==> Entries()[j] == old(Entries())[j]
    {
      var i := count;
      if i + |batch| > MAX_REGIONS {
        return false;
      }
      Write(i, batch);
      count := i + |batch|;
      done := true;
    }

    method ReserveSlot(size: nat) returns (index: Option<nat>)
      requires Valid()
      modifies `count
      ensures Valid() && index == Reserve(old(View()), size)
      ensures index == if old(count) + size <= MAX_REGIONS then Some(old(count)) else None
      ensures View() == old(View()).(count := if index.Some? then old(count) + size else old(count))
    {
      var i := count;
      if i + size > MAX_REGIONS {
        return None;
      }
      count := i + size;
      index := Some(i);
    }

    method UpdateSlot(start: nat, batch: seq<Region>)
      requires Valid() && start + |batch| <= MAX_REGIONS
      modifies regions
      ensures Valid() && View() == Table(Patch(old(Entries()), start, batch), count)
      ensures Entries()[start..start + |batch|] == batch
      ensures forall j :: 0 <= j < MAX_REGIONS && !(start <= j < start + |batch|) ==> Entries()[j] == old(Entries())[j]
    {
      Write(start, batch);
    }
  }

  // ---------------------------------------------------------------- one registrar

  /** The registrar's `slot`: index None, index -1, or a reserved place. */
  datatype Slot = Unset | NoRoom | At(index: nat, size: nat)

  datatype Registered = Registered(table: Table, slot: Slot)

  /** _on_new_guard: reserves on the first report, overwrites on every report of the same length. */
  function OnNewGuard(t: Table, slot: Slot, batch: seq<Region>): Registered
    requires |t.entries| == MAX_REGIONS && (slot.At? ==> slot.index + slot.size <= MAX_REGIONS)
  {
    match slot
    case NoRoom => Registered(t, NoRoom)
    case At(index, size) =>
      Registered(if |batch| == size then t.(entries := Patch(t.entries, index, batch)) else t, slot)
    case Unset =>
      match Reserve(t, |batch|)
      case None => Registered(t, NoRoom)
      case Some(index) => Registered(Table(Patch(t.entries, index, batch), t.count + |batch|), At(index, |batch|))
  }

  /** The closure _rotation_registrar returns, one per box. */
  class Registrar {
    const watchdog: ProcessWatchdog
    var slot: Slot

    ghost predicate Valid()
      reads this, watchdog
    {
      watchdog.Valid() && (slot.At? ==> slot.index + slot.size <= MAX_REGIONS)
    }

    constructor (watchdog: ProcessWatchdog)
      requires watchdog.Valid()
      ensures Valid() && this.watchdog == watchdog && slot == Unset
    {
      this.watchdog, slot := watchdog, Unset;
    }

    method Report(batch: seq<Region>)
      requires Valid()
      modifies `slot, watchdog`count, watchdog.regions
      ensures Valid()
      ensures Registered(watchdog.View(), slot) == OnNewGuard(old(watchdog.View()), old(slot), batch)
    {
      if slot.Unset? {
        var index := watchdog.ReserveSlot(|batch|);
        slot := if index.Some? then At(index.value, |batch|) else NoRoom;
      }
      if slot.At? && |batch| == slot.size {
        watchdog.UpdateSlot(slot.index, batch);
      }
    }
  }

  // ---------------------------------------------------------------- any run of saves and rotations

  /** A save appends a block; a rotation of a box reports its new guard. */
  datatype Event = Append(batch: seq<Region>) | Report(box: nat, batch: seq<Region>)

  /** A stretch of the table: appended once, or the slot of a box; and what it should hold. */
  datatype Block = Block(start: nat, contents: seq<Region>, owner: Option<nat>) {
    function End(): nat {
      start + |contents|
    }
  }

  datatype State = State(table: Table, slots: map<nat, Slot>, blocks: seq<Block>)

  function SlotOf(s: State, box: nat): Slot {
    if box in s.slots then s.slots[box] else Unset
  }

  function Initial(): State {
    State(Table(seq(MAX_REGIONS, j => Region(0, 0)), 0), map[], [])
  }

  /** The blocks after a box reports: a new slot at the end, or new contents in its own. */
  function Reblocked(blocks: seq<Block>, count: nat, slot: Slot, box: nat, batch: seq<Region>): (r: seq<Block>) {
    if slot.Unset? && count + |batch| <= MAX_REGIONS then blocks + [Block(count, batch, Some(box))]
    else if slot.At? && |batch| == slot.size then
      seq(|blocks|, k requires 0 <= k < |blocks| =>
        if blocks[k].owner == Some(box) then blocks[k].(contents := batch) else blocks[k])
    else blocks
  }

  function After(s: State, e: Event): State
    requires Inv(s)
  {
    match e
    case Append(batch) =>
      (match Add(s.table, batch)
       case None => s
       case Some(t) => State(t, s.slots, s.blocks + [Block(s.table.count, batch, None)]))
    case Report(box, batch) =>
      var r := OnNewGuard(s.table, SlotOf(s, box), batch);
      State(r.table, s.slots[box := r.slot], Reblocked(s.blocks, s.table.count, SlotOf(s, box), box, batch))
  }

  /** Blocks follow one another below the count, and each holds what it should. */
  predicate Laid(t: Table, blocks: seq<Block>) {
    && |t.entries| == MAX_REGIONS && t.count <= MAX_REGIONS
    && (forall k :: 0 <= k < |blocks| ==>
      blocks[k].End() <= t.count && t.entries[blocks[k].start..blocks[k].End()] == blocks[k].contents)
    && (forall j, k :: 0 <= j < k < |blocks| ==> blocks[j].End() <= blocks[k].start)
  }

  /** Each box owns at most one block, the one its registrar's slot names. */
  predicate Owned(slots: map<nat, Slot>, blocks: seq<Block>) {
    && (forall k :: 0 <= k < |blocks| && blocks[k].owner.Some? ==>
      blocks[k].owner.value in slots && slots[blocks[k].owner.value] == At(blocks[k].start, |blocks[k].contents|))
    && (forall j, k :: 0 <= j < k < |blocks| && blocks[j].owner.Some? ==> blocks[j].owner != blocks[k].owner)
    && (forall box :: box in slots && slots[box].At? ==> exists k :: 0 <= k < |blocks| && blocks[k].owner == Some(box))
  }

  predicate Inv(s: State) {
    && Laid(s.table, s.blocks) && Owned(s.slots, s.blocks)
    && (forall box :: box in s.slots && s.slots[box].At? ==> s.slots[box].index + s.slots[box].size <= s.table.count)
  }

  lemma PatchKeeps(entries: seq<Region>, start: nat, batch: seq<Region>, b: Block)
    requires start + |batch| <= |entries| && b.End() <= |entries| && (b.End() <= start || start + |batch| <= b.start)
    ensures Patch(entries, start, batch)[b.start..b.End()] == entries[b.start..b.End()]
  {
  }

  lemma LaidAppend(t: Table, blocks: seq<Block>, one: Block)
    requires Laid(t, blocks) && one.start == t.count && one.End() <= MAX_REGIONS
    ensures Laid(Table(Patch(t.entries, one.start, one.contents), one.End()), blocks + [one])
  {
    var entries := Patch(t.entries, one.start, one.contents);
    forall k | 0 <= k < |blocks|
      ensures entries[blocks[k].start..blocks[k].End()] == blocks[k].contents
    {
      PatchKeeps(t.entries, one.start, one.contents, blocks[k]);
    }
    assert entries[one.start..one.End()] == one.contents;
    hide Patch;
  }

  lemma LaidRewrite(t: Table, blocks: seq<Block>, n: nat, batch: seq<Region>)
    requires Laid(t, blocks) && n < |blocks| && |batch| == |blocks[n].contents|
    ensures Laid(t.(entries := Patch(t.entries, blocks[n].start, batch)), blocks[n := blocks[n].(contents := batch)])
  {
    var entries, after := Patch(t.entries, blocks[n].start, batch), blocks[n := blocks[n].(contents := batch)];
    forall k | 0 <= k < |after|
      ensures entries[after[k].start..after[k].End()] == after[k].contents
    {
      if k != n {
        assert if k < n then blocks[k].End() <= blocks[n].start else blocks[n].End() <= blocks[k].start;
        PatchKeeps(t.entries, blocks[n].start, batch, blocks[k]);
      }
    }
    hide Patch;
  }

  lemma AppendKeepsInv(s: State, batch: seq<Region>)
    requires Inv(s)
    ensures Inv(After(s, Append(batch)))
  {
    if s.table.count + |batch| <= MAX_REGIONS {
      var one := Block(s.table.count, batch, None);
      LaidAppend(s.table, s.blocks, one);
      var blocks := s.blocks + [one];
      forall box | box in s.slots && s.slots[box].At?
        ensures exists k :: 0 <= k < |blocks| && blocks[k].owner == Some(box)
      {
        var k :| 0 <= k < |s.blocks| && s.blocks[k].owner == Some(box);
        assert blocks[k].owner == Some(box);
      }
      hide Laid, Patch;
    }
  }

  lemma OwnedFirst(slots: map<nat, Slot>, blocks: seq<Block>, box: nat, one: Block)
    requires Owned(slots, blocks) && (box in slots ==> !slots[box].At?) && one.owner == Some(box)
    ensures Owned(slots[box := At(one.start, |one.contents|)], blocks + [one])
  {
    var blocks' := blocks + [one];
    var slots' := slots[box := At(one.start, |one.contents|)];
    assert blocks'[|blocks|] == one;
    forall other | other in slots' && slots'[other].At?
      ensures exists k :: 0 <= k < |blocks'| && blocks'[k].owner == Some(other)
    {
      if other != box {
        var k :| 0 <= k < |blocks| && blocks[k].owner == Some(other);
        assert blocks'[k].owner == Some(other);
      }
    }
  }

  lemma OwnedNoRoom(slots: map<nat, Slot>, blocks: seq<Block>, box: nat)
    requires Owned(slots, blocks) && (box in slots ==> !slots[box].At?)
    ensures Owned(slots[box := NoRoom], blocks)
  {
  }

  lemma FirstReportKeepsInv(s: State, box: nat, batch: seq<Region>)
    requires Inv(s) && SlotOf(s, box).Unset?
    ensures Inv(After(s, Report(box, batch)))
  {
    hide Laid, Owned, Patch;
    if s.table.count + |batch| <= MAX_REGIONS {
      var one := Block(s.table.count, batch, Some(box));
      LaidAppend(s.table, s.blocks, one);
      OwnedFirst(s.slots, s.blocks, box, one);
    } else {
      OwnedNoRoom(s.slots, s.blocks, box);
    }
  }

  /** The block of a box with a slot. */
  lemma BlockOf(s: State, box: nat) returns (n: nat)
    requires Inv(s) && SlotOf(s, box).At?
    ensures n < |s.blocks| && s.blocks[n].owner == Some(box)
      && SlotOf(s, box) == At(s.blocks[n].start, |s.blocks[n].contents|)
    ensures forall k :: 0 <= k < |s.blocks| && s.blocks[k].owner == Some(box) ==> k == n
  {
    n :| 0 <= n < |s.blocks| && s.blocks[n].owner == Some(box);
  }

  lemma LaterReportKeepsInv(s: State, box: nat, batch: seq<Region>)
    requires Inv(s) && !SlotOf(s, box).Unset?
    ensures Inv(After(s, Report(box, batch)))
  {
    var t := After(s, Report(box, batch));
    assert t.slots == s.slots;
    if SlotOf(s, box).At? && |batch| == SlotOf(s, box).size {
      var n := BlockOf(s, box);
      LaidRewrite(s.table, s.blocks, n, batch);
      assert t.blocks == s.blocks[n := s.blocks[n].(contents := batch)];
      forall other | other in t.slots && t.slots[other].At?
        ensures exists k :: 0 <= k < |t.blocks| && t.blocks[k].owner == Some(other)
      {
        var k :| 0 <= k < |s.blocks| && s.blocks[k].owner == Some(other);
        assert t.blocks[k].owner == Some(other);
      }
    }
    hide Laid, Patch;
  }

  lemma StepKeepsInv(s: State, e: Event)
    requires Inv(s)
    ensures Inv(After(s, e))
  {
    hide *;
    match e
    case Append(batch) => AppendKeepsInv(s, batch);
    case Report(box, batch) =>
      if SlotOf(s, box).Unset? {
        FirstReportKeepsInv(s, box, batch);
      } else {
        LaterReportKeepsInv(s, box, batch);
      }
  }

  function AfterAll(events: seq<Event>): (s: State)
    ensures Inv(s)
  {
    if events == [] then Initial()
    else
      var before := AfterAll(events[..|events| - 1]);
      StepKeepsInv(before, events[|events| - 1]);
      After(before, events[|events| - 1])
  }

  /** The most recent report of a box with this many regions. */
  function LastReport(events: seq<Event>, box: nat, size: nat): Option<seq<Region>> {
    if events == [] then None
    else
      var e := events[|events| - 1];
      if e.Report? && e.box == box && |e.batch| == size then Some(e.batch)
      else LastReport(events[..|events| - 1], box, size)
  }

  /** An owned block after an event: just reported, or as it was. */
  lemma BlockStep(s: State, e: Event, k: nat)
    requires Inv(s) && k < |After(s, e).blocks| && After(s, e).blocks[k].owner.Some?
    ensures var b := After(s, e).blocks[k];
      if e.Report? && e.box == b.owner.value && |e.batch| == |b.contents| then b.contents == e.batch
      else k < |s.blocks| && s.blocks[k] == b
  {
    if e.Report? && SlotOf(s, e.box).At? {
      var n := BlockOf(s, e.box);
    }
    hide Laid, Owned, Patch, Inv;
  }

  lemma AfterAllStep(events: seq<Event>)
    requires events != []
    ensures AfterAll(events) == After(AfterAll(events[..|events| - 1]), events[|events| - 1])
  {
    hide After, Inv;
  }

  lemma LastReportStep(events: seq<Event>, box: nat, size: nat)
    requires events != []
    ensures var e := events[|events| - 1];
      LastReport(events, box, size) == if e.Report? && e.box == box && |e.batch| == size then Some(e.batch)
                                       else LastReport(events[..|events| - 1], box, size)
  {
  }

  lemma InitialIsEmpty()
    ensures AfterAll([]).blocks == []
  {
  }

  lemma {:induction false} BlocksAreLatest(events: seq<Event>, k: nat)
    requires k < |AfterAll(events).blocks| && AfterAll(events).blocks[k].owner.Some?
    ensures var b := AfterAll(events).blocks[k];
      LastReport(events, b.owner.value, |b.contents|) == Some(b.contents)
    decreases |events|
  {
    hide *;
    InitialIsEmpty();
    if events != [] {
      var front, e := events[..|events| - 1], events[|events| - 1];
      AfterAllStep(events);
      BlockStep(AfterAll(front), e, k);
      var b := AfterAll(events).blocks[k];
      LastReportStep(events, b.owner.value, |b.contents|);
      if !(e.Report? && e.box == b.owner.value && |e.batch| == |b.contents|) {
        BlocksAreLatest(front, k);
      }
    }
  }

  // ---------------------------------------------------------------- the watched part

  /** What the blocks hold, one after the other. */
  function Covered(blocks: seq<Block>): seq<Region> {
    if blocks == [] then [] else Covered(blocks[..|blocks| - 1]) + blocks[|blocks| - 1].contents
  }

  /** The blocks follow one another without gaps up to the count. */
  predicate Tiled(blocks: seq<Block>, count: nat) {
    if blocks == [] then count == 0
    else
      var front, last := blocks[..|blocks| - 1], blocks[|blocks| - 1];
      last.End() == count && Tiled(front, last.start)
  }

  lemma TiledAppend(blocks: seq<Block>, count: nat, one: Block)
    requires Tiled(blocks, count) && one.start == count
    ensures Tiled(blocks + [one], one.End())
  {
    assert (blocks + [one])[..|blocks|] == blocks;
  }

  lemma {:induction false} TiledRewrite(blocks: seq<Block>, count: nat, n: nat, batch: seq<Region>)
    requires Tiled(blocks, count) && n < |blocks| && |batch| == |blocks[n].contents|
    ensures Tiled(blocks[n := blocks[n].(contents := batch)], count)
    decreases |blocks|
  {
    var m := |blocks| - 1;
    var after := blocks[n := blocks[n].(contents := batch)];
    if n < m {
      TiledRewrite(blocks[..m], blocks[m].start, n, batch);
      assert after[..m] == blocks[..m][n := blocks[n].(contents := batch)];
    } else {
      assert after[..m] == blocks[..m];
    }
  }

  lemma AppendKeepsTiled(s: State, batch: seq<Region>)
    requires Inv(s) && Tiled(s.blocks, s.table.count)
    ensures Tiled(After(s, Append(batch)).blocks, After(s, Append(batch)).table.count)
  {
    TiledAppend(s.blocks, s.table.count, Block(s.table.count, batch, None));
    hide Tiled, Laid, Owned, Patch;
  }

  lemma FirstReportKeepsTiled(s: State, box: nat, batch: seq<Region>)
    requires Inv(s) && Tiled(s.blocks, s.table.count) && SlotOf(s, box).Unset?
    ensures Tiled(After(s, Report(box, batch)).blocks, After(s, Report(box, batch)).table.count)
  {
    TiledAppend(s.blocks, s.table.count, Block(s.table.count, batch, Some(box)));
    hide Tiled, Laid, Owned, Patch;
  }

  lemma LaterReportKeepsTiled(s: State, box: nat, batch: seq<Region>)
    requires Inv(s) && Tiled(s.blocks, s.table.count) && !SlotOf(s, box).Unset?
    ensures Tiled(After(s, Report(box, batch)).blocks, After(s, Report(box, batch)).table.count)
  {
    if SlotOf(s, box).At? && |batch| == SlotOf(s, box).size {
      var n := BlockOf(s, box);
      TiledRewrite(s.blocks, s.table.count, n, batch);
      assert After(s, Report(box, batch)).blocks == s.blocks[n := s.blocks[n].(contents := batch)];
    }
    hide Tiled, Laid, Owned, Patch;
  }

  lemma StepKeepsTiled(s: State, e: Event)
    requires Inv(s) && Tiled(s.blocks, s.table.count)
    ensures Tiled(After(s, e).blocks, After(s, e).table.count)
  {
    hide *;
    match e
    case Append(batch) => AppendKeepsTiled(s, batch);
    case Report(box, batch) =>
      if SlotOf(s, box).Unset? {
        FirstReportKeepsTiled(s, box, batch);
      } else {
        LaterReportKeepsTiled(s, box, batch);
      }
  }

  lemma {:induction false} EveryStateTiled(events: seq<Event>)
    ensures Tiled(AfterAll(events).blocks, AfterAll(events).table.count)
    decreases |events|
  {
    if events != [] {
      hide Tiled, After, Inv;
      EveryStateTiled(events[..|events| - 1]);
      StepKeepsTiled(AfterAll(events[..|events| - 1]), events[|events| - 1]);
    }
  }

  predicate Shows(entries: seq<Region>, b: Block) {
    b.End() <= |entries| && entries[b.start..b.End()] == b.contents
  }

  lemma {:induction false} CoveredIsPrefix(entries: seq<Region>, blocks: seq<Block>, count: nat)
    requires count <= |entries| && Tiled(blocks, count)
    requires forall k :: 0 <= k < |blocks| ==> Shows(entries, blocks[k])
    ensures Covered(blocks) == entries[..count]
    decreases |blocks|
  {
    if blocks != [] {
      var last := blocks[|blocks| - 1];
      assert Shows(entries, last);
      CoveredIsPrefix(entries, blocks[..|blocks| - 1], last.start);
      assert entries[..last.start] + entries[last.start..last.End()] == entries[..count];
    }
  }

  /** After any run: the watched part of the table is within its maximum and is exactly what the
      blocks hold, one after the other, with nothing stale between or behind them; and no box owns
      two blocks. */
  lemma TableIsCurrent(events: seq<Event>)
    ensures var s := AfterAll(events);
      && s.table.count <= MAX_REGIONS == |s.table.entries|
      && s.table.entries[..s.table.count] == Covered(s.blocks)
      && (forall j, k :: 0 <= j < k < |s.blocks| && s.blocks[j].owner.Some? ==> s.blocks[j].owner != s.blocks[k].owner)
  {
    var s := AfterAll(events);
    EveryStateTiled(events);
    CoveredIsPrefix(s.table.entries, s.blocks, s.table.count);
  }

  lemma CoveredAppend(blocks: seq<Block>, one: Block)
    ensures Covered(blocks + [one]) == Covered(blocks) + one.contents
  {
    assert (blocks + [one])[..|blocks|] == blocks;
  }

  /** A save adds its regions to what is watched exactly when they fit, and otherwise raises and
      changes nothing. */
  lemma AppendCovers(events: seq<Event>, batch: seq<Region>)
    ensures var s, t := AfterAll(events), AfterAll(events + [Append(batch)]);
      if |Covered(s.blocks)| + |batch| <= MAX_REGIONS then Covered(t.blocks) == Covered(s.blocks) + batch else t == s
  {
    hide *;
    var s, more := AfterAll(events), events + [Append(batch)];
    assert more[..|events|] == events;
    AfterAllStep(more);
    TableIsCurrent(events);
    AppendStep(s, batch);
    CoveredAppend(s.blocks, Block(s.table.count, batch, None));
  }

  lemma AppendStep(s: State, batch: seq<Region>)
    requires Inv(s)
    ensures var t := After(s, Append(batch));
      if s.table.count + |batch| <= MAX_REGIONS
      then t.blocks == s.blocks + [Block(s.table.count, batch, None)]
      else t == s
  {
    hide Laid, Owned, Patch;
  }

  /** The first report of a box adds its regions to what is watched exactly when they fit, and from
      then on the box has a slot; otherwise it has none for ever. */
  lemma FirstReportCovers(events: seq<Event>, box: nat, batch: seq<Region>)
    requires SlotOf(AfterAll(events), box).Unset?
    ensures var s, t := AfterAll(events), AfterAll(events + [Report(box, batch)]);
      if |Covered(s.blocks)| + |batch| <= MAX_REGIONS
      then Covered(t.blocks) == Covered(s.blocks) + batch && SlotOf(t, box) == At(|Covered(s.blocks)|, |batch|)
      else t.table == s.table && t.blocks == s.blocks && SlotOf(t, box) == NoRoom
  {
    hide *;
    var s, more := AfterAll(events), events + [Report(box, batch)];
    assert more[..|events|] == events;
    AfterAllStep(more);
    TableIsCurrent(events);
    FirstReportStep(s, box, batch);
    CoveredAppend(s.blocks, Block(s.table.count, batch, Some(box)));
  }

  lemma FirstReportStep(s: State, box: nat, batch: seq<Region>)
    requires Inv(s) && SlotOf(s, box).Unset?
    ensures var t := After(s, Report(box, batch));
      if s.table.count + |batch| <= MAX_REGIONS
      then t.blocks == s.blocks + [Block(s.table.count, batch, Some(box))]
        && SlotOf(t, box) == At(s.table.count, |batch|)
      else t.table == s.table && t.blocks == s.blocks && SlotOf(t, box) == NoRoom
  {
    hide Laid, Owned, Patch;
  }

  /** Nobody has a slot before its first report. */
  lemma {:induction false} UnsetUntilReport(events: seq<Event>, box: nat)
    ensures SlotOf(AfterAll(events), box).Unset? <==> forall e :: e in events && e.Report? ==> e.box != box
    decreases |events|
  {
    if events != [] {
      var front, last := events[..|events| - 1], events[|events| - 1];
      UnsetUntilReport(front, box);
      SlotStep(AfterAll(front), last, box);
      assert forall e :: e in events <==> e in front || e == last by { assert events == front + [last]; }
      hide Inv, After;
    }
  }

  lemma SlotStep(s: State, e: Event, box: nat)
    requires Inv(s)
    ensures SlotOf(After(s, e), box).Unset? <==> SlotOf(s, box).Unset? && !(e.Report? && e.box == box)
  {
    hide Inv, Patch, Reblocked;
  }

  /** Once a box has reported, everything it reports at its slot's length is in the watched part. */
  lemma SlotHoldsLatest(events: seq<Event>, box: nat)
    requires SlotOf(AfterAll(events), box).At?
    ensures var s := AfterAll(events);
      var slot := SlotOf(s, box);
      && slot.index + slot.size <= s.table.count <= |s.table.entries|
      && LastReport(events, box, slot.size) == Some(s.table.entries[slot.index..slot.index + slot.size])
  {
    hide *;
    var n := BlockOf(AfterAll(events), box);
    BlocksAreLatest(events, n);
    BlockHeld(AfterAll(events), n);
  }

  lemma BlockHeld(s: State, n: nat)
    requires Inv(s) && n < |s.blocks|
    ensures var b := s.blocks[n];
      && b.start + |b.contents| <= s.table.count <= |s.table.entries|
      && s.table.entries[b.start..b.start + |b.contents|] == b.contents
  {
  }

  /** A slot, once reserved, stays where it is, and a box that got none never gets one: only a
      box's first report can make the table grow. */
  lemma SlotsNeverMove(s: State, e: Event, box: nat)
    requires Inv(s) && !SlotOf(s, box).Unset?
    ensures SlotOf(After(s, e), box) == SlotOf(s, box)
    ensures e.Report? && e.box == box ==> After(s, e).table.count == s.table.count && |After(s, e).blocks| == |s.blocks|
  {
    hide Laid, Owned, Patch;
  }
}
