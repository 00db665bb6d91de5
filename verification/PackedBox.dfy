/** packed_box.py: many pieces back to back in one shared pair of buffers, found by an index. */
module PackedBox {
  import opened Bytes
  import opened Wrappers

  const BOX_SIZE: nat := 64 * 1024

  /** uuid4().hex */
  datatype FileId = FileId(hex: string)

  /** An index entry: where a piece starts and how long it is. */
  datatype Span = Span(offset: nat, length: nat)

  /** A piece in buffer order. */
  datatype Piece = Piece(name: FileId, length: nat)

  /** The summed length of the first k pieces: where piece k starts. */
  function Start(layout: seq<Piece>, k: nat): nat
    requires k <= |layout|
  {
    if k == 0 then 0 else Start(layout, k - 1) + layout[k - 1].length
  }

  ghost predicate DistinctNames(layout: seq<Piece>) {
    forall j, k :: 0 <= j < k < |layout| ==> layout[j].name != layout[k].name
  }

  ghost predicate Entered(layout: seq<Piece>, index: map<FileId, Span>, k: nat)
    requires k < |layout|
  {
    layout[k].name in index && index[layout[k].name] == Span(Start(layout, k), layout[k].length)
  }

  predicate Named(layout: seq<Piece>, name: FileId) {
    exists k :: 0 <= k < |layout| && layout[k].name == name
  }

  /** The index says of each piece that it starts where the ones before it end. */
  ghost predicate Indexed(layout: seq<Piece>, index: map<FileId, Span>) {
    && DistinctNames(layout)
    && (forall k :: 0 <= k < |layout| ==> Entered(layout, index, k))
    && (forall name :: name in index <==> Named(layout, name))
  }

  lemma {:induction false} StartMonotone(layout: seq<Piece>, j: nat, k: nat)
    requires j < k <= |layout|
    ensures Start(layout, j) + layout[j].length <= Start(layout, k)
    decreases k
  {
    if j + 1 < k {
      StartMonotone(layout, j, k - 1);
    }
  }

  lemma InRange(layout: seq<Piece>, index: map<FileId, Span>, name: FileId)
    requires Indexed(layout, index) && name in index
    ensures index[name].offset + index[name].length <= Start(layout, |layout|)
  {
    assert Named(layout, name);
    var k :| 0 <= k < |layout| && layout[k].name == name;
    assert Entered(layout, index, k);
    StartMonotone(layout, k, |layout|);
  }

  /** Index intervals never overlap, even when empty pieces share an offset. */
  lemma IntervalsDisjoint(layout: seq<Piece>, index: map<FileId, Span>, a: FileId, b: FileId)
    requires Indexed(layout, index) && a in index && b in index && a != b
    ensures index[a].offset + index[a].length <= index[b].offset || index[b].offset + index[b].length <= index[a].offset
  {
    assert Named(layout, a) && Named(layout, b);
    var j :| 0 <= j < |layout| && layout[j].name == a;
    var k :| 0 <= k < |layout| && layout[k].name == b;
    assert Entered(layout, index, j) && Entered(layout, index, k);
    if j < k {
      StartMonotone(layout, j, k);
    } else {
      StartMonotone(layout, k, j);
    }
  }

  // ---------------------------------------------------------------- add and remove on layouts

  lemma {:induction false} StartPrefix(layout: seq<Piece>, more: seq<Piece>, k: nat)
    requires k <= |layout|
    ensures Start(layout + more, k) == Start(layout, k)
    decreases k
  {
    if k > 0 {
      StartPrefix(layout, more, k - 1);
    }
  }

  lemma NamedAppend(layout: seq<Piece>, one: Piece, name: FileId)
    ensures Named(layout + [one], name) <==> Named(layout, name) || name == one.name
  {
    var longer := layout + [one];
    assert longer[|layout|] == one;
    if Named(layout, name) {
      var k :| 0 <= k < |layout| && layout[k].name == name;
      assert longer[k].name == name;
    }
  }

  lemma DistinctAppend(layout: seq<Piece>, one: Piece)
    requires DistinctNames(layout) && !Named(layout, one.name)
    ensures DistinctNames(layout + [one])
  {
  }

  lemma EnteredAppend(layout: seq<Piece>, index: map<FileId, Span>, one: Piece, k: nat)
    requires Indexed(layout, index) && one.name !in index && k <= |layout|
    ensures Entered(layout + [one], index[one.name := Span(Start(layout, |layout|), one.length)], k)
  {
    StartPrefix(layout, [one], k);
    assert k < |layout| ==> Entered(layout, index, k);
    hide Indexed, Start;
  }

  lemma IndexedAppend(layout: seq<Piece>, index: map<FileId, Span>, one: Piece)
    requires Indexed(layout, index) && one.name !in index
    ensures Indexed(layout + [one], index[one.name := Span(Start(layout, |layout|), one.length)])
    ensures Start(layout + [one], |layout| + 1) == Start(layout, |layout|) + one.length
  {
    StartPrefix(layout, [one], |layout|);
    DistinctAppend(layout, one);
    var longer, index' := layout + [one], index[one.name := Span(Start(layout, |layout|), one.length)];
    forall k: nat | k <= |layout|
      ensures Entered(longer, index', k)
    {
      EnteredAppend(layout, index, one, k);
    }
    forall n
      ensures Named(longer, n) <==> Named(layout, n) || n == one.name
    {
      NamedAppend(layout, one, n);
    }
    hide Named, Entered, DistinctNames;
  }

  function Without(layout: seq<Piece>, k: nat): (r: seq<Piece>)
    requires k < |layout|
    ensures |r| == |layout| - 1
  {
    layout[..k] + layout[k + 1..]
  }

  lemma {:induction false} StartWithout(layout: seq<Piece>, k: nat, j: nat)
    requires k < |layout| && j < |layout|
    ensures j <= k ==> Start(Without(layout, k), j) == Start(layout, j)
    ensures j >= k ==> Start(Without(layout, k), j) + layout[k].length == Start(layout, j + 1)
    decreases j
  {
    if j > 0 {
      StartWithout(layout, k, j - 1);
    }
  }

  /** What remove does to one index entry. */
  function Moved(span: Span, gap: Span): Span {
    if span.offset > gap.offset then Span(Minus(span.offset, gap.length), span.length) else span
  }

  function Minus(a: nat, b: nat): nat {
    if a >= b then a - b else 0
  }

  /** The index entry of piece j, once piece k is gone, says where piece j now is. */
  lemma MovedIsIndexed(layout: seq<Piece>, k: nat, j: nat)
    requires k < |layout| && j < |layout| && j != k
    ensures var gap, span := Span(Start(layout, k), layout[k].length), Span(Start(layout, j), layout[j].length);
      && (span.offset > gap.offset ==> span.offset >= gap.length)
      && Moved(span, gap) == Span(Start(Without(layout, k), if j < k then j else j - 1), layout[j].length)
  {
    if j < k {
      StartMonotone(layout, j, k);
      StartWithout(layout, k, j);
    } else {
      StartMonotone(layout, k, j);
      StartWithout(layout, k, j - 1);
    }
  }

  lemma NamedWithout(layout: seq<Piece>, k: nat, name: FileId)
    requires DistinctNames(layout) && k < |layout|
    ensures Named(Without(layout, k), name) <==> Named(layout, name) && name != layout[k].name
  {
    var shorter := Without(layout, k);
    if Named(layout, name) && name != layout[k].name {
      var i :| 0 <= i < |layout| && layout[i].name == name;
      assert shorter[if i < k then i else i - 1] == layout[i];
    }
    if Named(shorter, name) {
      var j :| 0 <= j < |shorter| && shorter[j].name == name;
      assert shorter[j] == layout[if j < k then j else j + 1];
    }
  }

  lemma DistinctWithout(layout: seq<Piece>, k: nat)
    requires DistinctNames(layout) && k < |layout|
    ensures DistinctNames(Without(layout, k))
  {
  }

  ghost predicate Closed(layout: seq<Piece>, index: map<FileId, Span>, k: nat, after: map<FileId, Span>)
    requires k < |layout|
  {
    && after.Keys == index.Keys - {layout[k].name}
    && forall name :: name in after ==> after[name] == Moved(index[name], Span(Start(layout, k), layout[k].length))
  }

  lemma EnteredWithout(layout: seq<Piece>, index: map<FileId, Span>, k: nat, after: map<FileId, Span>, j: nat)
    requires Indexed(layout, index) && k < |layout| && Closed(layout, index, k, after) && j < |layout| - 1
    ensures Entered(Without(layout, k), after, j)
  {
    var i := if j < k then j else j + 1;
    assert Without(layout, k)[j] == layout[i] && Entered(layout, index, i) && layout[i].name != layout[k].name;
    MovedIsIndexed(layout, k, i);
    hide Start, Moved, Indexed, DistinctNames;
  }

  lemma KeysWithout(layout: seq<Piece>, index: map<FileId, Span>, k: nat, after: map<FileId, Span>, name: FileId)
    requires Indexed(layout, index) && k < |layout| && Closed(layout, index, k, after)
    ensures name in after <==> Named(Without(layout, k), name)
  {
    NamedWithout(layout, k, name);
    hide Named, Entered, DistinctNames, Without, Moved, Start;
  }

  lemma IndexedBy(layout: seq<Piece>, index: map<FileId, Span>)
    requires DistinctNames(layout)
    requires forall k: nat :: k < |layout| ==> Entered(layout, index, k)
    requires forall name :: name in index <==> Named(layout, name)
    ensures Indexed(layout, index)
  {
    hide DistinctNames, Named, Entered;
  }

  lemma IndexedDistinct(layout: seq<Piece>, index: map<FileId, Span>)
    requires Indexed(layout, index)
    ensures DistinctNames(layout)
  {
    hide DistinctNames, Entered, Named;
  }

  /** Taking piece k out of the buffer and closing the gap in the index leaves an index of the rest. */
  lemma IndexedWithout(layout: seq<Piece>, index: map<FileId, Span>, k: nat, after: map<FileId, Span>)
    requires Indexed(layout, index) && k < |layout| && Closed(layout, index, k, after)
    ensures Indexed(Without(layout, k), after)
    ensures Start(Without(layout, k), |layout| - 1) + layout[k].length == Start(layout, |layout|)
  {
    hide *;
    StartWithout(layout, k, |layout| - 1);
    IndexedDistinct(layout, index);
    DistinctWithout(layout, k);
    var shorter := Without(layout, k);
    forall j: nat | j < |layout| - 1
      ensures Entered(shorter, after, j)
    {
      EnteredWithout(layout, index, k, after, j);
    }
    forall name
      ensures name in after <==> Named(shorter, name)
    {
      KeysWithout(layout, index, k, after, name);
    }
    IndexedBy(shorter, after);
  }

  // ---------------------------------------------------------------- what a buffer holds

  ghost predicate Within(buffer: Blob, index: map<FileId, Span>) {
    forall name :: name in index ==> index[name].offset + index[name].length <= |buffer|
  }

  function Cut(buffer: Blob, span: Span): Blob
    requires span.offset + span.length <= |buffer|
  {
    buffer[span.offset..span.offset + span.length]
  }

  ghost function Held(buffer: Blob, index: map<FileId, Span>): (r: map<FileId, Blob>)
    requires Within(buffer, index)
    ensures r.Keys == index.Keys && forall name :: name in index ==> |r[name]| == index[name].length
  {
    map name | name in index :: Cut(buffer, index[name])
  }

  lemma HeldAppend(index: map<FileId, Span>, buffer: Blob, name: FileId, data: Blob)
    requires Within(buffer, index) && name !in index
    ensures var index' := index[name := Span(|buffer|, |data|)];
      Within(buffer + data, index') && Held(buffer + data, index') == Held(buffer, index)[name := data]
  {
    var index' := index[name := Span(|buffer|, |data|)];
    forall n | n in index
      ensures Cut(buffer + data, index'[n]) == Cut(buffer, index[n])
    {}
    assert Cut(buffer + data, index'[name]) == data;
  }

  function CutOut(buffer: Blob, gap: Span): (r: Blob)
    requires gap.offset + gap.length <= |buffer|
    ensures |r| == |buffer| - gap.length
  {
    buffer[..gap.offset] + buffer[gap.offset + gap.length..]
  }

  lemma CutAfterCutOut(buffer: Blob, span: Span, gap: Span)
    requires gap.offset + gap.length <= |buffer| && span.offset + span.length <= |buffer|
    requires span.offset + span.length <= gap.offset || gap.offset + gap.length <= span.offset
    ensures var moved := Moved(span, gap);
      moved.offset + moved.length <= |buffer| - gap.length && Cut(CutOut(buffer, gap), moved) == Cut(buffer, span)
  {
    var rest, past := CutOut(buffer, gap), gap.offset + gap.length;
    if span.offset > gap.offset {
      assert rest[gap.offset..] == buffer[past..];
      SliceOfSuffix(rest, gap.offset, span.offset - past, span.length);
      SliceOfSuffix(buffer, past, span.offset - past, span.length);
    } else if gap.length == 0 {
      assert rest == buffer;
    } else {
      assert rest[..gap.offset] == buffer[..gap.offset];
      SliceOfPrefix(rest, gap.offset, span.offset, span.length);
      SliceOfPrefix(buffer, gap.offset, span.offset, span.length);
    }
  }

  lemma SliceOfPrefix(s: Blob, end: nat, from: nat, length: nat)
    requires from + length <= end <= |s|
    ensures s[..end][from..from + length] == s[from..from + length]
  {
  }

  lemma SliceOfSuffix(s: Blob, start: nat, from: nat, length: nat)
    requires start + from + length <= |s|
    ensures s[start..][from..from + length] == s[start + from..start + from + length]
  {
  }

  lemma HeldWithout(layout: seq<Piece>, index: map<FileId, Span>, k: nat, after: map<FileId, Span>, buffer: Blob)
    requires Indexed(layout, index) && k < |layout| && Closed(layout, index, k, after)
    requires Within(buffer, index) && Entered(layout, index, k)
    ensures var gap := index[layout[k].name];
      Within(CutOut(buffer, gap), after) && Held(CutOut(buffer, gap), after) == Held(buffer, index) - {layout[k].name}
  {
    var gone := layout[k].name;
    var gap := index[gone];
    forall name | name in after
      ensures after[name].offset + after[name].length <= |buffer| - gap.length
      ensures Cut(CutOut(buffer, gap), after[name]) == Cut(buffer, index[name])
    {
      IntervalsDisjoint(layout, index, name, gone);
      CutAfterCutOut(buffer, index[name], gap);
    }
    hide Indexed, Moved, Cut, CutOut;
  }

  /** The buffer is exactly as long as the pieces together, and the index finds each of them. */
  ghost predicate Sound(layout: seq<Piece>, index: map<FileId, Span>, buffer: Blob) {
    Indexed(layout, index) && |buffer| == Start(layout, |layout|) && Within(buffer, index)
  }

  lemma SoundAppend(layout: seq<Piece>, index: map<FileId, Span>, buffer: Blob, name: FileId, data: Blob)
    requires Sound(layout, index, buffer) && name !in index
    ensures var index' := index[name := Span(|buffer|, |data|)];
      Sound(layout + [Piece(name, |data|)], index', buffer + data)
      && Held(buffer + data, index') == Held(buffer, index)[name := data]
  {
    hide Indexed, Start, Within, Held;
    IndexedAppend(layout, index, Piece(name, |data|));
    HeldAppend(index, buffer, name, data);
  }

  lemma SoundWithout(layout: seq<Piece>, index: map<FileId, Span>, buffer: Blob, name: FileId, after: map<FileId, Span>)
    requires Sound(layout, index, buffer) && name in index
    requires after.Keys == index.Keys - {name} && forall n :: n in after ==> after[n] == Moved(index[n], index[name])
    ensures var gap := index[name];
      && gap.offset + gap.length <= |buffer|
      && Sound(Without(layout, PlaceOf(layout, index, name)), after, CutOut(buffer, gap))
      && Held(CutOut(buffer, gap), after) == Held(buffer, index) - {name}
  {
    InRange(layout, index, name);
    var k := PlaceOf(layout, index, name);
    assert Closed(layout, index, k, after);
    hide Indexed, Start, Within, Held, Closed;
    IndexedWithout(layout, index, k, after);
    HeldWithout(layout, index, k, after, buffer);
  }

  /** Where in the layout a name is. */
  ghost function PlaceOf(layout: seq<Piece>, index: map<FileId, Span>, name: FileId): (k: nat)
    requires Indexed(layout, index) && name in index
    ensures k < |layout| && layout[k].name == name && Entered(layout, index, k)
  {
    assert Named(layout, name);
    var k :| 0 <= k < |layout| && layout[k].name == name;
    k
  }

  // ---------------------------------------------------------------- the other buffer

  function Zeros(n: nat): Blob {
    seq(n, i => 0)
  }

  /** In each piece's place the other buffer has the piece, or nothing but zeros. */
  ghost predicate Shadows(index: map<FileId, Span>, active: Blob, other: Blob) {
    && Within(active, index) && Within(other, index)
    && forall name :: name in index ==>
      Cut(other, index[name]) == Cut(active, index[name]) || Cut(other, index[name]) == Zeros(index[name].length)
  }

  lemma ShadowsItself(index: map<FileId, Span>, buffer: Blob)
    requires Within(buffer, index)
    ensures Shadows(index, buffer, buffer)
  {
    hide Cut;
  }

  lemma CutAppend(buffer: Blob, more: Blob, span: Span)
    requires span.offset + span.length <= |buffer|
    ensures Cut(buffer + more, span) == Cut(buffer, span)
  {
  }

  lemma ShadowsAppend(index: map<FileId, Span>, active: Blob, other: Blob, name: FileId, data: Blob)
    requires Shadows(index, active, other) && |active| == |other| && name !in index
    ensures Shadows(index[name := Span(|active|, |data|)], active + data, other + Zeros(|data|))
  {
    var index', zeros := index[name := Span(|active|, |data|)], Zeros(|data|);
    assert Cut(other + zeros, index'[name]) == zeros;
    forall n | n in index
      ensures Cut(active + data, index'[n]) == Cut(active, index[n])
      ensures Cut(other + zeros, index'[n]) == Cut(other, index[n])
    {
      CutAppend(active, data, index[n]);
      CutAppend(other, zeros, index[n]);
    }
    hide Cut, Zeros;
  }

  /** Cutting the same piece out of both. */
  lemma ShadowsWithout(layout: seq<Piece>, index: map<FileId, Span>, active: Blob, other: Blob, name: FileId,
                       after: map<FileId, Span>)
    requires Indexed(layout, index) && Shadows(index, active, other) && name in index
    requires after.Keys == index.Keys - {name} && forall n :: n in after ==> after[n] == Moved(index[n], index[name])
    ensures var gap := index[name];
      && gap.offset + gap.length <= |active| && gap.offset + gap.length <= |other|
      && Shadows(after, CutOut(active, gap), CutOut(other, gap))
  {
    var gap := index[name];
    forall n | n in after
      ensures after[n].length == index[n].length
      ensures after[n].offset + after[n].length <= |active| - gap.length
      ensures after[n].offset + after[n].length <= |other| - gap.length
      ensures Cut(CutOut(active, gap), after[n]) == Cut(active, index[n])
      ensures Cut(CutOut(other, gap), after[n]) == Cut(other, index[n])
    {
      IntervalsDisjoint(layout, index, n, name);
      CutAfterCutOut(active, index[n], gap);
      CutAfterCutOut(other, index[n], gap);
    }
    hide Indexed, Moved, Cut, CutOut, Zeros;
  }

  // ---------------------------------------------------------------- both buffers

  ghost predicate Intact(layout: seq<Piece>, index: map<FileId, Span>, active: Blob, other: Blob) {
    Sound(layout, index, active) && |active| == |other| && Shadows(index, active, other)
  }

  lemma IntactAppend(layout: seq<Piece>, index: map<FileId, Span>, active: Blob, other: Blob, name: FileId, data: Blob)
    requires Intact(layout, index, active, other) && name !in index
    ensures var index' := index[name := Span(|active|, |data|)];
      && Intact(layout + [Piece(name, |data|)], index', active + data, other + Zeros(|data|))
      && Within(active, index) && Within(active + data, index')
      && Held(active + data, index') == Held(active, index)[name := data]
  {
    SoundAppend(layout, index, active, name, data);
    ShadowsAppend(index, active, other, name, data);
    SoundWithin(layout, index, active);
    SoundWithin(layout + [Piece(name, |data|)], index[name := Span(|active|, |data|)], active + data);
    hide Sound, Shadows, Held, Within;
  }

  lemma IntactLengths(layout: seq<Piece>, index: map<FileId, Span>, active: Blob, other: Blob)
    requires Intact(layout, index, active, other)
    ensures |active| == |other|
  {
    hide Sound, Shadows;
  }

  lemma SoundWithin(layout: seq<Piece>, index: map<FileId, Span>, buffer: Blob)
    requires Sound(layout, index, buffer)
    ensures Within(buffer, index)
  {
    hide Within, Indexed, Start;
  }

  lemma IntactWithout(layout: seq<Piece>, index: map<FileId, Span>, active: Blob, other: Blob, name: FileId,
                      after: map<FileId, Span>)
    requires Intact(layout, index, active, other) && name in index
    requires after.Keys == index.Keys - {name} && forall n :: n in after ==> after[n] == Moved(index[n], index[name])
    ensures Indexed(layout, index)
    ensures var gap := index[name];
      && gap.offset + gap.length <= |active| == |other|
      && Intact(Without(layout, PlaceOf(layout, index, name)), after, CutOut(active, gap), CutOut(other, gap))
      && Within(active, index) && Within(CutOut(active, gap), after)
      && Held(CutOut(active, gap), after) == Held(active, index) - {name}
  {
    SoundWithout(layout, index, active, name, after);
    ShadowsWithout(layout, index, active, other, name, after);
    SoundWithin(layout, index, active);
    SoundWithin(Without(layout, PlaceOf(layout, index, name)), after, CutOut(active, index[name]));
    hide Indexed, Shadows, Held, Within, CutOut, Moved, Start;
  }

  // ---------------------------------------------------------------- the buffer is all there is

  /** The piece a position belongs to. */
  lemma {:induction false} PieceAt(layout: seq<Piece>, n: nat, j: nat) returns (k: nat)
    requires n <= |layout| && j < Start(layout, n)
    ensures k < n && Start(layout, k) <= j < Start(layout, k) + layout[k].length
    decreases n
  {
    if j < Start(layout, n - 1) {
      k := PieceAt(layout, n - 1, j);
    } else {
      k := n - 1;
    }
  }

  lemma CutByte(buffer: Blob, span: Span, j: nat)
    requires span.offset + span.length <= |buffer| && span.offset <= j < span.offset + span.length
    ensures |Cut(buffer, span)| == span.length && Cut(buffer, span)[j - span.offset] == buffer[j]
  {
  }

  /** The summed lengths of the held pieces. */
  ghost function Sizes(m: map<FileId, Blob>): nat
    decreases |m|
  {
    if m == map[] then 0
    else
      assert m.Keys != {};
      var name :| name in m;
      assert (m - {name}).Keys == m.Keys - {name};
      |m[name]| + Sizes(m - {name})
  }

  lemma {:induction false} SizesWithout(m: map<FileId, Blob>, name: FileId)
    requires name in m
    ensures Sizes(m) == |m[name]| + Sizes(m - {name})
    decreases |m|
  {
    var first :| first in m && Sizes(m) == |m[first]| + Sizes(m - {first});
    if first != name {
      assert (m - {first}).Keys == m.Keys - {first} && (m - {name}).Keys == m.Keys - {name};
      SizesWithout(m - {first}, name);
      SizesWithout(m - {name}, first);
      assert m - {first} - {name} == m - {name} - {first};
    }
  }

  lemma {:induction false} SizesIsStart(layout: seq<Piece>, m: map<FileId, Blob>)
    requires DistinctNames(layout) && forall name :: name in m <==> Named(layout, name)
    requires forall k :: 0 <= k < |layout| ==> layout[k].name in m && |m[layout[k].name]| == layout[k].length
    ensures Sizes(m) == Start(layout, |layout|)
    decreases |layout|
  {
    if layout == [] {
      assert m == map[];
    } else {
      var n := |layout| - 1;
      var front, last := layout[..n], layout[n];
      assert Without(layout, n) == front && front + [last] == layout;
      forall name
        ensures name in m - {last.name} <==> Named(front, name)
      {
        NamedWithout(layout, n, name);
      }
      hide Named;
      SizesWithout(m, last.name);
      SizesIsStart(front, m - {last.name});
      StartPrefix(front, [last], n);
    }
  }

  // ---------------------------------------------------------------- the object

  class PackedFallingBox {
    var boxA: Blob
    var boxB: Blob
    var onA: bool
    var index: map<FileId, Span>
    var hops: nat
    var paused: bool
    ghost var layout: seq<Piece>

    function Active(): Blob
      reads this
    {
      if onA then boxA else boxB
    }

    function Inactive(): Blob
      reads this
    {
      if onA then boxB else boxA
    }

    /** Both buffers are as long as the pieces together, the index says where each piece is, and the
        inactive buffer has that piece there too, or zeros. */
    ghost predicate Valid()
      reads this
    {
      Intact(layout, index, Active(), Inactive())
    }

    /** What the box stands for: a map from name to bytes. */
    ghost function Contents(): map<FileId, Blob>
      requires Valid()
      reads this
    {
      Held(Active(), index)
    }

    /** Nothing but the held pieces takes up space in either buffer. */
    lemma BufferIsSumOfPieces()
      requires Valid()
      ensures |boxA| == |boxB| == Sizes(Contents())
    {
      hide Sizes, Start, Named;
      forall k | 0 <= k < |layout|
        ensures layout[k].name in Contents() && |Contents()[layout[k].name]| == layout[k].length
      {
        assert Entered(layout, index, k);
      }
      SizesIsStart(layout, Contents());
    }

    /** Every byte of either buffer lies in the place of a piece that is still held; in the active
        one it is that piece's byte, in the other that byte or a zero.  So nothing of a removed
        piece is left in either. */
    lemma OnlyHeldBytes(j: nat) returns (name: FileId, at: nat)
      requires Valid() && j < |boxA|
      ensures name in Contents() && at < |Contents()[name]| && Active()[j] == Contents()[name][at]
      ensures j < |boxB| && (Inactive()[j] == Contents()[name][at] || Inactive()[j] == 0)
    {
      var k := PieceAt(layout, |layout|, j);
      assert Entered(layout, index, k);
      name := layout[k].name;
      at := j - index[name].offset;
      CutByte(Active(), index[name], j);
      CutByte(Inactive(), index[name], j);
      hide Indexed, Start, Cut;
    }

    constructor ()
      ensures Valid() && Contents() == map[] && hops == 0 && !paused
    {
      boxA, boxB, onA, index, hops, paused, layout := [], [], true, map[], 0, false, [];
    }

    /** add(); the name must be new, as every caller's uuid is. */
    method Add(name: FileId, data: Blob)
      requires Valid() && name !in Contents()
      modifies this
      ensures Valid() && Contents() == old(Contents())[name := data]
      ensures |boxA| == old(|boxA|) + |data| && hops == old(hops) && !paused
    {
      IntactLengths(layout, index, Active(), Inactive());
      IntactAppend(layout, index, Active(), Inactive(), name, data);
      hide Intact, Indexed, Start, Within, Held;
      paused := true;
      var offset := |Active()|;
      Grow(data);
      index := index[name := Span(offset, |data|)];
      layout := layout + [Piece(name, |data|)];
      paused := false;
    }

    /** The data goes to the end of the active buffer, as many zeros to the end of the other. */
    method Grow(data: Blob)
      requires |boxA| == |boxB|
      modifies `boxA, `boxB
      ensures Active() == old(Active()) + data && Inactive() == old(Inactive()) + Zeros(|data|)
      ensures |boxA| == |boxB| == old(|boxA|) + |data|
    {
      var zeros := Zeros(|data|);
      if onA {
        boxA, boxB := boxA + data, boxB + zeros;
      } else {
        boxA, boxB := boxA + zeros, boxB + data;
      }
    }

    /** get().  For an unknown name it raises, and nothing clears the pause on that path. */
    method Get(name: FileId) returns (out: Option<Blob>)
      requires Valid()
      modifies `paused
      ensures Valid() && Contents() == old(Contents()) && paused == out.None?
      ensures out == if name in Contents() then Some(Contents()[name]) else None
    {
      hide Indexed;
      paused := true;
      if name !in index {
        return None;
      }
      out := Some(Cut(Active(), index[name]));
      paused := false;
    }

    /** remove(): cuts the piece out of both buffers and moves the later ones back.  For an unknown
        name it raises and stays paused. */
    method Remove(name: FileId) returns (found: bool)
      requires Valid()
      modifies this
      ensures Valid() && found == (name in old(Contents())) && paused == !found
      ensures Contents() == old(Contents()) - {name}
      ensures |boxA| == old(|boxA|) - (if found then |old(Contents())[name]| else 0) && hops == old(hops)
      ensures found ==>
        && name in old(index) && old(index)[name].offset + old(index)[name].length <= |old(boxA)| == |old(boxB)|
        && var start, end := old(index)[name].offset, old(index)[name].offset + old(index)[name].length;
           && boxA == old(boxA)[..start] + old(boxA)[end..]
           && boxB == old(boxB)[..start] + old(boxB)[end..]
      ensures !found ==> boxA == old(boxA) && boxB == old(boxB)
    {
      hide Indexed, Start, Within, Held;
      paused := true;
      if name !in index {
        assert Contents() - {name} == Contents();
        return false;
      }
      InRange(layout, index, name);
      CutPiece(name);
      found, paused := true, false;
    }

    method CutPiece(name: FileId)
      requires Valid() && name in index
      modifies `boxA, `boxB, `index, `layout
      ensures Valid() && Contents() == old(Contents()) - {name}
      ensures boxA == CutOut(old(boxA), old(index)[name]) && boxB == CutOut(old(boxB), old(index)[name])
    {
      hide *;
      var gap := index[name];
      var moved := CloseGap(index - {name}, gap);
      ValidIs();
      IntactWithout(layout, index, Active(), Inactive(), name, moved);
      BuffersAre();
      Install(CutOut(boxA, gap), CutOut(boxB, gap), moved, Without(layout, PlaceOf(layout, index, name)));
    }

    lemma ValidIs()
      requires Valid()
      ensures Intact(layout, index, Active(), Inactive())
      ensures Within(Active(), index) && Contents() == Held(Active(), index)
    {
      SoundWithin(layout, index, Active());
      hide Sound, Shadows, Held, Within;
    }

    lemma BuffersAre()
      ensures Active() == (if onA then boxA else boxB) && Inactive() == if onA then boxB else boxA
    {
    }

    method Install(a: Blob, b: Blob, entries: map<FileId, Span>, ghost pieces: seq<Piece>)
      requires Intact(pieces, entries, if onA then a else b, if onA then b else a)
      modifies `boxA, `boxB, `index, `layout
      ensures boxA == a && boxB == b && index == entries && layout == pieces
      ensures Valid() && Within(Active(), index) && Contents() == Held(Active(), index)
      ensures Active() == if onA then a else b
    {
      hide Intact, Held, Within;
      boxA, boxB, index, layout := a, b, entries, pieces;
      ValidIs();
    }

    /** The loop that moves the index entries behind the gap. */
    static method CloseGap(entries: map<FileId, Span>, gap: Span) returns (moved: map<FileId, Span>)
      ensures moved.Keys == entries.Keys && forall name :: name in entries ==> moved[name] == Moved(entries[name], gap)
    {
      moved := entries;
      var todo := entries.Keys;
      while todo != {}
        invariant todo <= entries.Keys && moved.Keys == entries.Keys
        invariant forall name :: name in entries ==>
          moved[name] == if name in todo then entries[name] else Moved(entries[name], gap)
        decreases |todo|
      {
        var name :| name in todo;
        var span := moved[name];
        if span.offset > gap.offset {
          moved := moved[name := Span(Minus(span.offset, gap.length), span.length)];
        }
        todo := todo - {name};
      }
    }

    /** One turn of _fall_forever under the lock: copies the active buffer over the other in
        BOX_SIZE steps. */
    method Fall()
      requires Valid()
      modifies this
      ensures Valid() && Contents() == old(Contents()) && paused == old(paused)
      ensures hops == old(hops) + (if boxA == [] then 0 else 1) && |boxA| == old(|boxA|)
      ensures boxA != [] ==> boxA == boxB && onA != old(onA)
    {
      ShadowsItself(index, Active());
      hide Indexed, Held, Shadows;
      var length := |boxA|;
      if length > 0 {
        if onA {
          boxB := CopyOver(boxA, boxB);
          onA := false;
        } else {
          boxA := CopyOver(boxB, boxA);
          onA := true;
        }
        hops := hops + 1;
      }
    }

    /** for i in range(0, length, BOX_SIZE): to[i:i + len(chunk)] = source[i:i + BOX_SIZE] */
    static method CopyOver(source: Blob, previous: Blob) returns (target: Blob)
      requires |source| == |previous|
      ensures target == source
    {
      target := previous;
      var i := 0;
      while i < |source|
        invariant |target| == |source|
        invariant forall k :: 0 <= k < i && k < |source| ==> target[k] == source[k]
      {
        var end := if i + BOX_SIZE <= |source| then i + BOX_SIZE else |source|;
        var chunk := source[i..end];
        target := target[..i] + chunk + target[i + |chunk|..];
        i := i + BOX_SIZE;
      }
    }
  }
}
