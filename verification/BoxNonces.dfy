/** No nonce is ever in use twice: if all that are drawn differ, the chunks of a box carry different
    ones in every state, and each of them was drawn for that box. */
module BoxNonces {
  import opened Bytes
  import opened Crypto
  import opened BoxModel
  import opened BoxRotation

  /** The nonces the hops of a schedule draw. */
  function Drawn(events: seq<Event>): set<Blob> {
    set e | e in events && e.HopEvent? :: e.nonce
  }

  /** No two hops draw the same nonce, and none draws one already used. */
  ghost predicate FreshDraws(events: seq<Event>, used: set<Blob>) {
    && (forall j :: 0 <= j < |events| && events[j].HopEvent? ==> events[j].nonce !in used)
    && forall j, k :: 0 <= j < k < |events| && events[j].HopEvent? && events[k].HopEvent? ==>
      events[j].nonce != events[k].nonce
  }

  ghost predicate NoncesIn(b: Box, used: set<Blob>) {
    && (forall i :: 0 <= i < |b.chunks| ==> b.chunks[i].nonce in used)
    && forall i, j :: 0 <= i < j < |b.chunks| ==> b.chunks[i].nonce != b.chunks[j].nonce
  }

  /** A hop puts its nonce on the chunk at the cursor, if it rewrites it at all. */
  lemma HopNonce(p: Primitives, b: Box, nonce: Blob, trust: Trust)
    requires b.Shaped()
    ensures var after := Hop(p, b, nonce, trust).box.chunks;
      after == b.chunks
      || (|after| == |b.chunks| && after[b.nextChunk].nonce == nonce
        && after == b.chunks[b.nextChunk := after[b.nextChunk]])
  {
    hide ReadKey, NextKey, NewGuard, All;
  }

  lemma HopKeepsNonces(p: Primitives, b: Box, nonce: Blob, trust: Trust, used: set<Blob>)
    requires b.Shaped() && NoncesIn(b, used) && nonce !in used
    ensures NoncesIn(Hop(p, b, nonce, trust).box, used + {nonce})
  {
    HopNonce(p, b, nonce, trust);
    hide Hop;
  }

  lemma {:induction false} BouncesOnly(events: seq<Event>)
    ensures forall e :: e in Bounces(events) ==> e.BounceEvent?
  {
    if events != [] {
      BouncesOnly(events[1..]);
    }
  }

  lemma NoncesInMore(b: Box, used: set<Blob>, more: set<Blob>)
    requires NoncesIn(b, used) && used <= more
    ensures NoncesIn(b, more)
  {
  }

  /** What is left of a schedule after its first event. */
  lemma RestDraws(events: seq<Event>, used: set<Blob>)
    requires events != [] && FreshDraws(events, used)
    ensures var used' := if events[0].HopEvent? then used + {events[0].nonce} else used;
      && FreshDraws(events[1..], used') && FreshDraws(Bounces(events[1..]), used')
      && used' + Drawn(events[1..]) <= used + Drawn(events)
      && used' + Drawn(Bounces(events[1..])) <= used + Drawn(events)
    ensures events[0].HopEvent? ==> events[0].nonce !in used
  {
    BouncesOnly(events[1..]);
    var rest, left := events[1..], Bounces(events[1..]);
    assert forall j :: 0 <= j < |rest| ==> rest[j] == events[j + 1];
    assert forall j :: 0 <= j < |left| ==> left[j] in left;
    assert events[0] in events;
  }

  lemma {:induction false} AfterKeepsNonces(p: Primitives, b: Box, events: seq<Event>, used: set<Blob>)
    requires b.Shaped() && NoncesIn(b, used) && FreshDraws(events, used)
    ensures NoncesIn(After(p, b, events), used + Drawn(events))
    decreases |events|
  {
    if events == [] {
      NoncesInMore(b, used, used + Drawn(events));
    } else {
      RestDraws(events, used);
      hide Hop, NoncesIn, FreshDraws, Drawn, Bounces, BounceCell;
      match events[0]
      case HopEvent(nonce, trust) =>
        HopKeepsNonces(p, b, nonce, trust, used);
        var r := Hop(p, b, nonce, trust);
        var rest := if r.Finished? then events[1..] else Bounces(events[1..]);
        AfterKeepsNonces(p, r.box, rest, used + {nonce});
        NoncesInMore(After(p, b, events), used + {nonce} + Drawn(rest), used + Drawn(events));
      case BounceEvent(inNext, cell) =>
        BounceKeepsNonces(b, inNext, cell, used);
        AfterKeepsNonces(p, BounceCell(b, inNext, cell), events[1..], used);
        NoncesInMore(After(p, b, events), used + Drawn(events[1..]), used + Drawn(events));
    }
  }

  lemma BounceKeepsNonces(b: Box, inNext: bool, cell: nat, used: set<Blob>)
    requires NoncesIn(b, used)
    ensures NoncesIn(BounceCell(b, inNext, cell), used)
  {
  }

  /** In every state of every run of a box, promotions that raise included: its chunks carry pairwise
      different nonces, each drawn when the box was made or by a hop. */
  lemma NoncesNeverRepeat(p: Primitives, pieces: seq<Blob>, key: Blob, nextKey: Blob, nonces: seq<Blob>, dataLen: nat,
                          events: seq<Event>)
    requires |nonces| == |pieces| > 0 && (forall i, j :: 0 <= i < j < |nonces| ==> nonces[i] != nonces[j])
    requires FreshDraws(events, set n | n in nonces)
    ensures var b := After(p, Fresh(p, pieces, key, nextKey, nonces, dataLen), events);
      && (forall i, j :: 0 <= i < j < |b.chunks| ==> b.chunks[i].nonce != b.chunks[j].nonce)
      && (forall i :: 0 <= i < |b.chunks| ==>
            b.chunks[i].nonce in nonces || exists e :: e in events && e.HopEvent? && e.nonce == b.chunks[i].nonce)
  {
    var b := Fresh(p, pieces, key, nextKey, nonces, dataLen);
    FreshNonces(p, pieces, key, nextKey, nonces, dataLen);
    AfterKeepsNonces(p, b, events, set n | n in nonces);
    hide After, Fresh, FreshDraws;
  }

  lemma FreshNonces(p: Primitives, pieces: seq<Blob>, key: Blob, nextKey: Blob, nonces: seq<Blob>, dataLen: nat)
    requires |nonces| == |pieces| > 0 && (forall i, j :: 0 <= i < j < |nonces| ==> nonces[i] != nonces[j])
    ensures var b := Fresh(p, pieces, key, nextKey, nonces, dataLen);
      b.Shaped() && NoncesIn(b, set n | n in nonces)
  {
    hide NewGuard, Pack;
  }
}
