/** What the keys of a box depend on, said without the program's own step: every generation's key is
    the initial key folded with the secrets the trust group handed out, one for each generation. */
module KeyRatchet {
  import opened Bytes
  import opened Crypto
  import opened BoxModel
  import opened BoxRotation
  import opened Wrappers

  /** b"..." */
  function Ascii(text: string): (r: Blob)
    requires forall i :: 0 <= i < |text| ==> text[i] < 128 as char
    ensures |r| == |text|
  {
    seq(|text|, i requires 0 <= i < |text| => text[i] as int)
  }

  /** What a derivation mixes in besides the old key: the root secret, or nothing without a group. */
  function Secret(trust: Trust): Blob {
    if trust.Fetched? then trust.external else []
  }

  /** sha256(... sha256(sha256(key + first + suffix) + second + suffix) ...) */
  function Folded(p: Primitives, key: Blob, secrets: seq<Blob>): Blob {
    if secrets == [] then key
    else
      var front, last := secrets[..|secrets| - 1], secrets[|secrets| - 1];
      p.sha256(Folded(p, key, front) + last + Ascii("vstorage-ratchet"))
  }

  /** The secrets in the key of generation g: the one fetched when the box was made, then the one
      fetched by the last hop of each lap of n hops. */
  function Secrets(first: Trust, trusts: seq<Trust>, n: nat, g: nat): (r: seq<Blob>)
    ensures |r| == g
  {
    if g == 0 then []
    else if g == 1 then [Secret(first)]
    else
      var last := (g - 1) * n - 1;
      Secrets(first, trusts, n, g - 1) + [if 0 <= last < |trusts| then Secret(trusts[last]) else []]
  }

  lemma SuffixIsRatchet()
    ensures Ascii("vstorage-ratchet") == RATCHET
  {
  }

  lemma FoldedMore(p: Primitives, key: Blob, secrets: seq<Blob>, one: Blob)
    ensures Folded(p, key, secrets + [one]) == p.sha256(Folded(p, key, secrets) + one + Ascii("vstorage-ratchet"))
  {
    assert (secrets + [one])[..|secrets|] == secrets;
  }

  lemma NextKeyIsFolded(p: Primitives, key: Blob, secrets: seq<Blob>, trust: Trust)
    requires !trust.FetchRaised?
    ensures NextKey(p, Folded(p, key, secrets), trust) == Some(Folded(p, key, secrets + [Secret(trust)]))
  {
    SuffixIsRatchet();
    FoldedMore(p, key, secrets, Secret(trust));
    var k := Folded(p, key, secrets);
    assert k + [] + RATCHET == k + RATCHET;
    hide Folded, Ascii;
  }

  /** One derivation: the new key is the hash of the old key, the secret and the suffix. */
  lemma DerivedKey(p: Primitives, key: Blob, trust: Trust)
    ensures NextKey(p, key, trust)
         == if trust.FetchRaised? then None else Some(p.sha256(key + Secret(trust) + Ascii("vstorage-ratchet")))
  {
    SuffixIsRatchet();
    assert key + [] + RATCHET == key + RATCHET;
    hide Ascii;
  }

  lemma {:induction false} GenerationIsFolded(p: Primitives, key: Blob, first: Trust, trusts: seq<Trust>, n: nat,
                                              g: nat)
    requires !first.FetchRaised?
    requires Generation(p, key, Folded(p, key, [Secret(first)]), trusts, n, g).Some?
    ensures Generation(p, key, Folded(p, key, [Secret(first)]), trusts, n, g)
         == Some(Folded(p, key, Secrets(first, trusts, n, g)))
    decreases g
  {
    var nextKey := Folded(p, key, [Secret(first)]);
    if g >= 2 {
      GenerationIsFolded(p, key, first, trusts, n, g - 1);
      var last := Hops(g - 1, n) - 1;
      NextKeyIsFolded(p, key, Secrets(first, trusts, n, g - 1), trusts[last]);
      hide Folded, NextKey, Secret;
    }
  }

  /** After h hops without exceptions, under any interleaving with bounces, the guards hold the keys
      of generations h div chunk_count and the next: the initial key folded with that many secrets. */
  lemma KeysAreFolded(p: Primitives, pieces: seq<Blob>, key: Blob, first: Trust, nonces: seq<Blob>, events: seq<Event>)
    requires |nonces| == |pieces| > 0 && NoneRaise(events) && !first.FetchRaised?
    ensures var b := After(p, Fresh(p, pieces, key, Folded(p, key, [Secret(first)]), nonces, |Concat(pieces)|), events);
      var g := |Trusts(events)| / |pieces|;
      && ReadKey(p, b.current) == Some(Folded(p, key, Secrets(first, Trusts(events), |pieces|, g)))
      && ReadKey(p, b.next) == Some(Folded(p, key, Secrets(first, Trusts(events), |pieces|, g + 1)))
  {
    var nextKey, trusts := Folded(p, key, [Secret(first)]), Trusts(events);
    var b, g := After(p, Fresh(p, pieces, key, nextKey, nonces, |Concat(pieces)|), events), |trusts| / |pieces|;
    assert Laps(|trusts|, |pieces|) == g;
    hide *;
    EveryStatePosition(p, pieces, key, nextKey, nonces, events);
    PositionKeys(p, b, key, nextKey, trusts, pieces);
    GenerationIsFolded(p, key, first, trusts, |pieces|, g);
    GenerationIsFolded(p, key, first, trusts, |pieces|, g + 1);
  }

  lemma PositionKeys(p: Primitives, b: Box, key: Blob, nextKey: Blob, trusts: seq<Trust>, pieces: seq<Blob>)
    requires pieces != [] && Position(p, b, key, nextKey, trusts) && Holds(p, b, pieces)
    ensures var lower := Generation(p, key, nextKey, trusts, |pieces|, Laps(|trusts|, |pieces|));
      lower.Some? && ReadKey(p, b.current) == lower
    ensures var upper := Generation(p, key, nextKey, trusts, |pieces|, Laps(|trusts|, |pieces|) + 1);
      upper.Some? && ReadKey(p, b.next) == upper
  {
    hide Generation, Turn, Laps, ReadKey, ChunkHolds, Concat;
  }

  // ---------------------------------------------------------------- every secret counts

  ghost predicate Injective(f: Blob -> Blob) {
    forall a, b :: f(a) == f(b) ==> a == b
  }

  ghost predicate SameLengths(a: seq<Blob>, b: seq<Blob>) {
    |a| == |b| && forall i :: 0 <= i < |a| ==> |a[i]| == |b[i]|
  }

  /** If sha256 has no collisions, a key determines the initial key and every secret folded in: no
      other initial key and no other secrets of the same lengths lead to it. */
  lemma {:induction false} KeyDependsOnEverySecret(p: Primitives, key: Blob, secrets: seq<Blob>, key': Blob,
                                                   secrets': seq<Blob>)
    requires Injective(p.sha256) && SameLengths(secrets, secrets')
    requires Folded(p, key, secrets) == Folded(p, key', secrets')
    ensures key == key' && secrets == secrets'
    decreases |secrets|
  {
    hide *;
    SameFronts(secrets, secrets');
    if secrets == [] {
      FoldedNothing(p, key);
      FoldedNothing(p, key');
    } else {
      var m := |secrets| - 1;
      var suffix := Ascii("vstorage-ratchet");
      var k, k' := Folded(p, key, secrets[..m]), Folded(p, key', secrets'[..m]);
      FoldedMore(p, key, secrets[..m], secrets[m]);
      FoldedMore(p, key', secrets'[..m], secrets'[m]);
      assert secrets[..m] + [secrets[m]] == secrets && secrets'[..m] + [secrets'[m]] == secrets';
      Uncollided(p.sha256, k + secrets[m] + suffix, k' + secrets'[m] + suffix);
      Peel(k + secrets[m], k' + secrets'[m], suffix, suffix);
      Peel(k, k', secrets[m], secrets'[m]);
      KeyDependsOnEverySecret(p, key, secrets[..m], key', secrets'[..m]);
    }
  }

  lemma FoldedNothing(p: Primitives, key: Blob)
    ensures Folded(p, key, []) == key
  {
  }

  lemma Uncollided(f: Blob -> Blob, a: Blob, b: Blob)
    requires Injective(f) && f(a) == f(b)
    ensures a == b
  {
  }

  lemma SameFronts(a: seq<Blob>, b: seq<Blob>)
    requires SameLengths(a, b)
    ensures |a| == |b|
    ensures a != [] ==> var m := |a| - 1; |a[m]| == |b[m]| && SameLengths(a[..m], b[..m])
  {
  }

  lemma Peel(a: Blob, b: Blob, u: Blob, v: Blob)
    requires a + u == b + v && |u| == |v|
    ensures a == b && u == v
  {
    assert a == (a + u)[..|a|] && b == (b + v)[..|b|];
    assert u == (a + u)[|a|..] && v == (b + v)[|b|..];
  }
}
