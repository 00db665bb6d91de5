/** What leaves a box: the plain stream, and the wrapped stream with its reader. */
module Streams {
  import opened Bytes
  import opened Crypto
  import opened BoxModel
  import opened Slicing
  import opened Wrappers

  /** Either the whole stream, or what came before an exception. */
  datatype Stream<+T> = Complete(sent: T) | Broken(sent: T)

  // ---------------------------------------------------------------- stream_to

  /** The pieces handed to write from chunk i on, while `remaining` bytes are wanted. */
  function Pieces(p: Primitives, b: Box, currentKey: Blob, nextKey: Blob, i: nat, remaining: int): Stream<seq<Blob>>
    requires b.Shaped() && i <= |b.chunks|
    decreases |b.chunks| - i
  {
    if i == |b.chunks| || remaining <= 0 then Complete([])
    else
      match Open(p, b.chunks[i], KeyOf(b, i, currentKey, nextKey))
      case None => Broken([])
      case Some(plain) =>
        var piece := Take(plain, Min(b.chunks[i].plainLen, remaining));
        Before(piece, Pieces(p, b, currentKey, nextKey, i + 1, remaining - |piece|))
  }

  function Before(piece: Blob, rest: Stream<seq<Blob>>): Stream<seq<Blob>> {
    rest.(sent := [piece] + rest.sent)
  }

  /** stream_to */
  function StreamTo(p: Primitives, b: Box): Stream<seq<Blob>>
    requires b.Shaped()
  {
    match (ReadKey(p, b.current), ReadKey(p, b.next))
    case (Some(currentKey), Some(nextKey)) => Pieces(p, b, currentKey, nextKey, 0, b.dataLen)
    case _ => Broken([])
  }

  lemma OpenPiece(p: Primitives, b: Box, pieces: seq<Blob>, i: nat)
    requires Holds(p, b, pieces) && i < |pieces|
    ensures Open(p, b.chunks[i], KeyOf(b, i, ReadKey(p, b.current).value, ReadKey(p, b.next).value)) == Some(pieces[i])
    ensures b.chunks[i].plainLen == |pieces[i]|
  {
    UnpackPack(p, pieces[i]);
    assert ChunkHolds(p, b.chunks[i], KeyOf(b, i, ReadKey(p, b.current).value, ReadKey(p, b.next).value), pieces[i]);
  }

  lemma PiecesCons(p: Primitives, b: Box, currentKey: Blob, nextKey: Blob, i: nat, remaining: nat, piece: Blob)
    requires b.Shaped() && i < |b.chunks| && remaining > 0
    requires Open(p, b.chunks[i], KeyOf(b, i, currentKey, nextKey)) == Some(piece)
    requires b.chunks[i].plainLen == |piece| <= remaining
    ensures Pieces(p, b, currentKey, nextKey, i, remaining)
         == Before(piece, Pieces(p, b, currentKey, nextKey, i + 1, remaining - |piece|))
  {
    assert Take(piece, |piece|) == piece;
    hide Open, KeyOf, Take;
  }

  /** stream_to hands over the pieces themselves, leaving out only empty ones at the end. */
  ghost predicate Sends(r: Stream<seq<Blob>>, pieces: seq<Blob>) {
    r.Complete? && r.sent <= pieces && Concat(r.sent) == Concat(pieces)
  }

  lemma SendsBefore(piece: Blob, rest: Stream<seq<Blob>>, pieces: seq<Blob>)
    requires Sends(rest, pieces)
    ensures Sends(Before(piece, rest), [piece] + pieces)
  {
    ConcatCons(piece, rest.sent);
    ConcatCons(piece, pieces);
  }

  lemma PiecesDone(p: Primitives, b: Box, currentKey: Blob, nextKey: Blob, i: nat, pieces: seq<Blob>)
    requires b.Shaped() && i <= |b.chunks| && Concat(pieces) == []
    ensures Sends(Pieces(p, b, currentKey, nextKey, i, 0), pieces)
  {
    hide Open, KeyOf;
    assert Concat([]) == [];
  }

  lemma HoldsShape(p: Primitives, b: Box, pieces: seq<Blob>)
    requires Holds(p, b, pieces)
    ensures b.Shaped() && |pieces| == |b.chunks| && ReadKey(p, b.current).Some? && ReadKey(p, b.next).Some?
  {
  }

  lemma ConcatAt(pieces: seq<Blob>, i: nat)
    requires i < |pieces|
    ensures pieces[i..] == [pieces[i]] + pieces[i + 1..]
    ensures Concat(pieces[i..]) == pieces[i] + Concat(pieces[i + 1..])
  {
    hide Concat;
    ConcatCons(pieces[i], pieces[i + 1..]);
    assert pieces[i..] == [pieces[i]] + pieces[i + 1..];
  }

  lemma NoPieces(pieces: seq<Blob>)
    requires pieces == []
    ensures Concat(pieces) == []
  {
  }

  lemma {:induction false} PiecesAreData(p: Primitives, b: Box, pieces: seq<Blob>, i: nat)
    requires Holds(p, b, pieces) && i <= |pieces|
    ensures
      var currentKey, nextKey := ReadKey(p, b.current).value, ReadKey(p, b.next).value;
      Sends(Pieces(p, b, currentKey, nextKey, i, |Concat(pieces[i..])|), pieces[i..])
    decreases |pieces| - i
  {
    HoldsShape(p, b, pieces);
    hide *;
    var currentKey, nextKey := ReadKey(p, b.current).value, ReadKey(p, b.next).value;
    var wanted := |Concat(pieces[i..])|;
    if i == |pieces| {
      NoPieces(pieces[i..]);
    }
    if wanted == 0 {
      PiecesDone(p, b, currentKey, nextKey, i, pieces[i..]);
    } else {
      PiecesAreData(p, b, pieces, i + 1);
      OpenPiece(p, b, pieces, i);
      ConcatAt(pieces, i);
      PiecesCons(p, b, currentKey, nextKey, i, wanted, pieces[i]);
      SendsBefore(pieces[i], Pieces(p, b, currentKey, nextKey, i + 1, wanted - |pieces[i]|), pieces[i + 1..]);
    }
  }

  /** The pieces written by stream_to concatenate to what snapshot returns, in any reachable state. */
  lemma StreamIsSnapshot(p: Primitives, b: Box, events: seq<Event>, pieces: seq<Blob>)
    requires Holds(p, b, pieces)
    ensures var r := StreamTo(p, After(p, b, events));
      r.Complete? && Some(Concat(r.sent)) == Snapshot(p, After(p, b, events)) == Some(Concat(pieces))
  {
    EveryStateHoldsData(p, b, events, pieces);
    SnapshotIsData(p, b, events, pieces);
    PiecesAreData(p, After(p, b, events), pieces, 0);
    assert pieces[0..] == pieces;
  }

  // ---------------------------------------------------------------- frames

  const LENGTH_LIMIT: nat := 0x1_0000_0000

  /** n.to_bytes(4, "big") */
  function BigEndian(n: nat): (r: Blob)
    requires n < LENGTH_LIMIT
    ensures |r| == 4
  {
    [n / 0x100_0000, n / 0x1_0000 % 256, n / 0x100 % 256, n % 256]
  }

  /** int.from_bytes(bytes, "big") */
  function FromBigEndian(bytes: seq<nat>): nat {
    if bytes == [] then 0 else FromBigEndian(bytes[..|bytes| - 1]) * 256 + bytes[|bytes| - 1]
  }

  lemma FourDigits(b: seq<nat>)
    requires |b| == 4
    ensures FromBigEndian(b) == ((b[0] * 256 + b[1]) * 256 + b[2]) * 256 + b[3]
  {
    assert b[..3][..2] == b[..2] && b[..2][..1] == b[..1] && b[..1][..0] == [];
    assert FromBigEndian(b[..1]) == b[0];
    assert FromBigEndian(b[..2]) == b[0] * 256 + b[1];
  }

  lemma BigEndianRoundTrip(n: nat)
    requires n < LENGTH_LIMIT
    ensures FromBigEndian(BigEndian(n)) == n
  {
    FourDigits(BigEndian(n));
    assert n / 0x1_0000 / 256 == n / 0x100_0000;
    assert n / 0x100 / 256 == n / 0x1_0000;
    hide FromBigEndian;
  }

  /** One wrapped chunk. */
  function Frame(p: Primitives, transit: Blob, nonce: Blob, piece: Blob): Blob
    requires |piece| + TAG_LEN < LENGTH_LIMIT
  {
    var ct := p.aes.encrypt(transit, nonce, piece);
    BigEndian(|ct|) + nonce + ct
  }

  ghost predicate Fits(pieces: seq<Blob>) {
    forall i :: 0 <= i < |pieces| ==> |pieces[i]| + TAG_LEN < LENGTH_LIMIT
  }

  ghost predicate Nonces(nonces: seq<Blob>) {
    forall i :: 0 <= i < |nonces| ==> |nonces[i]| == NONCE_LEN
  }

  /** The whole file written by stream_to_wrapped for these pieces. */
  function Wrapped(p: Primitives, transit: Blob, nonces: seq<Blob>, pieces: seq<Blob>): Blob
    requires Fits(pieces) && |nonces| >= |pieces|
  {
    if pieces == [] then [] else Frame(p, transit, nonces[0], pieces[0]) + Wrapped(p, transit, nonces[1..], pieces[1..])
  }

  /** Nothing of the data but what its ciphertexts show is in the file: other pieces under another
      key that encrypt to the same ciphertexts give the same file. */
  lemma {:induction false} WrappedShowsCiphertexts(p: Primitives, transit: Blob, pieces: seq<Blob>, transit': Blob,
                                                   pieces': seq<Blob>, nonces: seq<Blob>)
    requires Fits(pieces) && Fits(pieces') && |pieces| == |pieces'| <= |nonces|
    requires forall i :: 0 <= i < |pieces| ==>
      p.aes.encrypt(transit, nonces[i], pieces[i]) == p.aes.encrypt(transit', nonces[i], pieces'[i])
    ensures Wrapped(p, transit, nonces, pieces) == Wrapped(p, transit', nonces, pieces')
    decreases |pieces|
  {
    if pieces != [] {
      assert p.aes.encrypt(transit, nonces[0], pieces[0]) == p.aes.encrypt(transit', nonces[0], pieces'[0]);
      WrappedShowsCiphertexts(p, transit, pieces[1..], transit', pieces'[1..], nonces[1..]);
    }
  }

  // ---------------------------------------------------------------- the reader

  /** decrypt_wrapped_file: what it has written by the end of the file, or when it raises.
      A read at the end of the file returns what is left. */
  function Unwrapped(p: Primitives, transit: Blob, file: Blob): Stream<Blob>
    decreases |file|
  {
    if file == [] then Complete([])
    else
      var rest := Skip(file, 4);
      var ctLen := FromBigEndian(Take(file, 4));
      var nonce := Take(rest, NONCE_LEN);
      var body := Skip(rest, NONCE_LEN);
      match p.aes.decrypt(transit, nonce, Take(body, ctLen))
      case None => Broken([])
      case Some(plain) =>
        var tail := Unwrapped(p, transit, Skip(body, ctLen));
        tail.(sent := plain + tail.sent)
  }

  /** What is left of a file after a read of n bytes. */
  function Skip(s: Blob, n: nat): (r: Blob)
    ensures s == Take(s, n) + r
    ensures |r| <= |s| && (n > 0 && s != [] ==> |r| < |s|)
  {
    s[|Take(s, n)|..]
  }

  lemma TakeSkip(head: Blob, tail: Blob)
    ensures Take(head + tail, |head|) == head && Skip(head + tail, |head|) == tail
  {
  }

  lemma UnwrapFrame(p: Primitives, transit: Blob, nonce: Blob, piece: Blob, tail: Blob)
    requires |piece| + TAG_LEN < LENGTH_LIMIT && |nonce| == NONCE_LEN
    ensures var rest := Unwrapped(p, transit, tail);
      Unwrapped(p, transit, Frame(p, transit, nonce, piece) + tail) == rest.(sent := piece + rest.sent)
  {
    var ct := p.aes.encrypt(transit, nonce, piece);
    assert |ct| == |piece| + TAG_LEN && p.aes.decrypt(transit, nonce, ct) == Some(piece);
    var head := BigEndian(|ct|);
    BigEndianRoundTrip(|ct|);
    var file := Frame(p, transit, nonce, piece) + tail;
    assert file == head + (nonce + (ct + tail));
    TakeSkip(head, nonce + (ct + tail));
    TakeSkip(nonce, ct + tail);
    TakeSkip(ct, tail);
    hide BigEndian, FromBigEndian, Take, Skip, Frame;
  }

  /** The reader undoes the writer: for every list of pieces the wrapped file reads back as their
      concatenation. */
  lemma {:induction false} UnwrapWrapped(p: Primitives, transit: Blob, nonces: seq<Blob>, pieces: seq<Blob>)
    requires Fits(pieces) && Nonces(nonces) && |nonces| >= |pieces|
    ensures Unwrapped(p, transit, Wrapped(p, transit, nonces, pieces)) == Complete(Concat(pieces))
    decreases |pieces|
  {
    hide *;
    if pieces == [] {
      UnwrapNothing(p, transit, nonces);
    } else {
      WrappedCons(p, transit, nonces, pieces);
      UnwrapWrapped(p, transit, nonces[1..], pieces[1..]);
      UnwrapFrame(p, transit, nonces[0], pieces[0], Wrapped(p, transit, nonces[1..], pieces[1..]));
      ConcatAt(pieces, 0);
      assert pieces[0..] == pieces;
    }
  }

  lemma UnwrapNothing(p: Primitives, transit: Blob, nonces: seq<Blob>)
    ensures Fits([]) && Unwrapped(p, transit, Wrapped(p, transit, nonces, [])) == Complete(Concat([]))
  {
  }

  lemma WrappedCons(p: Primitives, transit: Blob, nonces: seq<Blob>, pieces: seq<Blob>)
    requires Fits(pieces) && Nonces(nonces) && |nonces| >= |pieces| > 0
    ensures Fits(pieces[1..]) && Nonces(nonces[1..]) && |pieces[0]| + TAG_LEN < LENGTH_LIMIT && |nonces[0]| == NONCE_LEN
    ensures Wrapped(p, transit, nonces, pieces)
         == Frame(p, transit, nonces[0], pieces[0]) + Wrapped(p, transit, nonces[1..], pieces[1..])
  {
    hide Frame;
  }

  /** The lengths in a file add up: every frame is as long as it says. */
  predicate Whole(file: Blob)
    decreases |file|
  {
    file == []
    || (var body := Skip(Skip(file, 4), NONCE_LEN);
        var ctLen := FromBigEndian(Take(file, 4));
        |file| >= 4 + NONCE_LEN + ctLen && Whole(Skip(body, ctLen)))
  }

  lemma BigEndianIs(b: Blob)
    requires |b| == 4
    ensures FromBigEndian(b) < LENGTH_LIMIT && BigEndian(FromBigEndian(b)) == b
  {
    FourDigits(b);
    var n := FromBigEndian(b);
    var high: nat := (b[0] as nat * 256 + b[1]) * 256 + b[2];
    assert n == high * 256 + b[3] as nat && n / 0x100 == high && n % 256 == b[3];
    assert high / 0x100 == b[0] as nat * 256 + b[1] && high % 256 == b[2];
    assert n / 0x1_0000 == n / 0x100 / 0x100 && n / 0x100_0000 == n / 0x1_0000 / 0x100;
    hide FromBigEndian;
  }

  /** What the first frame of a file is, if the reader accepts it. */
  lemma FirstFrame(p: Primitives, transit: Blob, file: Blob) returns (nonce: Blob, piece: Blob, rest: Blob)
    requires file != [] && Whole(file) && Unwrapped(p, transit, file).Complete?
    ensures |nonce| == NONCE_LEN && |piece| + TAG_LEN < LENGTH_LIMIT
    ensures file == Frame(p, transit, nonce, piece) + rest && Whole(rest) && |rest| < |file|
    ensures Unwrapped(p, transit, rest).Complete?
    ensures Unwrapped(p, transit, file).sent == piece + Unwrapped(p, transit, rest).sent
  {
    hide *;
    var head, ct;
    head, nonce, ct, rest := FrameParts(file);
    BigEndianIs(head);
    UnwrappedStep(p, transit, file);
    piece := p.aes.decrypt(transit, nonce, ct).value;
    FrameIs(p, transit, nonce, ct);
    LeadIs(piece, Unwrapped(p, transit, rest));
  }

  lemma LeadIs(out: Blob, rest: Stream<Blob>)
    ensures Lead(out, rest).Complete? == rest.Complete? && Lead(out, rest).sent == out + rest.sent
  {
  }

  /** A ciphertext that decrypts makes a frame of its plaintext. */
  lemma FrameIs(p: Primitives, transit: Blob, nonce: Blob, ct: Blob)
    requires p.aes.decrypt(transit, nonce, ct).Some? && |ct| < LENGTH_LIMIT
    ensures var piece := p.aes.decrypt(transit, nonce, ct).value;
      |ct| == |piece| + TAG_LEN && Frame(p, transit, nonce, piece) == BigEndian(|ct|) + nonce + ct
  {
    hide BigEndian;
    var piece := p.aes.decrypt(transit, nonce, ct).value;
    assert p.aes.encrypt(transit, nonce, piece) == ct;
  }

  lemma FrameParts(file: Blob) returns (head: Blob, nonce: Blob, ct: Blob, rest: Blob)
    requires file != [] && Whole(file)
    ensures |head| == 4 && |nonce| == NONCE_LEN && |ct| == FromBigEndian(head) && file == head + nonce + ct + rest
    ensures Whole(rest) && |rest| < |file| && head == Take(file, 4) && nonce == Take(Skip(file, 4), NONCE_LEN)
    ensures var body := Skip(Skip(file, 4), NONCE_LEN);
      ct == Take(body, FromBigEndian(head)) && rest == Skip(body, FromBigEndian(head))
  {
    WholeParts(file);
    hide *;
    head := Take(file, 4);
    var n, body := FromBigEndian(head), Skip(Skip(file, 4), NONCE_LEN);
    nonce, ct, rest := Take(Skip(file, 4), NONCE_LEN), Take(body, n), Skip(body, n);
    Parts(file, 4);
    Parts(Skip(file, 4), NONCE_LEN);
    Parts(body, n);
    Joined(file, head, Skip(file, 4), nonce, body, ct, rest);
  }

  lemma Joined(file: Blob, head: Blob, more: Blob, nonce: Blob, body: Blob, ct: Blob, rest: Blob)
    requires file == head + more && more == nonce + body && body == ct + rest
    ensures file == head + nonce + ct + rest
  {
    assert head + (nonce + (ct + rest)) == head + nonce + ct + rest;
  }

  lemma WholeParts(file: Blob)
    requires file != [] && Whole(file)
    ensures var n, body := FromBigEndian(Take(file, 4)), Skip(Skip(file, 4), NONCE_LEN);
      |file| >= 4 + NONCE_LEN + n && Whole(Skip(body, n))
  {
    hide FromBigEndian;
  }

  lemma Parts(s: Blob, n: nat)
    requires n <= |s|
    ensures s == Take(s, n) + Skip(s, n) && |Take(s, n)| == n && |Skip(s, n)| == |s| - n
  {
  }

  /** Of the files whose lengths add up the reader accepts exactly those a writer makes: whatever it
      returns without raising is what some pieces, wrapped under this key, concatenate to. */
  lemma {:induction false} AcceptedIsWrapped(p: Primitives, transit: Blob, file: Blob)
    returns (nonces: seq<Blob>, pieces: seq<Blob>)
    requires Whole(file) && Unwrapped(p, transit, file).Complete?
    ensures Fits(pieces) && Nonces(nonces) && |nonces| == |pieces|
    ensures file == Wrapped(p, transit, nonces, pieces) && Unwrapped(p, transit, file).sent == Concat(pieces)
    decreases |file|
  {
    if file == [] {
      nonces, pieces := [], [];
      assert Concat([]) == [];
    } else {
      hide *;
      var nonce, piece, rest := FirstFrame(p, transit, file);
      nonces, pieces := AcceptedIsWrapped(p, transit, rest);
      WrappedPrepend(p, transit, nonce, piece, nonces, pieces);
      ConcatCons(piece, pieces);
      nonces, pieces := [nonce] + nonces, [piece] + pieces;
    }
  }

  lemma WrappedPrepend(p: Primitives, transit: Blob, nonce: Blob, piece: Blob, nonces: seq<Blob>, pieces: seq<Blob>)
    requires Fits(pieces) && Nonces(nonces) && |nonces| == |pieces|
    requires |nonce| == NONCE_LEN && |piece| + TAG_LEN < LENGTH_LIMIT
    ensures Fits([piece] + pieces) && Nonces([nonce] + nonces)
    ensures Wrapped(p, transit, [nonce] + nonces, [piece] + pieces)
         == Frame(p, transit, nonce, piece) + Wrapped(p, transit, nonces, pieces)
  {
    assert ([nonce] + nonces)[1..] == nonces && ([piece] + pieces)[1..] == pieces;
    hide Frame;
  }

  /** Decrypting the wrapped file of a box, in any reachable state, gives back its data. */
  lemma WrappedBoxReadsBack(p: Primitives, b: Box, events: seq<Event>, pieces: seq<Blob>, transit: Blob,
                            nonces: seq<Blob>)
    requires Holds(p, b, pieces) && Fits(pieces) && Nonces(nonces) && |nonces| >= |pieces|
    ensures var sent := StreamTo(p, After(p, b, events)).sent;
      Fits(sent) && |nonces| >= |sent|
      && Unwrapped(p, transit, Wrapped(p, transit, nonces, sent)) == Complete(Concat(pieces))
  {
    EveryStateHoldsData(p, b, events, pieces);
    var b' := After(p, b, events);
    PiecesAreData(p, b', pieces, 0);
    assert pieces[0..] == pieces;
    var sent := StreamTo(p, b').sent;
    assert Fits(sent) && |nonces| >= |sent| && Concat(sent) == Concat(pieces);
    hide *;
    UnwrapWrapped(p, transit, nonces, sent);
  }

  // ---------------------------------------------------------------- the loops

  function Lead(out: Blob, rest: Stream<Blob>): Stream<Blob> {
    rest.(sent := out + rest.sent)
  }

  lemma LeadEnds(out: Blob, rest: Stream<Blob>)
    ensures out == [] ==> Lead(out, rest) == rest
    ensures rest == Complete([]) ==> Lead(out, rest) == Complete(out)
    ensures rest == Broken([]) ==> Lead(out, rest) == Broken(out)
  {
    assert out == [] ==> out + rest.sent == rest.sent;
    assert rest.sent == [] ==> out + rest.sent == out;
  }

  lemma LeadOne(out: Blob, plain: Blob, rest: Stream<Blob>)
    ensures Lead(out, Lead(plain, rest)) == Lead(out + plain, rest)
  {
    assert out + (plain + rest.sent) == out + plain + rest.sent;
  }

  lemma UnwrappedStep(p: Primitives, transit: Blob, file: Blob)
    ensures file == [] ==> Unwrapped(p, transit, file) == Complete([])
    ensures file != [] ==>
      var rest, ctLen := Skip(file, 4), FromBigEndian(Take(file, 4));
      var body := Skip(rest, NONCE_LEN);
      var plain := p.aes.decrypt(transit, Take(rest, NONCE_LEN), Take(body, ctLen));
      |Skip(body, ctLen)| < |file|
      && Unwrapped(p, transit, file)
         == if plain == None then Broken([]) else Lead(plain.value, Unwrapped(p, transit, Skip(body, ctLen)))
  {
    hide FromBigEndian, Take;
  }

  /** decrypt_wrapped_file: reads frame by frame, writing each plaintext as it goes. */
  method DecryptWrappedFile(p: Primitives, file: Blob, transit: Blob) returns (out: Blob, done: bool)
    ensures (if done then Complete(out) else Broken(out)) == Unwrapped(p, transit, file)
  {
    hide *;
    out := [];
    var rest := file;
    LeadEnds(out, Unwrapped(p, transit, rest));
    while true
      invariant Unwrapped(p, transit, file) == Lead(out, Unwrapped(p, transit, rest))
      decreases |rest|
    {
      UnwrappedStep(p, transit, rest);
      var lengthBytes := Take(rest, 4);
      if rest == [] {
        LeadEnds(out, Complete([]));
        return out, true;
      }
      var ctLen := FromBigEndian(lengthBytes);
      rest := Skip(rest, 4);
      var nonce := Take(rest, NONCE_LEN);
      rest := Skip(rest, NONCE_LEN);
      var ct := Take(rest, ctLen);
      rest := Skip(rest, ctLen);
      var plain := p.aes.decrypt(transit, nonce, ct);
      if plain == None {
        LeadEnds(out, Broken([]));
        return out, false;
      }
      LeadOne(out, plain.value, Unwrapped(p, transit, rest));
      out := out + plain.value;
    }
  }

  lemma {:induction false} WrappedAppend(p: Primitives, transit: Blob, nonces: seq<Blob>, pieces: seq<Blob>, one: Blob)
    requires Fits(pieces + [one]) && |nonces| == |pieces| + 1
    ensures Fits(pieces) && |one| + TAG_LEN < LENGTH_LIMIT
    ensures Wrapped(p, transit, nonces, pieces + [one])
         == Wrapped(p, transit, nonces[..|pieces|], pieces) + Frame(p, transit, nonces[|pieces|], one)
    decreases |pieces|
  {
    var all := pieces + [one];
    assert all[|pieces|] == one && forall i :: 0 <= i < |pieces| ==> all[i] == pieces[i];
    if pieces != [] {
      assert all[1..] == pieces[1..] + [one];
      assert Fits(all[1..]);
      WrappedAppend(p, transit, nonces[1..], pieces[1..], one);
      assert nonces[1..][..|pieces| - 1] == nonces[..|pieces|][1..];
    } else {
      assert all[1..] == [];
    }
  }
}
