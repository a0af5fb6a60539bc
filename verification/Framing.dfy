/** The artifact format as functions on byte strings:
    "BWY1", then frames of [uint32 length][12-byte nonce][ciphertext], then a zero length. */
module Framing {
  import opened Bytes
  import opened Wrappers

  const CHUNK_SIZE := 65536
  const NONCE_SIZE := 12
  const TAG_SIZE := 16
  const KEY_SIZE := 32
  const MAGIC: seq<byte> := [66, 87, 89, 49]
  const TERMINATOR: seq<byte> := [0, 0, 0, 0]

  type Key = seq<byte>
  type Nonce = s: seq<byte> | |s| == NONCE_SIZE witness [0, 0, 0, 0, 0, 0, 0, 0, 0, 0, 0, 0]

  /** The cryptographic library: an AEAD without associated data, and a hash in hex. */
  datatype Suite = Suite(
    seal: (Key, Nonce, seq<byte>) -> seq<byte>,
    open: (Key, Nonce, seq<byte>) -> Option<seq<byte>>,
    sha256: seq<byte> -> string)
  {
    /** Opening undoes sealing, and the ciphertext carries a 16-byte tag
        (sections 7.1 and 7.2 of NIST SP 800-38D). */
    ghost predicate Lawful() {
      forall k: Key, n: Nonce, x: seq<byte> ::
        open(k, n, seal(k, n, x)) == Some(x) && |seal(k, n, x)| == |x| + TAG_SIZE
    }

    ghost predicate CollisionFree() {
      forall x: seq<byte>, y: seq<byte> :: sha256(x) == sha256(y) ==> x == y
    }
  }

  // ---- Encoding ----

  function Frame(suite: Suite, key: Key, nonce: Nonce, chunk: seq<byte>): seq<byte> {
    var ct := suite.seal(key, nonce, chunk);
    PutUint32(|ct|) + nonce + ct
  }

  function ChunkLength(plain: seq<byte>): nat {
    if |plain| < CHUNK_SIZE then |plain| else CHUNK_SIZE
  }

  /** The frames of a plaintext, the first of them with nonce number i. */
  function Frames(suite: Suite, key: Key, nonces: nat -> Nonce, i: nat, plain: seq<byte>): seq<byte>
    decreases |plain|
  {
    if plain == [] then []
    else Frame(suite, key, nonces(i), plain[..ChunkLength(plain)])
         + Frames(suite, key, nonces, i + 1, plain[ChunkLength(plain)..])
  }

  function Encoding(suite: Suite, key: Key, nonces: nat -> Nonce, plain: seq<byte>): seq<byte> {
    MAGIC + Frames(suite, key, nonces, 0, plain) + TERMINATOR
  }

  // ---- Decoding ----

  datatype Verdict = Complete | NoMagic | WrongMagic | CutLength | CutNonce | CutCiphertext | Refused

  /** What a decoder has produced when it stops, and why it stops. */
  datatype Decoded = Decoded(out: seq<byte>, verdict: Verdict)

  /** What the next frame of a stream is. */
  datatype Head = Cut(verdict: Verdict) | End | Sealed(nonce: Nonce, ct: seq<byte>)

  function HeadOf(b: seq<byte>): (h: Head)
    ensures h.Sealed? ==> |b| >= 16 + |h.ct|
    ensures h.Cut? ==> h.verdict in {CutLength, CutNonce, CutCiphertext}
  {
    if |b| < 4 then Cut(CutLength)
    else if Uint32(b[..4]) == 0 then End
    else if |b| < 16 then Cut(CutNonce)
    else if |b| < 16 + Uint32(b[..4]) then Cut(CutCiphertext)
    else Sealed(b[4..16], b[16..16 + Uint32(b[..4])])
  }

  function DecodeFrames(suite: Suite, key: Key, b: seq<byte>): Decoded
    decreases |b|
  {
    match HeadOf(b)
    case Cut(verdict) => Decoded([], verdict)
    case End => Decoded([], Complete)
    case Sealed(nonce, ct) =>
      match suite.open(key, nonce, ct)
      case None => Decoded([], Refused)
      case Some(pt) =>
        var d := DecodeFrames(suite, key, b[16 + |ct|..]);
        Decoded(pt + d.out, d.verdict)
  }

  function Decode(suite: Suite, key: Key, b: seq<byte>): Decoded {
    if |b| < 4 then Decoded([], NoMagic)
    else if b[..4] != MAGIC then Decoded([], WrongMagic)
    else DecodeFrames(suite, key, b[4..])
  }

  // ---- What decodes completely ----

  /** What a frame carries. */
  datatype Piece = Piece(nonce: Nonce, ct: seq<byte>) {
    predicate WellSized() {
      0 < |ct| < 0x1_0000_0000
    }

    function Bytes(): seq<byte> {
      PutUint32(|ct|) + nonce + ct
    }
  }

  function PieceBytes(pieces: seq<Piece>): seq<byte> {
    if pieces == [] then [] else pieces[0].Bytes() + PieceBytes(pieces[1..])
  }

  /** The plaintext of the pieces, if all of them open. */
  function Opened(suite: Suite, key: Key, pieces: seq<Piece>): Option<seq<byte>> {
    if pieces == [] then Some([])
    else
      var (first, rest) := (suite.open(key, pieces[0].nonce, pieces[0].ct), Opened(suite, key, pieces[1..]));
      if first.Some? && rest.Some? then Some(first.value + rest.value) else None
  }

  /** The bytes are the magic, frames that open to the plaintext, a zero length, and anything. */
  ghost predicate Carries(suite: Suite, key: Key, b: seq<byte>, plain: seq<byte>) {
    exists pieces: seq<Piece>, junk: seq<byte> ::
      && (forall i :: 0 <= i < |pieces| ==> pieces[i].WellSized())
      && Opened(suite, key, pieces) == Some(plain)
      && b == [66, 87, 89, 49] + PieceBytes(pieces) + [0, 0, 0, 0] + junk
  }

  /** Decoding completes exactly on such bytes, whoever made them, and yields exactly their plaintext. */
  lemma CompleteMeaning(suite: Suite, key: Key, b: seq<byte>, plain: seq<byte>)
    ensures Decode(suite, key, b) == Decoded(plain, Complete) <==> Carries(suite, key, b, plain)
  {
    hide DecodeFrames, PieceBytes, Opened;
    if Decode(suite, key, b) == Decoded(plain, Complete) {
      var pieces, junk := PiecesOf(suite, key, b[4..]);
      assert b == b[..4] + b[4..] == MAGIC + PieceBytes(pieces) + TERMINATOR + junk;
    }
    if pieces: seq<Piece>, junk: seq<byte> :|
        && (forall i :: 0 <= i < |pieces| ==> pieces[i].WellSized())
        && Opened(suite, key, pieces) == Some(plain)
        && b == MAGIC + PieceBytes(pieces) + TERMINATOR + junk {
      PiecesDecode(suite, key, pieces, TERMINATOR + junk, plain);
      TerminatorDecodes(suite, key, junk);
      assert b[..4] == MAGIC && b[4..] == PieceBytes(pieces) + (TERMINATOR + junk);
      assert plain + [] == plain;
    }
  }

  lemma {:induction false} PiecesDecode(suite: Suite, key: Key, pieces: seq<Piece>, rest: seq<byte>, plain: seq<byte>)
    requires forall i :: 0 <= i < |pieces| ==> pieces[i].WellSized()
    requires Opened(suite, key, pieces) == Some(plain)
    ensures var d := DecodeFrames(suite, key, rest);
            DecodeFrames(suite, key, PieceBytes(pieces) + rest) == Decoded(plain + d.out, d.verdict)
  {
    hide DecodeFrames, Piece.Bytes;
    var d := DecodeFrames(suite, key, rest);
    if pieces == [] {
      assert PieceBytes(pieces) + rest == rest && plain + d.out == d.out;
    } else {
      var more := Opened(suite, key, pieces[1..]).value;
      PiecesDecode(suite, key, pieces[1..], rest, more);
      PieceDecodes(suite, key, pieces[0], PieceBytes(pieces[1..]) + rest);
      assert PieceBytes(pieces) + rest == pieces[0].Bytes() + (PieceBytes(pieces[1..]) + rest);
      var first := suite.open(key, pieces[0].nonce, pieces[0].ct).value;
      assert first + (more + d.out) == first + more + d.out;
    }
  }

  lemma {:induction false} PiecesOf(suite: Suite, key: Key, b: seq<byte>) returns (pieces: seq<Piece>, junk: seq<byte>)
    requires DecodeFrames(suite, key, b).verdict == Complete
    ensures forall i :: 0 <= i < |pieces| ==> pieces[i].WellSized()
    ensures Opened(suite, key, pieces) == Some(DecodeFrames(suite, key, b).out)
    ensures b == PieceBytes(pieces) + TERMINATOR + junk
    decreases |b|
  {
    hide PutUint32, Uint32, HeadOf, Piece.Bytes, Piece.WellSized;
    HeadBytes(b);
    var h := HeadOf(b);
    if h.End? {
      pieces, junk := [], b[4..];
    } else {
      var p, rest := Piece(h.nonce, h.ct), b[16 + |h.ct|..];
      var more;
      more, junk := PiecesOf(suite, key, rest);
      pieces := [p] + more;
      assert pieces[1..] == more;
      assert p.Bytes() + PieceBytes(more) + TERMINATOR + junk == p.Bytes() + (PieceBytes(more) + TERMINATOR + junk);
    }
  }

  /** The bytes a head was read from. */
  lemma HeadBytes(b: seq<byte>)
    ensures match HeadOf(b)
            case Cut(_) => true
            case End => b == [] + TERMINATOR + b[4..]
            case Sealed(nonce, ct) =>
              Piece(nonce, ct).WellSized() && b == Piece(nonce, ct).Bytes() + b[16 + |ct|..]
  {
    var h := HeadOf(b);
    if h.End? {
      HeaderOfUint32(b[..4]);
      assert b[..4] == PutUint32(0) == TERMINATOR;
    } else if h.Sealed? {
      HeaderOfUint32(b[..4]);
      assert b == b[..4] + b[4..16] + b[16..16 + |h.ct|] + b[16 + |h.ct|..];
    }
  }

  // ---- Laws ----

  lemma FrameShape(suite: Suite, key: Key, nonce: Nonce, chunk: seq<byte>)
    requires suite.Lawful() && 0 < |chunk| <= CHUNK_SIZE
    ensures |Frame(suite, key, nonce, chunk)| == |chunk| + 32
    ensures 0 < |suite.seal(key, nonce, chunk)| == |chunk| + TAG_SIZE < 0x1_0000_0000
  {
    assert suite.open(key, nonce, suite.seal(key, nonce, chunk)) == Some(chunk);
  }

  /** Bytes that have the form of a frame: if the ciphertext opens, its plaintext comes out and decoding goes
      on behind it; if it does not, nothing comes out and decoding stops. */
  lemma PieceDecodes(suite: Suite, key: Key, p: Piece, rest: seq<byte>)
    requires p.WellSized()
    ensures var d := DecodeFrames(suite, key, rest);
            DecodeFrames(suite, key, p.Bytes() + rest) ==
            match suite.open(key, p.nonce, p.ct)
            case None => Decoded([], Refused)
            case Some(pt) => Decoded(pt + d.out, d.verdict)
  {
    var b := p.Bytes() + rest;
    HeaderRoundTrip(|p.ct|);
    assert b[..4] == PutUint32(|p.ct|) && b[4..16] == p.nonce && b[16..16 + |p.ct|] == p.ct && b[16 + |p.ct|..] == rest;
  }

  /** A whole frame decodes to its chunk, and decoding goes on behind it. */
  lemma FrameDecodes(suite: Suite, key: Key, nonce: Nonce, chunk: seq<byte>, rest: seq<byte>)
    requires suite.Lawful() && 0 < |chunk| <= CHUNK_SIZE
    ensures var d := DecodeFrames(suite, key, rest);
            DecodeFrames(suite, key, Frame(suite, key, nonce, chunk) + rest) == Decoded(chunk + d.out, d.verdict)
  {
    hide DecodeFrames;
    FrameShape(suite, key, nonce, chunk);
    var ct := suite.seal(key, nonce, chunk);
    assert suite.open(key, nonce, ct) == Some(chunk);
    PieceDecodes(suite, key, Piece(nonce, ct), rest);
  }

  /** A frame cut anywhere yields nothing and an error. */
  lemma CutFrameDecodes(suite: Suite, key: Key, nonce: Nonce, chunk: seq<byte>, k: nat)
    requires suite.Lawful() && 0 < |chunk| <= CHUNK_SIZE
    requires k < |Frame(suite, key, nonce, chunk)|
    ensures var d := DecodeFrames(suite, key, Frame(suite, key, nonce, chunk)[..k]); d.out == [] && d.verdict != Complete
  {
    FrameShape(suite, key, nonce, chunk);
    var ct := suite.seal(key, nonce, chunk);
    var f := Frame(suite, key, nonce, chunk);
    HeaderRoundTrip(|ct|);
    assert f[..4] == PutUint32(|ct|);
    if k >= 4 {
      assert f[..k][..4] == f[..4];
    }
  }

  lemma TerminatorDecodes(suite: Suite, key: Key, junk: seq<byte>)
    ensures DecodeFrames(suite, key, TERMINATOR + junk) == Decoded([], Complete)
  {
    assert (TERMINATOR + junk)[..4] == TERMINATOR;
    assert Uint32(TERMINATOR) == 0;
  }

  lemma {:induction false} FramesDecode(suite: Suite, key: Key, nonces: nat -> Nonce, i: nat, plain: seq<byte>, junk: seq<byte>)
    requires suite.Lawful()
    ensures DecodeFrames(suite, key, Frames(suite, key, nonces, i, plain) + TERMINATOR + junk) == Decoded(plain, Complete)
    decreases |plain|
  {
    hide DecodeFrames, Frame;
    var all := Frames(suite, key, nonces, i, plain) + TERMINATOR + junk;
    if plain == [] {
      assert all == TERMINATOR + junk;
      TerminatorDecodes(suite, key, junk);
    } else {
      var n := ChunkLength(plain);
      var rest := Frames(suite, key, nonces, i + 1, plain[n..]) + TERMINATOR + junk;
      FramesDecode(suite, key, nonces, i + 1, plain[n..], junk);
      FrameDecodes(suite, key, nonces(i), plain[..n], rest);
      assert all == Frame(suite, key, nonces(i), plain[..n]) + rest;
      assert plain == plain[..n] + plain[n..];
    }
  }

  /** Decoding undoes encoding, whatever follows the terminator. */
  lemma DecodeOfEncoding(suite: Suite, key: Key, nonces: nat -> Nonce, plain: seq<byte>, junk: seq<byte>)
    requires suite.Lawful()
    ensures Decode(suite, key, Encoding(suite, key, nonces, plain) + junk) == Decoded(plain, Complete)
  {
    var b := Encoding(suite, key, nonces, plain) + junk;
    assert b[..4] == MAGIC;
    assert b[4..] == Frames(suite, key, nonces, 0, plain) + TERMINATOR + junk;
    FramesDecode(suite, key, nonces, 0, plain, junk);
  }

  function FrameCount(n: nat): nat {
    (n + CHUNK_SIZE - 1) / CHUNK_SIZE
  }

  lemma {:induction false} FramesLength(suite: Suite, key: Key, nonces: nat -> Nonce, i: nat, plain: seq<byte>)
    requires suite.Lawful()
    ensures |Frames(suite, key, nonces, i, plain)| == |plain| + 32 * FrameCount(|plain|)
    decreases |plain|
  {
    if plain != [] {
      var n := ChunkLength(plain);
      FrameShape(suite, key, nonces(i), plain[..n]);
      FramesLength(suite, key, nonces, i + 1, plain[n..]);
      assert |plain| >= CHUNK_SIZE ==> FrameCount(|plain|) == FrameCount(|plain| - CHUNK_SIZE) + 1;
    }
  }

  /** The size of an artifact is a function of the size of the dump alone. */
  lemma EncodingLength(suite: Suite, key: Key, nonces: nat -> Nonce, plain: seq<byte>)
    requires suite.Lawful()
    ensures |Encoding(suite, key, nonces, plain)| == 8 + |plain| + 32 * FrameCount(|plain|)
    ensures |Encoding(suite, key, nonces, plain)| == 8 + |plain| + 32 * ((|plain| + 65535) / 65536)
  {
    FramesLength(suite, key, nonces, 0, plain);
  }

  /** The artifact of a dump of one byte, byte for byte: the magic "BWY1", the length of a ciphertext of 17
      bytes with its most significant byte first, the nonce, the ciphertext, and a zero length. */
  lemma OneByteEncoding(suite: Suite, key: Key, nonces: nat -> Nonce, x: byte)
    requires suite.Lawful()
    ensures Encoding(suite, key, nonces, [x]) ==
            [66, 87, 89, 49] + [0, 0, 0, 17] + nonces(0) + suite.seal(key, nonces(0), [x]) + [0, 0, 0, 0]
  {
    FrameShape(suite, key, nonces(0), [x]);
    assert [x][..1] == [x] && [x][1..] == [];
    assert Frames(suite, key, nonces, 1, []) == [];
    assert PutUint32(17) == [0, 0, 0, 17];
  }

  /** The artifact of an empty dump is the magic and the zero length. */
  lemma EmptyEncoding(suite: Suite, key: Key, nonces: nat -> Nonce)
    ensures Encoding(suite, key, nonces, []) == [66, 87, 89, 49, 0, 0, 0, 0]
  {
  }

  /** Plaintext bytes recoverable from the first k bytes of the frames of n bytes of plaintext. */
  function Recovered(k: nat, n: nat): nat {
    if k >= n + 32 * FrameCount(n) then n else CHUNK_SIZE * (k / (CHUNK_SIZE + 32))
  }

  lemma {:induction false} CutFramesDecode(suite: Suite, key: Key, nonces: nat -> Nonce, i: nat, plain: seq<byte>, k: nat)
    requires suite.Lawful()
    requires k < |Frames(suite, key, nonces, i, plain)| + 4
    ensures var d := DecodeFrames(suite, key, (Frames(suite, key, nonces, i, plain) + TERMINATOR)[..k]);
            && d.verdict != Complete
            && Recovered(k, |plain|) <= |plain|
            && d.out == plain[..Recovered(k, |plain|)]
    decreases |plain|
  {
    hide DecodeFrames, Frame, FrameCount, Recovered;
    var all := Frames(suite, key, nonces, i, plain) + TERMINATOR;
    if plain == [] {
      assert all == TERMINATOR;
      CutTerminatorDecodes(suite, key, k);
    } else {
      var n := ChunkLength(plain);
      var frame := Frame(suite, key, nonces(i), plain[..n]);
      var rest := Frames(suite, key, nonces, i + 1, plain[n..]) + TERMINATOR;
      FrameShape(suite, key, nonces(i), plain[..n]);
      assert all == frame + rest;
      RecoveredStep(k, |plain|, n);
      if k < |frame| {
        CutFrameDecodes(suite, key, nonces(i), plain[..n], k);
        assert all[..k] == frame[..k];
      } else {
        var cut := rest[..k - |frame|];
        CutFramesDecode(suite, key, nonces, i + 1, plain[n..], k - |frame|);
        FrameDecodes(suite, key, nonces(i), plain[..n], cut);
        assert all[..k] == frame + cut;
        var r := Recovered(k - |frame|, |plain| - n);
        assert plain[..n] + plain[n..][..r] == plain[..n + r];
      }
    }
  }

  lemma CutTerminatorDecodes(suite: Suite, key: Key, k: nat)
    requires k < 4
    ensures DecodeFrames(suite, key, TERMINATOR[..k]) == Decoded([], CutLength)
    ensures Recovered(k, 0) == 0
  {
    assert FrameCount(0) == 0;
  }

  lemma RecoveredStep(k: nat, size: nat, n: nat)
    requires 0 < size && n == if size < CHUNK_SIZE then size else CHUNK_SIZE
    ensures k < n + 32 ==> Recovered(k, size) == 0
    ensures k >= n + 32 ==> Recovered(k, size) == n + Recovered(k - n - 32, size - n)
  {
    assert size >= CHUNK_SIZE ==> FrameCount(size) == FrameCount(size - CHUNK_SIZE) + 1;
    assert size < CHUNK_SIZE ==> FrameCount(size) == 1 && FrameCount(0) == 0;
    if k >= CHUNK_SIZE + 32 {
      assert k / (CHUNK_SIZE + 32) == (k - CHUNK_SIZE - 32) / (CHUNK_SIZE + 32) + 1;
    } else {
      assert k / (CHUNK_SIZE + 32) == 0;
    }
  }

  /** Truncation is always detected: every strict prefix of an encoding is refused, and what has been
      written by then is the plaintext up to the last whole chunk, or all of it when only the
      terminator is cut. */
  lemma TruncationDetected(suite: Suite, key: Key, nonces: nat -> Nonce, plain: seq<byte>, k: nat)
    requires suite.Lawful()
    requires k < |Encoding(suite, key, nonces, plain)|
    ensures var d := Decode(suite, key, Encoding(suite, key, nonces, plain)[..k]);
            var r := if k < 4 then 0 else Recovered(k - 4, |plain|);
            && d.verdict != Complete
            && r <= |plain| && d.out == plain[..r]
            && (r == |plain| || r % CHUNK_SIZE == 0)
            && (k >= |Encoding(suite, key, nonces, plain)| - 4 ==> r == |plain|)
  {
    hide DecodeFrames, Frames;
    var e := Encoding(suite, key, nonces, plain);
    var body := Frames(suite, key, nonces, 0, plain) + TERMINATOR;
    assert e == MAGIC + body;
    FramesLength(suite, key, nonces, 0, plain);
    if k >= 4 {
      assert e[..k][..4] == MAGIC;
      assert e[..k][4..] == body[..k - 4];
      CutFramesDecode(suite, key, nonces, 0, plain, k - 4);
    }
  }

  /** Nothing behind the terminator matters: if a prefix decodes completely, so do all the bytes. */
  lemma {:induction false} FramesStable(suite: Suite, key: Key, b: seq<byte>, k: nat)
    requires k <= |b| && DecodeFrames(suite, key, b[..k]).verdict == Complete
    ensures DecodeFrames(suite, key, b) == DecodeFrames(suite, key, b[..k])
    decreases |b|
  {
    var h := HeadOf(b[..k]);
    assert k >= 4 && b[..k][..4] == b[..4];
    if h.Sealed? {
      assert HeadOf(b) == h by {
        assert b[..k][4..16] == b[4..16] && b[..k][16..16 + |h.ct|] == b[16..16 + |h.ct|];
      }
      assert b[..k][16 + |h.ct|..] == b[16 + |h.ct|..][..k - 16 - |h.ct|];
      FramesStable(suite, key, b[16 + |h.ct|..], k - 16 - |h.ct|);
    }
  }

  lemma DecodeStable(suite: Suite, key: Key, b: seq<byte>, k: nat)
    requires k <= |b| && Decode(suite, key, b[..k]).verdict == Complete
    ensures Decode(suite, key, b) == Decode(suite, key, b[..k])
  {
    assert k >= 4 && b[..k][..4] == b[..4] && b[..k][4..] == b[4..][..k - 4];
    FramesStable(suite, key, b[4..], k - 4);
  }
}
