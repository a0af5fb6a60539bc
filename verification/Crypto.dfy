/** Streaming encryption and decryption between a reader and a writer. */
module Crypto {
  import opened Bytes
  import opened Framing
  import opened Streams
  import opened Wrappers

  /** Randomness: the nonce of each frame, and whether the generator delivered it. */
  datatype Entropy = Entropy(nonces: nat -> Nonce, works: nat -> bool) {
    ghost predicate AlwaysWorks() {
      forall i :: works(i)
    }

    /** Every nonce for n bytes of plaintext is delivered. */
    ghost predicate Suffices(n: nat) {
      Delivers(FrameCount(n))
    }

    ghost predicate Delivers(k: nat) {
      forall i :: 0 <= i < k ==> works(i)
    }
  }

  /** Between two moments a strict prefix of s was written. */
  ghost predicate CutShort(before: seq<byte>, after: seq<byte>, s: seq<byte>) {
    before <= after && |after| - |before| < |s| && after[|before|..] == s[..|after| - |before|]
  }

  lemma CutExtends(start: seq<byte>, written: seq<byte>, after: seq<byte>, part: seq<byte>, later: seq<byte>, whole: seq<byte>)
    requires whole == written + (part + later) && CutShort(start + written, after, part)
    ensures CutShort(start, after, whole)
  {
    assert after[|start|..] == written + after[|start + written|..];
  }

  lemma FullWriterCuts(limit: Option<nat>, before: seq<byte>, part: seq<byte>)
    requires limit.Some? && |before| <= limit.value < |before| + |part|
    ensures CutShort(before, Clip(limit, before + part), part)
  {
  }

  /** Encrypts all of src. It succeeds exactly when the key has its size, the source does not break, every
      nonce is delivered and the destination takes the whole encoding. A failed run leaves a strict prefix
      of the encoding behind, which no decoder accepts. */
  method Encrypt(suite: Suite, dst: Writer, src: Reader, key: Key, entropy: Entropy) returns (ok: bool)
    requires src.Valid() && dst.Valid()
    modifies dst, src
    ensures src.Valid() && dst.Valid()
    ensures ok <==> |key| == KEY_SIZE && !src.broken && entropy.Suffices(|old(src.Rest())|) &&
                    old(dst.Fits(Encoding(suite, key, entropy.nonces, src.Rest())))
    ensures ok ==> dst.reached == old(dst.reached) + Encoding(suite, key, entropy.nonces, old(src.Rest()))
    ensures !ok ==> CutShort(old(dst.reached), dst.reached, Encoding(suite, key, entropy.nonces, old(src.Rest())))
  {
    ghost var start, body := dst.reached, Frames(suite, key, entropy.nonces, 0, src.Rest());
    ghost var whole := Encoding(suite, key, entropy.nonces, src.Rest());
    EncodingParts(whole, body);
    hide Frames, Encoding, CutShort, Clip;
    if |key| != KEY_SIZE {
      NothingWritten(start, whole);
      return false;
    }
    ok := WritePart(dst, MAGIC);
    if !ok {
      CutExtends(start, [], dst.reached, MAGIC, body + TERMINATOR, whole);
      return;
    }
    ok := EncryptFrames(suite, dst, src, key, entropy);
    if !ok {
      CutExtends(start, MAGIC, dst.reached, body + TERMINATOR, [], whole);
      return;
    }
    Regroup(start, MAGIC, body, TERMINATOR);
    ok := WritePart(dst, TERMINATOR);
    if !ok {
      CutExtends(start, MAGIC + body, dst.reached, TERMINATOR, [], whole);
    }
  }

  /** One write of a stream: all of the part, or a strict prefix of it. */
  method WritePart(dst: Writer, part: seq<byte>) returns (ok: bool)
    requires dst.Valid()
    modifies dst
    ensures dst.Valid()
    ensures ok <==> old(dst.Fits(part))
    ensures ok ==> dst.reached == old(dst.reached) + part
    ensures !ok ==> CutShort(old(dst.reached), dst.reached, part)
  {
    ghost var start := dst.reached;
    ok := dst.Write(part);
    if ok {
      WholeWrite(dst.limit, start, part);
    } else {
      FullWriterCuts(dst.limit, start, part);
    }
  }

  lemma EncodingParts(whole: seq<byte>, body: seq<byte>)
    requires whole == MAGIC + body + TERMINATOR
    ensures whole == [] + (MAGIC + (body + TERMINATOR)) == MAGIC + ((body + TERMINATOR) + [])
    ensures whole == (MAGIC + body) + (TERMINATOR + []) == (MAGIC + body) + TERMINATOR
  {
  }

  lemma NothingWritten(start: seq<byte>, whole: seq<byte>)
    requires whole != []
    ensures CutShort(start, start, whole)
  {
  }

  lemma WholeWrite(limit: Option<nat>, before: seq<byte>, part: seq<byte>)
    requires limit.Some? ==> |before| + |part| <= limit.value
    ensures Clip(limit, before + part) == before + part
  {
  }

  method EncryptFrames(suite: Suite, dst: Writer, src: Reader, key: Key, entropy: Entropy) returns (ok: bool)
    requires src.Valid() && dst.Valid()
    modifies dst, src
    ensures src.Valid() && dst.Valid()
    ensures ok ==> !src.broken && dst.reached == old(dst.reached) + Frames(suite, key, entropy.nonces, 0, old(src.Rest()))
    ensures !ok ==> CutShort(old(dst.reached), dst.reached, Frames(suite, key, entropy.nonces, 0, old(src.Rest())) + TERMINATOR)
    ensures ok <==> !src.broken && entropy.Suffices(|old(src.Rest())|) &&
                    old(dst.Fits(Frames(suite, key, entropy.nonces, 0, src.Rest())))
  {
    ghost var start, written := dst.reached, [];
    ghost var whole := Frames(suite, key, entropy.nonces, 0, src.Rest());
    var buf := new byte[CHUNK_SIZE];
    var i := 0;
    while true
      invariant src.Valid() && dst.Valid()
      invariant dst.reached == start + written
      invariant written + Frames(suite, key, entropy.nonces, i, src.Rest()) == whole
      invariant i + FrameCount(|src.Rest()|) == FrameCount(|old(src.Rest())|)
      invariant entropy.Delivers(i)
      decreases |src.Rest()|
    {
      hide CutShort, Frame, Frames, FrameCount, Entropy.Delivers;
      ghost var left, sofar := src.Rest(), written;
      var n, err;
      n, err, ok := EncryptChunk(suite, dst, src, buf, key, entropy, i);
      FramesSplit(suite, key, entropy.nonces, i, left);
      FramesCounted(entropy, i, |left|, n);
      if n > 0 {
        ghost var part := Frame(suite, key, entropy.nonces(i), left[..n]);
        ghost var later := Frames(suite, key, entropy.nonces, i + 1, left[n..]);
        Regroup(sofar, part, later, TERMINATOR);
        if !ok {
          CutExtends(start, sofar, dst.reached, part, later + TERMINATOR, whole + TERMINATOR);
          return;
        }
        Regroup(start, sofar, part, []);
        written := sofar + part;
        i := i + 1;
      }
      if err == EOF || err == UnexpectedEOF {
        break;
      }
      if err != NoError {
        assert src.Rest() == [];
        FramesSplit(suite, key, entropy.nonces, i, []);
        Regroup(written, [], [], TERMINATOR);
        NothingWritten(dst.reached, TERMINATOR);
        CutExtends(start, written, dst.reached, TERMINATOR, [], whole + TERMINATOR);
        return false;
      }
    }
    assert src.Rest() == [];
  }

  /** One more frame takes one more nonce. */
  lemma FramesCounted(entropy: Entropy, i: nat, size: nat, n: nat)
    requires n == if size < CHUNK_SIZE then size else CHUNK_SIZE
    ensures if size == 0 then FrameCount(size) == 0 else FrameCount(size) == FrameCount(size - n) + 1
    ensures entropy.Delivers(i) && entropy.works(i) ==> entropy.Delivers(i + 1)
    ensures n > 0 && !entropy.works(i) ==> !entropy.Delivers(i + FrameCount(size))
  {
  }

  lemma FramesSplit(suite: Suite, key: Key, nonces: nat -> Nonce, i: nat, left: seq<byte>)
    ensures left == [] ==> Frames(suite, key, nonces, i, left) == []
    ensures left != [] ==>
              var n := ChunkLength(left);
              Frames(suite, key, nonces, i, left) == Frame(suite, key, nonces(i), left[..n]) + Frames(suite, key, nonces, i + 1, left[n..])
  {
  }

  lemma Regroup(a: seq<byte>, b: seq<byte>, c: seq<byte>, d: seq<byte>)
    ensures a + (b + c) == (a + b) + c
    ensures a + (b + c) + d == a + (b + (c + d))
    ensures a + b + [] == a + b && b + [] == b == [] + b
    ensures a + d == a + (d + [])
  {
  }

  /** One turn of the encryption loop: the next chunk of the source, written as one frame. */
  method EncryptChunk(suite: Suite, dst: Writer, src: Reader, buf: array<byte>, key: Key, entropy: Entropy, i: nat)
    returns (n: nat, err: ReadError, ok: bool)
    requires src.Valid() && dst.Valid() && buf.Length == CHUNK_SIZE
    modifies dst, src, buf
    ensures src.Valid() && dst.Valid()
    ensures n == ChunkLength(old(src.Rest())) && src.Rest() == old(src.Rest())[n..]
    ensures err == if n == CHUNK_SIZE then NoError else if src.broken then Failed else if n == 0 then EOF else UnexpectedEOF
    ensures n == 0 ==> ok && dst.reached == old(dst.reached)
    ensures n > 0 && ok ==> dst.reached == old(dst.reached) + Frame(suite, key, entropy.nonces(i), old(src.Rest())[..n])
    ensures !ok ==> n > 0 && CutShort(old(dst.reached), dst.reached, Frame(suite, key, entropy.nonces(i), old(src.Rest())[..n]))
    ensures n > 0 ==>
              (ok <==> entropy.works(i) && old(dst.Fits(Frame(suite, key, entropy.nonces(i), src.Rest()[..ChunkLength(src.Rest())]))))
  {
    n, err := ReadFull(src, buf);
    ok := true;
    if n > 0 {
      if !entropy.works(i) {
        return n, err, false;
      }
      ok := WriteFrame(suite, dst, key, entropy.nonces(i), buf[..n]);
    }
  }

  /** The three writes of one frame: length, nonce, ciphertext. */
  method WriteFrame(suite: Suite, dst: Writer, key: Key, nonce: Nonce, chunk: seq<byte>) returns (ok: bool)
    requires dst.Valid()
    modifies dst
    ensures dst.Valid()
    ensures ok <==> old(dst.Fits(Frame(suite, key, nonce, chunk)))
    ensures ok ==> dst.reached == old(dst.reached) + Frame(suite, key, nonce, chunk)
    ensures !ok ==> CutShort(old(dst.reached), dst.reached, Frame(suite, key, nonce, chunk))
  {
    var ct := suite.seal(key, nonce, chunk);
    ghost var start, header, whole := dst.reached, PutUint32(|ct|), Frame(suite, key, nonce, chunk);
    FrameParts(start, header, nonce, ct);
    hide CutShort, Frame, PutUint32;
    ok := WritePart(dst, PutUint32(|ct|));
    if !ok {
      CutExtends(start, [], dst.reached, header, nonce + ct, whole);
      return;
    }
    ok := WritePart(dst, nonce);
    if !ok {
      CutExtends(start, header, dst.reached, nonce, ct, whole);
      return;
    }
    ok := WritePart(dst, ct);
    if !ok {
      CutExtends(start, header + nonce, dst.reached, ct, [], whole);
    }
  }

  lemma FrameParts(start: seq<byte>, header: seq<byte>, nonce: seq<byte>, ct: seq<byte>)
    ensures start + [] == start && [] + (header + (nonce + ct)) == header + nonce + ct == header + (nonce + ct)
    ensures start + header + nonce == start + (header + nonce) && header + nonce + (ct + []) == header + nonce + ct
    ensures start + (header + nonce) + ct == start + (header + nonce + ct)
  {
  }

  /** Decrypts src up to the terminator. It succeeds exactly when the bytes decode completely and dst
      takes them all; what reaches dst is in any case what the decoder yields. */
  method Decrypt(suite: Suite, dst: Writer, src: Reader, key: Key) returns (ok: bool)
    requires src.Valid() && dst.Valid()
    modifies dst, src
    ensures src.Valid() && dst.Valid()
    ensures |key| != KEY_SIZE ==> !ok && dst.reached == old(dst.reached)
    ensures |key| == KEY_SIZE ==>
              var d := Decode(suite, key, old(src.Rest()));
              && (ok <==> d.verdict == Complete && old(dst.Fits(d.out)))
              && dst.reached == Clip(dst.limit, old(dst.reached) + d.out)
              && (ok ==> dst.acked == old(dst.acked) + d.out)
  {
    if |key| != KEY_SIZE {
      return false;
    }
    ghost var b := src.Rest();
    var magic := new byte[4];
    var n, err := ReadFull(src, magic);
    if err != NoError {
      return false;
    }
    assert magic[..] == b[..4] && src.Rest() == b[4..];
    if magic[..] != MAGIC {
      return false;
    }
    ok := DecryptFrames(suite, dst, src, key);
  }

  method DecryptFrames(suite: Suite, dst: Writer, src: Reader, key: Key) returns (ok: bool)
    requires src.Valid() && dst.Valid()
    modifies dst, src
    ensures src.Valid() && dst.Valid()
    ensures var d := DecodeFrames(suite, key, old(src.Rest()));
            && (ok <==> d.verdict == Complete && old(dst.Fits(d.out)))
            && dst.reached == Clip(dst.limit, old(dst.reached) + d.out)
            && (ok ==> dst.acked == old(dst.acked) + d.out)
  {
    ghost var whole := DecodeFrames(suite, key, src.Rest());
    ghost var out: seq<byte> := [];
    while true
      invariant src.Valid() && dst.Valid()
      invariant dst.reached == old(dst.reached) + out && dst.acked == old(dst.acked) + out
      invariant out + DecodeFrames(suite, key, src.Rest()).out == whole.out
      invariant DecodeFrames(suite, key, src.Rest()).verdict == whole.verdict
      decreases |src.Rest()|
    {
      hide HeadOf, DecodeFrames, Clip;
      ghost var b := src.Rest();
      var head := ReadHead(src);
      DecodeStep(suite, key, b);
      match head {
        case Cut(_) => return false;
        case End => return true;
        case Sealed(nonce, ct) =>
          var pt := suite.open(key, nonce, ct);
          if pt.None? {
            return false;
          }
          ghost var later := DecodeFrames(suite, key, src.Rest()).out;
          Regroup(out, pt.value, later, []);
          Regroup(old(dst.reached), out, pt.value, later);
          Regroup(old(dst.acked), out, pt.value, later);
          ClipExtends(dst.limit, old(dst.reached) + out + pt.value, later);
          ok := dst.Write(pt.value);
          if !ok {
            return;
          }
          WholeWrite(dst.limit, old(dst.reached) + out, pt.value);
          out := out + pt.value;
      }
    }
  }

  lemma DecodeStep(suite: Suite, key: Key, b: seq<byte>)
    ensures var h, d := HeadOf(b), DecodeFrames(suite, key, b);
            && (h.Cut? ==> d.out == [] && d.verdict != Complete)
            && (h.End? ==> d == Decoded([], Complete))
    ensures var h, d := HeadOf(b), DecodeFrames(suite, key, b);
            h.Sealed? ==>
              var pt := suite.open(key, h.nonce, h.ct);
              var later := DecodeFrames(suite, key, b[16 + |h.ct|..]);
              if pt.None? then d == Decoded([], Refused) else d == Decoded(pt.value + later.out, later.verdict)
  {
  }

  /** A writer that is full stays as it is. */
  lemma ClipExtends(limit: Option<nat>, s: seq<byte>, more: seq<byte>)
    ensures limit.Some? && |s| > limit.value ==> Clip(limit, s + more) == Clip(limit, s)
  {
  }

  /** The three reads of one frame: length, nonce, ciphertext. */
  method ReadHead(src: Reader) returns (head: Head)
    requires src.Valid()
    modifies src
    ensures src.Valid()
    ensures head == HeadOf(old(src.Rest()))
    ensures head.Sealed? ==> src.Rest() == old(src.Rest())[16 + |head.ct|..]
  {
    hide Uint32;
    ghost var b := src.Rest();
    var header, ok := ReadExactly(src, 4);
    if !ok {
      return Cut(CutLength);
    }
    var frameLen := Uint32(header);
    if frameLen == 0 {
      return End;
    }
    var nonce, ct;
    nonce, ok := ReadExactly(src, NONCE_SIZE);
    if !ok {
      return Cut(CutNonce);
    }
    Slices(b, 4, NONCE_SIZE);
    ct, ok := ReadExactly(src, frameLen);
    if !ok {
      return Cut(CutCiphertext);
    }
    Slices(b, 16, frameLen);
    head := Sealed(nonce, ct);
  }

  /** io.ReadFull into a new buffer: all n bytes, or an error. */
  method ReadExactly(src: Reader, n: nat) returns (bytes: seq<byte>, ok: bool)
    requires src.Valid() && n > 0
    modifies src
    ensures src.Valid()
    ensures ok <==> |old(src.Rest())| >= n
    ensures ok ==> |bytes| == n && bytes == old(src.Rest())[..n] && src.Rest() == old(src.Rest())[n..]
  {
    var buf := new byte[n];
    var got, err := ReadFull(src, buf);
    ok := err == NoError;
    bytes := buf[..];
  }

  lemma Slices(b: seq<byte>, from: nat, n: nat)
    ensures from + n <= |b| ==> b[from..][..n] == b[from..from + n] && b[from..][n..] == b[from + n..]
  {
  }

  /** However the readers split their reads, decrypting what Encrypt wrote gives back the plaintext. */
  method RoundTrip(suite: Suite, src: Reader, key: Key, entropy: Entropy, lulls: nat) returns (ok: bool, out: seq<byte>, size: nat)
    requires suite.Lawful() && src.Valid() && !src.broken && |key| == KEY_SIZE
    requires entropy.AlwaysWorks()
    modifies src
    ensures ok && out == old(src.Rest())
    ensures size == 8 + |out| + 32 * FrameCount(|out|)
  {
    ghost var plain := src.Rest();
    var file := new Writer(None);
    var sealed := Encrypt(suite, file, src, key, entropy);
    assert sealed && file.reached == Encoding(suite, key, entropy.nonces, plain);
    size := |file.reached|;
    var sink := new Writer(None);
    var back := new Reader(file.reached, false, lulls);
    DecodeOfEncoding(suite, key, entropy.nonces, plain, []);
    EncodingLength(suite, key, entropy.nonces, plain);
    assert back.Rest() == Encoding(suite, key, entropy.nonces, plain) + [];
    ok := Decrypt(suite, sink, back, key);
    out := sink.reached;
  }
}
