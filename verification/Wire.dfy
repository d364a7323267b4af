/** The byte formats of the native protocol: chunk frames and control frames. */
module Wire {
  import opened Prelude
  import opened Manifest
  import opened Receiver
  import Text
  import Utf8

  // ----- big-endian integers -----

  function Pow256(k: nat): nat { if k == 0 then 1 else 256 * Pow256(k - 1) }

  /** The low `k` bytes of `n`, most significant first. */
  function Be(n: nat, k: nat): (b: Bytes)
    ensures |b| == k
  {
    if k == 0 then [] else Be(n / 256, k - 1) + [n % 256]
  }

  function FromBe(b: Bytes): nat {
    if b == [] then 0 else FromBe(b[..|b| - 1]) * 256 + b[|b| - 1]
  }

  lemma {:induction false} BeRoundTrip(n: nat, k: nat)
    requires n < Pow256(k)
    ensures FromBe(Be(n, k)) == n
  {
    if k > 0 {
      BeRoundTrip(n / 256, k - 1);
      var b := Be(n, k);
      assert b[..k - 1] == Be(n / 256, k - 1);
    }
  }

  lemma {:induction false} FromBeRoundTrip(b: Bytes)
    ensures FromBe(b) < Pow256(|b|)
    ensures Be(FromBe(b), |b|) == b
  {
    if b != [] {
      var init := b[..|b| - 1];
      FromBeRoundTrip(init);
      assert FromBe(b) / 256 == FromBe(init) && FromBe(b) % 256 == b[|b| - 1];
      assert b == init + [b[|b| - 1]];
    }
  }

  /** Byte `i` of a big-endian number, counted from the most significant. */
  lemma {:induction false} BeByte(n: nat, k: nat, i: nat)
    requires i < k
    ensures Pow256(k - 1 - i) > 0 && Be(n, k)[i] == n / Pow256(k - 1 - i) % 256
    decreases k
  {
    Pow256Positive(k - 1 - i);
    if i < k - 1 {
      BeByte(n / 256, k - 1, i);
      Pow256Positive(k - 2 - i);
      DivBy256(n, Pow256(k - 2 - i));
    }
  }

  lemma {:induction false} Pow256Positive(k: nat)
    ensures Pow256(k) > 0
  {
    if k > 0 { Pow256Positive(k - 1); }
  }

  lemma DivBy256(n: nat, p: nat)
    requires p > 0
    ensures n / (256 * p) == n / 256 / p
  {
    var h, q := n / 256, n / 256 / p;
    var r := h % p;
    assert h == q * p + r;
    assert n == q * (256 * p) + (256 * r + n % 256);
    DivUnique(n, 256 * p, q, 256 * r + n % 256);
  }

  lemma Pow256Values()
    ensures Pow256(2) == TWO_16 && Pow256(4) == TWO_32 && Pow256(8) == TWO_64
  {
    assert Pow256(1) == 256 && Pow256(3) == 256 * Pow256(2) && Pow256(4) == 256 * Pow256(3);
    assert Pow256(5) == 256 * Pow256(4) && Pow256(6) == 256 * Pow256(5) && Pow256(7) == 256 * Pow256(6);
  }

  // ----- chunk frames -----

  datatype Chunk = Chunk(fileId: string, offset: U64, digest: Digest, data: Bytes)

  datatype FrameError =
    | Eof | FrameTooSmall | FrameTooLarge | BadIdLength | BadUtf8 | LengthMismatch | HashMismatch
    | BlankId | BadDigest | EmptyData | IdTooLong | DataTooLong
    | EmptyFrame | UnknownType | BadPayload

  /** Bytes of a frame besides the file id and the data: id length, offset, digest, data length. */
  const FIXED_BYTES: nat := 2 + 8 + 64 + 4

  const MAX_CHUNK_FRAME_BYTES: nat := 8 * 1024 * 1024

  predicate HexChar(c: char) { '0' <= c <= '9' || 'a' <= c <= 'f' || 'A' <= c <= 'F' }

  predicate HexDigest(d: Digest) { |d| == 64 && forall i :: 0 <= i < |d| ==> HexChar(d[i]) }

  function FrameLen(c: Chunk): nat { FIXED_BYTES + |Utf8.Encode(c.fileId)| + |c.data| }

  /** The frame of a chunk followed by `rest`. */
  function FrameOnto(c: Chunk, rest: Bytes): Bytes {
    var id := Utf8.Encode(c.fileId);
    Be(FrameLen(c), 4) +
    (Be(|id|, 2) + (id + (Be(c.offset, 8) + (Utf8.Encode(c.digest) + (Be(|c.data|, 4) + (c.data + rest))))))
  }

  lemma FrameOntoAppends(c: Chunk, rest: Bytes)
    ensures FrameOnto(c, rest) == FrameOnto(c, []) + rest
  {
    var id := Utf8.Encode(c.fileId);
    var a := c.data + [];
    var b := Be(|c.data|, 4) + a;
    var d := Utf8.Encode(c.digest) + b;
    var e := Be(c.offset, 8) + d;
    var f := id + e;
    var g := Be(|id|, 2) + f;
    assert c.data + rest == a + rest;
    JoinAssociates(Be(|c.data|, 4), a, rest);
    JoinAssociates(Utf8.Encode(c.digest), b, rest);
    JoinAssociates(Be(c.offset, 8), d, rest);
    JoinAssociates(id, e, rest);
    JoinAssociates(Be(|id|, 2), f, rest);
    JoinAssociates(Be(FrameLen(c), 4), g, rest);
  }

  /** Where the fields of a frame are: 4 bytes of length, then id length, id, offset, digest, data length, data. */
  lemma FrameLayout(c: Chunk)
    requires HexDigest(c.digest)
    ensures var s, id := FrameOnto(c, []), Utf8.Encode(c.fileId);
            && |s| == 82 + |id| + |c.data|
            && s[..4] == Be(78 + |id| + |c.data|, 4) && s[4..6] == Be(|id|, 2) && s[6..6 + |id|] == id
            && s[6 + |id|..14 + |id|] == Be(c.offset, 8) && s[14 + |id|..78 + |id|] == Utf8.Encode(c.digest)
            && s[78 + |id|..82 + |id|] == Be(|c.data|, 4) && s[82 + |id|..] == c.data
  {
    HexIsAscii(c.digest);
    var id, digest := Utf8.Encode(c.fileId), Utf8.Encode(c.digest);
    var f5 := Be(|c.data|, 4) + (c.data + []);
    var f4 := digest + f5;
    var f3 := Be(c.offset, 8) + f4;
    var f2 := id + f3;
    var f1 := Be(|id|, 2) + f2;
    var s := Be(FrameLen(c), 4) + f1;
    Fields(Be(FrameLen(c), 4), f1, s, 0);
    Fields(Be(|id|, 2), f2, s, 4);
    Fields(id, f3, s, 6);
    Fields(Be(c.offset, 8), f4, s, 6 + |id|);
    Fields(digest, f5, s, 14 + |id|);
    Fields(Be(|c.data|, 4), c.data + [], s, 78 + |id|);
  }

  lemma Fields(field: Bytes, rest: Bytes, s: Bytes, at: nat)
    requires at <= |s| && s[at..] == field + rest
    ensures at + |field| <= |s| && s[at..at + |field|] == field && s[at + |field|..] == rest
  {
    var t := s[at..];
    assert t[..|field|] == field && t[|field|..] == rest;
    assert s[at..at + |field|] == t[..|field|];
    assert s[at + |field|..] == t[|field|..];
  }

  /** `write_chunk_frame`: what is checked before anything is written, then the bytes. */
  function WriteChunk(hash: Hash, c: Chunk): Result<Bytes, FrameError> {
    if Text.Blank(c.fileId) then Err(BlankId)
    else if !HexDigest(c.digest) then Err(BadDigest)
    else if c.data == [] then Err(EmptyData)
    else if hash(c.data) != c.digest then Err(HashMismatch)
    else if |Utf8.Encode(c.fileId)| >= TWO_16 then Err(IdTooLong)
    else if |c.data| >= TWO_32 then Err(DataTooLong)
    else if FrameLen(c) >= TWO_32 then Err(FrameTooLarge)
    else Ok(FrameOnto(c, []))
  }

  /** `read_exact`: the first `n` bytes and what follows them. */
  function Take(s: Bytes, n: nat): Option<(Bytes, Bytes)> {
    if |s| < n then None else Some((s[..n], s[n..]))
  }

  lemma TakeFront(a: Bytes, b: Bytes)
    ensures Take(a + b, |a|) == Some((a, b))
  {
    assert (a + b)[..|a|] == a && (a + b)[|a|..] == b;
  }

  lemma TakeJoins(s: Bytes, n: nat)
    requires Take(s, n).Some?
    ensures s == Take(s, n).value.0 + Take(s, n).value.1 && |Take(s, n).value.0| == n
  {
  }

  /** After the file id: offset, digest, data length, data, and the two consistency checks. */
  function ReadTail(hash: Hash, frameLen: nat, fileId: string, idLen: nat, s: Bytes)
      : Result<(Chunk, Bytes), FrameError>
  {
    var offset := Take(s, 8);
    if offset.None? then Err(Eof)
    else
      var digest := Take(offset.value.1, 64);
      if digest.None? then Err(Eof)
      else if Utf8.Decode(digest.value.0).None? then Err(BadUtf8)
      else
        var dataLen := Take(digest.value.1, 4);
        if dataLen.None? then Err(Eof)
        else if FIXED_BYTES + idLen + FromBe(dataLen.value.0) != frameLen then Err(LengthMismatch)
        else
          var data := Take(dataLen.value.1, FromBe(dataLen.value.0));
          if data.None? then Err(Eof)
          else if hash(data.value.0) != Utf8.Decode(digest.value.0).value then Err(HashMismatch)
          else
            FromBeRoundTrip(offset.value.0);
            Pow256Values();
            Ok((Chunk(fileId, FromBe(offset.value.0), Utf8.Decode(digest.value.0).value, data.value.0), data.value.1))
  }

  /** `read_chunk_frame`. */
  function ReadChunk(hash: Hash, s: Bytes): Result<(Chunk, Bytes), FrameError> {
    var len := Take(s, 4);
    if len.None? then Err(Eof)
    else if FromBe(len.value.0) < FIXED_BYTES then Err(FrameTooSmall)
    else if FromBe(len.value.0) > MAX_CHUNK_FRAME_BYTES then Err(FrameTooLarge)
    else
      var idLen := Take(len.value.1, 2);
      if idLen.None? then Err(Eof)
      else if FromBe(idLen.value.0) == 0 || FromBe(idLen.value.0) > FromBe(len.value.0) then Err(BadIdLength)
      else
        var id := Take(idLen.value.1, FromBe(idLen.value.0));
        if id.None? then Err(Eof)
        else if Utf8.Decode(id.value.0).None? then Err(BadUtf8)
        else ReadTail(hash, FromBe(len.value.0), Utf8.Decode(id.value.0).value, FromBe(idLen.value.0), id.value.1)
  }

  lemma HexIsAscii(d: Digest)
    requires HexDigest(d)
    ensures |Utf8.Encode(d)| == 64
  {
    Utf8.AsciiLength(d);
  }

  lemma ReadTailWritten(hash: Hash, c: Chunk, idLen: nat, rest: Bytes)
    requires HexDigest(c.digest) && hash(c.data) == c.digest && |c.data| < TWO_32
    ensures ReadTail(hash, FIXED_BYTES + idLen + |c.data|, c.fileId, idLen,
                     Be(c.offset, 8) + (Utf8.Encode(c.digest) + (Be(|c.data|, 4) + (c.data + rest)))) == Ok((c, rest))
  {
    Pow256Values();
    TakeFront(Be(c.offset, 8), Utf8.Encode(c.digest) + (Be(|c.data|, 4) + (c.data + rest)));
    BeRoundTrip(c.offset, 8);
    HexIsAscii(c.digest);
    TakeFront(Utf8.Encode(c.digest), Be(|c.data|, 4) + (c.data + rest));
    Utf8.EncodeDecode(c.digest);
    TakeFront(Be(|c.data|, 4), c.data + rest);
    BeRoundTrip(|c.data|, 4);
    TakeFront(c.data, rest);
  }

  /** Any accepted chunk within the frame limit is read back, leaving exactly what follows it. */
  lemma ChunkRoundTrip(hash: Hash, c: Chunk, rest: Bytes)
    requires WriteChunk(hash, c).Ok? && FrameLen(c) <= 0x80_0000
    ensures ReadChunk(hash, WriteChunk(hash, c).value + rest) == Ok((c, rest))
  {
    FrameOntoAppends(c, rest);
    Pow256Values();
    var id := Utf8.Encode(c.fileId);
    var tail := Be(c.offset, 8) + (Utf8.Encode(c.digest) + (Be(|c.data|, 4) + (c.data + rest)));
    TakeFront(Be(FrameLen(c), 4), Be(|id|, 2) + (id + tail));
    BeRoundTrip(FrameLen(c), 4);
    TakeFront(Be(|id|, 2), id + tail);
    BeRoundTrip(|id|, 2);
    NonBlankEncodes(c.fileId);
    TakeFront(id, tail);
    Utf8.EncodeDecode(c.fileId);
    ReadTailWritten(hash, c, |id|, rest);
  }

  lemma NonBlankEncodes(s: string)
    requires !Text.Blank(s)
    ensures Utf8.Encode(s) != []
  {
    assert Text.Trim([]) == [];
  }

  lemma ReadTailSound(hash: Hash, frameLen: nat, fileId: string, idLen: nat, s: Bytes)
    requires ReadTail(hash, frameLen, fileId, idLen, s).Ok?
    ensures var (c, rest) := ReadTail(hash, frameLen, fileId, idLen, s).value;
            && s == Be(c.offset, 8) + (Utf8.Encode(c.digest) + (Be(|c.data|, 4) + (c.data + rest)))
            && c.fileId == fileId && hash(c.data) == c.digest
            && |c.data| < TWO_32 && frameLen == FIXED_BYTES + idLen + |c.data|
  {
    Pow256Values();
    var (offset, s1) := Take(s, 8).value;
    var (digest, s2) := Take(s1, 64).value;
    var (dataLen, s3) := Take(s2, 4).value;
    var (data, rest) := Take(s3, FromBe(dataLen)).value;
    TakeJoins(s, 8);
    TakeJoins(s1, 64);
    TakeJoins(s2, 4);
    TakeJoins(s3, FromBe(dataLen));
    FromBeRoundTrip(offset);
    FromBeRoundTrip(dataLen);
    Utf8.DecodeEncode(digest);
  }

  /** Up to the file id, a successful read took a length, an id length and an id. */
  lemma ReadHeadSound(hash: Hash, s: Bytes) returns (frameLen: nat, fileId: string, tail: Bytes)
    requires ReadChunk(hash, s).Ok?
    ensures s == Be(frameLen, 4) + (Be(|Utf8.Encode(fileId)|, 2) + (Utf8.Encode(fileId) + tail))
    ensures ReadChunk(hash, s) == ReadTail(hash, frameLen, fileId, |Utf8.Encode(fileId)|, tail)
    ensures 0 < |Utf8.Encode(fileId)| < TWO_16 && frameLen <= MAX_CHUNK_FRAME_BYTES
  {
    Pow256Values();
    var (len, s1) := Take(s, 4).value;
    var (idLen, s2) := Take(s1, 2).value;
    var (id, s3) := Take(s2, FromBe(idLen)).value;
    TakeJoins(s, 4);
    TakeJoins(s1, 2);
    TakeJoins(s2, FromBe(idLen));
    FromBeRoundTrip(len);
    FromBeRoundTrip(idLen);
    Utf8.DecodeEncode(id);
    frameLen, fileId, tail := FromBe(len), Utf8.Decode(id).value, s3;
  }

  /** A successful read consumed exactly the frame of the chunk it returned. */
  lemma ReadConsumesFrame(hash: Hash, s: Bytes)
    requires ReadChunk(hash, s).Ok?
    ensures var (c, rest) := ReadChunk(hash, s).value;
            && s == FrameOnto(c, []) + rest && hash(c.data) == c.digest
            && 0 < |Utf8.Encode(c.fileId)| < TWO_16 && |c.data| < TWO_32 && FrameLen(c) <= 0x80_0000
  {
    var frameLen, fileId, tail := ReadHeadSound(hash, s);
    ReadTailSound(hash, frameLen, fileId, |Utf8.Encode(fileId)|, tail);
    var (c, rest) := ReadTail(hash, frameLen, fileId, |Utf8.Encode(fileId)|, tail).value;
    FrameFromParts(c, rest, frameLen, tail, s);
    FrameOntoAppends(c, rest);
  }

  lemma FrameFromParts(c: Chunk, rest: Bytes, frameLen: nat, tail: Bytes, s: Bytes)
    requires s == Be(frameLen, 4) + (Be(|Utf8.Encode(c.fileId)|, 2) + (Utf8.Encode(c.fileId) + tail))
    requires tail == Be(c.offset, 8) + (Utf8.Encode(c.digest) + (Be(|c.data|, 4) + (c.data + rest)))
    requires frameLen == FrameLen(c)
    ensures s == FrameOnto(c, rest)
  {
  }

  /** `blake3_hex` gives 64 hex characters. */
  ghost predicate HexHash(hash: Hash) { forall b :: HexDigest(hash(b)) }

  /**
    Any successful decode of a chunk with data and a non-blank id consumed exactly the unique
    encoding the writer gives it. Those two conditions are the writer's own: it refuses the
    chunk otherwise.
   */
  lemma DecodedWasWritten(hash: Hash, s: Bytes)
    requires HexHash(hash) && ReadChunk(hash, s).Ok?
    ensures var (c, rest) := ReadChunk(hash, s).value;
            && (WriteChunk(hash, c).Ok? <==> c.data != [] && !Text.Blank(c.fileId))
            && (WriteChunk(hash, c).Ok? ==> s == WriteChunk(hash, c).value + rest)
  {
    ReadConsumesFrame(hash, s);
    var (c, rest) := ReadChunk(hash, s).value;
    assert HexDigest(hash(c.data));
  }

  // ----- streams of chunk frames -----

  function EncodeAll(cs: seq<Chunk>): Bytes {
    if cs == [] then [] else FrameOnto(cs[0], []) + EncodeAll(cs[1..])
  }

  /** The writer accepts the chunk and the reader's limit admits its frame. */
  predicate Sendable(hash: Hash, c: Chunk) {
    WriteChunk(hash, c).Ok? && FrameLen(c) <= MAX_CHUNK_FRAME_BYTES
  }

  function ReadMany(hash: Hash, s: Bytes, n: nat): Result<(seq<Chunk>, Bytes), FrameError>
    decreases n
  {
    if n == 0 then Ok(([], s))
    else
      var first := ReadChunk(hash, s);
      if first.Err? then Err(first.error)
      else
        var more := ReadMany(hash, first.value.1, n - 1);
        if more.Err? then more else Ok(([first.value.0] + more.value.0, more.value.1))
  }

  lemma EncodeAllHead(cs: seq<Chunk>, rest: Bytes)
    requires cs != []
    ensures EncodeAll(cs) + rest == FrameOnto(cs[0], []) + (EncodeAll(cs[1..]) + rest)
  {
  }

  lemma ReadManyStep(hash: Hash, s: Bytes, n: nat, c: Chunk, s': Bytes, cs: seq<Chunk>, rest: Bytes)
    requires ReadChunk(hash, s) == Ok((c, s')) && ReadMany(hash, s', n) == Ok((cs, rest))
    ensures ReadMany(hash, s, n + 1) == Ok(([c] + cs, rest))
  {
  }

  /** A stream of sendable chunks followed by anything decodes to those chunks and leaves the rest. */
  lemma {:induction false} StreamRoundTrip(hash: Hash, cs: seq<Chunk>, rest: Bytes)
    requires forall c :: c in cs ==> Sendable(hash, c)
    ensures ReadMany(hash, EncodeAll(cs) + rest, |cs|) == Ok((cs, rest))
  {
    if cs == [] {
      assert EncodeAll(cs) + rest == rest;
    } else {
      assert cs[0] in cs && cs == [cs[0]] + cs[1..];
      StreamRoundTrip(hash, cs[1..], rest);
      EncodeAllHead(cs, rest);
      ChunkRoundTrip(hash, cs[0], EncodeAll(cs[1..]) + rest);
      ReadManyStep(hash, EncodeAll(cs) + rest, |cs| - 1, cs[0], EncodeAll(cs[1..]) + rest, cs[1..], rest);
    }
  }

  /** A way of framing chunks on a stream. */
  datatype ChunkCodec = ChunkCodec(
    write: Chunk -> Result<Bytes, FrameError>, read: Bytes -> Result<(Chunk, Bytes), FrameError>)

  /** The chunk frames of the native protocol. */
  function NativeFrames(hash: Hash): ChunkCodec {
    ChunkCodec((c: Chunk) => WriteChunk(hash, c), (s: Bytes) => ReadChunk(hash, s))
  }

  // ----- control frames -----

  datatype Control =
    | Hello(info: Bytes)
    | HelloAck(info: Bytes)
    | RequestTransfer(req: Request)
    | AcceptTransfer(id: string, chunkSize: U64)
    | ChunkAck(info: Bytes)
    | Cancel(info: Bytes)
    | Done(id: string)
    | ResumeRequest(info: Bytes)

  const MAX_CONTROL_FRAME_BYTES: nat := 1024 * 1024

  function Tag(m: Control): Byte {
    match m
    case Hello(_) => 1
    case HelloAck(_) => 2
    case RequestTransfer(_) => 3
    case AcceptTransfer(_, _) => 4
    case ChunkAck(_) => 5
    case Cancel(_) => 6
    case Done(_) => 7
    case ResumeRequest(_) => 8
  }

  /** The tag numbers on the wire. */
  lemma TagNumbers(info: Bytes, req: Request, id: string, chunkSize: U64)
    ensures Tag(Hello(info)) == 1 && Tag(HelloAck(info)) == 2 && Tag(RequestTransfer(req)) == 3
    ensures Tag(AcceptTransfer(id, chunkSize)) == 4 && Tag(ChunkAck(info)) == 5 && Tag(Cancel(info)) == 6
    ensures Tag(Done(id)) == 7 && Tag(ResumeRequest(info)) == 8
  {
  }

  /** The JSON payload codec; encoding may fail, and a payload is parsed as the type its tag names. */
  datatype Codec = Codec(encode: Control -> Option<Bytes>, decode: (Byte, Bytes) -> Option<Control>) {
    ghost predicate Lawful() {
      && (forall m :: encode(m).Some? ==> decode(Tag(m), encode(m).value) == Some(m))
      && (forall t, b :: decode(t, b).Some? ==> Tag(decode(t, b).value) == t)
    }
  }

  function Payload(codec: Codec, m: Control): Bytes {
    match codec.encode(m)
    case Some(payload) => payload
    case None => []
  }

  function ControlFrame(codec: Codec, m: Control): Bytes {
    Be(1 + |Payload(codec, m)|, 4) + ([Tag(m)] + Payload(codec, m))
  }

  predicate ControlFits(codec: Codec, m: Control) {
    codec.encode(m).Some? && 1 + |Payload(codec, m)| <= MAX_CONTROL_FRAME_BYTES
  }

  /** `write_control`. */
  function WriteControl(codec: Codec, m: Control): Result<Bytes, FrameError> {
    if codec.encode(m).None? then Err(BadPayload)
    else if ControlFits(codec, m) then Ok(ControlFrame(codec, m))
    else Err(FrameTooLarge)
  }

  /** `decode_frame`. */
  function DecodeFrame(codec: Codec, frame: Bytes): Result<Control, FrameError> {
    if frame == [] then Err(EmptyFrame)
    else if !(1 <= frame[0] <= 8) then Err(UnknownType)
    else match codec.decode(frame[0], frame[1..])
         case Some(m) => Ok(m)
         case None => Err(BadPayload)
  }

  /** `read_control`. */
  function ReadControl(codec: Codec, s: Bytes): Result<(Control, Bytes), FrameError> {
    var len := Take(s, 4);
    if len.None? then Err(Eof)
    else if FromBe(len.value.0) == 0 then Err(EmptyFrame)
    else if FromBe(len.value.0) > MAX_CONTROL_FRAME_BYTES then Err(FrameTooLarge)
    else
      var frame := Take(len.value.1, FromBe(len.value.0));
      if frame.None? then Err(Eof)
      else match DecodeFrame(codec, frame.value.0)
           case Ok(m) => Ok((m, frame.value.1))
           case Err(e) => Err(e)
  }

  /** A message is written exactly when its payload can be encoded in less than 1 MiB. */
  lemma ControlWrittenIff(codec: Codec, m: Control)
    ensures WriteControl(codec, m).Ok? <==> codec.encode(m).Some? && |codec.encode(m).value| < 0x10_0000
  {
  }

  /** A control message that fits is read back, leaving exactly what follows it. */
  lemma ControlRoundTrip(codec: Codec, m: Control, rest: Bytes)
    requires codec.Lawful() && WriteControl(codec, m).Ok?
    ensures ReadControl(codec, WriteControl(codec, m).value + rest) == Ok((m, rest))
  {
    Pow256Values();
    var body := [Tag(m)] + Payload(codec, m);
    assert ControlFrame(codec, m) + rest == Be(|body|, 4) + (body + rest);
    TakeFront(Be(|body|, 4), body + rest);
    BeRoundTrip(|body|, 4);
    TakeFront(body, rest);
    assert body[1..] == Payload(codec, m);
  }

  /** A successful read took one length-prefixed frame whose tag is the message's. */
  lemma ControlReadSound(codec: Codec, s: Bytes)
    requires codec.Lawful() && ReadControl(codec, s).Ok?
    ensures var (m, rest) := ReadControl(codec, s).value;
            exists payload ::
              && s == Be(1 + |payload|, 4) + ([Tag(m)] + payload) + rest
              && codec.decode(Tag(m), payload) == Some(m) && 1 + |payload| <= 0x10_0000
  {
    var (len, s1) := Take(s, 4).value;
    var (frame, rest) := Take(s1, FromBe(len)).value;
    TakeJoins(s, 4);
    TakeJoins(s1, FromBe(len));
    FromBeRoundTrip(len);
    var payload := frame[1..];
    assert frame == [frame[0]] + payload;
    assert s == Be(1 + |payload|, 4) + ([frame[0]] + payload) + rest;
  }
}
