/** One direction of a connection: frames are written and read a field at a time. */
module ByteStreams {
  import opened Prelude
  import opened Receiver
  import opened Wire
  import Text
  import Utf8

  /** `rest` is what is left of `all` after reading some of it from the front. */
  ghost predicate Remains(rest: Bytes, all: Bytes) {
    |rest| <= |all| && rest == all[|all| - |rest|..]
  }

  lemma RemainsTransitive(a: Bytes, b: Bytes, c: Bytes)
    requires Remains(a, b) && Remains(b, c)
    ensures Remains(a, c)
  {
  }

  class ByteStream {
    /** Written and not yet read. */
    var bytes: Bytes

    constructor ()
      ensures bytes == []
    {
      bytes := [];
    }

    method WriteAll(data: Bytes)
      modifies this
      ensures bytes == old(bytes) + data
    {
      bytes := bytes + data;
    }

    /** `read_exact`; a stream that ends too early gives up what it had. */
    method ReadExact(n: nat) returns (r: Option<Bytes>)
      modifies this
      ensures match Take(old(bytes), n)
              case Some(parts) => r == Some(parts.0) && bytes == parts.1
              case None => r == None && bytes == []
      ensures Remains(bytes, old(bytes))
    {
      if |bytes| < n {
        bytes := [];
        return None;
      }
      r := Some(bytes[..n]);
      bytes := bytes[n..];
    }

    /** `write_chunk_frame`: seven fields, after all the checks. */
    method WriteChunkFrame(hash: Hash, c: Chunk) returns (r: Option<FrameError>)
      modifies this
      ensures match WriteChunk(hash, c)
              case Ok(frame) => r == None && bytes == old(bytes) + frame
              case Err(e) => r == Some(e) && bytes == old(bytes)
    {
      if Text.Blank(c.fileId) { return Some(BlankId); }
      if !HexDigest(c.digest) { return Some(BadDigest); }
      if c.data == [] { return Some(EmptyData); }
      if hash(c.data) != c.digest { return Some(HashMismatch); }
      var id := Utf8.Encode(c.fileId);
      if |id| >= TWO_16 { return Some(IdTooLong); }
      if |c.data| >= TWO_32 { return Some(DataTooLong); }
      if FIXED_BYTES + |id| + |c.data| >= TWO_32 { return Some(FrameTooLarge); }
      WriteFields(c);
      r := None;
    }

    /** The seven fields in wire order. */
    method WriteFields(c: Chunk)
      modifies this
      ensures bytes == old(bytes) + FrameOnto(c, [])
    {
      WriteAll(Be(FrameLen(c), 4));
      WriteAll(Be(|Utf8.Encode(c.fileId)|, 2));
      WriteAll(Utf8.Encode(c.fileId));
      WriteAll(Be(c.offset, 8));
      WriteAll(Utf8.Encode(c.digest));
      WriteAll(Be(|c.data|, 4));
      WriteAll(c.data);
      FieldsMakeFrame(old(bytes), c);
    }

    /** `read_exact` into a buffer that must be UTF-8. */
    method ReadText(n: nat) returns (r: Result<string, FrameError>)
      modifies this
      ensures match Take(old(bytes), n)
              case None => r == Err(Eof)
              case Some(parts) =>
                bytes == parts.1 && r == match Utf8.Decode(parts.0) case Some(s) => Ok(s) case None => Err(BadUtf8)
      ensures Remains(bytes, old(bytes))
    {
      var raw := ReadExact(n);
      if raw.None? { return Err(Eof); }
      var text := Utf8.Decode(raw.value);
      r := if text.None? then Err(BadUtf8) else Ok(text.value);
    }

    /**
      `read_chunk_frame` up to and including the file id, then the rest of the frame. After an
      error what is left on the stream is still an end of what was there.
     */
    method ReadChunkFrame(hash: Hash) returns (r: Result<Chunk, FrameError>)
      modifies this
      ensures match ReadChunk(hash, old(bytes))
              case Ok(read) => r == Ok(read.0) && bytes == read.1
              case Err(e) => r == Err(e)
      ensures Remains(bytes, old(bytes))
    {
      var len := ReadExact(4);
      if len.None? { return Err(Eof); }
      var frameLen := FromBe(len.value);
      if frameLen < FIXED_BYTES { return Err(FrameTooSmall); }
      if frameLen > MAX_CHUNK_FRAME_BYTES { return Err(FrameTooLarge); }
      var idLenBytes := ReadExact(2);
      if idLenBytes.None? { return Err(Eof); }
      var idLen := FromBe(idLenBytes.value);
      if idLen == 0 || idLen > frameLen { return Err(BadIdLength); }
      var fileId := ReadText(idLen);
      if fileId.Err? { return Err(fileId.error); }
      r := ReadChunkTail(hash, frameLen, fileId.value, idLen);
    }

    method ReadChunkTail(hash: Hash, frameLen: nat, fileId: string, idLen: nat) returns (r: Result<Chunk, FrameError>)
      modifies this
      ensures match ReadTail(hash, frameLen, fileId, idLen, old(bytes))
              case Ok(read) => r == Ok(read.0) && bytes == read.1
              case Err(e) => r == Err(e)
      ensures Remains(bytes, old(bytes))
    {
      ghost var all := bytes;
      var offset := ReadExact(8);
      if offset.None? { return Err(Eof); }
      FromBeRoundTrip(offset.value);
      Pow256Values();
      ghost var unread := bytes;
      var digest := ReadText(64);
      RemainsTransitive(bytes, unread, all);
      if digest.Err? { return Err(digest.error); }
      unread := bytes;
      var dataLen := ReadExact(4);
      RemainsTransitive(bytes, unread, all);
      if dataLen.None? { return Err(Eof); }
      if FIXED_BYTES + idLen + FromBe(dataLen.value) != frameLen { return Err(LengthMismatch); }
      unread := bytes;
      var data := ReadExact(FromBe(dataLen.value));
      RemainsTransitive(bytes, unread, all);
      if data.None? { return Err(Eof); }
      if hash(data.value) != digest.value { return Err(HashMismatch); }
      r := Ok(Chunk(fileId, FromBe(offset.value), digest.value, data.value));
    }
  }

  lemma FieldsMakeFrame(before: Bytes, c: Chunk)
    ensures before + Be(FrameLen(c), 4) + Be(|Utf8.Encode(c.fileId)|, 2) + Utf8.Encode(c.fileId) + Be(c.offset, 8)
            + Utf8.Encode(c.digest) + Be(|c.data|, 4) + c.data == before + FrameOnto(c, [])
  {
    var a, b, i := Be(FrameLen(c), 4), Be(|Utf8.Encode(c.fileId)|, 2), Utf8.Encode(c.fileId);
    var o, d, l := Be(c.offset, 8), Utf8.Encode(c.digest), Be(|c.data|, 4);
    assert c.data + [] == c.data;
    assert before + a + b + i + o + d + l + c.data == before + (a + (b + (i + (o + (d + (l + c.data))))));
  }
}
