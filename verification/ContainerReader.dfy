/**
 The stream-advancing decoders of the container: a cursor over the file, moved by every read.
 */
module ContainerReader {
  import opened Wrappers
  import opened Bytes
  import opened ContainerFormat
  import opened ContainerIo

  class ByteReader {
    const data: seq<byte>
    var pos: nat

    constructor (data: seq<byte>)
      ensures this.data == data && pos == 0
    {
      this.data, pos := data, 0;
    }

    /** `read_exact`. */
    method ReadExact(n: nat) returns (r: Result<seq<byte>, IoError>)
      modifies this`pos
      ensures (r, pos) == ReadExactAt(data, old(pos), n)
    {
      if n == 0 {
        r := Success([]);
      } else if pos + n <= |data| {
        r := Success(data[pos..pos + n]);
        pos := pos + n;
      } else {
        r := Failure(UnexpectedEof);
        pos := if pos < |data| then |data| else pos;
      }
    }

    /** `decode_file_header`. */
    method DecodeFileHeader() returns (r: Result<FileHeader, IoError>)
      modifies this`pos
      ensures (r, pos) == FileHeaderAt(data, old(pos))
    {
      var prefix := ReadExact(4);
      if prefix.Failure? {
        return Failure(prefix.error);
      }
      var magicIsV2 := prefix.value != CONTAINER_MAGIC_LEGACY;
      if magicIsV2 {
        var more := ReadExact(4);
        if more.Failure? {
          return Failure(more.error);
        }
        if prefix.value + more.value != CONTAINER_MAGIC {
          return Failure(InvalidData(InvalidMagic(prefix.value)));
        }
      }
      var rest := ReadExact(16);
      if rest.Failure? {
        return Failure(rest.error);
      }
      var header := ParseHeaderFields(rest.value);
      if header.Failure? {
        return Failure(InvalidData(header.error));
      }
      var layout := LayoutError(header.value, magicIsV2);
      if layout.Some? {
        return Failure(InvalidData(layout.value));
      }
      if header.value.trackCount > MAX_TRACKS {
        return Failure(InvalidData(LimitExceeded("track_count > MAX_TRACKS")));
      }
      r := Success(header.value);
    }

    /** `decode_track_descriptor`: one read per field. */
    method DecodeTrackDescriptor() returns (r: Result<TrackDescriptor, IoError>)
      modifies this`pos
      ensures (r, pos) == TrackAt(data, old(pos))
    {
      hide FromLe;
      var trackId := ReadExact(2);
      if trackId.Failure? {
        return Failure(trackId.error);
      }
      var kindRaw := ReadExact(1);
      if kindRaw.Failure? {
        return Failure(kindRaw.error);
      }
      var kind := TrackKind.FromCode(kindRaw.value[0]);
      ghost var first := data[old(pos)..old(pos) + 3];
      assert first[0..2] == trackId.value && first[2] == kindRaw.value[0];
      if kind.None? {
        return Failure(InvalidData(InvalidTrackKind(kindRaw.value[0])));
      }
      r := DecodeTrackRest(U16At(trackId.value, 0), kind.value);
      assert trackId.value[0..2] == trackId.value;
    }

    /** The fields after the track kind. */
    method DecodeTrackRest(trackId: u16, kind: TrackKind) returns (r: Result<TrackDescriptor, IoError>)
      modifies this`pos
      ensures (r, pos) == TrackRestAt(data, old(pos), trackId, kind)
    {
      var fields := ReadTrackFields();
      if fields.Failure? {
        return Failure(fields.error);
      }
      var f := fields.value;
      var len := U32At(f, 9);
      if len > MAX_TRACK_CONFIG_BYTES {
        return Failure(InvalidData(LimitExceeded("track config > MAX_TRACK_CONFIG_BYTES")));
      }
      var config := ReadExact(len);
      if config.Failure? {
        return Failure(config.error);
      }
      r := Success(TrackDescriptor(trackId, kind, U16At(f, 1), U16At(f, 3), U32At(f, 5), config.value));
    }

    /** Reserved byte, codec, flags, timescale and config length, one read each. */
    method ReadTrackFields() returns (r: Result<seq<byte>, IoError>)
      modifies this`pos
      ensures (r, pos) == ReadExactAt(data, old(pos), 13)
    {
      var widths := [1, 2, 2, 4, 4];
      var out: seq<byte> := [];
      ghost var start := pos;
      for i := 0 to |widths|
        invariant pos == start + |out| && (|out| > 0 ==> pos <= |data|)
        invariant |out| == [0, 1, 3, 5, 9, 13][i]
        invariant |out| > 0 ==> out == data[start..pos]
      {
        var field := ReadExact(widths[i]);
        if field.Failure? {
          return Failure(field.error);
        }
        out := out + field.value;
      }
      r := Success(out);
    }

    /** `decode_block_header`. */
    method DecodeBlockHeader(cs: Checksums, useCrc32c: bool) returns (r: Result<BlockHeader, IoError>)
      modifies this`pos
      ensures (r, pos) == BlockHeaderAt(cs, useCrc32c, data, old(pos))
    {
      var prelude := ReadExact(16);
      if prelude.Failure? {
        return Failure(prelude.error);
      }
      if prelude.value[0..4] != BLOCK_MAGIC {
        return Failure(InvalidData(InvalidMagic(prelude.value[0..4])));
      }
      var crc := ReadExact(4);
      if crc.Failure? {
        return Failure(crc.error);
      }
      var expected := U32At(crc.value, 0);
      var actual := cs.Of(prelude.value, useCrc32c);
      if expected != actual {
        return Failure(InvalidData(InvalidHeaderCrc(expected, actual)));
      }
      var kind := BlockType.FromCode(prelude.value[4]);
      if kind.None? {
        return Failure(InvalidData(InvalidBlockType(prelude.value[4])));
      }
      var len := U32At(prelude.value, 8);
      if len > MAX_BLOCK_BODY_BYTES {
        return Failure(InvalidData(LimitExceeded("block body_len > MAX_BLOCK_BODY_BYTES")));
      }
      r := Success(BlockHeader(kind.value, prelude.value[5], len, U32At(prelude.value, 12)));
    }

    /** `read_block_body`. */
    method ReadBlockBody(cs: Checksums, useCrc32c: bool, h: BlockHeader) returns (r: Result<seq<byte>, IoError>)
      modifies this`pos
      ensures (r, pos) == BlockBodyAt(cs, useCrc32c, data, old(pos), h)
    {
      if h.bodyLen > MAX_BLOCK_BODY_BYTES {
        return Failure(InvalidData(LimitExceeded("block body_len > MAX_BLOCK_BODY_BYTES")));
      }
      var body := ReadExact(h.bodyLen);
      if body.Failure? {
        return Failure(body.error);
      }
      var actual := cs.Of(body.value, useCrc32c);
      if actual != h.bodyCrc {
        return Failure(InvalidData(InvalidBodyCrc(h.bodyCrc, actual)));
      }
      r := Success(body.value);
    }
  }
}
