/**
 What the readers accept is what the writers write: every header, descriptor and body that is decoded
 is the encoding of what comes out, and every block that is returned passes both its checksums.
 */
module AcceptTheorems {
  import opened Wrappers
  import opened Bytes
  import opened ContainerFormat
  import opened ContainerIo
  import opened DemuxSpec

  // ----- fixed-width fields -----

  lemma U16Bytes(s: seq<byte>, i: nat)
    requires i + 2 <= |s|
    ensures LeBytes(U16At(s, i), 2) == s[i..i + 2]
  {
    BytesRoundTrip(s[i..i + 2]);
  }

  lemma U32Bytes(s: seq<byte>, i: nat)
    requires i + 4 <= |s|
    ensures LeBytes(U32At(s, i), 4) == s[i..i + 4]
  {
    BytesRoundTrip(s[i..i + 4]);
  }

  lemma U64Bytes(s: seq<byte>, i: nat)
    requires i + 8 <= |s|
    ensures LeBytes(U64At(s, i), 8) == s[i..i + 8]
  {
    BytesRoundTrip(s[i..i + 8]);
  }

  lemma Pieces(s: seq<byte>, i: nat, j: nat, k: nat)
    requires i <= j <= k <= |s|
    ensures s[i..j] + s[j..k] == s[i..k]
  {
  }

  // ----- bodies -----

  /** Every body that is accepted as a packet is the encoding of that packet. */
  lemma PacketAccepted(body: seq<byte>)
    requires DecodePacket(body).Success?
    ensures var p := DecodePacket(body).value;
      && BodyBytes(PacketOf(p)) == body
      && p.header.payloadLen == |p.payload| <= MAX_PACKET_PAYLOAD_BYTES
      && p.header.sequence < U64_LIMIT
  {
    hide LeBytes, FromLe;
    U16Bytes(body, 0);
    U16Bytes(body, 2);
    U64Bytes(body, 4);
    U64Bytes(body, 12);
    U64Bytes(body, 20);
    U32Bytes(body, 28);
    Pieces(body, 0, 2, 4);
    Pieces(body, 0, 4, 12);
    Pieces(body, 0, 12, 20);
    Pieces(body, 0, 20, 28);
    Pieces(body, 0, 28, 32);
    Pieces(body, 0, 32, |body|);
    assert body[0..|body|] == body;
  }

  lemma EntryAccepted(chunk: seq<byte>)
    requires |chunk| == ENTRY_LEN
    ensures EntryBytes(DecodeEntry(chunk)) == chunk
    ensures DecodeEntry(chunk).packetNumber < U64_LIMIT && DecodeEntry(chunk).fileOffset < U64_LIMIT
  {
    hide LeBytes, FromLe;
    U64Bytes(chunk, 0);
    U64Bytes(chunk, 8);
    U16Bytes(chunk, 16);
    U16Bytes(chunk, 18);
    U64Bytes(chunk, 20);
    Pieces(chunk, 0, 8, 16);
    Pieces(chunk, 0, 16, 18);
    Pieces(chunk, 0, 18, 20);
    Pieces(chunk, 0, 20, 28);
    assert chunk[0..28] == chunk;
  }

  lemma {:induction false} EntriesAccepted(payload: seq<byte>, n: nat)
    requires |payload| == ENTRY_LEN * n
    ensures |DecodeEntries(payload)| == n && EntriesBytes(DecodeEntries(payload)) == payload
    decreases n
  {
    hide EntryBytes, DecodeEntry;
    if n > 0 {
      var front, last := payload[..ENTRY_LEN * (n - 1)], payload[ENTRY_LEN * (n - 1)..];
      EntriesAccepted(front, n - 1);
      EntryAccepted(last);
      var es := DecodeEntries(payload);
      assert payload[ENTRY_LEN * (n - 1)..ENTRY_LEN * (n - 1) + ENTRY_LEN] == last;
      forall i | 0 <= i < n - 1
        ensures es[..n - 1][i] == DecodeEntries(front)[i]
      {
        assert front[ENTRY_LEN * i..ENTRY_LEN * i + ENTRY_LEN] == payload[ENTRY_LEN * i..ENTRY_LEN * i + ENTRY_LEN];
      }
      assert es[..n - 1] == DecodeEntries(front) && es[n - 1] == DecodeEntry(last);
      assert payload == front + last;
    }
  }

  lemma CueAccepted(body: seq<byte>)
    requires DecodeCue(body).Success?
    ensures BodyBytes(CueOf(DecodeCue(body).value)) == body
    ensures |DecodeCue(body).value.entries| <= MAX_INDEX_ENTRIES_PER_BLOCK
  {
    hide LeBytes, FromLe, EntriesBytes, DecodeEntries;
    EntriesAccepted(body[20..], U32At(body, 16));
    U64Bytes(body, 0);
    U64Bytes(body, 8);
    U32Bytes(body, 16);
    Pieces(body, 0, 8, 16);
    Pieces(body, 0, 16, 20);
    Pieces(body, 0, 20, |body|);
    assert body[0..|body|] == body;
  }

  lemma IndexAccepted(body: seq<byte>)
    requires DecodeIndex(body).Success?
    ensures BodyBytes(IndexOf(DecodeIndex(body).value)) == body
    ensures |DecodeIndex(body).value| <= MAX_INDEX_ENTRIES_PER_BLOCK
  {
    hide LeBytes, FromLe, EntriesBytes, DecodeEntries;
    EntriesAccepted(body[4..], U32At(body, 0));
    U32Bytes(body, 0);
    Pieces(body, 0, 4, |body|);
    assert body[0..|body|] == body;
  }

  lemma BodyAccepted(kind: BlockType, body: seq<byte>)
    requires DecodeBody(kind, body).Success?
    ensures var b := DecodeBody(kind, body).value;
      b.Type() == kind && BodyBytes(b) == body
  {
    hide DecodePacket, DecodeCue, DecodeIndex, BodyBytes;
    match kind
    case PacketType => PacketAccepted(body);
    case CueType => CueAccepted(body);
    case IndexType => IndexAccepted(body);
  }

  // ----- blocks -----

  /**
   The bytes of a block that was returned: magic, type, length and both checksums are right, and the
   body is the encoding of the block.
   */
  ghost predicate BlockStands(f: File, offset: nat, b: Block, next: nat) {
    && offset + 20 <= next <= |f.data|
    && f.data[offset..offset + 4] == [0x53, 0x42, 0x4c, 0x4b]
    && f.data[offset + 4] == (match b case PacketOf(_) => 1 case CueOf(_) => 2 case IndexOf(_) => 3)
    && U32At(f.data, offset + 8) == |BodyBytes(b)| <= MAX_BLOCK_BODY_BYTES
    && f.data[offset + 20..next] == BodyBytes(b)
    && U32At(f.data, offset + 12) == f.cs.Of(f.data[offset + 20..next], f.useCrc32c)
    && U32At(f.data, offset + 16) == f.cs.Of(f.data[offset..offset + 16], f.useCrc32c)
  }

  lemma SliceOf(data: seq<byte>, pos: nat, n: nat, i: nat, k: nat)
    requires pos + n <= |data| && i + k <= n
    ensures data[pos..pos + n][i..i + k] == data[pos + i..pos + i + k]
  {
    var part, direct := data[pos..pos + n][i..i + k], data[pos + i..pos + i + k];
    assert forall t :: 0 <= t < k ==> part[t] == direct[t];
  }

  lemma HeaderAccepted(f: File, pos: nat)
    requires BlockHeaderAt(f.cs, f.useCrc32c, f.data, pos).0.Success?
    ensures pos + 20 <= |f.data|
    ensures var h := BlockHeaderAt(f.cs, f.useCrc32c, f.data, pos).0.value;
      && f.data[pos..pos + 4] == [0x53, 0x42, 0x4c, 0x4b]
      && f.data[pos + 4] == (match h.blockType case PacketType => 1 case CueType => 2 case IndexType => 3)
      && h.bodyLen == U32At(f.data, pos + 8) <= MAX_BLOCK_BODY_BYTES
      && h.bodyCrc == U32At(f.data, pos + 12)
      && U32At(f.data, pos + 16) == f.cs.Of(f.data[pos..pos + 16], f.useCrc32c)
  {
    hide FromLe;
    var prelude, crc := f.data[pos..pos + 16], f.data[pos + 16..pos + 20];
    SliceOf(f.data, pos, 16, 0, 4);
    SliceOf(f.data, pos, 16, 8, 4);
    SliceOf(f.data, pos, 16, 12, 4);
    assert crc[0..4] == crc;
    assert prelude[4] == f.data[pos + 4];
  }

  lemma BlockAccepted(f: File, pos: nat, h: BlockHeader)
    requires BlockHeaderAt(f.cs, f.useCrc32c, f.data, pos).0 == Success(h)
    requires BlockAfterHeader(f, pos, h).0.Success?
    ensures var (r, next) := BlockAfterHeader(f, pos, h);
      BlockStands(f, pos, r.value.value.block, next)
  {
    hide BlockHeaderAt, DecodeBody, BodyBytes, FromLe;
    HeaderAccepted(f, pos);
    var body := BlockBodyAt(f.cs, f.useCrc32c, f.data, pos + BLOCK_HEADER_LEN, h).0.value;
    BodyAccepted(h.blockType, body);
  }

  /** No block comes out of any file that does not stand there with matching checksums. */
  lemma {:induction false} ReturnedBlockStands(f: File, pos: nat)
    requires NextBlockAt(f, pos).0.Success? && NextBlockAt(f, pos).0.value.Some?
    ensures var (r, next) := NextBlockAt(f, pos);
      BlockStands(f, r.value.value.offset, r.value.value.block, next)
    decreases if pos < |f.data| then |f.data| - pos else 0
  {
    hide BlockHeaderAt, BlockAfterHeader, BlockStands, Probe, FindNextBlockMagic, HasAt;
    var r := BlockHeaderAt(f.cs, f.useCrc32c, f.data, pos).0;
    if r.Success? {
      BlockAccepted(f, pos, r.value);
    } else {
      var i := FindNextBlockMagic(Probe(f, pos), 1).value;
      ReturnedBlockStands(f, pos + i);
    }
  }

  // ----- headers -----

  /** All bytes of an accepted preamble are those of its encoding, but for two reserved ones. */
  lemma FileHeaderAccepted(data: seq<byte>, pos: nat)
    requires FileHeaderAt(data, pos).0.Success?
    ensures var (r, next) := FileHeaderAt(data, pos);
      && EncodeFileHeader(r.value).Success?
      && var bytes := EncodeFileHeader(r.value).value;
      && |bytes| == r.value.headerLen && next == pos + |bytes| <= |data|
      && data[pos..next - 6] == bytes[..|bytes| - 6]
      && data[next - 4..next] == bytes[|bytes| - 4..]
  {
    hide FromLe, LeBytes;
    var (r, next) := FileHeaderAt(data, pos);
    var h, start := r.value, next - 16;
    var rest := data[start..next];
    assert ParseHeaderFields(rest) == Success(h);
    FieldsAccepted(rest, h);
    var bytes := EncodeFileHeader(h).value;
    var magic := bytes[..|bytes| - 16];
    assert data[pos..start] == magic;
    assert bytes == magic + HeaderFields(h);
    SliceOf(data, start, 16, 0, 10);
    SliceOf(data, start, 16, 12, 4);
    Pieces(data, pos, start, start + 10);
    assert rest[0..10] == rest[..10] && rest[12..16] == rest[12..];
    MagicFirst(magic, HeaderFields(h));
  }

  lemma MagicFirst(magic: seq<byte>, fields: seq<byte>)
    requires |fields| == 16
    ensures (magic + fields)[..|magic| + 10] == magic + fields[..10]
    ensures (magic + fields)[|magic| + 12..] == fields[12..]
  {
  }

  lemma FieldsAccepted(rest: seq<byte>, h: FileHeader)
    requires |rest| == 16 && ParseHeaderFields(rest) == Success(h)
    ensures HeaderFields(h)[..10] == rest[..10] && HeaderFields(h)[12..] == rest[12..]
  {
    hide FromLe, LeBytes;
    U16Bytes(rest, 0);
    U16Bytes(rest, 2);
    U32Bytes(rest, 4);
    U16Bytes(rest, 8);
    U32Bytes(rest, 12);
    var fields := LeBytes(h.version, 2) + LeBytes(h.flags, 2) + LeBytes(h.headerLen, 4) + LeBytes(h.trackCount, 2);
    Pieces(rest, 0, 2, 4);
    Pieces(rest, 0, 4, 8);
    Pieces(rest, 0, 8, 10);
    assert fields == rest[0..10] == rest[..10];
    assert HeaderFields(h)[..10] == fields && HeaderFields(h)[12..] == LeBytes(h.cueInterval, 4);
  }

  /** All bytes of an accepted track descriptor are those of its encoding, but for a reserved one. */
  lemma TrackAccepted(data: seq<byte>, pos: nat)
    requires TrackAt(data, pos).0.Success?
    ensures var (r, next) := TrackAt(data, pos);
      && EncodeTrack(r.value).Success?
      && var bytes := EncodeTrack(r.value).value;
      && next == pos + |bytes| <= |data|
      && data[pos..pos + 3] == bytes[..3] && data[pos + 4..next] == bytes[4..]
  {
    hide FromLe, LeBytes;
    var (r, next) := TrackAt(data, pos);
    var t := r.value;
    var first, f := data[pos..pos + 3], data[pos + 3..pos + 16];
    U16Bytes(first, 0);
    U16Bytes(f, 1);
    U16Bytes(f, 3);
    U32Bytes(f, 5);
    U32Bytes(f, 9);
    assert t.kind.Code() == first[2];
    Pieces(f, 1, 3, 5);
    Pieces(f, 1, 5, 9);
    Pieces(f, 1, 9, 13);
    var fields := TrackFields(t);
    assert fields[..3] == LeBytes(t.trackId, 2) + [t.kind.Code()] == first;
    assert fields[4..] == LeBytes(t.codecId, 2) + LeBytes(t.flags, 2) + LeBytes(t.timescale, 4)
      + LeBytes(|t.config|, 4) == f[1..13];
    assert data[pos + 4..next] == f[1..13] + t.config;
    assert TrackBytes(t)[4..] == fields[4..] + t.config && TrackBytes(t)[..3] == fields[..3];
  }
}
