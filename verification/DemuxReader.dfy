/**
 The demuxer: a cursor over the file, the tracks, and an index it rebuilds by scanning.
 */
module Demux {
  import opened Wrappers
  import opened Bytes
  import opened ContainerFormat
  import opened ContainerIo
  import opened ContainerReader
  import opened DemuxSpec
  import opened DemuxTheorems

  /** Which entries a seek chooses from: any track, or the keyframes of one. */
  predicate Selectable(e: IndexEntry, keyframesOf: Option<u16>, pts: u64) {
    && e.pts <= pts
    && (keyframesOf.Some? ==> e.trackId == keyframesOf.value && e.flags % 2 == KEYFRAME)
  }

  /** `max_by_key` over the selectable entries: the greatest pts, and among equals the last entry. */
  function Latest(index: seq<IndexEntry>, keyframesOf: Option<u16>, pts: u64): (r: Option<nat>)
    ensures r.Some? ==> r.value < |index|
  {
    if index == [] then None
    else
      var n := |index| - 1;
      var before := Latest(index[..n], keyframesOf, pts);
      if Selectable(index[n], keyframesOf, pts) && (before.None? || index[before.value].pts <= index[n].pts)
      then Some(n)
      else before
  }

  ghost predicate IsLatest(index: seq<IndexEntry>, j: nat, keyframesOf: Option<u16>, pts: u64) {
    && j < |index|
    && Selectable(index[j], keyframesOf, pts)
    && forall k :: 0 <= k < |index| && Selectable(index[k], keyframesOf, pts) ==>
         index[k].pts < index[j].pts || (index[k].pts == index[j].pts && k <= j)
  }

  lemma {:induction false} LatestIsLatest(index: seq<IndexEntry>, keyframesOf: Option<u16>, pts: u64)
    ensures match Latest(index, keyframesOf, pts)
            case None => forall k :: 0 <= k < |index| ==> !Selectable(index[k], keyframesOf, pts)
            case Some(j) => IsLatest(index, j, keyframesOf, pts)
  {
    hide Selectable;
    if index != [] {
      LatestIsLatest(index[..|index| - 1], keyframesOf, pts);
    }
  }

  method SelectLatest(index: seq<IndexEntry>, keyframesOf: Option<u16>, pts: u64) returns (r: Option<IndexEntry>)
    ensures r == match Latest(index, keyframesOf, pts) case None => None case Some(j) => Some(index[j])
  {
    var best: Option<nat> := None;
    for i := 0 to |index|
      invariant best == Latest(index[..i], keyframesOf, pts)
    {
      assert index[..i + 1][..i] == index[..i];
      if Selectable(index[i], keyframesOf, pts) && (best.None? || index[best.value].pts <= index[i].pts) {
        best := Some(i);
      }
    }
    assert index[..|index|] == index;
    r := if best.None? then None else Some(index[best.value]);
  }

  /** What follows a bad header: nothing to look at, no magic, or another try at the next one. */
  lemma AfterBadHeader(f: File, pos: nat, e: IoError)
    requires BlockHeaderAt(f.cs, f.useCrc32c, f.data, pos).0 == Failure(e) && e != UnexpectedEof
    ensures var probe := Probe(f, pos);
      NextBlockAt(f, pos)
        == if |probe| < |BLOCK_MAGIC| || FindNextBlockMagic(probe, 1).None? then (Failure(e), pos + |probe|)
           else NextBlockAt(f, pos + FindNextBlockMagic(probe, 1).value)
  {
    hide BlockHeaderAt, BlockAfterHeader, HasAt, Probe, FindNextBlockMagic;
  }

  class DemuxReader {
    const cs: Checksums
    const reader: ByteReader
    const header: FileHeader
    const tracks: seq<TrackDescriptor>
    const dataStart: nat
    var packetCursor: nat
    var index: seq<IndexEntry>

    /** The file as the block functions see it. */
    function F(): File {
      FileOf(cs, header, reader.data)
    }

    ghost function Pos(): nat
      reads reader
    {
      reader.pos
    }

    constructor Init(cs: Checksums, reader: ByteReader, header: FileHeader, tracks: seq<TrackDescriptor>)
      ensures this.cs == cs && this.reader == reader && this.header == header && this.tracks == tracks
      ensures dataStart == reader.pos && packetCursor == 0 && index == []
    {
      this.cs, this.reader, this.header, this.tracks := cs, reader, header, tracks;
      dataStart, packetCursor, index := reader.pos, 0, [];
    }

    /** `DemuxReader::open`: header, then as many track descriptors as it announces. */
    static method Open(cs: Checksums, data: seq<byte>) returns (r: Result<DemuxReader, IoError>)
      ensures match FileHeaderAt(data, 0)
              case (Failure(e), _) => r == Failure(e)
              case (Success(h), p) =>
                match TracksAt(data, p, h.trackCount)
                case (Failure(e), _) => r == Failure(e)
                case (Success(ts), start) =>
                  && r.Success? && fresh(r.value) && fresh(r.value.reader)
                  && r.value.cs == cs && r.value.reader.data == data
                  && r.value.header == h && r.value.tracks == ts
                  && r.value.dataStart == start == r.value.Pos() && r.value.index == []
    {
      hide FileHeaderAt, TrackAt;
      var reader := new ByteReader(data);
      var header := reader.DecodeFileHeader();
      if header.Failure? {
        return Failure(header.error);
      }
      ghost var first := reader.pos;
      PrependNoTracks(TracksAt(data, first, header.value.trackCount));
      var tracks: seq<TrackDescriptor> := [];
      var n := header.value.trackCount;
      for i := 0 to n
        invariant |tracks| == i
        invariant TracksAt(data, first, n) == PrependTracks(tracks, TracksAt(data, reader.pos, n - i))
      {
        var before := reader.pos;
        var track := reader.DecodeTrackDescriptor();
        if track.Failure? {
          return Failure(track.error);
        }
        PrependOneTrack(tracks, track.value, TracksAt(data, reader.pos, n - i - 1));
        tracks := tracks + [track.value];
      }
      assert tracks + [] == tracks;
      var demuxer := new DemuxReader.Init(cs, reader, header.value, tracks);
      r := Success(demuxer);
    }

    /** `reset_to_data_start`. */
    method ResetToDataStart()
      modifies this`packetCursor, reader
      ensures Pos() == dataStart && packetCursor == 0
    {
      reader.pos := dataStart;
      packetCursor := 0;
    }

    /** `next_block`. */
    method NextBlock() returns (r: Result<Option<Located>, IoError>)
      modifies reader
      ensures (r, Pos()) == NextBlockAt(F(), old(Pos()))
      decreases if Pos() < |reader.data| then |reader.data| - Pos() else 0, 1
    {
      hide BlockHeaderAt, Probe, BlockBodyAt, DecodeBody;
      var blockStart := reader.pos;
      var crc32c := header.UsesCrc32c();
      var h := reader.DecodeBlockHeader(cs, crc32c);
      if h.Failure? {
        if h.error == UnexpectedEof {
          return Success(None);
        }
        r := TryResyncOrFail(blockStart, h.error);
        return;
      }
      var body := reader.ReadBlockBody(cs, crc32c, h.value);
      if body.Failure? {
        return Failure(body.error);
      }
      var block := DecodeBody(h.value.blockType, body.value);
      if block.Failure? {
        return Failure(block.error);
      }
      r := Success(Some(Located(blockStart, block.value)));
    }

    /** `try_resync_or_fail`: look for the next block magic behind the bad header. */
    method TryResyncOrFail(blockStart: nat, originalError: IoError) returns (r: Result<Option<Located>, IoError>)
      requires originalError != UnexpectedEof
      requires BlockHeaderAt(cs, header.UsesCrc32c(), reader.data, blockStart).0 == Failure(originalError)
      modifies reader
      ensures (r, Pos()) == NextBlockAt(F(), blockStart)
      decreases if blockStart < |reader.data| then |reader.data| - blockStart else 0, 0
    {
      hide BlockHeaderAt, BlockAfterHeader, HasAt, NextBlockAt;
      AfterBadHeader(F(), blockStart, originalError);
      var probe := Probe(F(), blockStart);
      reader.pos := blockStart + |probe|;
      if |probe| < |BLOCK_MAGIC| {
        return Failure(originalError);
      }
      var offset := FindNextBlockMagic(probe, 1);
      if offset.Some? {
        reader.pos := blockStart + offset.value;
        r := NextBlock();
        return;
      }
      r := Failure(originalError);
    }

    /** `next_packet`: pass over cues and index blocks. */
    method NextPacket() returns (r: Result<Option<DemuxedPacket>, IoError>)
      modifies this`packetCursor, reader
      ensures (r, Pos()) == NextPacketAt(F(), old(Pos()))
      ensures packetCursor == old(packetCursor) + if r.Success? && r.value.Some? then 1 else 0
    {
      hide NextBlockAt;
      while true
        invariant NextPacketAt(F(), old(Pos())) == NextPacketAt(F(), Pos())
        invariant packetCursor == old(packetCursor)
        decreases if Pos() < |reader.data| then |reader.data| - Pos() else 0
      {
        ghost var before := Pos();
        var block := NextBlock();
        if block.Failure? {
          return Failure(block.error);
        }
        if block.value.None? {
          return Success(None);
        }
        var found := block.value.value;
        if found.block.PacketOf? {
          packetCursor := packetCursor + 1;
          return Success(Some(DemuxedPacket(found.offset, found.block.packet)));
        }
        assert NextPacketAt(F(), before) == NextPacketAt(F(), Pos());
      }
      assert false;
    }

    /** `rebuild_index`: scan from the start; the cursor is put back, but stays behind the failure if the scan fails. */
    method RebuildIndex() returns (r: Result<(), IoError>)
      modifies this`index, reader
      ensures match ScanIndex(F(), dataStart, [])
              case Failure(e) => r == Failure(e) && (index, Pos()) == ScanStop(F(), dataStart, [])
              case Success(entries) => r == Success(()) && index == entries && Pos() == old(Pos())
    {
      hide NextBlockAt;
      var current := reader.pos;
      reader.pos := dataStart;
      index := [];
      while true
        invariant ScanIndex(F(), dataStart, []) == ScanIndex(F(), Pos(), index)
        invariant ScanStop(F(), dataStart, []) == ScanStop(F(), Pos(), index)
        decreases if Pos() < |reader.data| then |reader.data| - Pos() else 0
      {
        var block := NextBlock();
        if block.Failure? {
          return Failure(block.error);
        }
        if block.value.None? {
          break;
        }
        match block.value.value {
          case Located(offset, PacketOf(packet)) =>
            index := index + [EntryOf(offset, packet)];
          case Located(_, CueOf(cue)) =>
            index := index + cue.entries;
          case Located(_, IndexOf(entries)) =>
            index := entries;
            break;
        }
      }
      reader.pos := current;
      r := Success(());
    }

    /**
     `seek_nearest` (no track given) and `seek_nearest_video_keyframe_before_or_at`: an empty index
     is rebuilt first; the cursor moves to the chosen entry's offset, or stays.
     */
    method Seek(keyframesOf: Option<u16>, pts: u64) returns (r: Result<Option<IndexEntry>, IoError>)
      modifies this`index, reader
      ensures old(index) != [] ==> r.Success? && index == old(index)
      ensures old(index) == [] ==>
                match ScanIndex(F(), dataStart, [])
                case Failure(e) => r == Failure(e) && (index, Pos()) == ScanStop(F(), dataStart, [])
                case Success(entries) => r.Success? && index == entries
      ensures r.Success? ==>
                && r.value == (match Latest(index, keyframesOf, pts) case None => None case Some(j) => Some(index[j]))
                && Pos() == if r.value.Some? then r.value.value.fileOffset else old(Pos())
    {
      hide ScanIndex, ScanStop, Latest;
      if |index| == 0 {
        var rebuilt := RebuildIndex();
        if rebuilt.Failure? {
          return Failure(rebuilt.error);
        }
      }
      var selected := SelectLatest(index, keyframesOf, pts);
      if selected.Some? {
        reader.pos := selected.value.fileOffset;
      }
      r := Success(selected);
    }
  }

  ghost function PrependTracks(ts: seq<TrackDescriptor>, r: (Result<seq<TrackDescriptor>, IoError>, nat))
    : (Result<seq<TrackDescriptor>, IoError>, nat)
  {
    match r
    case (Failure(e), p) => (Failure(e), p)
    case (Success(more), p) => (Success(ts + more), p)
  }

  lemma PrependNoTracks(r: (Result<seq<TrackDescriptor>, IoError>, nat))
    ensures PrependTracks([], r) == r
  {
    if r.0.Success? {
      assert [] + r.0.value == r.0.value;
    }
  }

  lemma PrependOneTrack(ts: seq<TrackDescriptor>, t: TrackDescriptor, r: (Result<seq<TrackDescriptor>, IoError>, nat))
    ensures PrependTracks(ts + [t], r) == PrependTracks(ts, PrependTracks([t], r))
  {
    if r.0.Success? {
      assert ts + [t] + r.0.value == ts + ([t] + r.0.value);
    }
  }
}
