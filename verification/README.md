# Verified model of the SRS media tools

Dafny models of the parts of the repository whose correctness is not visible from any single function, and proofs of
the properties its documentation and tests promise.

| part | files |
|---|---|
| rANS entropy coder | `RansModel`, `RansSpec`, `RansTheorems`, `CodingTheorems`, `RansCoder` |
| lossless audio codec, version 2 | `AudioSpec`, `AudioTheorems`, `PredictionTheorems`, `AudioLayout`, `AudioCodec` |
| `.528` container: block formats, muxer, demuxer, resynchronization | `ContainerFormat`, `ContainerIo`, `ContainerTheorems`, `ContainerReader`, `LayoutTheorems`, `AcceptTheorems`, `RefusalTheorems`, `MuxSpec`, `MuxWriter`, `CueTheorems`, `DemuxSpec`, `DemuxTheorems`, `InputTheorems`, `CutTheorems`, `DamageTheorems`, `Resync`, `DemuxReader` |
| playback session: stashes, seeking, recovery | `PlaybackSpec`, `PlaybackTheorems`, `PlaybackCalls`, `SeekTheorems`, `SeekTimes`, `PlaybackSession` |
| license server: verification, confirmation, administration, notifications | `LicenseSpec`, `LicenseTheorems`, `LicenseRuns`, `LicenseFlows`, `LicenseWaits`, `LicenseRecords`, `NotificationTheorems`, `LicenseServer` |
| version 1 intra video codec | `VideoSpec`, `VideoTheorems`, `VideoWire`, `VideoCodec` |
| bit packing, LEB128 and zigzag | `BitSpec`, `BitIo`, `Varint` |
| block-level adaptive quantisation | `BlockAqSpec`, `BlockAq` |
| shared | `Wrappers`, `Bytes`, `LittleEndian`, `Arithmetic` |

Each part has the same shape. A specification file gives the data and the meaning of every operation as functions on
values. The loops and objects of the source are methods and classes, each proved to compute those functions. The
theorem files prove what the source promises about the functions, for all inputs, all runs or all reachable states.
Where a function computes a number or a byte string, one of them also says what that is in terms of its own: the sum a
prediction rounds, the bytes of a header, the rows a transaction writes.

`dafny verify dfyconfig.toml` checks the whole project.

## What is assumed of the surroundings

- Checksums, the floating-point linear prediction analysis, the video and audio frame decoders of a playback session
  and the legacy audio parser are parameters: any functions of the right type. Nothing is assumed of them, except that
  the seek theorems assume a keyframe payload decodes independently of the reference state (and, for the intra-only
  codec, that every payload does).
- Clocks are parameters. Generated ids, keys and tokens of the license server come from one generator that never
  repeats itself. Which of several requests with the same creation second "the latest" is, is left to the database.
- A transaction of the license server is one step. The "sent" and "delivered" marks are steps of their own, so a run
  is any interleaving of the transactions of any number of clients; a mark may come at any time, also after a read.
- Byte counts that the source holds in 64-bit machine words are unbounded, except where the source checks or truncates
  them. A stream position of the muxer that would leave 64 bits is a failed write.
- Where a debug build would stop at an overflow (the 16-bit sum in the video decoder) the model wraps, as a release
  build does; the range check behind it then refuses the sample either way.

## Results worth knowing

- **Limits that differ.** The muxer accepts payloads of up to 64 MiB and a million index entries, the demuxer bodies of
  16 MiB. It suffices for the whole-file round trip that payload + 32, 28 n + 4 and 20 + 28 (entries per cue) are at
  most 16 MiB. Given the bounds on cues and index the one on payloads is also necessary
  (`DemuxTheorems.PayloadLimitIsExact`): a packet above it never comes back. The other two are not claimed to be:
  resynchronization may step over an index that is too large, if there is a block magic in its window
  (`CutTheorems.OversizeIndexFails`).
- **A bound that administrators can exceed.** A license trusts at most one device more than it has approved requests,
  plus the devices that an administrator reactivated; `LicenseFlows.RevivalBreaksBound` gives the run that needs the
  last term. It is not needed where a reactivation is made only if at most one device would then be trusted without
  an approved request; `LicenseRuns.RevivalChecked` says which reactivations those are, and
  `LicenseRuns.TrustedBoundChecked` that they keep the bound. Once no approval is left over, no others do
  (`LicenseRuns.RevivalKeepsBoundExactly`).
- **Documentation and code differ.** `docs/specs/licensing_and_editions.md:53` says that a materially new origin
  presenting the key leads to a pending request. The code never compares origins: it opens one exactly when the
  license trusts some device, but not this one, and no request of this one is open (`LicenseFlows.AskedExactly`,
  `LicenseFlows.OriginIsNotLookedAt`). Line 57 says that a replacement key may be issued for an unconfirmed request. The
  code issues one on every verification that meets the condition of `LicenseFlows.ReplacedExactly`, in which earlier
  replacements play no part: the same request yields further licenses until a transaction settles it
  (`LicenseWaits.ReplacementRepeats`, `LicenseWaits.ReplacedUnlessSettled`). A confirmation settles it however late it
  comes (`LicenseWaits.ConfirmationFlow`).
- **A state that does not tell.** `notification_state` of a mail that was read can become "sent" again; the record
  state cannot. It tells exactly as long as no mark comes after the read (`NotificationTheorems.LateMarkHidesRead`).
- **One packet is lost.** A per-stream call that meets full stashes fails, and the packet it had just read is in no
  place any more; what was read before stays (`PlaybackTheorems.VideoCallOverflows`).
- **The variance is not the variance.** Flooring the mean before squaring makes the block variance of adaptive
  quantisation too large by up to about 501 (`BlockAqSpec.VarianceError`); it is still never negative, and zero for
  flat blocks.
- **Half of the blocks, not always.** More than half of a plane's blocks are coarsened exactly when the median
  variance is zero, the strength is five or more, a positive delta is allowed and more than half of the blocks are
  flat (`BlockAqSpec.HalfAndHalf`); a constant plane is one where all of them are
  (`BlockAq.ConstantPlaneAllCoarsened`).
- **Dead branches.** The early flush of a zero run at 255 cannot happen inside an 8x8 block
  (`VideoTheorems.PendingCost` with `VideoTheorems.BlockFits`), the varint encoder never reports a value as too long,
  and the rANS encoder never reports a state overflow.

## Model

| member | source | states |
|---|---|---|
| RansModel.TryFromFreqs | crates/libsrs_bitio/src/rans.rs:24-54 | a table is accepted exactly when it has 1 to 4096 positive frequencies that sum to 4096; each refusal names the first rule the scan finds broken; an accepted model has the prefix sums |
| RansModel.Uniform | crates/libsrs_bitio/src/rans.rs:61-73 | succeeds exactly for alphabet sizes that divide 4096, and then every symbol has the same share |
| RansModel.SlotFound | crates/libsrs_bitio/src/rans.rs:75-88 | every slot below 4096 is found, in the interval of the symbol returned |
| RansModel.SlotOwner | crates/libsrs_bitio/src/rans.rs:75-88 | the intervals are disjoint: a slot that a symbol owns is looked up as that symbol |
| RansTheorems.ShiftLosesNothing | crates/libsrs_bitio/src/rans.rs:97-116 | from the renormalized range the shift that is checked for its amount only loses no bit, and the checked additions do not overflow |
| RansTheorems.RenormOutShape | crates/libsrs_bitio/src/rans.rs:99-107 | between two symbols the encoder sheds at most two bytes, exactly one at frequency 16, and lands where folding is safe |
| RansTheorems.RenormInUndoesOut | crates/libsrs_bitio/src/rans.rs:99-107 | the decoder absorbs exactly the bytes the encoder shed and regains the state before, for any budget that covers them |
| RansTheorems.RenormOutUndoesIn | crates/libsrs_bitio/src/rans.rs:155-168 | conversely the encoder sheds exactly the bytes the decoder absorbed |
| RansTheorems.DecodeUndoesEncodeStep | crates/libsrs_bitio/src/rans.rs:97-120 | one symbol: decoding the state and bytes after encoding it gives the symbol and the state and bytes before |
| RansTheorems.EncodeUndoesDecodeStep | crates/libsrs_bitio/src/rans.rs:145-168 | one symbol, conversely, from any state in the normal range |
| RansTheorems.EncodeAllNormal | crates/libsrs_bitio/src/rans.rs:91-126 | the state stays in [2^23, 2^31) after every symbol, with at most two bytes a symbol and exactly one for 256 equal shares |
| RansTheorems.RoundTrip | crates/libsrs_bitio/src/rans.rs:91-173 | for all valid tables and in-range symbols the stream decodes to exactly those symbols if and only if the budget is at least the stream length minus 4; below it the outcome is the budget error |
| RansTheorems.TrailingGarbageRefused | crates/libsrs_bitio/src/rans.rs:169-172 | a stream followed by any further bytes is refused |
| RansTheorems.AcceptedStreamIsEncoding | crates/libsrs_bitio/src/rans.rs:130-173 | an accepted stream is byte for byte the encoding of its symbols if and only if it starts in the normal range and leaves the state at 2^23 |
| RansTheorems.DecodeResumes | crates/libsrs_bitio/src/rans.rs:176-201 | decoding symbol by symbol from the state left so far is the same as decoding all at once |
| RansTheorems.EncodedLength | crates/libsrs_bitio/src/rans.rs:91-126 | 4 to 4 + 2n bytes for n symbols, exactly 4 + n with 256 equal shares |
| RansTheorems.LargeBudget | crates/libsrs_bitio/src/rans.rs:130-173 | with a budget of one step for every byte behind the state no stream meets the budget error, and a larger budget changes nothing |
| RansSpec.PopNeverWraps | crates/libsrs_bitio/src/rans.rs:145-152 | for every 32-bit state the wrapping product and sum of the decoder do not wrap, and the state does not grow |
| RansCoder.RansEncode | crates/libsrs_bitio/src/rans.rs:91-126 | the loop produces the specified stream; its only error is a symbol outside the alphabet |
| RansCoder.RansDecode | crates/libsrs_bitio/src/rans.rs:130-173 | the loop computes the specified outcome, error cases and budget included |
| RansCoder.RansDecodeStepSymbol | crates/libsrs_bitio/src/rans.rs:176-201 | one call is one decoding step from the given cursor, state and step count, which move as the specified step does even when it fails |
| RansTheorems.RenormEnds | crates/libsrs_bitio/src/rans.rs:155-168 | where the byte loop stops: as reported when it succeeds, otherwise at the end of the data or one step over the budget |
| RansCoder.Renormalize | crates/libsrs_bitio/src/rans.rs:155-168 | the byte loop with its end-of-data and budget checks, in the order the source makes them |
| RansCoder.RansEncodeMultiContext | crates/libsrs_bitio/src/rans.rs:207-248 | succeeds exactly when every context has a model and every symbol fits it; otherwise the error is that of the last bad position |
| RansCoder.RansDecodeMultiContext | crates/libsrs_bitio/src/rans.rs:252-302 | stops at the first context without a model unless an earlier symbol fails |
| RansCoder.MultiContextRoundTrip | crates/libsrs_bitio/src/rans.rs:207-302 | any list of models and any known contexts: symbols come back exactly when the budget covers the bytes |
| RansCoder.OneContextIsSingleModel | crates/libsrs_bitio/src/rans.rs:207-302 | with one context throughout the same symbols are accepted, the same bytes written, and every stream decodes to the same outcome as with the single-model coder |
| AudioTheorems.RebuildUndoesResiduals | crates/libsrs_audio/src/codec.rs:234-312 | prediction from the already rebuilt samples undoes the residuals, for arbitrary taps and saturating sums |
| AudioTheorems.BudgetIsEnough | crates/libsrs_audio/src/codec.rs:391-399 | decoding a channel never ends in the budget error, from any payload and for any sample count |
| AudioTheorems.ChannelRoundTrip | crates/libsrs_audio/src/codec.rs:244-426 | a channel decodes to its samples whatever the analysis returns, and its payload is exactly 2n + 2p + 10 bytes, or 2n + 5 raw |
| AudioTheorems.ChannelRefused | crates/libsrs_audio/src/codec.rs:244-312 | a channel is refused exactly when that length does not fit 32 bits |
| AudioTheorems.InterleaveUndoes | crates/libsrs_audio/src/codec.rs:497-534 | interleaving the deinterleaved channels of whole-length audio restores it, for any number of channels |
| AudioTheorems.FrameRoundTrip | crates/libsrs_audio/src/codec.rs:45-192 | every accepted frame comes back identical for every analysis outcome, with the version given as 2, absent or anything but 1 |
| AudioTheorems.FrameAccepted | crates/libsrs_audio/src/codec.rs:45-68 | exactly which frames are accepted: one or two channels, whole length, every channel within 32 bits |
| AudioCodec.PredictI16 | crates/libsrs_audio/src/codec.rs:234-242 | the saturating prediction loop computes the specified prediction; what that is, PredictionTheorems.PredictionMeans states |
| AudioCodec.EncodeChannelV2 | crates/libsrs_audio/src/codec.rs:244-312 | the channel coder produces the specified payload, raw fallback and warm-up samples included |
| AudioCodec.DecodeChannelV2 | crates/libsrs_audio/src/codec.rs:313-426 | the channel decoder computes the specified outcome with its error cases |
| AudioCodec.Reconstruct | crates/libsrs_audio/src/codec.rs:400-426 | rebuilding in place gives the samples that prediction plus residuals define, or the range error |
| AudioCodec.DeinterleaveChannel | crates/libsrs_audio/src/codec.rs:497-504 | every channels-th sample from the channel index on, for any number of channels |
| AudioCodec.InterleaveChannels | crates/libsrs_audio/src/codec.rs:506-534 | one sample of each channel in turn, for any number of channels; a wrong number of channels or unequal lengths are refused |
| AudioCodec.EncodeAudioFrame | crates/libsrs_audio/src/codec.rs:45-68 | the frame encoder produces the specified bytes or error |
| AudioCodec.DecodeAudioPayloadV2 | crates/libsrs_audio/src/codec.rs:154-192 | the cursor over length-prefixed channels, truncation and trailing bytes included |
| AudioCodec.DecodeFrameInner | crates/libsrs_audio/src/codec.rs:95-152 | version selection between the second format and the legacy parser |
| ContainerTheorems.FileHeaderRoundTrip | crates/libsrs_container/src/io.rs:35-151 | an encodable file header, legacy or current, is read back from any place of any file |
| ContainerTheorems.TrackRoundTrip | crates/libsrs_container/src/io.rs:153-203 | an encodable track descriptor is read back |
| ContainerTheorems.TracksRoundTrip | crates/libsrs_demux/src/lib.rs:26-41 | a table of encodable track descriptors is read back in order |
| ContainerTheorems.PacketRoundTrip | crates/libsrs_container/src/io.rs:255-323 | a packet within the read limits survives its body encoding |
| ContainerTheorems.CueRoundTrip | crates/libsrs_container/src/io.rs:363-414 | a cue within the read limits survives its body encoding |
| ContainerTheorems.IndexRoundTrip | crates/libsrs_container/src/io.rs:416-455 | an index within the read limits survives its body encoding |
| ContainerTheorems.EnvelopeRoundTrip | crates/libsrs_container/src/io.rs:205-253 | a block written at any place of a file parses there to its header and body, with either checksum |
| ContainerReader.ByteReader.DecodeFileHeader | crates/libsrs_container/src/io.rs:84-151 | reads what the format function reads at the cursor and leaves the cursor where it says, errors included |
| ContainerReader.ByteReader.DecodeTrackDescriptor | crates/libsrs_container/src/io.rs:174-203 | the same for a track descriptor |
| ContainerReader.ByteReader.DecodeBlockHeader | crates/libsrs_container/src/io.rs:222-253 | the same for a block header |
| ContainerReader.ByteReader.ReadBlockBody | crates/libsrs_container/src/io.rs:457-479 | the same for a block body; RefusalTheorems.BodyRefused states when it is refused, and ReturnedBlockStands that no block escapes the checksum |
| Mux.MuxWriter.New | crates/libsrs_mux/src/lib.rs:21-50 | succeeds exactly within the track limit and encodable header and tracks; the file then is the preamble |
| Mux.MuxWriter.WritePacket | crates/libsrs_mux/src/lib.rs:56-106 | appends one packet with exactly the track, times and payload given, flag 1 only for a keyframe, numbered by its position, and a cue after every full interval; which blocks are there afterwards, also when the cue fails; a refused payload changes nothing; with room it succeeds |
| Mux.MuxWriter.AppendPacket | crates/libsrs_mux/src/lib.rs:56-100 | the packet block and its entry: when it succeeds, what grows by how much, and that failure changes nothing |
| Mux.MuxWriter.WritePeriodicCue | crates/libsrs_mux/src/lib.rs:108-123 | the cue holds exactly the entries no cue has covered; when it succeeds, what it grows by, and that failure changes nothing |
| Mux.MuxWriter.Finalize | crates/libsrs_mux/src/lib.rs:125-138 | exactly when it succeeds; the file is then the blocks written, the closing cue and the index over them, in an undisturbed run the specified finished file, and within the read limits it meets all conditions of the whole-file round trip |
| MuxSpec.BlocksHoldPackets | crates/libsrs_mux/src/lib.rs:56-123 | the blocks of a run hold its packets in order and as many index entries |
| MuxSpec.PendingStep | crates/libsrs_mux/src/lib.rs:82-123 | the start of the pending range and the cue count computed incrementally are the closed forms of the packet count |
| DemuxTheorems.BlockIsRead | crates/libsrs_demux/src/lib.rs:144-161 | a readable block is returned at its own offset with the cursor just behind it |
| DemuxTheorems.PacketsReadBack | crates/libsrs_demux/src/lib.rs:132-161 | reading over any written blocks gives their packets in order |
| DemuxTheorems.WholeFileRoundTrip | crates/libsrs_demux/src/lib.rs:26-161 | for every run within the read limits the finished file gives back header, tracks and packets, numbered 0 to n - 1 |
| DemuxTheorems.RebuiltIndex | crates/libsrs_demux/src/lib.rs:104-130 | rebuilding the index of a finished file gives exactly the writer's entries |
| DemuxTheorems.EntryPointsAtPacket | crates/libsrs_demux/src/lib.rs:61-130 | each entry stands where its packet's block does: reading from there gives that packet and all later ones |
| DemuxTheorems.CutFileIndex | crates/libsrs_demux/src/lib.rs:104-130 | a file cut at a block boundary or inside a block header before its index rebuilds, as a set, exactly the entries of the packets present, whatever the size of the index that was cut away |
| CutTheorems.CutRebuildsExactly | crates/libsrs_demux/src/lib.rs:104-161 | a file cut anywhere in a block can be rebuilt if and only if less than the block's header is left of it; otherwise the file is reported as ending too soon |
| CutTheorems.OversizeIndexFails | crates/libsrs_demux/src/lib.rs:104-181 | with more entries than the reader admits in an index, and no block magic in the probe window behind its start, reading packets and rebuilding both end in the limit error |
| DemuxTheorems.OversizePacketLost | crates/libsrs_mux/src/lib.rs:56-72 | a packet with a payload the writer accepts above the read limit is never among the packets read, from whatever place of whatever file |
| DemuxTheorems.PayloadLimitIsExact | crates/libsrs_mux/src/lib.rs:56-138 | among the runs whose cues and index the reader admits, reading gives back the packets if and only if every payload with its 32 bytes of fields fits the read limit |
| Resync.RetryLandsOnFirstMagic | crates/libsrs_demux/src/lib.rs:163-181 | each retry is strictly further on, at the first block magic behind the failed header inside the probe window |
| Resync.NoGoodHeaderSkipped | crates/libsrs_demux/src/lib.rs:144-181 | a returned block starts at the first place at or after the cursor whose header decodes |
| Resync.DamageIsSkipped | crates/libsrs_container/src/resync.rs:3-11 | damage without a block magic that ends inside the window costs nothing but itself |
| Demux.LatestIsLatest | crates/libsrs_demux/src/lib.rs:61-102 | the chosen entry has the greatest pts not after the target and is the last among equals; none is chosen only if none qualifies |
| Demux.DemuxReader.Open | crates/libsrs_demux/src/lib.rs:26-41 | opening computes the header and track table or the first error |
| Demux.DemuxReader.NextBlock | crates/libsrs_demux/src/lib.rs:144-161 | the mutual recursion with resynchronization terminates and computes the specified block |
| Demux.DemuxReader.TryResyncOrFail | crates/libsrs_demux/src/lib.rs:163-181 | continues at the next magic of the probe or returns the original error |
| Demux.DemuxReader.NextPacket | crates/libsrs_demux/src/lib.rs:132-142 | passes over cues and index blocks; counts one packet exactly when it returns one |
| Demux.DemuxReader.RebuildIndex | crates/libsrs_demux/src/lib.rs:104-130 | the scan's entries become the index and the cursor is put back; after a failed scan, the entries gathered so far and the cursor where it stopped |
| Demux.DemuxReader.Seek | crates/libsrs_demux/src/lib.rs:61-102 | an empty index is rebuilt, then the cursor goes to the latest qualifying entry or stays; a failed rebuild leaves what the scan left |
| Playback.PrimaryIsSmallest | crates/libsrs_app_services/src/playback.rs:308-415 | the primary track has the smallest id among those of the kind and codecs, is described as the first of that id, and is missing only if there is none |
| Playback.PlaybackSession.Open | crates/libsrs_app_services/src/playback.rs:308-415 | the whole initial state: cleared decoder, empty stashes, zero counters, cursor at the data, position zero in the first timescale that is not zero |
| Playback.PlaybackSession.DecodeNextVideoFrame | crates/libsrs_app_services/src/playback.rs:477-512 | the stash, skip and backpressure loop computes the specified state and result |
| Playback.PlaybackSession.DecodeNextAudioChunk | crates/libsrs_app_services/src/playback.rs:514-549 | the same for audio |
| Playback.PlaybackSession.DecodeNextStep | crates/libsrs_app_services/src/playback.rs:551-594 | the file-order loop computes the specified state and event |
| Playback.PlaybackSession.PushStash | crates/libsrs_app_services/src/playback.rs:445-463 | one cap of 64 for both stashes together; a refused packet changes neither |
| Playback.PlaybackSession.StopPlayback | crates/libsrs_app_services/src/playback.rs:739-756 | everything but the file returns to the state of a fresh session |
| Playback.PlaybackSession.SeekVideoKeyframe | crates/libsrs_app_services/src/playback.rs:777-820 | clears stashes and decoder and moves to the chosen entry |
| Playback.PlaybackSession.RecoverDecodeToPts | crates/libsrs_app_services/src/playback.rs:822-857 | the bounded forward decoding with the frame counters restored |
| Playback.PlaybackSession.SeekToMs | crates/libsrs_app_services/src/playback.rs:766-775 | keyframe seek followed by recovery, towards the tick that SeekTimes.TargetMeans relates to milliseconds |
| PlaybackTheorems.CallConserves | crates/libsrs_app_services/src/playback.rs:445-549 | one call of either stream keeps: at most one stash filled, at most 64 packets, nothing lost or reordered on either primary track |
| PlaybackTheorems.RunConserves | crates/libsrs_app_services/src/playback.rs:445-549 | the same over every mix of calls without a failed read or a full stash |
| PlaybackTheorems.VideoCallOverflows | crates/libsrs_app_services/src/playback.rs:445-512 | a frame call fails for full stashes exactly when a packet of the audio track follows as many as fill the stashes, before any video packet and within the skip budget; then 64 are stashed and exactly that one packet is missing |
| PlaybackTheorems.AudioCallOverflows | crates/libsrs_app_services/src/playback.rs:445-549 | the same for an audio call and packets of the video track |
| PlaybackTheorems.RestartConserved | crates/libsrs_app_services/src/playback.rs:739-756 | opening, stopping and seeking establish it |
| SeekTheorems.StartAtKeyframe | crates/libsrs_app_services/src/playback.rs:596-684 | from a packet that decodes independently on, a cleared decoder shows what a decoder that saw everything shows |
| SeekTheorems.StepDecodes | crates/libsrs_app_services/src/playback.rs:551-594 | one step decodes up to the next packet that shows a frame or fails to decode, or to the end, and returns that; it fails otherwise exactly when more hidden packets come than a step may skip |
| SeekTheorems.RecoverDecodes | crates/libsrs_app_services/src/playback.rs:822-857 | recovery stops behind a packet that reaches the target, which shows a frame unless the file has ended there, and before which no shown frame reaches it |
| SeekTheorems.SeekRecovers | crates/libsrs_app_services/src/playback.rs:766-857 | where a successful seek lands: at the latest keyframe not after the target, or behind the first later packet shown at or after it; only at the end of the file may that packet be hidden |
| SeekTheorems.SeekEqualsSequential | crates/libsrs_app_services/src/playback.rs:766-857 | after a successful seek any number of frame calls returns what they return when the file is played from its start |
| SeekTheorems.SeekStepsEqualSequential | crates/libsrs_app_services/src/playback.rs:551-857 | if stepping from the start gets to the landing place, each step after the seek returns what the sequential run returns after as many steps more as frames come before the landing place, failed steps included |
| LicenseTheorems.StepKeepsWellFormed | apps/srs_license_server/src/main.rs:298-1434 | every transaction keeps the tables sound: unique key values and tokens, no dangling license, no untrusted installation, mails consistent |
| LicenseTheorems.RunKeepsWellFormed | apps/srs_license_server/src/main.rs:298-1434 | so every state of every interleaving is sound |
| LicenseTheorems.TrustChangesExactly | apps/srs_license_server/src/main.rs:433-548 | trust in a pair begins, and ends, exactly for the listed reasons, whatever the transaction |
| LicenseTheorems.VerifyInstallations | apps/srs_license_server/src/main.rs:2118-2153 | a verification makes at most one pair trusted: first of its license, approved, or replacement |
| LicenseRuns.RequestStep | apps/srs_license_server/src/main.rs:355-404 | a request is approved only by a confirmation with its own token or by an administrator, and for good |
| LicenseRuns.ApprovalHasOrigin | apps/srs_license_server/src/main.rs:979-1012 | every approval of a run goes back to one of its transactions |
| LicenseRuns.TrustProvenance | apps/srs_license_server/src/main.rs:406-686 | over every run, administrator's steps included, each installation goes back to a verification of its own device that was the first, approved by an earlier transaction, or a replacement |
| LicenseRuns.TrustedBound | apps/srs_license_server/src/main.rs:2064-2070 | over every run: trusted devices of a license <= 1 + approved requests + devices administrators brought back |
| LicenseRuns.TrustedBoundWithoutRevival | apps/srs_license_server/src/main.rs:2064-2070 | without reactivations: trusted devices <= 1 + approved requests |
| LicenseFlows.RevivalBreaksBound | apps/srs_license_server/src/main.rs:1095-1130 | a concrete run with an unchecked reactivation that ends with two trusted devices and no approved request, so the extra term is needed |
| LicenseRuns.RevivalChecked | apps/srs_license_server/src/main.rs:1014-1130 | a reactivation leaves at most one device trusted without an approved request if and only if a check of the rows before it says so |
| LicenseRuns.UnpaidStep | apps/srs_license_server/src/main.rs:298-1434 | every transaction but a reactivation keeps that |
| LicenseRuns.TrustedBoundChecked | apps/srs_license_server/src/main.rs:2064-2070 | over every run in which reactivations were so checked: trusted devices <= 1 + approved requests |
| LicenseRuns.RevivalKeepsBoundExactly | apps/srs_license_server/src/main.rs:1014-1130 | where no approval is left over a reactivation keeps the bound if and only if it passes the check |
| LicenseRuns.LoneRequestsRun | apps/srs_license_server/src/main.rs:2094-2116 | without reopened rows a pair never has two open requests |
| LicenseRuns.PickIsForced | apps/srs_license_server/src/main.rs:2094-2116 | so the latest open request is determined and the database has no tie to break |
| LicenseFlows.VerdictMatchesTrust | apps/srs_license_server/src/main.rs:406-686 | a verification answers entitled exactly when the device is trusted afterwards; a replacement is a fresh license of the same owner that leaves the old license's trust alone; a refusal changes nothing |
| LicenseFlows.ReplacedExactly | apps/srs_license_server/src/main.rs:548-586 | a replacement is issued if and only if the license trusts some device, but not this one, whose latest open request is neither approved nor within its window |
| LicenseFlows.AskedExactly | apps/srs_license_server/src/main.rs:608-685 | a pending request is opened if and only if the license trusts some device, but not this one, and no request of it is open |
| LicenseFlows.OriginIsNotLookedAt | apps/srs_license_server/src/main.rs:406-686 | from another address, operating system or host the same verification gets the same answer and leaves the same tables, but for the origin a new request and its mail name |
| LicenseFlows.OwnerIsAsked | apps/srs_license_server/src/main.rs:608-685 | asking writes one request and one queued mail to the owner, both naming the origin, with a token no other request has |
| LicenseWaits.ConfirmationFlow | apps/srs_license_server/src/main.rs:355-548 | ask, follow the link at any time, also after the window or a replacement, verify again: the device is entitled and, unless the request had been approved before, the mail is closed, with any transactions in between that leave the key usable and the request open and alone |
| LicenseWaits.WaitingFlow | apps/srs_license_server/src/main.rs:548-606 | ask and wait: before the window closes a repeated verification changes nothing, from then on it issues a replacement, with any transactions in between that do not settle the wait |
| LicenseWaits.ReplacementRepeats | apps/srs_license_server/src/main.rs:548-606 | after a replacement, and any transactions that do not settle the request that ran out, the same verification issues another license |
| LicenseWaits.ReplacedUnlessSettled | apps/srs_license_server/src/main.rs:548-606 | after the window, with no other request of the device: the verification behind any one transaction is answered with a replacement if and only if the transaction does not settle the wait |
| LicenseWaits.WaitingStep | apps/srs_license_server/src/main.rs:298-1434 | a wait goes on over a transaction if and only if it does not approve or close the request, disable the key, grant or restore the device's trust, or take away the last trusted device |
| LicenseWaits.HeldStep | apps/srs_license_server/src/main.rs:298-1434 | a request stays usable and the only open one of its device if and only if the transaction does not disable the key, close the request or reopen another |
| LicenseWaits.ApprovedVerified | apps/srs_license_server/src/main.rs:508-547 | an approved request entitles its device whatever the clock says, replaced before or not |
| NotificationTheorems.EmailCases | apps/srs_license_server/src/main.rs:1284-1346 | every way a transaction can change a mail that exists |
| NotificationTheorems.EmailStep | apps/srs_license_server/src/main.rs:1401-1434 | no transaction changes a mail's text, revives a deleted one or moves its first sent and delivered times |
| NotificationTheorems.ReturnedAtMostOnce | apps/srs_license_server/src/main.rs:1284-1346 | over every interleaving, late marks included, a notification is read out at most once |
| NotificationTheorems.ReturnedOrWaiting | apps/srs_license_server/src/main.rs:1284-1346 | a sent notification is read out exactly once or is still waiting at the end |
| NotificationTheorems.ReadReturnsAllWaiting | apps/srs_license_server/src/main.rs:1284-1346 | a read with a usable key of the license returns exactly what is waiting for it |
| NotificationTheorems.DeliveredWasSent | apps/srs_license_server/src/main.rs:1401-1434 | in every state delivered implies sent, and deleted means read |
| NotificationTheorems.LateMarkHidesRead | apps/srs_license_server/src/main.rs:1401-1434 | over every legal continuation: the notification state of a mail that was read still says so if and only if it did and no operation since marks it |
| LicenseServer.Database.VerifyKey | apps/srs_license_server/src/main.rs:406-686 | the branches in source order compute the verification transaction, with the claimed address or else that of the connection; the mail to send is the one it queued |
| LicenseServer.Database.FindPendingRequest | apps/srs_license_server/src/main.rs:2094-2116 | some latest open request of the pair, or none if there is none |
| LicenseServer.Database.CountTrustedInstallations | apps/srs_license_server/src/main.rs:2064-2070 | the number of trusted active devices |
| LicenseServer.Database.FindActiveKeyRow | apps/srs_license_server/src/main.rs:2012-2032 | the one usable key of this value |
| LicenseServer.Database.IssueLicense | apps/srs_license_server/src/main.rs:298-353 | the transaction of issuing |
| LicenseServer.Database.IssueReplacementLicense | apps/srs_license_server/src/main.rs:2191-2248 | a new license of the same owner, its key and a trusted installation |
| LicenseServer.Database.ConfirmRequest | apps/srs_license_server/src/main.rs:355-404 | the transaction of following a link |
| LicenseServer.Database.ApproveRequestById | apps/srs_license_server/src/main.rs:979-1012 | the administrator's approval, which leaves mails alone |
| LicenseServer.Database.SetLicenseRecordState | apps/srs_license_server/src/main.rs:1014-1060 | license, keys, installations and requests change state together; LicenseRecords.LicenseStateReaches and KeyWorksExactly state what becomes of the rows and of the keys |
| LicenseServer.Database.CreateNotification | apps/srs_license_server/src/main.rs:1218-1268 | validation order and the queued mail |
| LicenseServer.Database.ReadClientNotifications | apps/srs_license_server/src/main.rs:1284-1346 | returns what is waiting, each once, oldest first, and closes exactly those rows |
| LicenseServer.Database.MarkNotificationSent | apps/srs_license_server/src/main.rs:1401-1416 | the first sent time is kept |
| LicenseServer.Database.MarkNotificationDelivered | apps/srs_license_server/src/main.rs:1418-1434 | the first sent and delivered times are kept |
| VideoTheorems.TokenRead | crates/libsrs_video/src/codec.rs:210-218 | a difference token is read back as its difference whatever follows |
| VideoTheorems.BlockRoundTrip | crates/libsrs_video/src/codec.rs:123-198 | a block's tokens decode to its samples and leave the rest of the payload alone, with any pending run |
| VideoTheorems.BlocksPartition | crates/libsrs_video/src/codec.rs:200-208 | every pixel index is listed by exactly one clipped block, and once |
| VideoTheorems.WalkIsComplete | crates/libsrs_video/src/codec.rs:123-150 | the walk over the blocks reaches every pixel index |
| VideoTheorems.WalkHasNoRepeats | crates/libsrs_video/src/codec.rs:123-150 | and no index twice |
| VideoTheorems.VideoRoundTrip | crates/libsrs_video/src/codec.rs:45-107 | exactly which frames are accepted; each comes back identical from at most 5 + 3 x width x height bytes |
| VideoTheorems.ShortestBlock | crates/libsrs_video/src/codec.rs:152-228 | whatever tokens a block is decoded from, the encoder spends no more bytes on its samples |
| VideoTheorems.ShortestPayload | crates/libsrs_video/src/codec.rs:45-107 | no payload that decodes to a frame is shorter than the encoder's |
| VideoCodec.FlushZeroRun | crates/libsrs_video/src/codec.rs:220-226 | the chunk loop |
| VideoCodec.EncodeResidualBlocks | crates/libsrs_video/src/codec.rs:109-150 | the nested loops append the tokens of all blocks, or refuse a buffer of the wrong length |
| VideoCodec.BlockPositions | crates/libsrs_video/src/codec.rs:200-208 | the position list of a clipped block |
| VideoCodec.DecodeBlockInto | crates/libsrs_video/src/codec.rs:161-195 | the token loop writes the block's samples in place or reports the first error |
| VideoCodec.DecodeResidualBlocks | crates/libsrs_video/src/codec.rs:152-198 | the buffer and cursor after success are those specified |
| VideoCodec.EncodeVideoFrame | crates/libsrs_video/src/codec.rs:45-61 | the frame encoder with its checks in order |
| VideoCodec.DecodeVideoFrame | crates/libsrs_video/src/codec.rs:63-107 | the frame decoder with its checks in order |
| BitSpec.FieldsRoundTrip | crates/libsrs_bitio/src/bit_io.rs:49-144 | any list of fields that fit: ceil(total / 8) bytes, zero padding, and the same widths read back the same values |
| BitSpec.PackedBits | crates/libsrs_bitio/src/bit_io.rs:138-144 | packing loses no bit and adds only zeros |
| BitIo.TakeBits | crates/libsrs_bitio/src/bit_io.rs:115-126 | moving bits from the value to the accumulator moves them in the bit string and shifts nothing out |
| BitIo.BitAt | crates/libsrs_bitio/src/bit_io.rs:58-63 | the shift and mask of the reader give the bit at the cursor |
| BitIo.BitWriter.Write | crates/libsrs_bitio/src/bit_io.rs:107-135 | appends exactly the low n bits, or refuses and changes nothing |
| BitIo.BitWriter.Finish | crates/libsrs_bitio/src/bit_io.rs:138-144 | the bytes are the packing of everything written |
| BitIo.BitReader.Read | crates/libsrs_bitio/src/bit_io.rs:49-66 | the next n bits as a number and the cursor behind them, or an error that leaves the cursor |
| BitIo.BitReader.Skip | crates/libsrs_bitio/src/bit_io.rs:68-74 | moves by n or refuses |
| BitIo.BitReader.AlignByte | crates/libsrs_bitio/src/bit_io.rs:77-83 | always reaches the next byte boundary, less than a byte away |
| BitIo.BitReader.AdvanceBytes | crates/libsrs_bitio/src/bit_io.rs:35-46 | moves by whole bytes from a boundary or refuses |
| Varint.GroupsAreDigits | crates/libsrs_bitio/src/varint.rs:9-26 | group i of an encoding is bits 7i to 7i + 6 of the value, and the last group leaves nothing over |
| Varint.U64RoundTrip | crates/libsrs_bitio/src/varint.rs:9-46 | every 64-bit value comes back with its exact length, at most ten, whatever follows |
| Varint.AcceptedIsU64 | crates/libsrs_bitio/src/varint.rs:28-46 | everything accepted is a 64-bit value in at most ten bytes and no fewer than the encoder uses |
| Varint.PrefixFree | crates/libsrs_bitio/src/varint.rs:9-46 | a stream of encodings can be cut in one way only |
| Varint.ZigzagBijection | crates/libsrs_bitio/src/varint.rs:48-56 | the shift and exclusive-or interleave the signs and undo each other |
| Varint.I64RoundTrip | crates/libsrs_bitio/src/varint.rs:58-65 | every signed 64-bit value comes back with its exact length |
| Varint.StreamOfVarints | crates/libsrs_bitio/src/varint.rs:9-46 | a sequence of encodings decodes to its numbers |
| Varint.EncodeU64Into | crates/libsrs_bitio/src/varint.rs:9-26 | the loop appends the encoding and never reports it too long |
| Varint.DecodeU64 | crates/libsrs_bitio/src/varint.rs:28-46 | the accumulating loop computes the specified value, length or error |
| Varint.ReadU64FromBits | crates/libsrs_bitio/src/varint.rs:68-80 | from a byte boundary the cursor advances by exactly the encoding's bytes; otherwise it stays |
| Varint.ReadI64FromBits | crates/libsrs_bitio/src/varint.rs:83-86 | the same for signed values |
| BlockAqSpec.CauchySchwarz | crates/libsrs_video/src/srsv2/block_aq.rs:59-76 | n times the sum of squares is at least the square of the sum |
| BlockAqSpec.VarianceNeverUnderflows | crates/libsrs_video/src/srsv2/block_aq.rs:75-77 | the unsigned subtraction of the floored terms never underflows and needs 16 bits |
| BlockAqSpec.VarianceError | crates/libsrs_video/src/srsv2/block_aq.rs:75-77 | exactly how far the computed value is from the true variance |
| BlockAqSpec.MedianSplits | crates/libsrs_video/src/srsv2/block_aq.rs:80-91 | at most half of the values are above the median and at most half below |
| BlockAqSpec.SortSorts | crates/libsrs_video/src/srsv2/block_aq.rs:84 | the sorted values are ordered and a permutation |
| BlockAqSpec.DeltaMonotone | crates/libsrs_video/src/srsv2/block_aq.rs:97-113 | a busier block never gets a larger delta |
| BlockAqSpec.DeltaSign | crates/libsrs_video/src/srsv2/block_aq.rs:97-113 | a negative delta means above the median, a positive one below it |
| BlockAqSpec.DeltaThreshold | crates/libsrs_video/src/srsv2/block_aq.rs:97-113 | a delta leaves zero exactly when the distance from the median, scaled by the strength, reaches 4 x median + 1 |
| BlockAqSpec.HalfAndHalf | crates/libsrs_video/src/srsv2/block_aq.rs:97-132 | at most half of a plane's blocks get a negative delta; at most half a positive one exactly when the median is not zero, the strength is below five, no positive delta is allowed or at most half of the blocks are flat |
| BlockAqSpec.ZeroMedian | crates/libsrs_video/src/srsv2/block_aq.rs:97-113 | with a zero median a delta is positive exactly for a flat block at strength five or more with a positive bound |
| BlockAqSpec.ZeroMedianCounts | crates/libsrs_video/src/srsv2/block_aq.rs:97-113 | so with a zero median the coarsened blocks are all the flat ones or none |
| BlockAq.ConstantPlaneIsFlat | crates/libsrs_video/src/srsv2/block_aq.rs:52-132 | a constant plane of whole tiles, or of the padding value, has only zero variances |
| BlockAq.ConstantPlaneAllCoarsened | crates/libsrs_video/src/srsv2/block_aq.rs:52-132 | so on such a plane every block is coarsened once the strength reaches five |
| BlockAqSpec.QpInRange | crates/libsrs_video/src/srsv2/block_aq.rs:38-49 | the effective QP stays in any valid clip range, follows the delta inside it and grows with it |
| BlockAqSpec.BusierIsFiner | crates/libsrs_video/src/srsv2/block_aq.rs:38-113 | of two blocks of a plane the busier is never quantised more coarsely |
| BlockAq.ComputeBlockVariance | crates/libsrs_video/src/srsv2/block_aq.rs:52-78 | the accumulator loops compute the variance of the padded tile, for any width and height the caller passes |
| BlockAq.MedianU32 | crates/libsrs_video/src/srsv2/block_aq.rs:80-91 | sorts in place and returns the median of the values given |
| BlockAq.CollectPlaneBlockVariances | crates/libsrs_video/src/srsv2/block_aq.rs:116-132 | the tile variances in raster order and their median |
| BlockAq.PlaneDeltas | crates/libsrs_video/src/srsv2/block_aq.rs:97-132 | the deltas of one plane; at most half are negative, and exactly when at most half are positive |
| BlockAq.ValidateWireDelta | crates/libsrs_video/src/srsv2/block_aq.rs:29-34 | accepts exactly -24 to 24 |
| BlockAq.ValidateClipRange | crates/libsrs_video/src/srsv2/block_aq.rs:44-49 | accepts exactly the ranges the effective QP needs |
| RansCoder.EncodeSymbol | crates/libsrs_bitio/src/rans.rs:97-120 | one turn of the encoder loop is one encoding step; the overflow branch is never taken |
| RansCoder.PopSymbol | crates/libsrs_bitio/src/rans.rs:145-152 | the lookup and the wrapping recombination give the exact integer result |
| AudioCodec.ComputeResiduals | crates/libsrs_audio/src/codec.rs:264-273 | the residual loop, which gives up exactly when a residual leaves 16 bits |
| Mux.MuxWriter.WriteIndex | crates/libsrs_mux/src/lib.rs:130-138 | exactly when it succeeds; the index block then holds the entries of the blocks written, and failure changes nothing |
| Demux.SelectLatest | crates/libsrs_demux/src/lib.rs:61-102 | the selection loop returns the latest qualifying entry |
| Demux.DemuxReader.ResetToDataStart | crates/libsrs_demux/src/lib.rs:55-59 | cursor and packet count start over |
| Playback.PlaybackSession.DecodeVideoPacket | crates/libsrs_app_services/src/playback.rs:596-684 | flags first, then the decoder; position and count move only on success |
| Playback.PlaybackSession.DecodeAudioPacket | crates/libsrs_app_services/src/playback.rs:686-724 | the same for audio |
| Playback.PlaybackSession.UpdatePosition | crates/libsrs_app_services/src/playback.rs:469-475 | a zero timescale leaves the old one |
| Playback.PlaybackSession.Play | crates/libsrs_app_services/src/playback.rs:726-731 | no playing out of the end or an error |
| Playback.PlaybackSession.Pause | crates/libsrs_app_services/src/playback.rs:733-737 | only a playing session pauses |
| LicenseServer.Database.SetActive | apps/srs_license_server/src/main.rs:947-977 | one key's active flag, or key not found |
| LicenseServer.Database.SetKeyRecordState | apps/srs_license_server/src/main.rs:1062-1093 | one key's record state |
| LicenseServer.Database.SetInstallationRecordState | apps/srs_license_server/src/main.rs:1095-1130 | one installation's record state |
| LicenseServer.Database.SetRequestRecordState | apps/srs_license_server/src/main.rs:1132-1163 | one request's record state |
| LicenseServer.Database.UpsertTrustedInstallation | apps/srs_license_server/src/main.rs:2118-2153 | inserted, or on conflict trusted and active again |
| LicenseServer.Database.EnqueueEmail | apps/srs_license_server/src/main.rs:2250-2267 | one queued mail under a fresh id |
| VideoCodec.WriteDeltaToken | crates/libsrs_video/src/codec.rs:210-218 | one byte for small differences, an escape and two bytes otherwise |
| VideoCodec.WriteRun | crates/libsrs_video/src/codec.rs:168-178 | the run is written in place, and fails exactly when it is longer than the rest of the block |
| VideoCodec.ReadU8 | crates/libsrs_video/src/codec.rs:228-235 | the next byte, or truncation |
| VideoCodec.ReadI16 | crates/libsrs_video/src/codec.rs:237-245 | the next literal, or truncation |
| Varint.EncodeI64Into | crates/libsrs_bitio/src/varint.rs:58-60 | appends the encoding of the zigzag value |
| Varint.DecodeI64 | crates/libsrs_bitio/src/varint.rs:62-65 | the zigzag value of the decoded number, or its error |
| CodingTheorems.StepMeans | crates/libsrs_bitio/src/rans.rs:97-120 | encoding a symbol of frequency f sheds the fewest low bytes that bring the state below 524288 f; the new state divided by 4096 is the old one divided by f, its remainder the first slot of the symbol plus the remainder by f |
| CodingTheorems.DecodeStepMeans | crates/libsrs_bitio/src/rans.rs:145-168 | the slot is the state modulo 4096 and lies in the interval of the symbol; the state after is at least 2^23, every byte absorbed costs one step, and without one the state is f times the quotient plus the place in the interval |
| CodingTheorems.StreamStarts | crates/libsrs_bitio/src/rans.rs:91-126 | a stream begins with the final state in four bytes, least significant first, and coding starts from 2^23 |
| CodingTheorems.FirstSymbol | crates/libsrs_bitio/src/rans.rs:130-173 | the first symbol returned owns the slot that the first four bytes give modulo 4096: symbols come in coding order |
| CodingTheorems.ContextsChoose | crates/libsrs_bitio/src/rans.rs:252-302 | position i of a multi-context stream is decoded with the model that context i names |
| PredictionTheorems.PredictionMeans | crates/libsrs_audio/src/codec.rs:234-242 | while no partial sum leaves 32 bits: 0 <= dot - 4096 prediction < 4096, with dot the sum of tap k times the sample k + 1 places back |
| PredictionTheorems.SaturatedPrediction | crates/libsrs_audio/src/codec.rs:234-242 | where all products have one sign and the sum leaves 32 bits, the prediction is 2^19 - 1 or -2^19 |
| PredictionTheorems.RebuiltSamples | crates/libsrs_audio/src/codec.rs:400-426 | every rebuilt sample is its residual plus the prediction from the rebuilt samples before it |
| PredictionTheorems.UnitTapChannel | crates/libsrs_audio/src/codec.rs:313-426 | a channel with the single tap 4096 decodes to its warm-up sample and the running sums of its residuals |
| PredictionTheorems.HighestOrder | crates/libsrs_audio/src/codec.rs:244-280 | the order taken is usable and no higher one is |
| AudioLayout.FrameLayout | crates/libsrs_audio/src/codec.rs:45-68 | byte by byte: instants in 32 bits, channels, the characters R2, and each channel behind its size in 32 bits |
| AudioLayout.ChannelForm | crates/libsrs_audio/src/codec.rs:244-312 | a channel is coded by prediction exactly if a usable order was found |
| AudioLayout.RawLayout | crates/libsrs_audio/src/codec.rs:244-312 | byte by byte: mode 0, size, samples in two's complement |
| AudioLayout.PredictedLayout | crates/libsrs_audio/src/codec.rs:244-312 | byte by byte: mode 1, order, taps, first samples, and the size and bytes of the rANS stream of the residuals' bytes under 256 equal shares |
| AudioLayout.RawAccepted | crates/libsrs_audio/src/codec.rs:313-345 | an accepted raw channel holds exactly the samples returned, and nothing else |
| AudioLayout.PredictedAccepted | crates/libsrs_audio/src/codec.rs:346-426 | an accepted predicted channel: order 1 to 8, taps and first samples at their places, a stream that decodes to the residuals' bytes, and each sample its prediction plus its residual |
| AudioLayout.BudgetIs | crates/libsrs_audio/src/codec.rs:391-399 | the budget is 32 times the stream's size or 4 times its symbols, whichever is more, within 64 bits |
| AudioLayout.Versions | crates/libsrs_audio/src/codec.rs:95-152 | version 1 is always read as legacy, version 2 never, any other by the two characters R2 |
| AudioLayout.PredictedRefused | crates/libsrs_audio/src/codec.rs:346-400 | which predicted channels are refused before their stream is decoded, and with which error |
| AudioLayout.RawRefused | crates/libsrs_audio/src/codec.rs:313-345 | which raw channels are refused, and with which error |
| AudioLayout.ChannelsRefused | crates/libsrs_audio/src/codec.rs:154-192 | a truncated size, a truncated channel and a refused channel end the frame |
| LayoutTheorems.HeaderLayout | crates/libsrs_container/src/io.rs:35-82 | where each field of an encoded file header stands, byte by byte, for both magics |
| LayoutTheorems.TrackLayout | crates/libsrs_container/src/io.rs:153-172 | the same for a track descriptor |
| LayoutTheorems.EntriesAtTheirPlaces | crates/libsrs_container/src/io.rs:325-331 | entry i of a cue or index stands at 28 i, with its five fields byte by byte |
| LayoutTheorems.BlockLayout | crates/libsrs_container/src/io.rs:205-455 | where each field of an encoded packet, cue or index block stands, byte by byte, with both checksums and what they cover |
| AcceptTheorems.PacketAccepted | crates/libsrs_container/src/io.rs:282-323 | a body accepted as a packet is the encoding of that packet |
| AcceptTheorems.CueAccepted | crates/libsrs_container/src/io.rs:389-414 | the same for a cue |
| AcceptTheorems.IndexAccepted | crates/libsrs_container/src/io.rs:440-455 | the same for an index |
| AcceptTheorems.FileHeaderAccepted | crates/libsrs_container/src/io.rs:84-151 | an accepted file header is the encoding of what is returned, but for two reserved bytes |
| AcceptTheorems.TrackAccepted | crates/libsrs_container/src/io.rs:174-203 | an accepted track descriptor is the encoding of what is returned, but for a reserved byte |
| AcceptTheorems.ReturnedBlockStands | crates/libsrs_demux/src/lib.rs:144-181 | from whatever file and cursor: a block that is returned stands at its offset, both checksums match the bytes they cover, and the body is its encoding |
| DamageTheorems.AlteredBodyRefused | crates/libsrs_container/src/io.rs:457-479 | a block whose header stands but whose body has another checksum is refused with both checksums |
| DamageTheorems.AlteredFile | crates/libsrs_demux/src/lib.rs:132-161 | a finished file with one body altered, so that its checksum differs, gives out the packets before it and then the checksum error |
| RefusalTheorems.HeaderEncodable | crates/libsrs_container/src/io.rs:35-72 | exactly which file headers are encoded |
| RefusalTheorems.BlockEncodable | crates/libsrs_container/src/io.rs:255-438 | exactly which packets, cues and indexes are encoded |
| RefusalTheorems.FieldsRefused | crates/libsrs_container/src/io.rs:84-151 | the fields of a file header are refused for the version, then the length, then the version against the magic, then the number of tracks |
| RefusalTheorems.MagicDecides | crates/libsrs_container/src/io.rs:84-111 | which of the two magics decides the layout, and what any other bytes lead to |
| RefusalTheorems.TrackRefused | crates/libsrs_container/src/io.rs:174-203 | exactly which track descriptors are refused, with which error and cursor |
| RefusalTheorems.PacketRefused | crates/libsrs_container/src/io.rs:282-323 | exactly which packet bodies are refused, and with which error |
| RefusalTheorems.CueRefused | crates/libsrs_container/src/io.rs:389-414 | the same for cues |
| RefusalTheorems.IndexRefused | crates/libsrs_container/src/io.rs:440-455 | the same for indexes |
| RefusalTheorems.BlockHeaderRefused | crates/libsrs_container/src/io.rs:222-253 | a block header is refused for the end of the file, the magic, the checksum, the type and the length, in this order, with the cursor behind what was read |
| RefusalTheorems.BodyRefused | crates/libsrs_container/src/io.rs:457-479 | a body is refused for its size, the end of the file or its checksum, and otherwise returned |
| RefusalTheorems.VersionDecidesChecksum | crates/libsrs_container/src/io.rs:22-34 | blocks of version 1 files are guarded by CRC-32, of version 2 files by CRC-32C, when written and when read |
| InputTheorems.InputsComeBack | crates/libsrs_mux/src/lib.rs:56-138 | a finished file gives back one packet for each call, in order, with the track, times, keyframe flag and payload of the call and its number, and an index entry that says the same |
| CueTheorems.FinishedInOrder | crates/libsrs_mux/src/lib.rs:56-138 | packet k stands behind k / interval cues, cue j right behind the last packet of interval j with id j, that interval's first number and a copy of its entries; then the cue for a rest, and the index of all packets |
| CueTheorems.FinishedWithoutIntervals | crates/libsrs_mux/src/lib.rs:56-138 | without an interval the packets, one cue for all of them, and the index |
| SeekTimes.TargetMeans | crates/libsrs_app_services/src/playback.rs:766-790 | the target tick t: 1000 t <= ms x timescale < 1000 (t + 1), a timescale of zero counting as one, products beyond 64 bits as the greatest |
| SeekTimes.SeekLandsInTime | crates/libsrs_app_services/src/playback.rs:766-857 | a successful seek lands on the last keyframe of the video track whose pts x 1000 is not above ms x timescale, for the intra codec also the last packet in time if there is none, and plays on to a packet whose next tick is |
| PlaybackCalls.VideoPacketDecoded | crates/libsrs_app_services/src/playback.rs:596-684 | configuration packets are passed over and corrupt ones refused, both undecoded; otherwise what moves and what stays |
| PlaybackCalls.AudioPacketDecoded | crates/libsrs_app_services/src/playback.rs:686-724 | the same for audio |
| PlaybackCalls.StepCounts | crates/libsrs_app_services/src/playback.rs:551-594 | a step counts what it returns, sets the mode exactly at the end of the file, and leaves the stashes alone |
| PlaybackCalls.VideoCallCounts | crates/libsrs_app_services/src/playback.rs:477-512 | a frame call counts the frame it shows and sets no mode |
| PlaybackCalls.AudioCallCounts | crates/libsrs_app_services/src/playback.rs:514-549 | an audio call counts its chunk and sets no mode |
| PlaybackCalls.FullAt64 | crates/libsrs_app_services/src/playback.rs:445-512 | a frame call that fails for full stashes leaves 64 packets in them |
| PlaybackCalls.Budgets | crates/libsrs_app_services/src/playback.rs:477-857 | a call reads at most 65536 packets, and a seek decodes at most 8192 steps |
| PlaybackCalls.StoppedIsFresh | crates/libsrs_app_services/src/playback.rs:739-756 | after a stop every field is that of a session just opened, but for the timescale |
| PlaybackCalls.KeyframeSeekCases | crates/libsrs_app_services/src/playback.rs:777-820 | what a keyframe seek changes when it is refused, when it fails and when it succeeds |
| PlaybackCalls.KeyframeSeekFails | crates/libsrs_app_services/src/playback.rs:777-820 | exactly when a keyframe seek in a file with an index fails, and with which error |
| PlaybackCalls.SeekSucceeds | crates/libsrs_app_services/src/playback.rs:766-857 | exactly when a seek succeeds, and the error of every other one |
| PlaybackCalls.SeekKeepsCounters | crates/libsrs_app_services/src/playback.rs:766-857 | a successful seek leaves the counters as they were and the position at the target or behind it |
| LicenseRecords.KeyWorksExactly | apps/srs_license_server/src/main.rs:298-1434 | a key is usable after a transaction if and only if it was and is not stopped, or was enabled by setting it active, its state or its license's state, the other conditions holding, or is new |
| LicenseRecords.LicenseStateReaches | apps/srs_license_server/src/main.rs:1014-1060 | exactly which rows take the new state of a license; no other field or row is written |
| LicenseRecords.SingleRowWritten | apps/srs_license_server/src/main.rs:947-1163 | each of the other administrator's transactions writes one field of one row, or refuses |
| LicenseRecords.IssuedRows | apps/srs_license_server/src/main.rs:298-353 | issuing writes one license of the owner and one key that works |
| LicenseRecords.AskedRows | apps/srs_license_server/src/main.rs:608-685 | the request that asking writes: device, key, token, approval and end of its window |
| LicenseRecords.ReplacedRows | apps/srs_license_server/src/main.rs:548-586 | a replacement writes a license of the same owner, its key, a trusted installation, and on the request which license it was |
| LicenseRecords.ConfirmedRows | apps/srs_license_server/src/main.rs:355-404 | a first confirmation writes the time of approval; a second one, or an unknown token, nothing |
| LicenseRecords.ConfirmedMails | apps/srs_license_server/src/main.rs:355-404 | it closes exactly the mails of its request that are not deleted |
| LicenseRecords.ApprovedRows | apps/srs_license_server/src/main.rs:979-1012 | an administrator's approval writes the time and leaves mails alone |
| LicenseRecords.TrimTakesEnds | apps/srs_license_server/src/main.rs:1218-1240 | trimming takes all white space from both ends and nothing from inside |
| LicenseRecords.NotificationRows | apps/srs_license_server/src/main.rs:1218-1268 | a notification is refused for the first of its flaws, and otherwise queued with its trimmed subject and body |
| LicenseRecords.MarkedRows | apps/srs_license_server/src/main.rs:1401-1434 | the first mark writes the time, later ones keep it |
| LicenseRecords.ReadRows | apps/srs_license_server/src/main.rs:1284-1346 | a read writes its time on exactly the mails it returns |
| LicenseRecords.ClaimedAddressFirst | apps/srs_license_server/src/main.rs:406-430 | the address recorded is the claimed one, or else that of the connection |
| VideoWire.DecodedTokens | crates/libsrs_video/src/codec.rs:152-198 | whatever a block is decoded from are tokens, and its samples the running sums of their differences |
| VideoWire.TokensDecode | crates/libsrs_video/src/codec.rs:152-198 | conversely every list of tokens is decoded to the running sums of its differences, if these are bytes |
| VideoWire.PayloadMeans | crates/libsrs_video/src/codec.rs:63-107 | an accepted payload is the byte 8, the frame's size in 32 bits, and the tokens of its 8x8 blocks in raster order, each summed up from 128, with nothing behind the last |
| VideoWire.MeansPayload | crates/libsrs_video/src/codec.rs:63-107 | conversely every such payload is decoded to that frame |
| VideoWire.EncodingRefused | crates/libsrs_video/src/codec.rs:45-61 | exactly which frames are refused, and with which error |
| VideoWire.PayloadRefused | crates/libsrs_video/src/codec.rs:63-107 | which payloads are refused before a block is decoded, with which error, and when bytes are left over |
| VideoWire.TokenRefused | crates/libsrs_video/src/codec.rs:152-198 | too few bytes, a run past the end of the block, and a sum that is no byte are refused |
| BitSpec.BitPlace | crates/libsrs_bitio/src/bit_io.rs:107-126 | bit i of n is the coefficient of 2 to the power n - 1 - i |
| BitSpec.BytePlace | crates/libsrs_bitio/src/bit_io.rs:49-66 | bit j of byte i, most significant first, is bit 8 i + j of the string |
| Varint.AcceptedExactly | crates/libsrs_bitio/src/varint.rs:28-46 | a number is accepted with n bytes if and only if only the last of them is below 128, n is at most ten, and the tenth at most 1; every other input is an invalid varint |
| Varint.AcceptedGroups | crates/libsrs_bitio/src/varint.rs:28-46 | group i of an accepted number is the low seven bits of byte i |
| BlockAqSpec.MedianIsMiddle | crates/libsrs_video/src/srsv2/block_aq.rs:80-91 | however the values are sorted, the median is the middle one, or the floor of the mean of the middle two |
| BlockAqSpec.DeltaRounds | crates/libsrs_video/src/srsv2/block_aq.rs:97-113 | a delta inside its bounds is the scaled distance from the median over 4 x median + 1, its sign turned, rounded towards zero |
| BlockAq.TileSample | crates/libsrs_video/src/srsv2/block_aq.rs:59-74 | sample k of a tile is that of the plane in row k / 8 and column k % 8 of the tile, or 128 outside the plane |
| BlockAq.RasterOrder | crates/libsrs_video/src/srsv2/block_aq.rs:116-128 | the variance of the tile in row y and column x stands at y x columns + x |
| BlockAqSpec.QpIsLegal | crates/libsrs_video/src/srsv2/block_aq.rs:36-42 | the effective QP is 1 to 51 whatever the clip range |

## Left out

- Float analysis (`autocorr_i16`, `levinson_durbin`): a parameter that returns nothing or p taps; losslessness does not depend on it.
- Checksum, hash, signature, base64, JSON and UUID algorithms: parameters or fresh ids.
- Legacy version 1 audio parsing: a parameter; no encoder for it exists.
- SRSV2 video syntax and its reference manager: the abstract decoder step of the playback model.
- Error texts: abbreviated to their distinguishing part; wrapped errors keep the inner one only.
- A failed read of the file leaves the cursor at its end in the model; `std::io` leaves it unspecified. The resynchronization probe is assumed to return all bytes up to its 8192 or the end of the file, where `Read::read` may return fewer.
- Storage errors other than running out of 64-bit positions, and flushing.
- Playback.PlaybackSession.Open: starts from an opened demuxer with its index; file extension, codec configuration and dimension checks, `duration_ms` and `last_error` are not modelled. Codec-specific fields of decoded frames are part of the abstract frame.
- `decode_next_step` mixed with the per-stream calls: it ignores the stashes, so conservation is stated for the two per-stream calls.
- Seeking with audio and video of different timescales, which the source compares directly: the seek theorems are for one video track.
- `apply_command` and `pump_file_order`: dispatch over the operations modelled.
- License features, signed envelopes, session secrets, the last-seen address and system of an installation, audit rows, unsupported-playback rows, and the times of state changes: none of them decides trust or delivery.
- LicenseServer.Database.SetInstallationRecordState: finds the installation by its (license, device) pair, which is unique, instead of by its row id.
- LicenseServer.Database.VerifyKey and LicenseServer.Database.CreateNotification: end with their commit; the marks that the source makes afterwards are the two mark methods, since other requests may run in between.
- HTTP handlers, pages, SMTP, schema migration, configuration, command line, user interfaces, the licensing client.
- VideoCodec: stream and packet framing around the frame payload.
- BitIo.BitReader and BitIo.BitWriter: slices longer than 2^60 bytes, where the bit count saturates; the unreachable check for a zero-bit step.
- The collection of sub-block variances for P frames and the later choice among their deltas.
- FFmpeg and HEVC comparison, sweeps, progress reports, PSNR and SSIM: foreign processes or floating point.
