/**
 Resynchronization after a bad block header: where the retries land, and what they cannot miss.
 */
module Resync {
  import opened Wrappers
  import opened Bytes
  import opened ContainerFormat
  import opened ContainerIo
  import opened ContainerTheorems
  import opened DemuxSpec
  import opened MuxSpec
  import opened DemuxTheorems

  /** The header at `pos` is wrong, as opposed to missing at the end of the file. */
  ghost predicate BadHeader(f: File, pos: nat) {
    var r := BlockHeaderAt(f.cs, f.useCrc32c, f.data, pos).0;
    r.Failure? && r.error != UnexpectedEof
  }

  ghost predicate GoodHeader(f: File, pos: nat) {
    BlockHeaderAt(f.cs, f.useCrc32c, f.data, pos).0.Success?
  }

  lemma ProbeSees(f: File, pos: nat, q: nat)
    requires pos <= q && q + 4 <= pos + |Probe(f, pos)|
    ensures HasAt(Probe(f, pos), q - pos, BLOCK_MAGIC) <==> HasAt(f.data, q, BLOCK_MAGIC)
  {
    assert Probe(f, pos)[q - pos..q - pos + 4] == f.data[q..q + 4];
  }

  ghost predicate NoMagicBetween(f: File, from: nat, to: int) {
    forall q :: from < q < to ==> !HasAt(f.data, q, BLOCK_MAGIC)
  }

  /**
   One retry: reading starts over at the first block magic behind the bad header that lies within
   the probe window, strictly further on; without one the original error is the outcome.
   */
  lemma RetryLandsOnFirstMagic(f: File, pos: nat)
    requires BadHeader(f, pos)
    ensures match FindNextBlockMagic(Probe(f, pos), 1)
            case Some(i) =>
              && NextBlockAt(f, pos) == NextBlockAt(f, pos + i)
              && 1 <= i <= RESYNC_PROBE_BYTES - 4
              && HasAt(f.data, pos + i, BLOCK_MAGIC)
              && NoMagicBetween(f, pos, pos + i)
            case None =>
              && NextBlockAt(f, pos).0 == Failure(BlockHeaderAt(f.cs, f.useCrc32c, f.data, pos).0.error)
              && NoMagicBetween(f, pos, pos + |Probe(f, pos)| - 3)
  {
    hide BlockHeaderAt, Probe;
    var probe := Probe(f, pos);
    ProbeLength(f, pos);
    forall q | pos < q && q + 4 <= pos + |probe|
      ensures HasAt(probe, q - pos, BLOCK_MAGIC) <==> HasAt(f.data, q, BLOCK_MAGIC)
    {
      ProbeSees(f, pos, q);
    }
  }

  lemma ProbeLength(f: File, pos: nat)
    requires BadHeader(f, pos)
    ensures 16 <= |Probe(f, pos)| <= RESYNC_PROBE_BYTES
  {
  }

  /**
   A block that is returned starts at the first place at or after the cursor whose header decodes:
   resynchronizing never goes back and never passes over a good header.
   */
  lemma {:induction false} NoGoodHeaderSkipped(f: File, pos: nat)
    requires NextBlockAt(f, pos).0.Success? && NextBlockAt(f, pos).0.value.Some?
    ensures var start := NextBlockAt(f, pos).0.value.value.offset;
            && pos <= start
            && GoodHeader(f, start)
            && forall q :: pos <= q < start ==> !GoodHeader(f, q)
    decreases if pos < |f.data| then |f.data| - pos else 0
  {
    hide BlockHeaderAt, Probe, BlockAfterHeader, FindNextBlockMagic, HasAt;
    if BadHeader(f, pos) {
      RetryLandsOnFirstMagic(f, pos);
      ProbeLength(f, pos);
      var i := FindNextBlockMagic(Probe(f, pos), 1).value;
      NoGoodHeaderSkipped(f, pos + i);
      NoMagicNoHeader(f, pos, pos + i);
    }
  }

  lemma NoMagicNoHeader(f: File, from: nat, to: nat)
    requires NoMagicBetween(f, from, to)
    ensures forall q :: from < q < to ==> !GoodHeader(f, q)
  {
    hide BlockHeaderAt;
  }

  /**
   Recovery: damage that ends within the probe window and contains no block magic costs nothing
   but itself; the next intact block is the one returned.
   */
  lemma DamageIsSkipped(f: File, l: Layout, pos: nat, damage: nat, b: Block)
    requires Fits(f, l) && Readable(b)
    requires BadHeader(f, pos)
    requires 1 <= damage <= RESYNC_PROBE_BYTES - 4
    requires NoMagicBetween(f, pos, pos + damage)
    requires HasAt(f.data, pos + damage, l.BytesOf(b))
    ensures NextBlockAt(f, pos) == (Success(Some(Located(pos + damage, b))), pos + damage + |l.BytesOf(b)|)
  {
    hide *;
    BlockIsRead(f, l, b, pos + damage);
    MagicFirst(f, l, pos + damage, b);
    ProbeFinds(f, pos, damage);
    RetryLandsOnFirstMagic(f, pos);
  }

  lemma ProbeFinds(f: File, pos: nat, damage: nat)
    requires 1 <= damage <= RESYNC_PROBE_BYTES - 4
    requires NoMagicBetween(f, pos, pos + damage) && HasAt(f.data, pos + damage, BLOCK_MAGIC)
    ensures FindNextBlockMagic(Probe(f, pos), 1) == Some(damage)
  {
    hide FindNextBlockMagic, HasAt;
    var probe := Probe(f, pos);
    assert damage + 4 <= |probe| by {
      HasAtInside(f.data, pos + damage, BLOCK_MAGIC);
    }
    ProbeSees(f, pos, pos + damage);
    var r := FindNextBlockMagic(probe, 1);
    if r.Some? && r.value < damage {
      HasAtInside(probe, r.value, BLOCK_MAGIC);
      ProbeSees(f, pos, pos + r.value);
    }
  }

  lemma HasAtInside(data: seq<byte>, pos: nat, bytes: seq<byte>)
    requires HasAt(data, pos, bytes)
    ensures pos + |bytes| <= |data|
  {
  }

  lemma MagicFirst(f: File, l: Layout, pos: nat, b: Block)
    requires HasAt(f.data, pos, l.BytesOf(b))
    ensures HasAt(f.data, pos, BLOCK_MAGIC)
  {
    hide BodyBytes;
    assert l.BytesOf(b) == BLOCK_MAGIC + l.BytesOf(b)[4..];
    HasParts(f.data, pos, BLOCK_MAGIC, l.BytesOf(b)[4..]);
  }
}
