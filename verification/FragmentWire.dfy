/** FragmentProto on the wire: chunk headers and packets made of chunks. */
module FragmentWire {
  import opened Bytes
  import opened Lists

  /** Size of struct fragmentproto_chunk_header: three 16-bit fields and a flag byte. */
  const HEADER: nat := 7

  datatype Chunk = Chunk(id: nat, start: nat, data: seq<byte>, last: bool)

  /** A chunk whose fields fit the 16-bit fields of the header. */
  predicate Fits(c: Chunk) {
    c.id < 0x1_0000 && c.start < 0x1_0000 && |c.data| < 0x1_0000
  }

  function EncodeChunk(c: Chunk): (b: seq<byte>)
    ensures |b| == HEADER + |c.data|
  {
    ToLe(c.id, 2) + ToLe(c.start, 2) + ToLe(|c.data|, 2) + [if c.last then 1 else 0] + c.data
  }

  function EncodePacket(cs: seq<Chunk>): (b: seq<byte>)
  {
    if cs == [] then [] else EncodePacket(cs[..|cs| - 1]) + EncodeChunk(cs[|cs| - 1])
  }

  /** The chunk at position pos of a packet, or None where the assembler stops reading. */
  function ReadChunk(p: seq<byte>, pos: nat): (r: Option<Chunk>)
    requires pos <= |p|
    ensures r.Some? ==> Fits(r.value) && pos + HEADER + |r.value.data| <= |p|
  {
    if |p| - pos < HEADER then None
    else
      Limits();
      var len := FromLe(p[pos + 4..pos + 6]);
      var last := p[pos + 6];
      if last != 0 && last != 1 then None
      else if |p| - (pos + HEADER) < len then None
      else Some(Chunk(FromLe(p[pos..pos + 2]), FromLe(p[pos + 2..pos + 4]),
                      p[pos + HEADER..pos + HEADER + len], last == 1))
  }

  /** All chunks the assembler reads from position pos on. */
  function ReadChunks(p: seq<byte>, pos: nat): (cs: seq<Chunk>)
    requires pos <= |p|
    decreases |p| - pos
  {
    var r := ReadChunk(p, pos);
    if r.None? then [] else [r.value] + ReadChunks(p, pos + HEADER + |r.value.data|)
  }

  lemma EncodedFields(c: Chunk)
    requires Fits(c)
    ensures var b := EncodeChunk(c);
            && FromLe(b[0..2]) == c.id && FromLe(b[2..4]) == c.start && FromLe(b[4..6]) == |c.data|
            && b[6] == (if c.last then 1 else 0) && b[7..7 + |c.data|] == c.data
  {
    hide ToLe, FromLe;
    Limits();
    LeRoundTrip(c.id, 2);
    LeRoundTrip(c.start, 2);
    LeRoundTrip(|c.data|, 2);
    var b := EncodeChunk(c);
    assert b[0..2] == ToLe(c.id, 2);
    assert b[2..4] == ToLe(c.start, 2);
    assert b[4..6] == ToLe(|c.data|, 2);
  }

  lemma ReadEncodedChunk(before: seq<byte>, c: Chunk, after: seq<byte>)
    requires Fits(c)
    ensures ReadChunk(before + EncodeChunk(c) + after, |before|) == Some(c)
  {
    hide EncodeChunk, FromLe;
    var e := EncodeChunk(c);
    EncodedFields(c);
    InnerSlice(before, e, after, 0, 2);
    InnerSlice(before, e, after, 2, 4);
    InnerSlice(before, e, after, 4, 6);
    InnerSlice(before, e, after, 7, 7 + |c.data|);
    assert (before + e + after)[|before| + 6] == e[6];
  }

  lemma {:induction false} EncodePacketConcat(a: seq<Chunk>, b: seq<Chunk>)
    ensures EncodePacket(a + b) == EncodePacket(a) + EncodePacket(b)
    decreases |b|
  {
    if b == [] {
      assert a + b == a;
    } else {
      var front, last := b[..|b| - 1], b[|b| - 1];
      EncodePacketConcat(a, front);
      assert (a + b)[..|a + b| - 1] == a + front && (a + b)[|a + b| - 1] == last;
      Assoc(EncodePacket(a), EncodePacket(front), EncodeChunk(last));
    }
  }

  lemma {:induction false} ReadEncodedFrom(before: seq<byte>, cs: seq<Chunk>)
    requires forall c :: c in cs ==> Fits(c)
    ensures ReadChunks(before + EncodePacket(cs), |before|) == cs
    decreases |cs|
  {
    hide ReadChunk, EncodeChunk;
    var p := before + EncodePacket(cs);
    if cs != [] {
      var c, rest := cs[0], cs[1..];
      EncodePacketConcat([c], rest);
      assert [c] + rest == cs && EncodePacket([c]) == EncodeChunk(c) by {
        assert [c][..0] == [];
      }
      Assoc(before, EncodeChunk(c), EncodePacket(rest));
      ReadEncodedChunk(before, c, EncodePacket(rest));
      ReadEncodedFrom(before + EncodeChunk(c), rest);
    }
  }

  /** Reading undoes writing: the assembler sees exactly the chunks that were packed. */
  lemma PacketRoundTrip(cs: seq<Chunk>)
    requires forall c :: c in cs ==> Fits(c)
    ensures ReadChunks(EncodePacket(cs), 0) == cs
  {
    assert [] + EncodePacket(cs) == EncodePacket(cs);
    ReadEncodedFrom([], cs);
  }

  /** The bytes of a chunk: id, start and length with the low byte first, the flag, the data. */
  lemma ChunkBytes(c: Chunk)
    requires Fits(c)
    ensures EncodeChunk(c) == [c.id % 0x100, c.id / 0x100, c.start % 0x100, c.start / 0x100, |c.data| % 0x100, |c.data| / 0x100,
                               if c.last then 1 else 0] + c.data
  {
    hide ToLe;
    LeBytes(c.id);
    LeBytes(c.start);
    LeBytes(|c.data|);
  }

  /** No encoded chunk begins at this place. */
  ghost predicate NoChunkAt(p: seq<byte>, pos: nat) {
    pos <= |p| && forall c :: Fits(c) ==> !(EncodeChunk(c) <= p[pos..])
  }

  /** A chunk that is read is encoded at that place; if none is read, no encoded chunk is there. */
  lemma ReadIsEncoded(p: seq<byte>, pos: nat)
    requires pos <= |p|
    ensures var r := ReadChunk(p, pos);
            && (r.Some? ==> EncodeChunk(r.value) == p[pos..pos + HEADER + |r.value.data|])
            && (r.None? ==> NoChunkAt(p, pos))
  {
    hide ToLe, FromLe;
    var r := ReadChunk(p, pos);
    if r.Some? {
      LeOfValue(p[pos..pos + 2]);
      LeOfValue(p[pos + 2..pos + 4]);
      LeOfValue(p[pos + 4..pos + 6]);
      var n := |r.value.data|;
      assert p[pos..pos + HEADER + n] == p[pos..pos + 2] + p[pos + 2..pos + 4] + p[pos + 4..pos + 6] + [p[pos + 6]] + p[pos + HEADER..pos + HEADER + n];
    } else {
      forall c | Fits(c) ensures !(EncodeChunk(c) <= p[pos..]) { NoChunkThere(p, pos, c); }
    }
  }

  lemma NoChunkThere(p: seq<byte>, pos: nat, c: Chunk)
    requires pos <= |p| && ReadChunk(p, pos).None? && Fits(c)
    ensures !(EncodeChunk(c) <= p[pos..])
  {
    hide EncodeChunk, ReadChunk;
    if EncodeChunk(c) <= p[pos..] {
      ReadEncodedChunk(p[..pos], c, p[pos + HEADER + |c.data|..]);
      Spliced(p, pos, EncodeChunk(c));
    }
  }

  lemma Spliced(p: seq<byte>, pos: nat, b: seq<byte>)
    requires pos <= |p| && b <= p[pos..]
    ensures p[..pos] + b + p[pos + |b|..] == p
  {
    assert p[pos..] == b + p[pos..][|b|..];
  }

  lemma EmptyPacket()
    ensures EncodePacket([]) == []
  {
  }

  lemma OneChunkPacket(c: Chunk)
    ensures EncodePacket([c]) == EncodeChunk(c)
  {
    assert [c][..0] == [];
  }

  /** What is read of any packet, well formed or not: the chunks of its longest prefix that is made of encoded chunks. */
  lemma {:induction false} ReadsPrefix(p: seq<byte>, pos: nat)
    requires pos <= |p|
    ensures var b := EncodePacket(ReadChunks(p, pos));
            b <= p[pos..] && NoChunkAt(p, pos + |b|)
    decreases |p| - pos
  {
    hide ReadChunk, EncodeChunk, EncodePacket, NoChunkAt;
    EmptyPacket();
    ReadIsEncoded(p, pos);
    var r := ReadChunk(p, pos);
    if r.Some? {
      var next := pos + HEADER + |r.value.data|;
      ReadsPrefix(p, next);
      EncodePacketConcat([r.value], ReadChunks(p, next));
      OneChunkPacket(r.value);
      LongerPrefix(p, pos, next, EncodePacket(ReadChunks(p, next)));
    }
  }

  lemma LongerPrefix(p: seq<byte>, pos: nat, next: nat, b: seq<byte>)
    requires pos <= next <= |p| && b <= p[next..]
    ensures p[pos..next] + b <= p[pos..]
  {
    assert p[pos..] == p[pos..next] + p[next..];
  }
}
