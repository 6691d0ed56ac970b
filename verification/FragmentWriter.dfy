/** The disassembler as the program keeps it: it fills the caller's packet buffer in place. */
module FragmentWriter {
  import opened Bytes
  import opened Lists
  import opened FragmentWire
  import D = FragmentDisassembler

  class FragmentProtoDisassembler {
    const cfg: D.Config
    var inLen: int
    var input: seq<byte>
    var inUsed: nat
    var out: array?<byte>
    var outUsed: nat
    var frameId: nat
    var timerRunning: bool
    /** The chunks the open packet holds. */
    ghost var chunks: seq<Chunk>

    /** The state this object stands for. */
    ghost function View(): (d: D.State)
      reads this
    {
      D.State(if inLen >= 0 then Some(input) else None, inUsed, if out != null then Some(chunks) else None,
              frameId, timerRunning)
    }

    /** The open packet holds exactly the encoded chunks. */
    ghost predicate Filled()
      reads this, out
    {
      && (inLen >= 0 ==> inLen == |input| && inUsed <= inLen)
      && (out != null ==> out.Length == cfg.outputMtu && outUsed <= out.Length
                          && outUsed == D.PacketLen(chunks) && out[..outUsed] == EncodePacket(chunks))
    }

    ghost predicate Valid()
      reads this, out
    {
      cfg.Valid() && Filled() && D.Valid(cfg, View())
    }

    constructor (cfg: D.Config)
      requires cfg.Valid()
      ensures Valid() && View() == D.Init && this.cfg == cfg
    {
      this.cfg := cfg;
      inLen, input, inUsed, out, outUsed, frameId, timerRunning := -1, [], 0, null, 0, 0, false;
      chunks := [];
    }

    /** One round of the loop: the header and the payload of one chunk. */
    method WriteChunk(chunkLen: nat)
      requires Filled() && inLen >= 0 && out != null && inUsed + chunkLen <= inLen
      requires outUsed + HEADER + chunkLen <= out.Length
      modifies this`inUsed, this`outUsed, this`chunks, out
      ensures Filled() && inUsed == old(inUsed) + chunkLen
      ensures chunks == old(chunks) + [Chunk(frameId, old(inUsed), input[old(inUsed)..inUsed], inUsed == inLen)]
    {
      hide ToLe, EncodePacket, D.PacketLen, EncodeChunk, Splice;
      ghost var c := Chunk(frameId, inUsed, input[inUsed..inUsed + chunkLen], inUsed + chunkLen == inLen);
      ghost var before := out[..outUsed];
      var header := ToLe(frameId, 2) + ToLe(inUsed, 2) + ToLe(chunkLen, 2) + [if chunkLen == inLen - inUsed then 1 else 0];
      HeaderThenData(c, header);
      WriteBoth(out, outUsed, header, input[inUsed..inUsed + chunkLen]);
      AppendChunk(chunks, c);
      inUsed := inUsed + chunkLen;
      outUsed := outUsed + HEADER + chunkLen;
      chunks := chunks + [c];
    }

    /** The do-while loop of write_chunks. */
    method FillPacket()
      requires cfg.Valid() && Filled() && inLen >= 0 && out != null && D.OutAvail(cfg, chunks) > 0
      modifies this`inUsed, this`outUsed, this`chunks, out
      ensures Filled()
      ensures chunks == old(chunks) + D.NewChunks(cfg, input, frameId, old(inUsed), old(chunks))
      ensures inUsed == old(inUsed) + D.DataLen(D.NewChunks(cfg, input, frameId, old(inUsed), old(chunks)))
    {
      hide D.PacketLen, D.DataLen, D.NewChunks, EncodePacket, D.NextChunk;
      ghost var rest := D.NewChunks(cfg, input, frameId, inUsed, chunks);
      ghost var goal, goalUsed := chunks + rest, inUsed + D.DataLen(rest);
      var more := true;
      while more
        invariant Filled()
        invariant more ==> D.OutAvail(cfg, chunks) > 0
        invariant rest == if more then D.NewChunks(cfg, input, frameId, inUsed, chunks) else []
        invariant goal == chunks + rest && goalUsed == inUsed + D.DataLen(rest)
        decreases more, inLen - inUsed
      {
        ghost var c := D.NextChunk(cfg, input, frameId, inUsed, chunks);
        NextChunkLen(cfg, input, frameId, inUsed, chunks);
        var chunkLen := D.Min(inLen - inUsed, (cfg.outputMtu - outUsed) - HEADER);
        if cfg.chunkMtu > 0 {
          chunkLen := D.Min(chunkLen, cfg.chunkMtu);
        }
        ghost var before := chunks;
        WriteChunk(chunkLen);
        more := inLen - inUsed > 0 && (cfg.outputMtu - outUsed) - HEADER > 0;
        rest := if more then D.NewChunks(cfg, input, frameId, inUsed, chunks) else [];
        Assoc(before, [c], rest);
        DataLenFirst(c, rest);
      }
      DataLenFirst(Chunk(0, 0, [], false), []);
      assert goal == chunks;
    }

    /** write_chunks: fill the packet, then finish the input frame and the packet as needed. */
    method WriteChunks() returns (packet: Option<seq<byte>>, done: bool)
      requires cfg.Valid() && Filled() && inLen >= 0 && out != null && D.OutAvail(cfg, chunks) > 0
      requires timerRunning ==> cfg.latency >= 0
      modifies this`inLen, this`inUsed, this`out, this`outUsed, this`frameId, this`timerRunning, this`chunks, out
      ensures Filled()
      ensures var (d, o) := D.WriteChunks(cfg, old(View()));
              && View() == d && done == o.done
              && packet == if o.packet.Some? then Some(EncodePacket(o.packet.value)) else None
    {
      hide D.NewChunks, D.DataLen, D.PacketLen;
      FillPacket();
      done := inLen - inUsed == 0;
      if done {
        inLen := -1;
        frameId := (frameId + 1) % 0x1_0000;
      }
      if (cfg.outputMtu - outUsed) - HEADER <= 0 || cfg.latency < 0 {
        packet := Some(out[..outUsed]);
        out := null;
        timerRunning := false;
      } else {
        packet := None;
        timerRunning := true;
      }
    }

    /** input_handler_send */
    method InputSend(data: seq<byte>) returns (packet: Option<seq<byte>>, done: bool)
      requires Valid() && D.Enabled(cfg, View(), D.Send(data))
      modifies this, out
      ensures Stepped(old(View()), D.Send(data), packet, done)
    {
      D.StepValid(cfg, View(), D.Send(data));
      hide D.WriteChunks, EncodePacket, D.PacketLen, D.Valid;
      inLen, input, inUsed := |data|, data, 0;
      packet, done := None, false;
      if out != null {
        packet, done := WriteChunks();
      }
    }

    /** output_handler_recv: data is the buffer for the next packet. */
    method OutputRecv(data: array<byte>) returns (packet: Option<seq<byte>>, done: bool)
      requires Valid() && D.Enabled(cfg, View(), D.Recv) && data.Length == cfg.outputMtu
      modifies this, data
      ensures Stepped(old(View()), D.Recv, packet, done)
    {
      D.StepValid(cfg, View(), D.Recv);
      out, outUsed, chunks := data, 0, [];
      assert data[..0] == [];
      packet, done := None, false;
      hide D.WriteChunks, EncodePacket;
      if inLen >= 0 {
        packet, done := WriteChunks();
      }
    }

    /** timer_handler */
    method TimerHandler() returns (packet: Option<seq<byte>>, done: bool)
      requires Valid() && D.Enabled(cfg, View(), D.Timer)
      modifies this
      ensures Stepped(old(View()), D.Timer, packet, done)
    {
      D.StepValid(cfg, View(), D.Timer);
      packet, done := Some(out[..outUsed]), false;
      out, timerRunning := null, false;
    }

    /** input_handler_requestcancel: note that frameId stays. */
    method RequestCancel() returns (packet: Option<seq<byte>>, done: bool)
      requires Valid() && D.Enabled(cfg, View(), D.Cancel)
      modifies this
      ensures Stepped(old(View()), D.Cancel, packet, done)
    {
      D.StepValid(cfg, View(), D.Cancel);
      inLen := -1;
      packet, done := None, true;
    }

    /** The new state and the outputs are those of the state machine's step. */
    ghost predicate Stepped(d: D.State, e: D.Event, packet: Option<seq<byte>>, done: bool)
      reads this, out
    {
      && Valid() && D.Valid(cfg, d) && D.Enabled(cfg, d, e)
      && var (d', o) := D.Step(cfg, d, e);
      && View() == d' && done == o.done
      && packet == if o.packet.Some? then Some(EncodePacket(o.packet.value)) else None
    }
  }

  /** A header at off and the data after it. */
  method WriteBoth(a: array<byte>, off: nat, header: seq<byte>, data: seq<byte>)
    requires off + |header| + |data| <= a.Length
    modifies a
    ensures a[..off + |header| + |data|] == old(a[..off]) + (header + data)
  {
    hide Splice;
    ghost var before := a[..off];
    WriteAt(a, off, header);
    WriteAt(a, off + |header|, data);
    Assoc(before, header, data);
  }

  lemma HeaderThenData(c: Chunk, header: seq<byte>)
    requires header == ToLe(c.id, 2) + ToLe(c.start, 2) + ToLe(|c.data|, 2) + [if c.last then 1 else 0]
    ensures |header| == HEADER && header + c.data == EncodeChunk(c)
  {
    hide ToLe;
  }

  /** The first chunk of the loop, and the loop's unrolling after it. */
  lemma NextChunkLen(cfg: D.Config, frame: seq<byte>, id: nat, used: nat, out: seq<Chunk>)
    requires cfg.Valid() && used <= |frame| && D.OutAvail(cfg, out) > 0
    ensures var c := D.NextChunk(cfg, frame, id, used, out);
            var n := D.Min(|frame| - used, D.OutAvail(cfg, out));
            && |c.data| == (if cfg.chunkMtu > 0 then D.Min(n, cfg.chunkMtu) else n)
            && c == Chunk(id, used, frame[used..used + |c.data|], used + |c.data| == |frame|)
            && (|frame| > used ==> |c.data| > 0)
            && D.NewChunks(cfg, frame, id, used, out)
               == [c] + if used + |c.data| < |frame| && D.OutAvail(cfg, out + [c]) > 0
                        then D.NewChunks(cfg, frame, id, used + |c.data|, out + [c]) else []
  {
    hide D.PacketLen;
  }

  lemma AppendChunk(cs: seq<Chunk>, c: Chunk)
    ensures EncodePacket(cs + [c]) == EncodePacket(cs) + EncodeChunk(c)
    ensures D.PacketLen(cs + [c]) == D.PacketLen(cs) + HEADER + |c.data|
  {
    assert (cs + [c])[..|cs + [c]| - 1] == cs;
  }

  lemma DataLenFirst(c: Chunk, cs: seq<Chunk>)
    ensures D.DataLen([c] + cs) == |c.data| + D.DataLen(cs) && D.DataLen([]) == 0
  {
    assert ([c] + cs)[1..] == cs;
  }
}
