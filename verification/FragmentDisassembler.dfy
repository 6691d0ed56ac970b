/**
  The FragmentProto disassembler as a state machine over its four events, and what every run
  keeps: the chunks written so far are the finished frames cut up in order, plus the part of
  the current frame. The imperative form is in FragmentWriter and is proved against this.
  */
module FragmentDisassembler {
  import opened Bytes
  import opened Lists
  import opened FragmentWire

  /** latency < 0 sends every packet at once; otherwise a timer flushes a waiting packet. */
  datatype Config = Config(inputMtu: nat, outputMtu: nat, chunkMtu: int, latency: int) {
    /** What FragmentProtoDisassembler_Init demands. */
    predicate Valid() { inputMtu <= 0xFFFF && outputMtu > HEADER && chunkMtu != 0 }
  }

  /** input is the packet being cut (inUsed bytes of it are written); out is the open packet. */
  datatype State = State(input: Option<seq<byte>>, inUsed: nat, out: Option<seq<Chunk>>, frameId: nat, timer: bool)

  datatype Event = Send(frame: seq<byte>) | Recv | Timer | Cancel

  /** What one event gives back: a finished packet, a finished input frame. */
  datatype Output = Output(packet: Option<seq<Chunk>>, done: bool)

  const Init: State := State(None, 0, None, 0, false)

  function PacketLen(cs: seq<Chunk>): (n: nat) {
    if cs == [] then 0 else PacketLen(cs[..|cs| - 1]) + HEADER + |cs[|cs| - 1].data|
  }

  function OutAvail(cfg: Config, cs: seq<Chunk>): (n: int) { cfg.outputMtu - PacketLen(cs) - HEADER }

  function Min(a: int, b: int): (m: int) { if a < b then a else b }

  function ChunkLen(cfg: Config, inAvail: nat, outAvail: nat): (n: nat)
    ensures n <= inAvail && n <= outAvail
    ensures cfg.chunkMtu != 0 && inAvail > 0 && outAvail > 0 ==> n > 0
  {
    var n := Min(inAvail, outAvail);
    if cfg.chunkMtu > 0 then Min(n, cfg.chunkMtu) else n
  }

  /** The next chunk of the frame from offset used, given the chunks already in the packet. */
  function NextChunk(cfg: Config, frame: seq<byte>, id: nat, used: nat, out: seq<Chunk>): (c: Chunk)
    requires used <= |frame| && OutAvail(cfg, out) > 0
    ensures used + |c.data| <= |frame|
  {
    var n := ChunkLen(cfg, |frame| - used, OutAvail(cfg, out));
    Chunk(id, used, frame[used..used + n], n == |frame| - used)
  }

  /** The do-while loop of write_chunks: the chunks it appends to the packet. */
  function NewChunks(cfg: Config, frame: seq<byte>, id: nat, used: nat, out: seq<Chunk>): (cs: seq<Chunk>)
    requires cfg.Valid() && used <= |frame| && OutAvail(cfg, out) > 0
    ensures cs != []
    decreases |frame| - used
  {
    var c := NextChunk(cfg, frame, id, used, out);
    var used' := used + |c.data|;
    var out' := out + [c];
    if used' < |frame| && OutAvail(cfg, out') > 0
    then [c] + NewChunks(cfg, frame, id, used', out')
    else [c]
  }

  function DataLen(cs: seq<Chunk>): (n: nat) { if cs == [] then 0 else |cs[0].data| + DataLen(cs[1..]) }

  function WriteChunks(cfg: Config, d: State): (r: (State, Output))
    requires cfg.Valid() && d.input.Some? && d.inUsed <= |d.input.value|
    requires d.out.Some? && OutAvail(cfg, d.out.value) > 0
  {
    var cs := NewChunks(cfg, d.input.value, d.frameId, d.inUsed, d.out.value);
    var out := d.out.value + cs;
    var used := d.inUsed + DataLen(cs);
    var done := used == |d.input.value|;
    var full := OutAvail(cfg, out) <= 0 || cfg.latency < 0;
    (State(if done then None else d.input,
           used,
           if full then None else Some(out),
           if done then (d.frameId + 1) % 0x1_0000 else d.frameId,
           !full),
     Output(if full then Some(out) else None, done))
  }

  /** When an event can happen: the contracts of the packet interfaces and the timer. */
  predicate Enabled(cfg: Config, d: State, e: Event) {
    match e
    case Send(frame) => d.input.None? && |frame| <= cfg.inputMtu
    case Recv => d.out.None?
    case Timer => d.timer
    case Cancel => d.input.Some? && d.out.None?
  }

  function Step(cfg: Config, d: State, e: Event): (r: (State, Output))
    requires cfg.Valid() && Valid(cfg, d) && Enabled(cfg, d, e)
  {
    match e
    case Send(frame) =>
      var d1 := d.(input := Some(frame), inUsed := 0);
      if d.out.None? then (d1, Output(None, false)) else WriteChunks(cfg, d1)
    case Recv =>
      var d1 := d.(out := Some([]));
      if d.input.None? then (d1, Output(None, false)) else WriteChunks(cfg, d1)
    case Timer => (d.(out := None, timer := false), Output(d.out, false))
    case Cancel => (d.(input := None), Output(None, true))
  }

  /** Between events: never both an input and an open packet, and the handlers' assertions. */
  predicate Valid(cfg: Config, d: State) {
    && d.frameId < 0x1_0000
    && (d.input.Some? ==> d.out.None? && |d.input.value| <= cfg.inputMtu && d.inUsed <= |d.input.value|)
    && (d.out.Some? ==> OutAvail(cfg, d.out.value) > 0)
    && (d.timer <==> d.out.Some? && d.out.value != [])
    && (d.timer ==> cfg.latency >= 0)
  }

  /** The loop of write_chunks stays inside the frame and stops at its end or at a full packet. */
  lemma {:induction false} NewChunksStop(cfg: Config, frame: seq<byte>, id: nat, used: nat, out: seq<Chunk>)
    requires cfg.Valid() && used <= |frame| && OutAvail(cfg, out) > 0
    ensures var cs := NewChunks(cfg, frame, id, used, out);
            used + DataLen(cs) <= |frame| && (used + DataLen(cs) < |frame| ==> OutAvail(cfg, out + cs) <= 0)
    decreases |frame| - used
  {
    hide PacketLen;
    var c := NextChunk(cfg, frame, id, used, out);
    var cs := NewChunks(cfg, frame, id, used, out);
    if used + |c.data| < |frame| && OutAvail(cfg, out + [c]) > 0 {
      NewChunksStop(cfg, frame, id, used + |c.data|, out + [c]);
      assert cs[1..] == NewChunks(cfg, frame, id, used + |c.data|, out + [c]);
      Assoc(out, [c], cs[1..]);
    } else {
      assert cs == [c] && cs[1..] == [];
    }
  }

  /** Every enabled event, clean or not, keeps the handlers' assertions true. */
  lemma StepValid(cfg: Config, d: State, e: Event)
    requires cfg.Valid() && Valid(cfg, d) && Enabled(cfg, d, e)
    ensures Valid(cfg, Step(cfg, d, e).0)
  {
    hide NewChunks, DataLen, PacketLen;
    PacketLenEmpty();
    if e.Send? && d.out.Some? {
      NewChunksStop(cfg, e.frame, d.frameId, 0, d.out.value);
    } else if e.Recv? && d.input.Some? {
      NewChunksStop(cfg, d.input.value, d.frameId, d.inUsed, []);
    }
  }

  // ---------------------------------------------------------------- how a frame is cut

  /** cs are the chunks of the frame up to offset upto, contiguous from 0, all with this id. */
  predicate CutTo(frame: seq<byte>, id: nat, cs: seq<Chunk>, upto: nat)
    requires upto <= |frame|
    decreases |cs|
  {
    if cs == [] then upto == 0
    else
      var c, front := cs[|cs| - 1], cs[..|cs| - 1];
      && |c.data| <= upto
      && (c.data == [] ==> frame == [])
      && c == Chunk(id, upto - |c.data|, frame[upto - |c.data|..upto], upto == |frame|)
      && CutTo(frame, id, front, c.start)
      && (front != [] ==> c.start < |frame|)
  }

  predicate CutWhole(frame: seq<byte>, id: nat, cs: seq<Chunk>) {
    cs != [] && CutTo(frame, id, cs, |frame|)
  }

  lemma ExtendCut(frame: seq<byte>, id: nat, part: seq<Chunk>, used: nat, c: Chunk)
    requires used + |c.data| <= |frame| && CutTo(frame, id, part, used) && (part != [] ==> used < |frame|)
    requires c == Chunk(id, used, frame[used..used + |c.data|], used + |c.data| == |frame|)
    requires c.data == [] ==> frame == []
    ensures CutTo(frame, id, part + [c], used + |c.data|)
  {
    assert (part + [c])[..|part + [c]| - 1] == part;
  }

  lemma PacketLenAppend(out: seq<Chunk>, c: Chunk)
    ensures PacketLen(out + [c]) == PacketLen(out) + HEADER + |c.data|
  {
    assert (out + [c])[..|out + [c]| - 1] == out;
  }

  /** An empty cut is at offset 0, so a cut reaching the end of a nonempty frame is not empty. */
  lemma CutStart(frame: seq<byte>, id: nat, part: seq<Chunk>, used: nat)
    requires used <= |frame| && CutTo(frame, id, part, used) && (part != [] ==> used < |frame|)
    ensures used == |frame| ==> frame == []
  {
  }

  /** The loop of write_chunks extends the cut of the frame and stops at its end or a full packet. */
  lemma {:induction false} NewChunksCut(cfg: Config, frame: seq<byte>, id: nat, used: nat, out: seq<Chunk>, part: seq<Chunk>)
    requires cfg.Valid() && used <= |frame| && OutAvail(cfg, out) > 0
    requires CutTo(frame, id, part, used) && (part != [] ==> used < |frame|)
    ensures var cs := NewChunks(cfg, frame, id, used, out);
            && used + DataLen(cs) <= |frame|
            && CutTo(frame, id, part + cs, used + DataLen(cs))
            && PacketLen(out + cs) <= cfg.outputMtu
            && (used + DataLen(cs) < |frame| ==> OutAvail(cfg, out + cs) <= 0)
    decreases |frame| - used
  {
    hide CutTo, PacketLen;
    var c := NextChunk(cfg, frame, id, used, out);
    CutStart(frame, id, part, used);
    ExtendCut(frame, id, part, used, c);
    PacketLenAppend(out, c);
    var used' := used + |c.data|;
    var cs := NewChunks(cfg, frame, id, used, out);
    if used' < |frame| && OutAvail(cfg, out + [c]) > 0 {
      NewChunksCut(cfg, frame, id, used', out + [c], part + [c]);
      var more := NewChunks(cfg, frame, id, used', out + [c]);
      assert cs[1..] == more;
      Assoc(part, [c], more);
      Assoc(out, [c], more);
    } else {
      assert cs == [c] && cs[1..] == [];
    }
  }

  // ---------------------------------------------------------------- runs

  /**
    A run's history. packets: sent so far; frames: input frames fully written; cuts: the chunks
    of each of them; part: the chunks of the current input written so far.
    */
  datatype World = World(d: State, packets: seq<seq<Chunk>>, frames: seq<seq<byte>>,
                         cuts: seq<seq<Chunk>>, part: seq<Chunk>)

  const Start: World := World(Init, [], [], [], [])

  /** A cancel that does not hit a partly written frame. */
  predicate Clean(d: State, e: Event) { e.Cancel? ==> d.inUsed == 0 }

  function Written(d: State, e: Event, cfg: Config): (cs: seq<Chunk>)
    requires cfg.Valid() && Valid(cfg, d) && Enabled(cfg, d, e)
  {
    match e
    case Send(frame) =>
      if d.out.None? then [] else NewChunks(cfg, frame, d.frameId, 0, d.out.value)
    case Recv =>
      if d.input.None? then [] else NewChunks(cfg, d.input.value, d.frameId, d.inUsed, [])
    case _ => []
  }

  function Next(cfg: Config, w: World, e: Event): (r: World)
    requires cfg.Valid() && Valid(cfg, w.d) && Enabled(cfg, w.d, e)
  {
    var (d, o) := Step(cfg, w.d, e);
    var part := w.part + Written(w.d, e, cfg);
    var finished := o.done && !e.Cancel?;
    var frame := if e.Send? then e.frame else if w.d.input.Some? then w.d.input.value else [];
    World(d,
          if o.packet.Some? then w.packets + [o.packet.value] else w.packets,
          if finished then w.frames + [frame] else w.frames,
          if finished then w.cuts + [part] else w.cuts,
          if finished then [] else part)
  }

  function Flat(css: seq<seq<Chunk>>): (cs: seq<Chunk>) {
    if css == [] then [] else Flat(css[..|css| - 1]) + css[|css| - 1]
  }

  /** The 16-bit id of the i-th frame. */
  function FrameId(i: nat): (id: nat)
    ensures id < 0x1_0000
  {
    i % 0x1_0000
  }

  lemma FrameIdNext(i: nat)
    ensures (FrameId(i) + 1) % 0x1_0000 == FrameId(i + 1)
  {
  }

  predicate AllCut(frames: seq<seq<byte>>, cuts: seq<seq<Chunk>>) {
    |cuts| == |frames| && forall i :: 0 <= i < |frames| ==> CutWhole(frames[i], FrameId(i), cuts[i])
  }

  function Open(d: State): (cs: seq<Chunk>) { if d.out.Some? then d.out.value else [] }

  /** What every clean run keeps: the frames are cut up, the current one up to inUsed ... */
  predicate CutsInv(cfg: Config, w: World) {
    && Valid(cfg, w.d)
    && AllCut(w.frames, w.cuts)
    && (forall i :: 0 <= i < |w.frames| ==> |w.frames[i]| <= cfg.inputMtu)
    && w.d.frameId == FrameId(|w.frames|)
    && (forall i :: 0 <= i < |w.packets| ==> w.packets[i] != [] && PacketLen(w.packets[i]) <= cfg.outputMtu)
    && (w.d.input.None? ==> w.part == [])
    && (w.d.input.Some? ==> CutTo(w.d.input.value, w.d.frameId, w.part, w.d.inUsed)
                            && (w.part != [] ==> w.d.inUsed < |w.d.input.value|))
  }

  /** ... and the chunks sent or waiting are exactly the chunks cut, in order. */
  predicate WorldInv(cfg: Config, w: World) {
    CutsInv(cfg, w) && Flat(w.packets) + Open(w.d) == Flat(w.cuts) + w.part
  }

  lemma FlatAppend(css: seq<seq<Chunk>>, cs: seq<Chunk>)
    ensures Flat(css + [cs]) == Flat(css) + cs
  {
    assert (css + [cs])[..|css + [cs]| - 1] == css;
  }

  /** One write_chunks call in a run. */
  lemma WriteKeeps(cfg: Config, part: seq<Chunk>, d: State)
    requires cfg.Valid() && d.frameId < 0x1_0000
    requires d.input.Some? && d.inUsed <= |d.input.value| && |d.input.value| <= cfg.inputMtu
    requires d.out.Some? && OutAvail(cfg, d.out.value) > 0
    requires CutTo(d.input.value, d.frameId, part, d.inUsed) && (part != [] ==> d.inUsed < |d.input.value|)
    ensures var (d', o) := WriteChunks(cfg, d);
            var part' := part + NewChunks(cfg, d.input.value, d.frameId, d.inUsed, d.out.value);
            && Valid(cfg, d')
            && (o.done ==> CutWhole(d.input.value, d.frameId, part') && d'.input.None?)
            && (!o.done ==> d'.input == d.input && d'.inUsed < |d.input.value|
                            && CutTo(d.input.value, d.frameId, part', d'.inUsed) && d'.frameId == d.frameId)
            && (o.packet.Some? ==> o.packet.value != [] && PacketLen(o.packet.value) <= cfg.outputMtu)
  {
    hide CutTo, NewChunks, PacketLen, DataLen;
    NewChunksCut(cfg, d.input.value, d.frameId, d.inUsed, d.out.value, part);
  }

  /** The chunk stream of a write: what was in the open packet plus the new chunks. */
  lemma StreamGrows(a: seq<Chunk>, open: seq<Chunk>, b: seq<Chunk>, part: seq<Chunk>, cs: seq<Chunk>)
    requires a + open == b + part
    ensures a + (open + cs) == b + (part + cs)
  {
    Assoc(a, open, cs);
    Assoc(b, part, cs);
  }

  lemma StepStream(cfg: Config, w: World, e: Event)
    requires cfg.Valid() && WorldInv(cfg, w) && Enabled(cfg, w.d, e) && Clean(w.d, e)
    ensures var (d, o) := Step(cfg, w.d, e);
            Open(w.d) + Written(w.d, e, cfg) == if o.packet.Some? then o.packet.value else Open(d)
    ensures Step(cfg, w.d, e).1.packet.Some? ==> Open(Step(cfg, w.d, e).0) == []
  {
    hide CutTo, NewChunks, PacketLen, DataLen, Flat, AllCut;
    assert Open(w.d) + [] == Open(w.d);
  }

  lemma StepKeepsStream(cfg: Config, w: World, e: Event)
    requires cfg.Valid() && WorldInv(cfg, w) && Enabled(cfg, w.d, e) && Clean(w.d, e)
    ensures var r := Next(cfg, w, e);
            Flat(r.packets) + Open(r.d) == Flat(r.cuts) + r.part
  {
    hide CutTo, NewChunks, PacketLen, DataLen, Flat, AllCut;
    var (d, o) := Step(cfg, w.d, e);
    var cs := Written(w.d, e, cfg);
    StepStream(cfg, w, e);
    StreamGrows(Flat(w.packets), Open(w.d), Flat(w.cuts), w.part, cs);
    FlatAppend(w.cuts, w.part + cs);
    if o.packet.Some? {
      FlatAppend(w.packets, o.packet.value);
    }
  }

  /** A write_chunks call leaves a run's history well cut. */
  lemma WriteKeepsCuts(cfg: Config, w: World, d: State, w': World)
    requires cfg.Valid() && d.frameId < 0x1_0000 && d.frameId == FrameId(|w.frames|)
    requires d.input.Some? && d.inUsed <= |d.input.value| && |d.input.value| <= cfg.inputMtu
    requires d.out.Some? && OutAvail(cfg, d.out.value) > 0
    requires CutTo(d.input.value, d.frameId, w.part, d.inUsed) && (w.part != [] ==> d.inUsed < |d.input.value|)
    requires AllCut(w.frames, w.cuts)
    requires forall i :: 0 <= i < |w.frames| ==> |w.frames[i]| <= cfg.inputMtu
    requires forall i :: 0 <= i < |w.packets| ==> w.packets[i] != [] && PacketLen(w.packets[i]) <= cfg.outputMtu
    requires var (d', o) := WriteChunks(cfg, d);
             var part := w.part + NewChunks(cfg, d.input.value, d.frameId, d.inUsed, d.out.value);
             w' == World(d', if o.packet.Some? then w.packets + [o.packet.value] else w.packets,
                         if o.done then w.frames + [d.input.value] else w.frames,
                         if o.done then w.cuts + [part] else w.cuts,
                         if o.done then [] else part)
    ensures CutsInv(cfg, w')
  {
    hide CutTo, NewChunks, PacketLen, DataLen, Valid, FrameId, CutWhole;
    WriteKeeps(cfg, w.part, d);
    FrameIdNext(|w.frames|);
  }

  lemma StepKeepsCuts(cfg: Config, w: World, e: Event)
    requires cfg.Valid() && WorldInv(cfg, w) && Enabled(cfg, w.d, e) && Clean(w.d, e)
    ensures CutsInv(cfg, Next(cfg, w, e))
  {
    hide CutTo, NewChunks, PacketLen, DataLen, Flat, AllCut, WriteChunks;
    assert w.part + [] == w.part;
    PacketLenEmpty();
    match e {
      case Send(frame) =>
        CutEmpty(frame, w.d.frameId);
        if w.d.out.Some? {
          WriteKeepsCuts(cfg, w, w.d.(input := Some(frame), inUsed := 0), Next(cfg, w, e));
        }
      case Recv =>
        if w.d.input.Some? {
          WriteKeepsCuts(cfg, w, w.d.(out := Some([])), Next(cfg, w, e));
        }
      case Timer =>
      case Cancel =>
        CutZero(w.d.input.value, w.d.frameId, w.part);
    }
  }

  lemma StepKeeps(cfg: Config, w: World, e: Event)
    requires cfg.Valid() && WorldInv(cfg, w) && Enabled(cfg, w.d, e) && Clean(w.d, e)
    ensures WorldInv(cfg, Next(cfg, w, e))
  {
    hide Step, Next, Flat, CutsInv;
    StepKeepsStream(cfg, w, e);
    StepKeepsCuts(cfg, w, e);
  }

  lemma PacketLenEmpty()
    ensures PacketLen([]) == 0
  {
  }

  lemma CutEmpty(frame: seq<byte>, id: nat)
    ensures CutTo(frame, id, [], 0)
  {
  }

  lemma CutZero(frame: seq<byte>, id: nat, cs: seq<Chunk>)
    requires CutTo(frame, id, cs, 0) && (cs != [] ==> 0 < |frame|)
    ensures cs == []
  {
  }

  predicate CleanStep(cfg: Config, w: World, e: Event, w': World) {
    && cfg.Valid() && Valid(cfg, w.d) && Enabled(cfg, w.d, e) && Clean(w.d, e)
    && w' == Next(cfg, w, e)
  }

  /** A run of enabled events with clean cancels, from the initial state. */
  predicate CleanRun(cfg: Config, ws: seq<World>, es: seq<Event>) {
    && |ws| == |es| + 1
    && ws[0] == Start
    && forall i :: 0 <= i < |es| ==> CleanStep(cfg, ws[i], es[i], ws[i + 1])
  }

  /** The invariant holds at the end of every clean run. */
  lemma {:induction false} RunKeeps(cfg: Config, ws: seq<World>, es: seq<Event>)
    requires cfg.Valid() && CleanRun(cfg, ws, es)
    ensures WorldInv(cfg, ws[|es|])
    decreases |es|
  {
    if es != [] {
      var n := |es| - 1;
      assert CleanRun(cfg, ws[..n + 1], es[..n]);
      RunKeeps(cfg, ws[..n + 1], es[..n]);
      assert CleanStep(cfg, ws[n], es[n], ws[n + 1]);
      StepKeeps(cfg, ws[n], es[n]);
    }
  }

  // ---------------------------------------------------------------- when packets are given out

  /** No other chunk fits into the packet. */
  predicate NoRoom(cfg: Config, cs: seq<Chunk>) { PacketLen(cs) + HEADER >= cfg.outputMtu }

  /** A frame meets an open packet. */
  predicate Meets(d: State, e: Event) { (e.Send? && d.out.Some?) || (e.Recv? && d.input.Some?) }

  /**
    When a packet is given out: at once if the latency is negative; otherwise when it is full, and
    until then it stays open with the timer running; the timer gives it out as it is. The sender of a
    frame is told when it is written or cancelled.
    */
  lemma GivesOut(cfg: Config, d: State, e: Event)
    requires cfg.Valid() && Valid(cfg, d) && Enabled(cfg, d, e)
    ensures var (d', o) := Step(cfg, d, e);
            && (o.packet.Some? ==> o.packet.value != [] && d'.out == None && !d'.timer && (Meets(d, e) || e.Timer?))
            && (Meets(d, e) && o.packet.Some? ==> cfg.latency < 0 || NoRoom(cfg, o.packet.value))
            && (Meets(d, e) && o.packet.None? ==> cfg.latency >= 0 && d'.input == None && d'.timer && d'.out.Some?
                                                  && !NoRoom(cfg, d'.out.value) && |Open(d)| < |d'.out.value|)
            && (e.Timer? ==> o.packet == d.out && d'.input == d.input)
            && (!Meets(d, e) && !e.Timer? ==> Open(d') == Open(d) && d'.timer == d.timer)
            && (o.done <==> (d.input.Some? || e.Send?) && d'.input == None)
  {
    hide NewChunks, DataLen, PacketLen;
    PacketLenEmpty();
    if e.Send? && d.out.Some? {
      NewChunksStop(cfg, e.frame, d.frameId, 0, d.out.value);
    } else if e.Recv? && d.input.Some? {
      NewChunksStop(cfg, d.input.value, d.frameId, d.inUsed, []);
    }
  }

  /** Over clean runs: a packet with room for another chunk was given out by the timer, unless the latency is negative. */
  lemma RoomMeansTimer(cfg: Config, ws: seq<World>, es: seq<Event>, i: nat)
    requires cfg.Valid() && CleanRun(cfg, ws, es) && i < |es|
    ensures var a, b := ws[i].packets, ws[i + 1].packets;
            && (b == a || exists p :: b == a + [p])
            && (b != a ==> b[..|a|] == a && |b| == |a| + 1 && (es[i].Timer? || cfg.latency < 0 || NoRoom(cfg, b[|a|])))
            && (b == a && Meets(ws[i].d, es[i]) ==> ws[i + 1].d.timer && cfg.latency >= 0)
            && (es[i].Timer? ==> b == a + [Open(ws[i].d)])
  {
    hide NewChunks, DataLen, PacketLen, Valid, Step, Enabled, Written;
    assert CleanStep(cfg, ws[i], es[i], ws[i + 1]);
    GivesOut(cfg, ws[i].d, es[i]);
    TimerOpen(cfg, ws[i].d, es[i]);
    var o := Step(cfg, ws[i].d, es[i]).1;
    if o.packet.Some? {
      assert ws[i + 1].packets == ws[i].packets + [o.packet.value];
    }
  }

  lemma TimerOpen(cfg: Config, d: State, e: Event)
    requires Valid(cfg, d) && Enabled(cfg, d, e)
    ensures e.Timer? ==> d.out == Some(Open(d))
  {
  }

  /** Chunk k of a packet is within the limit, and it is as long as it can be, or the end of its frame. */
  predicate ChunkOk(cfg: Config, cs: seq<Chunk>, k: nat)
    requires k < |cs|
  {
    && (cfg.chunkMtu > 0 ==> |cs[k].data| <= cfg.chunkMtu)
    && (cs[k].last || |cs[k].data| == cfg.chunkMtu || (k == |cs| - 1 && NoRoom(cfg, cs)))
  }

  predicate Packed(cfg: Config, cs: seq<Chunk>) { forall k :: 0 <= k < |cs| ==> ChunkOk(cfg, cs, k) }

  /** The loop of write_chunks fills an open packet with chunks of the right length. */
  lemma {:induction false} NewChunksPacked(cfg: Config, frame: seq<byte>, id: nat, used: nat, out: seq<Chunk>)
    requires cfg.Valid() && used <= |frame| && OutAvail(cfg, out) > 0 && Packed(cfg, out)
    ensures Packed(cfg, out + NewChunks(cfg, frame, id, used, out))
    decreases |frame| - used
  {
    hide PacketLen;
    var c := NextChunk(cfg, frame, id, used, out);
    var cs, out1 := NewChunks(cfg, frame, id, used, out), out + [c];
    PacketLenAppend(out, c);
    forall k | 0 <= k < |out| ensures ChunkOk(cfg, out1, k) { assert ChunkOk(cfg, out, k); }
    assert ChunkOk(cfg, out1, |out|);
    if used + |c.data| < |frame| && OutAvail(cfg, out1) > 0 {
      NewChunksPacked(cfg, frame, id, used + |c.data|, out1);
      assert cs[1..] == NewChunks(cfg, frame, id, used + |c.data|, out1);
      Assoc(out, [c], cs[1..]);
    } else {
      assert cs == [c];
    }
  }

  /** The packets of every clean run, and the open one, are packed that way. */
  lemma {:induction false} RunPacked(cfg: Config, ws: seq<World>, es: seq<Event>)
    requires cfg.Valid() && CleanRun(cfg, ws, es)
    ensures Packed(cfg, Open(ws[|es|].d)) && forall i :: 0 <= i < |ws[|es|].packets| ==> Packed(cfg, ws[|es|].packets[i])
    decreases |es|
  {
    hide Packed, Next, Valid, Enabled;
    if es != [] {
      var n := |es| - 1;
      assert CleanRun(cfg, ws[..n + 1], es[..n]);
      RunPacked(cfg, ws[..n + 1], es[..n]);
      assert CleanStep(cfg, ws[n], es[n], ws[n + 1]);
      StepPacked(cfg, ws[n], es[n]);
    } else {
      NothingPacked(cfg);
    }
  }

  lemma NothingPacked(cfg: Config)
    ensures Packed(cfg, [])
  {
  }

  lemma StepPacked(cfg: Config, w: World, e: Event)
    requires cfg.Valid() && Valid(cfg, w.d) && Enabled(cfg, w.d, e)
    requires Packed(cfg, Open(w.d)) && forall i :: 0 <= i < |w.packets| ==> Packed(cfg, w.packets[i])
    ensures var r := Next(cfg, w, e); Packed(cfg, Open(r.d)) && forall i :: 0 <= i < |r.packets| ==> Packed(cfg, r.packets[i])
  {
    hide NewChunks, DataLen, PacketLen, Packed;
    PacketLenEmpty();
    NothingPacked(cfg);
    if e.Send? && w.d.out.Some? {
      NewChunksPacked(cfg, e.frame, w.d.frameId, 0, w.d.out.value);
    } else if e.Recv? && w.d.input.Some? {
      NewChunksPacked(cfg, w.d.input.value, w.d.frameId, w.d.inUsed, []);
    }
  }
}
