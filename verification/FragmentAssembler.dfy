/**
  The FragmentProto assembler as a function on values: what one chunk, one packet and one
  clock tick do to the pool of partly received frames. The imperative form, over frame slots
  with chunk arrays and byte buffers, is in FragmentSlots and is proved against this.
  */
module FragmentAssembler {
  import opened Bytes
  import opened Lists
  import opened FragmentWire

  /** FPA_MAX_TIME */
  const MAX_TIME: nat := 0xFFFF_FFFF

  datatype Config = Config(outputMtu: nat, numFrames: nat, numChunks: nat) {
    /** What FragmentProtoAssembler_Init demands. */
    predicate Valid() { 0 < numFrames < MAX_TIME && 0 < numChunks }
  }

  /** A stored chunk: where it starts and what was copied there. */
  datatype Piece = Piece(start: nat, data: seq<byte>) {
    function End(): nat { start + |data| }

    predicate Covers(i: int) { start <= i < End() }
  }

  /** length is -1 until the last chunk is seen; lengthSoFar bounds the data until then. */
  datatype Frame = Frame(id: nat, time: nat, pieces: seq<Piece>, sum: int, length: int, lengthSoFar: int)

  /** Used frames in list order (oldest allocation first), number of free slots, packet time. */
  datatype State = State(used: seq<Frame>, free: nat, time: nat)

  function Init(cfg: Config): (st: State) { State([], cfg.numFrames, 0) }

  // ---------------------------------------------------------------- the operations

  predicate ChunksOverlap(start1: int, len1: int, start2: int, len2: int) {
    start1 + len1 > start2 && start2 + len2 > start1
  }

  predicate Overlaps(p: Piece, q: Piece) { ChunksOverlap(p.start, |p.data|, q.start, |q.data|) }

  predicate TimedOut(cfg: Config, st: State, f: Frame) { st.time - f.time > cfg.numFrames }

  /** Position of the used frame with this id, or |used|. */
  function FindFrame(used: seq<Frame>, id: nat): (i: nat)
    ensures i <= |used|
    ensures i < |used| ==> used[i].id == id
    ensures forall k :: 0 <= k < i ==> used[k].id != id
  {
    if used == [] then 0 else if used[0].id == id then 0 else 1 + FindFrame(used[1..], id)
  }

  function FreeFrame(st: State, i: nat): (r: State)
    requires i < |st.used|
  {
    st.(used := RemoveAt(st.used, i), free := st.free + 1)
  }

  /** A fresh frame at the end of the used list, evicting the oldest used one if no slot is free. */
  function AllocateFrame(st: State, id: nat): (r: State)
    requires st.free > 0 || st.used != []
    ensures r.used != []
  {
    var s := if st.free == 0 then FreeFrame(st, 0) else st;
    s.(used := s.used + [Frame(id, s.time, [], 0, -1, 0)], free := s.free - 1)
  }

  /** The state in which the frame for id exists and is not timed out, and its position. */
  function FrameFor(cfg: Config, st: State, id: nat): (r: (State, nat))
    requires st.free > 0 || st.used != []
    ensures r.1 < |r.0.used|
  {
    var i := FindFrame(st.used, id);
    if i == |st.used| then
      var s := AllocateFrame(st, id); (s, |s.used| - 1)
    else if TimedOut(cfg, st, st.used[i]) then
      var s := AllocateFrame(FreeFrame(st, i), id); (s, |s.used| - 1)
    else (st, i)
  }

  /** The consistency checks before a chunk is stored. */
  predicate Accepts(f: Frame, p: Piece, last: bool) {
    && (forall k :: 0 <= k < |f.pieces| ==> !Overlaps(f.pieces[k], p))
    && (if last then f.length < 0 && f.lengthSoFar <= p.End()
        else f.length >= 0 ==> p.End() <= f.length)
  }

  function AddPiece(f: Frame, p: Piece, last: bool, time: nat): (r: Frame) {
    f.(time := time,
       pieces := f.pieces + [p],
       sum := f.sum + |p.data|,
       length := if last then p.End() else f.length,
       lengthSoFar := if !last && f.length < 0 && f.lengthSoFar < p.End() then p.End() else f.lengthSoFar)
  }

  predicate Incomplete(f: Frame) { f.length < 0 || f.sum < f.length }

  /** The byte some piece put at offset i of the frame; 0 where there is none. */
  function ByteAt(pieces: seq<Piece>, i: int): (b: byte) {
    if pieces == [] then 0
    else if pieces[0].Covers(i) then pieces[0].data[i - pieces[0].start]
    else ByteAt(pieces[1..], i)
  }

  /** What the pieces alone say the frame is: independent of what a reused buffer held before. */
  function Assemble(pieces: seq<Piece>, length: nat): (r: seq<byte>)
    ensures |r| == length
  {
    seq(length, i => ByteAt(pieces, i))
  }

  /** Storing an accepted piece in frame i: keep it, give up on it, or deliver it. */
  function StorePiece(cfg: Config, s: State, i: nat, p: Piece, last: bool): (r: (State, Option<seq<byte>>))
    requires i < |s.used|
  {
    var g := AddPiece(s.used[i], p, last, s.time);
    if Incomplete(g) then
      if |g.pieces| == cfg.numChunks then (FreeFrame(s, i), None)
      else (s.(used := s.used[i := g]), None)
    else (FreeFrame(s, i), Some(Assemble(g.pieces, g.length)))
  }

  function ProcessChunk(cfg: Config, st: State, c: Chunk): (r: (State, Option<seq<byte>>))
    requires st.free > 0 || st.used != []
  {
    if c.start > cfg.outputMtu || |c.data| > cfg.outputMtu - c.start then (st, None)
    else
      var (s, i) := FrameFor(cfg, st, c.id);
      var f, p := s.used[i], Piece(c.start, c.data);
      if !Accepts(f, p, c.last) then (FreeFrame(s, i), None) else StorePiece(cfg, s, i, p, c.last)
  }

  /** All chunks of a packet in order, collecting the completed frames. */
  function ProcessChunks(cfg: Config, st: State, cs: seq<Chunk>): (r: (State, seq<seq<byte>>))
    requires Inv(cfg, st)
    ensures Inv(cfg, r.0) && r.0.time == st.time
    decreases |cs|
  {
    if cs == [] then (st, [])
    else
      ProcessChunkInv(cfg, st, cs[0]);
      var (s, out) := ProcessChunk(cfg, st, cs[0]);
      var (t, more) := ProcessChunks(cfg, s, cs[1..]);
      (t, if out.Some? then [out.value] + more else more)
  }

  function Survivors(cfg: Config, st: State, fs: seq<Frame>): (r: seq<Frame>)
    ensures |r| <= |fs|
  {
    if fs == [] then []
    else if TimedOut(cfg, st, fs[0]) then Survivors(cfg, st, fs[1..])
    else [fs[0]] + Survivors(cfg, st, fs[1..])
  }

  function MinTime(fs: seq<Frame>): (t: nat)
    requires fs != []
    ensures forall f :: f in fs ==> t <= f.time
    ensures exists f :: f in fs && f.time == t
  {
    if |fs| == 1 then fs[0].time
    else
      var t := MinTime(fs[1..]);
      assert forall f :: f in fs <==> f == fs[0] || f in fs[1..];
      if fs[0].time < t then fs[0].time else t
  }

  function Shift(fs: seq<Frame>, t: nat): (r: seq<Frame>)
    requires forall f :: f in fs ==> t <= f.time
    ensures |r| == |fs| && forall i :: 0 <= i < |fs| ==> r[i] == fs[i].(time := fs[i].time - t)
  {
    if fs == [] then [] else [fs[0].(time := fs[0].time - t)] + Shift(fs[1..], t)
  }

  function ReduceTimes(cfg: Config, st: State): (r: State)
    requires forall f :: f in st.used ==> f.time <= st.time
  {
    var fs := Survivors(cfg, st, st.used);
    var free := st.free + (|st.used| - |fs|);
    if fs == [] then State([], free, 0)
    else
      SurvivorsMembers(cfg, st, st.used);
      State(Shift(fs, MinTime(fs)), free, st.time - MinTime(fs))
  }

  /** The end of an input packet: the clock moves by one, rebased first if it is at its maximum. */
  function Tick(cfg: Config, st: State): (r: State)
    requires Inv(cfg, st)
  {
    if st.time == MAX_TIME then
      var s := ReduceTimes(cfg, st);
      if s.used != [] then s.(time := s.time + 1) else s
    else st.(time := st.time + 1)
  }

  /** One whole input packet, any bytes. */
  function ProcessPacket(cfg: Config, st: State, packet: seq<byte>): (r: (State, seq<seq<byte>>))
    requires Inv(cfg, st)
  {
    var (s, out) := ProcessChunks(cfg, st, ReadChunks(packet, 0));
    (Tick(cfg, s), out)
  }

  // ---------------------------------------------------------------- the invariant

  predicate Disjoint(pieces: seq<Piece>) {
    forall i, j :: 0 <= i < j < |pieces| ==> !Overlaps(pieces[i], pieces[j])
  }

  function Total(pieces: seq<Piece>): (n: nat) {
    if pieces == [] then 0 else Total(pieces[..|pieces| - 1]) + |pieces[|pieces| - 1].data|
  }

  predicate Within(pieces: seq<Piece>, bound: int) {
    forall k :: 0 <= k < |pieces| ==> pieces[k].End() <= bound
  }

  /** What holds of every used frame between chunks, whatever bytes came in. */
  predicate FrameInv(cfg: Config, time: nat, f: Frame) {
    && f.time <= time
    && Disjoint(f.pieces)
    && |f.pieces| < cfg.numChunks
    && Within(f.pieces, cfg.outputMtu)
    && f.sum == Total(f.pieces)
    && f.length <= cfg.outputMtu
    && (if f.length < 0 then Within(f.pieces, f.lengthSoFar)
        else Within(f.pieces, f.length) && f.sum < f.length)
  }

  predicate DistinctIds(fs: seq<Frame>) {
    forall i, j :: 0 <= i < j < |fs| ==> fs[i].id != fs[j].id
  }

  predicate Inv(cfg: Config, st: State) {
    && cfg.Valid()
    && |st.used| + st.free == cfg.numFrames
    && st.time <= MAX_TIME
    && DistinctIds(st.used)
    && forall k :: 0 <= k < |st.used| ==> FrameInv(cfg, st.time, st.used[k])
  }

  // ---------------------------------------------------------------- the tiling theorem

  /** The offsets that pieces cover. */
  ghost function Covered(pieces: seq<Piece>): (r: set<int>) {
    if pieces == [] then {}
    else
      var p := pieces[|pieces| - 1];
      Covered(pieces[..|pieces| - 1]) + Interval(p.start, p.End())
  }

  ghost predicate IsCovered(pieces: seq<Piece>, i: int) {
    exists k :: 0 <= k < |pieces| && pieces[k].Covers(i)
  }

  ghost function Interval(lo: int, hi: int): (r: set<int>)
    ensures forall i :: i in r <==> lo <= i < hi
    decreases hi - lo
  {
    if lo >= hi then {} else Interval(lo, hi - 1) + {hi - 1}
  }

  lemma {:induction false} IntervalSize(lo: int, hi: int)
    requires lo <= hi
    ensures |Interval(lo, hi)| == hi - lo
    decreases hi - lo
  {
    if lo < hi {
      IntervalSize(lo, hi - 1);
    }
  }

  lemma {:induction false} CoveredMembers(pieces: seq<Piece>)
    ensures forall i :: i in Covered(pieces) <==> IsCovered(pieces, i)
  {
    if pieces != [] {
      var front, n := pieces[..|pieces| - 1], |pieces| - 1;
      CoveredMembers(front);
      forall i | i in Covered(pieces)
        ensures IsCovered(pieces, i)
      {
        if i in Covered(front) {
          var k :| 0 <= k < |front| && front[k].Covers(i);
          assert pieces[k] == front[k];
        } else {
          assert pieces[n].Covers(i);
        }
      }
      forall i, k | 0 <= k < |pieces| && pieces[k].Covers(i)
        ensures i in Covered(pieces)
      {
        if k < n {
          assert front[k] == pieces[k];
        }
      }
    }
  }

  /** Disjoint pieces cover exactly as many offsets as they have bytes. */
  lemma {:induction false} CoveredSize(pieces: seq<Piece>)
    requires Disjoint(pieces)
    ensures |Covered(pieces)| == Total(pieces)
  {
    if pieces != [] {
      var front, p := pieces[..|pieces| - 1], pieces[|pieces| - 1];
      CoveredSize(front);
      CoveredMembers(front);
      IntervalSize(p.start, p.End());
      forall i | i in Covered(front)
        ensures i !in Interval(p.start, p.End())
      {
        var k :| 0 <= k < |front| && front[k].Covers(i);
        assert !Overlaps(pieces[k], p);
      }
      assert Covered(front) !! Interval(p.start, p.End());
    }
  }

  /**
    The pigeonhole argument: disjoint pieces inside [0, length) with length bytes in all
    leave no gap.
    */
  lemma Tiling(pieces: seq<Piece>, length: nat)
    requires Disjoint(pieces) && Within(pieces, length) && Total(pieces) == length
    ensures forall i :: 0 <= i < length ==> IsCovered(pieces, i)
    ensures forall i, j, k :: 0 <= j < k < |pieces| && pieces[j].Covers(i) ==> !pieces[k].Covers(i)
  {
    forall i, j, k | 0 <= j < k < |pieces| && pieces[j].Covers(i)
      ensures !pieces[k].Covers(i)
    {
      assert !Overlaps(pieces[j], pieces[k]);
    }
    NoGap(pieces, length);
  }

  lemma NoGap(pieces: seq<Piece>, length: nat)
    requires Disjoint(pieces) && Within(pieces, length) && Total(pieces) == length
    ensures forall i :: 0 <= i < length ==> IsCovered(pieces, i)
  {
    hide Covered;
    CoveredMembers(pieces);
    CoveredSize(pieces);
    RangeSize(length);
    assert Covered(pieces) <= Range(length);
    SubsetOfSameSize(Covered(pieces), Range(length));
  }

  /** Disjoint pieces within a bound never add up to more than the bound (no sum overflow). */
  lemma TotalBounded(pieces: seq<Piece>, bound: nat)
    requires Disjoint(pieces) && Within(pieces, bound)
    ensures Total(pieces) <= bound
  {
    CoveredMembers(pieces);
    CoveredSize(pieces);
    RangeSize(bound);
    SubsetSize(Covered(pieces), Range(bound));
  }

  // ---------------------------------------------------------------- preservation

  lemma AcceptedPiece(cfg: Config, time: nat, f: Frame, p: Piece, last: bool)
    requires FrameInv(cfg, time, f) || (f.pieces == [] && f.sum == 0 && f.length == -1 && f.lengthSoFar == 0)
    requires Accepts(f, p, last) && p.End() <= cfg.outputMtu
    ensures var g := AddPiece(f, p, last, time);
            && Disjoint(g.pieces) && Within(g.pieces, cfg.outputMtu) && g.sum == Total(g.pieces)
            && g.length <= cfg.outputMtu
            && (if g.length < 0 then Within(g.pieces, g.lengthSoFar)
                else Within(g.pieces, g.length) && g.sum <= g.length)
  {
    var g := AddPiece(f, p, last, time);
    assert g.pieces[..|g.pieces| - 1] == f.pieces;
    if g.length >= 0 {
      assert Within(g.pieces, g.length);
      TotalBounded(g.pieces, g.length);
    }
  }

  lemma FreeFrameInv(cfg: Config, st: State, i: nat)
    requires Inv(cfg, st) && i < |st.used|
    ensures Inv(cfg, FreeFrame(st, i))
    ensures forall k :: 0 <= k < |FreeFrame(st, i).used| ==> FreeFrame(st, i).used[k].id != st.used[i].id
  {
  }

  lemma FrameForInv(cfg: Config, st: State, id: nat)
    requires Inv(cfg, st)
    ensures var (s, i) := FrameFor(cfg, st, id);
            Inv(cfg, s) && s.used[i].id == id && s.time == st.time && !TimedOut(cfg, s, s.used[i])
  {
    var i := FindFrame(st.used, id);
    if i < |st.used| && TimedOut(cfg, st, st.used[i]) {
      FreeFrameInv(cfg, st, i);
      AllocateInv(cfg, FreeFrame(st, i), id);
    } else if i == |st.used| {
      AllocateInv(cfg, st, id);
    }
  }

  lemma AllocateInv(cfg: Config, st: State, id: nat)
    requires Inv(cfg, st) && forall k :: 0 <= k < |st.used| ==> st.used[k].id != id
    ensures var s := AllocateFrame(st, id);
            Inv(cfg, s) && s.used[|s.used| - 1].id == id && s.time == st.time
  {
    if st.free == 0 {
      FreeFrameInv(cfg, st, 0);
    }
  }

  lemma HasSlot(cfg: Config, st: State)
    requires Inv(cfg, st)
    ensures st.free > 0 || st.used != []
  {
  }

  /**
    Every chunk, well formed or not, keeps the invariant (disjoint pieces within the frame's
    bound, fewer than numChunks), and does not move the clock.
    */
  lemma ProcessChunkInv(cfg: Config, st: State, c: Chunk)
    requires Inv(cfg, st)
    ensures Inv(cfg, ProcessChunk(cfg, st, c).0) && ProcessChunk(cfg, st, c).0.time == st.time
  {
    hide Inv, FrameFor, StorePiece, Accepts;
    HasSlot(cfg, st);
    if c.start <= cfg.outputMtu && |c.data| <= cfg.outputMtu - c.start {
      FrameForInv(cfg, st, c.id);
      var (s, i) := FrameFor(cfg, st, c.id);
      FreeFrameInv(cfg, s, i);
      if Accepts(s.used[i], Piece(c.start, c.data), c.last) {
        StoreInv(cfg, s, i, Piece(c.start, c.data), c.last);
      }
    }
  }

  lemma StoreInv(cfg: Config, s: State, i: nat, p: Piece, last: bool)
    requires Inv(cfg, s) && i < |s.used| && Accepts(s.used[i], p, last) && p.End() <= cfg.outputMtu
    ensures Inv(cfg, StorePiece(cfg, s, i, p, last).0) && StorePiece(cfg, s, i, p, last).0.time == s.time
  {
    hide Accepts, Disjoint, Within, Total;
    FreeFrameInv(cfg, s, i);
    AcceptedPiece(cfg, s.time, s.used[i], p, last);
  }

  /** Where a delivered frame comes from: pieces of one id that tile it, each byte written once. */
  ghost predicate DeliveredFrom(cfg: Config, st: State, c: Chunk, pieces: seq<Piece>, frame: seq<byte>) {
    && |pieces| > 0 && |pieces| <= cfg.numChunks
    && pieces[|pieces| - 1] == Piece(c.start, c.data)
    && (|pieces| == 1 || exists k :: 0 <= k < |st.used| && st.used[k].id == c.id
                                     && st.used[k].pieces == pieces[..|pieces| - 1])
    && Disjoint(pieces) && Within(pieces, |frame|) && Total(pieces) == |frame|
    && frame == Assemble(pieces, |frame|)
  }

  lemma DeliveryTiles(cfg: Config, st: State, c: Chunk) returns (pieces: seq<Piece>)
    requires Inv(cfg, st) && ProcessChunk(cfg, st, c).1.Some?
    ensures DeliveredFrom(cfg, st, c, pieces, ProcessChunk(cfg, st, c).1.value)
  {
    FrameForInv(cfg, st, c.id);
    var (s, i) := FrameFor(cfg, st, c.id);
    var f, p := s.used[i], Piece(c.start, c.data);
    AcceptedPiece(cfg, s.time, f, p, c.last);
    pieces := f.pieces + [p];
    assert pieces[..|pieces| - 1] == f.pieces;
  }

  /** ByteAt reads the piece that covers the offset, when the pieces are disjoint. */
  lemma {:induction false} ByteAtPiece(pieces: seq<Piece>, i: int, k: nat)
    requires Disjoint(pieces) && k < |pieces| && pieces[k].Covers(i)
    ensures ByteAt(pieces, i) == pieces[k].data[i - pieces[k].start]
  {
    if k > 0 {
      assert !Overlaps(pieces[0], pieces[k]);
      ByteAtPiece(pieces[1..], i, k - 1);
    }
  }

  /** If every piece is a slice of one frame of this length, the delivery is that frame. */
  lemma AssembleSlices(pieces: seq<Piece>, frame: seq<byte>)
    requires Disjoint(pieces) && Within(pieces, |frame|) && Total(pieces) == |frame|
    requires forall k :: 0 <= k < |pieces| ==> pieces[k].data == frame[pieces[k].start..pieces[k].End()]
    ensures Assemble(pieces, |frame|) == frame
  {
    NoGap(pieces, |frame|);
    forall i | 0 <= i < |frame|
      ensures Assemble(pieces, |frame|)[i] == frame[i]
    {
      SliceByte(pieces, frame, i);
    }
  }

  lemma SliceByte(pieces: seq<Piece>, frame: seq<byte>, i: nat)
    requires Disjoint(pieces) && Within(pieces, |frame|) && IsCovered(pieces, i) && i < |frame|
    requires forall k :: 0 <= k < |pieces| ==> pieces[k].data == frame[pieces[k].start..pieces[k].End()]
    ensures ByteAt(pieces, i) == frame[i]
  {
    var k :| 0 <= k < |pieces| && pieces[k].Covers(i);
    ByteAtPiece(pieces, i, k);
    assert pieces[k].data == frame[pieces[k].start..pieces[k].End()];
  }

  // ---------------------------------------------------------------- the clock

  lemma {:induction false} SurvivorsMembers(cfg: Config, st: State, fs: seq<Frame>)
    ensures forall f :: f in Survivors(cfg, st, fs) <==> f in fs && !TimedOut(cfg, st, f)
  {
    if fs != [] {
      SurvivorsMembers(cfg, st, fs[1..]);
      assert forall f :: f in fs <==> f == fs[0] || f in fs[1..];
    }
  }

  lemma {:induction false} SurvivorsDistinct(cfg: Config, st: State, fs: seq<Frame>)
    requires DistinctIds(fs)
    ensures DistinctIds(Survivors(cfg, st, fs))
  {
    if fs != [] {
      SurvivorsDistinct(cfg, st, fs[1..]);
      SurvivorsMembers(cfg, st, fs[1..]);
      var r := Survivors(cfg, st, fs[1..]);
      forall k | 0 <= k < |r|
        ensures r[k].id != fs[0].id
      {
        assert r[k] in fs[1..];
      }
    }
  }

  /** g in state r is f in state st, unchanged except that it aged by delta. */
  predicate SameButTime(st: State, f: Frame, r: State, g: Frame, delta: nat) {
    g == f.(time := g.time) && r.time - g.time == st.time - f.time + delta
  }

  /**
    Rebasing the clock drops exactly the timed-out frames, keeps every survivor (in order)
    with its age and everything else, and leaves room for the next increment.
    */
  lemma ReduceTimesCorrect(cfg: Config, st: State)
    requires Inv(cfg, st)
    ensures forall f :: f in Survivors(cfg, st, st.used) <==> f in st.used && st.time - f.time <= cfg.numFrames
    ensures var r := ReduceTimes(cfg, st);
            && Inv(cfg, r)
            && |r.used| == |Survivors(cfg, st, st.used)|
            && (forall k :: 0 <= k < |r.used| ==>
                  SameButTime(st, Survivors(cfg, st, st.used)[k], r, r.used[k], 0))
            && (st.time == MAX_TIME ==> r.time < MAX_TIME)
  {
    hide FrameInv, DistinctIds, Survivors, MinTime;
    var fs := Survivors(cfg, st, st.used);
    SurvivorsMembers(cfg, st, st.used);
    SurvivorsDistinct(cfg, st, st.used);
    forall f | f in st.used ensures FrameInv(cfg, st.time, f) && f.time <= st.time { FrameTime(cfg, st.time, f); }
    if fs != [] {
      ShiftInv(cfg, st.time, fs, MinTime(fs));
      var f :| f in fs && f.time == MinTime(fs);
      assert f in st.used && !TimedOut(cfg, st, f);
    }
    NoFrames(cfg);
  }

  lemma FrameTime(cfg: Config, time: nat, f: Frame)
    requires FrameInv(cfg, time, f)
    ensures f.time <= time
  {
  }

  lemma NoFrames(cfg: Config)
    ensures DistinctIds([])
  {
  }

  lemma ShiftInv(cfg: Config, time: nat, fs: seq<Frame>, t: nat)
    requires DistinctIds(fs) && forall f :: f in fs ==> t <= f.time && FrameInv(cfg, time, f)
    ensures DistinctIds(Shift(fs, t))
    ensures t <= time ==> forall k :: 0 <= k < |fs| ==> FrameInv(cfg, time - t, Shift(fs, t)[k])
  {
    forall k | 0 <= k < |fs| && t <= time
      ensures FrameInv(cfg, time - t, Shift(fs, t)[k])
    {
      assert fs[k] in fs;
    }
  }

  lemma AgeFrames(cfg: Config, st: State)
    requires Inv(cfg, st) && st.time < MAX_TIME
    ensures Inv(cfg, st.(time := st.time + 1))
  {
  }

  /** A tick keeps the invariant, ages each surviving frame by one, and never wraps. */
  lemma TickInv(cfg: Config, st: State)
    requires Inv(cfg, st)
    ensures var r := Tick(cfg, st);
            && Inv(cfg, r)
            && (st.time < MAX_TIME ==> r == st.(time := st.time + 1))
            && (st.time == MAX_TIME ==> |r.used| == |Survivors(cfg, st, st.used)| && (r.used == [] ==> r.time == 0))
            && (forall k :: 0 <= k < |r.used| ==>
                  SameButTime(st, if st.time < MAX_TIME then st.used[k] else Survivors(cfg, st, st.used)[k],
                              r, r.used[k], 1))
  {
    hide Survivors;
    if st.time == MAX_TIME {
      ReduceTimesCorrect(cfg, st);
      AgeFrames(cfg, ReduceTimes(cfg, st));
    } else {
      AgeFrames(cfg, st);
    }
  }

  /** The invariant over whole runs: any packets, any bytes, from the initial state. */
  function Run(cfg: Config, st: State, packets: seq<seq<byte>>): (r: (State, seq<seq<byte>>))
    requires Inv(cfg, st)
    ensures Inv(cfg, r.0)
    decreases |packets|
  {
    if packets == [] then (st, [])
    else
      var (s, out) := ProcessPacket(cfg, st, packets[0]);
      TickInv(cfg, ProcessChunks(cfg, st, ReadChunks(packets[0], 0)).0);
      var (t, more) := Run(cfg, s, packets[1..]);
      (t, out + more)
  }

  /** The clock moves at most once for each packet, however many frames it completes, and never wraps. */
  lemma PacketTicksOnce(cfg: Config, st: State, packet: seq<byte>)
    requires Inv(cfg, st)
    ensures var r := ProcessPacket(cfg, st, packet).0;
            Inv(cfg, r) && r.time <= 0xFFFF_FFFF && (st.time < 0xFFFF_FFFF ==> r.time == st.time + 1)
  {
    hide Inv, Tick;
    var s := ProcessChunks(cfg, st, ReadChunks(packet, 0)).0;
    TickInv(cfg, s);
    TimeBound(cfg, Tick(cfg, s));
  }

  lemma TimeBound(cfg: Config, st: State)
    requires Inv(cfg, st)
    ensures st.time <= MAX_TIME
  {
  }
}
