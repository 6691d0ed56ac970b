/** FragmentProto end to end: what an assembler delivers when fed a disassembler's packets. */
module FragmentEndToEnd {
  import opened Bytes
  import opened Lists
  import opened FragmentWire
  import A = FragmentAssembler
  import D = FragmentDisassembler

  function Encode(packets: seq<seq<Chunk>>): (r: seq<seq<byte>>)
    ensures |r| == |packets| && forall i :: 0 <= i < |packets| ==> r[i] == EncodePacket(packets[i])
  {
    seq(|packets|, i requires 0 <= i < |packets| => EncodePacket(packets[i]))
  }

  // ---------------------------------------------------------------- facts about a cut frame

  ghost predicate GoodChunk(frame: seq<byte>, id: nat, c: Chunk) {
    && c.id == id
    && c.start + |c.data| <= |frame|
    && c.data == frame[c.start..c.start + |c.data|]
    && (c.last <==> c.start + |c.data| == |frame|)
  }

  /** The chunks of a cut, one by one: each a slice, contiguous from 0, only the end one last. */
  ghost predicate Contiguous(frame: seq<byte>, id: nat, cs: seq<Chunk>) {
    && (forall k :: 0 <= k < |cs| ==> GoodChunk(frame, id, cs[k]))
    && (cs != [] ==> cs[0].start == 0)
    && (forall k :: 0 < k < |cs| ==> cs[k].start == cs[k - 1].start + |cs[k - 1].data|)
    && (forall k :: 0 <= k < |cs| - 1 ==> !cs[k].last)
  }

  lemma {:induction false} CutContiguous(frame: seq<byte>, id: nat, cs: seq<Chunk>, upto: nat)
    requires upto <= |frame| && D.CutTo(frame, id, cs, upto)
    ensures Contiguous(frame, id, cs)
    ensures cs != [] ==> cs[|cs| - 1].start + |cs[|cs| - 1].data| == upto
    decreases |cs|
  {
    if cs != [] {
      var c, front := cs[|cs| - 1], cs[..|cs| - 1];
      CutContiguous(frame, id, front, c.start);
      assert GoodChunk(frame, id, c);
      forall k | 0 <= k < |cs|
        ensures GoodChunk(frame, id, cs[k])
      {
        assert k < |front| ==> cs[k] == front[k];
      }
      if front != [] {
        assert !front[|front| - 1].last;
      }
    }
  }

  lemma {:induction false} ContiguousOrder(frame: seq<byte>, id: nat, cs: seq<Chunk>, i: nat, j: nat)
    requires Contiguous(frame, id, cs) && i < j < |cs|
    ensures cs[i].start + |cs[i].data| <= cs[j].start
    decreases j
  {
    if i < j - 1 {
      ContiguousOrder(frame, id, cs, i, j - 1);
    }
  }

  // ---------------------------------------------------------------- safety: loss, duplication, reordering

  /** c is a slice of the frame its id names; only frames below n have their last chunk around. */
  ghost predicate Genuine(src: seq<seq<byte>>, n: nat, c: Chunk) {
    c.id < |src| && GoodChunk(src[c.id], c.id, c) && (c.last ==> c.id < n)
  }

  ghost predicate SliceOf(frame: seq<byte>, p: A.Piece) {
    p.End() <= |frame| && p.data == frame[p.start..p.End()]
  }

  ghost predicate GenuineFrame(src: seq<seq<byte>>, n: nat, f: A.Frame) {
    && f.id < |src|
    && (forall k :: 0 <= k < |f.pieces| ==> SliceOf(src[f.id], f.pieces[k]))
    && (f.length >= 0 ==> f.length == |src[f.id]| && f.id < n)
  }

  ghost predicate GenuineState(src: seq<seq<byte>>, n: nat, st: A.State) {
    forall k :: 0 <= k < |st.used| ==> GenuineFrame(src, n, st.used[k])
  }

  lemma FrameForGenuine(src: seq<seq<byte>>, n: nat, cfg: A.Config, st: A.State, id: nat)
    requires A.Inv(cfg, st) && GenuineState(src, n, st) && id < |src|
    ensures GenuineState(src, n, A.FrameFor(cfg, st, id).0)
  {
  }

  lemma GenuineStep(src: seq<seq<byte>>, n: nat, cfg: A.Config, st: A.State, c: Chunk)
    requires A.Inv(cfg, st) && GenuineState(src, n, st) && Genuine(src, n, c)
    ensures var (s, out) := A.ProcessChunk(cfg, st, c);
            GenuineState(src, n, s) && (out.Some? ==> c.id < n && out.value == src[c.id])
  {
    hide A.FrameFor, A.FrameInv, A.Assemble, A.Overlaps, A.Disjoint, A.Total;
    if c.start <= cfg.outputMtu && |c.data| <= cfg.outputMtu - c.start {
      var (s, i) := A.FrameFor(cfg, st, c.id);
      A.FrameForInv(cfg, st, c.id);
      FrameForGenuine(src, n, cfg, st, c.id);
      var f, p := s.used[i], A.Piece(c.start, c.data);
      if A.Accepts(f, p, c.last) {
        A.AcceptedPiece(cfg, s.time, f, p, c.last);
        var g := A.AddPiece(f, p, c.last, s.time);
        assert GenuineFrame(src, n, g);
        if !A.Incomplete(g) {
          A.AssembleSlices(g.pieces, src[c.id]);
        }
      }
    }
  }

  lemma {:induction false} GenuineChunks(src: seq<seq<byte>>, n: nat, cfg: A.Config, st: A.State, cs: seq<Chunk>)
    requires A.Inv(cfg, st) && GenuineState(src, n, st) && n <= |src|
    requires forall k :: 0 <= k < |cs| ==> Genuine(src, n, cs[k])
    ensures var (s, out) := A.ProcessChunks(cfg, st, cs);
            GenuineState(src, n, s) && forall x :: x in out ==> x in src[..n]
    decreases |cs|
  {
    if cs != [] {
      hide A.ProcessChunk, A.Inv;
      A.ProcessChunkInv(cfg, st, cs[0]);
      GenuineStep(src, n, cfg, st, cs[0]);
      var (s, out) := A.ProcessChunk(cfg, st, cs[0]);
      if out.Some? {
        assert src[..n][cs[0].id] == out.value;
      }
      GenuineChunks(src, n, cfg, s, cs[1..]);
    }
  }

  lemma GenuineTick(src: seq<seq<byte>>, n: nat, cfg: A.Config, st: A.State)
    requires A.Inv(cfg, st) && GenuineState(src, n, st)
    ensures GenuineState(src, n, A.Tick(cfg, st))
  {
    A.TickInv(cfg, st);
    A.SurvivorsMembers(cfg, st, st.used);
    var r := A.Tick(cfg, st);
    forall k | 0 <= k < |r.used|
      ensures GenuineFrame(src, n, r.used[k])
    {
      var f := if st.time < A.MAX_TIME then st.used[k] else A.Survivors(cfg, st, st.used)[k];
      assert f in st.used;
      assert A.SameButTime(st, f, r, r.used[k], 1);
    }
  }

  ghost predicate GenuinePacket(src: seq<seq<byte>>, n: nat, packet: seq<byte>) {
    forall k :: 0 <= k < |ReadChunks(packet, 0)| ==> Genuine(src, n, ReadChunks(packet, 0)[k])
  }

  lemma {:induction false} GenuineRun(src: seq<seq<byte>>, n: nat, cfg: A.Config, st: A.State, packets: seq<seq<byte>>)
    requires A.Inv(cfg, st) && GenuineState(src, n, st) && n <= |src|
    requires forall i :: 0 <= i < |packets| ==> GenuinePacket(src, n, packets[i])
    ensures forall x :: x in A.Run(cfg, st, packets).1 ==> x in src[..n]
    decreases |packets|
  {
    if packets != [] {
      hide A.Tick, A.ProcessChunks, A.Inv, ReadChunks;
      var cs := ReadChunks(packets[0], 0);
      var s := A.ProcessChunks(cfg, st, cs).0;
      GenuineChunks(src, n, cfg, st, cs);
      GenuineTick(src, n, cfg, s);
      A.TickInv(cfg, s);
      GenuineRun(src, n, cfg, A.Tick(cfg, s), packets[1..]);
    }
  }

  /** The frames a run has taken in: the finished ones and the one being cut. */
  function Sources(w: D.World): (src: seq<seq<byte>>) {
    if w.d.input.Some? then w.frames + [w.d.input.value] else w.frames
  }

  lemma {:induction false} InFlat(css: seq<seq<Chunk>>, i: nat, c: Chunk)
    requires i < |css| && c in css[i]
    ensures c in D.Flat(css)
    decreases |css|
  {
    if i < |css| - 1 {
      InFlat(css[..|css| - 1], i, c);
    }
  }

  lemma {:induction false} FromFlat(css: seq<seq<Chunk>>, c: Chunk) returns (i: nat)
    requires c in D.Flat(css)
    ensures i < |css| && c in css[i]
    decreases |css|
  {
    if c in css[|css| - 1] {
      i := |css| - 1;
    } else {
      i := FromFlat(css[..|css| - 1], c);
    }
  }

  /** Every chunk of a sent packet is genuine and fits the header, if ids are not reused. */
  lemma SentChunk(cfg: D.Config, w: D.World, i: nat, c: Chunk)
    requires cfg.Valid() && D.WorldInv(cfg, w) && |Sources(w)| <= 0x1_0000
    requires i < |w.packets| && c in w.packets[i]
    ensures Genuine(Sources(w), |w.frames|, c) && Fits(c)
  {
    hide D.CutTo, D.Flat;
    InFlat(w.packets, i, c);
    assert c in D.Flat(w.packets) + D.Open(w.d);
    assert c in D.Flat(w.cuts) || c in w.part;
    if c in D.Flat(w.cuts) {
      var k := FromFlat(w.cuts, c);
      assert D.CutWhole(w.frames[k], D.FrameId(k), w.cuts[k]);
      CutContiguous(w.frames[k], k, w.cuts[k], |w.frames[k]|);
      assert Sources(w)[k] == w.frames[k];
    } else {
      CutContiguous(w.d.input.value, w.d.frameId, w.part, w.d.inUsed);
      assert w.d.frameId == |w.frames| && Sources(w)[|w.frames|] == w.d.input.value;
      var k :| 0 <= k < |w.part| && w.part[k] == c;
      assert GoodChunk(w.d.input.value, w.d.frameId, c);
      if k < |w.part| - 1 {
        ContiguousOrder(w.d.input.value, w.d.frameId, w.part, k, |w.part| - 1);
      }
    }
  }

  lemma SafetyFrom(dcfg: D.Config, w: D.World, acfg: A.Config, arrivals: seq<seq<byte>>)
    requires dcfg.Valid() && acfg.Valid() && D.WorldInv(dcfg, w) && |Sources(w)| <= 0x1_0000
    requires forall i :: 0 <= i < |arrivals| ==> arrivals[i] in Encode(w.packets)
    ensures A.Inv(acfg, A.Init(acfg)) && forall x :: x in A.Run(acfg, A.Init(acfg), arrivals).1 ==> x in w.frames
  {
    hide D.WorldInv, GenuinePacket, A.Run, A.Inv, GenuineState;
    InitGenuine(acfg, Sources(w), |w.frames|);
    forall i | 0 <= i < |arrivals|
      ensures GenuinePacket(Sources(w), |w.frames|, arrivals[i])
    {
      ArrivalGenuine(dcfg, w, arrivals[i]);
    }
    GenuineRun(Sources(w), |w.frames|, acfg, A.Init(acfg), arrivals);
    assert Sources(w)[..|w.frames|] == w.frames;
  }

  /**
    Safety. Whatever the network does (any selection of the sent packets, in any order, any
    number of times), everything delivered is byte for byte a frame that was sent, provided
    no frame id was used twice.
    */
  lemma Safety(dcfg: D.Config, ws: seq<D.World>, es: seq<D.Event>, acfg: A.Config, arrivals: seq<seq<byte>>)
    requires dcfg.Valid() && acfg.Valid() && D.CleanRun(dcfg, ws, es)
    requires |Sources(ws[|es|])| <= 0x1_0000
    requires forall i :: 0 <= i < |arrivals| ==> arrivals[i] in Encode(ws[|es|].packets)
    ensures forall x :: x in A.Run(acfg, A.Init(acfg), arrivals).1 ==> x in ws[|es|].frames
  {
    D.RunKeeps(dcfg, ws, es);
    SafetyFrom(dcfg, ws[|es|], acfg, arrivals);
  }

  lemma InitGenuine(cfg: A.Config, src: seq<seq<byte>>, n: nat)
    requires cfg.Valid()
    ensures A.Inv(cfg, A.Init(cfg)) && GenuineState(src, n, A.Init(cfg))
  {
  }

  lemma ArrivalGenuine(dcfg: D.Config, w: D.World, packet: seq<byte>)
    requires dcfg.Valid() && D.WorldInv(dcfg, w) && |Sources(w)| <= 0x1_0000
    requires packet in Encode(w.packets)
    ensures GenuinePacket(Sources(w), |w.frames|, packet)
  {
    hide ReadChunks, EncodePacket, Genuine, D.WorldInv;
    var j :| 0 <= j < |w.packets| && Encode(w.packets)[j] == packet;
    forall c | c in w.packets[j]
      ensures Fits(c) && Genuine(Sources(w), |w.frames|, c)
    {
      SentChunk(dcfg, w, j, c);
    }
    PacketRoundTrip(w.packets[j]);
  }

  // ---------------------------------------------------------------- round trip, in order

  function Pieces(cs: seq<Chunk>): (ps: seq<A.Piece>)
    ensures |ps| == |cs| && forall k :: 0 <= k < |cs| ==> ps[k] == A.Piece(cs[k].start, cs[k].data)
  {
    seq(|cs|, k requires 0 <= k < |cs| => A.Piece(cs[k].start, cs[k].data))
  }

  /** The assembler has taken j chunks of the current cut and nothing else is pending. */
  ghost predicate InOrder(st: A.State, id: nat, cs: seq<Chunk>, j: nat, age: nat) {
    && j <= |cs|
    && (j == 0 ==> st.used == [])
    && (j > 0 ==>
          var end := cs[j - 1].start + |cs[j - 1].data|;
          && |st.used| == 1
          && st.used[0] == A.Frame(id, st.used[0].time, Pieces(cs[..j]), end, -1, end)
          && st.time - st.used[0].time <= age)
  }

  lemma FrameForInOrder(cfg: A.Config, st: A.State, id: nat, cs: seq<Chunk>, j: nat, age: nat)
    requires A.Inv(cfg, st) && InOrder(st, id, cs, j, age) && age <= 1 && j < |cs|
    ensures var (s, i) := A.FrameFor(cfg, st, id);
            && i == 0 && |s.used| == 1 && s.time == st.time
            && s.used[0] == (if j == 0 then A.Frame(id, st.time, [], 0, -1, 0) else st.used[0])
  {
  }

  /** Feeding the next chunk of a cut either extends the pending frame or delivers it. */
  lemma FeedOne(cfg: A.Config, st: A.State, frame: seq<byte>, id: nat, cs: seq<Chunk>, j: nat, age: nat)
    requires A.Inv(cfg, st) && InOrder(st, id, cs, j, age) && age <= 1 && Contiguous(frame, id, cs) && j < |cs|
    requires |frame| <= cfg.outputMtu
    requires if cs[|cs| - 1].last then |cs| <= cfg.numChunks else |cs| < cfg.numChunks
    ensures var (s, out) := A.ProcessChunk(cfg, st, cs[j]);
            if cs[j].last then j == |cs| - 1 && s.used == [] && out == Some(frame)
            else InOrder(s, id, cs, j + 1, 0) && out == None
  {
    hide A.FrameFor, A.FrameInv, A.Overlaps, A.Disjoint, A.Total, A.Assemble;
    var c := cs[j];
    assert GoodChunk(frame, id, c);
    FrameForInOrder(cfg, st, id, cs, j, age);
    var (s, i) := A.FrameFor(cfg, st, id);
    A.FrameForInv(cfg, st, id);
    var f, p := s.used[0], A.Piece(c.start, c.data);
    FeedAccepts(f, frame, id, cs, j);
    A.AcceptedPiece(cfg, s.time, f, p, c.last);
    var g := A.AddPiece(f, p, c.last, s.time);
    assert cs[..j + 1] == cs[..j] + [c];
    assert g.pieces == Pieces(cs[..j + 1]);
    LastIsEnd(frame, id, cs, j);
    if c.last {
      FeedDelivers(g.pieces, frame, id, cs, j);
    }
  }

  lemma FeedAccepts(f: A.Frame, frame: seq<byte>, id: nat, cs: seq<Chunk>, j: nat)
    requires Contiguous(frame, id, cs) && j < |cs|
    requires f.pieces == Pieces(cs[..j]) && f.length == -1
    requires f.lengthSoFar == f.sum == if j == 0 then 0 else cs[j - 1].start + |cs[j - 1].data|
    ensures A.Accepts(f, A.Piece(cs[j].start, cs[j].data), cs[j].last)
    ensures f.sum == f.lengthSoFar == cs[j].start
  {
    forall k | 0 <= k < j
      ensures !A.Overlaps(f.pieces[k], A.Piece(cs[j].start, cs[j].data))
    {
      ContiguousOrder(frame, id, cs, k, j);
      assert cs[..j][k] == cs[k];
    }
  }

  lemma FeedDelivers(pieces: seq<A.Piece>, frame: seq<byte>, id: nat, cs: seq<Chunk>, j: nat)
    requires Contiguous(frame, id, cs) && j < |cs| && cs[j].last && pieces == Pieces(cs[..j + 1])
    requires A.Disjoint(pieces) && A.Total(pieces) == |frame|
    ensures A.Assemble(pieces, |frame|) == frame
  {
    forall k | 0 <= k < |pieces|
      ensures pieces[k].End() <= |frame| && pieces[k].data == frame[pieces[k].start..pieces[k].End()]
    {
      assert GoodChunk(frame, id, cs[k]) && cs[..j + 1][k] == cs[k];
    }
    A.AssembleSlices(pieces, frame);
  }

  lemma TickInOrder(cfg: A.Config, st: A.State, id: nat, cs: seq<Chunk>, j: nat)
    requires A.Inv(cfg, st) && InOrder(st, id, cs, j, 0)
    ensures InOrder(A.Tick(cfg, st), id, cs, j, 1)
  {
    A.TickInv(cfg, st);
    if j > 0 {
      assert st.used[1..] == [];
      assert !A.TimedOut(cfg, st, st.used[0]);
      assert A.Survivors(cfg, st, st.used) == [st.used[0]] + A.Survivors(cfg, st, []);
      var r := A.Tick(cfg, st);
      assert |r.used| == 1;
      assert A.SameButTime(st, st.used[0], r, r.used[0], 1);
    }
  }

  /** all[n], all[n+1], ... one after the other. */
  function FlatFrom(all: seq<seq<Chunk>>, n: nat): (cs: seq<Chunk>)
    requires n <= |all|
    decreases |all| - n
  {
    if n == |all| then [] else all[n] + FlatFrom(all, n + 1)
  }

  /** What is still to come when j chunks of all[n] have been taken. */
  function Rest(all: seq<seq<Chunk>>, n: nat, j: nat): (cs: seq<Chunk>)
    requires n < |all| && j <= |all[n]|
  {
    all[n][j..] + FlatFrom(all, n + 1)
  }

  /**
    The stream the assembler is fed: the cuts of src[..|src|-1], each ending in its last
    chunk, and a part of src's end that lacks its last chunk; enough chunk slots for each.
    */
  ghost predicate Stream(cfg: A.Config, src: seq<seq<byte>>, all: seq<seq<Chunk>>) {
    && |src| == |all| > 0
    && (forall i :: 0 <= i < |all| ==> Contiguous(src[i], D.FrameId(i), all[i]) && |src[i]| <= cfg.outputMtu)
    && (forall i :: 0 <= i < |all| - 1 ==>
          all[i] != [] && all[i][|all[i]| - 1].last && |all[i]| <= cfg.numChunks)
    && (var e := all[|all| - 1]; |e| < cfg.numChunks && (e != [] ==> !e[|e| - 1].last))
  }

  lemma SplitSlice<T>(s: seq<T>, a: nat, b: nat, c: nat)
    requires a <= b <= c <= |s|
    ensures s[a..c] == s[a..b] + s[b..c]
  {
  }

  /** A place in the stream: not at the end of a whole cut. */
  ghost predicate Place(all: seq<seq<Chunk>>, n: nat, j: nat) {
    n < |all| && j <= |all[n]| && (n < |all| - 1 ==> j < |all[n]|)
  }

  /** The next chunk of the stream and the place after it. */
  lemma Advance(cfg: A.Config, src: seq<seq<byte>>, all: seq<seq<Chunk>>, n: nat, j: nat, c: Chunk, rest: seq<Chunk>)
    returns (n1: nat, j1: nat)
    requires Stream(cfg, src, all) && |src| == |all| && Place(all, n, j) && [c] + rest == Rest(all, n, j)
    ensures j < |all[n]| && c == all[n][j] && Place(all, n1, j1) && rest == Rest(all, n1, j1)
    ensures if c.last then n1 == n + 1 && j1 == 0 else n1 == n && j1 == j + 1
  {
    hide Contiguous, D.FrameId;
    assert |Rest(all, n, j)| == 1 + |rest|;
    assert c == Rest(all, n, j)[0] == all[n][j];
    assert rest == ([c] + rest)[1..] == all[n][j + 1..] + FlatFrom(all, n + 1);
    assert Contiguous(src[n], D.FrameId(n), all[n]);
    LastIsEnd(src[n], D.FrameId(n), all[n], j);
    if c.last {
      n1, j1 := n + 1, 0;
      assert all[n][j + 1..] == [];
      assert all[n1][0..] == all[n1];
    } else {
      n1, j1 := n, j + 1;
    }
  }

  lemma LastIsEnd(frame: seq<byte>, id: nat, cs: seq<Chunk>, j: nat)
    requires Contiguous(frame, id, cs) && j < |cs|
    ensures cs[j].last ==> j == |cs| - 1
  {
  }

  lemma FeedNext(cfg: A.Config, st: A.State, src: seq<seq<byte>>, all: seq<seq<Chunk>>, n: nat, j: nat, age: nat,
                 c: Chunk, rest: seq<Chunk>)
    returns (n1: nat, j1: nat)
    requires A.Inv(cfg, st) && Stream(cfg, src, all) && |src| == |all| && Place(all, n, j) && age <= 1
    requires InOrder(st, D.FrameId(n), all[n], j, age) && [c] + rest == Rest(all, n, j)
    ensures Place(all, n1, j1) && rest == Rest(all, n1, j1) && n <= n1 <= n + 1
    ensures A.ProcessChunk(cfg, st, c).1 == if n1 == n then None else Some(src[n])
    ensures InOrder(A.ProcessChunk(cfg, st, c).0, D.FrameId(n1), all[n1], j1, 0)
  {
    hide A.ProcessChunk, A.Inv, Contiguous, D.FrameId, Rest;
    n1, j1 := Advance(cfg, src, all, n, j, c, rest);
    FeedOne(cfg, st, src[n], D.FrameId(n), all[n], j, age);
  }

  /** Feeding a run of chunks of the stream delivers the frames whose last chunk is among them. */
  lemma {:induction false} FeedChunks(cfg: A.Config, st: A.State, src: seq<seq<byte>>, all: seq<seq<Chunk>>,
                                      n: nat, j: nat, age: nat, cs: seq<Chunk>, tail: seq<Chunk>)
    returns (n': nat, j': nat)
    requires A.Inv(cfg, st) && Stream(cfg, src, all) && |src| == |all| && Place(all, n, j) && age <= 1
    requires InOrder(st, D.FrameId(n), all[n], j, age) && cs + tail == Rest(all, n, j)
    ensures n <= n' <= |src| && Place(all, n', j') && tail == Rest(all, n', j')
    ensures A.ProcessChunks(cfg, st, cs).1 == src[n..n']
    ensures InOrder(A.ProcessChunks(cfg, st, cs).0, D.FrameId(n'), all[n'], j', if cs == [] then age else 0)
    decreases |cs|
  {
    hide A.ProcessChunk, A.Inv, InOrder, D.FrameId, Rest, Stream;
    if cs == [] {
      n', j' := n, j;
      assert cs + tail == tail;
    } else {
      var rest := cs[1..] + tail;
      assert [cs[0]] + rest == cs + tail;
      var n1, j1 := FeedNext(cfg, st, src, all, n, j, age, cs[0], rest);
      A.HasSlot(cfg, st);
      A.ProcessChunkInv(cfg, st, cs[0]);
      var (s, out) := A.ProcessChunk(cfg, st, cs[0]);
      n', j' := FeedChunks(cfg, s, src, all, n1, j1, 0, cs[1..], tail);
      SplitSlice(src, n, n1, n');
      assert n1 == n + 1 ==> src[n..n1] == [src[n]];
    }
  }

  /** Whole packets, each with at least one chunk, each followed by a tick of the clock. */
  lemma {:induction false} FeedPackets(cfg: A.Config, st: A.State, src: seq<seq<byte>>, all: seq<seq<Chunk>>,
                                       n: nat, j: nat, packets: seq<seq<Chunk>>, tail: seq<Chunk>)
    returns (n': nat, j': nat)
    requires A.Inv(cfg, st) && Stream(cfg, src, all) && |src| == |all| && Place(all, n, j)
    requires InOrder(st, D.FrameId(n), all[n], j, 1)
    requires FlatFrom(packets, 0) + tail == Rest(all, n, j)
    requires forall i :: 0 <= i < |packets| ==> packets[i] != [] && forall c :: c in packets[i] ==> Fits(c)
    ensures n <= n' <= |src| && Place(all, n', j') && tail == Rest(all, n', j')
    ensures A.Run(cfg, st, Encode(packets)).1 == src[n..n']
    decreases |packets|
  {
    hide A.Inv, InOrder, D.FrameId, Rest, Stream, A.ProcessChunks, A.Tick, EncodePacket, ReadChunks;
    if packets == [] {
      n', j' := n, j;
      assert FlatFrom(packets, 0) + tail == tail;
    } else {
      var p, more := packets[0], packets[1..];
      FlatFromShift(packets, 1);
      Assoc(p, FlatFrom(more, 0), tail);
      assert p + (FlatFrom(more, 0) + tail) == Rest(all, n, j);
      PacketRoundTrip(p);
      var n1, j1 := FeedChunks(cfg, st, src, all, n, j, 1, p, FlatFrom(more, 0) + tail);
      var s := A.ProcessChunks(cfg, st, p).0;
      TickInOrder(cfg, s, D.FrameId(n1), all[n1], j1);
      A.TickInv(cfg, s);
      n', j' := FeedPackets(cfg, A.Tick(cfg, s), src, all, n1, j1, more, tail);
      assert Encode(packets)[1..] == Encode(more);
      SplitSlice(src, n, n1, n');
    }
  }

  lemma {:induction false} FlatFromShift(css: seq<seq<Chunk>>, n: nat)
    requires 0 < n <= |css|
    ensures FlatFrom(css, n) == FlatFrom(css[1..], n - 1)
    decreases |css| - n
  {
    if n < |css| {
      FlatFromShift(css, n + 1);
    }
  }

  lemma {:induction false} FlatIsFlatFrom(css: seq<seq<Chunk>>, n: nat)
    requires n <= |css|
    ensures D.Flat(css[..n]) + FlatFrom(css, n) == FlatFrom(css, 0)
    decreases n
  {
    if n > 0 {
      FlatIsFlatFrom(css, n - 1);
      assert css[..n][..n - 1] == css[..n - 1];
      Assoc(D.Flat(css[..n - 1]), css[n - 1], FlatFrom(css, n));
    } else {
      assert css[..0] == [];
    }
  }

  lemma FlatIs(css: seq<seq<Chunk>>)
    ensures D.Flat(css) == FlatFrom(css, 0)
  {
    FlatIsFlatFrom(css, |css|);
    assert css[..|css|] == css;
  }

  /** The assembler is big enough for what this run sends. */
  predicate BigEnough(dcfg: D.Config, acfg: A.Config, w: D.World) {
    && acfg.Valid()
    && dcfg.inputMtu <= acfg.outputMtu
    && (forall i :: 0 <= i < |w.cuts| ==> |w.cuts[i]| <= acfg.numChunks)
    && |w.part| < acfg.numChunks
  }

  function Current(w: D.World): (frame: seq<byte>) { if w.d.input.Some? then w.d.input.value else [] }

  lemma WorldStream(dcfg: D.Config, acfg: A.Config, w: D.World)
    requires dcfg.Valid() && D.WorldInv(dcfg, w) && BigEnough(dcfg, acfg, w)
    ensures Stream(acfg, w.frames + [Current(w)], w.cuts + [w.part])
  {
    hide D.CutTo, D.Flat, D.FrameId;
    var src, all := w.frames + [Current(w)], w.cuts + [w.part];
    forall i | 0 <= i < |w.cuts|
      ensures Contiguous(src[i], D.FrameId(i), all[i]) && all[i] != [] && all[i][|all[i]| - 1].last
    {
      assert D.CutWhole(w.frames[i], D.FrameId(i), w.cuts[i]);
      CutContiguous(w.frames[i], D.FrameId(i), w.cuts[i], |w.frames[i]|);
      assert GoodChunk(src[i], D.FrameId(i), all[i][|all[i]| - 1]);
    }
    if w.d.input.Some? {
      CutContiguous(w.d.input.value, w.d.frameId, w.part, w.d.inUsed);
      if w.part != [] {
        assert GoodChunk(w.d.input.value, w.d.frameId, w.part[|w.part| - 1]);
      }
    }
  }

  lemma SentFits(dcfg: D.Config, w: D.World, i: nat, c: Chunk)
    requires dcfg.Valid() && D.WorldInv(dcfg, w)
    requires i < |w.packets| && c in w.packets[i]
    ensures Fits(c)
  {
    hide D.CutTo, D.Flat;
    InFlat(w.packets, i, c);
    assert c in D.Flat(w.packets) + D.Open(w.d);
    assert c in D.Flat(w.cuts) || c in w.part;
    if c in D.Flat(w.cuts) {
      var k := FromFlat(w.cuts, c);
      assert D.CutWhole(w.frames[k], D.FrameId(k), w.cuts[k]);
      CutContiguous(w.frames[k], D.FrameId(k), w.cuts[k], |w.frames[k]|);
    } else {
      CutContiguous(w.d.input.value, w.d.frameId, w.part, w.d.inUsed);
    }
  }

  /**
    Round trip. For every clean run of the disassembler (any frames, MTUs, chunk size limit,
    latency, timing, and any number of frames, so ids wrap), an assembler that is big enough
    and gets the packets in order delivers a prefix of the frames, in order; and all of them
    once nothing is left waiting in the open packet.
    */
  lemma RoundTrip(dcfg: D.Config, ws: seq<D.World>, es: seq<D.Event>, acfg: A.Config)
    requires dcfg.Valid() && D.CleanRun(dcfg, ws, es) && BigEnough(dcfg, acfg, ws[|es|])
    ensures var out := A.Run(acfg, A.Init(acfg), Encode(ws[|es|].packets)).1;
            && out <= ws[|es|].frames
            && (D.Open(ws[|es|].d) == [] ==> out == ws[|es|].frames)
  {
    hide D.Flat, FlatFrom, D.FrameId, Contiguous;
    var w := ws[|es|];
    D.RunKeeps(dcfg, ws, es);
    var src, all := w.frames + [Current(w)], w.cuts + [w.part];
    WorldStream(dcfg, acfg, w);
    FlatIs(w.packets);
    FlatIs(all);
    D.FlatAppend(w.cuts, w.part);
    forall i | 0 <= i < |w.packets|
      ensures w.packets[i] != [] && forall c :: c in w.packets[i] ==> Fits(c)
    {
      forall c | c in w.packets[i] ensures Fits(c) { SentFits(dcfg, w, i, c); }
    }
    StartPlace(acfg, src, all);
    var n, j := FeedPackets(acfg, A.Init(acfg), src, all, 0, 0, w.packets, D.Open(w.d));
    assert src[0..n] == w.frames[..n];
    if D.Open(w.d) == [] {
      assert n == |w.frames| by { assert Rest(all, n, j) == []; }
    }
  }

  lemma StartPlace(cfg: A.Config, src: seq<seq<byte>>, all: seq<seq<Chunk>>)
    requires Stream(cfg, src, all)
    ensures Place(all, 0, 0) && Rest(all, 0, 0) == FlatFrom(all, 0)
  {
    assert all[0][0..] == all[0];
  }
}
