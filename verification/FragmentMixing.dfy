/**
  Chunks of two frames under one id. The second frame, g, is cut into full chunks of p bytes and
  a last one; of the first, f, only chunks before its end were sent, and its first chunk may be
  shorter. Worked out here: when can an assembler that gets chunks of both deliver anything but g?
  */
module FragmentMixing {
  import opened Bytes
  import opened Lists
  import opened BitMath
  import opened FragmentWire
  import A = FragmentAssembler
  import D = FragmentDisassembler
  import E = FragmentEndToEnd

  // ---------------------------------------------------------------- how the frames are cut

  /** i times p, where the i-th chunk starts. */
  function Off(p: nat, i: nat): (n: nat) { if i == 0 then 0 else Off(p, i - 1) + p }

  lemma {:induction false} OffIs(p: nat, i: nat)
    ensures Off(p, i) == i * p
  {
    if i > 0 {
      OffIs(p, i - 1);
      assert i * p == (i - 1) * p + p;
    }
  }

  lemma {:induction false} OffOrder(p: nat, i: nat, j: nat)
    requires i <= j
    ensures Off(p, i) <= Off(p, j) && (i < j ==> Off(p, i) + p <= Off(p, j))
    decreases j
  {
    if i < j {
      OffOrder(p, i, j - 1);
    }
  }

  /** The number of chunks of a frame of len bytes: one for an empty frame. */
  function Chunks(p: nat, len: nat): (n: nat)
    requires p > 0
    ensures n >= 1
    decreases len
  {
    if len <= p then 1 else 1 + Chunks(p, len - p)
  }

  lemma {:induction false} OffShift(p: nat, i: nat)
    ensures Off(p, i + 1) == p + Off(p, i)
  {
    if i > 0 {
      OffShift(p, i - 1);
    }
  }

  lemma {:induction false} ChunksIs(p: nat, len: nat)
    requires p > 0
    ensures var n := Chunks(p, len);
            len <= Off(p, n) && Off(p, n - 1) <= len && (len > 0 ==> Off(p, n - 1) < len)
    decreases len
  {
    var n := Chunks(p, len);
    if len <= p {
      assert Off(p, 1) == p;
    } else {
      ChunksIs(p, len - p);
      OffShift(p, n - 1);
      OffShift(p, n - 2);
    }
  }

  /** Chunk i of the frame. */
  function ChunkAt(p: nat, frame: seq<byte>, id: nat, i: nat): (c: Chunk)
    requires Off(p, i) <= |frame|
  {
    var a := Off(p, i);
    var b := D.Min(a + p, |frame|);
    Chunk(id, a, frame[a..b], b == |frame|)
  }

  /** The first k chunks of the frame. */
  function Cut(p: nat, frame: seq<byte>, id: nat, k: nat): (cs: seq<Chunk>)
    requires p > 0 && k <= Chunks(p, |frame|)
    ensures |cs| == k
    ensures forall i :: 0 <= i < k ==> Off(p, i) <= |frame| && cs[i] == ChunkAt(p, frame, id, i)
  {
    assert forall i :: 0 <= i < k ==> Off(p, i) <= |frame| by {
      forall i | 0 <= i < k ensures Off(p, i) <= |frame| { InFrame(p, frame, i); }
    }
    seq(k, i requires 0 <= i < k => ChunkAt(p, frame, id, i))
  }

  lemma InFrame(p: nat, frame: seq<byte>, i: nat)
    requires p > 0 && i < Chunks(p, |frame|)
    ensures Off(p, i) <= |frame|
    ensures i < Chunks(p, |frame|) - 1 ==> Off(p, i + 1) < |frame|
    ensures i == Chunks(p, |frame|) - 1 ==> |frame| <= Off(p, i + 1)
    ensures |frame| > 0 ==> Off(p, i) < |frame|
  {
    var n := Chunks(p, |frame|);
    ChunksIs(p, |frame|);
    OffOrder(p, i, n - 1);
    if i < n - 1 {
      OffOrder(p, i + 1, n - 1);
    }
  }

  lemma OffNext(p: nat, i: nat)
    ensures Off(p, i + 1) == Off(p, i) + p
  {
  }

  lemma FullChunk(p: nat, frame: seq<byte>, id: nat, i: nat)
    requires Off(p, i) + p <= |frame|
    ensures ChunkAt(p, frame, id, i) == Chunk(id, Off(p, i), frame[Off(p, i)..Off(p, i) + p], Off(p, i) + p == |frame|)
  {
  }

  /** Where chunk i of f starts: the first chunk has a bytes, the others p. */
  function FStart(p: nat, a: nat, i: nat): (n: nat) { if i == 0 then 0 else a + Off(p, i - 1) }

  lemma FStartOrder(p: nat, a: nat, i: nat, m: nat)
    requires i < m
    ensures FStart(p, a, i + 1) == a + Off(p, i) && FStart(p, a, i) + (if i == 0 then a else p) == FStart(p, a, i + 1) <= FStart(p, a, m)
  {
    hide Off;
    OffOrder(p, i, m - 1);
    if i > 0 {
      OffNext(p, i - 1);
    } else {
      OffZero(p);
    }
  }

  lemma OffZero(p: nat)
    ensures Off(p, 0) == 0
  {
  }

  lemma SameGrid(p: nat, i: nat)
    ensures FStart(p, p, i) == Off(p, i)
  {
  }

  /** Chunk i ends inside f. */
  predicate Reached(p: nat, a: nat, f: seq<byte>, i: nat) { FStart(p, a, i + 1) <= |f| }

  /** Chunk i of f, which is longer. */
  function SentAt(p: nat, a: nat, f: seq<byte>, id: nat, i: nat): (c: Chunk)
    requires Reached(p, a, f, i)
  {
    FStartOrder(p, a, i, i + 1);
    Chunk(id, FStart(p, a, i), f[FStart(p, a, i)..FStart(p, a, i + 1)], false)
  }

  /** The first m chunks of f. */
  function Sent(p: nat, a: nat, f: seq<byte>, id: nat, m: nat): (cs: seq<Chunk>)
    requires m == 0 || FStart(p, a, m) < |f|
    ensures |cs| == m && forall i :: 0 <= i < m ==> Reached(p, a, f, i) && cs[i] == SentAt(p, a, f, id, i)
  {
    AllReached(p, a, f, m);
    seq(m, i requires 0 <= i < m => SentAt(p, a, f, id, i))
  }

  lemma AllReached(p: nat, a: nat, f: seq<byte>, m: nat)
    requires m == 0 || FStart(p, a, m) < |f|
    ensures forall i: nat :: i < m ==> Reached(p, a, f, i)
  {
    hide FStart;
    forall i: nat | i < m ensures Reached(p, a, f, i) { FStartOrder(p, a, i, m); }
  }

  /** All chunks that were sent: the first m of f and all of g. */
  function Mixed(p: nat, a: nat, f: seq<byte>, m: nat, g: seq<byte>, id: nat): (cs: seq<Chunk>)
    requires p > 0 && (m == 0 || FStart(p, a, m) < |f|)
  {
    Sent(p, a, f, id, m) + Cut(p, g, id, Chunks(p, |g|))
  }

  function Single(cs: seq<Chunk>): (ps: seq<seq<Chunk>>)
    ensures |ps| == |cs| && forall i :: 0 <= i < |cs| ==> ps[i] == [cs[i]]
  {
    seq(|cs|, i requires 0 <= i < |cs| => [cs[i]])
  }

  // ---------------------------------------------------------------- deliveries under one id

  /** The frames that chunks with this id complete. */
  ghost function DeliveredBy(cfg: A.Config, st: A.State, cs: seq<Chunk>, id: nat): (r: seq<seq<byte>>)
    requires A.Inv(cfg, st)
    decreases |cs|
  {
    if cs == [] then []
    else
      A.ProcessChunkInv(cfg, st, cs[0]);
      A.HasSlot(cfg, st);
      var (s, out) := A.ProcessChunk(cfg, st, cs[0]);
      (if cs[0].id == id && out.Some? then [out.value] else []) + DeliveredBy(cfg, s, cs[1..], id)
  }

  ghost function DeliveredFor(cfg: A.Config, st: A.State, packets: seq<seq<byte>>, id: nat): (r: seq<seq<byte>>)
    requires A.Inv(cfg, st)
    decreases |packets|
  {
    if packets == [] then []
    else
      var cs := ReadChunks(packets[0], 0);
      A.TickInv(cfg, A.ProcessChunks(cfg, st, cs).0);
      DeliveredBy(cfg, st, cs, id) + DeliveredFor(cfg, A.ProcessPacket(cfg, st, packets[0]).0, packets[1..], id)
  }

  /** Packets of which every chunk has another id or is one of cs. */
  ghost predicate Possible(arrivals: seq<seq<byte>>, cs: seq<Chunk>, id: nat) {
    forall i :: 0 <= i < |arrivals| ==> PossiblePacket(arrivals[i], cs, id)
  }

  ghost predicate PossiblePacket(packet: seq<byte>, cs: seq<Chunk>, id: nat) {
    forall c :: c in ReadChunks(packet, 0) ==> c.id != id || c in cs
  }

  // ---------------------------------------------------------------- when only g can come out

  /** f and g have the same first k bytes, as far as both have them. */
  ghost predicate Agree(f: seq<byte>, g: seq<byte>, k: nat) {
    forall j :: 0 <= j < k && j < |f| && j < |g| ==> f[j] == g[j]
  }

  /** Where the last chunk of g begins. */
  function LastStart(p: nat, g: seq<byte>): (l: nat)
    requires p > 0
  {
    Off(p, Chunks(p, |g|) - 1)
  }

  /**
    A chunk is the end of g, or ends off the grid of g, or is on the grid and a slice of g unless it
    reaches beyond the start l of its last chunk.
    */
  ghost predicate GoodPart(g: seq<byte>, l: nat, p: nat, c: Chunk)
    requires p > 0
  {
    && l <= |g|
    && (c.last ==> c.start == l && c.data == g[l..])
    && (!c.last ==> c.data != [] && (OffGrid(p, c.start + |c.data|) || (!OffGrid(p, c.start) && Within(g, l, c.start, c.data))))
  }

  predicate OffGrid(p: nat, e: nat)
    requires p > 0
  {
    e % p != 0
  }

  predicate Within(g: seq<byte>, l: nat, start: nat, data: seq<byte>)
    requires l <= |g|
  {
    start + |data| <= l ==> data == g[start..start + |data|]
  }

  lemma OffMod(p: nat, a: nat, i: nat)
    requires p > 0
    ensures !OffGrid(p, Off(p, i)) && (0 < a < p ==> OffGrid(p, a + Off(p, i)))
  {
    OffIs(p, i);
    ModIs(i * p, p, i, 0);
    if 0 < a < p {
      ModIs(i * p + a, p, i, a);
    }
  }

  lemma {:induction false} MixedGood(p: nat, a: nat, f: seq<byte>, m: nat, g: seq<byte>, id: nat, c: Chunk)
    requires p > 0 && 0 < a <= p && (m == 0 || FStart(p, a, m) < |f|) && c in Mixed(p, a, f, m, g, id)
    requires a < p || Agree(f, g, D.Min(Off(p, m), LastStart(p, g)))
    ensures c.id == id && GoodPart(g, LastStart(p, g), p, c)
  {
    hide Chunks, Off, ChunkAt, GoodPart, Agree, FStart;
    var i :| 0 <= i < |Mixed(p, a, f, m, g, id)| && Mixed(p, a, f, m, g, id)[i] == c;
    if i < m {
      CancelledPart(p, a, f, m, g, id, i);
    } else {
      OwnPart(p, g, id, i - m);
    }
  }

  lemma OwnPart(p: nat, g: seq<byte>, id: nat, i: nat)
    requires p > 0 && i < Chunks(p, |g|)
    ensures Off(p, i) <= |g| && ChunkAt(p, g, id, i).id == id && GoodPart(g, LastStart(p, g), p, ChunkAt(p, g, id, i))
  {
    hide Chunks, Off, OffGrid;
    var n := Chunks(p, |g|);
    InFrame(p, g, n - 1);
    InFrame(p, g, i);
    OffNext(p, i);
    OffMod(p, p, i);
  }

  lemma {:induction false} CancelledPart(p: nat, a: nat, f: seq<byte>, m: nat, g: seq<byte>, id: nat, i: nat)
    requires p > 0 && 0 < a <= p && i < m && FStart(p, a, m) < |f|
    requires a < p || Agree(f, g, D.Min(Off(p, m), LastStart(p, g)))
    ensures Reached(p, a, f, i) && GoodPart(g, LastStart(p, g), p, SentAt(p, a, f, id, i))
  {
    hide Chunks, Off, OffGrid, Agree, FStart, GoodPart;
    FStartOrder(p, a, i, m);
    InFrame(p, g, Chunks(p, |g|) - 1);
    OffMod(p, a, i);
    var s, e, l := FStart(p, a, i), FStart(p, a, i + 1), LastStart(p, g);
    if a == p {
      SameGrid(p, i);
      SameGrid(p, m);
      if e <= l {
        SameSlice(f, g, s, e, D.Min(Off(p, m), l));
      }
    }
    SliceGood(g, l, p, f, s, e, id);
  }

  lemma {:induction false} SliceGood(g: seq<byte>, l: nat, p: nat, f: seq<byte>, s: nat, e: nat, id: nat)
    requires p > 0 && s < e <= |f| && l <= |g| && (OffGrid(p, e) || (!OffGrid(p, s) && (e <= l ==> f[s..e] == g[s..e])))
    ensures GoodPart(g, l, p, Chunk(id, s, f[s..e], false))
  {
    hide OffGrid;
  }

  lemma SameSlice(f: seq<byte>, g: seq<byte>, a: nat, b: nat, k: nat)
    requires Agree(f, g, k) && a <= b <= k && b <= |f| && b <= |g|
    ensures f[a..b] == g[a..b]
  {
  }

  ghost predicate GoodPiece(g: seq<byte>, l: nat, p: nat, q: A.Piece)
    requires p > 0 && l <= |g|
  {
    q.data != [] && (OffGrid(p, q.End()) || (!OffGrid(p, q.start) && Within(g, l, q.start, q.data)))
  }

  /** A pending frame: once its length is known, the end of g is among its pieces. */
  ghost predicate GoodFrame(g: seq<byte>, l: nat, p: nat, x: A.Frame)
    requires p > 0 && l <= |g|
  {
    && (forall k :: 0 <= k < |x.pieces| ==> x.pieces[k] == End(g, l) || GoodPiece(g, l, p, x.pieces[k]))
    && (x.length >= 0 ==> x.length == |g| && End(g, l) in x.pieces)
  }

  function End(g: seq<byte>, l: nat): (q: A.Piece)
    requires l <= |g|
  {
    A.Piece(l, g[l..])
  }

  ghost predicate GoodState(g: seq<byte>, l: nat, p: nat, id: nat, st: A.State)
    requires p > 0 && l <= |g|
  {
    forall k :: 0 <= k < |st.used| && st.used[k].id == id ==> GoodFrame(g, l, p, st.used[k])
  }

  lemma {:induction false} FrameForGood(g: seq<byte>, l: nat, p: nat, id: nat, cfg: A.Config, st: A.State, other: nat)
    requires p > 0 && l <= |g| && A.Inv(cfg, st) && GoodState(g, l, p, id, st)
    ensures GoodState(g, l, p, id, A.FrameFor(cfg, st, other).0)
  {
  }

  /** What a frame that could be delivered consists of: disjoint pieces that tile [0, |g|), among them the end of g. */
  ghost predicate Complete(g: seq<byte>, l: nat, p: nat, pieces: seq<A.Piece>)
    requires p > 0 && l <= |g|
  {
    && g != [] && End(g, l) in pieces && A.Disjoint(pieces) && A.Within(pieces, |g|) && A.Total(pieces) == |g|
    && forall k :: 0 <= k < |pieces| ==> pieces[k] == End(g, l) || GoodPiece(g, l, p, pieces[k])
  }

  /** Every other piece ends where the end of g begins, or before. */
  lemma BeforeTheEnd(g: seq<byte>, l: nat, p: nat, pieces: seq<A.Piece>, k: nat)
    requires p > 0 && l < |g| && Complete(g, l, p, pieces) && k < |pieces| && pieces[k] != End(g, l)
    ensures pieces[k].data != [] && pieces[k].End() <= l
  {
    hide A.Total, OffGrid;
    var j :| 0 <= j < |pieces| && pieces[j] == End(g, l);
    DisjointAt(pieces, j, k);
  }

  lemma DisjointAt(pieces: seq<A.Piece>, j: nat, k: nat)
    requires A.Disjoint(pieces) && j < |pieces| && k < |pieces| && j != k
    ensures !A.Overlaps(pieces[j], pieces[k])
  {
    if k < j {
      assert !A.Overlaps(pieces[k], pieces[j]);
    }
  }

  /** A piece that ends off the grid would have to be followed by another one, up to the end of g, which is on it. */
  lemma {:induction false} AllOnGrid(g: seq<byte>, l: nat, p: nat, pieces: seq<A.Piece>, k: nat)
    requires p > 0 && l < |g| && !OffGrid(p, l) && Complete(g, l, p, pieces) && k < |pieces| && pieces[k] != End(g, l)
    ensures !OffGrid(p, pieces[k].End())
    decreases l - pieces[k].End()
  {
    hide A.Total, OffGrid, A.Disjoint;
    BeforeTheEnd(g, l, p, pieces, k);
    var e := pieces[k].End();
    if OffGrid(p, e) {
      A.NoGap(pieces, |g|);
      assert A.IsCovered(pieces, e);
      var j :| 0 <= j < |pieces| && pieces[j].Covers(e);
      DisjointAt(pieces, j, k);
      assert pieces[j].start == e;
      BeforeTheEnd(g, l, p, pieces, j);
      AllOnGrid(g, l, p, pieces, j);
    }
  }

  /** So the frame delivered is g. */
  lemma CompleteIsG(g: seq<byte>, l: nat, p: nat, pieces: seq<A.Piece>)
    requires p > 0 && l < |g| && !OffGrid(p, l) && Complete(g, l, p, pieces)
    ensures A.Assemble(pieces, |g|) == g
  {
    hide A.Total, OffGrid, A.Disjoint, A.Assemble;
    forall k | 0 <= k < |pieces|
      ensures pieces[k].End() <= |g| && pieces[k].data == g[pieces[k].start..pieces[k].End()]
    {
      if pieces[k] != End(g, l) {
        BeforeTheEnd(g, l, p, pieces, k);
        AllOnGrid(g, l, p, pieces, k);
      }
    }
    A.AssembleSlices(pieces, g);
  }

  lemma {:induction false} AcceptedGood(g: seq<byte>, l: nat, p: nat, x: A.Frame, c: Chunk, time: nat)
    requires p > 0 && l <= |g| && GoodFrame(g, l, p, x) && GoodPart(g, l, p, c) && A.Accepts(x, A.Piece(c.start, c.data), c.last)
    ensures GoodFrame(g, l, p, A.AddPiece(x, A.Piece(c.start, c.data), c.last, time))
  {
    hide OffGrid;
    var q := A.Piece(c.start, c.data);
    var y := A.AddPiece(x, q, c.last, time);
    assert y.pieces == x.pieces + [q];
    if c.last {
      assert y.pieces[|x.pieces|] == End(g, l);
    }
  }

  /** Whatever chunk comes, only g is delivered under the id. */
  lemma {:induction false} GoodStep(g: seq<byte>, l: nat, p: nat, id: nat, cfg: A.Config, st: A.State, c: Chunk)
    requires p > 0 && l <= |g| && !OffGrid(p, l) && (g != [] ==> l < |g|)
    requires A.Inv(cfg, st) && GoodState(g, l, p, id, st) && (c.id == id ==> GoodPart(g, l, p, c))
    ensures var (s, out) := A.ProcessChunk(cfg, st, c);
            GoodState(g, l, p, id, s) && (c.id == id && out.Some? ==> out.value == g)
  {
    hide A.FrameFor, A.FrameInv, A.Assemble, A.Overlaps, A.Disjoint, A.Total, A.Accepts, GoodPiece, GoodPart, OffGrid;
    if c.start <= cfg.outputMtu && |c.data| <= cfg.outputMtu - c.start {
      var (s, i) := A.FrameFor(cfg, st, c.id);
      A.FrameForInv(cfg, st, c.id);
      FrameForGood(g, l, p, id, cfg, st, c.id);
      var x, q := s.used[i], A.Piece(c.start, c.data);
      if c.id == id && A.Accepts(x, q, c.last) {
        A.AcceptedPiece(cfg, s.time, x, q, c.last);
        AcceptedGood(g, l, p, x, c, s.time);
        var y := A.AddPiece(x, q, c.last, s.time);
        if !A.Incomplete(y) && g != [] {
          CompleteIsG(g, l, p, y.pieces);
        }
      }
    }
  }

  lemma {:induction false} GoodChunks(g: seq<byte>, l: nat, p: nat, id: nat, cfg: A.Config, st: A.State, cs: seq<Chunk>)
    requires p > 0 && l <= |g| && !OffGrid(p, l) && (g != [] ==> l < |g|) && A.Inv(cfg, st) && GoodState(g, l, p, id, st)
    requires forall k :: 0 <= k < |cs| && cs[k].id == id ==> GoodPart(g, l, p, cs[k])
    ensures GoodState(g, l, p, id, A.ProcessChunks(cfg, st, cs).0)
    ensures forall x :: x in DeliveredBy(cfg, st, cs, id) ==> x == g
    decreases |cs|
  {
    hide A.ProcessChunk, A.Inv, GoodState, GoodPart;
    if cs != [] {
      A.HasSlot(cfg, st);
      A.ProcessChunkInv(cfg, st, cs[0]);
      GoodStep(g, l, p, id, cfg, st, cs[0]);
      GoodChunks(g, l, p, id, cfg, A.ProcessChunk(cfg, st, cs[0]).0, cs[1..]);
    }
  }

  lemma {:induction false} GoodTick(g: seq<byte>, l: nat, p: nat, id: nat, cfg: A.Config, st: A.State)
    requires p > 0 && l <= |g| && A.Inv(cfg, st) && GoodState(g, l, p, id, st)
    ensures GoodState(g, l, p, id, A.Tick(cfg, st))
  {
    hide A.Inv, A.Tick, A.Survivors, GoodPiece;
    A.TickInv(cfg, st);
    A.SurvivorsMembers(cfg, st, st.used);
    var r := A.Tick(cfg, st);
    TickKeeps(cfg, st, r);
    forall k | 0 <= k < |r.used| && r.used[k].id == id
      ensures GoodFrame(g, l, p, r.used[k])
    {
      var x := if st.time < A.MAX_TIME then st.used[k] else A.Survivors(cfg, st, st.used)[k];
      assert A.SameButTime(st, x, r, r.used[k], 1);
      assert x in st.used;
    }
  }

  lemma TickKeeps(cfg: A.Config, st: A.State, r: A.State)
    requires A.Inv(cfg, st) && A.Inv(cfg, r) && r == A.Tick(cfg, st)
    ensures st.time <= A.MAX_TIME && (st.time < A.MAX_TIME ==> |r.used| == |st.used|)
  {
  }

  /** Whatever arrives, only g is delivered under the id. */
  lemma {:induction false} GoodRun(g: seq<byte>, l: nat, p: nat, id: nat, cfg: A.Config, st: A.State, packets: seq<seq<byte>>, cs: seq<Chunk>)
    requires p > 0 && l <= |g| && !OffGrid(p, l) && (g != [] ==> l < |g|) && A.Inv(cfg, st) && GoodState(g, l, p, id, st)
    requires Possible(packets, cs, id) && forall c :: c in cs ==> GoodPart(g, l, p, c)
    ensures forall x :: x in DeliveredFor(cfg, st, packets, id) ==> x == g
    decreases |packets|
  {
    hide A.ProcessChunks, A.Tick, A.Inv, GoodState, GoodPart, ReadChunks, DeliveredBy;
    if packets != [] {
      var read := ReadChunks(packets[0], 0);
      assert PossiblePacket(packets[0], cs, id);
      GoodChunks(g, l, p, id, cfg, st, read);
      var s := A.ProcessChunks(cfg, st, read).0;
      A.TickInv(cfg, s);
      GoodTick(g, l, p, id, cfg, s);
      GoodRun(g, l, p, id, cfg, A.Tick(cfg, s), packets[1..], cs);
    }
  }

  // ---------------------------------------------------------------- when they do not

  /** The chunks of one frame, a packet each and in order: the frame is delivered. */
  lemma {:induction false} FeedCut(cfg: A.Config, st: A.State, h: seq<byte>, id: nat, cs: seq<Chunk>, j: nat)
    requires A.Inv(cfg, st) && E.InOrder(st, id, cs, j, 1) && E.Contiguous(h, id, cs) && j < |cs|
    requires |h| <= cfg.outputMtu && |cs| <= cfg.numChunks && cs[|cs| - 1].last && forall c :: c in cs ==> Fits(c)
    ensures A.Run(cfg, st, E.Encode(Single(cs[j..]))).1 == [h] == DeliveredFor(cfg, st, E.Encode(Single(cs[j..])), id)
    decreases |cs| - j
  {
    hide A.ProcessChunk, A.ProcessChunks, DeliveredBy, A.Tick, A.Inv, EncodePacket, ReadChunks, E.InOrder, E.Contiguous;
    var c, packets := cs[j], E.Encode(Single(cs[j..]));
    A.HasSlot(cfg, st);
    E.FeedOne(cfg, st, h, id, cs, j, 1);
    PacketRoundTrip([c]);
    assert packets[0] == EncodePacket([c]);
    A.ProcessChunkInv(cfg, st, c);
    OneProcessed(cfg, st, c);
    var s := A.ProcessChunk(cfg, st, c).0;
    A.TickInv(cfg, s);
    SameId(h, id, cs, j);
    var r := A.Tick(cfg, s);
    assert packets[1..] == E.Encode(Single(cs[j + 1..]));
    if c.last {
      assert cs[j + 1..] == [] && packets[1..] == [];
      assert A.Run(cfg, r, []).1 == [] == DeliveredFor(cfg, r, [], id);
    } else {
      E.TickInOrder(cfg, s, id, cs, j + 1);
      FeedCut(cfg, r, h, id, cs, j + 1);
    }
  }

  lemma SameId(h: seq<byte>, id: nat, cs: seq<Chunk>, j: nat)
    requires E.Contiguous(h, id, cs) && j < |cs|
    ensures cs[j].id == id && (j == |cs| - 1 || !cs[j].last)
  {
    assert E.GoodChunk(h, id, cs[j]);
  }

  lemma OneProcessed(cfg: A.Config, st: A.State, c: Chunk)
    requires A.Inv(cfg, st) && (st.free > 0 || st.used != []) && A.Inv(cfg, A.ProcessChunk(cfg, st, c).0)
    ensures var (s, out) := A.ProcessChunk(cfg, st, c);
            && A.ProcessChunks(cfg, st, [c]) == (s, if out.Some? then [out.value] else [])
            && DeliveredBy(cfg, st, [c], c.id) == if out.Some? then [out.value] else []
  {
    hide A.ProcessChunk, A.Inv;
    var (s, out) := A.ProcessChunk(cfg, st, c);
    assert [c][1..] == [];
    assert out.Some? ==> [out.value] + [] == [out.value];
    assert A.ProcessChunks(cfg, s, []) == (s, []) && DeliveredBy(cfg, s, [], c.id) == [];
  }

  /** g with its chunk i replaced by that of f. */
  function Mixture(p: nat, f: seq<byte>, g: seq<byte>, i: nat): (h: seq<byte>)
    requires Off(p, i) + p <= |f| && Off(p, i) + p <= |g|
    ensures |h| == |g|
  {
    Splice(g, Off(p, i), f[Off(p, i)..Off(p, i) + p])
  }

  /** Both frames have a full chunk i that is not the last one of g, and they differ there. */
  ghost predicate DiffersAt(p: nat, f: seq<byte>, m: nat, g: seq<byte>, i: nat)
    requires p > 0
  {
    i < m && Off(p, m) < |f| && i < Chunks(p, |g|) - 1
    && Off(p, i) + p <= |f| && Off(p, i) + p <= |g| && f[Off(p, i)..Off(p, i) + p] != g[Off(p, i)..Off(p, i) + p]
  }

  /** The chunks that make the mixture. */
  ghost function MixtureChunks(p: nat, f: seq<byte>, g: seq<byte>, id: nat, i: nat): (cs: seq<Chunk>)
    requires p > 0 && Off(p, i) <= |f|
  {
    var n := Chunks(p, |g|);
    if i < n then Cut(p, g, id, n)[i := ChunkAt(p, f, id, i)] else Cut(p, g, id, n)
  }

  lemma {:induction false} MixtureGood(p: nat, f: seq<byte>, m: nat, g: seq<byte>, id: nat, i: nat, k: nat)
    requires p > 0 && DiffersAt(p, f, m, g, i) && k < Chunks(p, |g|)
    ensures var c := MixtureChunks(p, f, g, id, i)[k];
            && E.GoodChunk(Mixture(p, f, g, i), id, c) && c.start == Off(p, k)
            && (k < Chunks(p, |g|) - 1 ==> |c.data| == p && !c.last) && (k == Chunks(p, |g|) - 1 ==> c.last)
  {
    hide Chunks, Off, ChunkAt, Mixture, E.GoodChunk;
    InFrame(p, g, k);
    OffNext(p, k);
    if k == i {
      OffOrder(p, i, m);
      MixtureForeign(p, f, g, id, i);
    } else {
      if k < i {
        OffOrder(p, k, i);
      } else {
        OffOrder(p, i, k);
      }
      MixtureOwn(p, f, g, id, i, k);
    }
  }

  lemma MixtureForeign(p: nat, f: seq<byte>, g: seq<byte>, id: nat, i: nat)
    requires Off(p, i) + p < |f| && Off(p, i) + p < |g|
    ensures var c := ChunkAt(p, f, id, i);
            E.GoodChunk(Mixture(p, f, g, i), id, c) && c.start == Off(p, i) && |c.data| == p && !c.last
  {
    hide Off, ChunkAt, Mixture;
    MixtureBytes(p, f, g, i, 0, 0);
    FullChunk(p, f, id, i);
  }

  lemma {:induction false} MixtureOwn(p: nat, f: seq<byte>, g: seq<byte>, id: nat, i: nat, k: nat)
    requires Off(p, i) + p <= |f| && Off(p, i) + p <= |g| && Off(p, k) <= |g|
    requires Off(p, k) + p <= Off(p, i) || Off(p, i) + p <= Off(p, k)
    ensures var c := ChunkAt(p, g, id, k);
            && E.GoodChunk(Mixture(p, f, g, i), id, c) && c.start == Off(p, k)
            && (Off(p, k) + p < |g| ==> |c.data| == p && !c.last) && (|g| <= Off(p, k) + p ==> c.last)
  {
    hide Off, ChunkAt, Mixture;
    MixtureBytes(p, f, g, i, Off(p, k), D.Min(Off(p, k) + p, |g|));
    ChunkIs(p, g, id, k);
  }

  lemma ChunkIs(p: nat, frame: seq<byte>, id: nat, i: nat)
    requires Off(p, i) <= |frame|
    ensures var a, b := Off(p, i), D.Min(Off(p, i) + p, |frame|);
            ChunkAt(p, frame, id, i) == Chunk(id, a, frame[a..b], b == |frame|)
  {
  }

  lemma {:induction false} MixtureBytes(p: nat, f: seq<byte>, g: seq<byte>, i: nat, x: nat, y: nat)
    requires Off(p, i) + p <= |f| && Off(p, i) + p <= |g| && x <= y <= |g|
    ensures var h, a := Mixture(p, f, g, i), Off(p, i);
            h[a..a + p] == f[a..a + p] && (y <= a || x >= a + p ==> h[x..y] == g[x..y])
  {
    hide Off;
  }

  lemma {:induction false} MixtureContiguous(p: nat, f: seq<byte>, m: nat, g: seq<byte>, id: nat, i: nat)
    requires p > 0 && DiffersAt(p, f, m, g, i)
    ensures var cs := MixtureChunks(p, f, g, id, i);
            |cs| == Chunks(p, |g|) && E.Contiguous(Mixture(p, f, g, i), id, cs) && cs[|cs| - 1].last
  {
    hide Chunks, E.GoodChunk, Mixture;
    var cs, n := MixtureChunks(p, f, g, id, i), Chunks(p, |g|);
    assert |cs| == n;
    forall k | 0 <= k < n
      ensures E.GoodChunk(Mixture(p, f, g, i), id, cs[k]) && cs[k].start == Off(p, k)
      ensures k < n - 1 ==> |cs[k].data| == p && !cs[k].last
      ensures k == n - 1 ==> cs[k].last
    {
      MixtureGood(p, f, m, g, id, i, k);
    }
  }

  lemma MixtureDiffers(p: nat, f: seq<byte>, m: nat, g: seq<byte>, i: nat)
    requires p > 0 && DiffersAt(p, f, m, g, i)
    ensures Mixture(p, f, g, i) != g
  {
    var h, a := Mixture(p, f, g, i), Off(p, i);
    assert h[a..a + p] == f[a..a + p];
  }

  lemma MixtureChunkSent(p: nat, f: seq<byte>, m: nat, id: nat, i: nat)
    requires p > 0 && i < m && Off(p, m) < |f| && Off(p, i) <= |f|
    ensures Reached(p, p, f, i) && SentAt(p, p, f, id, i) == ChunkAt(p, f, id, i)
  {
    hide Off, ChunkAt;
    SameGrid(p, i);
    SameGrid(p, i + 1);
    OffNext(p, i);
    OffOrder(p, i + 1, m);
    FullChunk(p, f, id, i);
  }

  lemma {:induction false} MixtureSent(p: nat, f: seq<byte>, m: nat, g: seq<byte>, id: nat, i: nat)
    requires p > 0 && DiffersAt(p, f, m, g, i)
    ensures FStart(p, p, m) < |f| && forall c :: c in MixtureChunks(p, f, g, id, i) ==> c in Mixed(p, p, f, m, g, id)
  {
    hide Chunks, Off, ChunkAt, FStart, SentAt;
    SameGrid(p, m);
    MixtureChunkSent(p, f, m, id, i);
    var cs, a, b := MixtureChunks(p, f, g, id, i), Sent(p, p, f, id, m), Cut(p, g, id, Chunks(p, |g|));
    forall c | c in cs ensures c in Mixed(p, p, f, m, g, id) {
      var k :| 0 <= k < |cs| && cs[k] == c;
      assert if k == i then (a + b)[i] == c else (a + b)[m + k] == c;
    }
  }

  lemma {:induction false} ChunkOf(p: nat, j: nat, k: nat) returns (i: nat)
    requires j < Off(p, k)
    ensures i < k && Off(p, i) <= j < Off(p, i) + p
    decreases k
  {
    if Off(p, k - 1) <= j {
      i := k - 1;
    } else {
      i := ChunkOf(p, j, k - 1);
    }
  }

  /** Where frames that do not agree differ. */
  lemma {:induction false} Disagree(p: nat, f: seq<byte>, m: nat, g: seq<byte>) returns (i: nat)
    requires p > 0 && (m == 0 || Off(p, m) < |f|) && !Agree(f, g, D.Min(Off(p, m), LastStart(p, g)))
    ensures DiffersAt(p, f, m, g, i)
  {
    hide Chunks, Off;
    var j :| 0 <= j < D.Min(Off(p, m), LastStart(p, g)) && j < |f| && j < |g| && f[j] != g[j];
    i := ChunkOf(p, j, m);
    var n := Chunks(p, |g|);
    if n - 1 <= i {
      OffOrder(p, n - 1, i);
    }
    OffOrder(p, i, m);
    InFrame(p, g, i);
    OffNext(p, i);
    var a := Off(p, i);
    assert f[a..a + p][j - a] == f[j] && g[a..a + p][j - a] == g[j];
  }

  // ---------------------------------------------------------------- the exact condition

  /** Whatever arrives, at most frames equal to g are delivered under the id. */
  ghost predicate DeliversOnly(acfg: A.Config, cs: seq<Chunk>, id: nat, g: seq<byte>) {
    acfg.Valid() && forall arrivals :: Possible(arrivals, cs, id) ==> OnlyFrame(acfg, arrivals, id, g)
  }

  ghost predicate OnlyFrame(acfg: A.Config, arrivals: seq<seq<byte>>, id: nat, g: seq<byte>)
    requires acfg.Valid()
  {
    E.InitGenuine(acfg, [], 0);
    forall x :: x in DeliveredFor(acfg, A.Init(acfg), arrivals, id) ==> x == g
  }

  /** Chunks of f off the grid of g, or frames that agree: nothing but g. */
  lemma {:induction false} HarmlessIsSafe(acfg: A.Config, p: nat, a: nat, f: seq<byte>, m: nat, g: seq<byte>, id: nat)
    requires acfg.Valid() && p > 0 && 0 < a <= p && (m == 0 || FStart(p, a, m) < |f|)
    requires a < p || Agree(f, g, D.Min(Off(p, m), LastStart(p, g)))
    ensures DeliversOnly(acfg, Mixed(p, a, f, m, g, id), id, g)
  {
    hide Chunks, Off, GoodPart, Possible, DeliveredFor, Mixed, Agree, OffGrid, FStart;
    var cs, l := Mixed(p, a, f, m, g, id), LastStart(p, g);
    InFrame(p, g, Chunks(p, |g|) - 1);
    OffMod(p, a, Chunks(p, |g|) - 1);
    forall c | c in cs ensures GoodPart(g, l, p, c) { MixedGood(p, a, f, m, g, id, c); }
    E.InitGenuine(acfg, [], 0);
    forall arrivals | Possible(arrivals, cs, id) ensures OnlyFrame(acfg, arrivals, id, g) {
      GoodRun(g, l, p, id, acfg, A.Init(acfg), arrivals, cs);
    }
  }

  /** Frames that differ in a chunk can be mixed: the packets are sent ones, the delivery is not g. */
  lemma {:induction false} DifferingIsMixed(acfg: A.Config, p: nat, f: seq<byte>, m: nat, g: seq<byte>, id: nat, i: nat) returns (arrivals: seq<seq<byte>>)
    requires p > 0 && DiffersAt(p, f, m, g, i) && id < 0x1_0000 && |f| < 0x1_0000 && |g| < 0x1_0000
    requires acfg.Valid() && |g| <= acfg.outputMtu && Chunks(p, |g|) <= acfg.numChunks
    ensures FStart(p, p, m) < |f| && A.Inv(acfg, A.Init(acfg)) && |arrivals| == Chunks(p, |g|)
    ensures forall a :: a in arrivals ==> a in E.Encode(Single(Mixed(p, p, f, m, g, id)))
    ensures arrivals == E.Encode(Single(MixtureChunks(p, f, g, id, i))) && Possible(arrivals, Mixed(p, p, f, m, g, id), id)
    ensures A.Run(acfg, A.Init(acfg), arrivals).1 == [Mixture(p, f, g, i)] == DeliveredFor(acfg, A.Init(acfg), arrivals, id)
    ensures Mixture(p, f, g, i) != g
  {
    hide Chunks, Off, Mixture, DeliveredFor, A.Run, EncodePacket, Mixed, ReadChunks;
    var h, cs := Mixture(p, f, g, i), MixtureChunks(p, f, g, id, i);
    E.InitGenuine(acfg, [], 0);
    MixtureContiguous(p, f, m, g, id, i);
    MixtureDiffers(p, f, m, g, i);
    MixtureSent(p, f, m, g, id, i);
    forall c | c in cs ensures Fits(c) { MixtureFits(p, f, m, g, id, i, c); }
    assert cs[0..] == cs;
    FeedCut(acfg, A.Init(acfg), h, id, cs, 0);
    arrivals := E.Encode(Single(cs));
    SentPackets(cs, Mixed(p, p, f, m, g, id), id);
  }

  lemma {:induction false} MixtureFits(p: nat, f: seq<byte>, m: nat, g: seq<byte>, id: nat, i: nat, c: Chunk)
    requires p > 0 && DiffersAt(p, f, m, g, i) && id < 0x1_0000 && |g| < 0x1_0000 && c in MixtureChunks(p, f, g, id, i)
    ensures Fits(c)
  {
    hide Chunks, Off, Mixture, ChunkAt;
    var cs := MixtureChunks(p, f, g, id, i);
    var k :| 0 <= k < |cs| && cs[k] == c;
    MixtureGood(p, f, m, g, id, i, k);
  }

  /** Packets of one chunk each. */
  lemma SentPackets(cs: seq<Chunk>, sent: seq<Chunk>, id: nat)
    requires forall c :: c in cs ==> c in sent && Fits(c)
    ensures Possible(E.Encode(Single(cs)), sent, id)
    ensures forall a :: a in E.Encode(Single(cs)) ==> a in E.Encode(Single(sent))
  {
    hide EncodePacket, ReadChunks;
    var arrivals := E.Encode(Single(cs));
    forall i | 0 <= i < |arrivals| ensures PossiblePacket(arrivals[i], sent, id) && arrivals[i] in E.Encode(Single(sent)) {
      assert cs[i] in cs;
      PacketRoundTrip([cs[i]]);
      var k :| 0 <= k < |sent| && sent[k] == cs[i];
      assert E.Encode(Single(sent))[k] == arrivals[i];
    }
  }

  /** How many bytes may come from either frame: used bytes were sent, and the last chunk of g is its own. */
  function Shared(p: nat, used: nat, g: seq<byte>): (k: nat)
    requires p > 0
  {
    var n := p * (Chunks(p, |g|) - 1);
    if used < n then used else n
  }

  lemma SharedIs(p: nat, m: nat, g: seq<byte>)
    requires p > 0
    ensures Shared(p, m * p, g) == D.Min(Off(p, m), LastStart(p, g))
  {
    var n := Chunks(p, |g|) - 1;
    OffIs(p, m);
    OffIs(p, n);
    assert p * n == n * p;
  }

  lemma {:induction false} NotOnly(acfg: A.Config, cs: seq<Chunk>, id: nat, g: seq<byte>, arrivals: seq<seq<byte>>, h: seq<byte>)
    requires acfg.Valid() && A.Inv(acfg, A.Init(acfg)) && Possible(arrivals, cs, id)
    requires DeliveredFor(acfg, A.Init(acfg), arrivals, id) == [h] && h != g
    ensures !DeliversOnly(acfg, cs, id, g)
  {
    hide DeliveredFor, A.Inv, Possible;
    assert h in DeliveredFor(acfg, A.Init(acfg), arrivals, id);
    assert !OnlyFrame(acfg, arrivals, id, g);
  }

  /**
    An assembler that is big enough for g delivers nothing but g under the id, whatever arrives, if
    and only if f was not cut on the grid of g, or f and g agree on the bytes of f that were sent,
    except where the last chunk of g is.
    */
  lemma {:induction false} SafeExactlyWhen(acfg: A.Config, p: nat, a: nat, f: seq<byte>, m: nat, g: seq<byte>, id: nat)
    requires p > 0 && 0 < a <= p && (m == 0 || FStart(p, a, m) < |f|)
    requires id < 0x1_0000 && |f| < 0x1_0000 && |g| < 0x1_0000
    requires acfg.Valid() && |g| <= acfg.outputMtu && Chunks(p, |g|) <= acfg.numChunks
    ensures DeliversOnly(acfg, Mixed(p, a, f, m, g, id), id, g) <==> a < p || Agree(f, g, Shared(p, FStart(p, a, m), g))
  {
    hide Chunks, Off, Mixed, DeliversOnly, Agree, FStart;
    SameGrid(p, m);
    OffIs(p, m);
    SharedIs(p, m, g);
    if a < p || Agree(f, g, D.Min(Off(p, m), LastStart(p, g))) {
      HarmlessIsSafe(acfg, p, a, f, m, g, id);
    } else {
      var i := Disagree(p, f, m, g);
      var arrivals := DifferingIsMixed(acfg, p, f, m, g, id, i);
      NotOnly(acfg, Mixed(p, p, f, m, g, id), id, g, arrivals, Mixture(p, f, g, i));
    }
  }
}
