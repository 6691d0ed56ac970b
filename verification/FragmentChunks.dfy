/**
  What one chunk does to the assembler, told by the chunks of its frame that came before it. A
  pending frame stands for a sequence of chunks; the next one makes it complete, is kept with
  them, or contradicts them and the frame is given up.
  */
module FragmentChunks {
  import opened Bytes
  import opened Lists
  import opened FragmentWire
  import A = FragmentAssembler
  import E = FragmentEndToEnd

  function EndOf(c: Chunk): (n: nat) { c.start + |c.data| }

  /** The two chunks say something about the same place of the frame. */
  predicate Cross(c: Chunk, d: Chunk) { EndOf(c) > d.start && EndOf(d) > c.start }

  /** The chunks can be parts of one frame: they do not cross, one of them at most is the last, and none goes beyond it. */
  ghost predicate Consistent(cs: seq<Chunk>) {
    && (forall i, j :: 0 <= i < j < |cs| ==> !Cross(cs[i], cs[j]) && !(cs[i].last && cs[j].last))
    && (forall i, j :: 0 <= i < |cs| && 0 <= j < |cs| && cs[i].last ==> EndOf(cs[j]) <= EndOf(cs[i]))
  }

  /** Byte i of the frame comes from chunk c. */
  predicate Gives(c: Chunk, frame: seq<byte>, i: nat) {
    i < |frame| && c.start <= i < EndOf(c) && c.data[i - c.start] == frame[i]
  }

  ghost predicate Given(cs: seq<Chunk>, frame: seq<byte>, i: nat) { exists k :: 0 <= k < |cs| && Gives(cs[k], frame, i) }

  /** The chunks are the whole frame: the last one ends it, and every byte is in some chunk. */
  ghost predicate Whole(cs: seq<Chunk>, frame: seq<byte>) {
    && (exists k :: 0 <= k < |cs| && cs[k].last && EndOf(cs[k]) == |frame|)
    && (forall i :: 0 <= i < |frame| ==> Given(cs, frame, i))
  }

  /** No pending frame has this id, or only one that got its last chunk more than numFrames packets ago. */
  ghost predicate Forgotten(cfg: A.Config, st: A.State, id: nat) {
    forall k :: 0 <= k < |st.used| && st.used[k].id == id ==> st.time - st.used[k].time > cfg.numFrames
  }

  ghost predicate NoFrame(st: A.State, id: nat) { forall k :: 0 <= k < |st.used| ==> st.used[k].id != id }

  /** The frame entry holds exactly these chunks. */
  ghost predicate Holds(f: A.Frame, cs: seq<Chunk>) {
    && f.pieces == E.Pieces(cs) && f.sum == A.Total(f.pieces)
    && (f.length >= 0 ==> exists k :: 0 <= k < |cs| && cs[k].last && EndOf(cs[k]) == f.length)
    && (f.length < 0 ==> (forall k :: 0 <= k < |cs| ==> !cs[k].last && EndOf(cs[k]) <= f.lengthSoFar)
                         && (f.lengthSoFar == 0 || exists k :: 0 <= k < |cs| && EndOf(cs[k]) == f.lengthSoFar))
  }

  /** The frame at position k of the list: it holds cs, got the last of them age packets ago, and others after it are few. */
  ghost predicate PendingAt(st: A.State, id: nat, cs: seq<Chunk>, age: nat, behind: nat, k: nat) {
    k < |st.used| && st.used[k].id == id && Holds(st.used[k], cs) && st.time - st.used[k].time == age && |st.used| - 1 - k <= behind
  }

  /** What was received of the frame with this id; behind bounds the number of frames begun after it. */
  ghost predicate Pending(cfg: A.Config, st: A.State, id: nat, cs: seq<Chunk>, age: nat, behind: nat) {
    if cs == [] then Forgotten(cfg, st, id) else exists k :: PendingAt(st, id, cs, age, behind, k)
  }

  // ---------------------------------------------------------------- the entry and its chunks

  lemma AcceptsConsistent(f: A.Frame, cs: seq<Chunk>, c: Chunk)
    requires Holds(f, cs) && Consistent(cs)
    ensures A.Accepts(f, A.Piece(c.start, c.data), c.last) <==> Consistent(cs + [c])
  {
    hide A.Total;
    var p, ds := A.Piece(c.start, c.data), cs + [c];
    if A.Accepts(f, p, c.last) {
      NotLastTwice(f, cs, c);
      forall i, j | 0 <= i < j < |ds| ensures !Cross(ds[i], ds[j]) && !(ds[i].last && ds[j].last) {
        if j == |cs| {
          assert !A.Overlaps(f.pieces[i], p);
        }
      }
    }
    if Consistent(ds) {
      assert ds[|cs|] == c;
      forall k | 0 <= k < |f.pieces| ensures !A.Overlaps(f.pieces[k], p) { assert !Cross(ds[k], ds[|cs|]); }
      if f.length >= 0 {
        var k :| 0 <= k < |cs| && cs[k].last && EndOf(cs[k]) == f.length;
        assert ds[k] == cs[k];
        assert !(ds[k].last && ds[|cs|].last);
      } else if c.last && f.lengthSoFar != 0 {
        var k :| 0 <= k < |cs| && EndOf(cs[k]) == f.lengthSoFar;
        assert ds[k] == cs[k];
      }
    }
  }

  /** Ends and flags of an accepted chunk. */
  lemma NotLastTwice(f: A.Frame, cs: seq<Chunk>, c: Chunk)
    requires Holds(f, cs) && Consistent(cs) && A.Accepts(f, A.Piece(c.start, c.data), c.last)
    ensures forall k :: 0 <= k < |cs| ==> !(cs[k].last && c.last)
    ensures forall k :: 0 <= k < |cs| && c.last ==> EndOf(cs[k]) <= EndOf(c)
    ensures forall k :: 0 <= k < |cs| && cs[k].last ==> EndOf(c) <= EndOf(cs[k])
  {
    hide A.Total;
    if f.length >= 0 {
      var m :| 0 <= m < |cs| && cs[m].last && EndOf(cs[m]) == f.length;
      forall k | 0 <= k < |cs| && cs[k].last ensures k == m { OneLast(cs, k, m); }
    }
  }

  lemma OneLast(cs: seq<Chunk>, k: nat, m: nat)
    requires Consistent(cs) && k < |cs| && m < |cs| && cs[k].last && cs[m].last
    ensures k == m
  {
  }

  lemma PiecesMore(f: A.Frame, cs: seq<Chunk>, c: Chunk, time: nat)
    requires f.pieces == E.Pieces(cs) && f.sum == A.Total(f.pieces)
    ensures var g := A.AddPiece(f, A.Piece(c.start, c.data), c.last, time);
            g.pieces == E.Pieces(cs + [c]) && g.sum == A.Total(g.pieces)
  {
    var g := A.AddPiece(f, A.Piece(c.start, c.data), c.last, time);
    assert g.pieces[..|g.pieces| - 1] == f.pieces;
  }

  lemma HoldsMore(f: A.Frame, cs: seq<Chunk>, c: Chunk, time: nat)
    requires Holds(f, cs) && Consistent(cs + [c]) && A.Accepts(f, A.Piece(c.start, c.data), c.last)
    ensures Holds(A.AddPiece(f, A.Piece(c.start, c.data), c.last, time), cs + [c])
  {
    hide A.Total, E.Pieces, A.Accepts, Consistent;
    PiecesMore(f, cs, c, time);
    var g, ds := A.AddPiece(f, A.Piece(c.start, c.data), c.last, time), cs + [c];
    assert ds[|cs|] == c && forall k :: 0 <= k < |cs| ==> ds[k] == cs[k];
    if f.length >= 0 {
      var k :| 0 <= k < |cs| && cs[k].last && EndOf(cs[k]) == f.length;
      assert ds[k].last && EndOf(ds[k]) == f.length;
    } else if !c.last && f.lengthSoFar >= EndOf(c) && f.lengthSoFar != 0 {
      var k :| 0 <= k < |cs| && EndOf(cs[k]) == f.lengthSoFar;
      assert EndOf(ds[k]) == f.lengthSoFar;
    }
  }

  lemma PiecesApart(cs: seq<Chunk>)
    requires Consistent(cs)
    ensures A.Disjoint(E.Pieces(cs))
  {
    var ps := E.Pieces(cs);
    forall i, j | 0 <= i < j < |ps| ensures !A.Overlaps(ps[i], ps[j]) { assert !Cross(cs[i], cs[j]); }
  }

  /** A complete entry: its chunks are the whole frame that is assembled from them. */
  lemma CompleteIsWhole(g: A.Frame, cs: seq<Chunk>)
    requires Holds(g, cs) && Consistent(cs) && !A.Incomplete(g)
    ensures Whole(cs, A.Assemble(g.pieces, g.length))
  {
    hide A.Total, A.Assemble, A.IsCovered, A.Disjoint;
    var n := g.length;
    var m :| 0 <= m < |cs| && cs[m].last && EndOf(cs[m]) == n;
    PiecesApart(cs);
    A.TotalBounded(g.pieces, n);
    A.NoGap(g.pieces, n);
    var frame := A.Assemble(g.pieces, n);
    forall i | 0 <= i < |frame| ensures Given(cs, frame, i) { GivenByte(g.pieces, cs, n, i); }
  }

  lemma GivenByte(pieces: seq<A.Piece>, cs: seq<Chunk>, n: nat, i: nat)
    requires pieces == E.Pieces(cs) && A.Disjoint(pieces) && A.IsCovered(pieces, i) && i < n
    ensures Given(cs, A.Assemble(pieces, n), i)
  {
    hide A.Disjoint;
    var k :| 0 <= k < |pieces| && pieces[k].Covers(i);
    A.ByteAtPiece(pieces, i, k);
    assert Gives(cs[k], A.Assemble(pieces, n), i);
  }

  /** An incomplete entry: its chunks are no whole frame. */
  lemma IncompleteNotWhole(g: A.Frame, cs: seq<Chunk>, frame: seq<byte>)
    requires Holds(g, cs) && Consistent(cs) && Whole(cs, frame)
    ensures !A.Incomplete(g)
  {
    hide A.Total, A.Covered;
    PiecesApart(cs);
    var m :| 0 <= m < |cs| && cs[m].last && EndOf(cs[m]) == |frame|;
    var k :| 0 <= k < |cs| && cs[k].last && EndOf(cs[k]) == g.length;
    OneLast(cs, k, m);
    A.CoveredSize(g.pieces);
    A.CoveredMembers(g.pieces);
    RangeSize(|frame|);
    forall i | i in Range(|frame|) ensures i in A.Covered(g.pieces) {
      assert Given(cs, frame, i);
      var j :| 0 <= j < |cs| && Gives(cs[j], frame, i);
      assert g.pieces[j].Covers(i);
      assert A.IsCovered(g.pieces, i);
    }
    SubsetSize(Range(|frame|), A.Covered(g.pieces));
  }

  // ---------------------------------------------------------------- the lookup

  /** The lookup gives the pending frame, or a new one at the end of the list if it is forgotten. */
  lemma {:induction false} Looked(cfg: A.Config, st: A.State, id: nat, cs: seq<Chunk>, age: nat, behind: nat)
    requires A.Inv(cfg, st) && Pending(cfg, st, id, cs, age, behind) && age <= cfg.numFrames
    ensures st.free > 0 || st.used != []
    ensures var (s, i) := A.FrameFor(cfg, st, id);
            && s.time == st.time && s.used[i].id == id && Holds(s.used[i], cs) && |s.used| - 1 - i <= behind
  {
    A.HasSlot(cfg, st);
    A.FrameForInv(cfg, st, id);
    if cs != [] {
      hide A.Total;
      var k :| PendingAt(st, id, cs, age, behind, k);
      SamePlace(st.used, id, k);
    } else {
      hide A.FrameInv;
      var i := A.FindFrame(st.used, id);
      assert A.Total([]) == 0 && E.Pieces([]) == [];
      hide A.Total;
    }
  }

  lemma SamePlace(used: seq<A.Frame>, id: nat, k: nat)
    requires A.DistinctIds(used) && k < |used| && used[k].id == id
    ensures A.FindFrame(used, id) == k
  {
  }

  // ---------------------------------------------------------------- one chunk

  ghost predicate IsWhole(cs: seq<Chunk>) { exists frame :: Whole(cs, frame) }

  /**
    A chunk with the id of a frame of which the chunks cs are there. One that does not fit the
    output is ignored. One that contradicts them ends the frame. One that completes them delivers
    the frame that they all are parts of. Otherwise it is kept with them, if there is room for more.
    */
  lemma {:induction false} ChunkEffect(cfg: A.Config, st: A.State, c: Chunk, cs: seq<Chunk>, age: nat, behind: nat)
    requires A.Inv(cfg, st) && Pending(cfg, st, c.id, cs, age, behind) && age <= cfg.numFrames && Consistent(cs)
    ensures st.free > 0 || st.used != []
    ensures var (s, out), ds := A.ProcessChunk(cfg, st, c), cs + [c];
            && (EndOf(c) > cfg.outputMtu ==> s == st && out == None)
            && (EndOf(c) <= cfg.outputMtu && !Consistent(ds) ==> NoFrame(s, c.id) && out == None)
            && (EndOf(c) <= cfg.outputMtu && Consistent(ds) && IsWhole(ds) ==> NoFrame(s, c.id) && out.Some? && Whole(ds, out.value))
            && (EndOf(c) <= cfg.outputMtu && Consistent(ds) && !IsWhole(ds) ==>
                  && out == None
                  && if |ds| == cfg.numChunks then NoFrame(s, c.id) else Pending(cfg, s, c.id, ds, 0, behind))
  {
    hide A.FrameFor, A.FrameInv, A.Total, A.Accepts, A.Assemble, Holds, Consistent, IsWhole, Whole, Pending, A.AddPiece, A.Incomplete;
    Looked(cfg, st, c.id, cs, age, behind);
    if EndOf(c) <= cfg.outputMtu {
      var (s, i) := A.FrameFor(cfg, st, c.id);
      A.FrameForInv(cfg, st, c.id);
      GoneFrom(cfg, s, i);
      var f, p, ds := s.used[i], A.Piece(c.start, c.data), cs + [c];
      AcceptsConsistent(f, cs, c);
      if Consistent(ds) {
        Kept(cfg, s, i, c, cs, behind);
      }
    }
  }

  lemma GoneFrom(cfg: A.Config, s: A.State, i: nat)
    requires A.Inv(cfg, s) && i < |s.used|
    ensures NoFrame(A.FreeFrame(s, i), s.used[i].id)
  {
    A.FreeFrameInv(cfg, s, i);
  }

  lemma {:induction false} Kept(cfg: A.Config, s: A.State, i: nat, c: Chunk, cs: seq<Chunk>, behind: nat)
    requires A.Inv(cfg, s) && i < |s.used| && s.used[i].id == c.id && Holds(s.used[i], cs) && |s.used| - 1 - i <= behind
    requires Consistent(cs + [c]) && A.Accepts(s.used[i], A.Piece(c.start, c.data), c.last)
    ensures var (t, out), ds := A.StorePiece(cfg, s, i, A.Piece(c.start, c.data), c.last), cs + [c];
            && (IsWhole(ds) ==> NoFrame(t, c.id) && out.Some? && Whole(ds, out.value))
            && (!IsWhole(ds) ==> out == None && if |ds| == cfg.numChunks then NoFrame(t, c.id) else Pending(cfg, t, c.id, ds, 0, behind))
  {
    hide A.FrameInv, A.Total, A.Accepts, A.Assemble, Holds, Consistent, Whole, A.Incomplete, A.DistinctIds;
    var ds, g := cs + [c], A.AddPiece(s.used[i], A.Piece(c.start, c.data), c.last, s.time);
    GoneFrom(cfg, s, i);
    HoldsMore(s.used[i], cs, c, s.time);
    HoldsCount(s.used[i], cs);
    if A.Incomplete(g) {
      forall frame ensures !Whole(ds, frame) { if Whole(ds, frame) { IncompleteNotWhole(g, ds, frame); } }
      var t := s.(used := s.used[i := g]);
      assert PendingAt(t, c.id, ds, 0, behind, i);
    } else {
      CompleteIsWhole(g, ds);
    }
  }

  lemma HoldsCount(f: A.Frame, cs: seq<Chunk>)
    requires Holds(f, cs)
    ensures |f.pieces| == |cs|
  {
  }
}
