/**
  How FragmentProto is used for datagram peers: without a chunk size limit, the number of
  chunk slots computed by fragmentproto_max_chunks_for_frame is always enough.
  */
module FragmentLimits {
  import opened Bytes
  import opened Lists
  import opened FragmentWire
  import A = FragmentAssembler
  import D = FragmentDisassembler
  import E = FragmentEndToEnd

  /** bdivide_up */
  function DivideUp(a: nat, b: nat): (r: nat)
    requires b > 0
  {
    if a % b > 0 then a / b + 1 else a / b
  }

  /** fragmentproto_max_chunks_for_frame */
  function MaxChunksForFrame(carrierMtu: nat, frameMtu: nat): (n: nat)
    requires carrierMtu > HEADER
  {
    DivideUp(frameMtu, carrierMtu - HEADER) + 1
  }

  /** One chunk, and as many more as there are packets in the whole frame: the smallest number of them that holds it. */
  lemma MaxChunksIs(carrierMtu: nat, frameMtu: nat)
    requires carrierMtu > 7
    ensures var n, p := MaxChunksForFrame(carrierMtu, frameMtu), carrierMtu - 7;
            n >= 1 && frameMtu <= (n - 1) * p && (n > 1 ==> (n - 2) * p < frameMtu)
  {
    var p := carrierMtu - 7;
    var q := frameMtu / p;
    assert frameMtu == q * p + frameMtu % p;
    assert (q + 1) * p == q * p + p && (q - 1) * p == q * p - p;
  }

  /** The payload of a packet with a single chunk. */
  function Payload(cfg: D.Config): (n: nat)
    requires cfg.Valid()
    ensures n > 0
  {
    cfg.outputMtu - HEADER
  }

  /** Every chunk but the first and the last of a frame fills a packet of its own. */
  ghost predicate InnerFull(cfg: D.Config, cs: seq<Chunk>)
    requires cfg.Valid()
  {
    forall k :: 0 < k < |cs| && !cs[k].last ==> |cs[k].data| == Payload(cfg)
  }

  ghost predicate AllInnerFull(cfg: D.Config, w: D.World)
    requires cfg.Valid()
  {
    (forall i :: 0 <= i < |w.cuts| ==> InnerFull(cfg, w.cuts[i])) && InnerFull(cfg, w.part)
  }

  /** Without a chunk limit the loop writes one chunk: the rest of the frame or a full packet. */
  lemma OneChunk(cfg: D.Config, frame: seq<byte>, id: nat, used: nat, out: seq<Chunk>)
    requires cfg.Valid() && cfg.chunkMtu < 0 && used <= |frame| && D.OutAvail(cfg, out) > 0
    ensures var cs := D.NewChunks(cfg, frame, id, used, out);
            |cs| == 1 && (cs[0].last || |cs[0].data| == D.OutAvail(cfg, out))
  {
    var c := D.NextChunk(cfg, frame, id, used, out);
    D.PacketLenAppend(out, c);
  }

  lemma StepInnerFull(cfg: D.Config, w: D.World, e: D.Event)
    requires cfg.Valid() && cfg.chunkMtu < 0 && D.WorldInv(cfg, w) && D.Enabled(cfg, w.d, e) && D.Clean(w.d, e)
    requires AllInnerFull(cfg, w)
    ensures AllInnerFull(cfg, D.Next(cfg, w, e))
  {
    hide D.CutTo, D.Flat, D.PacketLen, D.NewChunks, D.DataLen;
    D.PacketLenEmpty();
    if e.Send? && w.d.out.Some? {
      OneChunk(cfg, e.frame, w.d.frameId, 0, w.d.out.value);
    } else if e.Recv? && w.d.input.Some? {
      OneChunk(cfg, w.d.input.value, w.d.frameId, w.d.inUsed, []);
    }
    assert InnerFull(cfg, w.part + D.Written(w.d, e, cfg));
  }

  lemma {:induction false} RunInnerFull(cfg: D.Config, ws: seq<D.World>, es: seq<D.Event>)
    requires cfg.Valid() && cfg.chunkMtu < 0 && D.CleanRun(cfg, ws, es)
    ensures AllInnerFull(cfg, ws[|es|])
    decreases |es|
  {
    if es != [] {
      hide AllInnerFull, D.WorldInv, D.Next;
      var n := |es| - 1;
      assert D.CleanRun(cfg, ws[..n + 1], es[..n]);
      RunInnerFull(cfg, ws[..n + 1], es[..n]);
      D.RunKeeps(cfg, ws[..n + 1], es[..n]);
      assert D.CleanStep(cfg, ws[n], es[n], ws[n + 1]);
      StepInnerFull(cfg, ws[n], es[n]);
    }
  }

  lemma {:induction false} StartOf(cfg: D.Config, frame: seq<byte>, id: nat, cs: seq<Chunk>, k: nat)
    requires cfg.Valid() && E.Contiguous(frame, id, cs) && InnerFull(cfg, cs) && 0 < k < |cs|
    ensures cs[k].start >= (k - 1) * Payload(cfg)
    decreases k
  {
    if k > 1 {
      StartOf(cfg, frame, id, cs, k - 1);
      assert cs[k].start == cs[k - 1].start + Payload(cfg);
      assert (k - 1) * Payload(cfg) == (k - 2) * Payload(cfg) + Payload(cfg);
    }
  }

  lemma DivideUpBound(m: nat, l: nat, p: nat)
    requires p > 0 && m * p < l
    ensures m + 1 <= DivideUp(l, p)
  {
    var q := DivideUp(l, p);
    assert l <= q * p;
    assert m * p < q * p;
  }

  lemma DivideUpMonotonic(a: nat, b: nat, p: nat)
    requires p > 0 && a <= b
    ensures DivideUp(a, p) <= DivideUp(b, p)
  {
    if a > 0 {
      var m := DivideUp(a, p) - 1;
      assert m * p < a;
      DivideUpBound(m, b, p);
    }
  }

  /** n chunks of which the last starts at start: how many chunks that allows. */
  lemma SlotCount(n: nat, p: nat, start: nat, len: nat, l: nat)
    requires p > 0 && n > 1 && start >= (n - 2) * p && start < l
    ensures n <= DivideUp(l, p) + 1
    ensures len == p && start + len < l ==> n <= DivideUp(l, p)
  {
    DivideUpBound(n - 2, l, p);
    if len == p && start + len < l {
      assert (n - 1) * p == (n - 2) * p + p;
      DivideUpBound(n - 1, l, p);
    }
  }

  lemma LastChunk(frame: seq<byte>, id: nat, cs: seq<Chunk>, upto: nat)
    requires upto <= |frame| && D.CutTo(frame, id, cs, upto) && |cs| > 1
    ensures var c := cs[|cs| - 1];
            c.start + |c.data| == upto && c.start < |frame| && (c.last <==> upto == |frame|)
  {
  }

  /** A whole cut needs at most the computed number of slots, a partial one fewer. */
  lemma SlotsEnough(cfg: D.Config, frame: seq<byte>, id: nat, cs: seq<Chunk>, upto: nat)
    requires cfg.Valid() && upto <= |frame| && D.CutTo(frame, id, cs, upto) && InnerFull(cfg, cs)
    requires |frame| <= cfg.inputMtu
    ensures |cs| <= MaxChunksForFrame(cfg.outputMtu, cfg.inputMtu)
    ensures upto < |frame| ==> |cs| < MaxChunksForFrame(cfg.outputMtu, cfg.inputMtu)
  {
    hide DivideUp, D.CutTo, E.Contiguous;
    var n, p := |cs|, Payload(cfg);
    DivideUpMonotonic(|frame|, cfg.inputMtu, p);
    if n > 1 {
      E.CutContiguous(frame, id, cs, upto);
      LastChunk(frame, id, cs, upto);
      StartOf(cfg, frame, id, cs, n - 1);
      SlotCount(n, p, cs[n - 1].start, |cs[n - 1].data|, |frame|);
    } else if |frame| > 0 {
      DivideUpBound(0, |frame|, p);
    }
  }

  /**
    The round trip as DatagramPeerIO sets it up: no chunk limit, and as many chunk slots as
    the header computes. No condition on the run is left besides clean cancels.
    */
  lemma DatagramRoundTrip(dcfg: D.Config, ws: seq<D.World>, es: seq<D.Event>, acfg: A.Config)
    requires dcfg.Valid() && dcfg.chunkMtu < 0 && D.CleanRun(dcfg, ws, es)
    requires acfg.Valid() && acfg.outputMtu >= dcfg.inputMtu
    requires acfg.numChunks == MaxChunksForFrame(dcfg.outputMtu, dcfg.inputMtu)
    ensures var out := A.Run(acfg, A.Init(acfg), E.Encode(ws[|es|].packets)).1;
            && out <= ws[|es|].frames
            && (D.Open(ws[|es|].d) == [] ==> out == ws[|es|].frames)
  {
    var w := ws[|es|];
    D.RunKeeps(dcfg, ws, es);
    RunInnerFull(dcfg, ws, es);
    forall i | 0 <= i < |w.cuts|
      ensures |w.cuts[i]| <= acfg.numChunks
    {
      assert D.CutWhole(w.frames[i], D.FrameId(i), w.cuts[i]);
      SlotsEnough(dcfg, w.frames[i], D.FrameId(i), w.cuts[i], |w.frames[i]|);
    }
    if w.part != [] {
      SlotsEnough(dcfg, w.d.input.value, w.d.frameId, w.part, w.d.inUsed);
    }
    E.RoundTrip(dcfg, ws, es, acfg);
  }
}
