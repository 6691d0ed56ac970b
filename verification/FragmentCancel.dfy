/**
  What a cancel of a partly written frame does. The next frame goes out under the same id, so
  that chunks of both can be put together. This is worked out for datagram peers, which set no
  limit on the size of chunks: a chunk then fills its packet or is the last of its frame.
  */
module FragmentCancel {
  import opened Bytes
  import opened Lists
  import opened FragmentWire
  import opened FragmentLimits
  import opened FragmentMixing
  import A = FragmentAssembler
  import D = FragmentDisassembler
  import E = FragmentEndToEnd

  predicate Datagram(cfg: D.Config) { cfg.Valid() && cfg.chunkMtu < 0 }

  // ---------------------------------------------------------------- runs

  /** Enabled events, clean or not, from one world to another. */
  ghost predicate Runs(cfg: D.Config, w: D.World, es: seq<D.Event>, w': D.World)
    decreases |es|
  {
    if es == [] then w' == w
    else cfg.Valid() && D.Valid(cfg, w.d) && D.Enabled(cfg, w.d, es[0]) && Runs(cfg, D.Next(cfg, w, es[0]), es[1..], w')
  }

  lemma {:induction false} OneEvent(cfg: D.Config, w: D.World, e: D.Event, es: seq<D.Event>, w': D.World)
    requires cfg.Valid() && D.Valid(cfg, w.d) && D.Enabled(cfg, w.d, e) && Runs(cfg, D.Next(cfg, w, e), es, w')
    ensures Runs(cfg, w, [e] + es, w')
  {
    hide D.Next, D.Valid, D.Enabled;
    assert ([e] + es)[1..] == es;
  }

  /** No frame is taken in or cancelled. */
  predicate Passive(e: D.Event) { e == D.Recv || e == D.Timer }

  ghost predicate AllPassive(es: seq<D.Event>) { forall k :: 0 <= k < |es| ==> Passive(es[k]) }

  /** One frame is taken in, g. */
  ghost predicate TakesOne(es: seq<D.Event>, g: seq<byte>)
    decreases |es|
  {
    es != [] && if es[0].Send? then es[0] == D.Send(g) && AllPassive(es[1..]) else Passive(es[0]) && TakesOne(es[1..], g)
  }

  /**
    Frame f is taken in at w and partly written at v, when it is cancelled; then frame g is taken in,
    and at r it is finished and nothing waits to be sent.
    */
  datatype Story = Story(w: D.World, f: seq<byte>, es: seq<D.Event>, v: D.World, x: D.World, g: seq<byte>, fs: seq<D.Event>, r: D.World)

  ghost predicate Happens(cfg: D.Config, s: Story) {
    && D.Valid(cfg, s.w.d) && s.w.d.input == None && |s.f| <= cfg.inputMtu && |s.g| <= cfg.inputMtu
    && Runs(cfg, s.w, [D.Send(s.f)] + s.es, s.v) && AllPassive(s.es)
    && Runs(cfg, s.v, [D.Cancel], s.x)
    && Runs(cfg, s.x, s.fs, s.r) && TakesOne(s.fs, s.g)
    && s.r.d.input == None && D.Open(s.r.d) == []
  }

  // ---------------------------------------------------------------- one chunk

  /** Room for the first chunk of a frame: in the open packet, or in a new one. */
  function First(cfg: D.Config, d: D.State): (a: int)
    requires cfg.Valid()
  {
    if d.out.Some? then D.OutAvail(cfg, d.out.value) else Payload(cfg)
  }

  lemma FirstBound(cfg: D.Config, d: D.State)
    requires cfg.Valid() && D.Valid(cfg, d)
    ensures 0 < First(cfg, d) <= Payload(cfg) && (First(cfg, d) == Payload(cfg) ==> D.Open(d) == [])
  {
  }

  /** The chunk from used on, in a packet with room for n bytes. */
  function Next(frame: seq<byte>, id: nat, used: nat, n: nat): (c: Chunk)
    requires used <= |frame|
  {
    var b := D.Min(used + n, |frame|);
    Chunk(id, used, frame[used..b], b == |frame|)
  }

  /** The packet goes out, or waits for the timer. */
  predicate LastChunk(d: D.State, o: D.Output, packet: seq<Chunk>) {
    || (d.out == None && !d.timer && o.packet == Some(packet))
    || (d.out == Some(packet) && d.timer && o.packet == None)
  }

  /** Without a limit on chunks, write_chunks writes one: it ends the frame or fills the packet. */
  lemma {:induction false} WriteOne(cfg: D.Config, frame: seq<byte>, id: nat, used: nat, open: seq<Chunk>)
    requires Datagram(cfg) && used <= |frame| && D.OutAvail(cfg, open) > 0
    ensures var c := Next(frame, id, used, D.OutAvail(cfg, open)); var end := used + |c.data|;
            && D.NewChunks(cfg, frame, id, used, open) == [c]
            && var (d, o) := D.WriteChunks(cfg, D.State(Some(frame), used, Some(open), id, false));
            && (end < |frame| ==> d == D.State(Some(frame), end, None, id, false) && o == D.Output(Some(open + [c]), false))
            && (end == |frame| ==> d.input == None && d.frameId == (id + 1) % 0x1_0000 && o.done && LastChunk(d, o, open + [c]))
  {
    var c := Next(frame, id, used, D.OutAvail(cfg, open));
    OneChunk(cfg, frame, id, used, open);
    assert D.NextChunk(cfg, frame, id, used, open) == c;
    D.PacketLenAppend(open, c);
    assert D.DataLen([c]) == |c.data| by { assert [c][1..] == []; }
  }

  // ---------------------------------------------------------------- the frame that is cancelled

  /** The packets for chunks of which the first went into an open packet, if there was one. */
  function Packets(open: Option<seq<Chunk>>, cs: seq<Chunk>): (ps: seq<seq<Chunk>>) {
    if open.Some? && cs != [] then [open.value + [cs[0]]] + Single(cs[1..]) else Single(cs)
  }

  lemma PacketsAppend(open: Option<seq<Chunk>>, cs: seq<Chunk>, c: Chunk)
    requires cs != [] || open == None
    ensures Packets(open, cs + [c]) == Packets(open, cs) + [[c]]
  {
    if open.Some? {
      assert (cs + [c])[1..] == cs[1..] + [c];
      assert Single(cs[1..] + [c]) == Single(cs[1..]) + [[c]];
    } else {
      assert Single(cs + [c]) == Single(cs) + [[c]];
    }
  }

  /** k chunks of f are sent, and more are to come. */
  ghost predicate Begun(cfg: D.Config, w: D.World, f: seq<byte>, v: D.World, k: nat)
    requires cfg.Valid() && D.Valid(cfg, w.d)
  {
    FirstBound(cfg, w.d);
    var p, a := Payload(cfg), First(cfg, w.d);
    && (k == 0 || FStart(p, a, k) < |f|) && (w.d.out.Some? ==> k > 0)
    && v.d == D.State(Some(f), FStart(p, a, k), None, w.d.frameId, false)
    && v.packets == w.packets + Packets(w.d.out, Sent(p, a, f, w.d.frameId, k)) && v.frames == w.frames
  }

  lemma SentMore(p: nat, a: nat, f: seq<byte>, id: nat, k: nat)
    requires 0 < a <= p && FStart(p, a, k + 1) < |f| && (k == 0 || FStart(p, a, k) < |f|)
    ensures FStart(p, a, k) <= |f|
    ensures var c := Next(f, id, FStart(p, a, k), if k == 0 then a else p);
            c.start + |c.data| == FStart(p, a, k + 1) && Sent(p, a, f, id, k + 1) == Sent(p, a, f, id, k) + [c]
  {
    hide Off, FStart;
    FStartOrder(p, a, k, k + 1);
  }

  lemma {:induction false} BeginsF(cfg: D.Config, w: D.World, f: seq<byte>)
    requires Datagram(cfg) && D.Valid(cfg, w.d) && w.d.input == None && |f| <= cfg.inputMtu
    ensures D.Enabled(cfg, w.d, D.Send(f))
    ensures var r := D.Next(cfg, w, D.Send(f));
            r.d.input == None || Begun(cfg, w, f, r, if w.d.out.Some? then 1 else 0)
  {
    hide D.NewChunks, D.WriteChunks, Off;
    FirstBound(cfg, w.d);
    var p, a, id := Payload(cfg), First(cfg, w.d), w.d.frameId;
    OffZero(p);
    if w.d.out.Some? {
      TimerIrrelevant(cfg, w.d, f);
      WriteOne(cfg, f, id, 0, w.d.out.value);
      if a < |f| {
        SentMore(p, a, f, id, 0);
        var c := Next(f, id, 0, a);
        assert Sent(p, a, f, id, 0) + [c] == [c];
        assert Packets(w.d.out, [c]) == [w.d.out.value + [c]];
      }
    } else {
      assert Packets(w.d.out, Sent(p, a, f, id, 0)) == [];
    }
  }

  /** What write_chunks does does not depend on a running timer. */
  lemma TimerIrrelevant(cfg: D.Config, d: D.State, f: seq<byte>)
    requires Datagram(cfg) && D.Valid(cfg, d) && d.input == None && d.out.Some?
    ensures D.WriteChunks(cfg, d.(input := Some(f), inUsed := 0)) == D.WriteChunks(cfg, D.State(Some(f), 0, d.out, d.frameId, false))
  {
  }

  /** With a frame taken in and nothing else going on, the next chunk fills a packet or ends the frame. */
  lemma {:induction false} Continue(cfg: D.Config, v: D.World, f: seq<byte>, used: nat, id: nat, e: D.Event)
    requires Datagram(cfg) && v.d == D.State(Some(f), used, None, id, false) && used <= |f|
    requires D.Valid(cfg, v.d) && D.Enabled(cfg, v.d, e) && Passive(e)
    ensures var r, c := D.Next(cfg, v, e), Next(f, id, used, Payload(cfg));
            r.d.input == None
            || (&& used + Payload(cfg) < |f| && r.d == D.State(Some(f), used + Payload(cfg), None, id, false)
                && r.packets == v.packets + [[c]] && r.frames == v.frames)
  {
    hide D.NewChunks, D.WriteChunks, D.PacketLen;
    D.PacketLenEmpty();
    WriteOne(cfg, f, id, used, []);
    assert [] + [Next(f, id, used, Payload(cfg))] == [Next(f, id, used, Payload(cfg))];
  }

  lemma {:induction false} StepF(cfg: D.Config, w: D.World, f: seq<byte>, v: D.World, k: nat, e: D.Event)
    requires Datagram(cfg) && D.Valid(cfg, w.d) && |f| <= cfg.inputMtu && Begun(cfg, w, f, v, k)
    requires D.Valid(cfg, v.d) && D.Enabled(cfg, v.d, e) && Passive(e)
    ensures var r := D.Next(cfg, v, e); r.d.input == None || Begun(cfg, w, f, r, k + 1)
  {
    hide D.Next, D.Enabled, D.Valid, Off, FStart, Next, Packets, Sent;
    FirstBound(cfg, w.d);
    var p, a, id := Payload(cfg), First(cfg, w.d), w.d.frameId;
    FStartOrder(p, a, k, k + 1);
    FStartZero(p, a);
    Continue(cfg, v, f, FStart(p, a, k), id, e);
    if D.Next(cfg, v, e).d.input.Some? {
      NothingOpenAtFirst(cfg, w, f, v, k);
      SentMore(p, a, f, id, k);
      var c := Next(f, id, FStart(p, a, k), p);
      SentSome(p, a, f, id, k);
      PacketsAppend(w.d.out, Sent(p, a, f, id, k), c);
      Assoc(w.packets, Packets(w.d.out, Sent(p, a, f, id, k)), [[c]]);
    }
  }

  lemma FStartZero(p: nat, a: nat)
    ensures FStart(p, a, 0) == 0
  {
  }

  lemma SentSome(p: nat, a: nat, f: seq<byte>, id: nat, k: nat)
    requires 0 < a <= p && (k == 0 || FStart(p, a, k) < |f|)
    ensures k > 0 ==> Sent(p, a, f, id, k) != []
  {
  }

  lemma NothingOpenAtFirst(cfg: D.Config, w: D.World, f: seq<byte>, v: D.World, k: nat)
    requires cfg.Valid() && D.Valid(cfg, w.d) && Begun(cfg, w, f, v, k)
    ensures k == 0 ==> w.d.out == None && First(cfg, w.d) == Payload(cfg)
  {
  }

  lemma {:induction false} StaysEmpty(cfg: D.Config, w: D.World, es: seq<D.Event>, v: D.World)
    requires w.d.input == None && Runs(cfg, w, es, v) && AllPassive(es)
    ensures v.d.input == None
    decreases |es|
  {
    if es != [] {
      StaysEmpty(cfg, D.Next(cfg, w, es[0]), es[1..], v);
    }
  }

  lemma {:induction false} RunOfF(cfg: D.Config, w: D.World, f: seq<byte>, v: D.World, k: nat, es: seq<D.Event>, x: D.World) returns (m: nat)
    requires Datagram(cfg) && D.Valid(cfg, w.d) && |f| <= cfg.inputMtu && Begun(cfg, w, f, v, k)
    requires Runs(cfg, v, es, x) && AllPassive(es) && x.d.input.Some?
    ensures Begun(cfg, w, f, x, m)
    decreases |es|
  {
    hide D.Next, D.Valid, D.Enabled, Begun;
    if es == [] {
      m := k;
    } else {
      StepF(cfg, w, f, v, k, es[0]);
      var r := D.Next(cfg, v, es[0]);
      if r.d.input == None {
        StaysEmpty(cfg, r, es[1..], x);
      }
      m := RunOfF(cfg, w, f, r, k + 1, es[1..], x);
    }
  }

  // ---------------------------------------------------------------- the frame that follows

  /** Not yet taken in; k chunks sent; the last chunk waits in the open packet; all sent. */
  datatype Phase = Before | Cutting(k: nat) | Waiting | Finished

  predicate NothingOpen(d: D.State) { d.input == None && (d.out == None || d.out == Some([])) && !d.timer }

  ghost predicate InPhase(cfg: D.Config, x: D.World, g: seq<byte>, w: D.World, ph: Phase)
    requires cfg.Valid()
  {
    var p, id := Payload(cfg), x.d.frameId;
    var n := Chunks(p, |g|);
    InFrame(p, g, n - 1);
    match ph
    case Before => NothingOpen(w.d) && w.d.frameId == id && w.packets == x.packets && w.frames == x.frames
    case Cutting(k) => k < n && w.d == D.State(Some(g), Off(p, k), None, id, false)
                       && w.packets == x.packets + Single(Cut(p, g, id, k)) && w.frames == x.frames
    case Waiting => w.d.input == None && w.d.out == Some([ChunkAt(p, g, id, n - 1)]) && w.d.timer
                    && w.packets == x.packets + Single(Cut(p, g, id, n - 1)) && w.frames == x.frames + [g]
    case Finished => NothingOpen(w.d) && w.packets == x.packets + Single(Cut(p, g, id, n)) && w.frames == x.frames + [g]
  }

  lemma CutMore(p: nat, g: seq<byte>, id: nat, k: nat)
    requires p > 0 && k < Chunks(p, |g|)
    ensures Off(p, k) <= |g| && Next(g, id, Off(p, k), p) == ChunkAt(p, g, id, k)
    ensures Cut(p, g, id, k + 1) == Cut(p, g, id, k) + [ChunkAt(p, g, id, k)]
    ensures Single(Cut(p, g, id, k + 1)) == Single(Cut(p, g, id, k)) + [[ChunkAt(p, g, id, k)]]
    ensures var end := Off(p, k) + |ChunkAt(p, g, id, k).data|;
            if k + 1 < Chunks(p, |g|) then end == Off(p, k + 1) < |g| else end == |g|
  {
    hide Chunks, Off;
    InFrame(p, g, k);
    OffNext(p, k);
  }

  /** The phase after chunk k of g was written into a new packet. */
  lemma {:induction false} WritesG(cfg: D.Config, x: D.World, g: seq<byte>, w: D.World, k: nat, r: D.World) returns (ph: Phase)
    requires Datagram(cfg) && |g| <= cfg.inputMtu && k < Chunks(Payload(cfg), |g|)
    requires D.OutAvail(cfg, []) > 0 && Off(Payload(cfg), k) <= |g|
    requires w.packets == x.packets + Single(Cut(Payload(cfg), g, x.d.frameId, k)) && w.frames == x.frames
    requires var (d, o) := D.WriteChunks(cfg, D.State(Some(g), Off(Payload(cfg), k), Some([]), x.d.frameId, false));
             && r.d == d && r.packets == (if o.packet.Some? then w.packets + [o.packet.value] else w.packets)
             && r.frames == (if o.done then w.frames + [g] else w.frames)
    ensures InPhase(cfg, x, g, r, ph) && ph != Before
  {
    hide D.NewChunks, D.WriteChunks, Off, Chunks, ChunkAt;
    var p, id := Payload(cfg), x.d.frameId;
    D.PacketLenEmpty();
    WriteOne(cfg, g, id, Off(p, k), []);
    CutMore(p, g, id, k);
    var c := ChunkAt(p, g, id, k);
    assert [] + [c] == [c];
    Assoc(x.packets, Single(Cut(p, g, id, k)), [[c]]);
    ph := if r.d.input.Some? then Cutting(k + 1) else if r.d.timer then Waiting else Finished;
  }

  lemma {:induction false} StepG(cfg: D.Config, x: D.World, g: seq<byte>, w: D.World, ph: Phase, e: D.Event) returns (ph': Phase)
    requires Datagram(cfg) && |g| <= cfg.inputMtu && InPhase(cfg, x, g, w, ph)
    requires D.Valid(cfg, w.d) && D.Enabled(cfg, w.d, e) && (Passive(e) || (e == D.Send(g) && ph == Before))
    ensures InPhase(cfg, x, g, D.Next(cfg, w, e), ph') && (ph' == Before <==> ph == Before && Passive(e))
  {
    hide D.NewChunks, D.WriteChunks, D.PacketLen, Off, Chunks, ChunkAt;
    var p, id := Payload(cfg), x.d.frameId;
    var r := D.Next(cfg, w, e);
    OffZero(p);
    D.PacketLenEmpty();
    InFrame(p, g, 0);
    if ph == Before && Passive(e) {
      ph' := Before;
    } else if ph == Before {
      assert Single(Cut(p, g, id, 0)) == [];
      if w.d.out == None {
        ph' := Cutting(0);
      } else {
        ph' := WritesG(cfg, x, g, w, 0, r);
      }
    } else if ph.Cutting? {
      InFrame(p, g, ph.k);
      ph' := WritesG(cfg, x, g, w, ph.k, r);
    } else if ph == Waiting {
      CutMore(p, g, id, Chunks(p, |g|) - 1);
      Assoc(x.packets, Single(Cut(p, g, id, Chunks(p, |g|) - 1)), [[ChunkAt(p, g, id, Chunks(p, |g|) - 1)]]);
      ph' := Finished;
    } else {
      ph' := Finished;
    }
  }

  lemma {:induction false} RunOfG(cfg: D.Config, x: D.World, g: seq<byte>, w: D.World, ph: Phase, es: seq<D.Event>, r: D.World) returns (ph': Phase)
    requires Datagram(cfg) && |g| <= cfg.inputMtu && InPhase(cfg, x, g, w, ph) && Runs(cfg, w, es, r)
    requires if ph == Before then TakesOne(es, g) else AllPassive(es)
    ensures InPhase(cfg, x, g, r, ph') && ph' != Before
    decreases |es|
  {
    hide D.Next, D.Valid, D.Enabled, InPhase;
    if es == [] {
      ph' := ph;
    } else {
      var ph1 := StepG(cfg, x, g, w, ph, es[0]);
      ph' := RunOfG(cfg, x, g, D.Next(cfg, w, es[0]), ph1, es[1..], r);
    }
  }

  // ---------------------------------------------------------------- the exact condition

  lemma {:induction false} CancelsTo(cfg: D.Config, v: D.World, x: D.World, f: seq<byte>, used: nat, id: nat)
    requires v.d == D.State(Some(f), used, None, id, false) && Runs(cfg, v, [D.Cancel], x)
    ensures x.d == v.d.(input := None) && x.packets == v.packets && x.frames == v.frames
  {
    assert [D.Cancel][1..] == [];
    assert Runs(cfg, D.Next(cfg, v, D.Cancel), [], x);
  }

  /** What has been sent in the end: some chunks of f and all of g, under one id, and g is the only frame finished. */
  lemma {:induction false} CancelSends(cfg: D.Config, s: Story) returns (m: nat)
    requires Datagram(cfg) && Happens(cfg, s)
    ensures 0 < First(cfg, s.w.d) <= Payload(cfg) && s.w.d.frameId < 0x1_0000
    ensures var p, a := Payload(cfg), First(cfg, s.w.d);
            && (m == 0 || FStart(p, a, m) < |s.f|) && s.v.d.input == Some(s.f) && s.v.d.inUsed == FStart(p, a, m)
            && s.r.packets == s.w.packets + Packets(s.w.d.out, Mixed(p, a, s.f, m, s.g, s.w.d.frameId))
            && s.r.frames == s.w.frames + [s.g]
  {
    hide D.Next, D.Valid, D.Enabled, Chunks, Off, FStart, Sent;
    m := UpToCancel(cfg, s);
    var p, a, id := Payload(cfg), First(cfg, s.w.d), s.w.d.frameId;
    CancelsTo(cfg, s.v, s.x, s.f, FStart(p, a, m), id);
    var ph := RunOfG(cfg, s.x, s.g, s.x, Before, s.fs, s.r);
    var sent, rest := Sent(p, a, s.f, id, m), Cut(p, s.g, id, Chunks(p, |s.g|));
    PacketsConcat(s.w.d.out, sent, rest);
    Assoc(s.w.packets, Packets(s.w.d.out, sent), Single(rest));
  }

  lemma {:induction false} UpToCancel(cfg: D.Config, s: Story) returns (m: nat)
    requires Datagram(cfg) && Happens(cfg, s)
    ensures 0 < First(cfg, s.w.d) <= Payload(cfg) && Begun(cfg, s.w, s.f, s.v, m) && s.w.d.frameId < 0x1_0000
  {
    hide D.Next, D.Enabled, Begun;
    FirstBound(cfg, s.w.d);
    BeginsF(cfg, s.w, s.f);
    var w1 := D.Next(cfg, s.w, D.Send(s.f));
    assert ([D.Send(s.f)] + s.es)[1..] == s.es;
    CancelNeedsInput(cfg, s.v, s.x);
    if w1.d.input == None {
      StaysEmpty(cfg, w1, s.es, s.v);
    }
    m := RunOfF(cfg, s.w, s.f, w1, if s.w.d.out.Some? then 1 else 0, s.es, s.v);
  }

  lemma CancelNeedsInput(cfg: D.Config, v: D.World, x: D.World)
    requires Runs(cfg, v, [D.Cancel], x)
    ensures v.d.input.Some?
  {
  }

  lemma PacketsConcat(open: Option<seq<Chunk>>, a: seq<Chunk>, b: seq<Chunk>)
    requires a != [] || open == None
    ensures Packets(open, a + b) == Packets(open, a) + Single(b)
  {
    if open.Some? {
      assert (a + b)[1..] == a[1..] + b;
      assert Single(a[1..] + b) == Single(a[1..]) + Single(b);
    } else {
      assert Single(a + b) == Single(a) + Single(b);
    }
  }

  /**
    For every run in which a frame f is cancelled with u bytes written and a frame g is then sent
    whole, with any latency and any timing: an assembler that is big enough for g delivers nothing
    but g under their common id, whatever arrives, if and only if the first chunk of f was shorter
    than a packet, or f and g agree on the first min(u, p * (chunks of g - 1)) bytes.
    */
  lemma {:induction false} CancelSafeExactlyWhen(cfg: D.Config, acfg: A.Config, s: Story) returns (m: nat)
    requires Datagram(cfg) && Happens(cfg, s)
    requires acfg.Valid() && |s.g| <= acfg.outputMtu && Chunks(Payload(cfg), |s.g|) <= acfg.numChunks
    ensures 0 < First(cfg, s.w.d) <= Payload(cfg)
    ensures var p, a, id := Payload(cfg), First(cfg, s.w.d), s.w.d.frameId;
            && (m == 0 || FStart(p, a, m) < |s.f|)
            && s.r.packets == s.w.packets + Packets(s.w.d.out, Mixed(p, a, s.f, m, s.g, id)) && s.r.frames == s.w.frames + [s.g]
            && (DeliversOnly(acfg, Mixed(p, a, s.f, m, s.g, id), id, s.g)
                <==> a < p || Agree(s.f, s.g, Shared(p, s.v.d.inUsed, s.g)))
  {
    hide Chunks, FStart, Mixed, Agree, DeliversOnly, Happens;
    m := CancelSends(cfg, s);
    StorySizes(cfg, s);
    SafeExactlyWhen(acfg, Payload(cfg), First(cfg, s.w.d), s.f, m, s.g, s.w.d.frameId);
  }

  lemma StorySizes(cfg: D.Config, s: Story)
    requires Datagram(cfg) && Happens(cfg, s)
    ensures |s.f| < 0x1_0000 && |s.g| < 0x1_0000
  {
  }

  // ---------------------------------------------------------------- safety fails

  /** A packet carries one byte of payload. */
  predicate Tiny(cfg: D.Config) { Datagram(cfg) && cfg.inputMtu >= 2 && cfg.outputMtu == HEADER + 1 }

  /** Frame f is taken in, its first byte sent, and the frame cancelled. */
  lemma {:induction false} TinyCancel(cfg: D.Config, f: seq<byte>) returns (v: D.World, x: D.World)
    requires Tiny(cfg) && |f| == 2
    ensures Runs(cfg, D.Start, [D.Send(f)] + [D.Recv], v) && Runs(cfg, v, [D.Cancel], x)
    ensures v.d.inUsed == 1 && D.Valid(cfg, x.d) && x.d.input == None && x.d.out == None
  {
    hide Runs;
    var w1: D.World;
    w1, v := FirstByte(cfg, D.Start, f);
    x := D.Next(cfg, v, D.Cancel);
    NoEvent(cfg, v);
    NoEvent(cfg, x);
    OneEvent(cfg, w1, D.Recv, [], v);
    assert [D.Recv] + [] == [D.Recv];
    OneEvent(cfg, D.Start, D.Send(f), [D.Recv], v);
    OneEvent(cfg, v, D.Cancel, [], x);
    assert [D.Cancel] + [] == [D.Cancel];
  }

  /** Frame g is taken in and both its bytes are sent. */
  lemma {:induction false} TinyWhole(cfg: D.Config, x: D.World, g: seq<byte>) returns (r: D.World)
    requires Tiny(cfg) && |g| == 2 && D.Valid(cfg, x.d) && x.d.input == None && x.d.out == None
    ensures Runs(cfg, x, [D.Send(g)] + [D.Recv, D.Recv], r) && r.d.input == None && D.Open(r.d) == []
  {
    hide Runs, D.Next, D.Valid, D.Enabled;
    var y1, y2 := FirstByte(cfg, x, g);
    SecondByte(cfg, y2, g);
    r := D.Next(cfg, y2, D.Recv);
    NoEvent(cfg, r);
    OneEvent(cfg, y2, D.Recv, [], r);
    assert [D.Recv] + [] == [D.Recv];
    OneEvent(cfg, y1, D.Recv, [D.Recv], r);
    assert [D.Recv] + [D.Recv] == [D.Recv, D.Recv];
    OneEvent(cfg, x, D.Send(g), [D.Recv, D.Recv], r);
  }

  /** The two frames of two bytes each, one byte a packet: six events from the start. */
  lemma {:induction false} TinyStory(cfg: D.Config, f: seq<byte>, g: seq<byte>) returns (s: Story)
    requires Tiny(cfg) && |f| == |g| == 2
    ensures Happens(cfg, s) && s.w == D.Start && s.f == f && s.g == g && s.v.d.inUsed == 1
    ensures s.es == [D.Recv] && s.fs == [D.Send(g)] + [D.Recv, D.Recv]
  {
    hide Runs, D.Next, D.Enabled;
    var v, x := TinyCancel(cfg, f);
    var r := TinyWhole(cfg, x, g);
    s := Story(D.Start, f, [D.Recv], v, x, g, [D.Send(g)] + [D.Recv, D.Recv], r);
    assert s.fs[1..] == [D.Recv, D.Recv];
  }

  lemma NoEvent(cfg: D.Config, w: D.World)
    ensures Runs(cfg, w, [], w)
  {
  }

  /** A frame of two bytes is taken in and its first byte sent. */
  lemma {:induction false} FirstByte(cfg: D.Config, w: D.World, f: seq<byte>) returns (v: D.World, r: D.World)
    requires Tiny(cfg) && |f| == 2 && D.Valid(cfg, w.d) && w.d.input == None && w.d.out == None
    ensures D.Enabled(cfg, w.d, D.Send(f)) && v == D.Next(cfg, w, D.Send(f))
    ensures D.Valid(cfg, v.d) && D.Enabled(cfg, v.d, D.Recv) && r == D.Next(cfg, v, D.Recv)
    ensures D.Valid(cfg, r.d) && r.d == D.State(Some(f), 1, None, w.d.frameId, false)
  {
    hide D.NewChunks, D.WriteChunks, D.PacketLen;
    D.PacketLenEmpty();
    v := D.Next(cfg, w, D.Send(f));
    WriteOne(cfg, f, w.d.frameId, 0, []);
    r := D.Next(cfg, v, D.Recv);
  }

  lemma SecondByte(cfg: D.Config, w: D.World, f: seq<byte>)
    requires Tiny(cfg) && |f| == 2 && D.Valid(cfg, w.d) && w.d == D.State(Some(f), 1, None, w.d.frameId, false)
    ensures D.Enabled(cfg, w.d, D.Recv)
    ensures var r := D.Next(cfg, w, D.Recv); r.d.input == None && D.Open(r.d) == []
  {
    hide D.NewChunks, D.WriteChunks;
    D.PacketLenEmpty();
    WriteOne(cfg, f, w.d.frameId, 1, []);
    D.PacketLenAppend([], Next(f, w.d.frameId, 1, 1));
    D.StepValid(cfg, w.d, D.Recv);
  }

  /**
    Safety is false of runs with such a cancel. Six events from the start (take in f, send its first
    byte, cancel, take in g, send both its bytes): if the packet with the first byte of g is lost, the
    assembler delivers a frame that is neither f nor g, which is the only frame finished.
    */
  lemma {:induction false} CancelMixesFrames(cfg: D.Config, acfg: A.Config, f: seq<byte>, g: seq<byte>)
    returns (s: Story, arrivals: seq<seq<byte>>)
    requires Tiny(cfg) && |f| == |g| == 2 && f[0] != g[0] && f[1] != g[1]
    requires acfg.Valid() && acfg.outputMtu >= 2 && acfg.numChunks >= 2
    ensures Happens(cfg, s) && s.w == D.Start && s.f == f && s.g == g && s.es == [D.Recv] && s.fs == [D.Send(g)] + [D.Recv, D.Recv]
    ensures !D.Clean(s.v.d, D.Cancel) && s.r.frames == [g] && |E.Sources(s.r)| <= 0x1_0000
    ensures |arrivals| == 2 && forall a :: a in arrivals ==> a in E.Encode(s.r.packets)
    ensures A.Inv(acfg, A.Init(acfg)) && A.Run(acfg, A.Init(acfg), arrivals).1 == [[f[0], g[1]]]
    ensures [f[0], g[1]] !in s.r.frames && [f[0], g[1]] != f && [f[0], g[1]] != g
  {
    hide Happens, Runs, A.Run, A.Inv, DeliveredFor, Mixture, MixtureChunks, Mixed;
    TinyChunks();
    s := TinyStory(cfg, f, g);
    var m := CancelSends(cfg, s);
    TinyStart(m);
    TinyDiffers(f, g);
    arrivals := DifferingIsMixed(acfg, 1, f, 1, g, 0, 0);
    assert s.r.packets == Single(Mixed(1, 1, f, 1, g, 0));
  }

  lemma TinyChunks()
    ensures Chunks(1, 2) == 2 && Off(1, 0) == 0 && Off(1, 1) == 1
  {
  }

  lemma TinyStart(m: nat)
    ensures FStart(1, 1, m) == m
  {
    SameGrid(1, m);
    OffIs(1, m);
  }

  lemma TinyDiffers(f: seq<byte>, g: seq<byte>)
    requires |f| == |g| == 2 && f[0] != g[0]
    ensures DiffersAt(1, f, 1, g, 0) && Mixture(1, f, g, 0) == [f[0], g[1]]
  {
    TinyChunks();
    assert f[0..1] == [f[0]] && g[0..1] == [g[0]];
    assert Mixture(1, f, g, 0) == g[..0] + [f[0]] + g[1..];
  }
}
