/**
  A datagram peer as DatagramPeerIO stacks it: frames are cut into packets, every packet is
  secured and sent as one datagram; datagrams are decoded and their packets assembled.
  */
module DatagramPeer {
  import opened Bytes
  import opened Lists
  import opened FragmentWire
  import opened FragmentLimits
  import A = FragmentAssembler
  import D = FragmentDisassembler
  import E = FragmentEndToEnd
  import F = FragmentChunks
  import T = FragmentTiming
  import S = SecurePackets

  /** The arguments of DatagramPeerIO_Init; recvMtu is the MTU of the interface that takes the frames. */
  datatype Setup = Setup(p: S.Params, c: S.Crypto, payloadMtu: nat, socketMtu: nat, latency: int, recvMtu: nat, numFrames: nat)

  /** Its assertions and checks. */
  ghost predicate Accepted(x: Setup) {
    && S.ParamsOk(x.p) && S.CryptoOk(x.p, x.c)
    && 0 < x.numFrames < A.MAX_TIME && x.payloadMtu <= 0xFFFF && x.payloadMtu <= x.recvMtu
    && S.PayloadMtu(x.p, x.socketMtu) > HEADER
  }

  /** spproto_payload_mtu */
  function CarriedMtu(x: Setup): (n: nat)
    requires S.ParamsOk(x.p) && S.PayloadMtu(x.p, x.socketMtu) > HEADER
  {
    S.PayloadMtu(x.p, x.socketMtu)
  }

  function Sender(x: Setup): (cfg: D.Config)
    requires S.ParamsOk(x.p) && S.PayloadMtu(x.p, x.socketMtu) > HEADER
  {
    D.Config(x.payloadMtu, CarriedMtu(x), -1, x.latency)
  }

  function Receiver(x: Setup): (cfg: A.Config)
    requires S.ParamsOk(x.p) && S.PayloadMtu(x.p, x.socketMtu) > HEADER
  {
    A.Config(x.recvMtu, x.numFrames, MaxChunksForFrame(CarriedMtu(x), x.payloadMtu))
  }

  /** One initialization vector and, if they are used, one password for each packet. */
  ghost predicate SecretsOk(x: Setup, n: nat, ivs: seq<seq<byte>>, otps: seq<Option<S.Otp>>) {
    && |ivs| == |otps| == n
    && (forall i :: 0 <= i < n ==> S.PacketOk(x.p, S.Packet(otps[i], [])))
    && (forall i :: 0 <= i < n && x.p.block.Some? ==> |ivs[i]| == x.p.block.value)
  }

  /** The datagrams for the packets. */
  function Datagrams(x: Setup, packets: seq<seq<byte>>, ivs: seq<seq<byte>>, otps: seq<Option<S.Otp>>): (r: seq<seq<byte>>)
    requires S.ParamsOk(x.p) && |ivs| == |otps| == |packets|
    ensures |r| == |packets|
    ensures forall i :: 0 <= i < |r| ==> r[i] == S.Encode(x.p, x.c, ivs[i], S.Packet(otps[i], packets[i]))
  {
    seq(|packets|, i requires 0 <= i < |packets| => S.Encode(x.p, x.c, ivs[i], S.Packet(otps[i], packets[i])))
  }

  /** What the assembler gets: the payloads of the datagrams that can be decoded. */
  function Decoded(x: Setup, datagrams: seq<seq<byte>>): (r: seq<seq<byte>>)
    requires S.ParamsOk(x.p) && S.PayloadMtu(x.p, x.socketMtu) > HEADER
  {
    if datagrams == [] then []
    else
      var k := S.Decode(x.p, x.c, true, CarriedMtu(x), datagrams[0]);
      (if k.Some? then [k.value.payload] else []) + Decoded(x, datagrams[1..])
  }

  lemma ConfigsOk(x: Setup)
    requires Accepted(x)
    ensures Sender(x).Valid() && Receiver(x).Valid()
  {
  }

  /** A sent datagram fits the socket and decodes to its packet. */
  lemma DatagramOk(x: Setup, packet: seq<byte>, iv: seq<byte>, otp: Option<S.Otp>)
    requires Accepted(x) && |packet| <= CarriedMtu(x)
    requires S.PacketOk(x.p, S.Packet(otp, [])) && (x.p.block.Some? ==> |iv| == x.p.block.value)
    ensures var d := S.Encode(x.p, x.c, iv, S.Packet(otp, packet));
            |d| <= x.socketMtu && S.Decode(x.p, x.c, true, CarriedMtu(x), d) == Some(S.Packet(otp, packet))
  {
    hide S.CryptoOk, S.Encode, S.Decode, S.PayloadMtu, S.CarrierMtu;
    var k := S.Packet(otp, packet);
    S.RoundTrip(x.p, x.c, CarriedMtu(x), iv, k);
    S.EncodedLength(x.p, x.c, iv, k);
    S.MtusAgree(x.p, |packet|, x.socketMtu);
  }

  /** In order, the decoder gives back the packets. */
  lemma {:induction false} DecodedAll(x: Setup, packets: seq<seq<byte>>, ivs: seq<seq<byte>>, otps: seq<Option<S.Otp>>)
    requires Accepted(x) && SecretsOk(x, |packets|, ivs, otps) && forall i :: 0 <= i < |packets| ==> |packets[i]| <= CarriedMtu(x)
    ensures Decoded(x, Datagrams(x, packets, ivs, otps)) == packets
  {
    hide S.CryptoOk, S.Encode, S.Decode, S.PacketOk;
    if packets != [] {
      DatagramOk(x, packets[0], ivs[0], otps[0]);
      DecodedAll(x, packets[1..], ivs[1..], otps[1..]);
      assert Datagrams(x, packets, ivs, otps)[1..] == Datagrams(x, packets[1..], ivs[1..], otps[1..]);
    }
  }

  /** Whatever arrives, what is decoded from sent datagrams are sent packets. */
  lemma {:induction false} DecodedSome(x: Setup, packets: seq<seq<byte>>, ivs: seq<seq<byte>>, otps: seq<Option<S.Otp>>, arrivals: seq<seq<byte>>)
    requires Accepted(x) && SecretsOk(x, |packets|, ivs, otps) && forall i :: 0 <= i < |packets| ==> |packets[i]| <= CarriedMtu(x)
    requires forall i :: 0 <= i < |arrivals| ==>
               arrivals[i] in Datagrams(x, packets, ivs, otps) || S.Decode(x.p, x.c, true, CarriedMtu(x), arrivals[i]) == None
    ensures forall i :: 0 <= i < |Decoded(x, arrivals)| ==> Decoded(x, arrivals)[i] in packets
  {
    hide S.CryptoOk, S.Encode, S.Decode, S.PacketOk;
    if arrivals != [] {
      DecodedSome(x, packets, ivs, otps, arrivals[1..]);
      if arrivals[0] in Datagrams(x, packets, ivs, otps) {
        var i :| 0 <= i < |packets| && Datagrams(x, packets, ivs, otps)[i] == arrivals[0];
        DatagramOk(x, packets[i], ivs[i], otps[i]);
      }
    }
  }

  lemma PacketsFit(x: Setup, ws: seq<D.World>, es: seq<D.Event>)
    requires Accepted(x) && D.CleanRun(Sender(x), ws, es)
    ensures forall i :: 0 <= i < |ws[|es|].packets| ==> |EncodePacket(ws[|es|].packets[i])| <= CarriedMtu(x)
  {
    hide D.CleanStep, D.WorldInv;
    ConfigsOk(x);
    D.RunKeeps(Sender(x), ws, es);
    WorldPackets(Sender(x), ws[|es|]);
  }

  lemma WorldPackets(cfg: D.Config, w: D.World)
    requires D.WorldInv(cfg, w)
    ensures forall i :: 0 <= i < |w.packets| ==> |EncodePacket(w.packets[i])| <= cfg.outputMtu
  {
    hide EncodePacket, D.PacketLen, D.Flat, D.CutTo, D.AllCut, D.Valid;
    forall i | 0 <= i < |w.packets| ensures |EncodePacket(w.packets[i])| <= cfg.outputMtu {
      PacketLenIs(w.packets[i]);
    }
  }

  lemma {:induction false} PacketLenIs(cs: seq<Chunk>)
    ensures |EncodePacket(cs)| == D.PacketLen(cs)
  {
    if cs != [] {
      PacketLenIs(cs[..|cs| - 1]);
    }
  }

  /**
    Round trip through both layers: every datagram fits the socket, and a receiver that gets them
    in order delivers the frames in order: a prefix always, all of them once no packet is open.
    */
  lemma PeerRoundTrip(x: Setup, ws: seq<D.World>, es: seq<D.Event>, ivs: seq<seq<byte>>, otps: seq<Option<S.Otp>>)
    requires Accepted(x) && D.CleanRun(Sender(x), ws, es) && SecretsOk(x, |ws[|es|].packets|, ivs, otps)
    ensures Receiver(x).Valid()
    ensures var sent := Datagrams(x, E.Encode(ws[|es|].packets), ivs, otps);
            var out := A.Run(Receiver(x), A.Init(Receiver(x)), Decoded(x, sent)).1;
            && (forall i :: 0 <= i < |sent| ==> |sent[i]| <= x.socketMtu)
            && out <= ws[|es|].frames
            && (D.Open(ws[|es|].d) == [] ==> out == ws[|es|].frames)
  {
    hide S.CryptoOk, S.Encode, S.Decode, S.PacketOk, D.CleanStep, A.Run, MaxChunksForFrame;
    ConfigsOk(x);
    PacketsFit(x, ws, es);
    var packets := E.Encode(ws[|es|].packets);
    DecodedAll(x, packets, ivs, otps);
    forall i | 0 <= i < |packets| ensures |Datagrams(x, packets, ivs, otps)[i]| <= x.socketMtu {
      DatagramOk(x, packets[i], ivs[i], otps[i]);
    }
    DatagramRoundTrip(Sender(x), ws, es, Receiver(x));
  }

  /**
    Safety through both layers: if everything that arrives is a sent datagram, in any order and any
    number of times, or cannot be decoded, then every delivered frame is one that was sent.
    */
  lemma {:induction false} PeerSafety(x: Setup, ws: seq<D.World>, es: seq<D.Event>, ivs: seq<seq<byte>>, otps: seq<Option<S.Otp>>, arrivals: seq<seq<byte>>)
    requires Accepted(x) && D.CleanRun(Sender(x), ws, es) && SecretsOk(x, |ws[|es|].packets|, ivs, otps)
    requires |E.Sources(ws[|es|])| <= 0x1_0000
    requires forall i :: 0 <= i < |arrivals| ==>
               arrivals[i] in Datagrams(x, E.Encode(ws[|es|].packets), ivs, otps)
               || S.Decode(x.p, x.c, true, CarriedMtu(x), arrivals[i]) == None
    ensures Receiver(x).Valid()
    ensures forall f :: f in A.Run(Receiver(x), A.Init(Receiver(x)), Decoded(x, arrivals)).1 ==> f in ws[|es|].frames
  {
    hide S.CryptoOk, S.Encode, S.Decode, S.PacketOk, D.CleanStep, A.Run, MaxChunksForFrame;
    ConfigsOk(x);
    PacketsFit(x, ws, es);
    DecodedSome(x, E.Encode(ws[|es|].packets), ivs, otps, arrivals);
    E.Safety(Sender(x), ws, es, Receiver(x), Decoded(x, arrivals));
  }

  lemma CutFits(x: Setup, ws: seq<D.World>, es: seq<D.Event>, i: nat)
    requires Accepted(x) && D.CleanRun(Sender(x), ws, es) && i < |ws[|es|].frames|
    ensures i < |ws[|es|].cuts| && D.CutWhole(ws[|es|].frames[i], D.FrameId(i), ws[|es|].cuts[i])
    ensures |ws[|es|].cuts[i]| <= Receiver(x).numChunks && |ws[|es|].frames[i]| <= x.recvMtu
  {
    hide D.CleanStep, D.CutTo, D.Flat, MaxChunksForFrame, D.FrameId, S.CryptoOk;
    var w := ws[|es|];
    ConfigsOk(x);
    D.RunKeeps(Sender(x), ws, es);
    RunInnerFull(Sender(x), ws, es);
    assert D.CutWhole(w.frames[i], D.FrameId(i), w.cuts[i]);
    SlotsEnough(Sender(x), w.frames[i], D.FrameId(i), w.cuts[i], |w.frames[i]|);
  }

  /**
    Frame i of a run is delivered although datagrams are late and out of order: its chunks arrive once
    each, never more than numFrames decoded datagrams after the one before, while fewer than numFrames
    other frames are begun, at a receiver in any state in which the id is not in use.
    */
  lemma {:induction false} PeerDelivers(x: Setup, ws: seq<D.World>, es: seq<D.Event>, i: nat, st: A.State, arrivals: seq<seq<byte>>)
    requires Accepted(x) && D.CleanRun(Sender(x), ws, es) && i < |ws[|es|].frames| == |ws[|es|].cuts|
    requires A.Inv(Receiver(x), st) && F.Forgotten(Receiver(x), st, D.FrameId(i))
    requires multiset(T.Arrived(Decoded(x, arrivals), D.FrameId(i))) == multiset(ws[|es|].cuts[i])
    requires T.Spaced(Decoded(x, arrivals), D.FrameId(i), x.numFrames)
    requires T.Begun(Receiver(x), st, Decoded(x, arrivals), D.FrameId(i)) < x.numFrames
    ensures ws[|es|].frames[i] in A.Run(Receiver(x), st, Decoded(x, arrivals)).1
  {
    hide D.CleanStep, D.CutWhole, A.Run, A.Inv, MaxChunksForFrame, D.FrameId, S.CryptoOk, Decoded, T.Spaced, T.Begun, T.Arrived, F.Forgotten;
    CutFits(x, ws, es, i);
    T.Delivered(Receiver(x), st, ws[|es|].frames[i], D.FrameId(i), ws[|es|].cuts[i], Decoded(x, arrivals));
  }
}
