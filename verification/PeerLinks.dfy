/**
  The client's peers with their data paths. A link brings a DataProto sink; the local flow of a
  peer is attached to the sink of its own link or of its relay's, and the relay router sends to
  the sinks of the links. A sink is freed with its link, and no flow may be attached to it then.
  */
module PeerLinks {
  import opened Lists
  import opened Relays
  import R = RelayFlows
  import D = DataFlows

  type Desired = map<D.Flow, Option<D.Sink>>
  type Ends = map<D.Flow, (R.Source, R.Dest)>

  // ---------------------------------------------------------------- what ties flows to connections

  /** Sinks, sources and destinations have the numbers of their peers. */
  function OwnSink(n: Net, p: Peer): (k: Option<D.Sink>) { if p in n.link then Some(p) else None }

  /** The sink that the local flow of p is to be attached to. */
  function Wanted(n: Net, p: Peer): (k: Option<D.Sink>) {
    if p in n.link then Some(p) else if p in n.relaying then Some(n.relaying[p]) else None
  }

  /** Every peer has a local flow, and it wants what the peer's connection says. */
  ghost predicate LocalOk(n: Net, local: map<Peer, D.Flow>, desired: Desired) {
    local.Keys == n.ids && forall p :: p in local ==> local[p] in desired && desired[local[p]] == Wanted(n, p)
  }

  ghost predicate IsLocal(local: map<Peer, D.Flow>, f: D.Flow) { exists p :: p in local && local[p] == f }

  /** A flow is the local flow of one peer or a relay flow, not both. */
  ghost predicate Apart(local: map<Peer, D.Flow>, ends: Ends, desired: Desired) {
    && (forall p :: p in local ==> local[p] !in ends)
    && (forall p, q :: p in local && q in local && local[p] == local[q] ==> p == q)
    && (forall f :: f in desired ==> f in ends || IsLocal(local, f))
  }

  /** Every peer is a source and a destination, attached to the sink of its link. */
  ghost predicate RouterOk(n: Net, r: R.Relay) {
    r.bySource.Keys == r.byDest.Keys == r.dpSink.Keys == n.ids && forall d :: d in r.dpSink ==> r.dpSink[d] == OwnSink(n, d)
  }

  ghost predicate Tied(n: Net, local: map<Peer, D.Flow>, r: R.Relay, desired: Desired) {
    LocalOk(n, local, desired) && Apart(local, r.ends, desired) && RouterOk(n, r)
  }

  /** Peer u is reached through k. */
  predicate Uses(n: Net, u: Peer, k: Peer) { u in n.relaying && n.relaying[u] == k }

  /** Which flows are attached to the sink of k: k's own, those of the peers reached through k, those relaying to k. */
  ghost predicate Wants(n: Net, local: map<Peer, D.Flow>, r: R.Relay, f: D.Flow, k: Peer) {
    || (k in local && local[k] == f)
    || (exists u :: u in local && local[u] == f && Uses(n, u, k))
    || (f in r.ends && r.ends[f].1 == k)
  }

  lemma {:induction false} WhoWants(n: Net, local: map<Peer, D.Flow>, r: R.Relay, desired: Desired, f: D.Flow, k: Peer)
    requires Inv(n) && Tied(n, local, r, desired) && R.Attached(r, desired) && f in desired
    ensures desired[f] == Some(k) <==> k in n.link && Wants(n, local, r, f, k)
  {
    hide Inv;
    NoChains(n);
    LinksKnown(n);
    if f in r.ends {
      hide LocalOk;
      assert !IsLocal(local, f);
    } else {
      hide RouterOk, R.Attached;
      var p :| p in local && local[p] == f;
      LocalWants(n, local, r, f, p, k);
      assert desired[f] == Wanted(n, p);
    }
  }

  lemma {:induction false} LocalWants(n: Net, local: map<Peer, D.Flow>, r: R.Relay, f: D.Flow, p: Peer, k: Peer)
    requires p in local && local[p] == f && f !in r.ends && local.Keys == n.ids && n.link <= n.ids
    requires forall q :: q in local && local[q] == f ==> q == p
    requires p in n.relaying ==> p !in n.link && n.relaying[p] in n.link
    ensures Wanted(n, p) == Some(k) <==> k in n.link && Wants(n, local, r, f, k)
  {
    assert Wanted(n, p) == Some(k) && p !in n.link ==> Uses(n, p, k);
  }

  lemma LinksKnown(n: Net)
    requires Inv(n)
    ensures n.link <= n.ids && n.link !! n.relaying.Keys
  {
  }

  /** Without a link no flow wants the sink. */
  lemma NobodyWants(n: Net, local: map<Peer, D.Flow>, r: R.Relay, desired: Desired, k: Peer)
    requires Inv(n) && Tied(n, local, r, desired) && R.Attached(r, desired) && k !in n.link
    ensures forall f :: f in desired ==> desired[f] != Some(k)
    ensures forall d :: d in r.dpSink ==> r.dpSink[d] != Some(k)
  {
    hide Inv, Tied, R.Attached;
    forall f | f in desired ensures desired[f] != Some(k) { WhoWants(n, local, r, desired, f, k); }
    assert RouterOk(n, r) by { TiedParts(n, local, r, desired); }
  }

  lemma TiedParts(n: Net, local: map<Peer, D.Flow>, r: R.Relay, desired: Desired)
    ensures Tied(n, local, r, desired) <==> LocalOk(n, local, desired) && Apart(local, r.ends, desired) && RouterOk(n, r)
  {
  }

  // ---------------------------------------------------------------- single steps

  /** The waiting queue and the providers do not matter. */
  lemma TiedSame(n: Net, m: Net, local: map<Peer, D.Flow>, r: R.Relay, desired: Desired)
    requires Tied(n, local, r, desired) && m.ids == n.ids && m.link == n.link && m.relaying == n.relaying
    ensures Tied(m, local, r, desired)
  {
    hide Apart;
    forall p | p in local ensures desired[local[p]] == Wanted(m, p) { assert Wanted(m, p) == Wanted(n, p); }
  }

  lemma TiedCurrent(n: Net, local: map<Peer, D.Flow>, r: R.Relay, desired: Desired)
    requires Tied(n, local, r, desired)
    ensures Tied(n, local, r.(current := None), desired)
  {
  }

  /** The local flow of p alone is attached or detached. */
  lemma {:induction false} LocalSet(n: Net, m: Net, local: map<Peer, D.Flow>, r: R.Relay, desired: Desired, p: Peer)
    requires LocalOk(n, local, desired) && Apart(local, r.ends, desired) && R.Attached(r, desired) && p in n.ids && m.ids == n.ids
    requires forall q :: q in n.ids && q != p ==> Wanted(m, q) == Wanted(n, q)
    ensures p in local && local[p] in desired && desired[local[p]] == Wanted(n, p)
    ensures var now := desired[local[p] := Wanted(m, p)];
            LocalOk(m, local, now) && Apart(local, r.ends, now) && R.Attached(r, now)
  {
    hide Wanted;
    assert local[p] in desired;
  }

  /** The router attaches, detaches or creates relay flows. */
  lemma {:induction false} LocalKept(n: Net, local: map<Peer, D.Flow>, ends: Ends, ends': Ends, was: Desired, now: Desired)
    requires LocalOk(n, local, was) && Apart(local, ends, was) && R.OthersKept(ends', was, now)
    requires forall f :: f in ends ==> f in ends'
    requires forall f :: f in ends' ==> f in ends || f !in was
    ensures LocalOk(n, local, now) && Apart(local, ends', now)
  {
    hide Wanted, IsLocal;
  }

  /** The router frees relay flows. */
  lemma {:induction false} LocalReleased(n: Net, local: map<Peer, D.Flow>, ends: Ends, ends': Ends, was: Desired, now: Desired)
    requires LocalOk(n, local, was) && Apart(local, ends, was) && R.Released(ends, ends', was, now)
    requires forall f :: f in ends' ==> f in ends
    ensures LocalOk(n, local, now) && Apart(local, ends', now)
  {
    hide Wanted, IsLocal;
  }

  lemma {:induction false} LocalAdded(n: Net, local: map<Peer, D.Flow>, r: R.Relay, desired: Desired, p: Peer, f: D.Flow, server: bool)
    requires Inv(n) && LocalOk(n, local, desired) && Apart(local, r.ends, desired) && R.Attached(r, desired) && p !in n.ids && f !in desired
    ensures var m, now := AddPeer(n, p, server), desired[f := None];
            LocalOk(m, local[p := f], now) && Apart(local[p := f], r.ends, now) && R.Attached(r, now)
  {
    NotKnown(n, p);
    hide Inv;
    WantsNothing(n, local, desired, p, f, server);
    ApartAdded(local, r, desired, p, f);
  }

  lemma {:induction false} TiedAdded(n: Net, local: map<Peer, D.Flow>, r: R.Relay, desired: Desired, p: Peer, f: D.Flow, server: bool)
    requires Inv(n) && Tied(n, local, r, desired) && R.Attached(r, desired) && p !in n.ids && f !in desired
    ensures p !in r.bySource && p !in r.byDest && R.Attached(r, desired[f := None])
    ensures Tied(AddPeer(n, p, server), local[p := f],
                 r.(bySource := r.bySource[p := []], byDest := r.byDest[p := []], dpSink := r.dpSink[p := None]), desired[f := None])
  {
    hide Inv, R.Attached, LocalOk, Apart, RouterOk;
    LocalAdded(n, local, r, desired, p, f, server);
    RouterAdded(n, r, p, server);
  }

  lemma {:induction false} WantsNothing(n: Net, local: map<Peer, D.Flow>, desired: Desired, p: Peer, f: D.Flow, server: bool)
    requires LocalOk(n, local, desired) && p !in n.ids && p !in n.link && p !in n.relaying && f !in desired
    ensures LocalOk(AddPeer(n, p, server), local[p := f], desired[f := None])
  {
    var m, local', now := AddPeer(n, p, server), local[p := f], desired[f := None];
    forall q | q in local' ensures local'[q] in now && now[local'[q]] == Wanted(m, q) {
      if q != p {
        assert local'[q] == local[q] && Wanted(m, q) == Wanted(n, q);
      }
    }
  }

  lemma ApartAdded(local: map<Peer, D.Flow>, r: R.Relay, desired: Desired, p: Peer, f: D.Flow)
    requires Apart(local, r.ends, desired) && R.Attached(r, desired) && p !in local && f !in desired && forall q :: q in local ==> local[q] in desired
    ensures Apart(local[p := f], r.ends, desired[f := None]) && R.Attached(r, desired[f := None])
  {
    var local', now := local[p := f], desired[f := None];
    assert f !in r.ends;
    assert local'[p] == f;
    forall g | g in now ensures g in r.ends || IsLocal(local', g) {
      if g != f && g !in r.ends {
        assert IsLocal(local, g);
        var q :| q in local && local[q] == g;
        assert local'[q] == g;
      }
    }
  }

  lemma NotKnown(n: Net, p: Peer)
    requires Inv(n) && p !in n.ids
    ensures p !in n.link && p !in n.relaying
  {
  }

  lemma LocalGone(n: Net, local: map<Peer, D.Flow>, r: R.Relay, desired: Desired, p: Peer)
    requires LocalOk(n, local, desired) && Apart(local, r.ends, desired) && R.Attached(r, desired) && p in n.ids && Idle(n, p)
    ensures p in local && local[p] in desired && desired[local[p]] == None
    ensures var m, now := Forget(n, p), desired - {local[p]};
            LocalOk(m, local - {p}, now) && Apart(local - {p}, r.ends, now) && R.Attached(r, now)
  {
    var local', now := local - {p}, desired - {local[p]};
    assert local[p] in desired;
    forall g | g in now ensures g in r.ends || IsLocal(local', g) {
      if g !in r.ends {
        var q :| q in local && local[q] == g;
        assert q != p && local'[q] == g;
      }
    }
    forall q | q in local' ensures now[local'[q]] == Wanted(Forget(n, p), q) { assert Wanted(Forget(n, p), q) == Wanted(n, q); }
  }

  lemma LinkUp(n: Net, r: R.Relay, p: Peer)
    requires RouterOk(n, r) && p in n.ids
    ensures RouterOk(InitLink(n, p), r.(dpSink := r.dpSink[p := Some(p)]))
  {
  }

  lemma LinkDown(n: Net, r: R.Relay, p: Peer)
    requires RouterOk(n, r) && p in n.ids
    ensures RouterOk(FreeLink(n, p), r.(dpSink := r.dpSink[p := None]))
  {
  }

  lemma MoreSinks(dpSink: map<R.Dest, Option<D.Sink>>, live: set<D.Sink>, more: set<D.Sink>)
    requires R.SinksOk(dpSink, live) && live <= more
    ensures R.SinksOk(dpSink, more)
  {
  }

  lemma FewerSinks(dpSink: map<R.Dest, Option<D.Sink>>, live: set<D.Sink>, k: D.Sink)
    requires R.SinksOk(dpSink, live) && forall d :: d in dpSink ==> dpSink[d] != Some(k)
    ensures R.SinksOk(dpSink, live - {k})
  {
  }

  // ---------------------------------------------------------------- the program

  class Client {
    const router: R.DPRelayRouter
    var ids: set<Peer>
    var relayServers: set<Peer>
    var haveLink: set<Peer>
    var isRelay: set<Peer>
    var waitingRelay: set<Peer>
    var relayingPeer: map<Peer, Peer>
    var relayUsers: map<Peer, seq<Peer>>
    var relays: seq<Peer>
    var waitingRelayPeers: seq<Peer>
    var localFlow: map<Peer, D.Flow>

    ghost function View(): (n: Net)
      reads this
    {
      Net(ids, relayServers, haveLink, isRelay, waitingRelay, relayingPeer, relayUsers, relays, waitingRelayPeers)
    }

    /** The flows are as the connections say, and exactly the links have sinks. */
    ghost predicate Linked()
      reads this, router, router.table
    {
      && router.Valid() && Tied(View(), localFlow, router.View(), router.table.sinkDesired)
      && router.table.detachingBuffer.Keys == haveLink
    }

    ghost predicate Valid()
      reads this, router, router.table
    {
      Inv(View()) && Settled(View()) && Linked()
    }

    constructor (router: R.DPRelayRouter)
      requires router.Valid() && router.View() == R.Relay(map[], map[], map[], map[], None) && router.table.View() == D.Empty
      ensures Valid() && View() == Empty && this.router == router
    {
      this.router := router;
      ids, relayServers, haveLink, isRelay, waitingRelay := {}, {}, {}, {}, {};
      relayingPeer, relayUsers, relays, waitingRelayPeers, localFlow := map[], map[], [], [], map[];
    }

    // -------------------------------------------------------------- links

    /** peer_init_link, when it succeeds */
    method PeerInitLink(p: Peer)
      requires Inv(View()) && Linked() && p in ids && Idle(View(), p)
      modifies this`haveLink, router, router.table
      ensures Inv(View()) && Linked() && View() == InitLink(old(View()), p)
    {
      hide Inv, D.Inv, D.InvBut, R.RelayInv, R.Attached, R.SinksOk, R.OthersKept, LocalOk, Apart, RouterOk, D.Attach, D.FlowOk;
      ghost var n := View();
      LinkInv(n, p);
      var table := router.table;
      RouterKnows(n, router.View(), p);
      LocalSet(n, InitLink(n, p), localFlow, router.View(), table.sinkDesired, p);
      MoreSinks(router.dpSink, haveLink, haveLink + {p});
      table.DataProtoSinkInit(p);
      assert table.detachingBuffer.Keys == haveLink + {p};
      table.DataProtoFlowAttach(localFlow[p], p);
      LinkUp(n, router.View(), p);
      ghost var was := table.sinkDesired;
      router.SinkAttach(p, p);
      LocalKept(InitLink(n, p), localFlow, router.ends, router.ends, was, table.sinkDesired);
      haveLink := haveLink + {p};
    }

    /** peer_free_link: once the router and the local flow are detached, no flow wants the sink. */
    method PeerFreeLink(p: Peer)
      requires Inv(View()) && Linked() && p in haveLink && p !in isRelay
      modifies this`haveLink, router, router.table
      ensures Inv(View()) && Linked() && View() == FreeLink(old(View()), p)
    {
      hide Inv, D.Inv, D.InvBut, R.RelayInv, R.Attached, R.SinksOk, R.OthersKept, LocalOk, Apart, RouterOk, D.Detach, D.FlowOk, D.SinkFree;
      ghost var n := View();
      FreeLinkInv(n, p);
      LinksKnown(n);
      var table := router.table;
      RouterKnows(n, router.View(), p);
      LinkDown(n, router.View(), p);
      ghost var was := table.sinkDesired;
      router.SinkDetach(p);
      LocalKept(n, localFlow, router.ends, router.ends, was, table.sinkDesired);
      LocalSet(n, FreeLink(n, p), localFlow, router.View(), table.sinkDesired, p);
      table.DataProtoFlowDetach(localFlow[p]);
      NobodyWants(FreeLink(n, p), localFlow, router.View(), table.sinkDesired, p);
      FewerSinks(router.dpSink, haveLink, p);
      table.DataProtoSinkFree(p);
      haveLink := haveLink - {p};
    }

    // -------------------------------------------------------------- relays

    /** peer_register_need_relay */
    method PeerRegisterNeedRelay(p: Peer)
      requires Linked() && p !in waitingRelay && p !in haveLink && p !in relayingPeer && p !in isRelay
      modifies this`waitingRelayPeers, this`waitingRelay
      ensures Linked() && View() == Register(old(View()), p)
    {
      hide D.Inv, R.RelayInv, R.Attached, R.SinksOk, Tied;
      TiedSame(View(), Register(View(), p), localFlow, router.View(), router.table.sinkDesired);
      waitingRelayPeers := waitingRelayPeers + [p];
      waitingRelay := waitingRelay + {p};
    }

    /** peer_unregister_need_relay */
    method PeerUnregisterNeedRelay(p: Peer)
      requires Linked() && p in waitingRelay && p !in haveLink && p !in relayingPeer && p !in isRelay
      modifies this`waitingRelayPeers, this`waitingRelay
      ensures Linked() && View() == Unregister(old(View()), p)
    {
      hide D.Inv, R.RelayInv, R.Attached, R.SinksOk, Tied, Remove;
      TiedSame(View(), Unregister(View(), p), localFlow, router.View(), router.table.sinkDesired);
      waitingRelayPeers := Remove(waitingRelayPeers, p);
      waitingRelay := waitingRelay - {p};
    }

    /** peer_install_relaying */
    method PeerInstallRelaying(p: Peer, relay: Peer)
      requires Linked() && p in ids
      requires p !in relayingPeer && p !in haveLink && p !in waitingRelay && relay in isRelay && p !in isRelay && relay in haveLink
      requires relay in relayUsers
      modifies this`relayUsers, this`relayingPeer, router.table
      ensures Linked() && View() == Install(old(View()), p, relay)
    {
      hide D.Inv, R.RelayInv, R.Attached, R.SinksOk, LocalOk, Apart, D.Attach, D.FlowOk;
      ghost var n := View();
      LocalSet(n, Install(n, p, relay), localFlow, router.View(), router.table.sinkDesired, p);
      relayUsers := relayUsers[relay := relayUsers[relay] + [p]];
      router.table.DataProtoFlowAttach(localFlow[p], relay);
      relayingPeer := relayingPeer[p := relay];
    }

    /** peer_free_relaying */
    method PeerFreeRelaying(p: Peer)
      requires Linked() && p in ids && p in relayingPeer && p !in haveLink && p !in waitingRelay
      requires relayingPeer[p] in isRelay && relayingPeer[p] in haveLink && relayingPeer[p] in relayUsers
      modifies this`relayUsers, this`relayingPeer, router.table
      ensures Linked() && View() == FreeRelaying(old(View()), p)
    {
      hide D.Inv, R.RelayInv, R.Attached, R.SinksOk, LocalOk, Apart, Remove, D.Detach, D.FlowOk;
      ghost var n := View();
      LocalSet(n, FreeRelaying(n, p), localFlow, router.View(), router.table.sinkDesired, p);
      var relay := relayingPeer[p];
      router.table.DataProtoFlowDetach(localFlow[p]);
      relayUsers := relayUsers[relay := Remove(relayUsers[relay], p)];
      relayingPeer := relayingPeer - {p};
    }

    /** assign_relays: the loop ends, and gives everyone who waits to the first relay. */
    method AssignRelays()
      requires Inv(View()) && Linked()
      modifies this`waitingRelayPeers, this`waitingRelay, this`relayUsers, this`relayingPeer, router.table
      ensures Valid() && (old(relays) != [] ==> old(relays)[0] in old(relayUsers)) && View() == AssignAll(old(View()))
    {
      hide Inv, AssignAll, Unregister, Install, Linked;
      AssignInv(View());
      while waitingRelayPeers != []
        invariant Inv(View()) && Linked() && (relays != [] ==> relays[0] in relayUsers)
        invariant AssignAll(View()) == old(AssignAll(View()))
        decreases |waitingRelayPeers|
      {
        var peer := waitingRelayPeers[0];
        if relays == [] {
          break;
        }
        var relay := relays[0];
        AssignRound(View());
        UnregisterKeeps(View(), peer);
        PeerUnregisterNeedRelay(peer);
        PeerInstallRelaying(peer, relay);
      }
      AssignNothing(View());
    }

    /** peer_enable_relay_provider */
    method PeerEnableRelayProvider(p: Peer)
      requires Valid() && p in haveLink && p !in isRelay && p in relayServers
      modifies this`relays, this`isRelay, this`waitingRelayPeers, this`waitingRelay, this`relayUsers, this`relayingPeer, router.table
      ensures Valid() && (old(relays) != [] ==> old(relays)[0] in old(relayUsers)) && View() == Enable(old(View()), p)
    {
      hide Inv, AssignAll, Tied, D.Inv, R.RelayInv, R.Attached, R.SinksOk;
      NewProviderInv(View(), p);
      FirstRelay(View());
      TiedSame(View(), NewProvider(View(), p), localFlow, router.View(), router.table.sinkDesired);
      relays := relays + [p];
      relayUsers := relayUsers[p := []];
      isRelay := isRelay + {p};
      AssignRelays();
    }

    /** peer_disable_relay_provider */
    method PeerDisableRelayProvider(p: Peer)
      requires Valid() && p in isRelay
      modifies this`relays, this`isRelay, this`waitingRelayPeers, this`waitingRelay, this`relayUsers, this`relayingPeer, router.table
      ensures Valid() && View() == Disable(old(View()), p)
    {
      hide Inv, AssignAll, Tied, D.Inv, D.InvBut, R.RelayInv, R.Attached, R.SinksOk, Remove, Drain;
      ghost var n0 := View();
      DrainInv(n0, p);
      DrainUsers(p);
      OldProviderInv(View(), p);
      TiedSame(View(), OldProvider(View(), p), localFlow, router.View(), router.table.sinkDesired);
      relays := Remove(relays, p);
      relayUsers := relayUsers - {p};
      isRelay := isRelay - {p};
      AssignRelays();
    }

    /** The loop of peer_disable_relay_provider. */
    method DrainUsers(p: Peer)
      requires Inv(View()) && Linked() && p in isRelay
      modifies this`waitingRelayPeers, this`waitingRelay, this`relayUsers, this`relayingPeer, router.table
      ensures Inv(View()) && Linked() && p in old(relayUsers) && View() == Drain(old(View()), p)
    {
      hide Inv, Linked, Register, FreeRelaying, Drain, DrainOne;
      ghost var n0 := View();
      DrainInv(n0, p);
      while relayUsers[p] != []
        invariant Inv(View()) && Linked() && p in relayUsers && Drain(View(), p) == Drain(n0, p)
        decreases |relayUsers[p]|
      {
        var user := relayUsers[p][0];
        DrainRound(View(), p);
        PeerFreeRelaying(user);
        PeerRegisterNeedRelay(user);
      }
      DrainNothing(View(), p);
    }

    /** peer_cleanup_connections */
    method PeerCleanupConnections(p: Peer)
      requires Valid()
      modifies this`relays, this`isRelay, this`waitingRelayPeers, this`waitingRelay, this`relayUsers, this`relayingPeer, this`haveLink, router, router.table
      ensures Valid() && View() == Cleanup(old(View()), p) && Idle(View(), p)
    {
      hide Inv, Linked, Disable, Unregister, FreeRelaying;
      CleanupInv(View(), p);
      if p in haveLink {
        if p in isRelay {
          DisableInv(View(), p);
          PeerDisableRelayProvider(p);
        }
        PeerFreeLink(p);
      } else if p in relayingPeer {
        ProviderOf(View(), p);
        PeerFreeRelaying(p);
      } else if p in waitingRelay {
        WaitingOnly(View(), p);
        PeerUnregisterNeedRelay(p);
      }
    }

    /** peer_need_relay */
    method PeerNeedRelay(p: Peer)
      requires Valid() && p in ids && p !in isRelay
      modifies this`waitingRelayPeers, this`waitingRelay, this`relayUsers, this`relayingPeer, this`haveLink, router, router.table
      ensures Valid() && View() == NeedRelay(old(View()), p)
    {
      hide Inv, Linked, AssignAll, FreeRelaying, Register;
      if p in waitingRelay {
        return;
      }
      NeedInv(View(), p);
      if p in haveLink {
        PeerFreeLink(p);
      } else if p in relayingPeer {
        ProviderOf(View(), p);
        PeerFreeRelaying(p);
      }
      PeerRegisterNeedRelay(p);
      AssignRelays();
    }

    // -------------------------------------------------------------- peers

    /** DPReceivePeer_Init */
    method ReceivePeerInit(p: Peer)
      requires router.Valid() && p !in router.sourceFlows && p !in router.sinkFlows
      modifies router
      ensures router.Valid()
      ensures router.View() == old(router.View()).(bySource := old(router.sourceFlows)[p := []], byDest := old(router.sinkFlows)[p := []],
                                                   dpSink := old(router.dpSink)[p := None])
    {
      hide D.Inv, D.InvBut, R.RelayInv, R.Attached, R.SinksOk;
      router.SourceInit(p);
      router.SinkInit(p);
    }

    /** peer_add, with the new flow structure f */
    method PeerAdd(p: Peer, server: bool, f: D.Flow)
      requires Valid() && p !in ids && f !in router.table.sinkDesired
      modifies this`ids, this`relayServers, this`localFlow, router, router.table
      ensures Valid() && View() == AddPeer(old(View()), p, server) && localFlow == old(localFlow)[p := f]
    {
      hide Inv, D.Inv, D.InvBut, R.RelayInv, R.Attached, R.SinksOk, Tied, D.FlowInit;
      AddInv(View(), p, server);
      TiedAdded(View(), localFlow, router.View(), router.table.sinkDesired, p, f, server);
      router.table.DataProtoFlowInit(f);
      ReceivePeerInit(p);
      localFlow := localFlow[p := f];
      ids := ids + {p};
      relayServers := if server then relayServers + {p} else relayServers;
    }

    /** DPReceivePeer_Free: no relay flow from or to the peer is left. */
    method ReceivePeerFree(p: Peer)
      requires Linked() && p in ids && p !in haveLink
      modifies router, router.table
      ensures router.Valid() && router.table.detachingBuffer.Keys == haveLink && RouterOk(Forget(View(), p), router.View())
      ensures LocalOk(View(), localFlow, router.table.sinkDesired) && Apart(localFlow, router.ends, router.table.sinkDesired)
      ensures forall f :: f in router.ends ==> f in old(router.ends) && router.ends[f] == old(router.ends)[f]
      ensures forall f :: f in router.ends <==> f in old(router.ends) && old(router.ends)[f].0 != p && old(router.ends)[f].1 != p
    {
      hide D.Inv, D.InvBut, R.RelayInv, R.Attached, R.SinksOk, R.Released, LocalOk, Apart, RouterOk;
      RouterKnows(View(), router.View(), p);
      ghost var r := router.View();
      ghost var was, ends := router.table.sinkDesired, router.ends;
      router.SinkFree(p);
      LocalReleased(View(), localFlow, ends, router.ends, was, router.table.sinkDesired);
      was, ends := router.table.sinkDesired, router.ends;
      router.SourceFree(p);
      LocalReleased(View(), localFlow, ends, router.ends, was, router.table.sinkDesired);
      RouterGone(View(), r, router.View(), p);
    }

    /** The end of peer_remove: the router forgets the peer, and its local flow goes. */
    method PeerForget(p: Peer)
      requires Valid() && p in ids && Idle(View(), p)
      modifies this`ids, this`relayServers, this`localFlow, router, router.table
      ensures Valid() && View() == Forget(old(View()), p) && localFlow == old(localFlow) - {p}
      ensures forall f :: f in router.ends ==> router.ends[f].0 != p && router.ends[f].1 != p
    {
      hide Inv, D.Inv, D.InvBut, R.RelayInv, R.Attached, R.SinksOk, LocalOk, Apart, RouterOk, D.FlowFree, D.FlowOk;
      ForgetInv(View(), p);
      ReceivePeerFree(p);
      LocalGone(View(), localFlow, router.View(), router.table.sinkDesired, p);
      router.table.DataProtoFlowFree(localFlow[p]);
      localFlow := localFlow - {p};
      ids := ids - {p};
      relayServers := relayServers - {p};
    }

    /** Everything that happens to the peers, event by event; f is a flow structure for a new peer. */
    method Handle(e: Event, f: D.Flow)
      requires Valid() && f !in router.table.sinkDesired
      modifies this, router, router.table
      ensures Valid() && View() == Step(old(View()), e)
      ensures localFlow == if e.Added? && e.p !in old(ids) then old(localFlow)[e.p := f] else if e.Removed? then old(localFlow) - {e.p} else old(localFlow)
    {
      hide Inv, Linked, Cleanup, Disable, NeedRelay, AssignAll;
      StepInv(View(), e);
      match e
      case Added(p, server) =>
        // peer_add
        if p !in ids {
          PeerAdd(p, server, f);
        }
      case Removed(p) =>
        // peer_remove
        if p in ids {
          CleanupInv(View(), p);
          PeerCleanupConnections(p);
          PeerForget(p);
        } else {
          FlowOfPeer(p);
        }
      case Connecting(p, gotLink) =>
        // peer_bind_one_address, peer_connect
        if p in ids {
          CleanupInv(View(), p);
          PeerCleanupConnections(p);
          if gotLink {
            PeerInitLink(p);
          }
        }
      case Reset(p) =>
        // peer_reset
        if p in ids {
          PeerCleanupConnections(p);
        }
      case CannotBind(p) =>
        // peer_bind, peer_msg_cannotbind
        if p in ids && p !in isRelay {
          PeerNeedRelay(p);
        }
      case Up(p) =>
        // peer_dataproto_handler
        if p in haveLink && p in relayServers && p !in isRelay {
          PeerEnableRelayProvider(p);
        }
      case Down(p) =>
        if p in haveLink && p in isRelay {
          PeerDisableRelayProvider(p);
        }
    }

    /** Only known peers have a local flow. */
    lemma FlowOfPeer(p: Peer)
      requires Linked() && p !in ids
      ensures localFlow - {p} == localFlow
    {
      hide D.Inv, D.InvBut, R.RelayInv, R.Attached, R.SinksOk, RouterOk, Apart;
    }

    // -------------------------------------------------------------- frames

    /** receiver_recv_handler_send relays a frame from a to d; f is for a new relay flow, None if there is no memory. */
    method RelayFrame(a: Peer, d: Peer, f: Option<D.Flow>)
      requires Valid() && a in ids && d in ids && router.currentFlow == None && (f.Some? ==> f.value !in router.table.sinkDesired)
      modifies router, router.table
      ensures Valid()
      ensures router.currentFlow.Some? ==> router.currentFlow.value in router.ends && router.ends[router.currentFlow.value] == (a, d)
    {
      hide Inv, D.Inv, R.RelayInv, R.Attached, R.SinksOk, R.OthersKept, LocalOk, Apart, R.AddFlow;
      ghost var was, ends := router.table.sinkDesired, router.ends;
      router.SubmitFrame(a, d, f);
      LocalKept(View(), localFlow, ends, router.ends, was, router.table.sinkDesired);
    }

    /** router_dp_source_handler */
    method RouteFrame() returns (to: Option<D.Flow>)
      requires Valid()
      modifies router
      ensures Valid() && to == old(router.currentFlow) && router.currentFlow == None && (to.Some? ==> to.value in router.ends)
    {
      hide Inv, D.Inv, D.InvBut, R.RelayInv, R.Attached, R.SinksOk, Tied;
      TiedCurrent(View(), localFlow, router.View(), router.table.sinkDesired);
      to := router.RouteFrame();
    }

    /** flow_inactivity_handler */
    method FlowInactive(f: D.Flow)
      requires Valid() && f in router.ends
      modifies router, router.table
      ensures Valid() && router.ends == old(router.ends) - {f}
    {
      hide Inv, D.Inv, R.RelayInv, R.Attached, R.SinksOk, R.DropFlow, LocalOk, Apart;
      OneReleased(router.ends, router.table.sinkDesired, f);
      ghost var was, ends := router.table.sinkDesired, router.ends;
      router.FreeFlow(f);
      LocalReleased(View(), localFlow, ends, router.ends, was, router.table.sinkDesired);
    }

    /** The queue of a sink starts or ends sending a packet. */
    method QueueFlow(b: D.Buffer, starts: bool)
      requires Valid() && (starts ==> D.CanStart(router.table.View(), b)) && (!starts ==> b in router.table.busy)
      modifies router.table
      ensures Valid() && router.table.sinkDesired == old(router.table.sinkDesired)
    {
      hide Inv, D.Inv, R.RelayInv, R.Attached, R.SinksOk, Tied, D.BusyDone;
      if starts {
        router.table.QueueFlowStarts(b);
      } else {
        router.table.QueueFlowDone(b);
      }
    }
  }

  lemma OneReleased(ends: Ends, desired: Desired, f: D.Flow)
    requires f in ends
    ensures R.Released(ends, ends - {f}, desired, desired - {f})
  {
    R.ReleasedNone(ends, desired);
    R.ReleasedStep(ends, ends, desired, desired, f);
  }


  lemma RouterAdded(n: Net, r: R.Relay, p: Peer, server: bool)
    requires Inv(n) && RouterOk(n, r) && p !in n.ids
    ensures p !in r.bySource && p !in r.byDest
    ensures RouterOk(AddPeer(n, p, server), r.(bySource := r.bySource[p := []], byDest := r.byDest[p := []], dpSink := r.dpSink[p := None]))
  {
    NotKnown(n, p);
  }

  lemma RouterGone(n: Net, r: R.Relay, r': R.Relay, p: Peer)
    requires RouterOk(n, r) && r'.dpSink == r.dpSink - {p} && r'.bySource.Keys == r.bySource.Keys - {p} && r'.byDest.Keys == r.byDest.Keys - {p}
    ensures RouterOk(Forget(n, p), r')
  {
  }

  lemma RouterKnows(n: Net, r: R.Relay, p: Peer)
    requires RouterOk(n, r) && p in n.ids
    ensures p in r.byDest && p in r.bySource && p in r.dpSink && r.dpSink[p] == OwnSink(n, p)
  {
  }
}
