/**
  The frame decider as a whole: where each frame from the local device goes. The reference is
  the list of peers, the MAC ownership map and one membership queue per peer.
  */
module FrameDecision {
  import opened Bytes
  import opened Lists
  import opened FrameSignatures
  import opened FrameGroups
  import FrameMacs

  type Mac = FrameMacs.Mac

  /** What the decider reads from a frame: IGMP frames may carry a group-specific query. */
  datatype Payload = Other | Igmp(query: Option<Group>)

  datatype Frame = Frame(dest: Mac, payload: Payload)

  const Broadcast: Mac := [0xff, 0xff, 0xff, 0xff, 0xff, 0xff]

  predicate IsFlooded(f: Frame) { f.payload.Igmp? || f.dest == Broadcast }

  predicate IsMulticast(f: Frame)
    ensures IsMulticast(f) ==> |f.dest| == 6
  {
    |f.dest| == 6 && f.dest[..3] == [0x01, 0x00, 0x5e]
  }

  // ---------------------------------------------------------------- the reference

  /** How many groups of a peer have the signature. */
  ghost function Copies(q: Queue, sig: Sig): (n: nat) {
    if q == [] then 0 else (if SigOfGroup(q[0].group) == sig then 1 else 0) + Copies(q[1..], sig)
  }

  ghost function CopiesFor(members: map<Peer, Queue>, p: Peer, sig: Sig): (n: nat) {
    if p in members then Copies(members[p], sig) else 0
  }

  /**
    Broadcast and IGMP frames go to every peer, frames to a group MAC to the peers that joined
    a group with that signature (once per such group), other frames to the peer that owns the
    destination, or to every peer when nobody does. A frame too short to have a header goes nowhere.
    */
  ghost predicate RightDestinations(out: seq<Peer>, f: Option<Frame>, peers: seq<Peer>, owner: map<Mac, Peer>, members: map<Peer, Queue>) {
    if f.None? then out == []
    else if IsFlooded(f.value) then out == peers
    else if IsMulticast(f.value) then forall p: Peer :: multiset(out)[p] == CopiesFor(members, p, SigOfMac(f.value.dest))
    else if f.value.dest in owner then out == [owner[f.value.dest]]
    else out == peers
  }

  predicate IsQuery(f: Option<Frame>) { f.Some? && f.value.payload.Igmp? && f.value.payload.query.Some? }

  /** Each membership of g has the smaller of its old end and the limit; the others and the order stay. */
  ghost predicate EndsLowered(was: Queue, now: Queue, g: Group, limit: int) {
    && |now| == |was|
    && forall k :: 0 <= k < |was| ==>
         now[k].group == was[k].group && now[k].end == if was[k].group == g && limit < was[k].end then limit else was[k].end
  }

  lemma LowerAllIs(members: map<Peer, Queue>, g: Group, limit: int)
    ensures var r := LowerAll(members, g, limit);
            r.Keys == members.Keys && forall p :: p in members ==> EndsLowered(members[p], r[p], g, limit)
  {
  }

  /**
    The same, frame by frame. Every IGMP frame goes to all peers, whatever its address. A frame to
    the Ethernet address of a group (section 6.4 of RFC 1112) goes to the peers that are members of
    a group with that address. Any other frame goes to the peer that owns its address, or to all.
    */
  lemma WhereFramesGo(out: seq<Peer>, f: Frame, peers: seq<Peer>, owner: map<Mac, Peer>, members: map<Peer, Queue>)
    requires RightDestinations(out, Some(f), peers, owner, members) && |f.dest| == 6
    ensures f.payload.Igmp? || f.dest == [0xff, 0xff, 0xff, 0xff, 0xff, 0xff] ==> out == peers
    ensures forall g: Group :: f.payload == Other && f.dest == MacOfGroup(g) ==>
              forall p: Peer :: p in out <==> p in members && JoinedAddress(members[p], f.dest)
    ensures f.payload == Other && f.dest[..3] != [0x01, 0x00, 0x5e] && f.dest in owner && f.dest != Broadcast ==> out == [owner[f.dest]]
    ensures f.payload == Other && f.dest[..3] != [0x01, 0x00, 0x5e] && f.dest !in owner ==> out == peers
  {
    forall g: Group | f.payload == Other && f.dest == MacOfGroup(g)
      ensures forall p: Peer :: p in out <==> p in members && JoinedAddress(members[p], f.dest)
    {
      forall p: Peer ensures p in out <==> p in members && JoinedAddress(members[p], f.dest) {
        assert f.dest[0] != Broadcast[0] && f.dest[..3] == [0x01, 0x00, 0x5e];
        SignatureAgrees(g, g);
        assert multiset(out)[p] == CopiesFor(members, p, SigOfGroup(g));
        if p in members {
          SomeCopy(members[p], g);
        }
        assert p in out <==> p in multiset(out);
      }
    }
  }

  /** The peer is a member of a group with this Ethernet address. */
  ghost predicate JoinedAddress(q: Queue, mac: Mac) { exists k :: 0 <= k < |q| && MacOfGroup(q[k].group) == mac }

  lemma {:induction false} SomeCopy(q: Queue, g: Group)
    ensures Copies(q, SigOfGroup(g)) > 0 <==> JoinedAddress(q, MacOfGroup(g))
  {
    hide SigOfGroup, MacOfGroup;
    if q != [] {
      SomeCopy(q[1..], g);
      SignatureAgrees(q[0].group, g);
      JoinedFirst(q, MacOfGroup(g));
    }
  }

  lemma JoinedFirst(q: Queue, mac: Mac)
    requires q != []
    ensures JoinedAddress(q, mac) <==> MacOfGroup(q[0].group) == mac || JoinedAddress(q[1..], mac)
  {
    hide MacOfGroup;
    if k :| 0 <= k < |q[1..]| && MacOfGroup(q[1..][k].group) == mac {
      assert q[k + 1] == q[1..][k];
    }
    if k :| 0 < k < |q| && MacOfGroup(q[k].group) == mac {
      assert q[1..][k - 1] == q[k];
    }
  }

  // ---------------------------------------------------------------- one return per entry

  function PeersOf(l: seq<Entry>): (r: seq<Peer>)
    ensures |r| == |l|
  {
    if l == [] then [] else [l[0].0] + PeersOf(l[1..])
  }

  lemma PeersOfNone()
    ensures PeersOf([]) == []
  {
  }

  ghost function NumbersOf(l: seq<Entry>, p: Peer): (r: set<nat>)
    ensures forall x :: x in r <==> (p, x) in l
  {
    if l == [] then {} else (if l[0].0 == p then {l[0].1} else {}) + NumbersOf(l[1..], p)
  }

  lemma {:induction false} CountNumbers(l: seq<Entry>, p: Peer)
    requires NoDuplicates(l)
    ensures multiset(PeersOf(l))[p] == |NumbersOf(l, p)|
  {
    if l != [] {
      CountNumbers(l[1..], p);
      assert l[0] !in l[1..];
      assert multiset(PeersOf(l)) == multiset{l[0].0} + multiset(PeersOf(l[1..]));
      assert l[0].0 == p ==> l[0] == (p, l[0].1) && l[0].1 !in NumbersOf(l[1..], p);
    }
  }

  /** Position k holds entry x, for a group with the signature. */
  ghost predicate At(used: seq<nat>, q: Queue, sig: Sig, k: nat, x: nat) {
    k < |used| == |q| && used[k] == x && SigOfGroup(q[k].group) == sig
  }

  ghost function Matching(used: seq<nat>, q: Queue, sig: Sig): (r: set<nat>)
    requires |used| == |q|
  {
    if q == [] then {} else (if SigOfGroup(q[0].group) == sig then {used[0]} else {}) + Matching(used[1..], q[1..], sig)
  }

  lemma {:induction false} MatchingIs(used: seq<nat>, q: Queue, sig: Sig, x: nat)
    requires |used| == |q|
    ensures x in Matching(used, q, sig) <==> exists k: nat :: At(used, q, sig, k, x)
  {
    hide SigOfGroup;
    if q != [] {
      MatchingIs(used[1..], q[1..], sig, x);
      if x in Matching(used[1..], q[1..], sig) {
        var k: nat :| At(used[1..], q[1..], sig, k, x);
        assert At(used, q, sig, k + 1, x);
      } else if SigOfGroup(q[0].group) == sig && used[0] == x {
        assert At(used, q, sig, 0, x);
      } else {
        forall k: nat ensures !At(used, q, sig, k, x) {
          assert k > 0 ==> At(used, q, sig, k, x) == At(used[1..], q[1..], sig, k - 1, x);
        }
      }
    }
  }

  lemma {:induction false} MatchingSize(used: seq<nat>, q: Queue, sig: Sig)
    requires |used| == |q| && NoDuplicates(used)
    ensures |Matching(used, q, sig)| == Copies(q, sig)
  {
    hide SigOfGroup;
    if q != [] {
      MatchingSize(used[1..], q[1..], sig);
      MatchingIs(used[1..], q[1..], sig, used[0]);
      forall k: nat ensures !At(used[1..], q[1..], sig, k, used[0]) { }
    }
  }

  /** The used entries of p on the list are the memberships of p with the signature. */
  lemma {:induction false} NumbersMatch(e: Entries, max: nat, q: Queue, active: map<Entry, Group>, l: seq<Entry>, sig: Sig, p: Peer)
    requires EntriesOk(e, max, q) && ListOf(active, l, sig)
    requires forall x: nat :: (p, x) in active <==> x in e.used
    requires forall x: nat :: (p, x) in active ==> x < |e.group| && active[(p, x)] == e.group[x]
    ensures NumbersOf(l, p) == Matching(e.used, q, sig)
  {
    forall x
      ensures x in NumbersOf(l, p) <==> x in Matching(e.used, q, sig)
    {
      MatchingIs(e.used, q, sig, x);
      assert (p, x) in l <==> Has(active, (p, x), sig);
      hide SigOfGroup;
      if (p, x) in l {
        var k :| 0 <= k < |e.used| && e.used[k] == x;
        assert At(e.used, q, sig, k, x);
      } else if k: nat :| At(e.used, q, sig, k, x) {
        assert (p, x) in active;
      }
    }
  }

  /** Going through a signature list returns each peer once per group it joined with that signature. */
  lemma {:induction false} ReturnsPerEntry(pools: map<Peer, Entries>, ix: Index, active: map<Entry, Group>, view: map<Peer, Queue>, max: nat,
                        l: seq<Entry>, sig: Sig, p: Peer)
    requires Rep(pools, ix, active, view, max) && ListOf(active, l, sig)
    ensures multiset(PeersOf(l))[p] == CopiesFor(view, p, sig)
  {
    hide EntriesOk, IndexInv, SigOfGroup, Matching;
    CountNumbers(l, p);
    if p in pools {
      NumbersMatch(pools[p], max, view[p], active, l, sig, p);
      UsedOk(pools[p], max, view[p]);
      MatchingSize(pools[p].used, view[p], sig);
    } else {
      assert NumbersOf(l, p) == {} by {
        forall x ensures x !in NumbersOf(l, p) { assert (p, x) in l <==> Has(active, (p, x), sig); }
      }
    }
  }

  lemma {:induction false} ReturnsAll(pools: map<Peer, Entries>, ix: Index, active: map<Entry, Group>, view: map<Peer, Queue>, max: nat, l: seq<Entry>, sig: Sig)
    requires Rep(pools, ix, active, view, max) && ListOf(active, l, sig)
    ensures forall p: Peer :: multiset(PeersOf(l))[p] == CopiesFor(view, p, sig)
  {
    forall p: Peer ensures multiset(PeersOf(l))[p] == CopiesFor(view, p, sig) {
      ReturnsPerEntry(pools, ix, active, view, max, l, sig, p);
    }
  }

  lemma UsedOk(e: Entries, max: nat, q: Queue)
    requires EntriesOk(e, max, q)
    ensures |e.used| == |q| && NoDuplicates(e.used)
  {
  }

  // ---------------------------------------------------------------- going through the destinations

  /**
    decide_state with decide_unicast_peer, decide_flood_current or decide_multicast_it. Abandoned is
    a multicast state whose iterator was freed by the early return of FrameDecider_AnalyzeAndDecide.
    */
  datatype Decision = Nowhere | Unicast(peer: Peer) | Flood(current: Option<Peer>) | Multicast(rest: seq<Entry>) | Abandoned

  /** The part of the list from p on. */
  function From(peers: seq<Peer>, p: Peer): (r: seq<Peer>)
    ensures p in peers ==> r != [] && r[0] == p
  {
    if peers == [] || peers[0] == p then peers else From(peers[1..], p)
  }

  /** LinkedList1Node_Next */
  function Next(peers: seq<Peer>, p: Peer): (r: Option<Peer>) {
    var rest := From(peers, p);
    if |rest| > 1 then Some(rest[1]) else None
  }

  function First(peers: seq<Peer>): (r: Option<Peer>) {
    if peers == [] then None else Some(peers[0])
  }

  lemma FromFirst(peers: seq<Peer>)
    ensures peers != [] ==> From(peers, peers[0]) == peers
  {
  }

  /** The destinations a decision still has to give. */
  ghost function Pending(d: Decision, peers: seq<Peer>): (r: seq<Peer>) {
    match d
    case Nowhere => []
    case Unicast(p) => [p]
    case Flood(None) => []
    case Flood(Some(p)) => From(peers, p)
    case Multicast(l) => PeersOf(l)
    case Abandoned => []
  }

  ghost predicate DecisionOk(d: Decision, peers: seq<Peer>) {
    match d
    case Unicast(p) => p in peers
    case Flood(Some(p)) => p in peers
    case _ => true
  }

  lemma {:induction false} FromSuffix(peers: seq<Peer>, p: Peer)
    requires NoDuplicates(peers) && p in peers
    ensures var r := From(peers, p); NoDuplicates(r) && forall x :: x in r ==> x in peers
    ensures |From(peers, p)| > 1 ==> From(peers, From(peers, p)[1]) == From(peers, p)[1..]
  {
    if peers[0] != p {
      FromSuffix(peers[1..], p);
      assert forall x :: x in From(peers, p) ==> x in peers[1..];
    } else if |peers| > 1 {
      assert From(peers[1..], peers[1]) == peers[1..];
    }
  }

  /** Advancing a flood gives the rest of the list. */
  lemma NextFlood(peers: seq<Peer>, p: Peer)
    requires NoDuplicates(peers) && p in peers
    ensures DecisionOk(Flood(Next(peers, p)), peers) && From(peers, p) != [] && From(peers, p)[0] == p
    ensures Pending(Flood(Next(peers, p)), peers) == From(peers, p)[1..]
  {
    FromSuffix(peers, p);
    var r := From(peers, p);
    if |r| > 1 {
      assert r[1] in r;
    }
  }

  /** Removing another peer from the list takes it out of what follows. */
  lemma {:induction false} FromWithout(peers: seq<Peer>, p: Peer, x: Peer)
    requires NoDuplicates(peers) && p in peers && x != p
    ensures p in Remove(peers, x) && From(Remove(peers, x), p) == Remove(From(peers, p), x)
  {
    RemoveMembers(peers, x);
    if peers[0] == x {
      assert Remove(peers, x) == peers[1..];
      FromSuffix(peers[1..], p);
      assert x !in peers[1..];
    } else if peers[0] != p {
      FromWithout(peers[1..], p, x);
      assert Remove(peers, x)[1..] == Remove(peers[1..], x);
    }
  }

  lemma NoHeader(peers: seq<Peer>, owner: map<Mac, Peer>, members: map<Peer, Queue>)
    ensures RightDestinations([], None, peers, owner, members)
  {
  }

  class FrameDecider {
    const membershipInterval: nat
    const lastMemberQueryTime: nat
    const macs: FrameMacs.MacTable
    const groups: GroupTable
    var peersList: seq<Peer>
    var decision: Decision

    ghost predicate Valid()
      reads this, macs, groups
    {
      && macs.Valid() && groups.Valid() && NoDuplicates(peersList) && DecisionOk(decision, peersList)
      && (forall p :: p in peersList <==> p in macs.view.queues)
      && (forall p :: p in peersList <==> p in groups.view)
    }

    constructor (maxPeerMacs: nat, maxPeerGroups: nat, membershipInterval: nat, lastMemberQueryTime: nat)
      requires maxPeerMacs > 0 && maxPeerGroups > 0
      ensures Valid() && peersList == [] && decision == Nowhere && fresh(macs) && fresh(groups)
      ensures macs.view == FrameMacs.Table(map[], map[]) && groups.view == map[]
    {
      this.membershipInterval, this.lastMemberQueryTime := membershipInterval, lastMemberQueryTime;
      macs := new FrameMacs.MacTable(maxPeerMacs);
      groups := new GroupTable(maxPeerGroups);
      peersList, decision := [], Nowhere;
    }

    /**
      FrameDecider_AnalyzeAndDecide. With a multicast decision still under way it only frees the
      iterator: the frame is neither analyzed nor decided.
      */
    method AnalyzeAndDecide(frame: Option<Frame>, now: int)
      requires Valid() && !decision.Abandoned? && (frame.Some? ==> |frame.value.dest| == 6)
      modifies this`decision, groups
      ensures Valid()
      ensures old(decision).Multicast? ==> decision == Abandoned && groups.view == old(groups.view)
      ensures !old(decision).Multicast? ==>
        && !decision.Abandoned?
        && RightDestinations(Pending(decision, peersList), frame, peersList, macs.view.owner, groups.view)
        && groups.view.Keys == old(groups.view).Keys
        && (IsQuery(frame) ==> forall p :: p in groups.view ==>
              EndsLowered(old(groups.view)[p], groups.view[p], frame.value.payload.query.value, now + lastMemberQueryTime))
      ensures !IsQuery(frame) ==> groups.view == old(groups.view)
    {
      hide FrameMacs.Rep, FrameGroups.Rep, LowerAll, RightDestinations, EndsLowered;
      if decision.Multicast? {
        decision := Abandoned;
        return;
      }
      decision := Nowhere;
      if frame.None? {
        assert RightDestinations([], frame, peersList, macs.view.owner, groups.view) by { NoHeader(peersList, macs.view.owner, groups.view); }
        return;
      }
      var f := frame.value;
      if f.payload.Igmp? && f.payload.query.Some? {
        LowerAllIs(groups.view, f.payload.query.value, now + lastMemberQueryTime);
        groups.LowerGroupTimersToLmqt(f.payload.query.value, now + lastMemberQueryTime);
      }
      Decide(f);
    }

    /** The part of FrameDecider_AnalyzeAndDecide after the frame was analyzed. */
    method Decide(f: Frame)
      requires Valid() && decision == Nowhere && |f.dest| == 6
      modifies this`decision
      ensures Valid() && !decision.Abandoned?
      ensures RightDestinations(Pending(decision, peersList), Some(f), peersList, macs.view.owner, groups.view)
    {
      hide FrameMacs.Rep, FrameGroups.Rep, CopiesFor, PeersOf, SigOfMac, ListOf, IsFlooded, IsMulticast, From, Copies, NoDuplicates;
      FromFirst(peersList);
      if IsFlooded(f) {
        decision := Flood(First(peersList));
      } else if IsMulticast(f) {
        var sig := SigOfMac(f.dest);
        var l := groups.LookupSig(sig);
        assert PeersOf([]) == [] by { PeersOfNone(); }
        if l != [] {
          decision := Multicast(l);
        }
        ReturnsAll(groups.pools, groups.index, groups.active, groups.view, groups.maxPeerGroups, l, sig);
      } else {
        var owner := macs.Lookup(f.dest);
        decision := if owner.Some? then Unicast(owner.value) else Flood(First(peersList));
      }
    }

    /** FrameDecider_NextDestination */
    method NextDestination() returns (r: Option<Peer>)
      requires Valid() && !decision.Abandoned?
      modifies this`decision
      ensures Valid() && !decision.Abandoned?
      ensures old(Pending(decision, peersList)) == [] ==> r == None && decision == Nowhere
      ensures old(Pending(decision, peersList)) != [] ==>
        && r == Some(old(Pending(decision, peersList))[0])
        && Pending(decision, peersList) == old(Pending(decision, peersList))[1..]
    {
      hide FrameMacs.Rep, FrameGroups.Rep, From;
      match decision
      case Nowhere =>
        r := None;
      case Unicast(p) =>
        decision := Nowhere;
        r := Some(p);
      case Flood(None) =>
        decision := Nowhere;
        r := None;
      case Flood(Some(p)) =>
        NextFlood(peersList, p);
        decision := Flood(Next(peersList, p));
        r := Some(p);
      case Multicast(l) =>
        if l == [] {
          decision := Nowhere;
          r := None;
        } else {
          decision := Multicast(l[1..]);
          r := Some(l[0].0);
        }
    }

    /** The caller's loop over one frame from the device: decide, then go through every destination. */
    method Forward(frame: Option<Frame>, now: int) returns (out: seq<Peer>)
      requires Valid() && decision == Nowhere && (frame.Some? ==> |frame.value.dest| == 6)
      modifies this`decision, groups
      ensures Valid() && decision == Nowhere
      ensures RightDestinations(out, frame, peersList, macs.view.owner, groups.view)
      ensures groups.view.Keys == old(groups.view).Keys
      ensures IsQuery(frame) ==> forall p :: p in groups.view ==>
        EndsLowered(old(groups.view)[p], groups.view[p], frame.value.payload.query.value, now + lastMemberQueryTime)
      ensures !IsQuery(frame) ==> groups.view == old(groups.view)
    {
      hide FrameMacs.Rep, FrameGroups.Rep, RightDestinations, Pending, DecisionOk, EndsLowered;
      AnalyzeAndDecide(frame, now);
      ghost var all, members := Pending(decision, peersList), groups.view;
      out := [];
      while true
        invariant Valid() && !decision.Abandoned? && old(peersList) == peersList && all == out + Pending(decision, peersList)
        invariant RightDestinations(all, frame, peersList, macs.view.owner, groups.view)
        invariant groups.view == members
        decreases |Pending(decision, peersList)|
      {
        ghost var rest := Pending(decision, peersList);
        var next := NextDestination();
        if next.None? {
          assert rest == [] && all == out;
          break;
        }
        out := out + [next.value];
      }
    }

    /** FrameDeciderPeer_Init */
    method InitPeer(p: Peer)
      requires Valid() && p !in peersList
      modifies this, macs, groups
      ensures Valid() && peersList == old(peersList) + [p] && decision == old(decision)
      ensures macs.view == FrameMacs.AddPeer(old(macs.view), p) && groups.view == old(groups.view)[p := []]
    {
      hide FrameMacs.Rep, FrameGroups.Rep;
      macs.InitPeer(p);
      groups.InitPeer(p);
      peersList := peersList + [p];
    }

    /** FrameDeciderPeer_Free */
    method FreePeer(p: Peer)
      requires Valid() && p in peersList && !decision.Multicast? && !decision.Abandoned?
      modifies this, macs, groups
      ensures Valid() && peersList == Remove(old(peersList), p) && p !in peersList
      ensures macs.view == FrameMacs.DropPeer(old(macs.view), p) && groups.view == old(groups.view) - {p}
      ensures Pending(decision, peersList) == Remove(old(Pending(decision, peersList)), p)
    {
      hide FrameMacs.Rep, FrameGroups.Rep, Remove, From;
      PendingWithout(decision, peersList, p);
      RemoveMembers(peersList, p);
      if decision == Unicast(p) {
        decision := Nowhere;
      }
      groups.FreePeer(p);
      macs.FreePeer(p);
      if decision == Flood(Some(p)) {
        decision := Flood(Next(peersList, p));
      }
      peersList := Remove(peersList, p);
    }

    /** group_entry_timer_handler, for a used entry x of p. */
    method GroupTimerExpired(p: Peer, x: nat)
      requires Valid() && p in peersList && p in groups.pools && x in groups.pools[p].used && !decision.Multicast? && !decision.Abandoned?
      modifies groups
      ensures Valid() && p in old(groups.view) && p in old(groups.pools) && x < |old(groups.pools)[p].group|
      ensures groups.view == old(groups.view)[p := Leave(old(groups.view)[p], old(groups.pools)[p].group[x])]
    {
      hide FrameMacs.Rep, FrameGroups.Rep, Leave;
      groups.RemoveGroupEntry(p, x);
    }

    /** FrameDeciderPeer_Analyze: the source address, and the groups that the reports in the frame join. */
    method AnalyzePeer(p: Peer, source: Mac, joins: seq<Group>, now: int)
      requires Valid() && p in peersList && !decision.Multicast? && !decision.Abandoned?
      modifies macs, groups
      ensures Valid()
      ensures FrameMacs.Learned(old(macs.view), macs.view, macs.maxPeerMacs, p, source)
      ensures p in old(groups.view)
      ensures groups.view == old(groups.view)[p := JoinAll(old(groups.view)[p], groups.maxPeerGroups, joins, now + membershipInterval)]
    {
      hide FrameMacs.Rep, FrameGroups.Rep, Join, JoinAll, FrameMacs.Learned, DecisionOk;
      macs.AddMacToPeer(p, source);
      JoinNone(groups.view[p], groups.maxPeerGroups, now + membershipInterval);
      for i := 0 to |joins|
        invariant Valid() && FrameMacs.Learned(old(macs.view), macs.view, macs.maxPeerMacs, p, source)
        invariant groups.view == old(groups.view)[p := JoinAll(old(groups.view)[p], groups.maxPeerGroups, joins[..i], now + membershipInterval)]
      {
        JoinNext(old(groups.view)[p], groups.maxPeerGroups, joins, i, now + membershipInterval);
        groups.AddGroupToPeer(p, joins[i], now + membershipInterval);
      }
      assert joins[..|joins|] == joins;
    }
  }

  ghost function JoinAll(q: Queue, max: nat, joins: seq<Group>, end: int): (r: Queue) {
    if joins == [] then q else Join(JoinAll(q, max, joins[..|joins| - 1], end), max, joins[|joins| - 1], end)
  }

  lemma JoinNone(q: Queue, max: nat, end: int)
    ensures JoinAll(q, max, [], end) == q
  {
  }

  lemma JoinNext(q: Queue, max: nat, joins: seq<Group>, i: nat, end: int)
    requires i < |joins|
    ensures JoinAll(q, max, joins[..i + 1], end) == Join(JoinAll(q, max, joins[..i], end), max, joins[i], end)
  {
    assert joins[..i + 1][..i] == joins[..i];
  }

  /**
    What a frame with several reports does: of the last max groups joined each is a membership until
    end, the last one is the most recent, and every membership of another group was there before.
    */
  lemma {:induction false} JoinAllEffect(q: Queue, max: nat, joins: seq<Group>, end: int)
    requires DistinctGroups(q) && |q| <= max && max > 0
    ensures var r := JoinAll(q, max, joins, end);
            && DistinctGroups(r) && |r| <= max
            && (forall i :: 0 <= i < |joins| && |joins| - i <= max ==> RecentlyJoined(r, joins[i], end, |joins| - i))
            && (forall m :: m in r && m.group !in joins ==> m in q)
    decreases |joins|
  {
    hide DistinctGroups, Join, RecentlyJoined;
    if joins != [] {
      var n := |joins| - 1;
      var s, g := JoinAll(q, max, joins[..n], end), joins[n];
      JoinAllEffect(q, max, joins[..n], end);
      JoinEffect(s, max, g, end);
      JustJoined(s, max, g, end);
      forall i | 0 <= i < n && |joins| - i <= max ensures RecentlyJoined(Join(s, max, g, end), joins[i], end, |joins| - i) {
        StillJoined(s, max, g, end, joins[..n][i], n - i);
      }
      forall m | m in Join(s, max, g, end) && m.group !in joins ensures m in q { assert joins[n] in joins; }
    }
  }

  /** The group is one of the n most recent memberships. */
  ghost predicate RecentlyJoined(q: Queue, g: Group, end: int, n: nat) {
    exists k :: 0 <= k < |q| && |q| - k <= n && q[k] == Membership(g, end)
  }

  lemma JustJoined(q: Queue, max: nat, g: Group, end: int)
    ensures RecentlyJoined(Join(q, max, g, end), g, end, 1)
  {
    var r := Join(q, max, g, end);
    assert r[|r| - 1] == Membership(g, end);
  }

  lemma {:induction false} StillJoined(q: Queue, max: nat, g: Group, end: int, h: Group, n: nat)
    requires |q| <= max && 0 < n < max && RecentlyJoined(q, h, end, n)
    ensures RecentlyJoined(Join(q, max, g, end), h, end, n + 1)
  {
    hide RemoveAt, Find;
    var k :| 0 <= k < |q| && |q| - k <= n && q[k] == Membership(h, end);
    var i, r := Find(q, g), Join(q, max, g, end);
    if h == g {
      assert r[|r| - 1] == Membership(h, end);
    } else if i < |q| {
      assert r[if i < k then k - 1 else k] == q[k];
    } else if |q| == max {
      assert r[k - 1] == q[k];
    } else {
      assert r[k] == q[k];
    }
  }

  /** What is left to give when a peer goes. */
  function Adjusted(d: Decision, peers: seq<Peer>, p: Peer): (r: Decision) {
    if d == Unicast(p) then Nowhere else if d == Flood(Some(p)) then Flood(Next(peers, p)) else d
  }

  lemma PendingWithout(d: Decision, peers: seq<Peer>, p: Peer)
    requires NoDuplicates(peers) && p in peers && DecisionOk(d, peers) && !d.Multicast? && !d.Abandoned?
    ensures DecisionOk(Adjusted(d, peers, p), Remove(peers, p))
    ensures Pending(Adjusted(d, peers, p), Remove(peers, p)) == Remove(Pending(d, peers), p)
  {
    if d == Flood(Some(p)) {
      FromSuffix(peers, p);
      NextFlood(peers, p);
      var rest := From(peers, p);
      assert Remove(rest, p) == rest[1..];
      if |rest| > 1 {
        FromWithout(peers, rest[1], p);
        assert p !in rest[1..];
      }
    } else if d.Flood? && d.current.Some? {
      FromWithout(peers, d.current.value, p);
    }
  }
}
