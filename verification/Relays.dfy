/**
  Relay assignment in the client. Every peer has at most one of a link, a relay it is reached
  through, or a place in the queue of peers waiting for a relay; peers with a working link may
  serve as relays for others.
  */
module Relays {
  import opened Lists

  type Peer = nat

  /**
    ids: the known peers; canRelay: those with the relay-server flag; link: have_link;
    isRelay: is_relay; wants: waiting_relay; relaying: relaying_peer where not NULL;
    users: relay_users of the relay providers; relays, waiting: the two global lists.
    */
  datatype Net = Net(ids: set<Peer>, canRelay: set<Peer>, link: set<Peer>, isRelay: set<Peer>, wants: set<Peer>,
                     relaying: map<Peer, Peer>, users: map<Peer, seq<Peer>>, relays: seq<Peer>, waiting: seq<Peer>)

  const Empty: Net := Net({}, {}, {}, {}, {}, map[], map[], [], [])

  ghost predicate FlagsOk(n: Net) {
    && n.canRelay <= n.ids && n.isRelay <= n.link <= n.ids && n.isRelay <= n.canRelay
    && n.wants <= n.ids && n.relaying.Keys <= n.ids
    && n.link !! n.wants && n.link !! n.relaying.Keys && n.wants !! n.relaying.Keys
  }

  /** The list holds each element of the set once. */
  ghost predicate ListOf(l: seq<Peer>, s: set<Peer>) {
    NoDuplicates(l) && forall p :: p in l <==> p in s
  }

  /** Provider q's users are exactly the peers relaying through q. */
  ghost predicate UsersOf(relaying: map<Peer, Peer>, l: seq<Peer>, q: Peer) {
    NoDuplicates(l) && forall p :: p in l <==> p in relaying && relaying[p] == q
  }

  ghost predicate UsersOk(n: Net) {
    && n.users.Keys == n.isRelay
    && (forall p :: p in n.relaying ==> n.relaying[p] in n.isRelay)
    && (forall q :: q in n.users ==> UsersOf(n.relaying, n.users[q], q))
  }

  ghost predicate Inv(n: Net) {
    FlagsOk(n) && ListOf(n.relays, n.isRelay) && ListOf(n.waiting, n.wants) && UsersOk(n)
  }

  /** Nobody waits while there is a relay. */
  predicate Settled(n: Net) { n.waiting == [] || n.relays == [] }

  /** The peer has no connection of any kind. */
  predicate Idle(n: Net, p: Peer) { p !in n.link && p !in n.relaying && p !in n.wants && p !in n.isRelay }

  /** Nothing in the state mentions p. */
  ghost predicate Unknown(n: Net, p: Peer) {
    && p !in n.ids && Idle(n, p) && p !in n.canRelay && p !in n.relays && p !in n.waiting && p !in n.users
    && (forall q :: q in n.users ==> p !in n.users[q])
    && (forall q :: q in n.relaying ==> n.relaying[q] != p)
  }

  /** No peer relays through itself, and no provider is itself reached through a relay. */
  lemma NoChains(n: Net)
    requires Inv(n)
    ensures forall p :: p in n.relaying ==> n.relaying[p] != p && n.relaying[p] !in n.relaying && n.relaying[p] in n.link
  {
  }

  // ---------------------------------------------------------------- the single steps

  function InitLink(n: Net, p: Peer): (r: Net) { n.(link := n.link + {p}) }

  function FreeLink(n: Net, p: Peer): (r: Net) { n.(link := n.link - {p}) }

  function Register(n: Net, p: Peer): (r: Net) { n.(waiting := n.waiting + [p], wants := n.wants + {p}) }

  function Unregister(n: Net, p: Peer): (r: Net) { n.(waiting := Remove(n.waiting, p), wants := n.wants - {p}) }

  function Install(n: Net, p: Peer, relay: Peer): (r: Net)
    requires relay in n.users
  {
    n.(users := n.users[relay := n.users[relay] + [p]], relaying := n.relaying[p := relay])
  }

  function FreeRelaying(n: Net, p: Peer): (r: Net)
    requires p in n.relaying && n.relaying[p] in n.users
  {
    var q := n.relaying[p];
    n.(users := n.users[q := Remove(n.users[q], p)], relaying := n.relaying - {p})
  }

  lemma LinkInv(n: Net, p: Peer)
    requires Inv(n) && p in n.ids && Idle(n, p)
    ensures Inv(InitLink(n, p))
  {
  }

  lemma FreeLinkInv(n: Net, p: Peer)
    requires Inv(n) && p in n.link && p !in n.isRelay
    ensures Inv(FreeLink(n, p)) && Idle(FreeLink(n, p), p)
  {
  }

  lemma RegisterInv(n: Net, p: Peer)
    requires Inv(n) && p in n.ids && Idle(n, p)
    ensures Inv(Register(n, p))
  {
    assert p !in n.waiting;
  }

  lemma UnregisterInv(n: Net, p: Peer)
    requires Inv(n) && p in n.wants
    ensures Inv(Unregister(n, p)) && Idle(Unregister(n, p), p)
  {
    RemoveMembers(n.waiting, p);
  }

  lemma InstallInv(n: Net, p: Peer, relay: Peer)
    requires Inv(n) && p in n.ids && Idle(n, p) && relay in n.isRelay
    ensures relay in n.users && Inv(Install(n, p, relay))
  {
    var r := Install(n, p, relay);
    assert p !in n.users[relay];
    forall q | q in r.users ensures UsersOf(r.relaying, r.users[q], q) {
      assert UsersOf(n.relaying, n.users[q], q);
    }
  }

  lemma FreeRelayingInv(n: Net, p: Peer)
    requires Inv(n) && p in n.relaying
    ensures n.relaying[p] in n.users && Inv(FreeRelaying(n, p)) && Idle(FreeRelaying(n, p), p)
  {
    var r := FreeRelaying(n, p);
    RemoveMembers(n.users[n.relaying[p]], p);
    forall q | q in r.users ensures UsersOf(r.relaying, r.users[q], q) {
      assert UsersOf(n.relaying, n.users[q], q);
    }
  }

  // ---------------------------------------------------------------- assigning relays

  ghost function Members(l: seq<Peer>): (s: set<Peer>) { set p | p in l }

  /** Everyone who waits is given to the first relay, in the order of the queue. */
  ghost function AssignAll(n: Net): (r: Net)
    requires n.relays != [] ==> n.relays[0] in n.users
  {
    if n.relays == [] then n
    else
      var relay := n.relays[0];
      n.(waiting := [], wants := n.wants - Members(n.waiting),
         relaying := n.relaying + map p | p in n.waiting :: relay,
         users := n.users[relay := n.users[relay] + n.waiting])
  }

  /** One round of the loop in assign_relays. */
  function AssignOne(n: Net): (r: Net)
    requires n.waiting != [] && n.relays != [] && n.relays[0] in n.users
  {
    Install(Unregister(n, n.waiting[0]), n.waiting[0], n.relays[0])
  }

  lemma AssignOneInv(n: Net)
    requires Inv(n) && n.waiting != [] && n.relays != []
    ensures n.relays[0] in n.users && n.waiting[0] in n.wants && n.relays[0] in n.isRelay
    ensures Inv(AssignOne(n)) && AssignOne(n).waiting == n.waiting[1..] && AssignOne(n).relays == n.relays
    ensures AssignAll(AssignOne(n)) == AssignAll(n)
  {
    var p, relay := n.waiting[0], n.relays[0];
    assert p in n.waiting && relay in n.relays;
    UnregisterInv(n, p);
    InstallInv(Unregister(n, p), p, relay);
    assert n.waiting == [p] + n.waiting[1..];
    AssignSame(n);
  }

  lemma AssignSame(n: Net)
    requires n.waiting != [] && n.relays != [] && n.relays[0] in n.users
    ensures AssignAll(AssignOne(n)) == AssignAll(n)
  {
    var p, relay, rest := n.waiting[0], n.relays[0], n.waiting[1..];
    assert Remove(n.waiting, p) == rest && n.waiting == [p] + rest;
    hide Remove;
    var a, b := AssignAll(AssignOne(n)), AssignAll(n);
    AssignMap(n.relaying, p, rest, relay);
    assert a.users == b.users by { Assoc(n.users[relay], [p], rest); }
    assert a.wants == b.wants;
  }

  lemma AssignMap(m: map<Peer, Peer>, p: Peer, rest: seq<Peer>, relay: Peer)
    ensures m[p := relay] + (map x | x in rest :: relay) == m + map x | x in [p] + rest :: relay
  {
  }

  lemma {:induction false} AssignInv(n: Net)
    requires Inv(n)
    ensures n.relays != [] ==> n.relays[0] in n.users
    ensures Inv(AssignAll(n)) && Settled(AssignAll(n))
    decreases |n.waiting|
  {
    hide UsersOk, FlagsOk, AssignOne;
    FirstRelay(n);
    if n.relays != [] {
      if n.waiting == [] {
        AssignNothing(n);
      } else {
        AssignOneInv(n);
        AssignInv(AssignOne(n));
      }
    }
  }

  lemma FirstRelay(n: Net)
    requires Inv(n)
    ensures n.relays != [] ==> n.relays[0] in n.users && n.relays[0] in n.isRelay
  {
    assert n.relays != [] ==> n.relays[0] in n.relays;
  }

  lemma AssignNothing(n: Net)
    requires (n.relays != [] ==> n.relays[0] in n.users) && Settled(n)
    ensures AssignAll(n) == n
  {
    if n.relays != [] {
      var relay := n.relays[0];
      assert n.users[relay] + [] == n.users[relay];
      assert n.users[relay := n.users[relay]] == n.users;
      assert (map p | p in n.waiting :: relay) == map[];
    }
  }

  // ---------------------------------------------------------------- providers

  /** peer_enable_relay_provider up to the assignment. */
  function NewProvider(n: Net, p: Peer): (r: Net) {
    n.(relays := n.relays + [p], users := n.users[p := []], isRelay := n.isRelay + {p})
  }

  ghost function Enable(n: Net, p: Peer): (r: Net)
    requires n.relays != [] ==> n.relays[0] in n.users
  {
    AssignAll(NewProvider(n, p))
  }

  lemma NewProviderInv(n: Net, p: Peer)
    requires Inv(n) && p in n.link && p !in n.isRelay && p in n.canRelay
    ensures Inv(NewProvider(n, p))
  {
    assert p !in n.relays;
    var r := NewProvider(n, p);
    forall q | q in r.users ensures UsersOf(r.relaying, r.users[q], q) {
      assert q != p ==> UsersOf(n.relaying, n.users[q], q);
    }
  }

  /** All users of p go to the end of the waiting queue. */
  ghost function Drain(n: Net, p: Peer): (r: Net)
    requires p in n.users
  {
    n.(relaying := n.relaying - Members(n.users[p]), users := n.users[p := []],
       waiting := n.waiting + n.users[p], wants := n.wants + Members(n.users[p]))
  }

  /** One round of the loop in peer_disable_relay_provider. */
  function DrainOne(n: Net, p: Peer): (r: Net)
    requires p in n.users && n.users[p] != [] && n.users[p][0] in n.relaying && n.relaying[n.users[p][0]] in n.users
  {
    Register(FreeRelaying(n, n.users[p][0]), n.users[p][0])
  }

  lemma DrainOneInv(n: Net, p: Peer)
    requires Inv(n) && p in n.isRelay && n.users[p] != []
    ensures var u := n.users[p][0];
            && u in n.relaying && n.relaying[u] == p && p in n.users
            && Inv(DrainOne(n, p)) && DrainOne(n, p).users[p] == n.users[p][1..]
            && DrainOne(n, p).isRelay == n.isRelay && DrainOne(n, p).relays == n.relays
    ensures Drain(DrainOne(n, p), p) == Drain(n, p)
  {
    var u := n.users[p][0];
    assert UsersOf(n.relaying, n.users[p], p) && u in n.users[p];
    FreeRelayingInv(n, u);
    RegisterInv(FreeRelaying(n, u), u);
    DrainSame(n, p);
  }

  lemma DrainSame(n: Net, p: Peer)
    requires p in n.users && n.users[p] != [] && n.users[p][0] in n.relaying && n.relaying[n.users[p][0]] == p
    ensures DrainOne(n, p).users == n.users[p := n.users[p][1..]]
    ensures Drain(DrainOne(n, p), p) == Drain(n, p)
  {
    var l := n.users[p];
    assert l == [l[0]] + l[1..];
    var a, b := Drain(DrainOne(n, p), p), Drain(n, p);
    assert a.waiting == b.waiting by { Assoc(n.waiting, [l[0]], l[1..]); }
    assert a.relaying == b.relaying;
    assert a.users == b.users;
    assert a.wants == b.wants;
  }

  /** A provider without users stops being one. */
  function OldProvider(n: Net, p: Peer): (r: Net) {
    n.(relays := Remove(n.relays, p), users := n.users - {p}, isRelay := n.isRelay - {p})
  }

  lemma OldProviderInv(n: Net, p: Peer)
    requires Inv(n) && p in n.isRelay && n.users[p] == []
    ensures Inv(OldProvider(n, p))
  {
    RemoveMembers(n.relays, p);
    assert UsersOf(n.relaying, n.users[p], p);
    var r := OldProvider(n, p);
    forall q | q in r.users ensures UsersOf(r.relaying, r.users[q], q) {
      assert UsersOf(n.relaying, n.users[q], q);
    }
  }

  lemma {:induction false} DrainInv(n: Net, p: Peer)
    requires Inv(n) && p in n.isRelay
    ensures p in n.users && Inv(Drain(n, p)) && Drain(n, p).users[p] == [] && Drain(n, p).isRelay == n.isRelay
    decreases |n.users[p]|
  {
    hide FlagsOk, DrainOne;
    if n.users[p] == [] {
      DrainNothing(n, p);
    } else {
      DrainOneInv(n, p);
      DrainInv(DrainOne(n, p), p);
    }
  }

  lemma DrainNothing(n: Net, p: Peer)
    requires p in n.users && n.users[p] == []
    ensures Drain(n, p) == n
  {
    assert n.users[p := []] == n.users;
    assert n.relaying - Members([]) == n.relaying;
  }

  /** The state once p no longer is a relay: its users wait, or have the first of the other relays. */
  ghost function Disable(n: Net, p: Peer): (r: Net)
    requires Inv(n) && p in n.isRelay
  {
    DrainInv(n, p);
    OldProviderInv(Drain(n, p), p);
    FirstRelay(OldProvider(Drain(n, p), p));
    AssignAll(OldProvider(Drain(n, p), p))
  }

  lemma DisableInv(n: Net, p: Peer)
    requires Inv(n) && p in n.isRelay
    ensures Inv(Disable(n, p)) && Settled(Disable(n, p))
    ensures Disable(n, p).isRelay == n.isRelay - {p} && Disable(n, p).link == n.link && Disable(n, p).ids == n.ids
  {
    hide Inv, Drain;
    DrainInv(n, p);
    OldProviderInv(Drain(n, p), p);
    AssignInv(OldProvider(Drain(n, p), p));
    DrainKeeps(n, p);
  }

  lemma DrainKeeps(n: Net, p: Peer)
    requires p in n.users
    ensures var r := Drain(n, p);
            && r.isRelay == n.isRelay && r.link == n.link && r.ids == n.ids && r.relays == n.relays && r.canRelay == n.canRelay
  {
  }

  /** What happens to the users of a relay that goes away: the first other relay takes all of them, or they all wait. */
  lemma DisableEffect(n: Net, p: Peer)
    requires Inv(n) && Settled(n) && p in n.isRelay
    ensures p in n.users
    ensures var r, others := Disable(n, p), Remove(n.relays, p);
            && (others != [] ==> others[0] in n.users && others[0] != p && r.users == (n.users - {p})[others[0] := n.users[others[0]] + n.users[p]]
                                 && r.waiting == [])
            && (others == [] ==> r.users == map[] && r.waiting == n.users[p])
            && forall u :: u in n.relaying && n.relaying[u] != p ==> u in r.relaying && r.relaying[u] == n.relaying[u]
  {
    hide Remove, UsersOf, Drain, OldProvider, Inv;
    DrainInv(n, p);
    OldProviderInv(Drain(n, p), p);
    FirstRelay(OldProvider(Drain(n, p), p));
    Drained(n, p);
    NoneWaiting(n, p);
    assert [] + n.users[p] == n.users[p];
    KeptRelaying(n, p);
  }

  lemma Drained(n: Net, p: Peer)
    requires Inv(n) && p in n.isRelay
    ensures p in n.users
    ensures var d := OldProvider(Drain(n, p), p);
            d.users == n.users - {p} && d.waiting == n.waiting + n.users[p] && d.relays == Remove(n.relays, p)
  {
    hide Remove, UsersOf;
    assert n.users[p := []] - {p} == n.users - {p};
  }

  lemma NoneWaiting(n: Net, p: Peer)
    requires Inv(n) && Settled(n) && p in n.isRelay
    ensures n.waiting == []
    ensures var others := Remove(n.relays, p);
            if others == [] then n.users - {p} == map[] else others[0] in n.users && others[0] != p
  {
    hide Remove, UsersOf;
    RemoveMembers(n.relays, p);
    var others := Remove(n.relays, p);
    assert p in n.relays;
    assert others != [] ==> others[0] in others;
    assert others == [] ==> forall q :: q in n.users && q != p ==> q in others;
  }

  /** The users of the other relays. */
  lemma KeptRelaying(n: Net, p: Peer)
    requires Inv(n) && n.waiting == [] && p in n.isRelay
    ensures forall u :: u in n.relaying && n.relaying[u] != p ==> u in Disable(n, p).relaying && Disable(n, p).relaying[u] == n.relaying[u]
  {
    assert UsersOf(n.relaying, n.users[p], p);
    hide Remove, UsersOk;
    var d := Drain(n, p);
    forall u | u in n.relaying && n.relaying[u] != p
      ensures u in Disable(n, p).relaying && Disable(n, p).relaying[u] == n.relaying[u]
    {
      assert u in d.relaying && u !in d.waiting;
    }
  }

  // ---------------------------------------------------------------- whole operations

  /** peer_cleanup_connections */
  ghost function Cleanup(n: Net, p: Peer): (r: Net)
    requires Inv(n)
  {
    if p in n.link then FreeLink(if p in n.isRelay then Disable(n, p) else n, p)
    else if p in n.relaying then FreeRelayingInv(n, p); FreeRelaying(n, p)
    else if p in n.wants then Unregister(n, p)
    else n
  }

  lemma CleanupInv(n: Net, p: Peer)
    requires Inv(n) && Settled(n)
    ensures Inv(Cleanup(n, p)) && Settled(Cleanup(n, p)) && Idle(Cleanup(n, p), p) && Cleanup(n, p).ids == n.ids
  {
    hide UsersOk, Disable, Remove;
    if p in n.link {
      if p in n.isRelay {
        DisableInv(n, p);
      }
      FreeLinkInv(if p in n.isRelay then Disable(n, p) else n, p);
    } else if p in n.relaying {
      FreeRelayingInv(n, p);
    } else if p in n.wants {
      assert p in n.waiting;
      UnregisterInv(n, p);
    } else {
      NotRelay(n, p);
    }
  }

  lemma NotRelay(n: Net, p: Peer)
    requires FlagsOk(n) && p !in n.link
    ensures p !in n.isRelay
  {
  }

  /** peer_need_relay, for a peer that is not a relay. */
  ghost function NeedRelay(n: Net, p: Peer): (r: Net)
    requires Inv(n) && p in n.ids && p !in n.isRelay
  {
    if p in n.wants then n
    else
      var n1 := if p in n.link then FreeLink(n, p)
                else if p in n.relaying then FreeRelayingInv(n, p); FreeRelaying(n, p)
                else n;
      (NeedInv(n, p); FirstRelay(Register(n1, p)); AssignAll(Register(n1, p)))
  }

  lemma NeedInv(n: Net, p: Peer)
    requires Inv(n) && p in n.ids && p !in n.isRelay && p !in n.wants
    ensures p in n.relaying ==> n.relaying[p] in n.users
    ensures var n1 := if p in n.link then FreeLink(n, p) else if p in n.relaying then FreeRelaying(n, p) else n;
            Inv(n1) && Idle(n1, p) && p in n1.ids && Inv(Register(n1, p))
  {
    hide UsersOk, ListOf;
    if p in n.link {
      FreeLinkInv(n, p);
    } else if p in n.relaying {
      FreeRelayingInv(n, p);
    }
    RegisterInv(if p in n.link then FreeLink(n, p) else if p in n.relaying then FreeRelaying(n, p) else n, p);
  }

  lemma NeedRelayInv(n: Net, p: Peer)
    requires Inv(n) && Settled(n) && p in n.ids && p !in n.isRelay
    ensures Inv(NeedRelay(n, p)) && Settled(NeedRelay(n, p))
  {
    hide Inv, AssignAll, FreeRelaying, FreeLink, Register;
    if p !in n.wants {
      NeedInv(n, p);
      var n1 := if p in n.link then FreeLink(n, p) else if p in n.relaying then FreeRelaying(n, p) else n;
      AssignInv(Register(n1, p));
    }
  }

  function AddPeer(n: Net, p: Peer, server: bool): (r: Net) {
    n.(ids := n.ids + {p}, canRelay := if server then n.canRelay + {p} else n.canRelay)
  }

  /** The last part of peer_remove. */
  function Forget(n: Net, p: Peer): (r: Net) { n.(ids := n.ids - {p}, canRelay := n.canRelay - {p}) }

  lemma ForgetInv(n: Net, p: Peer)
    requires Inv(n) && Idle(n, p)
    ensures Inv(Forget(n, p)) && Unknown(Forget(n, p), p)
  {
    forall q | q in n.users ensures p !in n.users[q] { assert UsersOf(n.relaying, n.users[q], q); }
  }

  // ---------------------------------------------------------------- runs

  /**
    What can happen: a peer is announced or leaves, a connection attempt gets a fresh link or
    fails to, a peer is reset, binding failed and a relay is needed, the link goes up or down.
    */
  datatype Event =
    | Added(p: Peer, server: bool)
    | Removed(p: Peer)
    | Connecting(p: Peer, gotLink: bool)
    | Reset(p: Peer)
    | CannotBind(p: Peer)
    | Up(p: Peer)
    | Down(p: Peer)

  ghost function Step(n: Net, e: Event): (r: Net)
    requires Inv(n) && Settled(n)
  {
    match e
    case Added(p, server) => if p in n.ids then n else AddPeer(n, p, server)
    case Removed(p) => if p in n.ids then Forget(Cleanup(n, p), p) else n
    case Connecting(p, gotLink) => if p !in n.ids then n else if gotLink then InitLink(Cleanup(n, p), p) else Cleanup(n, p)
    case Reset(p) => if p in n.ids then Cleanup(n, p) else n
    case CannotBind(p) => if p in n.ids && p !in n.isRelay then NeedRelay(n, p) else n
    case Up(p) => if p in n.link && p in n.canRelay && p !in n.isRelay then FirstRelay(n); Enable(n, p) else n
    case Down(p) => if p in n.link && p in n.isRelay then Disable(n, p) else n
  }

  /** Every event keeps the invariant, and nobody is left waiting while there is a relay. */
  lemma StepInv(n: Net, e: Event)
    requires Inv(n) && Settled(n)
    ensures Inv(Step(n, e)) && Settled(Step(n, e))
    ensures e.Removed? ==> Unknown(Step(n, e), e.p) || e.p !in n.ids
  {
    hide UsersOk, Cleanup, NeedRelay, Disable, AssignAll, Unknown;
    match e
    case Added(p, server) =>
      if p !in n.ids {
        AddInv(n, p, server);
      }
    case Removed(p) =>
      CleanupInv(n, p);
      ForgetInv(Cleanup(n, p), p);
    case Connecting(p, gotLink) =>
      CleanupInv(n, p);
      if p in n.ids {
        LinkInv(Cleanup(n, p), p);
      }
    case Reset(p) => CleanupInv(n, p);
    case CannotBind(p) =>
      if p in n.ids && p !in n.isRelay {
        NeedRelayInv(n, p);
      }
    case Up(p) =>
      if p in n.link && p in n.canRelay && p !in n.isRelay {
        NewProviderInv(n, p);
        AssignInv(NewProvider(n, p));
      }
    case Down(p) =>
      if p in n.link && p in n.isRelay {
        DisableInv(n, p);
      }
  }

  lemma AddInv(n: Net, p: Peer, server: bool)
    requires Inv(n) && p !in n.ids
    ensures Inv(AddPeer(n, p, server))
  {
  }

  ghost function Run(es: seq<Event>): (n: Net)
    ensures Inv(n) && Settled(n)
  {
    if es == [] then Empty
    else
      var n := Run(es[..|es| - 1]);
      (StepInv(n, es[|es| - 1]); Step(n, es[|es| - 1]))
  }

  /** The relay invariant in every reachable state, in full. */
  lemma {:induction false} Reachable(es: seq<Event>, p: Peer, q: Peer)
    ensures var n := Run(es);
            && !(p in n.link && p in n.relaying) && !(p in n.link && p in n.wants) && !(p in n.relaying && p in n.wants)
            && (p in n.isRelay ==> p in n.link)
            && (p in n.relaying && n.relaying[p] == q <==> q in n.isRelay && p in n.users[q])
            && (p in n.relaying && n.relaying[p] == q ==> p != q && q !in n.relaying)
            && (p in n.wants ==> n.isRelay == {})
  {
    var n := Run(es);
    NoChains(n);
    if q in n.isRelay {
      assert UsersOf(n.relaying, n.users[q], q);
    }
    if p in n.wants {
      assert p in n.waiting;
      assert n.relays == [];
      assert forall x :: x in n.isRelay ==> x in n.relays;
    }
  }

  // ---------------------------------------------------------------- what the events do

  /** For every other peer: known, linked, a server and a relay as before. */
  ghost predicate OthersSame(n: Net, r: Net, p: Peer) {
    && (forall q :: q != p ==> (q in r.ids <==> q in n.ids) && (q in r.link <==> q in n.link))
    && (forall q :: q != p ==> (q in r.canRelay <==> q in n.canRelay) && (q in r.isRelay <==> q in n.isRelay))
  }

  /** Everyone but p is reached as before. */
  ghost predicate PathsSame(n: Net, r: Net, p: Peer) {
    && (forall u :: u != p ==> (u in r.relaying <==> u in n.relaying) && (u in r.wants <==> u in n.wants))
    && (forall u :: u != p && u in n.relaying && u in r.relaying ==> r.relaying[u] == n.relaying[u])
  }

  lemma AssignKeeps(n: Net)
    requires n.relays != [] ==> n.relays[0] in n.users
    ensures var r := AssignAll(n); r.ids == n.ids && r.link == n.link && r.canRelay == n.canRelay && r.isRelay == n.isRelay && r.relays == n.relays
  {
  }

  lemma DisableKeeps(n: Net, p: Peer)
    requires Inv(n) && p in n.isRelay
    ensures var r := Disable(n, p);
            r.ids == n.ids && r.link == n.link && r.canRelay == n.canRelay && r.isRelay == n.isRelay - {p} && r.relays == Remove(n.relays, p)
  {
    hide Inv, Drain, AssignAll, Remove;
    DrainInv(n, p);
    OldProviderInv(Drain(n, p), p);
    FirstRelay(OldProvider(Drain(n, p), p));
    DrainKeeps(n, p);
    AssignKeeps(OldProvider(Drain(n, p), p));
  }

  /** When the data connection of p goes down, p is no relay and nobody is reached through it; its link stays. */
  lemma DownEffect(n: Net, p: Peer)
    requires Inv(n) && Settled(n)
    ensures var r := Step(n, Down(p));
            && p !in r.isRelay && (forall u :: u in r.relaying ==> r.relaying[u] != p)
            && (p in r.link <==> p in n.link) && (p in r.ids <==> p in n.ids) && OthersSame(n, r, p)
            && (forall u :: u in n.relaying && n.relaying[u] != p ==> u in r.relaying && r.relaying[u] == n.relaying[u])
            && (forall u :: u in n.relaying && n.relaying[u] == p ==> if Remove(n.relays, p) == [] then u in r.wants
                                                                      else u in r.relaying && r.relaying[u] == Remove(n.relays, p)[0])
  {
    hide Disable, Remove, UsersOf;
    StepInv(n, Down(p));
    assert p in n.isRelay ==> p in n.link;
    if p in n.isRelay {
      DisableKeeps(n, p);
      DisableEffect(n, p);
      UsersMove(n, p);
    }
  }

  lemma UsersMove(n: Net, p: Peer)
    requires Inv(n) && Settled(n) && p in n.isRelay
    ensures var r, others := Disable(n, p), Remove(n.relays, p);
            forall u :: u in n.relaying && n.relaying[u] == p ==> if others == [] then u in r.wants else u in r.relaying && r.relaying[u] == others[0]
  {
    hide Remove;
    DisableInv(n, p);
    DisableEffect(n, p);
    NoneWaiting(n, p);
    var r, others := Disable(n, p), Remove(n.relays, p);
    hide Disable;
    forall u | u in n.relaying && n.relaying[u] == p
      ensures if others == [] then u in r.wants else u in r.relaying && r.relaying[u] == others[0]
    {
      assert UsersOf(n.relaying, n.users[p], p) && u in n.users[p];
      if others == [] {
        assert u in r.waiting;
      } else {
        assert u in r.users[others[0]];
        assert UsersOf(r.relaying, r.users[others[0]], others[0]);
      }
    }
  }

  /** When the data connection of a relay server goes up, it is the last relay, and whoever waited is reached through it. */
  lemma UpEffect(n: Net, p: Peer)
    requires Inv(n) && Settled(n)
    ensures var r := Step(n, Up(p));
            && (p in r.isRelay <==> p in n.link && p in n.canRelay) && (p in r.link <==> p in n.link)
            && (p in r.ids <==> p in n.ids) && (p in r.canRelay <==> p in n.canRelay) && OthersSame(n, r, p)
            && r.relays == (if p in r.isRelay && p !in n.isRelay then n.relays + [p] else n.relays)
            && (forall u :: u in n.relaying ==> u in r.relaying && r.relaying[u] == n.relaying[u])
            && (p in r.isRelay && p !in n.isRelay ==> r.wants == {} && forall u :: u in n.wants ==> u in r.relaying && r.relaying[u] == p)
  {
    hide UsersOf, NoDuplicates;
    if p in n.link && p in n.canRelay && p !in n.isRelay {
      FirstRelay(n);
      NewProviderInv(n, p);
      AssignKeeps(NewProvider(n, p));
    }
  }

  /** A peer that cannot be bound to, and is no relay, has no link any more; the first relay serves it, or it waits if there is none. */
  lemma CannotBindEffect(n: Net, p: Peer)
    requires Inv(n) && Settled(n) && p in n.ids && p !in n.isRelay
    ensures var r := Step(n, CannotBind(p));
            && p !in r.link && p in r.ids && (p in r.canRelay <==> p in n.canRelay) && p !in r.isRelay && OthersSame(n, r, p) && PathsSame(n, r, p)
            && (if n.relays == [] then p in r.wants else p in r.relaying && r.relaying[p] == n.relays[0]) && r.relays == n.relays
  {
    hide Inv, OthersSame, PathsSame, AssignAll, Remove, FreeRelaying;
    RelayFlags(n, p);
    if p !in n.wants {
      NeedInv(n, p);
      var n1 := if p in n.link then FreeLink(n, p) else if p in n.relaying then FreeRelaying(n, p) else n;
      var n2 := Register(n1, p);
      FirstRelay(n2);
      AssignKeeps(n2);
      NeedFirst(n, n1, p);
      NeedPaths(n, n2, p);
      assert OthersSame(n, AssignAll(n2), p) by { SameOthers(n, AssignAll(n2), p); }
    } else {
      WaitsForever(n, p);
    }
  }

  lemma WaitsForever(n: Net, p: Peer)
    requires Inv(n) && Settled(n) && p in n.wants
    ensures n.relays == [] && p !in n.link && OthersSame(n, n, p) && PathsSame(n, n, p)
  {
    assert p in n.waiting;
  }

  lemma NeedFirst(n: Net, n1: Net, p: Peer)
    requires Inv(n) && p !in n.isRelay && p !in n.wants
    requires p in n.relaying ==> n.relaying[p] in n.users
    requires n1 == if p in n.link then FreeLink(n, p) else if p in n.relaying then FreeRelaying(n, p) else n
    ensures n1.relays == n.relays && n1.waiting == n.waiting && n1.wants == n.wants && n1.relaying == n.relaying - {p} && ListOf(n.waiting, n.wants)
    ensures n1.ids == n.ids && n1.canRelay == n.canRelay && n1.isRelay == n.isRelay && n1.link == n.link - {p}
  {
    hide Remove, UsersOf, NoDuplicates;
  }

  lemma NeedPaths(n: Net, n2: Net, p: Peer)
    requires Settled(n) && n2.relays == n.relays && n2.waiting == n.waiting + [p] && n2.wants == n.wants + {p} && n2.relaying == n.relaying - {p}
    requires ListOf(n.waiting, n.wants) && (n2.relays != [] ==> n2.relays[0] in n2.users)
    ensures PathsSame(n, AssignAll(n2), p)
    ensures if n.relays == [] then p in AssignAll(n2).wants else p in AssignAll(n2).relaying && AssignAll(n2).relaying[p] == n.relays[0]
  {
    hide NoDuplicates;
    if n.relays != [] {
      assert n.waiting == [] && n2.waiting == [p];
    }
  }

  /** What is left of a peer's connections: none. */
  lemma CleanupEffect(n: Net, p: Peer)
    requires Inv(n) && Settled(n)
    ensures var r := Cleanup(n, p);
            && Idle(r, p) && (p in r.ids <==> p in n.ids) && (p in r.canRelay <==> p in n.canRelay) && OthersSame(n, r, p)
            && (forall u :: u in r.relaying ==> r.relaying[u] != p) && (p !in n.isRelay ==> PathsSame(n, r, p))
            && r.relays == (if p in n.isRelay then Remove(n.relays, p) else n.relays)
  {
    hide Disable, Remove, Inv, OthersSame, PathsSame;
    CleanupInv(n, p);
    RelayFlags(n, p);
    var r := Cleanup(n, p);
    if p in n.isRelay {
      DisableKeeps(n, p);
      assert OthersSame(n, r, p) by { SameOthers(n, r, p); }
    } else {
      assert OthersSame(n, r, p) by { SameOthers(n, r, p); }
      assert PathsSame(n, r, p) by { SamePaths(n, p); }
    }
    OnlyThroughRelays(r);
  }

  lemma OnlyThroughRelays(n: Net)
    requires Inv(n)
    ensures forall u :: u in n.relaying ==> n.relaying[u] in n.isRelay
  {
  }

  lemma SameOthers(n: Net, r: Net, p: Peer)
    requires r.ids == n.ids && r.canRelay == n.canRelay && r.link == n.link - {p} && r.isRelay == n.isRelay - {p}
    ensures OthersSame(n, r, p)
  {
  }

  lemma SamePaths(n: Net, p: Peer)
    requires Inv(n) && p !in n.isRelay
    ensures PathsSame(n, Cleanup(n, p), p)
  {
    hide Remove, UsersOf;
  }

  /** A connection attempt gives the peer a link if it gets one, and nothing else. */
  lemma ConnectEffect(n: Net, p: Peer, gotLink: bool)
    requires Inv(n) && Settled(n) && p in n.ids
    ensures var r := Step(n, Connecting(p, gotLink));
            && (p in r.link <==> gotLink) && p !in r.relaying && p !in r.wants && p !in r.isRelay && p in r.ids
            && (p in r.canRelay <==> p in n.canRelay) && OthersSame(n, r, p) && (p !in n.isRelay ==> PathsSame(n, r, p))
  {
    hide Cleanup, Inv, Remove;
    CleanupEffect(n, p);
  }

  /** A reset leaves the peer without any connection. */
  lemma ResetEffect(n: Net, p: Peer)
    requires Inv(n) && Settled(n) && p in n.ids
    ensures var r := Step(n, Reset(p));
            && Idle(r, p) && p in r.ids && (p in r.canRelay <==> p in n.canRelay) && OthersSame(n, r, p)
            && (p !in n.isRelay ==> PathsSame(n, r, p))
  {
    hide Cleanup, Inv, Remove, OthersSame, PathsSame;
    CleanupEffect(n, p);
  }

  /** Nothing refers to a removed peer. */
  lemma RemovedEffect(n: Net, p: Peer)
    requires Inv(n) && Settled(n) && p in n.ids
    ensures var r := Step(n, Removed(p)); Unknown(r, p) && OthersSame(n, r, p) && (p !in n.isRelay ==> PathsSame(n, r, p))
  {
    hide Cleanup, Inv, Remove, Unknown;
    CleanupEffect(n, p);
    StepInv(n, Removed(p));
  }

  /** A peer that is announced is known with its server flag, and has no connection. */
  lemma AddedEffect(n: Net, p: Peer, server: bool)
    requires Inv(n) && Settled(n)
    ensures var r := Step(n, Added(p, server));
            && p in r.ids && OthersSame(n, r, p) && PathsSame(n, r, p)
            && (p !in n.ids ==> (p in r.canRelay <==> server) && Idle(r, p)) && (p in n.ids ==> r == n)
  {
  }

  // ---------------------------------------------------------------- who is a relay, over runs

  /** The last that was heard of the data connection over the present link of p is that it went up. */
  ghost predicate LastUp(es: seq<Event>, p: Peer) {
    es != [] &&
    var front, e := es[..|es| - 1], es[|es| - 1];
    if e.p != p then LastUp(front, p)
    else
      match e
      case Up(_) => p in Run(front).link
      case Down(_) => false
      case Removed(_) => false
      case Connecting(_, _) => false
      case Reset(_) => false
      case Added(_, _) => LastUp(front, p)
      case CannotBind(_) => LastUp(front, p)
  }

  /** In every run: p is a relay exactly if it is a relay server and its data connection is up. */
  lemma {:induction false} RelayExactlyWhen(es: seq<Event>, p: Peer)
    ensures p in Run(es).isRelay <==> p in Run(es).canRelay && LastUp(es, p)
    ensures LastUp(es, p) ==> p in Run(es).ids
    decreases |es|
  {
    hide Inv, Settled, Step;
    if es != [] {
      var front, e := es[..|es| - 1], es[|es| - 1];
      var n := Run(front);
      RelayExactlyWhen(front, p);
      StepInv(n, e);
      EventKeeps(n, e, p);
      RelayFlags(n, p);
    }
  }

  lemma RelayFlags(n: Net, p: Peer)
    requires Inv(n)
    ensures (p in n.isRelay ==> p in n.link && p in n.canRelay) && (p in n.link ==> p in n.ids) && (p in n.canRelay ==> p in n.ids)
  {
  }

  /** What each event does to a peer's flags. */
  lemma EventKeeps(n: Net, e: Event, p: Peer)
    requires Inv(n) && Settled(n)
    ensures var r := Step(n, e);
            && (e.p != p ==> (p in r.ids <==> p in n.ids) && (p in r.canRelay <==> p in n.canRelay) && (p in r.isRelay <==> p in n.isRelay))
            && (e == Up(p) ==> (p in r.isRelay <==> p in n.link && p in n.canRelay) && (p in r.canRelay <==> p in n.canRelay) && (p in r.ids <==> p in n.ids))
            && (e == Down(p) || e == Removed(p) || e == Reset(p) || (e.Connecting? && e.p == p) ==> p !in r.isRelay)
            && (e.Added? && e.p == p ==> p in r.ids && (p in n.ids ==> r == n) && (p !in n.ids ==> p !in r.isRelay))
            && (e == CannotBind(p) ==> (p in r.isRelay <==> p in n.isRelay) && (p in r.canRelay <==> p in n.canRelay) && (p in r.ids <==> p in n.ids))
  {
    hide Inv, Settled, Step, PathsSame, Unknown;
    RelayFlags(n, e.p);
    match e
    case Added(q, server) => AddedEffect(n, q, server);
    case Removed(q) => Untouched(n, e); if q in n.ids { RemovedEffect(n, q); GoneIsIdle(Step(n, e), q); }
    case Connecting(q, gotLink) => Untouched(n, e); if q in n.ids { ConnectEffect(n, q, gotLink); }
    case Reset(q) => Untouched(n, e); if q in n.ids { ResetEffect(n, q); }
    case CannotBind(q) => Untouched(n, e); if q in n.ids && q !in n.isRelay { CannotBindEffect(n, q); }
    case Up(q) => UpEffect(n, q);
    case Down(q) => DownEffect(n, q);
  }

  /** Events for peers that are not known, and binding failures of relays, change nothing. */
  lemma Untouched(n: Net, e: Event)
    requires Inv(n) && Settled(n)
    ensures (e.Removed? || e.Connecting? || e.Reset? || e.CannotBind?) && e.p !in n.ids ==> Step(n, e) == n
    ensures e.CannotBind? && e.p in n.isRelay ==> Step(n, e) == n
  {
  }

  lemma GoneIsIdle(n: Net, p: Peer)
    requires Unknown(n, p)
    ensures p !in n.isRelay
  {
  }

  // ---------------------------------------------------------------- rounds of the loops

  lemma ProviderOf(n: Net, p: Peer)
    requires Inv(n) && p in n.relaying
    ensures n.relaying[p] in n.isRelay && n.relaying[p] in n.link && n.relaying[p] in n.users && p in n.ids && p !in n.link && p !in n.wants
  {
  }

  lemma WaitingOnly(n: Net, p: Peer)
    requires Inv(n) && p in n.wants
    ensures p !in n.link && p !in n.relaying && p !in n.isRelay
  {
  }

  /** What one round of draining needs and does. */
  lemma DrainRound(n: Net, p: Peer)
    requires Inv(n) && p in n.isRelay && n.users[p] != []
    ensures p in n.users
    ensures var u := n.users[p][0];
            && u in n.relaying && n.relaying[u] == p && p in n.link && u in n.ids && u !in n.link && u !in n.wants && u !in n.isRelay
            && Idle(FreeRelaying(n, u), u)
            && var n1 := Register(FreeRelaying(n, u), u);
            && Inv(n1) && p in n1.users && n1.users[p] == n.users[p][1..] && n1.isRelay == n.isRelay && Drain(n1, p) == Drain(n, p)
  {
    DrainOneInv(n, p);
    FreeRelayingInv(n, n.users[p][0]);
  }

  lemma UnregisterKeeps(n: Net, p: Peer)
    ensures var r := Unregister(n, p);
            r.isRelay == n.isRelay && r.link == n.link && r.users == n.users
  {
  }

  /** What one round of assigning needs and does. */
  lemma AssignRound(n: Net)
    requires Inv(n) && n.waiting != [] && n.relays != []
    ensures var p, relay := n.waiting[0], n.relays[0];
            && relay in n.users && relay in n.isRelay && relay in n.link && p in n.wants && p in n.ids && Idle(Unregister(n, p), p)
            && p !in n.relaying && p !in n.link && p !in n.isRelay
            && var n1 := Install(Unregister(n, p), p, relay);
            && Inv(n1) && n1.waiting == n.waiting[1..] && n1.relays == n.relays && n1.relays[0] in n1.users
            && AssignAll(n1) == AssignAll(n)
  {
    AssignOneInv(n);
    UnregisterInv(n, n.waiting[0]);
  }
}
