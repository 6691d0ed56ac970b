/**
  The DHCP client core: its states, its five timers and the reports it makes. Times are
  milliseconds; a timer that runs has a deadline.
  */
module Dhcp {
  import opened Lists

  const RESET_TIMEOUT: int := 4000
  const REQUEST_TIMEOUT: int := 3000
  const RENEW_REQUEST_TIMEOUT: int := 20000
  const MAX_REQUESTS: nat := 4
  const XID_REUSE_MAX: nat := 8

  function RenewTimeout(lease: nat): (t: nat) { 500 * lease }

  function LeaseTimeout(lease: nat): (t: nat) { 1000 * lease - RenewTimeout(lease) }

  datatype State = Resetting | SentDiscover | SentRequest | Finished | Renewing

  datatype Timer = Reset | Request | Renew | RenewRequest | Lease

  datatype Report = Up | Down

  /** A message whose header and options were found in order. */
  datatype Kind = Offer | Ack | Nak
  datatype Message = Message(kind: Kind, xid: nat, yiaddr: nat, server: nat, lease: Option<nat>, haveMask: bool)

  /** What the client sends: the DISCOVER, or a REQUEST with the server identifier or without. */
  datatype Packet = Discover(xid: nat) | RequestOf(xid: nat, yiaddr: nat, server: Option<nat>)

  datatype Core = Core(state: State, timers: map<Timer, int>, count: nat, xid: nat, reuse: nat,
                       yiaddr: nat, server: nat, lease: nat, sending: bool, sent: seq<Packet>)

  // ---------------------------------------------------------------- what the handlers do

  /** send_message: nothing is sent while the previous packet is still being sent. */
  function Send(c: Core, p: Packet): (r: Core) {
    if c.sending then c else c.(sending := true, sent := c.sent + [p])
  }

  function SetTimer(c: Core, t: Timer, deadline: int): (r: Core) { c.(timers := c.timers[t := deadline]) }

  function StopTimer(c: Core, t: Timer): (r: Core) { c.(timers := c.timers - {t}) }

  /** start_process; random is the random number drawn if a new xid is needed. */
  function Started(c: Core, now: int, force: bool, random: nat): (r: Core) {
    var c1 := if force || c.reuse == XID_REUSE_MAX then c.(xid := random, reuse := 1) else c.(reuse := c.reuse + 1);
    SetTimer(Send(c1, Discover(c1.xid)), Reset, now + RESET_TIMEOUT).(state := SentDiscover)
  }

  predicate IsUp(s: State) { s == Finished || s == Renewing }

  /** The message is the ACK that the client waits for. */
  predicate Acceptable(c: Core, m: Message) {
    && (c.state == SentRequest || c.state == Renewing) && m.kind == Ack && m.xid == c.xid && m.yiaddr != 0 && m.lease.Some? && m.haveMask
    && m.yiaddr == c.yiaddr && m.server == c.server
  }

  /** A NAK. */
  function ReceiveNak(c: Core, m: Message, now: int): (r: (Core, seq<Report>)) {
    if c.state == SentDiscover || m.server != c.server then (c, [])
    else if c.state == SentRequest then (SetTimer(StopTimer(c, Request), Reset, now + RESET_TIMEOUT).(state := Resetting), [])
    else if c.state == Finished then (SetTimer(StopTimer(c, Renew), Reset, now + RESET_TIMEOUT).(state := Resetting), [Down])
    else (SetTimer(StopTimer(StopTimer(c, RenewRequest), Lease), Reset, now + RESET_TIMEOUT).(state := Resetting), [Down])
  }

  /** An OFFER after a DISCOVER. */
  function ReceiveOffer(c: Core, m: Message, now: int): (r: Core) {
    var c1 := Send(c.(yiaddr := m.yiaddr, server := m.server), RequestOf(c.xid, m.yiaddr, Some(m.server)));
    SetTimer(StopTimer(c1, Reset), Request, now + REQUEST_TIMEOUT).(state := SentRequest, count := 1)
  }

  /** The ACK that the client waits for. */
  function ReceiveAck(c: Core, m: Message, now: int): (r: (Core, seq<Report>))
    requires Acceptable(c, m)
  {
    var c1 := c.(lease := m.lease.value);
    var c2 := if c.state == SentRequest then StopTimer(c1, Request) else StopTimer(StopTimer(c1, RenewRequest), Lease);
    (SetTimer(c2, Renew, now + RenewTimeout(m.lease.value)).(state := Finished), if c.state == SentRequest then [Up] else [])
  }

  /** recv_handler_done */
  function Receive(c: Core, m: Message, now: int): (r: (Core, seq<Report>)) {
    if c.state == Resetting || m.xid != c.xid then (c, [])
    else if m.kind == Nak then ReceiveNak(c, m, now)
    else if m.yiaddr == 0 || m.lease.None? || !m.haveMask then (c, [])
    else if c.state == SentDiscover && m.kind == Offer then (ReceiveOffer(c, m, now), [])
    else if Acceptable(c, m) then ReceiveAck(c, m, now)
    else (c, [])
  }

  /** The timer has expired, so that it no longer runs, and its handler is called. */
  function Fire(c0: Core, t: Timer, now: int, random: nat): (r: (Core, seq<Report>)) {
    var c := StopTimer(c0, t);
    match t
    case Reset => (Started(c, now, c.state == Resetting, random), [])
    case Request =>
      if c.count == MAX_REQUESTS then (Started(c, now, false, random), [])
      else (SetTimer(Send(c, RequestOf(c.xid, c.yiaddr, Some(c.server))), Request, now + REQUEST_TIMEOUT).(count := c.count + 1), [])
    case Renew =>
      var c1 := SetTimer(Send(c, RequestOf(c.xid, c.yiaddr, None)), RenewRequest, now + RENEW_REQUEST_TIMEOUT);
      (SetTimer(c1, Lease, now + LeaseTimeout(c.lease)).(state := Renewing), [])
    case RenewRequest => (SetTimer(Send(c, RequestOf(c.xid, c.yiaddr, None)), RenewRequest, now + RENEW_REQUEST_TIMEOUT), [])
    case Lease => (Started(StopTimer(c, RenewRequest), now, true, random), [Down])
  }

  // ---------------------------------------------------------------- what holds in every state

  /** The timers that belong to a state. */
  function Expected(s: State): (ts: set<Timer>) {
    match s
    case Resetting => {Reset}
    case SentDiscover => {Reset}
    case SentRequest => {Request}
    case Finished => {Renew}
    case Renewing => {RenewRequest, Lease}
  }

  /** Exactly those run; requests and uses of an xid are counted within their limits. */
  ghost predicate CoreInv(c: Core) {
    && c.timers.Keys == Expected(c.state) && 1 <= c.reuse <= XID_REUSE_MAX
    && (c.state == SentRequest ==> 1 <= c.count <= MAX_REQUESTS)
  }

  lemma NakInv(c: Core, m: Message, now: int)
    requires CoreInv(c) && c.state != Resetting
    ensures var (r, reps) := ReceiveNak(c, m, now);
            CoreInv(r) && reps == if IsUp(r.state) == IsUp(c.state) then [] else if IsUp(c.state) then [Down] else [Up]
  {
  }

  lemma OfferInv(c: Core, m: Message, now: int)
    requires CoreInv(c) && c.state == SentDiscover
    ensures CoreInv(ReceiveOffer(c, m, now)) && !IsUp(c.state) && !IsUp(ReceiveOffer(c, m, now).state)
  {
  }

  lemma AckInv(c: Core, m: Message, now: int)
    requires CoreInv(c)
    ensures Acceptable(c, m) ==>
              var (r, reps) := ReceiveAck(c, m, now);
              CoreInv(r) && reps == if IsUp(r.state) == IsUp(c.state) then [] else if IsUp(c.state) then [Down] else [Up]
  {
  }

  lemma ReceiveInv(c: Core, m: Message, now: int)
    requires CoreInv(c)
    ensures CoreInv(Receive(c, m, now).0)
    ensures Receive(c, m, now).1 ==
            if IsUp(Receive(c, m, now).0.state) == IsUp(c.state) then [] else if IsUp(c.state) then [Down] else [Up]
  {
    hide CoreInv, ReceiveNak, ReceiveOffer, ReceiveAck;
    if c.state != Resetting {
      NakInv(c, m, now);
    }
    if c.state == SentDiscover {
      OfferInv(c, m, now);
    }
    AckInv(c, m, now);
  }

  lemma FireInv(c: Core, t: Timer, now: int, random: nat)
    requires CoreInv(c) && t in c.timers
    ensures CoreInv(Fire(c, t, now, random).0)
    ensures Fire(c, t, now, random).1 ==
            if IsUp(Fire(c, t, now, random).0.state) == IsUp(c.state) then [] else if IsUp(c.state) then [Down] else [Up]
  {
    var r := Fire(c, t, now, random).0;
    assert r.timers.Keys == Expected(r.state);
  }

  // ---------------------------------------------------------------- runs in time

  /** The client and the clock; acked: when the last accepted ACK came; reports: all reports so far. */
  datatype World = World(core: Core, now: int, acked: int, reports: seq<Report>)

  datatype Event = Arrives(m: Message) | Expires(t: Timer, random: nat) | SendDone | Passes(time: nat)

  /** Timers expire no earlier than their deadline, and at most slack late. */
  ghost predicate Allowed(w: World, e: Event, slack: nat) {
    match e
    case Arrives(m) => true
    case Expires(t, _) => t in w.core.timers && w.core.timers[t] <= w.now
    case SendDone => w.core.sending
    case Passes(d) => forall t :: t in w.core.timers ==> w.now + d <= w.core.timers[t] + slack
  }

  ghost function Next(w: World, e: Event): (r: World) {
    match e
    case Arrives(m) =>
      var (c, reps) := Receive(w.core, m, w.now);
      World(c, w.now, if Acceptable(w.core, m) then w.now else w.acked, w.reports + reps)
    case Expires(t, random) =>
      var (c, reps) := Fire(w.core, t, w.now, random);
      w.(core := c, reports := w.reports + reps)
    case SendDone => w.(core := w.core.(sending := false))
    case Passes(d) => w.(now := w.now + d)
  }

  /** Up and down reports alternate, and the last one says whether the client is up. */
  ghost predicate ReportsOk(reports: seq<Report>, up: bool) {
    && (forall i :: 0 <= i < |reports| ==> reports[i] == if i % 2 == 0 then Up else Down)
    && (|reports| % 2 == 1 <==> up)
  }

  ghost predicate OnTime(w: World, slack: nat) {
    && (forall t :: t in w.core.timers ==> w.now <= w.core.timers[t] + slack)
    && (w.core.state == Finished ==> Renew in w.core.timers && w.core.timers[Renew] == w.acked + RenewTimeout(w.core.lease))
    && (w.core.state == Renewing ==> Lease in w.core.timers && w.core.timers[Lease] <= w.acked + 1000 * w.core.lease + slack)
  }

  ghost predicate Inv(w: World, slack: nat) {
    CoreInv(w.core) && ReportsOk(w.reports, IsUp(w.core.state)) && OnTime(w, slack)
  }

  function Initial(xid: nat, now: int): (w: World) {
    World(Started(Core(Resetting, map[], 0, 0, 0, 0, 0, 0, false, []), now, true, xid), now, now, [])
  }

  lemma ReportsStep(reports: seq<Report>, more: seq<Report>, up: bool, up': bool)
    requires ReportsOk(reports, up) && more == if up == up' then [] else if up then [Down] else [Up]
    ensures ReportsOk(reports + more, up')
  {
    assert up == up' ==> reports + more == reports;
  }

  /** Every timer of r was running in c already or was set now or later. */
  ghost predicate TimersFrom(r: Core, c: Core, now: int) {
    forall t :: t in r.timers ==> (t in c.timers && r.timers[t] == c.timers[t]) || r.timers[t] >= now
  }

  lemma ReceiveTimes(c: Core, m: Message, now: int)
    requires CoreInv(c)
    ensures var r := Receive(c, m, now).0;
            && TimersFrom(r, c, now)
            && (Acceptable(c, m) ==> r.state == Finished && Renew in r.timers && r.timers[Renew] == now + RenewTimeout(r.lease))
            && (!Acceptable(c, m) && IsUp(r.state) ==> r == c)
  {
    hide CoreInv, Expected;
  }

  lemma FireTimes(c: Core, t: Timer, now: int, random: nat)
    requires CoreInv(c) && t in c.timers
    ensures var r := Fire(c, t, now, random).0;
            && TimersFrom(r, c, now)
            && (t == Renew ==> r.state == Renewing && Lease in r.timers && r.timers[Lease] == now + LeaseTimeout(r.lease) && r.lease == c.lease)
            && (t == RenewRequest ==> c.state == Renewing && r.state == Renewing && Lease in r.timers && Lease in c.timers
                                      && r.timers[Lease] == c.timers[Lease] && r.lease == c.lease)
            && (t == Renew ==> c.state == Finished)
            && (t != Renew && t != RenewRequest ==> !IsUp(r.state))
  {
    InState(c, t);
    if t == RenewRequest {
      assert Lease in c.timers;
    }
    hide CoreInv, Expected;
  }

  /** The renew timer is set from the time of the ACK, the lease timer from its expiry. */
  lemma TimeStep(w: World, e: Event, slack: nat)
    requires Inv(w, slack) && Allowed(w, e, slack)
    ensures OnTime(Next(w, e), slack)
  {
    hide CoreInv, Receive, Fire, ReportsOk;
    match e
    case Arrives(m) => ReceiveTimes(w.core, m, w.now);
    case Expires(t, random) => FireTimes(w.core, t, w.now, random);
    case SendDone =>
    case Passes(d) =>
  }

  lemma StepInv(w: World, e: Event, slack: nat)
    requires Inv(w, slack) && Allowed(w, e, slack)
    ensures Inv(Next(w, e), slack)
  {
    hide Receive, Fire, CoreInv, OnTime, ReportsOk;
    TimeStep(w, e, slack);
    match e
    case Arrives(m) =>
      ReceiveInv(w.core, m, w.now);
      ReportsStep(w.reports, Receive(w.core, m, w.now).1, IsUp(w.core.state), IsUp(Next(w, e).core.state));
    case Expires(t, random) =>
      FireInv(w.core, t, w.now, random);
      ReportsStep(w.reports, Fire(w.core, t, w.now, random).1, IsUp(w.core.state), IsUp(Next(w, e).core.state));
    case SendDone => SendDoneInv(w.core);
    case Passes(d) =>
  }

  lemma SendDoneInv(c: Core)
    requires CoreInv(c)
    ensures CoreInv(c.(sending := false))
  {
  }

  ghost predicate IsRun(es: seq<Event>, xid: nat, start: int, slack: nat)
  {
    es == [] || (IsRun(es[..|es| - 1], xid, start, slack) && Allowed(After(es[..|es| - 1], xid, start), es[|es| - 1], slack))
  }

  ghost function After(es: seq<Event>, xid: nat, start: int): (w: World) {
    if es == [] then Initial(xid, start) else Next(After(es[..|es| - 1], xid, start), es[|es| - 1])
  }

  lemma {:induction false} RunInv(es: seq<Event>, xid: nat, start: int, slack: nat)
    requires IsRun(es, xid, start, slack)
    ensures Inv(After(es, xid, start), slack)
  {
    hide Next, Inv, Allowed;
    if es == [] {
      InitialInv(xid, start, slack);
    } else {
      RunInv(es[..|es| - 1], xid, start, slack);
      StepInv(After(es[..|es| - 1], xid, start), es[|es| - 1], slack);
    }
  }

  lemma InitialInv(xid: nat, start: int, slack: nat)
    ensures Inv(Initial(xid, start), slack)
  {
  }

  /**
    In every reachable state exactly the timers of the state run, the reports alternate and end
    with UP exactly in the states finished and renewing, and a client that is up is so at most
    1000 ms for each second of its lease after the last accepted ACK (and twice the lateness of timers).
    */
  lemma Runs(es: seq<Event>, xid: nat, start: int, slack: nat)
    requires IsRun(es, xid, start, slack)
    ensures var w := After(es, xid, start);
            && w.core.timers.Keys == Expected(w.core.state)
            && (forall i :: 0 <= i < |w.reports| ==> w.reports[i] == if i % 2 == 0 then Up else Down)
            && (w.reports != [] && w.reports[|w.reports| - 1] == Up <==> w.core.state in {Finished, Renewing})
            && (IsUp(w.core.state) ==> w.now <= w.acked + 1000 * w.core.lease + 2 * slack)
  {
    hide After, IsRun, Inv, IsUp;
    RunInv(es, xid, start, slack);
    InvMeans(After(es, xid, start), slack);
  }

  lemma InvMeans(w: World, slack: nat)
    requires Inv(w, slack)
    ensures w.core.timers.Keys == Expected(w.core.state)
    ensures forall i :: 0 <= i < |w.reports| ==> w.reports[i] == if i % 2 == 0 then Up else Down
    ensures w.reports != [] && w.reports[|w.reports| - 1] == Up <==> w.core.state in {Finished, Renewing}
    ensures IsUp(w.core.state) ==> w.now <= w.acked + 1000 * w.core.lease + 2 * slack
  {
    if w.core.state == Finished {
      assert w.now <= w.core.timers[Renew] + slack;
    } else if w.core.state == Renewing {
      assert w.now <= w.core.timers[Lease] + slack;
    }
  }

  /** The DOWN report itself comes in time. */
  lemma DownInTime(es: seq<Event>, e: Event, xid: nat, start: int, slack: nat)
    requires IsRun(es + [e], xid, start, slack)
    ensures var w := After(es, xid, start);
            After(es + [e], xid, start).reports == w.reports + [Down] ==> w.now <= w.acked + 1000 * w.core.lease + 2 * slack
  {
    hide Next, Allowed, Inv;
    assert (es + [e])[..|es|] == es;
    Runs(es, xid, start, slack);
    RunInv(es, xid, start, slack);
    var w := After(es, xid, start);
    ReportWhenUp(w, e, slack);
  }

  lemma ReportWhenUp(w: World, e: Event, slack: nat)
    requires Inv(w, slack) && Allowed(w, e, slack)
    ensures Next(w, e).reports == w.reports + [Down] ==> IsUp(w.core.state)
  {
    hide Receive, Fire, OnTime, CoreInv;
    match e
    case Arrives(m) =>
      ReceiveInv(w.core, m, w.now);
      LastReport(w.reports, Receive(w.core, m, w.now).1);
    case Expires(t, random) =>
      FireInv(w.core, t, w.now, random);
      LastReport(w.reports, Fire(w.core, t, w.now, random).1);
    case SendDone =>
    case Passes(d) =>
  }

  lemma LastReport(reports: seq<Report>, more: seq<Report>)
    ensures reports + more == reports + [Down] ==> more == [Down]
  {
    assert (reports + more)[|reports|..] == more && (reports + [Down])[|reports|..] == [Down];
  }

  // ---------------------------------------------------------------- what each message and each timer does

  /** The packet p was put in the sending buffer, unless it is still occupied. */
  ghost predicate Sends(c: Core, r: Core, p: Packet) {
    r.sending && r.sent == if c.sending then c.sent else c.sent + [p]
  }

  ghost predicate SendsNothing(c: Core, r: Core) { r.sending == c.sending && r.sent == c.sent }

  /** The transaction and the offer are the same as before. */
  ghost predicate SameOffer(c: Core, r: Core) { r.xid == c.xid && r.reuse == c.reuse && r.yiaddr == c.yiaddr && r.server == c.server }

  /** A message that is complete enough for an OFFER or an ACK. */
  predicate Complete(m: Message) { m.yiaddr != 0 && m.lease.Some? && m.haveMask }

  predicate TakesOffer(c: Core, m: Message) { m.kind == Offer && m.xid == c.xid && c.state == SentDiscover && Complete(m) }

  predicate TakesAck(c: Core, m: Message) {
    m.kind == Ack && m.xid == c.xid && c.state in {SentRequest, Renewing} && Complete(m) && m.yiaddr == c.yiaddr && m.server == c.server
  }

  predicate TakesNak(c: Core, m: Message) {
    m.kind == Nak && m.xid == c.xid && c.state in {SentRequest, Finished, Renewing} && m.server == c.server
  }

  /** Any other message is ignored, and only those. */
  lemma IgnoresExactly(c: Core, m: Message, now: int)
    ensures Receive(c, m, now) == (c, []) <==> !TakesOffer(c, m) && !TakesAck(c, m) && !TakesNak(c, m)
  {
  }

  /** The first OFFER: the client asks that server for that address. */
  lemma OfferEffect(c: Core, m: Message, now: int)
    requires CoreInv(c) && TakesOffer(c, m)
    ensures var (r, reps) := Receive(c, m, now);
            && reps == [] && r.state == SentRequest && r.timers == map[Request := now + 3000] && r.count == 1
            && r.xid == c.xid && r.reuse == c.reuse && r.yiaddr == m.yiaddr && r.server == m.server
            && Sends(c, r, RequestOf(m.xid, m.yiaddr, Some(m.server)))
  {
    OnlyTimer(c.timers, Reset);
  }

  lemma OnlyTimer(timers: map<Timer, int>, t: Timer)
    requires timers.Keys == {t}
    ensures timers - {t} == map[]
  {
  }

  /** The ACK for that address from that server: the lease begins, or begins anew. */
  lemma AckEffect(c: Core, m: Message, now: int)
    requires CoreInv(c) && TakesAck(c, m)
    ensures var (r, reps) := Receive(c, m, now);
            && reps == (if c.state == SentRequest then [Up] else []) && r.state == Finished && r.lease == m.lease.value
            && r.timers == map[Renew := now + 500 * m.lease.value] && SameOffer(c, r) && SendsNothing(c, r)
  {
    if c.state == SentRequest {
      OnlyTimer(c.timers, Request);
    }
  }

  /** A NAK from that server: the client starts again 4 seconds later. */
  lemma NakEffect(c: Core, m: Message, now: int)
    requires CoreInv(c) && TakesNak(c, m)
    ensures var (r, reps) := Receive(c, m, now);
            && reps == (if c.state == SentRequest then [] else [Down]) && r.state == Resetting
            && r.timers == map[Reset := now + 4000] && SameOffer(c, r) && SendsNothing(c, r)
  {
    if c.state == SentRequest {
      OnlyTimer(c.timers, Request);
    } else if c.state == Finished {
      OnlyTimer(c.timers, Renew);
    }
  }

  /** The client starts again: a new xid if that is forced or the present one was used eight times. */
  ghost predicate Restarts(c: Core, r: Core, now: int, force: bool, random: nat) {
    && r.state == SentDiscover && r.timers == map[Reset := now + 4000] && Sends(c, r, Discover(r.xid))
    && if force || c.reuse == 8 then r.xid == random && r.reuse == 1 else r.xid == c.xid && r.reuse == c.reuse + 1
  }

  /** The DISCOVER got no OFFER for 4 seconds, or the wait after a NAK is over. */
  lemma ResetEffect(c: Core, now: int, random: nat)
    requires CoreInv(c) && Reset in c.timers
    ensures var (r, reps) := Fire(c, Reset, now, random); reps == [] && Restarts(c, r, now, c.state == Resetting, random)
  {
    OnlyTimer(c.timers, Reset);
  }

  /** The REQUEST got no answer for 3 seconds: it is sent four times in all, then the client starts again. */
  lemma RequestEffect(c: Core, now: int, random: nat)
    requires CoreInv(c) && Request in c.timers
    ensures var (r, reps) := Fire(c, Request, now, random);
            && reps == []
            && (c.count < 4 ==> r.state == SentRequest && r.count == c.count + 1 && r.timers == map[Request := now + 3000]
                                && SameOffer(c, r) && Sends(c, r, RequestOf(c.xid, c.yiaddr, Some(c.server))))
            && (c.count == 4 ==> Restarts(c, r, now, false, random))
  {
    OnlyTimer(c.timers, Request);
  }

  /** Half of the lease is over: it is to be renewed, every 20 seconds, until the other half is over. */
  lemma RenewEffect(c: Core, now: int, random: nat)
    requires CoreInv(c) && Renew in c.timers
    ensures var (r, reps) := Fire(c, Renew, now, random);
            && reps == [] && r.state == Renewing && r.timers == map[RenewRequest := now + 20000, Lease := now + 500 * c.lease]
            && r.lease == c.lease && SameOffer(c, r) && Sends(c, r, RequestOf(c.xid, c.yiaddr, None))
  {
    OnlyTimer(c.timers, Renew);
  }

  lemma RenewRequestEffect(c: Core, now: int, random: nat)
    requires CoreInv(c) && RenewRequest in c.timers
    ensures var (r, reps) := Fire(c, RenewRequest, now, random);
            && Lease in c.timers && reps == [] && r.state == Renewing && r.timers == map[RenewRequest := now + 20000, Lease := c.timers[Lease]]
            && r.lease == c.lease && SameOffer(c, r) && Sends(c, r, RequestOf(c.xid, c.yiaddr, None))
  {
    InState(c, RenewRequest);
    assert Lease in c.timers;
    var r := Fire(c, RenewRequest, now, random).0;
    assert r.timers.Keys == {RenewRequest, Lease};
  }

  /** The lease is over: the client is down and starts again with a new xid. */
  lemma LeaseEffect(c: Core, now: int, random: nat)
    requires CoreInv(c) && Lease in c.timers
    ensures var (r, reps) := Fire(c, Lease, now, random); reps == [Down] && Restarts(c, r, now, true, random)
  {
    InState(c, Lease);
    assert c.timers.Keys == {RenewRequest, Lease};
    assert c.timers - {Lease} - {RenewRequest} == map[];
  }

  // ---------------------------------------------------------------- what is sent, over runs

  ghost predicate IsOffer(e: Event, x: nat, y: nat, s: nat) {
    e.Arrives? && e.m.kind == Offer && e.m.xid == x && e.m.yiaddr == y && e.m.server == s && Complete(e.m)
  }

  /** An OFFER of address y by server s in transaction x has arrived. */
  ghost predicate Offered(es: seq<Event>, x: nat, y: nat, s: nat) { exists i :: 0 <= i < |es| && IsOffer(es[i], x, y, s) }

  /** Event i was an ACK of address y that the client waited for. */
  ghost predicate AckAt(es: seq<Event>, xid: nat, start: int, i: nat, y: nat) {
    i < |es| && es[i].Arrives? && es[i].m.yiaddr == y && TakesAck(After(es[..i], xid, start).core, es[i].m)
  }

  ghost predicate Acked(es: seq<Event>, xid: nat, start: int, y: nat) { exists i :: AckAt(es, xid, start, i, y) }

  /** Why the packet may be sent. */
  ghost predicate Justified(p: Packet, es: seq<Event>, xid: nat, start: int) {
    match p
    case Discover(x) => true
    case RequestOf(x, y, Some(s)) => Offered(es, x, y, s)
    case RequestOf(x, y, None) => Acked(es, xid, start, y)
  }

  lemma OfferedMore(es: seq<Event>, e: Event, x: nat, y: nat, s: nat)
    requires Offered(es, x, y, s) || IsOffer(e, x, y, s)
    ensures Offered(es + [e], x, y, s)
  {
    assert (es + [e])[|es|] == e;
    if Offered(es, x, y, s) {
      var i :| 0 <= i < |es| && IsOffer(es[i], x, y, s);
      assert (es + [e])[i] == es[i];
    }
  }

  lemma AckedMore(es: seq<Event>, e: Event, xid: nat, start: int, y: nat)
    requires Acked(es, xid, start, y) || (e.Arrives? && e.m.yiaddr == y && TakesAck(After(es, xid, start).core, e.m))
    ensures Acked(es + [e], xid, start, y)
  {
    hide After, TakesAck;
    if Acked(es, xid, start, y) {
      var i: nat :| AckAt(es, xid, start, i, y);
      assert (es + [e])[..i] == es[..i];
      assert AckAt(es + [e], xid, start, i, y);
    } else {
      assert (es + [e])[..|es|] == es;
      assert AckAt(es + [e], xid, start, |es|, y);
    }
  }

  lemma JustifiedMore(p: Packet, es: seq<Event>, e: Event, xid: nat, start: int)
    requires Justified(p, es, xid, start)
    ensures Justified(p, es + [e], xid, start)
  {
    hide Offered, Acked;
    match p
    case Discover(_) =>
    case RequestOf(x, y, Some(s)) => OfferedMore(es, e, x, y, s);
    case RequestOf(x, y, None) => AckedMore(es, e, xid, start, y);
  }

  /** What one event adds to what was sent, and where the present offer comes from. */
  lemma SentStep(w: World, e: Event, slack: nat)
    requires Inv(w, slack) && Allowed(w, e, slack)
    ensures var c, r := w.core, Next(w, e).core;
            && (r.sent == c.sent || (!c.sending && |r.sent| == |c.sent| + 1 && r.sent[..|c.sent|] == c.sent && AddsRight(c, r, r.sent[|c.sent|])))
            && (r.state in {SentRequest, Finished, Renewing} ==>
                  || (c.state in {SentRequest, Finished, Renewing} && SameOffer(c, r))
                  || (e.Arrives? && IsOffer(e, r.xid, r.yiaddr, r.server)))
            && (r.state in {Finished, Renewing} ==>
                  || (c.state in {Finished, Renewing} && SameOffer(c, r))
                  || (e.Arrives? && e.m.yiaddr == r.yiaddr && TakesAck(c, e.m)))
  {
    hide Receive, Fire, OnTime, ReportsOk, Expected;
    match e
    case Arrives(m) => SentOnMessage(w.core, m, w.now);
    case Expires(t, random) => SentOnTimer(w.core, t, w.now, random);
    case SendDone =>
    case Passes(d) =>
  }

  /** The packet fits the state in which the client then is. */
  ghost predicate AddsRight(c: Core, r: Core, p: Packet) {
    match p
    case Discover(x) => r.state == SentDiscover && x == r.xid
    case RequestOf(x, y, Some(s)) => r.state == SentRequest && x == r.xid == c.xid && y == r.yiaddr && s == r.server
    case RequestOf(x, y, None) => r.state == Renewing && c.state in {Finished, Renewing} && x == r.xid == c.xid && y == r.yiaddr == c.yiaddr
  }

  lemma SentOnMessage(c: Core, m: Message, now: int)
    requires CoreInv(c)
    ensures var r := Receive(c, m, now).0;
            && (r.sent == c.sent || (!c.sending && |r.sent| == |c.sent| + 1 && r.sent[..|c.sent|] == c.sent && AddsRight(c, r, r.sent[|c.sent|])))
            && (TakesOffer(c, m) ==> r.state == SentRequest && r.xid == m.xid && r.yiaddr == m.yiaddr && r.server == m.server)
            && (TakesAck(c, m) ==> r.state == Finished && SameOffer(c, r) && r.yiaddr == m.yiaddr)
            && (!TakesOffer(c, m) && !TakesAck(c, m) ==> r == c || r.state == Resetting)
  {
    hide Receive, CoreInv;
    IgnoresExactly(c, m, now);
    if TakesOffer(c, m) {
      OfferEffect(c, m, now);
    } else if TakesAck(c, m) {
      AckEffect(c, m, now);
    } else if TakesNak(c, m) {
      NakEffect(c, m, now);
    }
  }

  lemma SentOnTimer(c: Core, t: Timer, now: int, random: nat)
    requires CoreInv(c) && t in c.timers
    ensures var r := Fire(c, t, now, random).0;
            && (r.sent == c.sent || (!c.sending && |r.sent| == |c.sent| + 1 && r.sent[..|c.sent|] == c.sent && AddsRight(c, r, r.sent[|c.sent|])))
            && (r.state in {SentRequest, Finished, Renewing} ==> c.state in {SentRequest, Finished, Renewing} && SameOffer(c, r))
            && (r.state in {Finished, Renewing} ==> c.state in {Finished, Renewing})
  {
    hide Fire, Expected;
    InState(c, t);
    match t
    case Reset => ResetEffect(c, now, random);
    case Request => RequestEffect(c, now, random);
    case Renew => RenewEffect(c, now, random);
    case RenewRequest => RenewRequestEffect(c, now, random);
    case Lease => LeaseEffect(c, now, random);
  }

  /** Where everything that was sent, and the present offer, come from. */
  ghost predicate Founded(w: World, es: seq<Event>, xid: nat, start: int) {
    && (forall i :: 0 <= i < |w.core.sent| ==> Justified(w.core.sent[i], es, xid, start))
    && (w.core.state in {SentRequest, Finished, Renewing} ==> Offered(es, w.core.xid, w.core.yiaddr, w.core.server))
    && (w.core.state in {Finished, Renewing} ==> Acked(es, xid, start, w.core.yiaddr))
  }

  lemma FoundedStep(es: seq<Event>, e: Event, xid: nat, start: int, slack: nat)
    requires IsRun(es, xid, start, slack) && Allowed(After(es, xid, start), e, slack) && Founded(After(es, xid, start), es, xid, start)
    ensures Founded(Next(After(es, xid, start), e), es + [e], xid, start)
  {
    hide After, Next, Inv, Allowed, IsRun, Justified, Offered, Acked, IsOffer, TakesAck;
    var w := After(es, xid, start);
    RunInv(es, xid, start, slack);
    SentStep(w, e, slack);
    var c, r := w.core, Next(w, e).core;
    if r.state in {SentRequest, Finished, Renewing} {
      OfferedMore(es, e, r.xid, r.yiaddr, r.server);
    }
    if r.state in {Finished, Renewing} {
      AckedMore(es, e, xid, start, r.yiaddr);
    }
    forall i | 0 <= i < |r.sent| ensures Justified(r.sent[i], es + [e], xid, start) {
      if i < |c.sent| {
        assert r.sent[..|c.sent|] == c.sent ==> r.sent[i] == c.sent[i];
        JustifiedMore(c.sent[i], es, e, xid, start);
      } else {
        NewJustified(c, r, r.sent[i], es, e, xid, start);
      }
    }
  }

  lemma {:induction false} NewJustified(c: Core, r: Core, p: Packet, es: seq<Event>, e: Event, xid: nat, start: int)
    requires AddsRight(c, r, p)
    requires r.state in {SentRequest, Finished, Renewing} ==> Offered(es + [e], r.xid, r.yiaddr, r.server)
    requires r.state in {Finished, Renewing} ==> Acked(es + [e], xid, start, r.yiaddr)
    ensures Justified(p, es + [e], xid, start)
  {
    hide Offered, Acked;
  }

  lemma {:induction false} RunFounded(es: seq<Event>, xid: nat, start: int, slack: nat)
    requires IsRun(es, xid, start, slack)
    ensures Founded(After(es, xid, start), es, xid, start)
  {
    hide Next, Allowed, Founded;
    if es == [] {
      InitialFounded(xid, start);
    } else {
      var front, e := es[..|es| - 1], es[|es| - 1];
      RunFounded(front, xid, start, slack);
      FoundedStep(front, e, xid, start, slack);
      assert front + [e] == es;
    }
  }

  lemma InitialFounded(xid: nat, start: int)
    ensures Founded(Initial(xid, start), [], xid, start)
  {
  }

  /**
    In every run, a REQUEST that names a server asks it for an address which it offered in the same
    transaction, and a REQUEST that names none is for an address of which an ACK was taken.
    */
  lemma RequestsAreJustified(es: seq<Event>, xid: nat, start: int, slack: nat, i: nat)
    requires IsRun(es, xid, start, slack) && i < |After(es, xid, start).core.sent|
    ensures match After(es, xid, start).core.sent[i]
            case Discover(x) => true
            case RequestOf(x, y, Some(s)) => Offered(es, x, y, s)
            case RequestOf(x, y, None) => Acked(es, xid, start, y)
  {
    hide After, IsRun, Offered, Acked;
    RunFounded(es, xid, start, slack);
    assert Justified(After(es, xid, start).core.sent[i], es, xid, start);
  }

  /** A client that is up has an address that its server offered and acknowledged. */
  lemma UpIsFounded(es: seq<Event>, xid: nat, start: int, slack: nat)
    requires IsRun(es, xid, start, slack)
    ensures var c := After(es, xid, start).core;
            c.state == Finished || c.state == Renewing ==> Offered(es, c.xid, c.yiaddr, c.server) && Acked(es, xid, start, c.yiaddr)
  {
    hide After, IsRun, Offered, Acked;
    RunFounded(es, xid, start, slack);
  }

  // ---------------------------------------------------------------- the program

  class BDHCPClientCore {
    var state: State
    var timers: map<Timer, int>
    var requestCount: nat
    var xid: nat
    var xidReuseCounter: nat
    var offeredYiaddr: nat
    var offeredServer: nat
    var ackedLease: nat
    var sending: bool
    var sent: seq<Packet>
    /** The up flag of BDHCPClient, set and cleared by dhcp_handler, and the reports it saw. */
    var up: bool
    ghost var reports: seq<Report>

    ghost function View(): (c: Core)
      reads this
    {
      Core(state, timers, requestCount, xid, xidReuseCounter, offeredYiaddr, offeredServer, ackedLease, sending, sent)
    }

    ghost predicate Valid()
      reads this
    {
      CoreInv(View()) && up == IsUp(state)
    }

    constructor (random: nat, now: int)
      ensures Valid() && View() == Initial(random, now).core && reports == []
    {
      state, timers, requestCount, xid, xidReuseCounter := Resetting, map[], 0, 0, 0;
      offeredYiaddr, offeredServer, ackedLease, sending, sent, up, reports := 0, 0, 0, false, [], false, [];
      new;
      StartProcess(true, random, now);
    }

    method SendMessage(p: Packet)
      modifies this`sending, this`sent
      ensures View() == Send(old(View()), p)
    {
      if sending {
        return;
      }
      sent := sent + [p];
      sending := true;
    }

    /** dhcp_handler of BDHCPClient: its assertions are the preconditions. */
    method DhcpHandler(r: Report)
      requires r == Up ==> !up
      requires r == Down ==> up
      modifies this`up, this`reports
      ensures up == (r == Up) && reports == old(reports) + [r]
    {
      up := r == Up;
      reports := reports + [r];
    }

    method StartProcess(force: bool, random: nat, now: int)
      modifies this
      ensures View() == Started(old(View()), now, force, random) && up == old(up) && reports == old(reports)
    {
      if force || xidReuseCounter == XID_REUSE_MAX {
        xid := random;
        xidReuseCounter := 0;
      }
      xidReuseCounter := xidReuseCounter + 1;
      SendMessage(Discover(xid));
      timers := timers[Reset := now + RESET_TIMEOUT];
      state := SentDiscover;
    }

    /** recv_handler_done, for a message that was parsed. */
    method RecvHandlerDone(m: Message, now: int)
      requires Valid()
      modifies this
      ensures Valid() && View() == Receive(old(View()), m, now).0 && reports == old(reports) + Receive(old(View()), m, now).1
    {
      hide CoreInv, Expected, ReceiveNak, ReceiveOffer, ReceiveAck;
      ReceiveInv(View(), m, now);
      if state == Resetting {
        return;
      }
      if m.xid != xid {
        return;
      }
      if m.kind == Nak {
        RecvNak(m, now);
        return;
      }
      if m.yiaddr == 0 || m.lease.None? || !m.haveMask {
        return;
      }
      if state == SentDiscover && m.kind == Offer {
        RecvOffer(m, now);
      } else if (state == SentRequest || state == Renewing) && m.kind == Ack {
        RecvAck(m, now);
      }
    }

    /** The OFFER part of recv_handler_done. */
    method RecvOffer(m: Message, now: int)
      requires Valid() && state == SentDiscover && m.kind == Offer && m.xid == xid && m.yiaddr != 0 && m.lease.Some? && m.haveMask
      modifies this
      ensures Valid() && View() == ReceiveOffer(old(View()), m, now) && reports == old(reports)
    {
      hide CoreInv, Expected, Send;
      ghost var c := View();
      OfferInv(c, m, now);
      offeredYiaddr := m.yiaddr;
      offeredServer := m.server;
      SendMessage(RequestOf(xid, offeredYiaddr, Some(offeredServer)));
      assert View() == Send(c.(yiaddr := m.yiaddr, server := m.server), RequestOf(c.xid, m.yiaddr, Some(m.server)));
      timers := (timers - {Reset})[Request := now + REQUEST_TIMEOUT];
      state, requestCount := SentRequest, 1;
      assert View() == ReceiveOffer(c, m, now);
    }

    /** The ACK parts of recv_handler_done. */
    method RecvAck(m: Message, now: int)
      requires Valid() && (state == SentRequest || state == Renewing)
      requires m.kind == Ack && m.xid == xid && m.yiaddr != 0 && m.lease.Some? && m.haveMask
      modifies this
      ensures Valid()
      ensures if Acceptable(old(View()), m) then View() == ReceiveAck(old(View()), m, now).0 && reports == old(reports) + ReceiveAck(old(View()), m, now).1
              else View() == old(View()) && reports == old(reports)
    {
      hide CoreInv, Expected;
      AckInv(View(), m, now);
      if m.yiaddr != offeredYiaddr || m.server != offeredServer {
        return;
      }
      ghost var c := View();
      ackedLease := m.lease.value;
      if state == SentRequest {
        timers := (timers - {Request})[Renew := now + RenewTimeout(ackedLease)];
        state := Finished;
        assert View() == ReceiveAck(c, m, now).0;
        DhcpHandler(Up);
      } else {
        timers := (timers - {RenewRequest} - {Lease})[Renew := now + RenewTimeout(ackedLease)];
        state := Finished;
        assert View() == ReceiveAck(c, m, now).0;
      }
    }

    /** The NAK part of recv_handler_done. */
    method RecvNak(m: Message, now: int)
      requires Valid() && m.kind == Nak && m.xid == xid && state != Resetting
      modifies this
      ensures Valid() && View() == ReceiveNak(old(View()), m, now).0 && reports == old(reports) + ReceiveNak(old(View()), m, now).1
    {
      hide CoreInv, Expected;
      NakInv(View(), m, now);
      if state != SentRequest && state != Finished && state != Renewing {
        return;
      }
      if m.server != offeredServer {
        return;
      }
      if state == SentRequest {
        timers := timers - {Request};
        timers := timers[Reset := now + RESET_TIMEOUT];
        state := Resetting;
      } else if state == Finished {
        timers := timers - {Renew};
        timers := timers[Reset := now + RESET_TIMEOUT];
        state := Resetting;
        DhcpHandler(Down);
      } else {
        timers := timers - {RenewRequest};
        timers := timers - {Lease};
        timers := timers[Reset := now + RESET_TIMEOUT];
        state := Resetting;
        DhcpHandler(Down);
      }
    }

    // the timer handlers: the reactor has taken the timer off

    method ResetTimerHandler(random: nat, now: int)
      requires Valid() && Reset in timers
      modifies this
      ensures Valid() && View() == Fire(old(View()), Reset, now, random).0
      ensures reports == old(reports) + Fire(old(View()), Reset, now, random).1
    {
      hide CoreInv, Started, Expected;
      FireInv(View(), Reset, now, random);
      InState(View(), Reset);
      timers := timers - {Reset};
      assert state == Resetting || state == SentDiscover;
      StartProcess(state == Resetting, random, now);
    }

    method RequestTimerHandler(random: nat, now: int)
      requires Valid() && Request in timers
      modifies this
      ensures Valid() && View() == Fire(old(View()), Request, now, random).0
      ensures reports == old(reports) + Fire(old(View()), Request, now, random).1
    {
      hide CoreInv, Started, Expected;
      FireInv(View(), Request, now, random);
      InState(View(), Request);
      timers := timers - {Request};
      assert state == SentRequest && 1 <= requestCount <= MAX_REQUESTS;
      if requestCount == MAX_REQUESTS {
        StartProcess(false, random, now);
        return;
      }
      SendMessage(RequestOf(xid, offeredYiaddr, Some(offeredServer)));
      timers := timers[Request := now + REQUEST_TIMEOUT];
      requestCount := requestCount + 1;
    }

    method RenewTimerHandler(now: int)
      requires Valid() && Renew in timers
      modifies this
      ensures Valid() && View() == Fire(old(View()), Renew, now, 0).0
      ensures reports == old(reports) + Fire(old(View()), Renew, now, 0).1
    {
      hide CoreInv, Started, Expected;
      FireInv(View(), Renew, now, 0);
      InState(View(), Renew);
      timers := timers - {Renew};
      assert state == Finished;
      SendMessage(RequestOf(xid, offeredYiaddr, None));
      timers := timers[RenewRequest := now + RENEW_REQUEST_TIMEOUT];
      timers := timers[Lease := now + LeaseTimeout(ackedLease)];
      state := Renewing;
    }

    method RenewRequestTimerHandler(now: int)
      requires Valid() && RenewRequest in timers
      modifies this
      ensures Valid() && View() == Fire(old(View()), RenewRequest, now, 0).0
      ensures reports == old(reports) + Fire(old(View()), RenewRequest, now, 0).1
    {
      hide CoreInv, Started, Expected;
      FireInv(View(), RenewRequest, now, 0);
      InState(View(), RenewRequest);
      timers := timers - {RenewRequest};
      assert state == Renewing;
      SendMessage(RequestOf(xid, offeredYiaddr, None));
      timers := timers[RenewRequest := now + RENEW_REQUEST_TIMEOUT];
    }

    method LeaseTimerHandler(random: nat, now: int)
      requires Valid() && Lease in timers
      modifies this
      ensures Valid() && View() == Fire(old(View()), Lease, now, random).0
      ensures reports == old(reports) + Fire(old(View()), Lease, now, random).1
    {
      hide CoreInv, Started, Expected;
      FireInv(View(), Lease, now, random);
      InState(View(), Lease);
      timers := timers - {Lease};
      assert state == Renewing;
      timers := timers - {RenewRequest};
      StartProcess(true, random, now);
      DhcpHandler(Down);
    }
  }

  /** The state in which a running timer finds the client. */
  lemma InState(c: Core, t: Timer)
    requires CoreInv(c) && t in c.timers
    ensures match t
            case Reset => c.state == Resetting || c.state == SentDiscover
            case Request => c.state == SentRequest && 1 <= c.count <= MAX_REQUESTS
            case Renew => c.state == Finished
            case RenewRequest => c.state == Renewing
            case Lease => c.state == Renewing
  {
  }
}
