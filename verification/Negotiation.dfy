/**
  How two peers agree on who connects to whom. The master offers its bind addresses one by
  one, then the slave offers its own; whoever receives an offer connects or declines.
  */
module Negotiation {
  import opened Lists
  import opened Offers

  datatype Msg = YouConnect(number: nat, exts: seq<Ext>) | CannotConnect | CannotBind

  /**
    One side: binding and binding_addrpos, whether it asked for a relay, and the bind address
    and external address of the other side that it connected to.
    */
  datatype Side = Side(master: bool, addrs: seq<Addr>, binding: bool, pos: nat, relay: bool, connected: Option<(nat, nat)>, offers: nat)

  // ---------------------------------------------------------------- what the handlers compute

  predicate Usable(e: Ext) { e.known && e.readable }

  /** The first external address the receiver of an offer can use. */
  function FirstUsable(exts: seq<Ext>): (j: nat)
    ensures j <= |exts| && (j < |exts| ==> Usable(exts[j])) && forall k :: 0 <= k < j ==> !Usable(exts[k])
  {
    if exts == [] || Usable(exts[0]) then 0 else 1 + FirstUsable(exts[1..])
  }

  /** The address is bound, so that an offer is due. */
  predicate Bound(x: Addr) { x.exts != [] && x.binds }

  /** The next address from pos on that can be bound. */
  function NextBound(addrs: seq<Addr>, pos: nat): (i: nat)
    requires pos <= |addrs|
    ensures pos <= i <= |addrs| && (i < |addrs| ==> Bound(addrs[i])) && forall k :: pos <= k < i ==> !Bound(addrs[k])
    decreases |addrs| - pos
  {
    if pos == |addrs| || Bound(addrs[pos]) then pos else NextBound(addrs, pos + 1)
  }

  /** peer_bind */
  function Bind(s: Side): (r: (Side, seq<Msg>))
    requires s.pos <= |s.addrs|
  {
    var i := NextBound(s.addrs, s.pos);
    if i < |s.addrs| then
      if Fits(s.addrs[i]) then (s.(pos := i + 1, offers := s.offers + 1), [YouConnect(i, s.addrs[i].exts)])
      else (s.(pos := i + 1), [])
    else (s.(pos := i, binding := false, relay := s.relay || !s.master), [CannotBind])
  }

  function StartBinding(s: Side): (r: (Side, seq<Msg>)) { Bind(s.(binding := true, pos := 0)) }

  function Handle(s: Side, m: Msg): (r: (Side, seq<Msg>))
    requires s.pos <= |s.addrs|
  {
    match m
    case YouConnect(i, exts) =>
      var j := FirstUsable(exts);
      if j < |exts| then (s.(connected := Some((i, j))), []) else (s, [CannotConnect])
    case CannotConnect => if s.binding then Bind(s) else (s, [])
    case CannotBind => if !s.master then StartBinding(s) else (s.(relay := true), [])
  }

  // ---------------------------------------------------------------- the two sides together

  datatype Sys = Sys(a: Side, b: Side, toA: seq<Msg>, toB: seq<Msg>)

  function Fresh(master: bool, addrs: seq<Addr>): (s: Side) { Side(master, addrs, false, 0, false, None, 0) }

  /** Both sides have just heard of each other; a is the master and its init job has run. */
  function Start(ma: seq<Addr>, sl: seq<Addr>): (s: Sys) {
    var (a, out) := StartBinding(Fresh(true, ma));
    Sys(a, Fresh(false, sl), [], out)
  }

  predicate Good(s: Sys) { s.a.pos <= |s.a.addrs| && s.b.pos <= |s.b.addrs| }

  /** One side handles the oldest message on its way to it. */
  ghost predicate Next(s: Sys, t: Sys)
    requires Good(s)
  {
    || (s.toA != [] && var (a, out) := Handle(s.a, s.toA[0]); t == Sys(a, s.b, s.toA[1..], s.toB + out))
    || (s.toB != [] && var (b, out) := Handle(s.b, s.toB[0]); t == Sys(s.a, b, s.toA + out, s.toB[1..]))
  }

  predicate Quiet(s: Sys) { s.toA == [] && s.toB == [] }

  // ---------------------------------------------------------------- what must come out

  /** An address that is not offered, or whose offer the other side declines. */
  predicate Passed(x: Addr) { Bound(x) ==> Fits(x) && FirstUsable(x.exts) == |x.exts| }

  ghost predicate AllPassed(addrs: seq<Addr>, n: nat) { forall k :: 0 <= k < n && k < |addrs| ==> Passed(addrs[k]) }

  /** The first address that is not passed over. */
  function Decisive(addrs: seq<Addr>): (i: nat)
    ensures i <= |addrs| && AllPassed(addrs, i) && (i < |addrs| ==> !Passed(addrs[i]))
  {
    if addrs == [] || !Passed(addrs[0]) then 0
    else
      var r := Decisive(addrs[1..]);
      assert forall k :: 0 < k < r + 1 && k < |addrs| ==> addrs[k] == addrs[1..][k - 1];
      1 + r
  }

  datatype End = SlaveConnects(address: nat, ext: nat) | MasterConnects(address: nat, ext: nat) | BothRelay | Stalled

  /** The outcome, from the two lists of addresses alone. */
  function Outcome(ma: seq<Addr>, sl: seq<Addr>): (e: End) {
    var i, j := Decisive(ma), Decisive(sl);
    if i < |ma| then (if Fits(ma[i]) then SlaveConnects(i, FirstUsable(ma[i].exts)) else Stalled)
    else if j < |sl| then (if Fits(sl[j]) then MasterConnects(j, FirstUsable(sl[j].exts)) else Stalled)
    else BothRelay
  }

  ghost predicate Ends(s: Sys, e: End) {
    match e
    case SlaveConnects(i, j) => s.b.connected == Some((i, j)) && s.a.connected == None && !s.a.relay && !s.b.relay
    case MasterConnects(i, j) => s.a.connected == Some((i, j)) && s.b.connected == None && !s.a.relay && !s.b.relay
    case BothRelay => s.a.relay && s.b.relay && s.a.connected == None && s.b.connected == None
    case Stalled => !s.a.relay && !s.b.relay && s.a.connected == None && s.b.connected == None
  }

  lemma DecisiveIs(addrs: seq<Addr>, i: nat)
    requires i <= |addrs| && AllPassed(addrs, i) && (i < |addrs| ==> !Passed(addrs[i]))
    ensures Decisive(addrs) == i
  {
  }

  /** Some address of the offer is in a known scope and can be read. */
  ghost predicate Reachable(x: Addr) { exists k :: 0 <= k < |x.exts| && x.exts[k].known && x.exts[k].readable }

  /** The address comes to nothing: it has no external address, cannot be bound, or is declined. */
  ghost predicate ComesToNothing(x: Addr) { x.exts == [] || !x.binds || (Fits(x) && !Reachable(x)) }

  /** Address i is offered and ext is the first of its external addresses that the receiver can use. */
  ghost predicate ConnectsTo(addrs: seq<Addr>, i: nat, ext: nat) {
    && i < |addrs| && (forall k :: 0 <= k < i ==> ComesToNothing(addrs[k])) && addrs[i].binds && Fits(addrs[i])
    && ext < |addrs[i].exts| && addrs[i].exts[ext].known && addrs[i].exts[ext].readable
    && forall k :: 0 <= k < ext ==> !(addrs[i].exts[k].known && addrs[i].exts[k].readable)
  }

  lemma PassedIs(x: Addr)
    ensures Passed(x) <==> ComesToNothing(x)
  {
    hide Fits;
    var j := FirstUsable(x.exts);
    if j < |x.exts| {
      assert Usable(x.exts[j]);
    } else {
      forall k | 0 <= k < |x.exts| ensures !(x.exts[k].known && x.exts[k].readable) { assert !Usable(x.exts[k]); }
    }
  }

  /** What the outcome is: the addresses of the master are tried first, then those of the slave; if all come to nothing, both ask for a relay. */
  lemma OutcomeMeans(ma: seq<Addr>, sl: seq<Addr>)
    ensures match Outcome(ma, sl)
            case SlaveConnects(i, j) => ConnectsTo(ma, i, j)
            case MasterConnects(i, j) => ConnectsTo(sl, i, j) && forall k :: 0 <= k < |ma| ==> ComesToNothing(ma[k])
            case BothRelay => (forall k :: 0 <= k < |ma| ==> ComesToNothing(ma[k])) && (forall k :: 0 <= k < |sl| ==> ComesToNothing(sl[k]))
            case Stalled => exists x :: (x in ma || x in sl) && x.binds && x.exts != [] && !Fits(x)
  {
    hide Fits, ComesToNothing, Passed;
    forall x: Addr ensures Passed(x) <==> ComesToNothing(x) { PassedIs(x); }
    DecisiveMeans(ma);
    DecisiveMeans(sl);
  }

  lemma DecisiveMeans(addrs: seq<Addr>)
    ensures var i := Decisive(addrs);
            && (forall k :: 0 <= k < i ==> ComesToNothing(addrs[k]))
            && (i < |addrs| && Fits(addrs[i]) ==> ConnectsTo(addrs, i, FirstUsable(addrs[i].exts)))
            && (i < |addrs| && !Fits(addrs[i]) ==> addrs[i] in addrs && addrs[i].binds && addrs[i].exts != [])
  {
    hide Fits, ComesToNothing;
    var i := Decisive(addrs);
    forall k | 0 <= k < i ensures ComesToNothing(addrs[k]) { PassedIs(addrs[k]); }
    if i < |addrs| {
      var exts := addrs[i].exts;
      forall k | 0 <= k < FirstUsable(exts) ensures !(exts[k].known && exts[k].readable) { assert !Usable(exts[k]); }
    }
  }

  // ---------------------------------------------------------------- the invariant

  /** The side has just offered address pos - 1, and all before it were passed over. */
  ghost predicate Offering(s: Side, m: seq<Msg>) {
    && s.binding && 0 < s.pos <= |s.addrs| && AllPassed(s.addrs, s.pos - 1)
    && var x := s.addrs[s.pos - 1]; Bound(x) && Fits(x) && m == [YouConnect(s.pos - 1, x.exts)]
  }

  /** All addresses so far were passed over. */
  ghost predicate Declined(s: Side) { s.binding && s.pos <= |s.addrs| && AllPassed(s.addrs, s.pos) }

  ghost predicate GaveUp(s: Side) { !s.binding && s.pos == |s.addrs| && AllPassed(s.addrs, s.pos) }

  /** The last address was bound, but its offer was too big to be sent. */
  ghost predicate Stuck(s: Side) {
    && s.binding && 0 < s.pos <= |s.addrs| && AllPassed(s.addrs, s.pos - 1) && Bound(s.addrs[s.pos - 1]) && !Fits(s.addrs[s.pos - 1])
  }

  predicate Untouched(s: Side) { !s.binding && s.pos == 0 && s.offers == 0 }

  ghost predicate Undecided(s: Sys) {
    s.a.connected == None && s.b.connected == None && !s.a.relay
  }

  datatype Phase = MasterOffers | SlaveDeclines | SlaveTurn | SlaveOffers | MasterDeclines | MasterTurn | Finished

  ghost predicate InPhase(s: Sys, ph: Phase) {
    match ph
    case MasterOffers => Undecided(s) && !s.b.relay && s.toA == [] && Offering(s.a, s.toB) && Untouched(s.b)
    case SlaveDeclines => Undecided(s) && !s.b.relay && s.toA == [CannotConnect] && s.toB == [] && Declined(s.a) && Untouched(s.b)
    case SlaveTurn => Undecided(s) && !s.b.relay && s.toA == [] && s.toB == [CannotBind] && GaveUp(s.a) && Untouched(s.b)
    case SlaveOffers => Undecided(s) && !s.b.relay && s.toB == [] && Offering(s.b, s.toA) && GaveUp(s.a)
    case MasterDeclines => Undecided(s) && !s.b.relay && s.toA == [] && s.toB == [CannotConnect] && Declined(s.b) && GaveUp(s.a)
    case MasterTurn => Undecided(s) && s.b.relay && s.toA == [CannotBind] && s.toB == [] && GaveUp(s.a) && GaveUp(s.b)
    case Finished => Quiet(s) && Ends(s, Outcome(s.a.addrs, s.b.addrs))
  }

  ghost predicate Inv(s: Sys, ma: seq<Addr>, sl: seq<Addr>, ph: Phase) {
    && Good(s) && s.a.addrs == ma && s.b.addrs == sl && s.a.master && !s.b.master
    && s.a.offers <= s.a.pos && s.b.offers <= s.b.pos
    && InPhase(s, ph)
  }

  /** What binding leads to from a state in which everything so far was declined. */
  lemma BindCases(s: Side)
    requires s.binding && s.pos <= |s.addrs| && AllPassed(s.addrs, s.pos) && s.offers <= s.pos
    ensures var (r, out) := Bind(s);
            && r.master == s.master && r.addrs == s.addrs && r.connected == s.connected && r.pos >= s.pos && r.offers <= r.pos <= |r.addrs|
            && (|| (Offering(r, out) && r.pos > s.pos && r.relay == s.relay && r.offers == s.offers + 1)
                || (Stuck(r) && out == [] && r.pos > s.pos && r.relay == s.relay && r.offers == s.offers)
                || (GaveUp(r) && out == [CannotBind] && r.relay == (s.relay || !s.master) && r.offers == s.offers))
  {
    hide Fits, FirstUsable;
    var i := NextBound(s.addrs, s.pos);
    assert AllPassed(s.addrs, i);
  }

  /** A refusal when no address is being offered is ignored; an offer never changes what the receiver offers itself. */
  lemma StrayMessages(s: Side, i: nat, exts: seq<Ext>)
    requires s.pos <= |s.addrs|
    ensures !s.binding ==> Handle(s, CannotConnect) == (s, [])
    ensures Handle(s, YouConnect(i, exts)).0 == s.(connected := Handle(s, YouConnect(i, exts)).0.connected)
  {
  }

  /** How much can still happen. */
  ghost function Weight(ph: Phase): (w: nat) {
    match ph
    case MasterOffers => 4
    case SlaveDeclines => 3
    case SlaveTurn => 2
    case SlaveOffers => 4
    case MasterDeclines => 3
    case MasterTurn => 1
    case Finished => 0
  }

  ghost function Measure(s: Sys, ph: Phase): (m: nat)
    requires Good(s)
  {
    3 * (|s.a.addrs| - s.a.pos) + 3 * (|s.b.addrs| - s.b.pos) + Weight(ph)
  }

  lemma OfferedEnds(s: Side, out: seq<Msg>)
    requires Offering(s, out)
    ensures var x := s.addrs[s.pos - 1]; var j := FirstUsable(x.exts);
            && (j < |x.exts| ==> Decisive(s.addrs) == s.pos - 1)
            && (j == |x.exts| ==> AllPassed(s.addrs, s.pos))
  {
    var x := s.addrs[s.pos - 1];
    if FirstUsable(x.exts) < |x.exts| {
      DecisiveIs(s.addrs, s.pos - 1);
    }
  }

  lemma EndCases(s: Side)
    ensures Stuck(s) ==> Decisive(s.addrs) == s.pos - 1 && Decisive(s.addrs) < |s.addrs| && !Fits(s.addrs[Decisive(s.addrs)])
    ensures GaveUp(s) ==> Decisive(s.addrs) == |s.addrs|
  {
    if Stuck(s) {
      DecisiveIs(s.addrs, s.pos - 1);
    }
    if GaveUp(s) {
      DecisiveIs(s.addrs, |s.addrs|);
    }
  }

  /** Every step keeps the invariant and brings the end nearer. */
  lemma StepInv(s: Sys, t: Sys, ma: seq<Addr>, sl: seq<Addr>, ph: Phase) returns (ph': Phase)
    requires Inv(s, ma, sl, ph) && Next(s, t)
    ensures Inv(t, ma, sl, ph') && Measure(t, ph') < Measure(s, ph)
  {
    hide Fits, AllPassed, Passed, Bound, Bind, Decisive, FirstUsable, Outcome;
    match ph
    case MasterOffers =>
      OfferedEnds(s.a, s.toB);
      ph' := if t.b.connected.Some? then Finished else SlaveDeclines;
      OutcomeFirst(ma, sl);
    case SlaveDeclines => ph' := MasterBinds(s, t);
    case SlaveTurn => ph' := SlaveBinds(s, t, s.b.(binding := true, pos := 0));
    case SlaveOffers =>
      OfferedEnds(s.b, s.toA);
      EndCases(s.a);
      ph' := if t.a.connected.Some? then Finished else MasterDeclines;
      OutcomeSecond(ma, sl);
    case MasterDeclines => ph' := SlaveBinds(s, t, s.b);
    case MasterTurn =>
      EndCases(s.a);
      EndCases(s.b);
      OutcomeSecond(ma, sl);
      ph' := Finished;
  }

  lemma OutcomeFirst(ma: seq<Addr>, sl: seq<Addr>)
    ensures var i := Decisive(ma);
            i < |ma| ==> Outcome(ma, sl) == if Fits(ma[i]) then SlaveConnects(i, FirstUsable(ma[i].exts)) else Stalled
  {
  }

  lemma OutcomeSecond(ma: seq<Addr>, sl: seq<Addr>)
    ensures var j := Decisive(sl);
            Decisive(ma) == |ma| ==>
              Outcome(ma, sl) == if j == |sl| then BothRelay else if Fits(sl[j]) then MasterConnects(j, FirstUsable(sl[j].exts)) else Stalled
  {
  }

  lemma MasterBinds(s: Sys, t: Sys) returns (ph: Phase)
    requires Good(s) && InPhase(s, SlaveDeclines) && s.a.master && s.a.offers <= s.a.pos && Next(s, t)
    ensures Good(t) && InPhase(t, ph) && t.a.addrs == s.a.addrs && t.b == s.b && t.a.master && t.a.offers <= t.a.pos
    ensures Measure(t, ph) < Measure(s, SlaveDeclines)
  {
    hide Fits, AllPassed, Passed, Bound, Bind, Decisive, Outcome;
    BindCases(s.a);
    assert [] + Bind(s.a).1 == Bind(s.a).1;
    EndCases(t.a);
    OutcomeFirst(s.a.addrs, s.b.addrs);
    ph := if t.toB == [] then Finished else if t.toB == [CannotBind] then SlaveTurn else MasterOffers;
  }

  lemma SlaveBinds(s: Sys, t: Sys, b: Side) returns (ph: Phase)
    requires Good(s) && !s.b.master && s.b.offers <= s.b.pos
    requires (InPhase(s, MasterDeclines) && b == s.b) || (InPhase(s, SlaveTurn) && b == s.b.(binding := true, pos := 0))
    requires Next(s, t)
    ensures Good(t) && InPhase(t, ph) && t.b.addrs == s.b.addrs && t.a == s.a && !t.b.master && t.b.offers <= t.b.pos
    ensures Measure(t, ph) < Measure(s, if b == s.b then MasterDeclines else SlaveTurn)
  {
    hide Fits, AllPassed, Passed, Bound, Bind, Decisive, Outcome;
    assert AllPassed(b.addrs, 0) by { NonePassed(b.addrs); }
    BindCases(b);
    assert [] + Bind(b).1 == Bind(b).1;
    EndCases(t.b);
    EndCases(s.a);
    OutcomeSecond(s.a.addrs, s.b.addrs);
    ph := if t.toA == [] then Finished else if t.toA == [CannotBind] then MasterTurn else SlaveOffers;
  }

  lemma StartInv(ma: seq<Addr>, sl: seq<Addr>) returns (ph: Phase)
    ensures Inv(Start(ma, sl), ma, sl, ph) && Measure(Start(ma, sl), ph) <= 3 * (|ma| + |sl|) + 2
  {
    hide Fits, AllPassed, Passed, Bound, Bind, Decisive, Outcome;
    var s := Start(ma, sl);
    var begin := Fresh(true, ma).(binding := true, pos := 0);
    assert AllPassed(ma, 0) by { NonePassed(ma); }
    BindCases(begin);
    EndCases(s.a);
    OutcomeFirst(ma, sl);
    ph := if s.toB == [] then Finished else if s.toB == [CannotBind] then SlaveTurn else MasterOffers;
  }

  lemma NonePassed(addrs: seq<Addr>)
    ensures AllPassed(addrs, 0)
  {
  }

  // ---------------------------------------------------------------- whole runs

  ghost predicate IsRun(run: seq<Sys>, ma: seq<Addr>, sl: seq<Addr>) {
    && run != [] && run[0] == Start(ma, sl)
    && forall k :: 0 <= k < |run| - 1 ==> Good(run[k]) && Next(run[k], run[k + 1])
  }

  lemma {:induction false} RunInv(run: seq<Sys>, ma: seq<Addr>, sl: seq<Addr>) returns (ph: Phase)
    requires IsRun(run, ma, sl)
    ensures var s := run[|run| - 1];
            Inv(s, ma, sl, ph) && Measure(s, ph) + |run| <= 3 * (|ma| + |sl|) + 3
    decreases |run|
  {
    hide Inv, InPhase, Measure, Start, Next;
    if |run| == 1 {
      ph := StartInv(ma, sl);
      StartGood(ma, sl);
    } else {
      var front := run[..|run| - 1];
      var ph0 := RunInv(front, ma, sl);
      GoodOf(front[|front| - 1], ma, sl, ph0);
      ph := StepInv(run[|run| - 2], run[|run| - 1], ma, sl, ph0);
      GoodOf(run[|run| - 1], ma, sl, ph);
    }
  }

  lemma GoodOf(s: Sys, ma: seq<Addr>, sl: seq<Addr>, ph: Phase)
    requires Inv(s, ma, sl, ph)
    ensures Good(s)
  {
  }

  lemma StartGood(ma: seq<Addr>, sl: seq<Addr>)
    ensures Good(Start(ma, sl))
  {
  }

  /**
    Every run of a fresh pair, whatever the order of deliveries: it is short, at most one offer
    per bind address is made, and when nothing is under way any more the outcome is the one
    that the two address lists determine.
    */
  lemma Terminates(run: seq<Sys>, ma: seq<Addr>, sl: seq<Addr>)
    requires IsRun(run, ma, sl)
    ensures |run| <= 3 * (|ma| + |sl|) + 3
    ensures var s := run[|run| - 1];
            && s.a.offers + s.b.offers <= |ma| + |sl|
            && (Quiet(s) ==> Ends(s, Outcome(ma, sl)))
  {
    hide AllPassed, Outcome;
    var ph := RunInv(run, ma, sl);
  }

  /** As long as a message is under way, the run goes on. */
  lemma Continues(run: seq<Sys>, ma: seq<Addr>, sl: seq<Addr>) returns (t: Sys)
    requires IsRun(run, ma, sl) && !Quiet(run[|run| - 1])
    ensures IsRun(run + [t], ma, sl)
  {
    hide InPhase, Start, Handle;
    var ph := RunInv(run, ma, sl);
    var s := run[|run| - 1];
    if s.toA != [] {
      var (a, out) := Handle(s.a, s.toA[0]);
      t := Sys(a, s.b, s.toA[1..], s.toB + out);
    } else {
      var (b, out) := Handle(s.b, s.toB[0]);
      t := Sys(s.a, b, s.toA + out, s.toB[1..]);
    }
  }

  /** The address at which an oversized offer is reached. */
  ghost predicate Oversized(addrs: seq<Addr>, i: nat) {
    i < |addrs| && AllPassed(addrs, i) && Bound(addrs[i]) && !Fits(addrs[i])
  }

  /**
    When the negotiation ends with a connection attempt or with both sides asking for a relay:
    exactly when neither side reaches a bound address whose offer does not fit into a message.
    */
  lemma SettlesExactlyWhen(ma: seq<Addr>, sl: seq<Addr>)
    ensures Outcome(ma, sl) != Stalled <==>
            (forall i: nat :: !Oversized(ma, i)) && (AllPassed(ma, |ma|) ==> forall i: nat :: !Oversized(sl, i))
  {
    var i, j := Decisive(ma), Decisive(sl);
    forall k: nat | Oversized(ma, k) ensures k == i { DecisiveIs(ma, k); }
    forall k: nat | Oversized(sl, k) ensures k == j { DecisiveIs(sl, k); }
    if AllPassed(ma, |ma|) {
      DecisiveIs(ma, |ma|);
    }
    if Outcome(ma, sl) == Stalled {
      assert if i < |ma| then Oversized(ma, i) else Oversized(sl, j);
    }
  }

  /** What an oversized offer would do: it is not sent, and neither side does anything more. */
  lemma OversizedOfferStalls(x: Addr, rest: seq<Addr>, sl: seq<Addr>)
    requires Bound(x) && !Fits(x)
    ensures var s := Start([x] + rest, sl);
            Quiet(s) && s.a.connected == None && s.b.connected == None && !s.a.relay && !s.b.relay
    ensures Outcome([x] + rest, sl) == Stalled
  {
    hide Fits;
    DecisiveIs([x] + rest, 0);
  }

  /**
    With any addresses that the program can be configured with, a run that has nothing under way
    any more has ended with one side connecting to an address it was offered, or with both sides
    having asked for a relay.
    */
  lemma Settles(run: seq<Sys>, ma: seq<Addr>, sl: seq<Addr>)
    requires IsRun(run, ma, sl) && Quiet(run[|run| - 1])
    requires (forall k :: 0 <= k < |ma| ==> Configured(ma[k])) && (forall k :: 0 <= k < |sl| ==> Configured(sl[k]))
    ensures var s := run[|run| - 1];
            && Ends(s, Outcome(ma, sl)) && !Outcome(ma, sl).Stalled?
            && ((s.a.connected.Some? && s.b.connected == None) || (s.b.connected.Some? && s.a.connected == None)
                || (s.a.relay && s.b.relay))
  {
    hide Fits, Configured, IsRun, FirstUsable;
    Terminates(run, ma, sl);
    NeverStalls(ma, sl);
  }

  lemma NeverStalls(ma: seq<Addr>, sl: seq<Addr>)
    requires (forall k :: 0 <= k < |ma| ==> Configured(ma[k])) && (forall k :: 0 <= k < |sl| ==> Configured(sl[k]))
    ensures Outcome(ma, sl) != Stalled
  {
    hide Fits, Configured, FirstUsable;
    if Decisive(ma) < |ma| {
      ConfiguredFits(ma[Decisive(ma)]);
    } else if Decisive(sl) < |sl| {
      ConfiguredFits(sl[Decisive(sl)]);
    }
  }

  // ---------------------------------------------------------------- the program

  class PeerBinding {
    const amMaster: bool
    const bindAddrs: seq<Addr>
    var binding: bool
    var bindingAddrpos: nat
    var needRelay: bool
    var connected: Option<(nat, nat)>
    var outbox: seq<Msg>
    ghost var offers: nat

    ghost function View(): (s: Side)
      reads this
    {
      Side(amMaster, bindAddrs, binding, bindingAddrpos, needRelay, connected, offers)
    }

    constructor (amMaster: bool, bindAddrs: seq<Addr>)
      ensures View() == Fresh(amMaster, bindAddrs) && outbox == []
    {
      this.amMaster, this.bindAddrs := amMaster, bindAddrs;
      binding, bindingAddrpos, needRelay, connected, outbox, offers := false, 0, false, None, [], 0;
    }

    /** peer_bind with peer_bind_one_address; an offer that does not fit is silently not sent. */
    method PeerBind()
      requires binding && bindingAddrpos <= |bindAddrs|
      modifies this
      ensures View() == Bind(old(View())).0 && outbox == old(outbox) + Bind(old(View())).1
    {
      while bindingAddrpos < |bindAddrs|
        invariant bindingAddrpos <= |bindAddrs| && View() == old(View()).(pos := bindingAddrpos) && outbox == old(outbox)
        invariant NextBound(bindAddrs, bindingAddrpos) == old(NextBound(bindAddrs, bindingAddrpos))
      {
        var x := bindAddrs[bindingAddrpos];
        bindingAddrpos := bindingAddrpos + 1;
        if |x.exts| == 0 {
          continue;
        }
        if x.binds {
          var fits := FitsMessage(x);
          if fits {
            outbox := outbox + [YouConnect(bindingAddrpos - 1, x.exts)];
            offers := offers + 1;
          }
          return;
        }
      }
      binding := false;
      outbox := outbox + [CannotBind];
      if !amMaster {
        needRelay := true;
      }
    }

    method PeerStartBinding()
      modifies this
      ensures View() == StartBinding(old(View())).0 && outbox == old(outbox) + StartBinding(old(View())).1
    {
      binding := true;
      bindingAddrpos := 0;
      PeerBind();
    }

    /** peer_msg_youconnect: the loop over the offered addresses. */
    method PeerMsgYouconnect(number: nat, exts: seq<Ext>)
      requires bindingAddrpos <= |bindAddrs|
      modifies this
      ensures View() == Handle(old(View()), YouConnect(number, exts)).0
      ensures outbox == old(outbox) + Handle(old(View()), YouConnect(number, exts)).1
    {
      var j := 0;
      while true
        invariant j <= |exts| && forall k :: 0 <= k < j ==> !Usable(exts[k])
        decreases |exts| - j
      {
        if j == |exts| {
          outbox := outbox + [CannotConnect];
          return;
        }
        if exts[j].known && exts[j].readable {
          break;
        }
        j := j + 1;
      }
      connected := Some((number, j));
    }

    method PeerMsgCannotconnect()
      requires bindingAddrpos <= |bindAddrs|
      modifies this
      ensures View() == Handle(old(View()), CannotConnect).0 && outbox == old(outbox) + Handle(old(View()), CannotConnect).1
    {
      if !binding {
        return;
      }
      PeerBind();
    }

    method PeerMsgCannotbind()
      requires bindingAddrpos <= |bindAddrs|
      modifies this
      ensures View() == Handle(old(View()), CannotBind).0 && outbox == old(outbox) + Handle(old(View()), CannotBind).1
    {
      if !amMaster {
        PeerStartBinding();
      } else {
        needRelay := true;
      }
    }
  }
}
