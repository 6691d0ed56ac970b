/**
  Flows and sinks of DataProto. A flow owns a buffer; attaching the flow to a sink connects
  its buffer, but a buffer that is busy sending can only leave its sink later. Sinks, flows and
  buffers are numbered; the maps are the fields of the live ones.
  */
module DataFlows {
  import opened Lists

  type Flow = nat
  type Buffer = nat
  type Sink = nat

  /**
    desired, buffer: sink_desired and b of each flow; flow, sink: of each buffer; detaching:
    detaching_buffer of each sink; busy: the buffers whose queue flow is busy; freed: the
    buffers freed so far; next: the number of the next buffer to be allocated.
    */
  datatype State = State(desired: map<Flow, Option<Sink>>, buffer: map<Flow, Buffer>,
                         flow: map<Buffer, Option<Flow>>, sink: map<Buffer, Option<Sink>>,
                         detaching: map<Sink, Option<Buffer>>, busy: set<Buffer>, freed: seq<Buffer>, next: nat)

  const Empty: State := State(map[], map[], map[], map[], map[], {}, [], 0)

  // ---------------------------------------------------------------- the invariant

  /** Every flow owns one live buffer, and that buffer knows it. */
  ghost predicate Owned(flows: set<Flow>, buffer: map<Flow, Buffer>, flow: map<Buffer, Option<Flow>>) {
    && flows == buffer.Keys
    && (forall f :: f in buffer ==> buffer[f] in flow && flow[buffer[f]] == Some(f))
    && (forall b :: b in flow && flow[b].Some? ==> flow[b].value in buffer && buffer[flow[b].value] == b)
  }

  /** Only live sinks are referred to. */
  ghost predicate SinksLive(desired: map<Flow, Option<Sink>>, sink: map<Buffer, Option<Sink>>, live: set<Sink>) {
    && (forall b :: b in sink && sink[b].Some? ==> sink[b].value in live)
    && (forall f :: f in desired && desired[f].Some? ==> desired[f].value in live)
  }

  /** At most one busy buffer in each queue. */
  ghost predicate BusyOk(busy: set<Buffer>, sink: map<Buffer, Option<Sink>>) {
    && (forall b :: b in busy ==> b in sink && sink[b].Some?)
    && (forall b, c :: b in busy && c in busy && sink[b] == sink[c] ==> b == c)
  }

  /** The sink that buffer b should be connected to. */
  ghost function Goal(desired: map<Flow, Option<Sink>>, flow: map<Buffer, Option<Flow>>, b: Buffer): (k: Option<Sink>) {
    if b in flow && flow[b].Some? && flow[b].value in desired then desired[flow[b].value] else None
  }

  ghost predicate IsDetaching(detaching: map<Sink, Option<Buffer>>, k: Option<Sink>, b: Buffer) {
    k.Some? && k.value in detaching && detaching[k.value] == Some(b)
  }

  /** Buffer b is where it should be, or it is its sink's detaching buffer; without a flow it is the latter. */
  ghost predicate Placed(desired: map<Flow, Option<Sink>>, flow: map<Buffer, Option<Flow>>, sink: map<Buffer, Option<Sink>>,
                         detaching: map<Sink, Option<Buffer>>, b: Buffer) {
    && b in sink && b in flow && (flow[b] == None ==> sink[b].Some?)
    && (sink[b] == Goal(desired, flow, b) || IsDetaching(detaching, sink[b], b))
  }

  ghost predicate AllPlaced(desired: map<Flow, Option<Sink>>, flow: map<Buffer, Option<Flow>>, sink: map<Buffer, Option<Sink>>,
                            detaching: map<Sink, Option<Buffer>>) {
    flow.Keys == sink.Keys && forall b :: b in sink ==> Placed(desired, flow, sink, detaching, b)
  }

  /** A sink's detaching buffer is connected to it and busy (except the one being let go). */
  ghost predicate DetachingOk(detaching: map<Sink, Option<Buffer>>, sink: map<Buffer, Option<Sink>>, busy: set<Buffer>, leaving: Option<Buffer>) {
    forall k :: k in detaching && detaching[k].Some? ==>
      && detaching[k].value in sink && sink[detaching[k].value] == Some(k)
      && (detaching[k].value in busy || leaving == detaching[k])
  }

  /** Each buffer ever allocated is either live or was freed, once. */
  ghost predicate FreedOnce(live: set<Buffer>, freed: seq<Buffer>, next: nat) {
    && NoDuplicates(freed)
    && (forall b: Buffer :: b < next <==> b in live || b in freed)
    && (forall b :: b in freed ==> b !in live)
  }

  ghost predicate InvBut(s: State, leaving: Option<Buffer>) {
    && Owned(s.desired.Keys, s.buffer, s.flow) && SinksLive(s.desired, s.sink, s.detaching.Keys) && BusyOk(s.busy, s.sink)
    && AllPlaced(s.desired, s.flow, s.sink, s.detaching) && DetachingOk(s.detaching, s.sink, s.busy, leaving)
    && FreedOnce(s.flow.Keys, s.freed, s.next)
  }

  ghost predicate Inv(s: State) { InvBut(s, None) }

  // ---------------------------------------------------------------- buffers

  /** flow_buffer_attach */
  function BufferAttach(s: State, b: Buffer, k: Sink): (r: State) { s.(sink := s.sink[b := Some(k)]) }

  /** flow_buffer_detach */
  function BufferDetach(s: State, b: Buffer): (r: State)
    requires b in s.sink && s.sink[b].Some? && s.sink[b].value in s.detaching
  {
    var k := s.sink[b].value;
    s.(detaching := if s.detaching[k] == Some(b) then s.detaching[k := None] else s.detaching, sink := s.sink[b := None])
  }

  /** flow_buffer_free */
  function BufferFree(s: State, b: Buffer): (r: State) {
    s.(flow := s.flow - {b}, sink := s.sink - {b}, freed := s.freed + [b])
  }

  /** flow_buffer_schedule_detach */
  function ScheduleDetach(s: State, b: Buffer): (r: State)
    requires b in s.sink && s.sink[b].Some?
  {
    s.(detaching := s.detaching[s.sink[b].value := Some(b)])
  }

  /** Buffer b is live, in a live sink, and its flow, if it has one, is live. */
  predicate Connected(s: State, b: Buffer) {
    && b in s.sink && s.sink[b].Some? && s.sink[b].value in s.detaching
    && b in s.flow && (s.flow[b].Some? ==> s.flow[b].value in s.desired)
  }

  /** flow_buffer_finish_detach */
  function FinishDetach(s: State, b: Buffer): (r: State)
    requires Connected(s, b)
  {
    var s1 := BufferDetach(s, b);
    if s.flow[b] == None then BufferFree(s1, b)
    else
      match s.desired[s.flow[b].value]
      case Some(k) => BufferAttach(s1, b, k)
      case None => s1
  }

  // ---------------------------------------------------------------- operations

  /** DataProtoFlow_Init, with a new buffer */
  function FlowInit(s: State, f: Flow): (r: State) {
    s.(desired := s.desired[f := None], buffer := s.buffer[f := s.next],
       flow := s.flow[s.next := Some(f)], sink := s.sink[s.next := None], next := s.next + 1)
  }

  function Forget(s: State, f: Flow): (r: State) { s.(desired := s.desired - {f}, buffer := s.buffer - {f}) }

  ghost predicate FlowOk(s: State, f: Flow) {
    f in s.desired && f in s.buffer && s.buffer[f] in s.flow && s.buffer[f] in s.sink
    && (s.sink[s.buffer[f]].Some? ==> s.sink[s.buffer[f]].value in s.detaching)
  }

  /** DataProtoFlow_Free */
  ghost function FlowFree(s: State, f: Flow): (r: State)
    requires FlowOk(s, f)
  {
    var b := s.buffer[f];
    Forget(if s.sink[b].Some? then
             if b in s.busy then ScheduleDetach(s, b).(flow := s.flow[b := None]) else BufferFree(BufferDetach(s, b), b)
           else BufferFree(s, b), f)
  }

  /** DataProtoFlow_Attach */
  ghost function Attach(s: State, f: Flow, k: Sink): (r: State)
    requires FlowOk(s, f)
  {
    var b := s.buffer[f];
    var s1 := if s.sink[b].Some? then
                if b in s.busy then ScheduleDetach(s, b) else BufferAttach(BufferDetach(s, b), b, k)
              else BufferAttach(s, b, k);
    s1.(desired := s1.desired[f := Some(k)])
  }

  /** DataProtoFlow_Detach */
  ghost function Detach(s: State, f: Flow): (r: State)
    requires FlowOk(s, f) && s.sink[s.buffer[f]].Some?
  {
    var b := s.buffer[f];
    var s1 := if b in s.busy then ScheduleDetach(s, b) else BufferDetach(s, b);
    s1.(desired := s1.desired[f := None])
  }

  /** DataProtoSink_Init */
  function SinkInit(s: State, k: Sink): (r: State) { s.(detaching := s.detaching[k := None]) }

  /** PacketPassFairQueue_PrepareFree: no queue flow of k is busy any more. */
  ghost function PrepareFree(s: State, k: Sink): (r: State) {
    s.(busy := set b | b in s.busy && !(b in s.sink && s.sink[b] == Some(k)))
  }

  /** DataProtoSink_Free */
  ghost function SinkFree(s: State, k: Sink): (r: State)
    requires k in s.detaching
    requires s.detaching[k].Some? ==> Connected(s, s.detaching[k].value)
  {
    var s0 := PrepareFree(s, k);
    var s1 := if s.detaching[k].Some? then FinishDetach(s0, s.detaching[k].value) else s0;
    s1.(detaching := s1.detaching - {k})
  }

  /** The queue of the buffer's sink starts sending one of its packets. */
  function StartBusy(s: State, b: Buffer): (r: State) { s.(busy := s.busy + {b}) }

  /** The queue is done with the buffer; flow_buffer_qflow_handler_busy if that was awaited. */
  ghost function BusyDone(s: State, b: Buffer): (r: State)
    requires Connected(s, b)
  {
    var s0 := s.(busy := s.busy - {b});
    if s.detaching[s.sink[b].value] == Some(b) then FinishDetach(s0, b) else s0
  }

  // ---------------------------------------------------------------- every operation keeps the invariant

  /** What the invariant says about a flow's buffer. */
  lemma BufferOf(s: State, f: Flow)
    requires Inv(s) && f in s.desired
    ensures FlowOk(s, f) && s.flow[s.buffer[f]] == Some(f) && (s.desired[f].Some? ==> s.desired[f].value in s.detaching)
    ensures var b := s.buffer[f]; var k := s.sink[b];
            && (s.desired[f].Some? ==> k.Some?)
            && (k.Some? && s.desired[f] == None ==> b in s.busy && s.detaching[k.value] == Some(b))
            && (k.Some? && b in s.busy ==> s.detaching[k.value] == None || s.detaching[k.value] == Some(b))
            && (k.Some? && b !in s.busy ==> s.detaching[k.value] != Some(b))
            && (k == None ==> b !in s.busy)
  {
    var b := s.buffer[f];
    assert Placed(s.desired, s.flow, s.sink, s.detaching, b);
    hide FreedOnce;
  }

  lemma NewBuffer(s: State)
    requires Inv(s)
    ensures s.next !in s.flow && s.next !in s.sink && s.next !in s.busy
  {
    hide Owned, SinksLive, DetachingOk;
  }

  lemma FlowInitInv(s: State, f: Flow)
    requires Inv(s) && f !in s.desired
    ensures Inv(FlowInit(s, f))
  {
    hide Owned, SinksLive, BusyOk, AllPlaced, DetachingOk, FreedOnce;
    NewBuffer(s);
    var b, r := s.next, FlowInit(s, f);
    assert r.desired.Keys == s.desired.Keys + {f} && r.flow.Keys == s.flow.Keys + {b};
    OwnedNew(s.desired.Keys, s.buffer, s.flow, f, b);
    LiveSink(s.desired, s.sink, s.detaching.Keys, b, None);
    LiveDesired(s.desired, r.sink, s.detaching.Keys, f, None);
    BusySink(s.busy, s.sink, b, None);
    PlacedNew(s.desired, s.buffer, s.flow, s.sink, s.detaching, f, b);
    DetachingSink(s.detaching, s.sink, s.busy, None, b, None);
    FreedNew(s.flow.Keys, s.freed, s.next);
  }

  lemma AttachInv(s: State, f: Flow, k: Sink)
    requires Inv(s) && f in s.desired && s.desired[f] == None && k in s.detaching
    ensures FlowOk(s, f) && Inv(Attach(s, f, k))
  {
    BufferOf(s, f);
    hide Owned, SinksLive, BusyOk, AllPlaced, DetachingOk, FreedOnce;
    var r, b := Attach(s, f, k), s.buffer[f];
    assert r.desired.Keys == s.desired.Keys && r.detaching == s.detaching;
    LiveDesired(s.desired, s.sink, s.detaching.Keys, f, Some(k));
    if s.sink[b] == None {
      LiveSink(r.desired, s.sink, s.detaching.Keys, b, Some(k));
      BusySink(s.busy, s.sink, b, Some(k));
      DetachingSink(s.detaching, s.sink, s.busy, None, b, Some(k));
    }
    PlacedDesired(s.desired, s.buffer, s.flow, s.sink, s.detaching, f, Some(k), r.sink, r.detaching);
  }

  lemma DetachInv(s: State, f: Flow)
    requires Inv(s) && f in s.desired && s.desired[f].Some?
    ensures FlowOk(s, f) && s.sink[s.buffer[f]].Some? && Inv(Detach(s, f))
  {
    BufferOf(s, f);
    hide Owned, SinksLive, BusyOk, AllPlaced, DetachingOk, FreedOnce;
    var r, b := Detach(s, f), s.buffer[f];
    var k := s.sink[b].value;
    assert r.desired.Keys == s.desired.Keys && r.detaching.Keys == s.detaching.Keys;
    LiveDesired(s.desired, s.sink, s.detaching.Keys, f, None);
    if b in s.busy {
      DetachingMark(s.detaching, s.sink, s.busy, b, k);
    } else {
      LiveSink(r.desired, s.sink, s.detaching.Keys, b, None);
      BusySink(s.busy, s.sink, b, None);
      DetachingSink(s.detaching, s.sink, s.busy, None, b, None);
    }
    PlacedDesired(s.desired, s.buffer, s.flow, s.sink, s.detaching, f, None, r.sink, r.detaching);
  }

  lemma FlowFreeInv(s: State, f: Flow)
    requires Inv(s) && f in s.desired && s.desired[f] == None
    ensures FlowOk(s, f) && Inv(FlowFree(s, f))
  {
    BufferOf(s, f);
    hide Owned, SinksLive, BusyOk, AllPlaced, DetachingOk, FreedOnce;
    var r, b := FlowFree(s, f), s.buffer[f];
    assert r.desired.Keys == s.desired.Keys - {f} && r.detaching == s.detaching;
    LiveForget(s.desired, s.sink, s.detaching.Keys, f);
    if s.sink[b].Some? {
      OwnedOrphan(s.desired.Keys, s.buffer, s.flow, f);
      PlacedOrphan(s.desired, s.buffer, s.flow, s.sink, s.detaching, f);
      assert r.flow.Keys == s.flow.Keys;
    } else {
      OwnedFreed(s.desired.Keys, s.buffer, s.flow, f);
      LiveDrop(r.desired, s.sink, s.detaching.Keys, b);
      BusyDrop(s.busy, s.sink, b);
      PlacedFreed(s.desired, s.buffer, s.flow, s.sink, s.detaching, f);
      DetachingDrop(s.detaching, s.sink, s.busy, None, b);
      FreedMore(s.flow.Keys, s.freed, s.next, b);
      assert r.flow.Keys == s.flow.Keys - {b};
    }
  }

  lemma SinkInitInv(s: State, k: Sink)
    requires Inv(s) && k !in s.detaching
    ensures Inv(SinkInit(s, k))
  {
    hide Owned, BusyOk, FreedOnce;
    var r := SinkInit(s, k);
    forall c | c in r.sink ensures Placed(r.desired, r.flow, r.sink, r.detaching, c) { assert Placed(s.desired, s.flow, s.sink, s.detaching, c); }
  }

  lemma StartBusyInv(s: State, b: Buffer)
    requires Inv(s) && b in s.sink && s.sink[b].Some? && forall c :: c in s.busy ==> s.sink[c] != s.sink[b]
    ensures Inv(StartBusy(s, b))
  {
    hide Owned, SinksLive, AllPlaced, FreedOnce;
  }

  /** Letting go of the detaching buffer: it is freed if its flow is gone, else goes where its flow wants it. */
  lemma FinishDetachInv(s: State, b: Buffer)
    requires InvBut(s, Some(b)) && b !in s.busy && b in s.sink && IsDetaching(s.detaching, s.sink[b], b)
    ensures b in s.flow && (s.flow[b].Some? ==> s.flow[b].value in s.desired)
    ensures Inv(FinishDetach(s, b)) && FinishDetach(s, b).detaching == s.detaching[s.sink[b].value := None]
    ensures b in FinishDetach(s, b).sink ==> FinishDetach(s, b).sink[b] == Goal(s.desired, s.flow, b)
  {
    hide Owned, SinksLive, BusyOk, AllPlaced, DetachingOk, FreedOnce, FinishDetach;
    FlowOf(s, b);
    FinishEffect(s, b);
    var r, k := FinishDetach(s, b), s.sink[b].value;
    DetachingDone(s.detaching, s.sink, s.busy, b, k);
    if s.flow[b] == None {
      FinishFree(s, b, k, r);
    } else {
      FinishMove(s, b, k, r);
    }
  }

  lemma FinishEffect(s: State, b: Buffer)
    requires b in s.sink && IsDetaching(s.detaching, s.sink[b], b) && b in s.flow && (s.flow[b].Some? ==> s.flow[b].value in s.desired)
    ensures var r := FinishDetach(s, b);
            && r.detaching == s.detaching[s.sink[b].value := None] && r.desired == s.desired && r.buffer == s.buffer
            && r.busy == s.busy && r.next == s.next
            && (s.flow[b] == None ==> r.flow == s.flow - {b} && r.sink == s.sink - {b} && r.freed == s.freed + [b])
            && (s.flow[b].Some? ==> r.flow == s.flow && r.sink == s.sink[b := Goal(s.desired, s.flow, b)] && r.freed == s.freed)
  {
    assert s.sink[b := None] - {b} == s.sink - {b};
  }

  lemma FinishFree(s: State, b: Buffer, k: Sink, r: State)
    requires InvBut(s, Some(b)) && b !in s.busy && b in s.sink && IsDetaching(s.detaching, Some(k), b) && b in s.flow && s.flow[b] == None
    requires r == s.(detaching := s.detaching[k := None], flow := s.flow - {b}, sink := s.sink - {b}, freed := s.freed + [b])
    requires DetachingOk(r.detaching, s.sink, s.busy, None)
    ensures Inv(r)
  {
    hide Owned, SinksLive, BusyOk, AllPlaced, DetachingOk, FreedOnce;
    assert r.detaching.Keys == s.detaching.Keys && r.flow.Keys == s.flow.Keys - {b};
    OwnedDrop(s.desired.Keys, s.buffer, s.flow, b);
    LiveDrop(s.desired, s.sink, s.detaching.Keys, b);
    BusyDrop(s.busy, s.sink, b);
    DetachingDrop(r.detaching, s.sink, s.busy, None, b);
    FreedMore(s.flow.Keys, s.freed, s.next, b);
    PlacedDropped(s.desired, s.flow, s.sink, s.detaching, b, k);
  }

  lemma FinishMove(s: State, b: Buffer, k: Sink, r: State)
    requires InvBut(s, Some(b)) && b !in s.busy && b in s.sink && IsDetaching(s.detaching, Some(k), b) && b in s.flow && s.flow[b].Some?
    requires r == s.(detaching := s.detaching[k := None], sink := s.sink[b := Goal(s.desired, s.flow, b)])
    requires DetachingOk(r.detaching, s.sink, s.busy, None)
    ensures Inv(r)
  {
    hide Owned, SinksLive, BusyOk, AllPlaced, DetachingOk, FreedOnce, Goal;
    assert r.detaching.Keys == s.detaching.Keys;
    var goal := Goal(s.desired, s.flow, b);
    GoalLive(s.desired, s.flow, s.sink, s.detaching.Keys, b);
    LiveSink(s.desired, s.sink, s.detaching.Keys, b, goal);
    BusySink(s.busy, s.sink, b, goal);
    DetachingSink(r.detaching, s.sink, s.busy, None, b, goal);
    PlacedMoved(s.desired, s.flow, s.sink, s.detaching, b, k);
  }

  lemma FlowOf(s: State, b: Buffer)
    requires Owned(s.desired.Keys, s.buffer, s.flow) && AllPlaced(s.desired, s.flow, s.sink, s.detaching) && b in s.sink
    ensures b in s.flow && (s.flow[b].Some? ==> s.flow[b].value in s.desired)
  {
  }

  lemma BusyDoneInv(s: State, b: Buffer)
    requires Inv(s) && b in s.busy
    ensures Connected(s, b) && Inv(BusyDone(s, b))
  {
    FlowOf(s, b);
    hide Owned, AllPlaced, FreedOnce, FinishDetach;
    var s0 := s.(busy := s.busy - {b});
    if s.detaching[s.sink[b].value] == Some(b) {
      FinishDetachInv(s0, b);
    }
  }

  /** What freeing a sink finds: every buffer in it is its detaching buffer, wanted elsewhere or by nobody. */
  lemma SinkFreeParts(s: State, k: Sink)
    requires Inv(s) && k in s.detaching && forall f :: f in s.desired ==> s.desired[f] != Some(k)
    ensures forall c :: c in s.sink && s.sink[c] == Some(k) ==> s.detaching[k] == Some(c)
    ensures s.detaching[k].Some? ==>
      var b := s.detaching[k].value;
      && b in s.sink && s.sink[b] == Some(k) && b in s.flow && (s.flow[b].Some? ==> s.flow[b].value in s.desired)
      && Goal(s.desired, s.flow, b) != Some(k) && b !in PrepareFree(s, k).busy
    ensures InvBut(PrepareFree(s, k), s.detaching[k])
  {
    hide FreedOnce, Owned;
    forall c | c in s.sink && s.sink[c] == Some(k) ensures s.detaching[k] == Some(c) {
      assert Placed(s.desired, s.flow, s.sink, s.detaching, c);
    }
    if s.detaching[k].Some? {
      FlowOf(s, s.detaching[k].value);
    }
  }

  /** No buffer is left in a sink that is freed. */
  lemma SinkFreeInv(s: State, k: Sink)
    requires Inv(s) && k in s.detaching && forall f :: f in s.desired ==> s.desired[f] != Some(k)
    ensures s.detaching[k].Some? ==> Connected(s, s.detaching[k].value)
    ensures Inv(SinkFree(s, k)) && k !in SinkFree(s, k).detaching && SinkFree(s, k).desired == s.desired
    ensures forall b :: b in SinkFree(s, k).sink ==> SinkFree(s, k).sink[b] != Some(k)
  {
    hide Inv, InvBut, Goal, FinishDetach;
    SinkFreeParts(s, k);
    var s0 := PrepareFree(s, k);
    if s.detaching[k].Some? {
      var b := s.detaching[k].value;
      FinishDetachInv(s0, b);
      FinishEffect(s0, b);
      SinkDropped(FinishDetach(s0, b), k);
    } else {
      NotLeaving(s0);
      SinkDropped(s0, k);
    }
  }

  lemma NotLeaving(s: State)
    requires InvBut(s, None)
    ensures Inv(s)
  {
  }

  lemma SinkDropped(s: State, k: Sink)
    requires Inv(s) && k in s.detaching
    requires (forall b :: b in s.sink ==> s.sink[b] != Some(k)) && forall f :: f in s.desired ==> s.desired[f] != Some(k)
    ensures Inv(s.(detaching := s.detaching - {k}))
  {
    hide Owned, BusyOk, FreedOnce;
    var r := s.(detaching := s.detaching - {k});
    forall c | c in r.sink ensures Placed(r.desired, r.flow, r.sink, r.detaching, c) { assert Placed(s.desired, s.flow, s.sink, s.detaching, c); }
  }

  // ---------------------------------------------------------------- one part of the invariant at a time

  lemma OwnedNew(flows: set<Flow>, buffer: map<Flow, Buffer>, flow: map<Buffer, Option<Flow>>, f: Flow, b: Buffer)
    requires Owned(flows, buffer, flow) && f !in flows && b !in flow
    ensures Owned(flows + {f}, buffer[f := b], flow[b := Some(f)])
  {
  }

  lemma OwnedOrphan(flows: set<Flow>, buffer: map<Flow, Buffer>, flow: map<Buffer, Option<Flow>>, f: Flow)
    requires Owned(flows, buffer, flow) && f in buffer
    ensures Owned(flows - {f}, buffer - {f}, flow[buffer[f] := None])
  {
  }

  lemma OwnedFreed(flows: set<Flow>, buffer: map<Flow, Buffer>, flow: map<Buffer, Option<Flow>>, f: Flow)
    requires Owned(flows, buffer, flow) && f in buffer
    ensures Owned(flows - {f}, buffer - {f}, flow - {buffer[f]})
  {
  }

  lemma OwnedDrop(flows: set<Flow>, buffer: map<Flow, Buffer>, flow: map<Buffer, Option<Flow>>, b: Buffer)
    requires Owned(flows, buffer, flow) && b in flow && flow[b] == None
    ensures Owned(flows, buffer, flow - {b})
  {
  }

  lemma LiveSink(desired: map<Flow, Option<Sink>>, sink: map<Buffer, Option<Sink>>, live: set<Sink>, b: Buffer, k: Option<Sink>)
    requires SinksLive(desired, sink, live) && (k.Some? ==> k.value in live)
    ensures SinksLive(desired, sink[b := k], live)
  {
  }

  lemma LiveDesired(desired: map<Flow, Option<Sink>>, sink: map<Buffer, Option<Sink>>, live: set<Sink>, f: Flow, k: Option<Sink>)
    requires SinksLive(desired, sink, live) && (k.Some? ==> k.value in live)
    ensures SinksLive(desired[f := k], sink, live)
  {
  }

  lemma LiveForget(desired: map<Flow, Option<Sink>>, sink: map<Buffer, Option<Sink>>, live: set<Sink>, f: Flow)
    requires SinksLive(desired, sink, live)
    ensures SinksLive(desired - {f}, sink, live)
  {
  }

  lemma LiveDrop(desired: map<Flow, Option<Sink>>, sink: map<Buffer, Option<Sink>>, live: set<Sink>, b: Buffer)
    requires SinksLive(desired, sink, live)
    ensures SinksLive(desired, sink - {b}, live)
  {
  }

  lemma GoalLive(desired: map<Flow, Option<Sink>>, flow: map<Buffer, Option<Flow>>, sink: map<Buffer, Option<Sink>>, live: set<Sink>, b: Buffer)
    requires SinksLive(desired, sink, live)
    ensures Goal(desired, flow, b).Some? ==> Goal(desired, flow, b).value in live
  {
  }

  lemma BusySink(busy: set<Buffer>, sink: map<Buffer, Option<Sink>>, b: Buffer, k: Option<Sink>)
    requires BusyOk(busy, sink) && b !in busy
    ensures BusyOk(busy, sink[b := k])
  {
  }

  lemma BusyDrop(busy: set<Buffer>, sink: map<Buffer, Option<Sink>>, b: Buffer)
    requires BusyOk(busy, sink) && b !in busy
    ensures BusyOk(busy, sink - {b})
  {
  }

  lemma DetachingSink(detaching: map<Sink, Option<Buffer>>, sink: map<Buffer, Option<Sink>>, busy: set<Buffer>, leaving: Option<Buffer>,
                      b: Buffer, k: Option<Sink>)
    requires DetachingOk(detaching, sink, busy, leaving) && b !in busy && leaving != Some(b)
    ensures DetachingOk(detaching, sink[b := k], busy, leaving)
  {
  }

  lemma DetachingDrop(detaching: map<Sink, Option<Buffer>>, sink: map<Buffer, Option<Sink>>, busy: set<Buffer>, leaving: Option<Buffer>, b: Buffer)
    requires DetachingOk(detaching, sink, busy, leaving) && b !in busy && leaving != Some(b)
    ensures DetachingOk(detaching, sink - {b}, busy, leaving)
  {
  }

  lemma DetachingMark(detaching: map<Sink, Option<Buffer>>, sink: map<Buffer, Option<Sink>>, busy: set<Buffer>, b: Buffer, k: Sink)
    requires DetachingOk(detaching, sink, busy, None) && b in busy && b in sink && sink[b] == Some(k)
    ensures DetachingOk(detaching[k := Some(b)], sink, busy, None)
  {
  }

  lemma DetachingDone(detaching: map<Sink, Option<Buffer>>, sink: map<Buffer, Option<Sink>>, busy: set<Buffer>, b: Buffer, k: Sink)
    requires DetachingOk(detaching, sink, busy, Some(b)) && b in sink && sink[b] == Some(k)
    ensures DetachingOk(detaching[k := None], sink, busy, None)
  {
  }

  lemma FreedNew(live: set<Buffer>, freed: seq<Buffer>, next: nat)
    requires FreedOnce(live, freed, next)
    ensures FreedOnce(live + {next}, freed, next + 1)
  {
    assert next !in freed;
  }

  lemma FreedMore(live: set<Buffer>, freed: seq<Buffer>, next: nat, b: Buffer)
    requires FreedOnce(live, freed, next) && b in live
    ensures FreedOnce(live - {b}, freed + [b], next)
  {
    assert b !in freed;
  }

  lemma PlacedNew(desired: map<Flow, Option<Sink>>, buffer: map<Flow, Buffer>, flow: map<Buffer, Option<Flow>>, sink: map<Buffer, Option<Sink>>,
                  detaching: map<Sink, Option<Buffer>>, f: Flow, b: Buffer)
    requires AllPlaced(desired, flow, sink, detaching) && Owned(desired.Keys, buffer, flow) && f !in desired && b !in sink
    ensures AllPlaced(desired[f := None], flow[b := Some(f)], sink[b := None], detaching)
  {
    forall c | c in sink ensures Placed(desired[f := None], flow[b := Some(f)], sink[b := None], detaching, c) {
      assert Placed(desired, flow, sink, detaching, c);
    }
  }

  /** A flow changes its mind: its buffer follows at once, or is the detaching buffer of its sink. */
  lemma PlacedDesired(desired: map<Flow, Option<Sink>>, buffer: map<Flow, Buffer>, flow: map<Buffer, Option<Flow>>, sink: map<Buffer, Option<Sink>>,
                      detaching: map<Sink, Option<Buffer>>, f: Flow, k: Option<Sink>,
                      sink': map<Buffer, Option<Sink>>, detaching': map<Sink, Option<Buffer>>)
    requires AllPlaced(desired, flow, sink, detaching) && Owned(desired.Keys, buffer, flow) && f in buffer
    requires var b := buffer[f];
             && b in sink && (sink' == sink || sink' == sink[b := k])
             && (sink'[b] == k || IsDetaching(detaching', sink'[b], b))
             && (detaching' == detaching
                 || (sink[b].Some? && sink[b].value in detaching && (detaching[sink[b].value] == None || detaching[sink[b].value] == Some(b))
                     && detaching' == detaching[sink[b].value := Some(b)]))
    ensures AllPlaced(desired[f := k], flow, sink', detaching')
  {
    forall c | c in sink' ensures Placed(desired[f := k], flow, sink', detaching', c) {
      assert Placed(desired, flow, sink, detaching, c);
    }
  }

  lemma PlacedOrphan(desired: map<Flow, Option<Sink>>, buffer: map<Flow, Buffer>, flow: map<Buffer, Option<Flow>>, sink: map<Buffer, Option<Sink>>,
                     detaching: map<Sink, Option<Buffer>>, f: Flow)
    requires AllPlaced(desired, flow, sink, detaching) && Owned(desired.Keys, buffer, flow) && f in buffer
    requires buffer[f] in sink && IsDetaching(detaching, sink[buffer[f]], buffer[f])
    ensures AllPlaced(desired - {f}, flow[buffer[f] := None], sink, detaching)
  {
    forall c | c in sink ensures Placed(desired - {f}, flow[buffer[f] := None], sink, detaching, c) {
      assert Placed(desired, flow, sink, detaching, c);
    }
  }

  lemma PlacedFreed(desired: map<Flow, Option<Sink>>, buffer: map<Flow, Buffer>, flow: map<Buffer, Option<Flow>>, sink: map<Buffer, Option<Sink>>,
                    detaching: map<Sink, Option<Buffer>>, f: Flow)
    requires AllPlaced(desired, flow, sink, detaching) && Owned(desired.Keys, buffer, flow) && f in buffer
    ensures AllPlaced(desired - {f}, flow - {buffer[f]}, sink - {buffer[f]}, detaching)
  {
    var b := buffer[f];
    forall c | c in sink - {b} ensures Placed(desired - {f}, flow - {b}, sink - {b}, detaching, c) {
      assert Placed(desired, flow, sink, detaching, c);
    }
  }

  lemma PlacedDropped(desired: map<Flow, Option<Sink>>, flow: map<Buffer, Option<Flow>>, sink: map<Buffer, Option<Sink>>,
                      detaching: map<Sink, Option<Buffer>>, b: Buffer, k: Sink)
    requires AllPlaced(desired, flow, sink, detaching) && k in detaching && detaching[k] == Some(b)
    ensures AllPlaced(desired, flow - {b}, sink - {b}, detaching[k := None])
  {
    forall c | c in sink - {b} ensures Placed(desired, flow - {b}, sink - {b}, detaching[k := None], c) {
      assert Placed(desired, flow, sink, detaching, c);
    }
  }

  lemma PlacedMoved(desired: map<Flow, Option<Sink>>, flow: map<Buffer, Option<Flow>>, sink: map<Buffer, Option<Sink>>,
                    detaching: map<Sink, Option<Buffer>>, b: Buffer, k: Sink)
    requires AllPlaced(desired, flow, sink, detaching) && k in detaching && detaching[k] == Some(b) && b in sink && flow[b].Some?
    ensures AllPlaced(desired, flow, sink[b := Goal(desired, flow, b)], detaching[k := None])
  {
    var sink' := sink[b := Goal(desired, flow, b)];
    forall c | c in sink' ensures Placed(desired, flow, sink', detaching[k := None], c) {
      assert Placed(desired, flow, sink, detaching, c);
    }
  }

  // ---------------------------------------------------------------- runs

  datatype Event =
    | NewFlow(f: Flow) | FreeFlow(f: Flow) | AttachFlow(f: Flow, k: Sink) | DetachFlow(f: Flow)
    | NewSink(k: Sink) | FreeSink(k: Sink) | Starts(b: Buffer) | Done(b: Buffer)

  /** A queue sends from one buffer at a time. */
  ghost predicate CanStart(s: State, b: Buffer) {
    b in s.sink && s.sink[b].Some? && forall c :: c in s.busy && c in s.sink ==> s.sink[c] != s.sink[b]
  }

  /** What the callers and the queues guarantee. */
  ghost predicate Enabled(s: State, e: Event) {
    match e
    case NewFlow(f) => f !in s.desired
    case FreeFlow(f) => f in s.desired && s.desired[f] == None
    case AttachFlow(f, k) => f in s.desired && s.desired[f] == None && k in s.detaching
    case DetachFlow(f) => f in s.desired && s.desired[f].Some?
    case NewSink(k) => k !in s.detaching
    case FreeSink(k) => k in s.detaching && forall f :: f in s.desired ==> s.desired[f] != Some(k)
    case Starts(b) => CanStart(s, b)
    case Done(b) => b in s.busy
  }

  /** The state after an event; an event that cannot happen changes nothing. */
  ghost function Step(s: State, e: Event): (r: State)
    requires Inv(s)
    ensures Inv(r)
  {
    if !Enabled(s, e) then s
    else
      match e
      case NewFlow(f) => FlowInitInv(s, f); FlowInit(s, f)
      case FreeFlow(f) => FlowFreeInv(s, f); FlowFree(s, f)
      case AttachFlow(f, k) => AttachInv(s, f, k); Attach(s, f, k)
      case DetachFlow(f) => DetachInv(s, f); Detach(s, f)
      case NewSink(k) => SinkInitInv(s, k); SinkInit(s, k)
      case FreeSink(k) => SinkFreeInv(s, k); SinkFree(s, k)
      case Starts(b) => BusyInSink(s); StartBusyInv(s, b); StartBusy(s, b)
      case Done(b) => BusyDoneInv(s, b); BusyDone(s, b)
  }

  lemma BusyInSink(s: State)
    requires Inv(s)
    ensures forall b :: b in s.busy ==> b in s.sink
  {
  }

  /** The buffer that a flow event is about. */
  ghost predicate About(s: State, e: Event, b: Buffer) {
    (e.FreeFlow? || e.AttachFlow? || e.DetachFlow?) && e.f in s.buffer && s.buffer[e.f] == b
  }

  /** What the callers do to a flow: what it wants; a freed flow's buffer is freed at once or, if it is busy, when that ends. */
  lemma FlowEffect(s: State, e: Event)
    requires Inv(s) && Enabled(s, e) && (e.NewFlow? || e.FreeFlow? || e.AttachFlow? || e.DetachFlow?)
    ensures var r := Step(s, e);
            && r.desired == (match e
                             case NewFlow(f) => s.desired[f := None]
                             case FreeFlow(f) => s.desired - {f}
                             case AttachFlow(f, k) => s.desired[f := Some(k)]
                             case DetachFlow(f) => s.desired[f := None]
                             case _ => s.desired)
            && r.busy == s.busy && r.detaching.Keys == s.detaching.Keys && r.next == (if e.NewFlow? then s.next + 1 else s.next)
            && (forall c :: c in s.sink && !About(s, e, c) ==> c in r.sink && r.sink[c] == s.sink[c])
            && (forall b :: About(s, e, b) ==> if e.FreeFlow? && b !in s.busy then r.freed == s.freed + [b]
                                               else r.freed == s.freed && b in r.flow && (e.FreeFlow? <==> r.flow[b] == None))
            && (e.NewFlow? ==> r.freed == s.freed && s.next in r.flow && r.flow[s.next] == Some(e.f) && r.buffer[e.f] == s.next)
  {
    hide Owned, SinksLive, BusyOk, AllPlaced, DetachingOk, FreedOnce, Placed;
    if e.NewFlow? {
      NewBuffer(s);
    } else {
      BufferOf(s, e.f);
    }
  }

  /** Sinks come and go; with a sink go the busy periods of its queue. */
  lemma SinkEffect(s: State, e: Event)
    requires Inv(s) && Enabled(s, e) && (e.NewSink? || e.FreeSink?)
    ensures var r := Step(s, e);
            && r.desired == s.desired && r.next == s.next
            && r.detaching.Keys == (if e.NewSink? then s.detaching.Keys + {e.k} else s.detaching.Keys - {e.k})
            && (forall b :: b in r.busy <==> b in s.busy && !(e.FreeSink? && b in s.sink && s.sink[b] == Some(e.k)))
            && (forall c :: c in s.sink && s.sink[c] != Some(e.k) ==> c in r.sink && r.sink[c] == s.sink[c])
            && (forall c :: c in r.sink && e.FreeSink? ==> r.sink[c] != Some(e.k))
            && (forall c :: c in s.sink && c in s.flow && s.sink[c] == Some(e.k) && e.FreeSink? ==>
                  s.detaching[e.k] == Some(c) && r.freed == if s.flow[c] == None then s.freed + [c] else s.freed)
  {
    hide Owned, BusyOk, FreedOnce;
    if e.FreeSink? {
      var k, r := e.k, Step(s, e);
      SinkFreeInv(s, k);
      SinkFreeParts(s, k);
      forall c | c in s.sink && c in s.flow && s.sink[c] == Some(k) ensures s.detaching[k] == Some(c) {
        assert Placed(s.desired, s.flow, s.sink, s.detaching, c);
      }
    }
  }

  /** A busy period begins: nothing else changes. */
  lemma StartsEffect(s: State, b: Buffer)
    requires Inv(s) && Enabled(s, Starts(b))
    ensures Step(s, Starts(b)) == s.(busy := s.busy + {b})
  {
    hide Inv, InvBut;
  }

  /** At the end of a busy period a buffer without flow is freed, and any other is where its flow wants it. */
  lemma DoneEffect(s: State, b: Buffer)
    requires Inv(s) && Enabled(s, Done(b))
    ensures var r := Step(s, Done(b));
            && r.desired == s.desired && r.next == s.next && r.detaching.Keys == s.detaching.Keys && r.busy == s.busy - {b}
            && (forall c :: c in s.sink && c != b ==> c in r.sink && r.sink[c] == s.sink[c])
            && b in s.flow && r.freed == (if s.flow[b] == None then s.freed + [b] else s.freed)
            && (s.flow[b] != None ==> b in r.sink && b in r.flow && r.flow[b] == s.flow[b]
                                      && s.flow[b].value in s.desired && r.sink[b] == s.desired[s.flow[b].value])
  {
    hide Inv, InvBut, FinishDetach;
    BusyDoneInv(s, b);
    BusyBuffer(s, b);
    DoneIs(s, b);
  }

  /** What the invariant says about a busy buffer. */
  lemma BusyBuffer(s: State, b: Buffer)
    requires Inv(s) && b in s.busy
    ensures Connected(s, b) && (s.flow[b] == None ==> s.detaching[s.sink[b].value] == Some(b))
    ensures s.detaching[s.sink[b].value] != Some(b) ==> s.flow[b].Some? && s.sink[b] == s.desired[s.flow[b].value]
  {
    hide FreedOnce;
    assert Placed(s.desired, s.flow, s.sink, s.detaching, b);
  }

  lemma DoneIs(s: State, b: Buffer)
    requires Connected(s, b)
    ensures var r := FinishDetach(s.(busy := s.busy - {b}), b);
            && r.desired == s.desired && r.next == s.next && r.detaching.Keys == s.detaching.Keys && r.busy == s.busy - {b}
            && (forall c :: c in s.sink && c != b ==> c in r.sink && r.sink[c] == s.sink[c])
            && r.freed == (if s.flow[b] == None then s.freed + [b] else s.freed)
            && (s.flow[b] != None ==> b in r.sink && b in r.flow && r.flow[b] == s.flow[b] && r.sink[b] == s.desired[s.flow[b].value])
  {
  }

  ghost function Run(es: seq<Event>): (s: State)
    ensures Inv(s)
  {
    if es == [] then Empty else Step(Run(es[..|es| - 1]), es[|es| - 1])
  }

  /**
    In every reachable state a buffer that is not where its flow wants it is the detaching buffer
    of its sink and still busy there, no live buffer is in a freed sink, and no buffer was freed twice.
    */
  lemma {:induction false} Ownership(es: seq<Event>, b: Buffer)
    ensures var s := Run(es);
            && (b in s.sink ==> b in s.flow && (s.flow[b].Some? ==> s.flow[b].value in s.desired))
            && (b in s.sink && s.sink[b] != Goal(s.desired, s.flow, b) ==>
                  s.sink[b].Some? && s.sink[b].value in s.detaching && s.detaching[s.sink[b].value] == Some(b) && b in s.busy)
            && (b in s.sink && s.sink[b].Some? ==> s.sink[b].value in s.detaching)
            && NoDuplicates(s.freed) && (b in s.freed ==> b !in s.sink) && (b < s.next ==> b in s.sink || b in s.freed)
  {
    var s := Run(es);
    if b in s.sink {
      FlowOf(s, b);
      assert Placed(s.desired, s.flow, s.sink, s.detaching, b);
    }
  }

  /** Once nothing is busy, every buffer has a flow and is exactly where the flow wants it. */
  lemma {:induction false} QuietMeansPlaced(es: seq<Event>, b: Buffer)
    ensures var s := Run(es);
            s.busy == {} && b in s.sink ==> b in s.flow && s.flow[b].Some? && s.sink[b] == Goal(s.desired, s.flow, b)
  {
    var s := Run(es);
    if b in s.sink {
      Ownership(es, b);
      assert Placed(s.desired, s.flow, s.sink, s.detaching, b);
    }
  }

  /** Once all flows and sinks are freed, every buffer that was ever allocated has been freed. */
  lemma {:induction false} NothingLeaks(es: seq<Event>, b: Buffer)
    requires Run(es).desired == map[] && Run(es).detaching == map[] && b < Run(es).next
    ensures b in Run(es).freed
  {
    var s := Run(es);
    if b in s.sink {
      assert Placed(s.desired, s.flow, s.sink, s.detaching, b);
      Ownership(es, b);
    }
  }

  // ---------------------------------------------------------------- the program

  class FlowTable {
    // the fields of the live flows, buffers and sinks
    var sinkDesired: map<Flow, Option<Sink>>
    var flowBuffer: map<Flow, Buffer>
    var bufferFlow: map<Buffer, Option<Flow>>
    var bufferSink: map<Buffer, Option<Sink>>
    var detachingBuffer: map<Sink, Option<Buffer>>
    var busy: set<Buffer>
    var nextBuffer: nat
    ghost var freed: seq<Buffer>

    ghost function View(): (s: State)
      reads this
    {
      State(sinkDesired, flowBuffer, bufferFlow, bufferSink, detachingBuffer, busy, freed, nextBuffer)
    }

    constructor ()
      ensures View() == Empty
    {
      sinkDesired, flowBuffer, bufferFlow, bufferSink, detachingBuffer := map[], map[], map[], map[], map[];
      busy, nextBuffer, freed := {}, 0, [];
    }

    /** flow_buffer_free */
    method FlowBufferFree(b: Buffer)
      requires b in bufferFlow && b in bufferSink && bufferSink[b] == None
      modifies this
      ensures View() == BufferFree(old(View()), b)
    {
      bufferFlow := bufferFlow - {b};
      bufferSink := bufferSink - {b};
      freed := freed + [b];
    }

    /** flow_buffer_attach */
    method FlowBufferAttach(b: Buffer, k: Sink)
      requires b in bufferSink && bufferSink[b] == None && k in detachingBuffer
      modifies this
      ensures View() == BufferAttach(old(View()), b, k)
    {
      bufferSink := bufferSink[b := Some(k)];
    }

    /** flow_buffer_detach */
    method FlowBufferDetach(b: Buffer)
      requires b in bufferSink && bufferSink[b].Some? && bufferSink[b].value in detachingBuffer && b !in busy
      modifies this
      ensures View() == BufferDetach(old(View()), b) && detachingBuffer.Keys == old(detachingBuffer).Keys
    {
      var k := bufferSink[b].value;
      if detachingBuffer[k] == Some(b) {
        detachingBuffer := detachingBuffer[k := None];
      }
      bufferSink := bufferSink[b := None];
    }

    /** flow_buffer_schedule_detach */
    method FlowBufferScheduleDetach(b: Buffer)
      requires b in bufferSink && bufferSink[b].Some? && bufferSink[b].value in detachingBuffer && b in busy
      requires detachingBuffer[bufferSink[b].value] == None || detachingBuffer[bufferSink[b].value] == Some(b)
      modifies this
      ensures View() == ScheduleDetach(old(View()), b)
    {
      var k := bufferSink[b].value;
      if detachingBuffer[k] == Some(b) {
        assert detachingBuffer[k := Some(b)] == detachingBuffer;
        return;
      }
      detachingBuffer := detachingBuffer[k := Some(b)];
    }

    /** flow_buffer_finish_detach */
    method FlowBufferFinishDetach(b: Buffer)
      requires b in bufferSink && IsDetaching(detachingBuffer, bufferSink[b], b) && b !in busy && b in bufferFlow
      requires bufferFlow[b].Some? ==> bufferFlow[b].value in sinkDesired
      requires SinksLive(sinkDesired, bufferSink, detachingBuffer.Keys)
      modifies this
      ensures View() == FinishDetach(old(View()), b)
      ensures sinkDesired == old(sinkDesired) && detachingBuffer.Keys == old(detachingBuffer).Keys
    {
      FlowBufferDetach(b);
      if bufferFlow[b] == None {
        FlowBufferFree(b);
      } else if sinkDesired[bufferFlow[b].value].Some? {
        FlowBufferAttach(b, sinkDesired[bufferFlow[b].value].value);
      }
    }

    /** DataProtoFlow_Init */
    method DataProtoFlowInit(f: Flow)
      requires Inv(View()) && f !in sinkDesired
      modifies this
      ensures View() == FlowInit(old(View()), f) && Inv(View())
      ensures sinkDesired == old(sinkDesired)[f := None] && detachingBuffer.Keys == old(detachingBuffer).Keys
    {
      hide Inv, InvBut;
      FlowInitInv(View(), f);
      sinkDesired := sinkDesired[f := None];
      var b := nextBuffer;
      nextBuffer := nextBuffer + 1;
      flowBuffer := flowBuffer[f := b];
      bufferFlow := bufferFlow[b := Some(f)];
      bufferSink := bufferSink[b := None];
    }

    /** DataProtoFlow_Free */
    method DataProtoFlowFree(f: Flow)
      requires Inv(View()) && f in sinkDesired && sinkDesired[f] == None
      modifies this
      ensures FlowOk(old(View()), f) && View() == FlowFree(old(View()), f) && Inv(View())
      ensures sinkDesired == old(sinkDesired) - {f} && detachingBuffer.Keys == old(detachingBuffer).Keys
    {
      hide Inv, InvBut;
      BufferOf(View(), f);
      FlowFreeInv(View(), f);
      var b := flowBuffer[f];
      if bufferSink[b].Some? {
        if b in busy {
          FlowBufferScheduleDetach(b);
          bufferFlow := bufferFlow[b := None];
        } else {
          // unreachable: a buffer that is not busy has already left its sink
          assert false;
        }
      } else {
        FlowBufferFree(b);
      }
      sinkDesired := sinkDesired - {f};
      flowBuffer := flowBuffer - {f};
    }

    /** DataProtoFlow_Attach */
    method DataProtoFlowAttach(f: Flow, k: Sink)
      requires Inv(View()) && f in sinkDesired && sinkDesired[f] == None && k in detachingBuffer
      modifies this
      ensures FlowOk(old(View()), f) && View() == Attach(old(View()), f, k) && Inv(View())
      ensures sinkDesired == old(sinkDesired)[f := Some(k)] && detachingBuffer.Keys == old(detachingBuffer).Keys
    {
      hide Inv, InvBut;
      BufferOf(View(), f);
      AttachInv(View(), f, k);
      var b := flowBuffer[f];
      if bufferSink[b].Some? {
        if b in busy {
          FlowBufferScheduleDetach(b);
        } else {
          // unreachable: a buffer that is not busy has already left its sink
          assert false;
        }
      } else {
        FlowBufferAttach(b, k);
      }
      sinkDesired := sinkDesired[f := Some(k)];
    }

    /** DataProtoFlow_Detach; the buffer of an attached flow always has a sink. */
    method DataProtoFlowDetach(f: Flow)
      requires Inv(View()) && f in sinkDesired && sinkDesired[f].Some?
      modifies this
      ensures FlowOk(old(View()), f) && old(View()).sink[old(View()).buffer[f]].Some?
      ensures View() == Detach(old(View()), f) && Inv(View())
      ensures sinkDesired == old(sinkDesired)[f := None] && detachingBuffer.Keys == old(detachingBuffer).Keys
    {
      hide Inv, InvBut;
      BufferOf(View(), f);
      DetachInv(View(), f);
      var b := flowBuffer[f];
      assert bufferSink[b].Some?;
      if b in busy {
        FlowBufferScheduleDetach(b);
      } else {
        FlowBufferDetach(b);
      }
      sinkDesired := sinkDesired[f := None];
    }

    /** DataProtoSink_Init */
    method DataProtoSinkInit(k: Sink)
      requires Inv(View()) && k !in detachingBuffer
      modifies this
      ensures Inv(View()) && View() == SinkInit(old(View()), k)
    {
      hide Inv, InvBut;
      SinkInitInv(View(), k);
      detachingBuffer := detachingBuffer[k := None];
    }

    /** DataProtoSink_Free, for a sink that no flow is attached to. */
    method DataProtoSinkFree(k: Sink)
      requires Inv(View()) && k in detachingBuffer && forall f :: f in sinkDesired ==> sinkDesired[f] != Some(k)
      modifies this
      ensures Inv(View()) && detachingBuffer.Keys == old(detachingBuffer).Keys - {k} && sinkDesired == old(sinkDesired)
      ensures k in old(detachingBuffer) && (old(detachingBuffer)[k].Some? ==> Connected(old(View()), old(detachingBuffer)[k].value))
      ensures View() == SinkFree(old(View()), k)
      ensures forall b :: b in bufferSink ==> bufferSink[b] != Some(k)
    {
      hide Inv, InvBut, SinksLive, Goal, FinishDetach;
      ghost var s := View();
      SinkFreeInv(s, k);
      SinkFreeParts(s, k);
      SinksOf(s);
      var detaching := detachingBuffer[k];
      busy := set b | b in busy && !(b in bufferSink && bufferSink[b] == Some(k));
      if detaching.Some? {
        assert Goal(sinkDesired, bufferFlow, detaching.value) != Some(k);
        FlowBufferFinishDetach(detaching.value);
      }
      detachingBuffer := detachingBuffer - {k};
    }

    /** The queue of a sink, none of whose other buffers is busy, starts sending a packet of the buffer. */
    method QueueFlowStarts(b: Buffer)
      requires Inv(View()) && CanStart(View(), b)
      modifies this
      ensures Inv(View()) && View() == StartBusy(old(View()), b)
    {
      hide Inv, InvBut;
      BusyInSink(View());
      StartBusyInv(View(), b);
      busy := busy + {b};
    }

    /** The end of a busy period; flow_buffer_qflow_handler_busy when the buffer is to be let go. */
    method QueueFlowDone(b: Buffer)
      requires Inv(View()) && b in busy
      modifies this
      ensures Inv(View()) && Connected(old(View()), b) && View() == BusyDone(old(View()), b)
      ensures sinkDesired == old(sinkDesired) && detachingBuffer.Keys == old(detachingBuffer).Keys
    {
      hide Inv, InvBut, SinksLive, FinishDetach;
      BusyDoneInv(View(), b);
      SinksOf(View());
      busy := busy - {b};
      if detachingBuffer[bufferSink[b].value] == Some(b) {
        FlowBufferFinishDetach(b);
      }
    }
  }

  lemma SinksOf(s: State)
    requires Inv(s)
    ensures SinksLive(s.desired, s.sink, s.detaching.Keys)
  {
  }

  // ---------------------------------------------------------------- up and down reports

  /** up, up_report and whether up_job is set. */
  datatype Status = Status(up: bool, report: bool, job: bool)

  /** A packet from the peer (is it receiving us?), no packet for too long, the job runs. */
  datatype Sign = Received(peerReceiving: bool) | TimedOut | JobRuns

  /** The new status, and the value given to the handler if it is called. */
  function StatusStep(s: Status, e: Sign): (r: (Status, Option<bool>)) {
    match e
    case Received(peer) => (Status(peer, s.report, peer != s.report), None)
    case TimedOut => (Status(false, s.report, s.report), None)
    case JobRuns => if s.job then (Status(s.up, s.up, false), Some(s.up)) else (s, None)
  }

  function StatusAfter(es: seq<Sign>): (s: Status) {
    if es == [] then Status(false, false, false) else StatusStep(StatusAfter(es[..|es| - 1]), es[|es| - 1]).0
  }

  function Reports(es: seq<Sign>): (r: seq<bool>) {
    if es == [] then []
    else
      var r, s := Reports(es[..|es| - 1]), StatusStep(StatusAfter(es[..|es| - 1]), es[|es| - 1]).1;
      if s.Some? then r + [s.value] else r
  }

  /** Reports alternate, beginning with up; the job is set exactly while the last report is out of date. */
  lemma {:induction false} ReportsAlternate(es: seq<Sign>)
    ensures forall i :: 0 <= i < |Reports(es)| ==> Reports(es)[i] == (i % 2 == 0)
    ensures var s := StatusAfter(es);
            (s.job <==> s.up != s.report) && s.report == (|Reports(es)| % 2 == 1)
  {
    if es != [] {
      ReportsAlternate(es[..|es| - 1]);
    }
  }

  /** The last packet or timeout was a packet by which the peer says that it receives. */
  predicate LastReceived(es: seq<Sign>) {
    es != [] && match es[|es| - 1]
                case Received(peer) => peer
                case TimedOut => false
                case JobRuns => LastReceived(es[..|es| - 1])
  }

  /** Over every run: up says just that. */
  lemma {:induction false} UpExactlyWhen(es: seq<Sign>)
    ensures StatusAfter(es).up <==> LastReceived(es)
  {
    if es != [] {
      UpExactlyWhen(es[..|es| - 1]);
    }
  }

  /** The job reports it if it is news, and nothing else makes a report. */
  lemma {:induction false} JobReports(es: seq<Sign>, e: Sign)
    ensures var s, r := StatusAfter(es), StatusAfter(es + [e]);
            && (e == JobRuns ==> r.report == s.up && Reports(es + [e]) == if s.up != s.report then Reports(es) + [s.up] else Reports(es))
            && (e != JobRuns ==> r.report == s.report && Reports(es + [e]) == Reports(es))
  {
    ReportsAlternate(es);
    assert (es + [e])[..|es|] == es;
  }

  class UpStatus {
    var up: bool
    var upReport: bool
    var upJob: bool

    ghost function View(): (s: Status)
      reads this
    {
      Status(up, upReport, upJob)
    }

    constructor ()
      ensures View() == StatusAfter([])
    {
      up, upReport, upJob := false, false, false;
    }

    method RefreshUpJob()
      modifies this`upJob
      ensures upJob <==> up != upReport
    {
      if up != upReport {
        upJob := true;
      } else {
        upJob := false;
      }
    }

    /** DataProtoSink_Received */
    method DataProtoSinkReceived(peerReceiving: bool)
      modifies this
      ensures View() == StatusStep(old(View()), Received(peerReceiving)).0
    {
      if !peerReceiving {
        up := false;
      } else {
        up := true;
      }
      RefreshUpJob();
    }

    method ReceiveTimerHandler()
      modifies this
      ensures View() == StatusStep(old(View()), TimedOut).0
    {
      up := false;
      RefreshUpJob();
    }

    /** up_job_handler: the value passed on to the sink's handler. */
    method UpJobHandler() returns (report: bool)
      requires upJob && up != upReport
      modifies this
      ensures View() == StatusStep(old(View()), JobRuns).0 && StatusStep(old(View()), JobRuns).1 == Some(report)
    {
      upJob := false;
      upReport := up;
      report := up;
    }
  }
}
