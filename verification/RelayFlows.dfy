/**
  The flows of the relay router: one for each pair of a source and a destination for which a
  frame was submitted, in a list of the source and a list of the destination. A flow is
  attached to a DataProto sink exactly while its destination is.
  */
module RelayFlows {
  import opened Lists
  import opened DataFlows

  type Source = nat
  type Dest = nat

  /**
    ends: source and destination of each relay flow; bySource, byDest: the flow lists;
    dpSink: dp_sink of each destination; current: current_flow of the router.
    */
  datatype Relay = Relay(ends: map<Flow, (Source, Dest)>, bySource: map<Source, seq<Flow>>, byDest: map<Dest, seq<Flow>>,
                         dpSink: map<Dest, Option<Sink>>, current: Option<Flow>)

  /** The list of source a holds exactly its flows. */
  ghost predicate SourceList(ends: map<Flow, (Source, Dest)>, l: seq<Flow>, a: Source) {
    NoDuplicates(l) && forall f :: f in l <==> f in ends && ends[f].0 == a
  }

  ghost predicate DestList(ends: map<Flow, (Source, Dest)>, l: seq<Flow>, d: Dest) {
    NoDuplicates(l) && forall f :: f in l <==> f in ends && ends[f].1 == d
  }

  ghost predicate Listed(r: Relay) {
    && (forall f :: f in r.ends ==> r.ends[f].0 in r.bySource && r.ends[f].1 in r.byDest)
    && (forall a :: a in r.bySource ==> SourceList(r.ends, r.bySource[a], a))
    && (forall d :: d in r.byDest ==> DestList(r.ends, r.byDest[d], d))
    && r.dpSink.Keys == r.byDest.Keys
  }

  /** At most one flow for each pair. */
  ghost predicate Unique(ends: map<Flow, (Source, Dest)>) {
    forall f, g :: f in ends && g in ends && ends[f] == ends[g] ==> f == g
  }

  /** Flows are attached exactly when their destination is, and to the same sink. */
  ghost predicate Attached(r: Relay, desired: map<Flow, Option<Sink>>) {
    forall f :: f in r.ends ==> f in desired && r.ends[f].1 in r.dpSink && desired[f] == r.dpSink[r.ends[f].1]
  }

  ghost predicate SinksOk(dpSink: map<Dest, Option<Sink>>, live: set<Sink>) {
    forall d :: d in dpSink && dpSink[d].Some? ==> dpSink[d].value in live
  }

  ghost predicate RelayInv(r: Relay) {
    Listed(r) && Unique(r.ends) && (r.current.Some? ==> r.current.value in r.ends)
  }

  // ---------------------------------------------------------------- steps on the lists

  function AddFlow(r: Relay, f: Flow, a: Source, d: Dest): (n: Relay)
    requires a in r.bySource && d in r.byDest
  {
    r.(ends := r.ends[f := (a, d)], bySource := r.bySource[a := r.bySource[a] + [f]], byDest := r.byDest[d := r.byDest[d] + [f]])
  }

  function DropFlow(r: Relay, f: Flow): (n: Relay)
    requires f in r.ends && r.ends[f].0 in r.bySource && r.ends[f].1 in r.byDest
  {
    var (a, d) := r.ends[f];
    Relay(r.ends - {f}, r.bySource[a := Remove(r.bySource[a], f)], r.byDest[d := Remove(r.byDest[d], f)], r.dpSink,
          if r.current == Some(f) then None else r.current)
  }

  lemma AddFlowInv(r: Relay, f: Flow, a: Source, d: Dest)
    requires RelayInv(r) && f !in r.ends && a in r.bySource && d in r.byDest
    requires forall g :: g in r.ends ==> r.ends[g] != (a, d)
    ensures RelayInv(AddFlow(r, f, a, d))
  {
    hide SourceList, DestList;
    var n := AddFlow(r, f, a, d);
    forall x | x in n.bySource ensures SourceList(n.ends, n.bySource[x], x) { SourceListAdd(r.ends, r.bySource[x], x, f, a, d); }
    forall x | x in n.byDest ensures DestList(n.ends, n.byDest[x], x) { DestListAdd(r.ends, r.byDest[x], x, f, a, d); }
  }

  lemma SourceListAdd(ends: map<Flow, (Source, Dest)>, l: seq<Flow>, x: Source, f: Flow, a: Source, d: Dest)
    requires SourceList(ends, l, x) && f !in ends
    ensures SourceList(ends[f := (a, d)], if x == a then l + [f] else l, x)
  {
    assert f !in l;
  }

  lemma DestListAdd(ends: map<Flow, (Source, Dest)>, l: seq<Flow>, x: Dest, f: Flow, a: Source, d: Dest)
    requires DestList(ends, l, x) && f !in ends
    ensures DestList(ends[f := (a, d)], if x == d then l + [f] else l, x)
  {
    assert f !in l;
  }

  lemma NewSourceInv(r: Relay, a: Source, desired: map<Flow, Option<Sink>>)
    requires RelayInv(r) && a !in r.bySource && Attached(r, desired)
    ensures var n := r.(bySource := r.bySource[a := []]); RelayInv(n) && Attached(n, desired)
  {
  }

  lemma NewDestInv(r: Relay, d: Dest, desired: map<Flow, Option<Sink>>)
    requires RelayInv(r) && d !in r.byDest && Attached(r, desired)
    ensures var n := r.(byDest := r.byDest[d := []], dpSink := r.dpSink[d := None]); RelayInv(n) && Attached(n, desired)
  {
    hide SourceList;
  }

  lemma AttachedAdd(r: Relay, desired: map<Flow, Option<Sink>>, f: Flow, a: Source, d: Dest)
    requires Attached(r, desired) && a in r.bySource && d in r.byDest && d in r.dpSink
    ensures Attached(AddFlow(r, f, a, d), desired[f := r.dpSink[d]])
  {
  }

  lemma AttachedDrop(r: Relay, desired: map<Flow, Option<Sink>>, f: Flow)
    requires Attached(r, desired) && f in r.ends && r.ends[f].0 in r.bySource && r.ends[f].1 in r.byDest
    ensures f in desired && r.ends[f].1 in r.dpSink && desired[f] == r.dpSink[r.ends[f].1]
    ensures Attached(DropFlow(r, f), desired - {f})
  {
    hide Remove;
  }

  lemma SinkOf(dpSink: map<Dest, Option<Sink>>, live: set<Sink>, d: Dest)
    requires SinksOk(dpSink, live) && d in dpSink
    ensures dpSink[d].Some? ==> dpSink[d].value in live
  {
  }

  lemma DropFlowInv(r: Relay, f: Flow)
    requires RelayInv(r) && f in r.ends
    ensures r.ends[f].0 in r.bySource && r.ends[f].1 in r.byDest && RelayInv(DropFlow(r, f))
  {
    hide Remove, SourceList, DestList;
    var n := DropFlow(r, f);
    forall x | x in n.bySource ensures SourceList(n.ends, n.bySource[x], x) { SourceListDrop(r.ends, r.bySource[x], x, f); }
    forall x | x in n.byDest ensures DestList(n.ends, n.byDest[x], x) { DestListDrop(r.ends, r.byDest[x], x, f); }
  }

  lemma SourceListDrop(ends: map<Flow, (Source, Dest)>, l: seq<Flow>, x: Source, f: Flow)
    requires SourceList(ends, l, x) && f in ends
    ensures SourceList(ends - {f}, if x == ends[f].0 then Remove(l, f) else l, x)
  {
    RemoveMembers(l, f);
  }

  lemma DestListDrop(ends: map<Flow, (Source, Dest)>, l: seq<Flow>, x: Dest, f: Flow)
    requires DestList(ends, l, x) && f in ends
    ensures DestList(ends - {f}, if x == ends[f].1 then Remove(l, f) else l, x)
  {
    RemoveMembers(l, f);
  }

  /** Only the freed flow is given up as the one that the next frame goes to. */
  lemma DropCurrent(r: Relay, f: Flow)
    requires RelayInv(r) && f in r.ends
    ensures r.ends[f].0 in r.bySource && r.ends[f].1 in r.byDest
    ensures DropFlow(r, f).current == (if r.current == Some(f) then None else r.current) && DropFlow(r, f).ends == r.ends - {f} && DropFlow(r, f).dpSink == r.dpSink
  {
  }

  /** While destination d is being attached or detached: the flows in done have their new sink. */
  ghost predicate Switching(r: Relay, desired: map<Flow, Option<Sink>>, d: Dest, done: seq<Flow>, before: Option<Sink>, after: Option<Sink>) {
    forall f :: f in r.ends ==>
      && f in desired && r.ends[f].1 in r.dpSink
      && desired[f] == if r.ends[f].1 != d then r.dpSink[r.ends[f].1] else if f in done then after else before
  }

  lemma SwitchStep(r: Relay, desired: map<Flow, Option<Sink>>, d: Dest, done: seq<Flow>, before: Option<Sink>, after: Option<Sink>, f: Flow)
    requires Switching(r, desired, d, done, before, after) && f in r.ends && r.ends[f].1 == d && f !in done
    ensures f in desired && desired[f] == before && Switching(r, desired[f := after], d, done + [f], before, after)
  {
  }

  lemma SwitchStart(r: Relay, desired: map<Flow, Option<Sink>>, d: Dest, before: Option<Sink>, after: Option<Sink>)
    requires Attached(r, desired) && d in r.dpSink && r.dpSink[d] == before
    ensures Switching(r, desired, d, [], before, after)
  {
  }

  lemma SwitchEnd(r: Relay, desired: map<Flow, Option<Sink>>, d: Dest, before: Option<Sink>, after: Option<Sink>)
    requires RelayInv(r) && d in r.byDest && Switching(r, desired, d, r.byDest[d], before, after)
    ensures var n := r.(dpSink := r.dpSink[d := after]); RelayInv(n) && Attached(n, desired)
  {
    assert DestList(r.ends, r.byDest[d], d);
  }

  /** Exactly the DataProto flows of the relay flows that went are freed; the others want what they wanted. */
  ghost predicate Released(before: map<Flow, (Source, Dest)>, after: map<Flow, (Source, Dest)>,
                           was: map<Flow, Option<Sink>>, now: map<Flow, Option<Sink>>) {
    && (forall f :: f in now <==> f in was && !(f in before && f !in after))
    && (forall f :: f in now ==> now[f] == was[f])
  }

  lemma ReleasedNone(ends: map<Flow, (Source, Dest)>, desired: map<Flow, Option<Sink>>)
    ensures Released(ends, ends, desired, desired)
  {
  }

  lemma ReleasedStep(before: map<Flow, (Source, Dest)>, after: map<Flow, (Source, Dest)>,
                     was: map<Flow, Option<Sink>>, now: map<Flow, Option<Sink>>, f: Flow)
    requires Released(before, after, was, now) && f in before && f in after
    ensures Released(before, after - {f}, was, now - {f})
  {
  }

  /** The DataProto flows that are no relay flows want what they wanted. */
  ghost predicate OthersKept(ends: map<Flow, (Source, Dest)>, was: map<Flow, Option<Sink>>, now: map<Flow, Option<Sink>>) {
    forall f :: f !in ends ==> (f in now <==> f in was) && (f in was ==> now[f] == was[f])
  }

  lemma KeptNone(ends: map<Flow, (Source, Dest)>, desired: map<Flow, Option<Sink>>)
    ensures OthersKept(ends, desired, desired)
  {
  }

  lemma KeptStep(ends: map<Flow, (Source, Dest)>, was: map<Flow, Option<Sink>>, now: map<Flow, Option<Sink>>, f: Flow, k: Option<Sink>)
    requires OthersKept(ends, was, now) && f in ends
    ensures OthersKept(ends, was, now[f := k])
  {
  }

  class DPRelayRouter {
    const table: FlowTable
    var ends: map<Flow, (Source, Dest)>
    var sourceFlows: map<Source, seq<Flow>>
    var sinkFlows: map<Dest, seq<Flow>>
    var dpSink: map<Dest, Option<Sink>>
    var currentFlow: Option<Flow>

    ghost function View(): (r: Relay)
      reads this
    {
      Relay(ends, sourceFlows, sinkFlows, dpSink, currentFlow)
    }

    ghost predicate Valid()
      reads this, table
    {
      && Inv(table.View()) && RelayInv(View()) && Attached(View(), table.sinkDesired)
      && SinksOk(dpSink, table.detachingBuffer.Keys)
    }

    constructor (table: FlowTable)
      requires Inv(table.View())
      ensures Valid() && View() == Relay(map[], map[], map[], map[], None) && this.table == table
    {
      this.table := table;
      ends, sourceFlows, sinkFlows, dpSink, currentFlow := map[], map[], map[], map[], None;
    }

    /** DPRelaySource_Init */
    method SourceInit(a: Source)
      requires Valid() && a !in sourceFlows
      modifies this
      ensures Valid() && View() == old(View()).(bySource := old(sourceFlows)[a := []])
    {
      hide Inv, RelayInv, Attached, SinksOk;
      NewSourceInv(View(), a, table.sinkDesired);
      sourceFlows := sourceFlows[a := []];
    }

    /** DPRelaySink_Init */
    method SinkInit(d: Dest)
      requires Valid() && d !in sinkFlows
      modifies this
      ensures Valid() && View() == old(View()).(byDest := old(sinkFlows)[d := []], dpSink := old(dpSink)[d := None])
    {
      hide Inv, RelayInv, Attached, SinksOk;
      NewDestInv(View(), d, table.sinkDesired);
      SinkSet(dpSink, table.detachingBuffer.Keys, d, None);
      sinkFlows := sinkFlows[d := []];
      dpSink := dpSink[d := None];
    }

    /** create_flow, with the new flow structure f */
    method CreateFlow(f: Flow, a: Source, d: Dest)
      requires Valid() && f !in table.sinkDesired && a in sourceFlows && d in sinkFlows
      requires forall g :: g in ends ==> ends[g] != (a, d)
      modifies this, table
      ensures Valid() && View() == AddFlow(old(View()), f, a, d)
      ensures d in old(dpSink) && table.sinkDesired == old(table.sinkDesired)[f := old(dpSink)[d]]
      ensures table.detachingBuffer.Keys == old(table.detachingBuffer).Keys && dpSink == old(dpSink)
    {
      hide Inv, RelayInv, AddFlow, Attached, SinksOk;
      KeysOf(View());
      CurrentOk(View(), table.sinkDesired);
      SinkOf(dpSink, table.detachingBuffer.Keys, d);
      AttachedAdd(View(), table.sinkDesired, f, a, d);
      AddFlowInv(View(), f, a, d);
      AddFlowIs(View(), f, a, d);
      table.DataProtoFlowInit(f);
      ends := ends[f := (a, d)];
      sourceFlows := sourceFlows[a := sourceFlows[a] + [f]];
      sinkFlows := sinkFlows[d := sinkFlows[d] + [f]];
      if dpSink[d].Some? {
        table.DataProtoFlowAttach(f, dpSink[d].value);
      }
      assert table.sinkDesired == old(table.sinkDesired)[f := dpSink[d]];
    }

    /** free_flow */
    method FreeFlow(f: Flow)
      requires Valid() && f in ends
      modifies this, table
      ensures currentFlow == if old(currentFlow) == Some(f) then None else old(currentFlow)
      ensures Valid() && f !in ends && ends == old(ends) - {f} && sourceFlows.Keys == old(sourceFlows).Keys && sinkFlows.Keys == old(sinkFlows).Keys
      ensures ends.Keys == old(ends).Keys - {f} && dpSink == old(dpSink)
      ensures table.detachingBuffer.Keys == old(table.detachingBuffer).Keys && table.sinkDesired == old(table.sinkDesired) - {f}
      ensures f in old(ends) && old(ends)[f].0 in old(sourceFlows) && old(ends)[f].1 in old(sinkFlows) && View() == DropFlow(old(View()), f)
    {
      hide Inv, RelayInv, Remove, Attached, SinksOk, DataFlows.FlowFree, DataFlows.Detach, FlowOk;
      DropFlowInv(View(), f);
      AttachedDrop(View(), table.sinkDesired, f);
      var (a, d) := ends[f];
      if dpSink[d].Some? {
        table.DataProtoFlowDetach(f);
      }
      if currentFlow == Some(f) {
        currentFlow := None;
      }
      sinkFlows := sinkFlows[d := Remove(sinkFlows[d], f)];
      sourceFlows := sourceFlows[a := Remove(sourceFlows[a], f)];
      ends := ends - {f};
      table.DataProtoFlowFree(f);
      assert table.sinkDesired == old(table.sinkDesired) - {f};
    }

    /** source_find_flow */
    method SourceFindFlow(a: Source, d: Dest) returns (r: Option<Flow>)
      requires Valid() && a in sourceFlows
      ensures r.Some? ==> r.value in ends && ends[r.value] == (a, d)
      ensures r == None ==> forall f :: f in ends ==> ends[f] != (a, d)
    {
      hide Inv, Attached, SinksOk;
      assert SourceList(ends, sourceFlows[a], a);
      var l := sourceFlows[a];
      for i := 0 to |l|
        invariant forall k :: 0 <= k < i ==> ends[l[k]].1 != d
      {
        assert l[i] in l;
        if ends[l[i]].1 == d {
          return Some(l[i]);
        }
      }
      r := None;
    }

    /** DPRelayRouter_SubmitFrame; f is the structure allocated if the pair has no flow, None if that fails. */
    method SubmitFrame(a: Source, d: Dest, f: Option<Flow>)
      requires Valid() && currentFlow == None && a in sourceFlows && d in sinkFlows && (f.Some? ==> f.value !in table.sinkDesired)
      modifies this, table
      ensures Valid()
      ensures currentFlow.Some? ==> currentFlow.value in ends && ends[currentFlow.value] == (a, d)
      ensures currentFlow == None <==> f == None && forall g :: g in old(ends) ==> old(ends)[g] != (a, d)
      ensures View() == if f == None || exists g :: g in old(ends) && old(ends)[g] == (a, d) then old(View()).(current := currentFlow)
                        else AddFlow(old(View()), f.value, a, d).(current := f)
      ensures OthersKept(ends, old(table.sinkDesired), table.sinkDesired)
      ensures table.detachingBuffer.Keys == old(table.detachingBuffer).Keys && dpSink == old(dpSink)
      ensures sourceFlows.Keys == old(sourceFlows).Keys && sinkFlows.Keys == old(sinkFlows).Keys
      ensures forall g :: g in ends ==> g in old(ends) || Some(g) == f
      ensures forall g :: g in old(ends) ==> g in ends && ends[g] == old(ends)[g]
    {
      hide Inv, RelayInv, Attached, SinksOk, AddFlow;
      CurrentOk(View(), table.sinkDesired);
      var flow := SourceFindFlow(a, d);
      if flow == None {
        if f == None {
          return;
        }
        AddFlowIs(View(), f.value, a, d);
        CreateFlow(f.value, a, d);
        flow := f;
      }
      SetCurrent(View(), flow.value, table.sinkDesired);
      currentFlow := flow;
    }

    /** router_dp_source_handler: the frame goes to the flow chosen by SubmitFrame, which is still there. */
    method RouteFrame() returns (to: Option<Flow>)
      requires Valid()
      modifies this
      ensures Valid() && to == old(currentFlow) && View() == old(View()).(current := None) && (to.Some? ==> to.value in ends)
    {
      hide Inv, SinksOk;
      to := currentFlow;
      currentFlow := None;
    }

    /** DPRelaySink_Attach */
    method SinkAttach(d: Dest, k: Sink)
      requires Valid() && d in sinkFlows && dpSink[d] == None && k in table.detachingBuffer
      modifies this, table
      ensures Valid() && View() == old(View()).(dpSink := old(dpSink)[d := Some(k)])
      ensures OthersKept(ends, old(table.sinkDesired), table.sinkDesired) && table.detachingBuffer.Keys == old(table.detachingBuffer).Keys
    {
      hide Inv, RelayInv, Attached, Switching, SinksOk, OthersKept;
      DestOf(View(), d);
      SwitchStart(View(), table.sinkDesired, d, None, Some(k));
      KeptNone(ends, table.sinkDesired);
      var l := sinkFlows[d];
      for i := 0 to |l|
        invariant View() == old(View()) && Inv(table.View()) && SinksOk(dpSink, table.detachingBuffer.Keys) && k in table.detachingBuffer
        invariant Switching(View(), table.sinkDesired, d, l[..i], None, Some(k))
        invariant OthersKept(ends, old(table.sinkDesired), table.sinkDesired) && table.detachingBuffer.Keys == old(table.detachingBuffer).Keys
      {
        assert l[i] in l && l[i] !in l[..i] && l[..i + 1] == l[..i] + [l[i]];
        SwitchStep(View(), table.sinkDesired, d, l[..i], None, Some(k), l[i]);
        KeptStep(ends, old(table.sinkDesired), table.sinkDesired, l[i], Some(k));
        table.DataProtoFlowAttach(l[i], k);
      }
      assert l[..|l|] == l;
      SwitchEnd(View(), table.sinkDesired, d, None, Some(k));
      SinkSet(dpSink, table.detachingBuffer.Keys, d, Some(k));
      dpSink := dpSink[d := Some(k)];
    }

    /** DPRelaySink_Detach */
    method SinkDetach(d: Dest)
      requires Valid() && d in sinkFlows && dpSink[d].Some?
      modifies this, table
      ensures Valid() && View() == old(View()).(dpSink := old(dpSink)[d := None])
      ensures OthersKept(ends, old(table.sinkDesired), table.sinkDesired) && table.detachingBuffer.Keys == old(table.detachingBuffer).Keys
    {
      hide Inv, RelayInv, Attached, Switching, SinksOk, OthersKept;
      DestOf(View(), d);
      ghost var before := dpSink[d];
      SwitchStart(View(), table.sinkDesired, d, before, None);
      KeptNone(ends, table.sinkDesired);
      var l := sinkFlows[d];
      for i := 0 to |l|
        invariant View() == old(View()) && Inv(table.View()) && SinksOk(dpSink, table.detachingBuffer.Keys)
        invariant Switching(View(), table.sinkDesired, d, l[..i], before, None)
        invariant OthersKept(ends, old(table.sinkDesired), table.sinkDesired) && table.detachingBuffer.Keys == old(table.detachingBuffer).Keys
      {
        assert l[i] in l && l[i] !in l[..i] && l[..i + 1] == l[..i] + [l[i]];
        SwitchStep(View(), table.sinkDesired, d, l[..i], before, None, l[i]);
        KeptStep(ends, old(table.sinkDesired), table.sinkDesired, l[i], None);
        table.DataProtoFlowDetach(l[i]);
      }
      assert l[..|l|] == l;
      SwitchEnd(View(), table.sinkDesired, d, before, None);
      SinkSet(dpSink, table.detachingBuffer.Keys, d, None);
      dpSink := dpSink[d := None];
    }

    /** DPRelaySource_Free: no flow of the source is left. */
    method SourceFree(a: Source)
      requires Valid() && a in sourceFlows
      modifies this, table
      ensures Valid() && sourceFlows.Keys == old(sourceFlows).Keys - {a} && sinkFlows.Keys == old(sinkFlows).Keys && dpSink == old(dpSink)
      ensures table.detachingBuffer.Keys == old(table.detachingBuffer).Keys && forall f :: f in ends <==> f in old(ends) && old(ends)[f].0 != a
      ensures currentFlow == if old(currentFlow).Some? && old(currentFlow).value in ends then old(currentFlow) else None
      ensures forall f :: f in ends ==> ends[f] == old(ends)[f]
      ensures Released(old(ends), ends, old(table.sinkDesired), table.sinkDesired)
    {
      hide Inv, RelayInv, Attached, SinksOk, DropFlow, Released;
      ReleasedNone(ends, table.sinkDesired);
      CurrentIn(View());
      while sourceFlows[a] != []
        invariant currentFlow == if old(currentFlow).Some? && old(currentFlow).value in ends then old(currentFlow) else None
        invariant Valid() && a in sourceFlows && sourceFlows.Keys == old(sourceFlows).Keys && sinkFlows.Keys == old(sinkFlows).Keys
        invariant dpSink == old(dpSink) && table.detachingBuffer.Keys == old(table.detachingBuffer).Keys
        invariant forall f :: f in ends ==> f in old(ends) && ends[f] == old(ends)[f]
        invariant Released(old(ends), ends, old(table.sinkDesired), table.sinkDesired)
        invariant forall f :: f in old(ends) && old(ends)[f].0 != a ==> f in ends
        decreases ends.Keys
      {
        var f := sourceFlows[a][0];
        SourceFirst(View(), a);
        ReleasedStep(old(ends), ends, old(table.sinkDesired), table.sinkDesired, f);
        FreeFlow(f);
      }
      SourceGone(View(), a);
      sourceFlows := sourceFlows - {a};
    }

    /** DPRelaySink_Free: no flow to the destination is left. */
    method SinkFree(d: Dest)
      requires Valid() && d in sinkFlows && dpSink[d] == None
      modifies this, table
      ensures Valid() && sinkFlows.Keys == old(sinkFlows).Keys - {d} && sourceFlows.Keys == old(sourceFlows).Keys && dpSink == old(dpSink) - {d}
      ensures table.detachingBuffer.Keys == old(table.detachingBuffer).Keys && forall f :: f in ends <==> f in old(ends) && old(ends)[f].1 != d
      ensures currentFlow == if old(currentFlow).Some? && old(currentFlow).value in ends then old(currentFlow) else None
      ensures forall f :: f in ends ==> ends[f] == old(ends)[f]
      ensures Released(old(ends), ends, old(table.sinkDesired), table.sinkDesired)
    {
      hide Inv, RelayInv, Attached, SinksOk, DropFlow, Released;
      ReleasedNone(ends, table.sinkDesired);
      CurrentIn(View());
      while sinkFlows[d] != []
        invariant currentFlow == if old(currentFlow).Some? && old(currentFlow).value in ends then old(currentFlow) else None
        invariant Valid() && d in sinkFlows && sourceFlows.Keys == old(sourceFlows).Keys && sinkFlows.Keys == old(sinkFlows).Keys
        invariant dpSink == old(dpSink) && table.detachingBuffer.Keys == old(table.detachingBuffer).Keys
        invariant forall f :: f in ends ==> f in old(ends) && ends[f] == old(ends)[f]
        invariant Released(old(ends), ends, old(table.sinkDesired), table.sinkDesired)
        invariant forall f :: f in old(ends) && old(ends)[f].1 != d ==> f in ends
        decreases ends.Keys
      {
        var f := sinkFlows[d][0];
        DestFirst(View(), d);
        ReleasedStep(old(ends), ends, old(table.sinkDesired), table.sinkDesired, f);
        FreeFlow(f);
      }
      DestGone(View(), d, table.sinkDesired, table.detachingBuffer.Keys);
      sinkFlows := sinkFlows - {d};
      dpSink := dpSink - {d};
    }
  }

  lemma CurrentIn(r: Relay)
    requires RelayInv(r)
    ensures r.current.Some? ==> r.current.value in r.ends
  {
  }

  lemma KeysOf(r: Relay)
    requires RelayInv(r)
    ensures r.dpSink.Keys == r.byDest.Keys
  {
  }

  lemma AddFlowIs(r: Relay, f: Flow, a: Source, d: Dest)
    requires a in r.bySource && d in r.byDest
    ensures AddFlow(r, f, a, d) == r.(ends := r.ends[f := (a, d)], bySource := r.bySource[a := r.bySource[a] + [f]],
                                      byDest := r.byDest[d := r.byDest[d] + [f]])
  {
  }

  lemma CurrentOk(r: Relay, desired: map<Flow, Option<Sink>>)
    requires RelayInv(r) && Attached(r, desired)
    ensures forall f :: f in r.ends ==> f in desired
  {
  }

  lemma SetCurrent(r: Relay, f: Flow, desired: map<Flow, Option<Sink>>)
    requires RelayInv(r) && Attached(r, desired) && f in r.ends
    ensures RelayInv(r.(current := Some(f))) && Attached(r.(current := Some(f)), desired)
  {
  }

  lemma SinkSet(dpSink: map<Dest, Option<Sink>>, live: set<Sink>, d: Dest, k: Option<Sink>)
    requires SinksOk(dpSink, live) && (k.Some? ==> k.value in live)
    ensures SinksOk(dpSink[d := k], live)
  {
  }

  lemma SourceFirst(r: Relay, a: Source)
    requires RelayInv(r) && a in r.bySource && r.bySource[a] != []
    ensures var f := r.bySource[a][0]; f in r.ends && r.ends[f].0 == a
  {
    assert SourceList(r.ends, r.bySource[a], a);
    assert r.bySource[a][0] in r.bySource[a];
  }

  lemma DestFirst(r: Relay, d: Dest)
    requires RelayInv(r) && d in r.byDest && r.byDest[d] != []
    ensures var f := r.byDest[d][0]; f in r.ends && r.ends[f].1 == d
  {
    assert DestList(r.ends, r.byDest[d], d);
    assert r.byDest[d][0] in r.byDest[d];
  }

  lemma DestOf(r: Relay, d: Dest)
    requires RelayInv(r) && d in r.byDest
    ensures DestList(r.ends, r.byDest[d], d) && d in r.dpSink
  {
  }

  lemma SourceGone(r: Relay, a: Source)
    requires RelayInv(r) && a in r.bySource && r.bySource[a] == []
    ensures forall f :: f in r.ends ==> r.ends[f].0 != a
    ensures RelayInv(r.(bySource := r.bySource - {a}))
    ensures forall desired :: Attached(r, desired) ==> Attached(r.(bySource := r.bySource - {a}), desired)
  {
    assert SourceList(r.ends, r.bySource[a], a);
  }

  lemma DestGone(r: Relay, d: Dest, desired: map<Flow, Option<Sink>>, live: set<Sink>)
    requires RelayInv(r) && d in r.byDest && r.byDest[d] == [] && Attached(r, desired) && SinksOk(r.dpSink, live)
    ensures forall f :: f in r.ends ==> r.ends[f].1 != d
    ensures var n := r.(byDest := r.byDest - {d}, dpSink := r.dpSink - {d});
            RelayInv(n) && Attached(n, desired) && SinksOk(n.dpSink, live)
  {
    assert DestList(r.ends, r.byDest[d], d);
  }
}
