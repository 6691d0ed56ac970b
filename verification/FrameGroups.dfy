/**
  Multicast group membership of the frame decider. The reference is one bounded recency queue
  of (group, expiry) pairs per peer; the program keeps a fixed pool of group entries per peer,
  a tree of the used ones by group, and the signature index over all peers.
  */
module FrameGroups {
  import opened Lists
  import opened FrameSignatures

  // ---------------------------------------------------------------- the reference

  datatype Membership = Membership(group: Group, end: int)

  type Queue = seq<Membership>

  ghost predicate DistinctGroups(q: Queue) {
    forall i, j :: 0 <= i < j < |q| ==> q[i].group != q[j].group
  }

  function Find(q: Queue, g: Group): (i: nat)
    ensures i <= |q| && (i < |q| ==> q[i].group == g) && forall k :: 0 <= k < i ==> q[k].group != g
  {
    if q == [] || q[0].group == g then 0 else 1 + Find(q[1..], g)
  }

  /** A join of group g that is good until end. */
  function Join(q: Queue, max: nat, g: Group, end: int): (r: Queue) {
    var i := Find(q, g);
    if i < |q| then RemoveAt(q, i) + [Membership(g, end)]
    else (if |q| == max && q != [] then q[1..] else q) + [Membership(g, end)]
  }

  function Leave(q: Queue, g: Group): (r: Queue) {
    var i := Find(q, g);
    if i < |q| then RemoveAt(q, i) else q
  }

  /** Section 6.6.1 of RFC 3376: a group-specific query leaves the members of g until limit to answer. */
  function Lower(q: Queue, g: Group, limit: int): (r: Queue)
    ensures |r| == |q|
    ensures forall k :: 0 <= k < |q| ==> r[k] == if q[k].group == g && q[k].end > limit then Membership(g, limit) else q[k]
  {
    seq(|q|, k requires 0 <= k < |q| => if q[k].group == g && q[k].end > limit then Membership(g, limit) else q[k])
  }

  /** Joining: g is the most recent membership, the others stay, except the least recent when full. */
  lemma JoinEffect(q: Queue, max: nat, g: Group, end: int)
    requires DistinctGroups(q) && |q| <= max && max > 0
    ensures var r := Join(q, max, g, end);
            && DistinctGroups(r) && |r| <= max && r != [] && r[|r| - 1] == Membership(g, end)
            && (forall m :: m in q && m.group != g && !(Find(q, g) == |q| == max && m == q[0]) ==> m in r)
            && (forall m :: m in r && m.group != g ==> m in q)
  {
    hide RemoveAt, Find, Join;
    var i, r := Find(q, g), Join(q, max, g, end);
    JoinDistinct(q, max, g, end);
    forall m | m in q && m.group != g && !(i == |q| == max && m == q[0])
      ensures m in r
    {
      var k :| 0 <= k < |q| && q[k] == m;
      JoinKeeps(q, max, g, end, k);
    }
  }

  lemma JoinDistinct(q: Queue, max: nat, g: Group, end: int)
    requires DistinctGroups(q) && |q| <= max && max > 0
    ensures var r := Join(q, max, g, end);
            && DistinctGroups(r) && |r| <= max && r != [] && r[|r| - 1] == Membership(g, end)
            && forall m :: m in r && m.group != g ==> m in q
  {
    hide RemoveAt, Find;
  }

  lemma JoinKeeps(q: Queue, max: nat, g: Group, end: int, k: nat)
    requires k < |q| <= max && q[k].group != g && !(Find(q, g) == |q| == max && k == 0)
    ensures q[k] in Join(q, max, g, end)
  {
    hide RemoveAt, Find;
    var i, r := Find(q, g), Join(q, max, g, end);
    if i < |q| {
      assert if k < i then r[k] == q[k] else r[k - 1] == q[k];
    } else if |q| == max {
      assert r[k - 1] == q[k];
    } else {
      assert r[k] == q[k];
    }
  }

  lemma LeaveEffect(q: Queue, g: Group)
    requires DistinctGroups(q)
    ensures DistinctGroups(Leave(q, g)) && forall m :: m in Leave(q, g) <==> m in q && m.group != g
  {
    hide RemoveAt, Find;
    var i, r := Find(q, g), Leave(q, g);
    forall m | m in q && m.group != g
      ensures m in r
    {
      var k :| 0 <= k < |q| && q[k] == m;
      if i < |q| {
        assert if k < i then r[k] == m else r[k - 1] == m;
      }
    }
  }

  // ---------------------------------------------------------------- a peer's entries

  /** Free and used lists of entry numbers; the group and the timer end of each entry; tree by group. */
  datatype Entries = Entries(free: seq<nat>, used: seq<nat>, group: seq<Group>, endTime: seq<int>, tree: map<Group, nat>)

  ghost function QueueOf(e: Entries): (q: Queue)
    requires forall k :: 0 <= k < |e.used| ==> e.used[k] < |e.group| && e.used[k] < |e.endTime|
    ensures |q| == |e.used|
    ensures forall k :: 0 <= k < |q| ==> q[k] == Membership(e.group[e.used[k]], e.endTime[e.used[k]])
  {
    seq(|e.used|, k requires 0 <= k < |e.used| => Membership(e.group[e.used[k]], e.endTime[e.used[k]]))
  }

  ghost predicate TreeOk(tree: map<Group, nat>, used: seq<nat>, q: Queue) {
    && |used| == |q|
    && (forall k :: 0 <= k < |q| ==> q[k].group in tree && tree[q[k].group] == used[k])
    && (forall g :: g in tree ==> Find(q, g) < |q|)
  }

  ghost predicate EntriesOk(e: Entries, max: nat, q: Queue) {
    && Pool(e.free, e.used, max) && |e.group| == |e.endTime| == max
    && q == QueueOf(e) && DistinctGroups(q) && TreeOk(e.tree, e.used, q)
  }

  /** The entry already in use for g: back of the list, new expiry. */
  function Touch(e: Entries, x: nat, end: int): (r: Entries)
    requires x < |e.endTime|
  {
    e.(used := Remove(e.used, x) + [x], endTime := e.endTime[x := end])
  }

  /** Entry x, neither free nor used any more, becomes the entry for g. */
  function Assign(e: Entries, x: nat, g: Group, end: int): (r: Entries)
    requires x < |e.group| && x < |e.endTime|
  {
    e.(used := e.used + [x], group := e.group[x := g], tree := e.tree[g := x], endTime := e.endTime[x := end])
  }

  function TakeFree(e: Entries): (r: Entries)
    requires e.free != []
  {
    e.(free := e.free[1..])
  }

  function TakeOldest(e: Entries): (r: Entries)
    requires e.used != [] && e.used[0] < |e.group|
  {
    e.(used := e.used[1..], tree := e.tree - {e.group[e.used[0]]})
  }

  function Release(e: Entries, x: nat): (r: Entries)
    requires x < |e.group|
  {
    e.(free := e.free + [x], used := Remove(e.used, x), tree := e.tree - {e.group[x]})
  }

  /** The position of the entry the tree gives for g. */
  lemma LookUp(e: Entries, max: nat, q: Queue, g: Group)
    requires EntriesOk(e, max, q)
    ensures g in e.tree <==> Find(q, g) < |q|
    ensures g in e.tree ==> Find(q, g) < |e.used| && e.used[Find(q, g)] == e.tree[g] && e.tree[g] < max && e.group[e.tree[g]] == g
  {
  }

  lemma TreeRemoveAt(tree: map<Group, nat>, used: seq<nat>, q: Queue, i: nat)
    requires TreeOk(tree, used, q) && DistinctGroups(q) && i < |q|
    ensures TreeOk(tree - {q[i].group}, RemoveAt(used, i), RemoveAt(q, i)) && DistinctGroups(RemoveAt(q, i))
  {
    hide RemoveAt;
    var t, r := tree - {q[i].group}, RemoveAt(q, i);
    forall g | g in t
      ensures Find(r, g) < |r|
    {
      var k := Find(q, g);
      assert if k < i then r[k].group == g else r[k - 1].group == g;
    }
  }

  lemma TreeAppend(tree: map<Group, nat>, used: seq<nat>, q: Queue, x: nat, m: Membership)
    requires TreeOk(tree, used, q) && DistinctGroups(q) && Find(q, m.group) == |q|
    ensures TreeOk(tree[m.group := x], used + [x], q + [m]) && DistinctGroups(q + [m])
  {
    hide Find;
    var t, r := tree[m.group := x], q + [m];
    forall g | g in t
      ensures Find(r, g) < |r|
    {
      var k := if g == m.group then |q| else Find(q, g);
      assert r[k].group == g;
    }
  }

  lemma TouchOk(e: Entries, max: nat, q: Queue, g: Group, end: int)
    requires EntriesOk(e, max, q) && g in e.tree
    ensures e.tree[g] < |e.endTime| && EntriesOk(Touch(e, e.tree[g], end), max, Join(q, max, g, end))
  {
    hide RemoveAt, Remove, Pool, TreeOk, DistinctGroups, Find;
    LookUp(e, max, q, g);
    var i, x := Find(q, g), e.tree[g];
    PoolMove(e.free, e.used, max, i);
    UsedDistinct(e.free, e.used, max);
    TreeRemoveAt(e.tree, e.used, q, i);
    var q1 := RemoveAt(q, i);
    assert Find(q1, g) == |q1| by { AbsentAfterRemove(q, i); }
    TreeAppend(e.tree - {g}, RemoveAt(e.used, i), q1, x, Membership(g, end));
    assert (e.tree - {g})[g := x] == e.tree;
    PoolRange(e.free, e.used, max);
    PoolRange(e.free, RemoveAt(e.used, i) + [x], max);
    RequeueTouch(e, max, i, x, end);
  }

  lemma UsedDistinct(free: seq<nat>, used: seq<nat>, max: nat)
    requires Pool(free, used, max)
    ensures NoDuplicates(used)
  {
  }

  lemma AbsentAfterRemove(q: Queue, i: nat)
    requires DistinctGroups(q) && i < |q|
    ensures Find(RemoveAt(q, i), q[i].group) == |RemoveAt(q, i)|
  {
    hide RemoveAt;
    var r := RemoveAt(q, i);
    forall k | 0 <= k < |r| ensures r[k].group != q[i].group { }
  }

  lemma RequeueTouch(e: Entries, max: nat, i: nat, x: nat, end: int)
    requires InRange(e.used, max) && |e.group| == |e.endTime| == max && i < |e.used| && e.used[i] == x && NoDuplicates(e.used)
    requires Remove(e.used, x) == RemoveAt(e.used, i) && InRange(RemoveAt(e.used, i) + [x], max)
    ensures QueueOf(Touch(e, x, end)) == RemoveAt(QueueOf(e), i) + [Membership(e.group[x], end)]
  {
    hide Remove;
  }

  /** Filling the unused entry x: the queue gets one more membership at its end. */
  lemma AssignQueue(e: Entries, max: nat, x: nat, g: Group, end: int)
    requires InRange(e.used, max) && |e.group| == |e.endTime| == max && x < max && x !in e.used
    ensures InRange(Assign(e, x, g, end).used, max)
    ensures QueueOf(Assign(e, x, g, end)) == QueueOf(e) + [Membership(g, end)]
  {
    var r := Assign(e, x, g, end);
    assert forall k :: 0 <= k < |e.used| ==> e.used[k] in e.used;
    assert |QueueOf(r)| == |QueueOf(e)| + 1;
  }

  lemma UseFreeOk(e: Entries, max: nat, q: Queue, g: Group, end: int)
    requires EntriesOk(e, max, q) && g !in e.tree && e.free != []
    ensures e.free[0] < |e.group| == |e.endTime| && e.free[0] !in e.used
    ensures EntriesOk(Assign(TakeFree(e), e.free[0], g, end), max, Join(q, max, g, end))
  {
    var x := e.free[0];
    PoolUse(e.free, e.used, max);
    LookUp(e, max, q, g);
    PoolRange(e.free, e.used, max);
    TreeAppend(e.tree, e.used, q, x, Membership(g, end));
    AssignQueue(TakeFree(e), max, x, g, end);
    assert QueueOf(TakeFree(e)) == QueueOf(e);
    PoolSize(e.free, e.used, max);
    hide Pool, QueueOf, TreeOk, DistinctGroups;
  }

  lemma PoolSize(free: seq<nat>, used: seq<nat>, max: nat)
    requires Pool(free, used, max)
    ensures |free| + |used| == max
  {
  }

  lemma FirstOnly<T>(s: seq<T>)
    requires s != []
    ensures RemoveAt(s, 0) == s[1..]
  {
  }

  lemma ReuseOldestOk(e: Entries, max: nat, q: Queue, g: Group, end: int)
    requires EntriesOk(e, max, q) && g !in e.tree && e.free == [] && max > 0
    ensures e.used != [] && e.used[0] < |e.group| == |e.endTime| && e.used[0] !in e.used[1..]
    ensures EntriesOk(Assign(TakeOldest(e), e.used[0], g, end), max, Join(q, max, g, end))
  {
    PoolSize(e.free, e.used, max);
    var x := e.used[0];
    PoolMove(e.free, e.used, max, 0);
    FirstOnly(e.used);
    FirstOnly(q);
    LookUp(e, max, q, g);
    PoolRange(e.free, e.used, max);
    TreeRemoveAt(e.tree, e.used, q, 0);
    assert Find(q[1..], g) == |q[1..]|;
    TreeAppend(e.tree - {q[0].group}, e.used[1..], q[1..], x, Membership(g, end));
    var e1 := TakeOldest(e);
    assert InRange(e1.used, max) && x !in e1.used;
    AssignQueue(e1, max, x, g, end);
    assert QueueOf(e1) == q[1..];
    hide Pool, TreeOk, DistinctGroups, QueueOf;
  }

  lemma ReleaseOk(e: Entries, max: nat, q: Queue, g: Group)
    requires EntriesOk(e, max, q) && g in e.tree
    ensures e.tree[g] < |e.group| && e.group[e.tree[g]] == g && EntriesOk(Release(e, e.tree[g]), max, Leave(q, g))
  {
    LookUp(e, max, q, g);
    var i, x := Find(q, g), e.tree[g];
    PoolFree(e.free, e.used, max, i);
    TreeRemoveAt(e.tree, e.used, q, i);
    PoolRange(e.free + [x], RemoveAt(e.used, i), max);
    hide RemoveAt, Remove, Pool, TreeOk, DistinctGroups;
    assert QueueOf(Release(e, x)) == RemoveAt(QueueOf(e), i);
  }

  // ---------------------------------------------------------------- all peers and the index

  /** active: the group of every used entry of every peer. */
  ghost predicate ActiveFor(pools: map<Peer, Entries>, active: map<Entry, Group>) {
    && (forall p, x :: (p, x) in active <==> p in pools && x in pools[p].used)
    && (forall p, x :: (p, x) in active ==> x < |pools[p].group| && active[(p, x)] == pools[p].group[x])
  }

  /** The used entries of e that are not x are those of e', with the same groups. */
  ghost predicate SameBut(e: Entries, e': Entries, x: nat) {
    && |e'.group| == |e.group|
    && (forall y: nat :: y != x ==> (y in e.used <==> y in e'.used))
    && (forall y: nat :: y != x && y < |e.group| ==> e'.group[y] == e.group[y])
  }

  lemma ActivePut(pools: map<Peer, Entries>, active: map<Entry, Group>, p: Peer, e: Entries, x: nat)
    requires ActiveFor(pools, active) && p in pools && SameBut(pools[p], e, x) && x in e.used && x < |e.group|
    ensures ActiveFor(pools[p := e], active[(p, x) := e.group[x]])
  {
  }

  lemma ActiveDrop(pools: map<Peer, Entries>, active: map<Entry, Group>, p: Peer, e: Entries, x: nat)
    requires ActiveFor(pools, active) && p in pools && SameBut(pools[p], e, x) && x !in e.used
    ensures ActiveFor(pools[p := e], active - {(p, x)})
  {
  }

  lemma RemoveSame(e: Entries, x: nat, e': Entries)
    requires NoDuplicates(e.used) && e'.group == e.group && e'.used == Remove(e.used, x)
    ensures SameBut(e, e', x) && x !in e'.used
  {
    RemoveMembers(e.used, x);
  }

  /** The program's pools and index stand for one membership queue per peer. */
  ghost predicate Rep(pools: map<Peer, Entries>, ix: Index, active: map<Entry, Group>, view: map<Peer, Queue>, max: nat) {
    && max > 0 && pools.Keys == view.Keys
    && (forall p :: p in pools ==> EntriesOk(pools[p], max, view[p]))
    && ActiveFor(pools, active) && IndexInv(ix, active)
  }

  lemma RepPeer(pools: map<Peer, Entries>, ix: Index, active: map<Entry, Group>, view: map<Peer, Queue>, max: nat, p: Peer)
    requires Rep(pools, ix, active, view, max) && p in pools
    ensures p in view && EntriesOk(pools[p], max, view[p]) && NoDuplicates(pools[p].used)
  {
  }

  lemma RepUpdate(pools: map<Peer, Entries>, ix: Index, active: map<Entry, Group>, view: map<Peer, Queue>, max: nat,
                  p: Peer, e: Entries, q: Queue, ix': Index, active': map<Entry, Group>)
    requires Rep(pools, ix, active, view, max) && p in pools && EntriesOk(e, max, q)
    requires ActiveFor(pools[p := e], active') && IndexInv(ix', active')
    ensures Rep(pools[p := e], ix', active', view[p := q], max)
  {
    hide EntriesOk, ActiveFor, IndexInv;
  }

  lemma RepTouch(pools: map<Peer, Entries>, ix: Index, active: map<Entry, Group>, view: map<Peer, Queue>, max: nat, p: Peer, g: Group, end: int)
    requires Rep(pools, ix, active, view, max) && p in pools && g in pools[p].tree
    ensures p in view && pools[p].tree[g] < |pools[p].endTime|
    ensures Rep(pools[p := Touch(pools[p], pools[p].tree[g], end)], ix, active, view[p := Join(view[p], max, g, end)], max)
  {
    hide EntriesOk, IndexInv;
    RepPeer(pools, ix, active, view, max, p);
    var e := pools[p];
    TouchOk(e, max, view[p], g, end);
    var x, e' := e.tree[g], Touch(e, e.tree[g], end);
    TouchSame(e, max, view[p], g, end);
    ActivePut(pools, active, p, e', x);
    assert active[(p, x) := e'.group[x]] == active;
    RepUpdate(pools, ix, active, view, max, p, e', Join(view[p], max, g, end), ix, active);
  }

  lemma TouchSame(e: Entries, max: nat, q: Queue, g: Group, end: int)
    requires EntriesOk(e, max, q) && g in e.tree
    ensures var x := e.tree[g];
            x < |e.endTime| && x < |e.group| && x in e.used && x in Touch(e, x, end).used && SameBut(e, Touch(e, x, end), x)
  {
    LookUp(e, max, q, g);
    RemoveMembers(e.used, e.tree[g]);
  }

  lemma RepUseFree(pools: map<Peer, Entries>, ix: Index, active: map<Entry, Group>, view: map<Peer, Queue>, max: nat, p: Peer, g: Group, end: int)
    requires Rep(pools, ix, active, view, max) && p in pools && g !in pools[p].tree && pools[p].free != []
    ensures p in view && pools[p].free[0] < |pools[p].group| == |pools[p].endTime|
    ensures forall s :: s in ix.tree ==> ix.tree[s] in ix.chain && ix.tree[s] in ix.chain[ix.tree[s]]
    ensures var e, x := pools[p], pools[p].free[0];
            Rep(pools[p := Assign(TakeFree(e), x, g, end)], AddToMulticast(ix, (p, x), g), active[(p, x) := g],
                view[p := Join(view[p], max, g, end)], max)
  {
    hide EntriesOk, IndexInv, AddToMulticast;
    RepPeer(pools, ix, active, view, max, p);
    var e, x := pools[p], pools[p].free[0];
    UseFreeOk(e, max, view[p], g, end);
    var e' := Assign(TakeFree(e), x, g, end);
    ActivePut(pools, active, p, e', x);
    AddInv(ix, active, (p, x), g);
    RepUpdate(pools, ix, active, view, max, p, e', Join(view[p], max, g, end), AddToMulticast(ix, (p, x), g), active[(p, x) := g]);
  }

  /** The least recent entry leaves the index, then comes back as the entry for g. */
  lemma RepReuse(pools: map<Peer, Entries>, ix: Index, active: map<Entry, Group>, view: map<Peer, Queue>, max: nat, p: Peer, g: Group, end: int)
    requires Rep(pools, ix, active, view, max) && p in pools && g !in pools[p].tree && pools[p].free == []
    ensures p in view && pools[p].used != [] && pools[p].used[0] < |pools[p].group| == |pools[p].endTime|
    ensures var e, x := pools[p], pools[p].used[0];
            && (p, x) in ix.chain && (p, x) in ix.chain[(p, x)]
            && var ix1 := RemoveFromMulticast(ix, (p, x), e.group[x]);
            && (forall s :: s in ix1.tree ==> ix1.tree[s] in ix1.chain && ix1.tree[s] in ix1.chain[ix1.tree[s]])
            && Rep(pools[p := Assign(TakeOldest(e), x, g, end)], AddToMulticast(ix1, (p, x), g), active[(p, x) := g],
                   view[p := Join(view[p], max, g, end)], max)
  {
    hide EntriesOk, IndexInv, AddToMulticast, RemoveFromMulticast;
    RepPeer(pools, ix, active, view, max, p);
    ReuseOldestOk(pools[p], max, view[p], g, end);
    var e, x := pools[p], pools[p].used[0];
    var e', a := Assign(TakeOldest(e), x, g, end), (p, x);
    OldestSame(e, e', x);
    ActivePut(pools, active, p, e', x);
    assert active[a] == e.group[x];
    RemoveInv(ix, active, a);
    var ix1 := RemoveFromMulticast(ix, a, e.group[x]);
    AddInv(ix1, active - {a}, a, g);
    assert (active - {a})[a := g] == active[a := g];
    RepUpdate(pools, ix, active, view, max, p, e', Join(view[p], max, g, end), AddToMulticast(ix1, a, g), active[a := g]);
  }

  lemma OldestSame(e: Entries, e': Entries, x: nat)
    requires e.used != [] && x == e.used[0] && x < |e.group| && e'.used == e.used[1..] + [x]
    requires |e'.group| == |e.group| && forall y: nat :: y < |e.group| && y != x ==> e'.group[y] == e.group[y]
    ensures SameBut(e, e', x) && x in e'.used
  {
    assert e.used == [x] + e.used[1..];
  }

  lemma RepRelease(pools: map<Peer, Entries>, ix: Index, active: map<Entry, Group>, view: map<Peer, Queue>, max: nat, p: Peer, g: Group)
    requires Rep(pools, ix, active, view, max) && p in pools && g in pools[p].tree
    ensures p in view && pools[p].tree[g] < |pools[p].group|
    ensures var e, x := pools[p], pools[p].tree[g];
            && e.group[x] == g && (p, x) in ix.chain && (p, x) in ix.chain[(p, x)]
            && Rep(pools[p := Release(e, x)], RemoveFromMulticast(ix, (p, x), g), active - {(p, x)},
                   view[p := Leave(view[p], g)], max)
  {
    hide EntriesOk, IndexInv, RemoveFromMulticast, Remove;
    RepPeer(pools, ix, active, view, max, p);
    var e, x := pools[p], pools[p].tree[g];
    ReleaseOk(e, max, view[p], g);
    TouchSame(e, max, view[p], g, 0);
    RemoveSame(e, x, Release(e, x));
    ActiveDrop(pools, active, p, Release(e, x), x);
    RemoveInv(ix, active, (p, x));
    RepUpdate(pools, ix, active, view, max, p, Release(e, x), Leave(view[p], g), RemoveFromMulticast(ix, (p, x), g), active - {(p, x)});
  }

  /** The used entry x is the one the tree gives for its group. */
  lemma UsedInTree(e: Entries, max: nat, q: Queue, x: nat)
    requires EntriesOk(e, max, q) && x in e.used
    ensures x < |e.group| && e.group[x] in e.tree && e.tree[e.group[x]] == x
  {
    var k :| 0 <= k < |e.used| && e.used[k] == x;
    assert q[k].group == e.group[x];
  }

  function AllFree(max: nat): (e: Entries)
    ensures e.used == []
  {
    Entries(seq(max, i => i), [], seq(max, _ => 0), seq(max, _ => 0), map[])
  }

  lemma AllFreeOk(max: nat)
    ensures EntriesOk(AllFree(max), max, [])
  {
    assert QueueOf(AllFree(max)) == [];
  }

  lemma RepAdd(pools: map<Peer, Entries>, ix: Index, active: map<Entry, Group>, view: map<Peer, Queue>, max: nat, p: Peer, e: Entries)
    requires Rep(pools, ix, active, view, max) && p !in pools && EntriesOk(e, max, []) && e.used == []
    ensures Rep(pools[p := e], ix, active, view[p := []], max)
  {
    hide EntriesOk, IndexInv;
  }

  // ---------------------------------------------------------------- lowering timers

  function LowerAll(view: map<Peer, Queue>, g: Group, limit: int): (r: map<Peer, Queue>)
    ensures r.Keys == view.Keys
  {
    map p | p in view :: Lower(view[p], g, limit)
  }

  /** The end time of entry a once the entries in done were handled. */
  ghost function EndAfter(e: Entries, a: Entry, done: seq<Entry>, g: Group, limit: int): (t: int)
    requires a.1 < |e.group| == |e.endTime|
  {
    if a in done && e.group[a.1] == g && e.endTime[a.1] > limit then limit else e.endTime[a.1]
  }

  ghost predicate LoweredEntries(e: Entries, e': Entries, p: Peer, done: seq<Entry>, g: Group, limit: int) {
    && |e.group| == |e.endTime| == |e'.endTime| && e' == e.(endTime := e'.endTime)
    && forall x: nat :: x < |e.endTime| ==> e'.endTime[x] == EndAfter(e, (p, x), done, g, limit)
  }

  ghost predicate Lowered(pools: map<Peer, Entries>, pools': map<Peer, Entries>, done: seq<Entry>, g: Group, limit: int) {
    pools.Keys == pools'.Keys && forall p :: p in pools ==> LoweredEntries(pools[p], pools'[p], p, done, g, limit)
  }

  lemma LoweredStart(pools: map<Peer, Entries>, ix: Index, active: map<Entry, Group>, view: map<Peer, Queue>, max: nat, g: Group, limit: int)
    requires Rep(pools, ix, active, view, max)
    ensures Lowered(pools, pools, [], g, limit)
  {
    forall p | p in pools ensures LoweredEntries(pools[p], pools[p], p, [], g, limit) {
      assert EntriesOk(pools[p], max, view[p]);
    }
  }

  function LowerEntry(e: Entries, x: nat, g: Group, limit: int): (r: Entries)
    requires x < |e.group| && x < |e.endTime|
  {
    if e.group[x] == g && e.endTime[x] > limit then e.(endTime := e.endTime[x := limit]) else e
  }

  lemma LoweredStep(pools: map<Peer, Entries>, pools': map<Peer, Entries>, done: seq<Entry>, a: Entry, g: Group, limit: int)
    requires Lowered(pools, pools', done, g, limit) && a.0 in pools && a.1 < |pools[a.0].endTime| && a !in done
    ensures a.0 in pools' && a.1 < |pools'[a.0].group| && a.1 < |pools'[a.0].endTime|
    ensures Lowered(pools, pools'[a.0 := LowerEntry(pools'[a.0], a.1, g, limit)], done + [a], g, limit)
  {
    var (p, x) := a;
    assert LoweredEntries(pools[p], pools'[p], p, done, g, limit);
    var e := LowerEntry(pools'[p], x, g, limit);
    assert LoweredEntries(pools[p], e, p, done + [a], g, limit);
    forall q | q in pools && q != p ensures LoweredEntries(pools[q], pools'[q], q, done + [a], g, limit) {
      assert LoweredEntries(pools[q], pools'[q], q, done, g, limit);
    }
  }

  lemma FindLower(q: Queue, g: Group, limit: int, h: Group)
    ensures Find(q, h) < |q| ==> Find(Lower(q, g, limit), h) < |q|
  {
    var i, r := Find(q, h), Lower(q, g, limit);
    if i < |q| {
      assert r[i].group == h;
    }
  }

  lemma LowerOk(e: Entries, e': Entries, max: nat, q: Queue, p: Peer, done: seq<Entry>, g: Group, limit: int)
    requires EntriesOk(e, max, q) && LoweredEntries(e, e', p, done, g, limit)
    requires forall x: nat :: x in e.used && x < |e.group| && e.group[x] == g ==> (p, x) in done
    ensures EntriesOk(e', max, Lower(q, g, limit))
  {
    var r := Lower(q, g, limit);
    PoolRange(e.free, e.used, max);
    LowerQueue(e, e', max, q, p, done, g, limit);
    forall h | h in e.tree ensures Find(r, h) < |r| { FindLower(q, g, limit, h); }
    hide Pool, QueueOf;
  }

  lemma LowerQueue(e: Entries, e': Entries, max: nat, q: Queue, p: Peer, done: seq<Entry>, g: Group, limit: int)
    requires InRange(e.used, max) && |e.group| == |e.endTime| == max && q == QueueOf(e) && LoweredEntries(e, e', p, done, g, limit)
    requires forall x: nat :: x in e.used && x < |e.group| && e.group[x] == g ==> (p, x) in done
    ensures InRange(e'.used, max) && QueueOf(e') == Lower(q, g, limit)
  {
    var r := Lower(q, g, limit);
    forall k | 0 <= k < |r| ensures QueueOf(e')[k] == r[k] {
      var x := e.used[k];
      assert x in e.used && q[k] == Membership(e.group[x], e.endTime[x]);
      assert e'.endTime[x] == EndAfter(e, (p, x), done, g, limit);
    }
  }

  lemma RepLower(pools: map<Peer, Entries>, pools': map<Peer, Entries>, ix: Index, active: map<Entry, Group>, view: map<Peer, Queue>,
                 max: nat, done: seq<Entry>, g: Group, limit: int)
    requires Rep(pools, ix, active, view, max) && Lowered(pools, pools', done, g, limit)
    requires forall a :: Has(active, a, SigOfGroup(g)) ==> a in done
    ensures Rep(pools', ix, active, LowerAll(view, g, limit), max)
  {
    hide EntriesOk, IndexInv, SigOfGroup, Lower;
    forall p | p in pools'
      ensures EntriesOk(pools'[p], max, LowerAll(view, g, limit)[p])
    {
      assert LoweredEntries(pools[p], pools'[p], p, done, g, limit);
      forall x: nat | x in pools[p].used && x < |pools[p].group| && pools[p].group[x] == g ensures (p, x) in done {
        assert (p, x) in active;
        assert Has(active, (p, x), SigOfGroup(g));
      }
      LowerOk(pools[p], pools'[p], max, view[p], p, done, g, limit);
    }
    LoweredActive(pools, pools', active, done, g, limit);
  }

  lemma LoweredActive(pools: map<Peer, Entries>, pools': map<Peer, Entries>, active: map<Entry, Group>, done: seq<Entry>, g: Group, limit: int)
    requires ActiveFor(pools, active) && Lowered(pools, pools', done, g, limit)
    ensures ActiveFor(pools', active)
  {
    assert forall p :: p in pools ==> LoweredEntries(pools[p], pools'[p], p, done, g, limit);
  }

  /** The entries of a signature list are used entries of their peers. */
  lemma MemberIsUsed(pools: map<Peer, Entries>, ix: Index, active: map<Entry, Group>, view: map<Peer, Queue>, max: nat, sig: Sig)
    requires Rep(pools, ix, active, view, max)
    ensures sig in ix.tree ==> ix.tree[sig] in ix.chain
    ensures ListOf(active, Members(ix, sig), sig)
    ensures forall a :: a in Members(ix, sig) ==> a.0 in pools && a.1 in pools[a.0].used && a.1 < |pools[a.0].group| == |pools[a.0].endTime|
  {
    MembersExact(ix, active, sig);
    hide EntriesOk, IndexInv, SigOfGroup, Members;
    forall a | a in Members(ix, sig)
      ensures a.0 in pools && a.1 in pools[a.0].used && a.1 < |pools[a.0].group| == |pools[a.0].endTime|
    {
      assert Has(active, a, sig);
      assert (a.0, a.1) in active;
      SizesOk(pools[a.0], max, view[a.0]);
    }
  }

  lemma SizesOk(e: Entries, max: nat, q: Queue)
    requires EntriesOk(e, max, q)
    ensures |e.group| == |e.endTime| == max
  {
  }

  // ---------------------------------------------------------------- removing a peer

  /** What is active once the first n used entries of p left the index. */
  ghost predicate Without(active: map<Entry, Group>, active': map<Entry, Group>, p: Peer, gone: seq<nat>) {
    && (forall a :: a in active' <==> a in active && !(a.0 == p && a.1 in gone))
    && (forall a :: a in active' ==> active'[a] == active[a])
  }

  lemma RepDrop(pools: map<Peer, Entries>, ix: Index, active: map<Entry, Group>, view: map<Peer, Queue>, max: nat,
                p: Peer, ix': Index, active': map<Entry, Group>)
    requires Rep(pools, ix, active, view, max) && p in pools && IndexInv(ix', active')
    requires Without(active, active', p, pools[p].used)
    ensures Rep(pools - {p}, ix', active', view - {p}, max)
  {
    hide EntriesOk, IndexInv;
  }

  lemma DropStep(ix: Index, pools: map<Peer, Entries>, active: map<Entry, Group>, active': map<Entry, Group>, p: Peer, i: nat)
    requires ActiveFor(pools, active) && p in pools && NoDuplicates(pools[p].used) && i < |pools[p].used|
    requires Without(active, active', p, pools[p].used[..i]) && IndexInv(ix, active')
    ensures var e, x := pools[p], pools[p].used[i];
            && x < |e.group| && (p, x) in ix.chain && (p, x) in ix.chain[(p, x)]
            && IndexInv(RemoveFromMulticast(ix, (p, x), e.group[x]), active' - {(p, x)})
            && Without(active, active' - {(p, x)}, p, e.used[..i + 1])
  {
    hide IndexInv, RemoveFromMulticast;
    var used := pools[p].used;
    var x := used[i];
    assert (p, x) in active && x !in used[..i];
    RemoveInv(ix, active', (p, x));
    assert used[..i + 1] == used[..i] + [x];
  }

  class GroupTable {
    const maxPeerGroups: nat
    var pools: map<Peer, Entries>
    /** multicast_tree, the is_master flags and the signature list nodes. */
    var index: Index
    /** The group of every used entry. */
    ghost var active: map<Entry, Group>
    /** The membership queue of every peer. */
    ghost var view: map<Peer, Queue>

    ghost predicate Valid()
      reads this
    {
      Rep(pools, index, active, view, maxPeerGroups)
    }

    constructor (maxPeerGroups: nat)
      requires maxPeerGroups > 0
      ensures Valid() && view == map[] && this.maxPeerGroups == maxPeerGroups
    {
      this.maxPeerGroups := maxPeerGroups;
      pools, index, active, view := map[], Empty, map[], map[];
    }

    /** The group part of FrameDeciderPeer_Init: all entries free. */
    method InitPeer(p: Peer)
      requires Valid() && p !in view
      modifies this
      ensures Valid() && view == old(view)[p := []] && index == old(index)
    {
      hide EntriesOk, IndexInv, ActiveFor;
      var e := AllFree(maxPeerGroups);
      AllFreeOk(maxPeerGroups);
      RepAdd(pools, index, active, view, maxPeerGroups, p, e);
      pools := pools[p := e];
      view := view[p := []];
    }

    /** add_group_to_peer; end is the current time plus the membership interval. */
    method AddGroupToPeer(p: Peer, group: Group, end: int)
      requires Valid() && p in view
      modifies this
      ensures Valid() && view == old(view)[p := Join(old(view)[p], maxPeerGroups, group, end)]
    {
      hide EntriesOk, ActiveFor, IndexInv, Join, AddToMulticast, RemoveFromMulticast;
      var e := pools[p];
      if group in e.tree {
        RepTouch(pools, index, active, view, maxPeerGroups, p, group, end);
        pools := pools[p := Touch(e, e.tree[group], end)];
      } else if e.free != [] {
        RepUseFree(pools, index, active, view, maxPeerGroups, p, group, end);
        var x := e.free[0];
        pools := pools[p := Assign(TakeFree(e), x, group, end)];
        index := AddToMulticast(index, (p, x), group);
        active := active[(p, x) := group];
      } else {
        RepReuse(pools, index, active, view, maxPeerGroups, p, group, end);
        var x := e.used[0];
        index := RemoveFromMulticast(index, (p, x), e.group[x]);
        pools := pools[p := Assign(TakeOldest(e), x, group, end)];
        index := AddToMulticast(index, (p, x), group);
        active := active[(p, x) := group];
      }
      view := view[p := Join(view[p], maxPeerGroups, group, end)];
    }

    /** group_entry_timer_handler and remove_group_entry, for a used entry of p. */
    method RemoveGroupEntry(p: Peer, x: nat)
      requires Valid() && p in view && p in pools && x in pools[p].used
      modifies this
      ensures Valid() && p in old(pools) && x < |old(pools)[p].group|
      ensures view == old(view)[p := Leave(old(view)[p], old(pools)[p].group[x])]
    {
      hide EntriesOk, ActiveFor, IndexInv, Leave, RemoveFromMulticast;
      UsedInTree(pools[p], maxPeerGroups, view[p], x);
      var e, group := pools[p], pools[p].group[x];
      RepRelease(pools, index, active, view, maxPeerGroups, p, group);
      index := RemoveFromMulticast(index, (p, x), group);
      pools := pools[p := Release(e, x)];
      active := active - {(p, x)};
      view := view[p := Leave(view[p], group)];
    }

    /** lower_group_timers_to_lmqt; limit is the current time plus the last member query time. */
    method LowerGroupTimersToLmqt(group: Group, limit: int)
      requires Valid()
      modifies this
      ensures Valid() && view == LowerAll(old(view), group, limit) && index == old(index)
    {
      hide Rep, LowerEntry, Lowered, LoweredEntries, SigOfGroup, Members, LowerAll, Has;
      var sig := SigOfGroup(group);
      MemberIsUsed(pools, index, active, view, maxPeerGroups, sig);
      LoweredStart(pools, index, active, view, maxPeerGroups, group, limit);
      var members := Members(index, sig);
      ghost var pools0 := pools;
      for i := 0 to |members|
        invariant index == old(index) && view == old(view) && active == old(active)
        invariant Lowered(pools0, pools, members[..i], group, limit)
      {
        var (p, x) := members[i];
        assert members[i] in members && members[i] !in members[..i];
        LoweredStep(pools0, pools, members[..i], members[i], group, limit);
        assert members[..i + 1] == members[..i] + [members[i]];
        pools := pools[p := LowerEntry(pools[p], x, group, limit)];
      }
      assert members[..|members|] == members;
      RepLower(pools0, pools, index, active, view, maxPeerGroups, members, group, limit);
      view := LowerAll(view, group, limit);
    }

    /** The lookup of FrameDecider_AnalyzeAndDecide: the whole list of the signature, from its first node. */
    method LookupSig(sig: Sig) returns (l: seq<Entry>)
      requires Valid()
      ensures ListOf(active, l, sig)
    {
      MembersExact(index, active, sig);
      l := Members(index, sig);
    }

    /** The group part of FrameDeciderPeer_Free. */
    method FreePeer(p: Peer)
      requires Valid() && p in view
      modifies this
      ensures Valid() && view == old(view) - {p}
    {
      hide EntriesOk, ActiveFor, IndexInv, RemoveFromMulticast, Without;
      RepPeer(pools, index, active, view, maxPeerGroups, p);
      ghost var active0, index0 := active, index;
      var e := pools[p];
      assert Without(active0, active, p, e.used[..0]) by { NothingGone(active0, p); }
      for i := 0 to |e.used|
        invariant pools == old(pools) && view == old(view)
        invariant IndexInv(index, active) && Without(active0, active, p, e.used[..i])
      {
        DropStep(index, pools, active0, active, p, i);
        var x := e.used[i];
        index := RemoveFromMulticast(index, (p, x), e.group[x]);
        active := active - {(p, x)};
      }
      assert e.used[..|e.used|] == e.used;
      RepDrop(pools, index0, active0, view, maxPeerGroups, p, index, active);
      pools := pools - {p};
      view := view - {p};
    }
  }

  lemma NothingGone(active: map<Entry, Group>, p: Peer)
    ensures Without(active, active, p, [])
  {
  }
}