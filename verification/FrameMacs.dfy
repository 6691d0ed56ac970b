/**
  The learned MAC table of the frame decider. The reference is a map from MAC to peer with one
  bounded recency queue per peer; the program keeps a fixed pool of entries per peer, a free
  and a used list of them, and one tree of all used entries by MAC.
  */
module FrameMacs {
  import opened Bytes
  import opened Lists

  type Mac = seq<byte>
  type Peer = nat

  // ---------------------------------------------------------------- the reference

  /** owner: which peer a MAC was learned from; queues: each peer's MACs, least recent first. */
  datatype Table = Table(owner: map<Mac, Peer>, queues: map<Peer, seq<Mac>>)

  ghost predicate TableInv(t: Table, max: nat) {
    && (forall p :: p in t.queues ==> NoDuplicates(t.queues[p]) && |t.queues[p]| <= max)
    && (forall m :: m in t.owner ==> t.owner[m] in t.queues && m in t.queues[t.owner[m]])
    && (forall p, m :: p in t.queues && m in t.queues[p] ==> m in t.owner && t.owner[m] == p)
  }

  function Forget(t: Table, m: Mac): (r: Table)
    requires m in t.owner && t.owner[m] in t.queues
  {
    var p := t.owner[m];
    Table(t.owner - {m}, t.queues[p := Remove(t.queues[p], m)])
  }

  /** Peer p sent a frame with source address m. */
  function Learn(t: Table, max: nat, p: Peer, m: Mac): (r: Table)
    requires max > 0 && p in t.queues
    requires m in t.owner ==> t.owner[m] in t.queues
    requires forall x :: x in t.queues[p] ==> x in t.owner && t.owner[x] == p
  {
    if m in t.owner && t.owner[m] == p then
      t.(queues := t.queues[p := Remove(t.queues[p], m) + [m]])
    else
      var t1 := if m in t.owner then Forget(t, m) else t;
      var t2 := if |t1.queues[p]| == max then Evict(t1, p) else t1;
      Table(t2.owner[m := p], t2.queues[p := t2.queues[p] + [m]])
  }

  /** The peer's least recent MAC goes. */
  function Evict(t: Table, p: Peer): (r: Table)
    requires p in t.queues && t.queues[p] != []
  {
    Table(t.owner - {t.queues[p][0]}, t.queues[p := t.queues[p][1..]])
  }

  function AddPeer(t: Table, p: Peer): (r: Table) { t.(queues := t.queues[p := []]) }

  function DropPeer(t: Table, p: Peer): (r: Table)
    requires p in t.queues
  {
    Table(map m | m in t.owner && t.owner[m] != p :: t.owner[m], t.queues - {p})
  }

  lemma ForgetInv(t: Table, max: nat, m: Mac)
    requires TableInv(t, max) && m in t.owner
    ensures TableInv(Forget(t, m), max)
  {
    var p := t.owner[m];
    RemoveMembers(t.queues[p], m);
  }

  lemma EvictInv(t: Table, max: nat, p: Peer)
    requires TableInv(t, max) && p in t.queues && t.queues[p] != []
    ensures TableInv(Evict(t, p), max)
  {
    var q := t.queues[p];
    assert q[0] in q;
    assert forall x :: x in q[1..] ==> x in q;
    forall x | x in q && x != q[0] ensures x in q[1..] { var i :| 0 <= i < |q| && q[i] == x; assert q[1..][i - 1] == x; }
  }

  lemma AppendInv(t: Table, max: nat, p: Peer, m: Mac)
    requires TableInv(t, max) && p in t.queues && m !in t.owner && |t.queues[p]| < max
    ensures TableInv(Table(t.owner[m := p], t.queues[p := t.queues[p] + [m]]), max)
  {
    assert m !in t.queues[p];
  }

  /** Learning keeps the table consistent and bounded. */
  lemma LearnInv(t: Table, max: nat, p: Peer, m: Mac)
    requires TableInv(t, max) && max > 0 && p in t.queues
    ensures TableInv(Learn(t, max, p, m), max)
  {
    hide TableInv;
    InvUse(t, max);
    if m in t.owner && t.owner[m] == p {
      MoveInv(t, max, p, m);
    } else {
      if m in t.owner { ForgetInv(t, max, m); }
      var t1 := if m in t.owner then Forget(t, m) else t;
      InvUse(t1, max);
      if |t1.queues[p]| == max { EvictInv(t1, max, p); }
      var t2 := if |t1.queues[p]| == max then Evict(t1, p) else t1;
      AppendInv(t2, max, p, m);
    }
  }

  lemma InvUse(t: Table, max: nat)
    requires TableInv(t, max)
    ensures forall p :: p in t.queues ==> |t.queues[p]| <= max
    ensures forall m :: m in t.owner ==> t.owner[m] in t.queues
    ensures forall p, m :: p in t.queues && m in t.queues[p] ==> m in t.owner && t.owner[m] == p
  {
  }

  lemma MoveInv(t: Table, max: nat, p: Peer, m: Mac)
    requires TableInv(t, max) && m in t.owner && t.owner[m] == p
    ensures TableInv(t.(queues := t.queues[p := Remove(t.queues[p], m) + [m]]), max)
  {
    var q := t.queues[p];
    RemoveMembers(q, m);
    assert forall x :: x in Remove(q, m) + [m] <==> x in q;
  }

  lemma DropPeerInv(t: Table, max: nat, p: Peer)
    requires TableInv(t, max) && p in t.queues
    ensures TableInv(DropPeer(t, p), max)
  {
  }

  /** Without the peer only its own MACs are forgotten. */
  lemma DropPeerEffect(t: Table, max: nat, p: Peer)
    requires TableInv(t, max) && p in t.queues
    ensures var r := DropPeer(t, p);
            && (forall m :: m in r.owner <==> m in t.owner && m !in t.queues[p])
            && (forall m :: m in r.owner ==> r.owner[m] == t.owner[m])
            && (forall q :: q in r.queues <==> q in t.queues && q != p) && (forall q :: q in r.queues ==> r.queues[q] == t.queues[q])
  {
  }

  /** Table r is what t becomes when p sends from m. */
  ghost predicate Learned(t: Table, r: Table, max: nat, p: Peer, m: Mac) {
    max > 0 && p in t.queues && TableInv(t, max) && r == Learn(t, max, p, m)
  }

  /** The MAC that learning m for p pushes out, if any: p's least recent one. */
  function Evicted(t: Table, max: nat, p: Peer, m: Mac): (r: Option<Mac>)
    requires p in t.queues
  {
    if |t.queues[p]| == max > 0 && (m !in t.owner || t.owner[m] != p) then Some(t.queues[p][0]) else None
  }

  /**
    What learning does to ownership: the learned MAC now belongs to the learning peer and is
    its most recent one; every other MAC keeps its owner, except the learning peer's least
    recent one when its pool was full; no peer's queue but the learner's and the previous
    owner's changes.
    */
  lemma LearnEffect(t: Table, max: nat, p: Peer, m: Mac)
    requires TableInv(t, max) && max > 0 && p in t.queues
    ensures var r := Learn(t, max, p, m);
            && m in r.owner && r.owner[m] == p && r.queues[p] != [] && r.queues[p][|r.queues[p]| - 1] == m
            && (forall x :: x != m ==> (x in r.owner <==> x in t.owner && Evicted(t, max, p, m) != Some(x)))
            && (forall x :: x != m && x in r.owner ==> r.owner[x] == t.owner[x])
            && r.queues.Keys == t.queues.Keys
            && (forall q :: q in t.queues && q != p && !(m in t.owner && t.owner[m] == q) ==> r.queues[q] == t.queues[q])
  {
    hide TableInv, Remove;
    InvUse(t, max);
    if m in t.owner && t.owner[m] != p {
      var t1 := Forget(t, m);
      assert t1.queues[p] == t.queues[p];
    }
  }

  // ---------------------------------------------------------------- over whole runs

  /** A run of learning events: (peer, source MAC) pairs, oldest first. */
  function LearnAll(t: Table, max: nat, es: seq<(Peer, Mac)>): (r: Table)
    requires TableInv(t, max) && max > 0 && forall e :: e in es ==> e.0 in t.queues
    ensures TableInv(r, max) && r.queues.Keys == t.queues.Keys
    decreases |es|
  {
    if es == [] then t
    else
      LearnInv(t, max, es[0].0, es[0].1);
      LearnEffect(t, max, es[0].0, es[0].1);
      assert forall e :: e in es[1..] ==> e in es;
      LearnAll(Learn(t, max, es[0].0, es[0].1), max, es[1..])
  }

  /** The MACs that peer p learned in a run. */
  ghost function LearnedBy(es: seq<(Peer, Mac)>, p: Peer): (r: set<Mac>) {
    if es == [] then {} else (if es[0].0 == p then {es[0].1} else {}) + LearnedBy(es[1..], p)
  }

  /** p owns m at position k of its queue, and everything more recent there is in recent. */
  ghost predicate OnlyRecentAfter(t: Table, p: Peer, m: Mac, k: nat, recent: set<Mac>) {
    && p in t.queues && k < |t.queues[p]| && t.queues[p][k] == m
    && forall i :: k < i < |t.queues[p]| ==> t.queues[p][i] in recent
  }

  /** Removing another MAC from a queue keeps m and what may follow it. */
  lemma AfterRemoval(q: seq<Mac>, k: nat, x: Mac, recent: set<Mac>) returns (k': nat)
    requires NoDuplicates(q) && k < |q| && q[k] != x && forall i :: k < i < |q| ==> q[i] in recent
    ensures k' < |Remove(q, x)| && Remove(q, x)[k'] == q[k]
    ensures forall i :: k' < i < |Remove(q, x)| ==> Remove(q, x)[i] in recent
  {
    hide Remove, RemoveAt;
    k' := k;
    if x in q {
      var j :| 0 <= j < |q| && q[j] == x;
      RemoveIsRemoveAt(q, j);
      k' := if j < k then k - 1 else k;
    }
  }

  /** A full queue behind m, all recent, and one more recent MAC: too many. */
  lemma FullOfRecent(q: seq<Mac>, x: Mac, recent: set<Mac>)
    requires NoDuplicates(q) && q != [] && x !in q && x in recent && forall i :: 0 < i < |q| ==> q[i] in recent
    ensures |recent| >= |q|
  {
    var s := q[1..] + [x];
    assert NoDuplicates(s);
    ElementsSize(s);
    SubsetSize(Elements(s), recent);
  }

  lemma StaysOnStep(t: Table, max: nat, p: Peer, m: Mac, k: nat, q: Peer, x: Mac, recent: set<Mac>) returns (k': nat)
    requires TableInv(t, max) && max > 0 && q in t.queues && x != m && OnlyRecentAfter(t, p, m, k, recent)
    requires q == p ==> x in recent
    requires |recent| < max
    ensures OnlyRecentAfter(Learn(t, max, q, x), p, m, k', recent)
  {
    hide Remove;
    var r := Learn(t, max, q, x);
    var queue := t.queues[p];
    k' := k;
    if x in t.owner && t.owner[x] == p {
      k' := AfterRemoval(queue, k, x, recent);
    } else if q == p {
      if |queue| == max {
        assert x !in queue;
        FullOfRecent(queue[k..], x, recent) by { assert queue[k..][0] == m; }
        k' := k - 1;
      }
    }
  }

  lemma OwnedIfQueued(t: Table, max: nat, p: Peer, m: Mac, k: nat, recent: set<Mac>)
    requires TableInv(t, max) && OnlyRecentAfter(t, p, m, k, recent)
    ensures m in t.owner && t.owner[m] == p
  {
    assert m in t.queues[p];
  }

  lemma {:induction false} StaysOnRun(t: Table, max: nat, p: Peer, m: Mac, k: nat, es: seq<(Peer, Mac)>, recent: set<Mac>)
    requires TableInv(t, max) && max > 0 && (forall e :: e in es ==> e.0 in t.queues && e.1 != m)
    requires OnlyRecentAfter(t, p, m, k, recent) && LearnedBy(es, p) <= recent && |recent| < max
    ensures var r := LearnAll(t, max, es); m in r.owner && r.owner[m] == p
    decreases |es|
  {
    hide Learn, TableInv, OnlyRecentAfter;
    InvUse(t, max);
    if es == [] {
      OwnedIfQueued(t, max, p, m, k, recent);
    } else {
      var e := es[0];
      assert e in es && forall f :: f in es[1..] ==> f in es;
      LearnInv(t, max, e.0, e.1);
      LearnEffect(t, max, e.0, e.1);
      var k' := StaysOnStep(t, max, p, m, k, e.0, e.1, recent);
      StaysOnRun(Learn(t, max, e.0, e.1), max, p, m, k', es[1..], recent);
    }
  }

  /**
    Recency over runs: once p has sent from m, the table maps m to p for as long as no other
    frame comes from m and p has used fewer than max other addresses since. Other peers'
    traffic can never push it out.
    */
  lemma RecentStays(t: Table, max: nat, p: Peer, m: Mac, es: seq<(Peer, Mac)>)
    requires TableInv(t, max) && max > 0 && p in t.queues
    requires (forall e :: e in es ==> e.0 in t.queues && e.1 != m) && |LearnedBy(es, p)| < max
    ensures var t1 := Learn(t, max, p, m);
            TableInv(t1, max) && t1.queues.Keys == t.queues.Keys
            && var r := LearnAll(t1, max, es); m in r.owner && r.owner[m] == p
  {
    hide Learn, TableInv, LearnedBy;
    InvUse(t, max);
    LearnInv(t, max, p, m);
    LearnEffect(t, max, p, m);
    var t1 := Learn(t, max, p, m);
    StaysOnRun(t1, max, p, m, |t1.queues[p]| - 1, es, LearnedBy(es, p));
  }

  // ---------------------------------------------------------------- the program

  /** A peer's entries: free and used lists of entry numbers, and the MAC in each entry. */
  datatype Entries = Entries(free: seq<nat>, used: seq<nat>, mac: seq<Mac>)

  ghost predicate EntriesOk(e: Entries, max: nat) {
    Pool(e.free, e.used, max) && |e.mac| == max
  }

  ghost function Queue(e: Entries): (q: seq<Mac>)
    requires forall k :: 0 <= k < |e.used| ==> e.used[k] < |e.mac|
    ensures |q| == |e.used| && forall k :: 0 <= k < |q| ==> q[k] == e.mac[e.used[k]]
  {
    seq(|e.used|, k requires 0 <= k < |e.used| => e.mac[e.used[k]])
  }

  /** Taking the first free entry for m. */
  function UseFree(e: Entries, m: Mac): (r: Entries)
    requires e.free != [] && e.free[0] < |e.mac|
  {
    Entries(e.free[1..], e.used + [e.free[0]], e.mac[e.free[0] := m])
  }

  /** Reusing the entry that was used least recently for m. */
  function ReuseOldest(e: Entries, m: Mac): (r: Entries)
    requires e.used != [] && e.used[0] < |e.mac|
  {
    Entries(e.free, e.used[1..] + [e.used[0]], e.mac[e.used[0] := m])
  }

  /** Giving the used entry x back. */
  function Release(e: Entries, x: nat): (r: Entries) {
    Entries(e.free + [x], Remove(e.used, x), e.mac)
  }

  function MoveToEnd(e: Entries, x: nat): (r: Entries) {
    e.(used := Remove(e.used, x) + [x])
  }

  lemma UseFreeOk(e: Entries, max: nat, m: Mac)
    requires EntriesOk(e, max) && e.free != []
    ensures EntriesOk(UseFree(e, m), max) && Queue(UseFree(e, m)) == Queue(e) + [m]
  {
    PoolUse(e.free, e.used, max);
  }

  lemma ReuseOldestOk(e: Entries, max: nat, m: Mac)
    requires EntriesOk(e, max) && e.free == [] && max > 0
    ensures e.used != [] && EntriesOk(ReuseOldest(e, m), max) && Queue(ReuseOldest(e, m)) == Queue(e)[1..] + [m]
  {
    var r := ReuseOldest(e, m);
    assert NoDuplicates(r.used);
    assert Queue(r) == Queue(e)[1..] + [m];
  }

  lemma ReleaseOk(e: Entries, max: nat, k: nat)
    requires EntriesOk(e, max) && k < |e.used| && NoDuplicates(Queue(e))
    ensures EntriesOk(Release(e, e.used[k]), max)
    ensures Queue(Release(e, e.used[k])) == Remove(Queue(e), e.mac[e.used[k]])
  {
    PoolFree(e.free, e.used, max, k);
    RemoveIsRemoveAt(Queue(e), k);
    assert Queue(Release(e, e.used[k])) == RemoveAt(Queue(e), k);
  }

  lemma MoveToEndOk(e: Entries, max: nat, k: nat)
    requires EntriesOk(e, max) && k < |e.used| && NoDuplicates(Queue(e))
    ensures EntriesOk(MoveToEnd(e, e.used[k]), max)
    ensures Queue(MoveToEnd(e, e.used[k])) == Remove(Queue(e), e.mac[e.used[k]]) + [e.mac[e.used[k]]]
  {
    PoolMove(e.free, e.used, max, k);
    RemoveIsRemoveAt(Queue(e), k);
    hide Pool, Remove;
    var r := MoveToEnd(e, e.used[k]);
    assert InRange(r.used, max) by { PoolRange(r.free, r.used, max); }
    assert Queue(r) == RemoveAt(Queue(e), k) + [e.mac[e.used[k]]];
  }

  /** Entry x is used and holds m. */
  ghost predicate Holds(e: Entries, x: nat, m: Mac) {
    x in e.used && x < |e.mac| && e.mac[x] == m
  }

  /** The free and used entries of each peer make up its fixed pool; the used ones are its queue. */
  ghost predicate PoolsOk(entries: map<Peer, Entries>, queues: map<Peer, seq<Mac>>, max: nat) {
    && entries.Keys == queues.Keys
    && forall p :: p in entries ==> EntriesOk(entries[p], max) && queues[p] == Queue(entries[p])
  }

  /** The tree finds the used entry of every owned MAC. */
  ghost predicate TreeOk(tree: map<Mac, (Peer, nat)>, entries: map<Peer, Entries>, owner: map<Mac, Peer>) {
    && tree.Keys == owner.Keys
    && forall m :: m in tree ==> tree[m].0 == owner[m] && tree[m].0 in entries && Holds(entries[tree[m].0], tree[m].1, m)
  }

  lemma PoolsUpdate(entries: map<Peer, Entries>, queues: map<Peer, seq<Mac>>, max: nat, p: Peer, e: Entries)
    requires PoolsOk(entries, queues, max) && EntriesOk(e, max)
    ensures PoolsOk(entries[p := e], queues[p := Queue(e)], max)
  {
    hide EntriesOk, Queue;
  }

  lemma TreeUpdate(tree: map<Mac, (Peer, nat)>, entries: map<Peer, Entries>, owner: map<Mac, Peer>, p: Peer, e: Entries)
    requires TreeOk(tree, entries, owner)
    requires forall m :: m in tree && tree[m].0 == p ==> Holds(e, tree[m].1, m)
    ensures TreeOk(tree, entries[p := e], owner)
  {
    hide Holds;
  }

  lemma TreeWithout(tree: map<Mac, (Peer, nat)>, entries: map<Peer, Entries>, owner: map<Mac, Peer>, m: Mac)
    requires TreeOk(tree, entries, owner)
    ensures TreeOk(tree - {m}, entries, owner - {m})
  {
    hide Holds;
  }

  lemma TreeWith(tree: map<Mac, (Peer, nat)>, entries: map<Peer, Entries>, owner: map<Mac, Peer>, m: Mac, p: Peer, x: nat)
    requires TreeOk(tree, entries, owner) && p in entries && Holds(entries[p], x, m)
    ensures TreeOk(tree[m := (p, x)], entries, owner[m := p])
  {
    hide Holds;
  }

  /** The program's maps stand for the reference table t. */
  ghost predicate Rep(entries: map<Peer, Entries>, tree: map<Mac, (Peer, nat)>, t: Table, max: nat) {
    max > 0 && PoolsOk(entries, t.queues, max) && TreeOk(tree, entries, t.owner) && TableInv(t, max)
  }

  /** The list position of the entry the tree gives for m. */
  lemma EntryOf(entries: map<Peer, Entries>, tree: map<Mac, (Peer, nat)>, t: Table, max: nat, m: Mac) returns (k: nat)
    requires Rep(entries, tree, t, max) && m in tree
    ensures var (p, x) := tree[m];
            && p in entries && p in t.queues && m in t.owner && t.owner[m] == p
            && EntriesOk(entries[p], max) && t.queues[p] == Queue(entries[p]) && NoDuplicates(t.queues[p])
            && k < |entries[p].used| && entries[p].used[k] == x && entries[p].mac[x] == m
  {
    var (p, x) := tree[m];
    k :| 0 <= k < |entries[p].used| && entries[p].used[k] == x;
  }

  lemma RepRefresh(entries: map<Peer, Entries>, tree: map<Mac, (Peer, nat)>, t: Table, max: nat, m: Mac)
    requires Rep(entries, tree, t, max) && m in tree
    ensures var (p, x) := tree[m];
            && p in entries && p in t.queues
            && Rep(entries[p := MoveToEnd(entries[p], x)], tree, t.(queues := t.queues[p := Remove(t.queues[p], m) + [m]]), max)
  {
    hide TableInv, EntriesOk, Remove;
    var (p, x) := tree[m];
    var k := EntryOf(entries, tree, t, max, m);
    MoveToEndOk(entries[p], max, k);
    MoveInv(t, max, p, m);
    var e := MoveToEnd(entries[p], x);
    PoolsUpdate(entries, t.queues, max, p, e);
    forall n | n in tree && tree[n].0 == p
      ensures Holds(e, tree[n].1, n)
    {
      MoveToEndMembers(entries[p].used, x, tree[n].1);
    }
    TreeUpdate(tree, entries, t.owner, p, e);
  }

  lemma {:induction false} RemoveKeeps(s: seq<nat>, x: nat, y: nat)
    requires y in s && y != x
    ensures y in Remove(s, x)
  {
    if s[0] != x && s[0] != y {
      RemoveKeeps(s[1..], x, y);
    } else if s[0] == x {
      assert y in s[1..];
    }
  }

  lemma MoveToEndMembers(s: seq<nat>, x: nat, y: nat)
    requires y in s
    ensures y in Remove(s, x) + [x]
  {
    if y != x {
      RemoveKeeps(s, x, y);
    }
  }

  lemma RepForget(entries: map<Peer, Entries>, tree: map<Mac, (Peer, nat)>, t: Table, max: nat, m: Mac)
    requires Rep(entries, tree, t, max) && m in tree
    ensures var (p, x) := tree[m];
            && p in entries && m in t.owner && t.owner[m] in t.queues
            && Rep(entries[p := Release(entries[p], x)], tree - {m}, Forget(t, m), max)
  {
    hide TableInv, EntriesOk, Remove;
    var (p, x) := tree[m];
    var k := EntryOf(entries, tree, t, max, m);
    ReleaseOk(entries[p], max, k);
    ForgetInv(t, max, m);
    var e := Release(entries[p], x);
    PoolsUpdate(entries, t.queues, max, p, e);
    TreeWithout(tree, entries, t.owner, m);
    forall n | n in tree - {m} && tree[n].0 == p
      ensures Holds(e, tree[n].1, n)
    {
      RemoveKeeps(entries[p].used, x, tree[n].1);
    }
    TreeUpdate(tree - {m}, entries, t.owner - {m}, p, e);
  }

  lemma RepUseFree(entries: map<Peer, Entries>, tree: map<Mac, (Peer, nat)>, t: Table, max: nat, p: Peer, m: Mac)
    requires Rep(entries, tree, t, max) && p in entries && m !in tree && entries[p].free != []
    ensures entries[p].free[0] < |entries[p].mac| && p in t.queues && |t.queues[p]| < max
    ensures Rep(entries[p := UseFree(entries[p], m)], tree[m := (p, entries[p].free[0])],
                Table(t.owner[m := p], t.queues[p := t.queues[p] + [m]]), max)
  {
    var e := UseFree(entries[p], m);
    assert entries[p].free[0] !in entries[p].used && |entries[p].used| < max;
    UseFreeOk(entries[p], max, m);
    hide TableInv, EntriesOk;
    AppendInv(t, max, p, m);
    PoolsUpdate(entries, t.queues, max, p, e);
    TreeUpdate(tree, entries, t.owner, p, e);
    TreeWith(tree, entries[p := e], t.owner, m, p, entries[p].free[0]);
  }

  /** The MACs of a peer other than its oldest are in its other entries. */
  lemma NotOldest(entries: map<Peer, Entries>, tree: map<Mac, (Peer, nat)>, t: Table, max: nat, m: Mac)
    requires Rep(entries, tree, t, max) && m in tree
    ensures var (p, x) := tree[m];
            && p in entries && entries[p].used != [] && entries[p].used[0] < |entries[p].mac| && x < |entries[p].mac| && entries[p].mac[x] == m
            && (m != entries[p].mac[entries[p].used[0]] ==> x in entries[p].used[1..] && x != entries[p].used[0])
  {
    var (p, x) := tree[m];
    var k := EntryOf(entries, tree, t, max, m);
    if m != entries[p].mac[entries[p].used[0]] {
      assert entries[p].used[1..][k - 1] == x;
    }
  }

  lemma HoldsAfterReuse(e: Entries, m: Mac, x: nat, n: Mac)
    requires e.used != [] && e.used[0] < |e.mac| && x < |e.mac| && e.mac[x] == n && x in e.used[1..] && x != e.used[0]
    ensures Holds(ReuseOldest(e, m), x, n)
  {
  }

  /** A peer without free entries: all are used, and the oldest can be reused. */
  lemma FullPeer(entries: map<Peer, Entries>, queues: map<Peer, seq<Mac>>, max: nat, p: Peer, m: Mac)
    requires PoolsOk(entries, queues, max) && p in entries && entries[p].free == [] && max > 0
    ensures p in queues && |queues[p]| == max && queues[p] != []
    ensures var e := entries[p];
            && e.used != [] && e.used[0] < |e.mac| && queues[p][0] == e.mac[e.used[0]]
            && EntriesOk(ReuseOldest(e, m), max) && Queue(ReuseOldest(e, m)) == queues[p][1..] + [m]
            && Holds(ReuseOldest(e, m), e.used[0], m)
  {
    ReuseOldestOk(entries[p], max, m);
  }

  lemma EvictEffect(t: Table, tree: map<Mac, (Peer, nat)>, entries: map<Peer, Entries>, p: Peer, max: nat)
    requires TableInv(t, max) && TreeOk(tree, entries, t.owner) && p in t.queues && t.queues[p] != []
    ensures var r := Evict(t, p);
            && r.owner == t.owner - {t.queues[p][0]} && r.queues == t.queues[p := t.queues[p][1..]]
            && |r.queues[p]| < max && forall m :: m !in tree ==> m !in r.owner
  {
  }

  lemma RepReuse(entries: map<Peer, Entries>, tree: map<Mac, (Peer, nat)>, t: Table, max: nat, p: Peer, m: Mac)
    requires Rep(entries, tree, t, max) && p in entries && m !in tree && entries[p].free == []
    ensures entries[p].used != [] && entries[p].used[0] < |entries[p].mac|
    ensures p in t.queues && |t.queues[p]| == max && t.queues[p] != []
    ensures var x := entries[p].used[0];
            var t2 := Evict(t, p);
            Rep(entries[p := ReuseOldest(entries[p], m)], (tree - {entries[p].mac[x]})[m := (p, x)],
                Table(t2.owner[m := p], t2.queues[p := t2.queues[p] + [m]]), max)
  {
    hide TableInv, EntriesOk, TreeOk, PoolsOk, Queue, Holds, ReuseOldest, Evict;
    FullPeer(entries, t.queues, max, p, m);
    var x, e := entries[p].used[0], ReuseOldest(entries[p], m);
    var oldest := entries[p].mac[x];
    EvictInv(t, max, p);
    var t2 := Evict(t, p);
    EvictEffect(t, tree, entries, p, max);
    AppendInv(t2, max, p, m);
    PoolsUpdate(entries, t.queues, max, p, e);
    TreeWithout(tree, entries, t.owner, oldest);
    forall n | n in tree - {oldest} && tree[n].0 == p
      ensures Holds(e, tree[n].1, n)
    {
      NotOldest(entries, tree, t, max, n);
      HoldsAfterReuse(entries[p], m, tree[n].1, n);
    }
    TreeUpdate(tree - {oldest}, entries, t.owner - {oldest}, p, e);
    TreeWith(tree - {oldest}, entries[p := e], t.owner - {oldest}, m, p, x);
    assert t2.queues[p := t2.queues[p] + [m]] == t.queues[p := t.queues[p][1..] + [m]];
  }

  lemma RepAdd(entries: map<Peer, Entries>, tree: map<Mac, (Peer, nat)>, t: Table, max: nat, p: Peer, e: Entries)
    requires Rep(entries, tree, t, max) && p !in entries && EntriesOk(e, max) && e.used == []
    ensures Rep(entries[p := e], tree, AddPeer(t, p), max)
  {
    assert Queue(e) == [];
    hide TableInv, EntriesOk, Queue, Holds;
    PoolsUpdate(entries, t.queues, max, p, e);
    AddPeerInv(t, max, p);
  }

  lemma AddPeerInv(t: Table, max: nat, p: Peer)
    requires TableInv(t, max) && p !in t.queues
    ensures TableInv(AddPeer(t, p), max)
  {
  }

  lemma OwnersOf(t: Table, max: nat, p: Peer)
    requires TableInv(t, max) && p in t.queues
    ensures forall m :: m in t.queues[p] <==> m in t.owner && t.owner[m] == p
  {
  }

  /** Exactly the MACs of p's queue lead to p. */
  lemma RepDrop(entries: map<Peer, Entries>, tree: map<Mac, (Peer, nat)>, t: Table, max: nat, p: Peer)
    requires Rep(entries, tree, t, max) && p in entries
    ensures p in t.queues && Rep(entries - {p}, tree - Elements(t.queues[p]), DropPeer(t, p), max)
  {
    hide TableInv, EntriesOk, Queue, Holds;
    DropPeerInv(t, max, p);
    OwnersOf(t, max, p);
    var tree' := tree - Elements(t.queues[p]);
    assert tree'.Keys == DropPeer(t, p).owner.Keys;
  }

  class MacTable {
    const maxPeerMacs: nat
    var entries: map<Peer, Entries>
    var macsTree: map<Mac, (Peer, nat)>
    /** The reference table this object stands for. */
    ghost var view: Table

    ghost predicate Valid()
      reads this
    {
      Rep(entries, macsTree, view, maxPeerMacs)
    }

    constructor (maxPeerMacs: nat)
      requires maxPeerMacs > 0
      ensures Valid() && view == Table(map[], map[]) && this.maxPeerMacs == maxPeerMacs
    {
      this.maxPeerMacs := maxPeerMacs;
      entries, macsTree := map[], map[];
      view := Table(map[], map[]);
    }

    /** The MAC part of FrameDeciderPeer_Init: all entries free. */
    method InitPeer(p: Peer)
      requires Valid() && p !in view.queues
      modifies this
      ensures Valid() && view == AddPeer(old(view), p)
    {
      var e := Entries(seq(maxPeerMacs, i => i), [], seq(maxPeerMacs, _ => []));
      RepUse(entries, macsTree, view, maxPeerMacs);
      RepAdd(entries, macsTree, view, maxPeerMacs, p, e);
      entries := entries[p := e];
      view := AddPeer(view, p);
    }

    /** add_mac_to_peer */
    method AddMacToPeer(p: Peer, mac: Mac)
      requires Valid() && p in view.queues
      modifies this
      ensures Valid() && Learned(old(view), view, maxPeerMacs, p, mac) && view.queues.Keys == old(view).queues.Keys
    {
      hide TableInv, PoolsOk, TreeOk, Remove;
      RepUse(entries, macsTree, view, maxPeerMacs);
      if mac in macsTree {
        var (q, x) := macsTree[mac];
        if q == p {
          RepRefresh(entries, macsTree, view, maxPeerMacs, mac);
          entries := entries[p := MoveToEnd(entries[p], x)];
          view := view.(queues := view.queues[p := Remove(view.queues[p], mac) + [mac]]);
          return;
        }
        RepForget(entries, macsTree, view, maxPeerMacs, mac);
        macsTree := macsTree - {mac};
        entries := entries[q := Release(entries[q], x)];
        view := Forget(view, mac);
      }
      Associate(p, mac);
    }

    /** The rest of add_mac_to_peer: take a free entry, or reuse the oldest used one. */
    method Associate(p: Peer, mac: Mac)
      requires Valid() && p in view.queues && mac !in macsTree
      modifies this
      ensures Valid() && p in old(view).queues && |old(view).queues[p]| <= maxPeerMacs && maxPeerMacs > 0
      ensures var t := if |old(view).queues[p]| == maxPeerMacs then Evict(old(view), p) else old(view);
              view == Table(t.owner[mac := p], t.queues[p := t.queues[p] + [mac]])
    {
      hide TableInv, PoolsOk, TreeOk;
      RepUse(entries, macsTree, view, maxPeerMacs);
      if entries[p].free != [] {
        RepUseFree(entries, macsTree, view, maxPeerMacs, p, mac);
        var x := entries[p].free[0];
        entries := entries[p := UseFree(entries[p], mac)];
        macsTree := macsTree[mac := (p, x)];
        view := Table(view.owner[mac := p], view.queues[p := view.queues[p] + [mac]]);
      } else {
        RepReuse(entries, macsTree, view, maxPeerMacs, p, mac);
        var x := entries[p].used[0];
        macsTree := macsTree - {entries[p].mac[x]};
        entries := entries[p := ReuseOldest(entries[p], mac)];
        macsTree := macsTree[mac := (p, x)];
        view := Evict(view, p);
        view := Table(view.owner[mac := p], view.queues[p := view.queues[p] + [mac]]);
      }
    }

    /** The lookup of FrameDecider_AnalyzeAndDecide. */
    method Lookup(mac: Mac) returns (r: Option<Peer>)
      requires Valid()
      ensures r == if mac in view.owner then Some(view.owner[mac]) else None
      ensures r.Some? ==> r.value in view.queues
    {
      if mac in macsTree {
        r := Some(macsTree[mac].0);
      } else {
        r := None;
      }
    }

    /** The MAC part of FrameDeciderPeer_Free: its used entries leave the tree. */
    method FreePeer(p: Peer)
      requires Valid() && p in view.queues
      modifies this
      ensures Valid() && view == DropPeer(old(view), p)
    {
      RepUse(entries, macsTree, view, maxPeerMacs);
      RepDrop(entries, macsTree, view, maxPeerMacs, p);
      QueueIs(entries, macsTree, view, maxPeerMacs, p);
      hide Rep;
      macsTree := RemoveUsed(macsTree, entries[p], view.queues[p]);
      entries := entries - {p};
      view := DropPeer(view, p);
    }
  }

  /** The loop over a peer's used entries that removes each one's MAC from the tree. */
  method RemoveUsed(tree: map<Mac, (Peer, nat)>, e: Entries, ghost q: seq<Mac>) returns (r: map<Mac, (Peer, nat)>)
    requires |q| == |e.used|
    requires forall k :: 0 <= k < |e.used| ==> e.used[k] < |e.mac| && q[k] == e.mac[e.used[k]]
    ensures r == tree - Elements(q)
  {
    r := tree;
    for i := 0 to |e.used|
      invariant r == tree - Elements(q[..i])
    {
      assert q[..i + 1][..i] == q[..i];
      r := r - {e.mac[e.used[i]]};
    }
    assert q[..|e.used|] == q;
  }

  lemma QueueIs(entries: map<Peer, Entries>, tree: map<Mac, (Peer, nat)>, t: Table, max: nat, p: Peer)
    requires Rep(entries, tree, t, max) && p in entries
    ensures p in t.queues && |t.queues[p]| == |entries[p].used|
    ensures forall k :: 0 <= k < |entries[p].used| ==>
              entries[p].used[k] < |entries[p].mac| && t.queues[p][k] == entries[p].mac[entries[p].used[k]]
  {
  }

  lemma RepUse(entries: map<Peer, Entries>, tree: map<Mac, (Peer, nat)>, t: Table, max: nat)
    requires Rep(entries, tree, t, max)
    ensures entries.Keys == t.queues.Keys && tree.Keys == t.owner.Keys
    ensures forall m :: m in tree ==> tree[m].0 == t.owner[m] && tree[m].0 in entries
    ensures forall p, m :: p in t.queues && m in t.queues[p] ==> m in t.owner && t.owner[m] == p
  {
  }
}
