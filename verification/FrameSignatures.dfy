/**
  The multicast index of the frame decider: one list per 23-bit signature of all group entries
  with that signature, found through a "master" entry in a tree.
  */
module FrameSignatures {
  import opened Bytes
  import opened Lists

  type Peer = nat
  type Group = nat
  type Sig = nat

  /** A group entry: the peer and the number of the entry in the peer's array. */
  type Entry = (Peer, nat)

  const SIG_RANGE: nat := 0x80_0000

  /** compute_sig_for_group: the last 23 bits of the group address. */
  function SigOfGroup(group: Group): (s: Sig)
    ensures s < SIG_RANGE
  {
    group % SIG_RANGE
  }

  /** compute_sig_for_mac: the last 23 bits of the MAC address. */
  function SigOfMac(mac: seq<byte>): (s: Sig)
    requires |mac| == 6
    ensures s < SIG_RANGE
  {
    (((mac[2] * 256 + mac[3]) * 256 + mac[4]) * 256 + mac[5]) % SIG_RANGE
  }

  /** The Ethernet address of an IP host group, section 6.4 of RFC 1112: its low-order 23 bits after 01-00-5E. */
  function MacOfGroup(group: Group): (mac: seq<byte>)
    ensures |mac| == 6
  {
    [0x01, 0x00, 0x5E, group / 0x1_0000 % 0x80, group / 0x100 % 0x100, group % 0x100]
  }

  lemma LowBits(group: Group)
    ensures var s := group % 0x80_0000;
            s / 0x1_0000 == group / 0x1_0000 % 0x80 && s / 0x100 % 0x100 == group / 0x100 % 0x100 && s % 0x100 == group % 0x100
  {
    var q, s := group / 0x80_0000, group % 0x80_0000;
    Digits(q, s / 0x1_0000, s / 0x100 % 0x100, s % 0x100);
  }

  lemma Digits(q: nat, x: nat, y: nat, z: nat)
    requires x < 0x80 && y < 0x100 && z < 0x100
    ensures var group := q * 0x80_0000 + x * 0x1_0000 + y * 0x100 + z;
            group / 0x1_0000 % 0x80 == x && group / 0x100 % 0x100 == y && group % 0x100 == z
  {
    var group := q * 0x80_0000 + x * 0x1_0000 + y * 0x100 + z;
    assert group / 0x1_0000 == q * 0x80 + x;
    assert group / 0x100 == (q * 0x80 + x) * 0x100 + y;
  }

  /** A frame for a group carries the group's signature, and only groups that agree on it share a MAC. */
  lemma SignatureAgrees(group: Group, other: Group)
    ensures SigOfMac(MacOfGroup(group)) == SigOfGroup(group)
    ensures MacOfGroup(group) == MacOfGroup(other) <==> SigOfGroup(group) == SigOfGroup(other)
  {
    SignatureOf(group);
    SignatureOf(other);
    LowBits(group);
    LowBits(other);
  }

  lemma SignatureOf(group: Group)
    ensures SigOfMac(MacOfGroup(group)) == SigOfGroup(group)
  {
    LowBits(group);
    var s := group % SIG_RANGE;
    var x, y, z := s / 0x1_0000, s / 0x100 % 0x100, s % 0x100;
    assert s == x * 0x1_0000 + y * 0x100 + z;
    assert ((0x5E * 256 + x) * 256 + y) * 256 + z == 0x5E00_0000 + s;
    assert 0x5E00_0000 == 188 * SIG_RANGE;
  }

  // ---------------------------------------------------------------- linked lists without a head

  /** chain[e] is the whole list that entry e is linked into (LinkedList3: reachable from any node). */
  type Chain = map<Entry, seq<Entry>>

  function IndexOf(l: seq<Entry>, e: Entry): (i: nat)
    requires e in l
    ensures i < |l| && l[i] == e
  {
    if l[0] == e then 0 else 1 + IndexOf(l[1..], e)
  }

  /** Every node of the list l sees the list l. */
  function Relink(chain: Chain, l: seq<Entry>): (r: Chain) {
    map x | x in chain.Keys + Elems(l) :: if x in l then l else chain[x]
  }

  function Elems(l: seq<Entry>): (r: set<Entry>)
    ensures forall x :: x in r <==> x in l
  {
    set x | x in l
  }

  /** The list with e right after ref. */
  function InsertAfter(l: seq<Entry>, e: Entry, ref: Entry): (r: seq<Entry>)
    requires ref in l
  {
    var i := IndexOf(l, ref);
    l[..i + 1] + [e] + l[i + 1..]
  }

  /** LinkedList3Node_InitAfter */
  function InitAfter(chain: Chain, e: Entry, ref: Entry): (r: Chain)
    requires ref in chain && ref in chain[ref]
  {
    Relink(chain, InsertAfter(chain[ref], e, ref))
  }

  /** LinkedList3Node_InitLonely */
  function InitLonely(chain: Chain, e: Entry): (r: Chain) { chain[e := [e]] }

  /** LinkedList3Node_Free */
  function Unlink(chain: Chain, e: Entry): (r: Chain)
    requires e in chain
  {
    Relink(chain - {e}, Remove(chain[e], e))
  }

  /** LinkedList3Node_NextOrPrev */
  function NextOrPrev(chain: Chain, e: Entry): (r: Entry)
    requires e in chain && e in chain[e] && |chain[e]| > 1
  {
    var l := chain[e];
    var i := IndexOf(l, e);
    if i + 1 < |l| then l[i + 1] else l[i - 1]
  }

  // ---------------------------------------------------------------- the index

  /** chain: the signature lists; tree: signature to master entry; masters: the is_master flags. */
  datatype Index = Index(chain: Chain, tree: map<Sig, Entry>, masters: set<Entry>)

  const Empty: Index := Index(map[], map[], {})

  /** add_to_multicast */
  function AddToMulticast(ix: Index, e: Entry, group: Group): (r: Index)
    requires forall s :: s in ix.tree ==> ix.tree[s] in ix.chain && ix.tree[s] in ix.chain[ix.tree[s]]
  {
    var sig := SigOfGroup(group);
    if sig in ix.tree then
      Index(InitAfter(ix.chain, e, ix.tree[sig]), ix.tree, ix.masters - {e})
    else
      Index(InitLonely(ix.chain, e), ix.tree[sig := e], ix.masters + {e})
  }

  /** remove_from_multicast */
  function RemoveFromMulticast(ix: Index, e: Entry, group: Group): (r: Index)
    requires e in ix.chain && e in ix.chain[e]
  {
    var sig := SigOfGroup(group);
    var ix1 :=
      if e in ix.masters then
        if |ix.chain[e]| > 1 then
          var m := NextOrPrev(ix.chain, e);
          ix.(tree := ix.tree[sig := m], masters := ix.masters - {e} + {m})
        else ix.(tree := ix.tree - {sig}, masters := ix.masters - {e})
      else ix;
    ix1.(chain := Unlink(ix1.chain, e))
  }

  /** The entries a frame with this signature goes to, in the order of the list. */
  function Members(ix: Index, sig: Sig): (l: seq<Entry>)
    requires sig in ix.tree ==> ix.tree[sig] in ix.chain
  {
    if sig in ix.tree then ix.chain[ix.tree[sig]] else []
  }

  /** Entry x is active with this signature. */
  predicate Has(active: map<Entry, Group>, x: Entry, sig: Sig) { x in active && SigOfGroup(active[x]) == sig }

  /** The list l holds exactly the active entries with this signature, once each. */
  ghost predicate ListOf(active: map<Entry, Group>, l: seq<Entry>, sig: Sig) {
    NoDuplicates(l) && forall x :: x in l <==> Has(active, x, sig)
  }

  ghost predicate ChainsOk(chain: Chain, active: map<Entry, Group>) {
    && chain.Keys == active.Keys
    && (forall e :: e in active ==> ListOf(active, chain[e], SigOfGroup(active[e])))
    && (forall e, x :: e in active && x in chain[e] ==> x in chain && chain[x] == chain[e])
  }

  /**
    Every signature in use has exactly one master, the one in the tree, and the master's list
    is exactly the active entries with that signature.
    */
  ghost predicate IndexInv(ix: Index, active: map<Entry, Group>) {
    && ChainsOk(ix.chain, active)
    && (forall e :: e in active ==> SigOfGroup(active[e]) in ix.tree)
    && (forall s :: s in ix.tree ==> Has(active, ix.tree[s], s))
    && (forall e :: e in ix.masters <==> e in active && ix.tree[SigOfGroup(active[e])] == e)
  }

  lemma IndexUse(ix: Index, active: map<Entry, Group>)
    requires IndexInv(ix, active)
    ensures forall s :: s in ix.tree ==> ix.tree[s] in ix.chain && ix.tree[s] in ix.chain[ix.tree[s]]
    ensures forall e :: e in active ==> e in ix.chain && e in ix.chain[e]
  {
    hide SigOfGroup;
  }

  /** Draining a multicast decision: exactly the active entries with the signature, once each. */
  lemma MembersExact(ix: Index, active: map<Entry, Group>, sig: Sig)
    requires IndexInv(ix, active)
    ensures sig in ix.tree ==> ix.tree[sig] in ix.chain
    ensures ListOf(active, Members(ix, sig), sig)
  {
    hide SigOfGroup;
  }

  lemma InsertMembers(l: seq<Entry>, i: nat, e: Entry)
    requires i < |l| && NoDuplicates(l) && e !in l
    ensures NoDuplicates(l[..i + 1] + [e] + l[i + 1..])
    ensures forall x :: x in l[..i + 1] + [e] + l[i + 1..] <==> x in l || x == e
  {
    var r := l[..i + 1] + [e] + l[i + 1..];
    forall x | x in l ensures x in r {
      var k :| 0 <= k < |l| && l[k] == x;
      assert if k <= i then r[k] == x else r[k + 1] == x;
    }
  }

  /** active' differs from active only in entries with signature sig. */
  ghost predicate AgreeElsewhere(active: map<Entry, Group>, active': map<Entry, Group>, sig: Sig) {
    && (forall x :: x in active' && SigOfGroup(active'[x]) != sig ==> x in active && active[x] == active'[x])
    && (forall x :: x in active && SigOfGroup(active[x]) != sig ==> x in active' && active'[x] == active[x])
  }

  /** Giving the signature a new list that holds exactly its entries keeps all lists right. */
  lemma RelinkOk(chain: Chain, chain0: Chain, active: map<Entry, Group>, active': map<Entry, Group>, l: seq<Entry>, sig: Sig)
    requires ChainsOk(chain, active) && AgreeElsewhere(active, active', sig) && ListOf(active', l, sig)
    requires chain0.Keys <= active'.Keys && forall x :: x in active' && x !in l ==> x in chain0 && chain0[x] == chain[x]
    ensures ChainsOk(Relink(chain0, l), active')
  {
    hide SigOfGroup;
    var r := Relink(chain0, l);
    assert r.Keys == active'.Keys;
    forall e | e in active'
      ensures ListOf(active', r[e], SigOfGroup(active'[e]))
      ensures forall x :: x in r[e] ==> x in r && r[x] == r[e]
    {
      if e !in l {
        assert ListOf(active, chain[e], SigOfGroup(active[e]));
        forall x ensures x in chain[e] <==> Has(active', x, SigOfGroup(active[e])) { }
      }
    }
  }

  lemma ListAdd(active: map<Entry, Group>, l: seq<Entry>, ref: Entry, e: Entry, group: Group)
    requires ListOf(active, l, SigOfGroup(group)) && e !in active && ref in l
    ensures ListOf(active[e := group], InsertAfter(l, e, ref), SigOfGroup(group))
  {
    hide SigOfGroup;
    assert e !in l by { assert e in l <==> Has(active, e, SigOfGroup(group)); }
    InsertMembers(l, IndexOf(l, ref), e);
    forall x ensures x in InsertAfter(l, e, ref) <==> Has(active[e := group], x, SigOfGroup(group)) {
      assert x in l <==> Has(active, x, SigOfGroup(group));
    }
  }

  lemma ListDrop(active: map<Entry, Group>, l: seq<Entry>, e: Entry)
    requires e in active && ListOf(active, l, SigOfGroup(active[e]))
    ensures ListOf(active - {e}, Remove(l, e), SigOfGroup(active[e]))
  {
    hide SigOfGroup, Remove;
    var active', sig := active - {e}, SigOfGroup(active[e]);
    RemoveMembers(l, e);
    forall x ensures x in Remove(l, e) <==> Has(active', x, sig) { assert x in l <==> Has(active, x, sig); }
  }

  lemma ChainOf(chain: Chain, active: map<Entry, Group>, e: Entry)
    requires ChainsOk(chain, active) && e in active
    ensures e in chain && e in chain[e] && ListOf(active, chain[e], SigOfGroup(active[e]))
    ensures chain.Keys == active.Keys
  {
    hide SigOfGroup;
  }

  lemma AddChains(ix: Index, active: map<Entry, Group>, e: Entry, group: Group)
    requires IndexInv(ix, active) && e !in active
    ensures forall s :: s in ix.tree ==> ix.tree[s] in ix.chain && ix.tree[s] in ix.chain[ix.tree[s]]
    ensures ChainsOk(AddToMulticast(ix, e, group).chain, active[e := group])
  {
    hide SigOfGroup, Relink, ListOf, ChainsOk, InsertAfter, AgreeElsewhere;
    IndexUse(ix, active);
    var sig, active' := SigOfGroup(group), active[e := group];
    KeysOk(ix.chain, active);
    AgreeAdd(active, e, group);
    if sig in ix.tree {
      var m := ix.tree[sig];
      ChainOf(ix.chain, active, m);
      ListAdd(active, ix.chain[m], m, e, group);
      RelinkNew(ix.chain, active, InsertAfter(ix.chain[m], e, m), e, group);
    } else {
      LonelyIsRelink(ix.chain, e);
      NewList(active, e, group);
      RelinkNew(ix.chain, active, [e], e, group);
    }
  }

  lemma RelinkNew(chain: Chain, active: map<Entry, Group>, l: seq<Entry>, e: Entry, group: Group)
    requires ChainsOk(chain, active) && e !in active && ListOf(active[e := group], l, SigOfGroup(group))
    ensures ChainsOk(Relink(chain, l), active[e := group])
  {
    hide SigOfGroup, Relink;
    AgreeAdd(active, e, group);
    assert Has(active[e := group], e, SigOfGroup(group));
    RelinkOk(chain, chain, active, active[e := group], l, SigOfGroup(group));
  }

  lemma AgreeAdd(active: map<Entry, Group>, e: Entry, group: Group)
    requires e !in active
    ensures AgreeElsewhere(active, active[e := group], SigOfGroup(group))
  {
  }

  lemma KeysOk(chain: Chain, active: map<Entry, Group>)
    requires ChainsOk(chain, active)
    ensures chain.Keys == active.Keys
  {
  }

  lemma NewList(active: map<Entry, Group>, e: Entry, group: Group)
    requires e !in active && forall x :: x in active ==> SigOfGroup(active[x]) != SigOfGroup(group)
    ensures ListOf(active[e := group], [e], SigOfGroup(group))
  {
    hide SigOfGroup;
  }

  lemma LonelyIsRelink(chain: Chain, e: Entry)
    ensures Relink(chain, [e]) == InitLonely(chain, e)
  {
  }

  /** A new entry joins the list of its signature, as the master if it is the first one. */
  lemma AddInv(ix: Index, active: map<Entry, Group>, e: Entry, group: Group)
    requires IndexInv(ix, active) && e !in active
    ensures forall s :: s in ix.tree ==> ix.tree[s] in ix.chain && ix.tree[s] in ix.chain[ix.tree[s]]
    ensures IndexInv(AddToMulticast(ix, e, group), active[e := group])
  {
    hide SigOfGroup, ChainsOk, InitAfter;
    AddChains(ix, active, e, group);
  }

  lemma RemoveChains(ix: Index, active: map<Entry, Group>, e: Entry)
    requires IndexInv(ix, active) && e in active
    ensures e in ix.chain && e in ix.chain[e]
    ensures ChainsOk(Unlink(ix.chain, e), active - {e})
  {
    hide SigOfGroup, Relink, Remove, ListOf, ChainsOk;
    ChainOf(ix.chain, active, e);
    var sig, active', l := SigOfGroup(active[e]), active - {e}, ix.chain[e];
    ListDrop(active, l, e);
    RelinkOk(ix.chain, ix.chain - {e}, active, active', Remove(l, e), sig);
  }

  /** What promoting a neighbour does: it has the same signature and stays. */
  lemma Successor(ix: Index, active: map<Entry, Group>, e: Entry)
    requires IndexInv(ix, active) && e in active
    ensures e in ix.chain && e in ix.chain[e]
    ensures |ix.chain[e]| > 1 ==>
              var m := NextOrPrev(ix.chain, e); m != e && Has(active, m, SigOfGroup(active[e]))
    ensures |ix.chain[e]| <= 1 ==> forall x :: Has(active, x, SigOfGroup(active[e])) ==> x == e
  {
    hide SigOfGroup, ChainsOk;
    ChainOf(ix.chain, active, e);
    var l := ix.chain[e];
    if |l| > 1 {
      assert NextOrPrev(ix.chain, e) in l;
    }
  }

  /** An entry leaves its list; if it was the master, a neighbour takes over or the signature goes. */
  lemma RemoveInv(ix: Index, active: map<Entry, Group>, e: Entry)
    requires IndexInv(ix, active) && e in active
    ensures e in ix.chain && e in ix.chain[e]
    ensures IndexInv(RemoveFromMulticast(ix, e, active[e]), active - {e})
  {
    hide SigOfGroup, ChainsOk, NextOrPrev, Unlink;
    RemoveChains(ix, active, e);
    Successor(ix, active, e);
    var r, active', sig := RemoveFromMulticast(ix, e, active[e]), active - {e}, SigOfGroup(active[e]);
    assert r.chain == Unlink(ix.chain, e);
    forall x | x in active' ensures SigOfGroup(active'[x]) in r.tree {
      assert Has(active, x, SigOfGroup(active[x]));
    }
    assert forall s :: s in r.tree ==> Has(active', r.tree[s], s) by {
      forall s | s in r.tree ensures Has(active', r.tree[s], s) { assert s != sig ==> Has(active, ix.tree[s], s); }
    }
  }
}
