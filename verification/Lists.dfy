/** Optional values, and facts about sequences and sets that several components use. */
module Lists {

  datatype Option<+T> = None | Some(value: T)

  /** The integers 0, 1, ..., n-1. */
  ghost function Range(n: nat): (r: set<int>)
    ensures forall i :: i in r <==> 0 <= i < n
  {
    if n == 0 then {} else Range(n - 1) + {n - 1}
  }

  lemma {:induction false} RangeSize(n: nat)
    ensures |Range(n)| == n
  {
    if n > 0 {
      RangeSize(n - 1);
    }
  }

  /** A subset as large as the whole set is the whole set. */
  lemma SubsetOfSameSize<T>(a: set<T>, b: set<T>)
    requires a <= b && |a| == |b|
    ensures a == b
  {
    assert |b - a| == |b| - |a|;
    assert b == a + (b - a);
  }

  lemma Assoc<T>(a: seq<T>, b: seq<T>, c: seq<T>)
    ensures (a + b) + c == a + (b + c)
  {
  }

  lemma InnerSlice<T>(a: seq<T>, b: seq<T>, c: seq<T>, i: nat, j: nat)
    requires i <= j <= |b|
    ensures (a + b + c)[|a| + i..|a| + j] == b[i..j]
  {
  }

  ghost predicate NoDuplicates<T>(s: seq<T>) {
    forall i, j :: 0 <= i < j < |s| ==> s[i] != s[j]
  }

  /** The sequence without its element at index i (a linked-list removal). */
  function RemoveAt<T>(s: seq<T>, i: nat): (r: seq<T>)
    requires i < |s|
    ensures |r| == |s| - 1
    ensures forall k :: 0 <= k < i ==> r[k] == s[k]
    ensures forall k :: i <= k < |r| ==> r[k] == s[k + 1]
  {
    s[..i] + s[i + 1..]
  }

  lemma RemoveAtMembers<T>(s: seq<T>, i: nat)
    requires i < |s| && NoDuplicates(s)
    ensures NoDuplicates(RemoveAt(s, i))
    ensures forall x :: x in RemoveAt(s, i) <==> x in s && x != s[i]
  {
    var r := RemoveAt(s, i);
    forall x | x in s && x != s[i]
      ensures x in r
    {
      var k :| 0 <= k < |s| && s[k] == x;
      assert if k < i then r[k] == x else r[k - 1] == x;
    }
  }

  /** LinkedList1_Remove: the sequence without the first occurrence of x. */
  function Remove<T(==)>(s: seq<T>, x: T): (r: seq<T>)
    ensures x !in s ==> r == s
    ensures x in s ==> |r| == |s| - 1
  {
    if s == [] then [] else if s[0] == x then s[1..] else [s[0]] + Remove(s[1..], x)
  }

  lemma {:induction false} RemoveIsRemoveAt<T>(s: seq<T>, i: nat)
    requires i < |s| && NoDuplicates(s)
    ensures Remove(s, s[i]) == RemoveAt(s, i)
  {
    if i > 0 {
      RemoveIsRemoveAt(s[1..], i - 1);
      RemoveAtTail(s, i);
    }
  }

  lemma RemoveAtTail<T>(s: seq<T>, i: nat)
    requires 0 < i < |s|
    ensures RemoveAt(s, i) == [s[0]] + RemoveAt(s[1..], i - 1)
  {
    hide RemoveAt;
    var r, t := RemoveAt(s, i), [s[0]] + RemoveAt(s[1..], i - 1);
    assert forall k :: 0 <= k < |r| ==> r[k] == t[k];
  }

  /** A pool of n entries split between a free list and a used list. */
  ghost predicate Pool(free: seq<nat>, used: seq<nat>, n: nat) {
    && NoDuplicates(free) && NoDuplicates(used)
    && (forall k :: 0 <= k < |free| ==> free[k] < n && free[k] !in used)
    && (forall k :: 0 <= k < |used| ==> used[k] < n)
    && |free| + |used| == n
  }

  ghost predicate InRange(used: seq<nat>, n: nat) { forall i :: 0 <= i < |used| ==> used[i] < n }

  lemma PoolRange(free: seq<nat>, used: seq<nat>, n: nat)
    requires Pool(free, used, n)
    ensures InRange(used, n)
  {
  }

  /** Moving the used entry at p to the end of the free list. */
  lemma PoolFree(free: seq<nat>, used: seq<nat>, n: nat, p: nat)
    requires Pool(free, used, n) && p < |used|
    ensures Pool(free + [used[p]], RemoveAt(used, p), n) && Remove(used, used[p]) == RemoveAt(used, p)
  {
    RemoveAtMembers(used, p);
    RemoveIsRemoveAt(used, p);
    assert used[p] in used;
    hide RemoveAt;
    var f, u := free + [used[p]], RemoveAt(used, p);
    forall k | 0 <= k < |u| ensures u[k] < n { assert u[k] in u; }
  }

  /** Moving the used entry at p to the end of the used list. */
  lemma PoolMove(free: seq<nat>, used: seq<nat>, n: nat, p: nat)
    requires Pool(free, used, n) && p < |used|
    ensures Pool(free, RemoveAt(used, p) + [used[p]], n) && Remove(used, used[p]) == RemoveAt(used, p)
  {
    PoolFree(free, used, n, p);
    var u := RemoveAt(used, p);
    RemoveAtMembers(used, p);
    hide RemoveAt, Remove;
    assert NoDuplicates(u + [used[p]]);
    forall k | 0 <= k < |free| ensures free[k] !in u + [used[p]] { assert free[k] !in used; }
  }

  /** Moving the first free entry to the end of the used list. */
  lemma PoolUse(free: seq<nat>, used: seq<nat>, n: nat)
    requires Pool(free, used, n) && free != []
    ensures free[0] < n && free[0] !in used
    ensures Pool(free[1..], used + [free[0]], n)
  {
    var u := used + [free[0]];
    forall k | 0 <= k < |free[1..]| ensures free[1..][k] !in u { assert free[1..][k] == free[k + 1]; }
  }

  lemma RemoveMembers<T>(s: seq<T>, x: T)
    requires NoDuplicates(s)
    ensures NoDuplicates(Remove(s, x))
    ensures forall y :: y in Remove(s, x) <==> y in s && y != x
  {
    if x in s {
      var i :| 0 <= i < |s| && s[i] == x;
      RemoveIsRemoveAt(s, i);
      RemoveAtMembers(s, i);
    }
  }

  ghost function Elements<T(!new)>(s: seq<T>): (r: set<T>)
    ensures forall x :: x in r <==> x in s
  {
    if s == [] then {} else Elements(s[..|s| - 1]) + {s[|s| - 1]}
  }

  lemma NoElements<T(!new)>(s: seq<T>)
    ensures Elements(s) == {} <==> s == []
  {
  }

  lemma {:induction false} ElementsSize<T(!new)>(s: seq<T>)
    requires NoDuplicates(s)
    ensures |Elements(s)| == |s|
  {
    if s != [] {
      ElementsSize(s[..|s| - 1]);
      assert s[|s| - 1] !in s[..|s| - 1];
    }
  }

  lemma SubsetSize<T>(a: set<T>, b: set<T>)
    requires a <= b
    ensures |a| <= |b|
  {
    assert |b - a| == |b| - |a|;
  }

  /** Distinct indices below n are at most n. */
  lemma PigeonHole(ks: seq<int>, n: nat)
    requires NoDuplicates(ks) && forall k :: 0 <= k < |ks| ==> 0 <= ks[k] < n
    ensures |ks| <= n
  {
    ElementsSize(ks);
    RangeSize(n);
    SubsetSize(Elements(ks), Range(n));
  }
}
