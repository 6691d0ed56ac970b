/**
  Which frames are delivered when packets are late, out of order and mixed with others: a frame
  whose chunks all come, none of them too late, and one that was silent for too long.
  */
module FragmentTiming {
  import opened Bytes
  import opened Lists
  import opened FragmentWire
  import opened FragmentChunks
  import A = FragmentAssembler
  import D = FragmentDisassembler
  import E = FragmentEndToEnd
  import M = FragmentMixing

  // ---------------------------------------------------------------- chunks of other frames

  /** The chunk begins a new frame: none with its id is pending, or it had no chunk for more than numFrames packets. */
  ghost predicate Begins(cfg: A.Config, st: A.State, c: Chunk) { EndOf(c) <= cfg.outputMtu && Forgotten(cfg, st, c.id) }

  /** Where the frame at position k is after a lookup for another id. */
  lemma {:induction false} OtherLookup(cfg: A.Config, st: A.State, k: nat, id: nat) returns (k': nat)
    requires A.Inv(cfg, st) && k < |st.used| && st.used[k].id != id
    requires Forgotten(cfg, st, id) ==> |st.used| - k < cfg.numFrames
    ensures st.free > 0 || st.used != []
    ensures var (s, i) := A.FrameFor(cfg, st, id);
            k' < |s.used| && s.used[k'] == st.used[k] && |s.used| - 1 - k' <= |st.used| - 1 - k + (if Forgotten(cfg, st, id) then 1 else 0)
  {
    hide A.FrameInv;
    A.HasSlot(cfg, st);
    var i := A.FindFrame(st.used, id);
    if i == |st.used| {
      k' := if st.free == 0 then k - 1 else k;
    } else {
      IsForgotten(cfg, st, id, i);
      if st.time - st.used[i].time > cfg.numFrames {
        k' := if i < k then k - 1 else k;
      } else {
        k' := k;
      }
    }
  }

  lemma IsForgotten(cfg: A.Config, st: A.State, id: nat, i: nat)
    requires A.DistinctIds(st.used) && i < |st.used| && st.used[i].id == id
    ensures Forgotten(cfg, st, id) <==> st.time - st.used[i].time > cfg.numFrames
  {
    hide A.FrameInv;
    forall k | 0 <= k < |st.used| && st.used[k].id == id ensures k == i { SamePlace(st.used, id, k); SamePlace(st.used, id, i); }
  }

  /** A chunk of another frame leaves the frame alone; only one that begins a frame can come to stand behind it. */
  lemma {:induction false} OtherChunk(cfg: A.Config, st: A.State, c: Chunk, id: nat, cs: seq<Chunk>, age: nat, behind: nat)
    requires A.Inv(cfg, st) && Pending(cfg, st, id, cs, age, behind) && c.id != id
    requires Begins(cfg, st, c) ==> behind + 1 < cfg.numFrames
    ensures st.free > 0 || st.used != []
    ensures Pending(cfg, A.ProcessChunk(cfg, st, c).0, id, cs, age, behind + (if Begins(cfg, st, c) then 1 else 0))
  {
    hide A.FrameFor, A.FrameInv, A.Accepts, A.Assemble, Holds, A.AddPiece, A.Incomplete;
    A.HasSlot(cfg, st);
    if cs == [] {
      OtherForgotten(cfg, st, c, id);
    } else {
      var k :| PendingAt(st, id, cs, age, behind, k);
      if EndOf(c) <= cfg.outputMtu {
        var more := behind + (if Begins(cfg, st, c) then 1 else 0);
        var k1 := OtherLookup(cfg, st, k, c.id);
        A.FrameForInv(cfg, st, c.id);
        var (s, i) := A.FrameFor(cfg, st, c.id);
        assert PendingAt(s, id, cs, age, more, k1);
        OtherStored(cfg, s, i, c, id, cs, age, more, k1);
      } else {
        assert PendingAt(st, id, cs, age, behind, k);
      }
    }
  }

  lemma {:induction false} OtherStored(cfg: A.Config, s: A.State, i: nat, c: Chunk, id: nat, cs: seq<Chunk>, age: nat, behind: nat, k: nat)
    requires i < |s.used| && s.used[i].id == c.id != id && PendingAt(s, id, cs, age, behind, k) && cs != []
    ensures Pending(cfg, A.FreeFrame(s, i), id, cs, age, behind)
    ensures Pending(cfg, A.StorePiece(cfg, s, i, A.Piece(c.start, c.data), c.last).0, id, cs, age, behind)
  {
    hide Holds, A.Assemble, A.Incomplete;
    assert PendingAt(A.FreeFrame(s, i), id, cs, age, behind, if i < k then k - 1 else k);
    var t := A.StorePiece(cfg, s, i, A.Piece(c.start, c.data), c.last).0;
    assert t != A.FreeFrame(s, i) ==> PendingAt(t, id, cs, age, behind, k);
  }

  /** Frames of other ids are kept as they are or go. */
  lemma OtherForgotten(cfg: A.Config, st: A.State, c: Chunk, id: nat)
    requires A.Inv(cfg, st) && c.id != id && Forgotten(cfg, st, id)
    ensures st.free > 0 || st.used != []
    ensures Forgotten(cfg, A.ProcessChunk(cfg, st, c).0, id)
  {
    hide A.FrameFor, A.FrameInv, A.Accepts, A.Assemble, A.Incomplete;
    A.HasSlot(cfg, st);
    if EndOf(c) <= cfg.outputMtu {
      A.FrameForInv(cfg, st, c.id);
      OthersStay(cfg, st, c.id, id);
    }
  }

  lemma OthersStay(cfg: A.Config, st: A.State, other: nat, id: nat)
    requires A.Inv(cfg, st) && id != other && (st.free > 0 || st.used != [])
    ensures forall f :: f in A.FrameFor(cfg, st, other).0.used && f.id == id ==> f in st.used
  {
    hide A.FrameInv;
  }

  // ---------------------------------------------------------------- the end of a packet

  /** A tick makes the pending frame one packet older. */
  lemma {:induction false} TickPending(cfg: A.Config, st: A.State, id: nat, cs: seq<Chunk>, age: nat, behind: nat)
    requires A.Inv(cfg, st) && Pending(cfg, st, id, cs, age, behind) && age <= cfg.numFrames
    ensures A.Inv(cfg, A.Tick(cfg, st)) && Pending(cfg, A.Tick(cfg, st), id, cs, age + 1, behind)
  {
    hide A.Inv, A.Tick, A.Survivors, Holds;
    A.TickInv(cfg, st);
    var r := A.Tick(cfg, st);
    if cs == [] {
      TickOlder(cfg, st, id, cfg.numFrames + 1);
    } else {
      var k: nat :| PendingAt(st, id, cs, age, behind, k);
      var k' := k;
      if st.time == A.MAX_TIME {
        k' := Survivor(cfg, st, st.used, k);
        assert A.SameButTime(st, st.used[k], r, r.used[k'], 1);
      } else {
        M.TickKeeps(cfg, st, r);
        assert A.SameButTime(st, st.used[k], r, r.used[k], 1);
      }
      HoldsSame(st.used[k], r.used[k'], cs);
      assert PendingAt(r, id, cs, age + 1, behind, k');
    }
  }

  lemma HoldsSame(f: A.Frame, g: A.Frame, cs: seq<Chunk>)
    requires Holds(f, cs) && g == f.(time := g.time)
    ensures Holds(g, cs)
  {
  }

  lemma {:induction false} Survivor(cfg: A.Config, st: A.State, fs: seq<A.Frame>, k: nat) returns (k': nat)
    requires k < |fs| && st.time - fs[k].time <= cfg.numFrames
    ensures var r := A.Survivors(cfg, st, fs);
            k' < |r| && r[k'] == fs[k] && |r| - 1 - k' <= |fs| - 1 - k
  {
    if k == 0 {
      k' := 0;
    } else {
      k' := Survivor(cfg, st, fs[1..], k - 1);
      if st.time - fs[0].time <= cfg.numFrames {
        k' := k' + 1;
      }
    }
  }

  /** Every frame with this id got its last chunk n packets ago or earlier. */
  ghost predicate Older(st: A.State, id: nat, n: nat) {
    forall k :: 0 <= k < |st.used| && st.used[k].id == id ==> st.time - st.used[k].time >= n
  }

  lemma TickOlder(cfg: A.Config, st: A.State, id: nat, n: nat)
    requires A.Inv(cfg, st) && Older(st, id, n)
    ensures A.Inv(cfg, A.Tick(cfg, st)) && Older(A.Tick(cfg, st), id, n + 1)
  {
    hide A.Inv, A.Tick, A.Survivors;
    A.TickInv(cfg, st);
    A.SurvivorsMembers(cfg, st, st.used);
    var r := A.Tick(cfg, st);
    M.TickKeeps(cfg, st, r);
    forall k | 0 <= k < |r.used| && r.used[k].id == id ensures r.time - r.used[k].time >= n + 1 {
      var f := if st.time < A.MAX_TIME then st.used[k] else A.Survivors(cfg, st, st.used)[k];
      assert A.SameButTime(st, f, r, r.used[k], 1);
      assert f in st.used;
    }
  }

  // ---------------------------------------------------------------- what arrives

  /** The chunks with this id, in order. */
  function Mine(cs: seq<Chunk>, id: nat): (r: seq<Chunk>) {
    if cs == [] then [] else (if cs[0].id == id then [cs[0]] else []) + Mine(cs[1..], id)
  }

  function Arrived(packets: seq<seq<byte>>, id: nat): (r: seq<Chunk>) {
    if packets == [] then [] else Mine(ReadChunks(packets[0], 0), id) + Arrived(packets[1..], id)
  }

  predicate Brings(packet: seq<byte>, id: nat) { Mine(ReadChunks(packet, 0), id) != [] }

  ghost predicate Consecutive(packets: seq<seq<byte>>, id: nat, i: nat, j: nat) {
    && i < j < |packets| && Brings(packets[i], id) && Brings(packets[j], id)
    && forall k :: i < k < j ==> !Brings(packets[k], id)
  }

  /** From each packet with chunks of the frame to the next one it is at most n packets. */
  ghost predicate Spaced(packets: seq<seq<byte>>, id: nat, n: nat) {
    forall i, j :: 0 <= i < j < |packets| && Consecutive(packets, id, i, j) ==> j - i <= n
  }

  /** How many frames with other ids the chunks begin. */
  ghost function BegunBy(cfg: A.Config, st: A.State, cs: seq<Chunk>, id: nat): (n: nat)
    requires A.Inv(cfg, st)
    decreases |cs|
  {
    if cs == [] then 0
    else
      A.ProcessChunkInv(cfg, st, cs[0]);
      A.HasSlot(cfg, st);
      (if cs[0].id != id && Begins(cfg, st, cs[0]) then 1 else 0) + BegunBy(cfg, A.ProcessChunk(cfg, st, cs[0]).0, cs[1..], id)
  }

  ghost function Begun(cfg: A.Config, st: A.State, packets: seq<seq<byte>>, id: nat): (n: nat)
    requires A.Inv(cfg, st)
    decreases |packets|
  {
    if packets == [] then 0
    else
      var cs := ReadChunks(packets[0], 0);
      A.TickInv(cfg, A.ProcessChunks(cfg, st, cs).0);
      BegunBy(cfg, st, cs, id) + Begun(cfg, A.ProcessPacket(cfg, st, packets[0]).0, packets[1..], id)
  }

  // ---------------------------------------------------------------- the chunks of a cut, in any order

  /** The chunks of a frame, each once, in the order in which they come. */
  ghost predicate Shuffled(frame: seq<byte>, id: nat, arr: seq<Chunk>) {
    && NoDuplicates(arr) && (exists k :: 0 <= k < |arr| && arr[k].last)
    && (forall k :: 0 <= k < |arr| ==> E.GoodChunk(frame, id, arr[k]) && (|arr| > 1 ==> arr[k].data != []))
    && (forall i, j :: 0 <= i < j < |arr| ==> !Cross(arr[i], arr[j]) && !(arr[i].last && arr[j].last))
    && (forall i :: 0 <= i < |frame| ==> Given(arr, frame, i))
  }

  lemma Permuted(frame: seq<byte>, id: nat, cs: seq<Chunk>, arr: seq<Chunk>)
    requires D.CutWhole(frame, id, cs) && multiset(arr) == multiset(cs)
    ensures Shuffled(frame, id, arr) && |arr| == |cs|
  {
    hide D.CutTo, E.Contiguous, Given, Cross;
    E.CutContiguous(frame, id, cs, |frame|);
    CutShuffled(frame, id, cs);
    SameElements(cs, arr);
    assert |arr| == |multiset(arr)| == |multiset(cs)| == |cs|;
    forall i | 0 <= i < |frame| ensures Given(arr, frame, i) { GivenToo(cs, arr, frame, i); }
    var k :| 0 <= k < |cs| && cs[k].last;
    assert cs[k] in arr;
    forall i, j | 0 <= i < j < |arr| ensures !Cross(arr[i], arr[j]) && !(arr[i].last && arr[j].last) {
      PairOf(cs, arr[i], arr[j]);
    }
    forall k | 0 <= k < |arr| ensures E.GoodChunk(frame, id, arr[k]) && (|arr| > 1 ==> arr[k].data != []) { assert arr[k] in cs; }
  }

  lemma GivenToo(cs: seq<Chunk>, arr: seq<Chunk>, frame: seq<byte>, i: nat)
    requires Given(cs, frame, i) && forall c :: c in cs ==> c in arr
    ensures Given(arr, frame, i)
  {
    var k :| 0 <= k < |cs| && Gives(cs[k], frame, i);
    assert cs[k] in arr;
  }

  lemma PairOf(cs: seq<Chunk>, a: Chunk, b: Chunk)
    requires a in cs && b in cs && a != b
    requires forall i, j :: 0 <= i < j < |cs| ==> !Cross(cs[i], cs[j]) && !(cs[i].last && cs[j].last)
    ensures !Cross(a, b) && !(a.last && b.last)
  {
    var i :| 0 <= i < |cs| && cs[i] == a;
    var j :| 0 <= j < |cs| && cs[j] == b;
    assert i < j ==> !Cross(cs[i], cs[j]) && !(cs[i].last && cs[j].last);
    assert j < i ==> !Cross(cs[j], cs[i]) && !(cs[j].last && cs[i].last);
  }

  lemma SameElements(cs: seq<Chunk>, arr: seq<Chunk>)
    requires NoDuplicates(cs) && multiset(arr) == multiset(cs)
    ensures NoDuplicates(arr) && forall c :: c in arr <==> c in cs
  {
    forall c ensures c in arr <==> c in cs { assert c in arr <==> c in multiset(arr); assert c in cs <==> c in multiset(cs); }
    forall i, j | 0 <= i < j < |arr| ensures arr[i] != arr[j] {
      if arr[i] == arr[j] {
        TwiceIn(arr, i, j);
        OnceIn(cs, arr[i]);
      }
    }
  }

  lemma TwiceIn(s: seq<Chunk>, i: nat, j: nat)
    requires i < j < |s| && s[i] == s[j]
    ensures multiset(s)[s[i]] >= 2
  {
    assert s == s[..j] + s[j..];
    assert s[i] in s[..j] && s[i] in s[j..];
  }

  lemma {:induction false} OnceIn(s: seq<Chunk>, c: Chunk)
    requires NoDuplicates(s)
    ensures multiset(s)[c] <= 1
  {
    if s != [] {
      var n := |s| - 1;
      OnceIn(s[..n], c);
      assert s == s[..n] + [s[n]];
      assert s[n] !in s[..n];
    }
  }

  lemma CutShuffled(frame: seq<byte>, id: nat, cs: seq<Chunk>)
    requires D.CutWhole(frame, id, cs) && E.Contiguous(frame, id, cs)
    ensures Shuffled(frame, id, cs)
  {
    CutNonEmpty(frame, id, cs, |frame|);
    hide D.CutTo;
    E.CutContiguous(frame, id, cs, |frame|);
    assert E.GoodChunk(frame, id, cs[|cs| - 1]) && cs[|cs| - 1].last;
    forall i, j | 0 <= i < j < |cs| ensures cs[i] != cs[j] && !Cross(cs[i], cs[j]) && !(cs[i].last && cs[j].last) {
      E.ContiguousOrder(frame, id, cs, i, j);
    }
    forall i | 0 <= i < |frame| ensures Given(cs, frame, i) { InSome(frame, id, cs, |cs|, i); }
  }

  lemma {:induction false} CutNonEmpty(frame: seq<byte>, id: nat, cs: seq<Chunk>, upto: nat)
    requires upto <= |frame| && D.CutTo(frame, id, cs, upto)
    ensures frame != [] ==> forall k :: 0 <= k < |cs| ==> cs[k].data != []
    ensures frame == [] ==> |cs| <= 1
    decreases |cs|
  {
    if cs != [] {
      CutNonEmpty(frame, id, cs[..|cs| - 1], cs[|cs| - 1].start);
    }
  }

  lemma {:induction false} InSome(frame: seq<byte>, id: nat, cs: seq<Chunk>, n: nat, i: nat)
    requires E.Contiguous(frame, id, cs) && 0 < n <= |cs| && i < EndOf(cs[n - 1]) && i < |frame|
    ensures Given(cs, frame, i)
    decreases n
  {
    assert E.GoodChunk(frame, id, cs[n - 1]);
    if i >= cs[n - 1].start {
      assert Gives(cs[n - 1], frame, i);
    } else {
      InSome(frame, id, cs, n - 1, i);
    }
  }

  /** Some of them are consistent, and only all of them are the whole frame. */
  lemma PartOf(frame: seq<byte>, id: nat, arr: seq<Chunk>, m: nat)
    requires Shuffled(frame, id, arr) && m <= |arr|
    ensures Consistent(arr[..m])
    ensures IsWhole(arr[..m]) <==> m == |arr|
    ensures forall x :: Whole(arr, x) ==> x == frame
  {
    hide Given, Gives, Cross;
    if m < |arr| {
      forall x ensures !Whole(arr[..m], x) { Missing(frame, id, arr, m, x); }
    } else {
      assert arr[..m] == arr;
      var k :| 0 <= k < |arr| && arr[k].last;
      assert E.GoodChunk(frame, id, arr[k]);
      assert Whole(arr, frame);
    }
    forall x | Whole(arr, x) ensures x == frame { SameWhole(frame, id, arr, x); }
  }

  lemma {:induction false} Missing(frame: seq<byte>, id: nat, arr: seq<Chunk>, m: nat, x: seq<byte>)
    requires Shuffled(frame, id, arr) && m < |arr|
    ensures !Whole(arr[..m], x)
  {
    var i := arr[m].start;
    assert E.GoodChunk(frame, id, arr[m]);
    forall k | 0 <= k < m ensures !Gives(arr[..m][k], x, i) && (arr[..m][k].last ==> EndOf(arr[..m][k]) == |frame| > i) {
      assert E.GoodChunk(frame, id, arr[k]) && !Cross(arr[k], arr[m]);
    }
    assert !Given(arr[..m], x, i);
  }

  lemma SameWhole(frame: seq<byte>, id: nat, arr: seq<Chunk>, x: seq<byte>)
    requires Shuffled(frame, id, arr) && Whole(arr, x)
    ensures x == frame
  {
    hide Cross, Given, NoDuplicates;
    var k :| 0 <= k < |arr| && arr[k].last && EndOf(arr[k]) == |x|;
    assert E.GoodChunk(frame, id, arr[k]);
    forall i | 0 <= i < |x| ensures x[i] == frame[i] { SameByte(frame, id, arr, x, i); }
  }

  lemma SameByte(frame: seq<byte>, id: nat, arr: seq<Chunk>, x: seq<byte>, i: nat)
    requires Given(arr, x, i) && |x| == |frame| && forall k :: 0 <= k < |arr| ==> E.GoodChunk(frame, id, arr[k])
    ensures i < |x| && x[i] == frame[i]
  {
    var j :| 0 <= j < |arr| && Gives(arr[j], x, i);
    assert E.GoodChunk(frame, id, arr[j]);
  }

  // ---------------------------------------------------------------- late and out of order

  lemma {:induction false} NothingMine(cfg: A.Config, st: A.State, cs: seq<Chunk>, id: nat)
    requires A.Inv(cfg, st) && Mine(cs, id) == []
    ensures M.DeliveredBy(cfg, st, cs, id) == []
    decreases |cs|
  {
    hide A.Inv, A.ProcessChunk;
    if cs != [] {
      A.ProcessChunkInv(cfg, st, cs[0]);
      A.HasSlot(cfg, st);
      NothingMine(cfg, A.ProcessChunk(cfg, st, cs[0]).0, cs[1..], id);
    }
  }

  lemma {:induction false} NothingArrives(cfg: A.Config, st: A.State, packets: seq<seq<byte>>, id: nat)
    requires A.Inv(cfg, st) && Arrived(packets, id) == []
    ensures M.DeliveredFor(cfg, st, packets, id) == []
    decreases |packets|
  {
    hide A.Inv, A.ProcessChunks, A.Tick, ReadChunks;
    if packets != [] {
      var cs := ReadChunks(packets[0], 0);
      A.TickInv(cfg, A.ProcessChunks(cfg, st, cs).0);
      NothingMine(cfg, st, cs, id);
      NothingArrives(cfg, A.ProcessPacket(cfg, st, packets[0]).0, packets[1..], id);
    }
  }

  /** The chunks of one packet, when the first m chunks of the frame have come, and some are missing. */
  lemma {:induction false} FeedChunks(cfg: A.Config, st: A.State, frame: seq<byte>, id: nat, arr: seq<Chunk>, m: nat,
                                      age: nat, behind: nat, cs: seq<Chunk>, tail: seq<Chunk>)
    requires A.Inv(cfg, st) && Shuffled(frame, id, arr) && |arr| <= cfg.numChunks && |frame| <= cfg.outputMtu && m < |arr|
    requires Pending(cfg, st, id, arr[..m], age, behind) && age <= cfg.numFrames && Mine(cs, id) + tail == arr[m..]
    requires behind + BegunBy(cfg, st, cs, id) < cfg.numFrames
    ensures tail == [] ==> M.DeliveredBy(cfg, st, cs, id) == [frame]
    ensures tail != [] ==>
              var n := m + |Mine(cs, id)|;
              && n < |arr| && tail == arr[n..] && M.DeliveredBy(cfg, st, cs, id) == []
              && Pending(cfg, A.ProcessChunks(cfg, st, cs).0, id, arr[..n], if n == m then age else 0, behind + BegunBy(cfg, st, cs, id))
    decreases |cs|
  {
    hide A.Inv, A.ProcessChunk, Pending, Shuffled, Begins, NoDuplicates;
    if cs == [] {
      assert [] + tail == tail;
    } else {
      var c := cs[0];
      A.HasSlot(cfg, st);
      A.ProcessChunkInv(cfg, st, c);
      var s := A.ProcessChunk(cfg, st, c).0;
      if c.id != id {
        OtherChunk(cfg, st, c, id, arr[..m], age, behind);
        assert [] + Mine(cs[1..], id) == Mine(cs[1..], id);
        FeedChunks(cfg, s, frame, id, arr, m, age, behind + (if Begins(cfg, st, c) then 1 else 0), cs[1..], tail);
      } else {
        Assoc([c], Mine(cs[1..], id), tail);
        FeedOwn(cfg, st, frame, id, arr, m, age, behind, c, Mine(cs[1..], id) + tail);
        if m + 1 == |arr| {
          NothingMine(cfg, s, cs[1..], id);
        } else {
          FeedChunks(cfg, s, frame, id, arr, m + 1, 0, behind, cs[1..], tail);
        }
      }
    }
  }

  /** The next chunk of the frame. */
  lemma {:induction false} FeedOwn(cfg: A.Config, st: A.State, frame: seq<byte>, id: nat, arr: seq<Chunk>, m: nat,
                                   age: nat, behind: nat, c: Chunk, rest: seq<Chunk>)
    requires A.Inv(cfg, st) && Shuffled(frame, id, arr) && |arr| <= cfg.numChunks && |frame| <= cfg.outputMtu && m < |arr|
    requires Pending(cfg, st, id, arr[..m], age, behind) && age <= cfg.numFrames && [c] + rest == arr[m..] && c.id == id
    ensures rest == arr[m + 1..] && (st.free > 0 || st.used != [])
    ensures var (s, out) := A.ProcessChunk(cfg, st, c);
            if m + 1 == |arr| then out == Some(frame) && rest == [] else out == None && Pending(cfg, s, id, arr[..m + 1], 0, behind)
  {
    hide A.Inv, A.ProcessChunk, Pending, Whole, Consistent, IsWhole;
    assert c == ([c] + rest)[0] == arr[m] && rest == ([c] + rest)[1..] == arr[m + 1..];
    assert arr[..m] + [c] == arr[..m + 1];
    assert m + 1 == |arr| ==> arr[..m + 1] == arr;
    assert E.GoodChunk(frame, id, arr[m]);
    PartOf(frame, id, arr, m);
    PartOf(frame, id, arr, m + 1);
    ChunkEffect(cfg, st, c, arr[..m], age, behind);
    assert |arr[..m + 1]| == m + 1;
    if m + 1 == |arr| {
      assert Whole(arr, A.ProcessChunk(cfg, st, c).1.value);
      assert rest == [];
    }
  }

  lemma {:induction false} NextArrival(packets: seq<seq<byte>>, id: nat, i: nat) returns (j: nat)
    requires i <= |packets| && Arrived(packets[i..], id) != []
    ensures i <= j < |packets| && Brings(packets[j], id) && forall k :: i <= k < j ==> !Brings(packets[k], id)
    decreases |packets| - i
  {
    hide ReadChunks, Mine;
    if Brings(packets[i], id) {
      j := i;
    } else {
      assert packets[i..][1..] == packets[i + 1..];
      j := NextArrival(packets, id, i + 1);
    }
  }

  /** What is known before packet i: m chunks have come, the last of them with packet last. */
  ghost predicate Waiting(packets: seq<seq<byte>>, id: nat, i: nat, m: nat, last: nat) {
    m > 0 ==> last < i <= |packets| && Brings(packets[last], id) && forall k :: last < k < i ==> !Brings(packets[k], id)
  }

  lemma {:induction false} InTime(packets: seq<seq<byte>>, id: nat, n: nat, i: nat, m: nat, last: nat)
    requires Spaced(packets, id, n) && Waiting(packets, id, i, m, last) && m > 0 && i <= |packets| && Arrived(packets[i..], id) != []
    ensures i - last <= n
  {
    hide Brings;
    var j := NextArrival(packets, id, i);
    assert Consecutive(packets, id, last, j);
  }

  lemma {:induction false} FeedPackets(cfg: A.Config, st: A.State, frame: seq<byte>, id: nat, arr: seq<Chunk>, packets: seq<seq<byte>>,
                                       i: nat, m: nat, last: nat, behind: nat)
    requires A.Inv(cfg, st) && Shuffled(frame, id, arr) && |arr| <= cfg.numChunks && |frame| <= cfg.outputMtu && m < |arr|
    requires i <= |packets| && Arrived(packets[i..], id) == arr[m..] && Spaced(packets, id, cfg.numFrames)
    requires Waiting(packets, id, i, m, last) && (m == 0 ==> last == i)
    requires Pending(cfg, st, id, arr[..m], i - last, behind) && behind + Begun(cfg, st, packets[i..], id) < cfg.numFrames
    ensures M.DeliveredFor(cfg, st, packets[i..], id) == [frame]
    decreases |packets| - i
  {
    hide A.Inv, A.ProcessChunks, A.Tick, ReadChunks, Pending, Shuffled, Spaced, Mine, Brings, BegunBy, M.DeliveredBy;
    if m > 0 {
      InTime(packets, id, cfg.numFrames, i, m, last);
    }
    assert packets[i..] != [];
    assert packets[i..][1..] == packets[i + 1..] && packets[i..][0] == packets[i];
    var cs, tail := ReadChunks(packets[i], 0), Arrived(packets[i + 1..], id);
    FeedChunks(cfg, st, frame, id, arr, m, i - last, behind, cs, tail);
    var s := A.ProcessChunks(cfg, st, cs).0;
    A.TickInv(cfg, s);
    if tail == [] {
      NothingArrives(cfg, A.Tick(cfg, s), packets[i + 1..], id);
    } else {
      var n, more := m + |Mine(cs, id)|, behind + BegunBy(cfg, st, cs, id);
      var last' := if n == 0 then i + 1 else if n == m then last else i;
      AfterPacket(cfg, s, id, arr, n, if n == m then i - last else 0, more);
      StillWaiting(packets, id, i, m, last, n);
      FeedPackets(cfg, A.Tick(cfg, s), frame, id, arr, packets, i + 1, n, last', more);
    }
  }

  lemma {:induction false} StillWaiting(packets: seq<seq<byte>>, id: nat, i: nat, m: nat, last: nat, n: nat)
    requires i < |packets| && Waiting(packets, id, i, m, last) && n == m + |Mine(ReadChunks(packets[i], 0), id)|
    ensures Waiting(packets, id, i + 1, n, if n == 0 then i + 1 else if n == m then last else i)
  {
    hide ReadChunks, Mine;
    BringsSome(packets[i], id);
  }

  lemma {:induction false} AfterPacket(cfg: A.Config, s: A.State, id: nat, arr: seq<Chunk>, n: nat, age: nat, behind: nat)
    requires A.Inv(cfg, s) && n <= |arr| && Pending(cfg, s, id, arr[..n], age, behind) && age <= cfg.numFrames
    ensures A.Inv(cfg, A.Tick(cfg, s)) && Pending(cfg, A.Tick(cfg, s), id, arr[..n], if n == 0 then 0 else age + 1, behind)
  {
    hide A.Inv, A.Tick, Pending;
    TickPending(cfg, s, id, arr[..n], age, behind);
    if n == 0 {
      NoneYet(cfg, A.Tick(cfg, s), id, arr, age + 1, behind);
    }
  }

  lemma BringsSome(packet: seq<byte>, id: nat)
    ensures Brings(packet, id) <==> |Mine(ReadChunks(packet, 0), id)| > 0
  {
  }

  lemma {:induction false} NoneYet(cfg: A.Config, st: A.State, id: nat, arr: seq<Chunk>, age: nat, behind: nat)
    requires Pending(cfg, st, id, arr[..0], age, behind)
    ensures Pending(cfg, st, id, arr[..0], 0, behind)
  {
  }

  lemma {:induction false} DeliveredInRun(cfg: A.Config, st: A.State, packets: seq<seq<byte>>, id: nat)
    requires A.Inv(cfg, st)
    ensures forall x :: x in M.DeliveredFor(cfg, st, packets, id) ==> x in A.Run(cfg, st, packets).1
    decreases |packets|
  {
    hide A.Inv, A.ProcessChunks, A.Tick, ReadChunks, M.DeliveredBy;
    if packets != [] {
      var cs := ReadChunks(packets[0], 0);
      A.TickInv(cfg, A.ProcessChunks(cfg, st, cs).0);
      DeliveredInChunks(cfg, st, cs, id);
      DeliveredInRun(cfg, A.ProcessPacket(cfg, st, packets[0]).0, packets[1..], id);
    }
  }

  lemma {:induction false} DeliveredInChunks(cfg: A.Config, st: A.State, cs: seq<Chunk>, id: nat)
    requires A.Inv(cfg, st)
    ensures forall x :: x in M.DeliveredBy(cfg, st, cs, id) ==> x in A.ProcessChunks(cfg, st, cs).1
    decreases |cs|
  {
    hide A.Inv, A.ProcessChunk;
    if cs != [] {
      A.ProcessChunkInv(cfg, st, cs[0]);
      A.HasSlot(cfg, st);
      DeliveredInChunks(cfg, A.ProcessChunk(cfg, st, cs[0]).0, cs[1..], id);
    }
  }

  /**
    A frame is delivered, once, if each of its chunks arrives once, in any order and among other
    packets, never more than numFrames packets after the one before, while fewer than numFrames
    other frames are begun, and its id was not in use.
    */
  lemma {:induction false} Delivered(cfg: A.Config, st: A.State, frame: seq<byte>, id: nat, cs: seq<Chunk>, packets: seq<seq<byte>>)
    requires A.Inv(cfg, st) && Forgotten(cfg, st, id)
    requires D.CutWhole(frame, id, cs) && |cs| <= cfg.numChunks && |frame| <= cfg.outputMtu
    requires multiset(Arrived(packets, id)) == multiset(cs) && Spaced(packets, id, cfg.numFrames)
    requires Begun(cfg, st, packets, id) < cfg.numFrames
    ensures M.DeliveredFor(cfg, st, packets, id) == [frame] && frame in A.Run(cfg, st, packets).1
  {
    hide A.Inv, D.CutTo, Spaced, Begun, Forgotten, Shuffled, A.Run, M.DeliveredFor;
    var arr := Arrived(packets, id);
    Permuted(frame, id, cs, arr);
    assert arr[..0] == [] && arr[0..] == arr && packets[0..] == packets;
    FeedPackets(cfg, st, frame, id, arr, packets, 0, 0, 0, 0);
    DeliveredInRun(cfg, st, packets, id);
  }

  // ---------------------------------------------------------------- silence

  /** A frame with this id is old, or all of it is from g. */
  ghost predicate OldOrFrom(cfg: A.Config, st: A.State, id: nat, g: seq<byte>) {
    forall k :: 0 <= k < |st.used| && st.used[k].id == id ==>
      st.time - st.used[k].time > cfg.numFrames || FromFrame(g, st.used[k])
  }

  ghost predicate FromFrame(g: seq<byte>, f: A.Frame) {
    && (forall k :: 0 <= k < |f.pieces| ==> E.SliceOf(g, f.pieces[k]))
    && (f.length >= 0 ==> f.length == |g|)
  }

  lemma LookupFrom(cfg: A.Config, st: A.State, id: nat, g: seq<byte>, other: nat)
    requires A.Inv(cfg, st) && OldOrFrom(cfg, st, id, g)
    ensures st.free > 0 || st.used != []
    ensures var (s, i) := A.FrameFor(cfg, st, other);
            OldOrFrom(cfg, s, id, g) && (other == id ==> FromFrame(g, s.used[i]))
  {
    hide A.FrameInv, E.SliceOf;
    A.HasSlot(cfg, st);
  }

  lemma {:induction false} StepFrom(cfg: A.Config, st: A.State, id: nat, g: seq<byte>, c: Chunk)
    requires A.Inv(cfg, st) && OldOrFrom(cfg, st, id, g) && (c.id == id ==> E.GoodChunk(g, id, c))
    ensures st.free > 0 || st.used != []
    ensures var (s, out) := A.ProcessChunk(cfg, st, c);
            OldOrFrom(cfg, s, id, g) && (c.id == id && out.Some? ==> out.value == g)
  {
    hide A.FrameFor, A.FrameInv, A.Assemble, A.Overlaps, A.Disjoint, A.Total, A.Accepts;
    LookupFrom(cfg, st, id, g, c.id);
    if EndOf(c) <= cfg.outputMtu {
      var (s, i) := A.FrameFor(cfg, st, c.id);
      A.FrameForInv(cfg, st, c.id);
      var f, p := s.used[i], A.Piece(c.start, c.data);
      if c.id == id && A.Accepts(f, p, c.last) {
        A.AcceptedPiece(cfg, s.time, f, p, c.last);
        var y := A.AddPiece(f, p, c.last, s.time);
        assert FromFrame(g, y);
        if !A.Incomplete(y) {
          A.AssembleSlices(y.pieces, g);
        }
      }
    }
  }

  lemma {:induction false} ChunksFrom(cfg: A.Config, st: A.State, id: nat, g: seq<byte>, cs: seq<Chunk>)
    requires A.Inv(cfg, st) && OldOrFrom(cfg, st, id, g) && forall c :: c in cs && c.id == id ==> E.GoodChunk(g, id, c)
    ensures OldOrFrom(cfg, A.ProcessChunks(cfg, st, cs).0, id, g)
    ensures forall x :: x in M.DeliveredBy(cfg, st, cs, id) ==> x == g
    decreases |cs|
  {
    hide A.ProcessChunk, A.Inv, OldOrFrom, E.GoodChunk;
    if cs != [] {
      A.ProcessChunkInv(cfg, st, cs[0]);
      StepFrom(cfg, st, id, g, cs[0]);
      ChunksFrom(cfg, A.ProcessChunk(cfg, st, cs[0]).0, id, g, cs[1..]);
    }
  }

  lemma TickFrom(cfg: A.Config, st: A.State, id: nat, g: seq<byte>)
    requires A.Inv(cfg, st) && OldOrFrom(cfg, st, id, g)
    ensures OldOrFrom(cfg, A.Tick(cfg, st), id, g)
  {
    hide A.Inv, A.Tick, A.Survivors, E.SliceOf;
    A.TickInv(cfg, st);
    A.SurvivorsMembers(cfg, st, st.used);
    var r := A.Tick(cfg, st);
    M.TickKeeps(cfg, st, r);
    forall k | 0 <= k < |r.used| && r.used[k].id == id
      ensures r.time - r.used[k].time > cfg.numFrames || FromFrame(g, r.used[k])
    {
      var f := if st.time < A.MAX_TIME then st.used[k] else A.Survivors(cfg, st, st.used)[k];
      assert A.SameButTime(st, f, r, r.used[k], 1);
      assert f in st.used;
    }
  }

  /** Every chunk with this id that arrives is a part of g. */
  ghost predicate PartsOf(packets: seq<seq<byte>>, id: nat, g: seq<byte>) {
    forall i :: 0 <= i < |packets| ==> PartsIn(packets[i], id, g)
  }

  ghost predicate PartsIn(packet: seq<byte>, id: nat, g: seq<byte>) {
    forall c :: c in ReadChunks(packet, 0) && c.id == id ==> E.GoodChunk(g, id, c)
  }

  lemma {:induction false} PacketsFrom(cfg: A.Config, st: A.State, id: nat, g: seq<byte>, packets: seq<seq<byte>>)
    requires A.Inv(cfg, st) && OldOrFrom(cfg, st, id, g) && PartsOf(packets, id, g)
    ensures forall x :: x in M.DeliveredFor(cfg, st, packets, id) ==> x == g
    decreases |packets|
  {
    hide A.ProcessChunks, A.Tick, A.Inv, OldOrFrom, ReadChunks, M.DeliveredBy;
    if packets != [] {
      var cs := ReadChunks(packets[0], 0);
      assert PartsIn(packets[0], id, g);
      ChunksFrom(cfg, st, id, g, cs);
      var s := A.ProcessChunks(cfg, st, cs).0;
      A.TickInv(cfg, s);
      TickFrom(cfg, s, id, g);
      PacketsFrom(cfg, A.Tick(cfg, s), id, g, packets[1..]);
    }
  }

  lemma {:induction false} OtherChunks(cfg: A.Config, st: A.State, cs: seq<Chunk>, id: nat, n: nat)
    requires A.Inv(cfg, st) && Older(st, id, n) && Mine(cs, id) == []
    ensures Older(A.ProcessChunks(cfg, st, cs).0, id, n)
    decreases |cs|
  {
    hide A.Inv, A.ProcessChunk, Older;
    if cs != [] {
      A.ProcessChunkInv(cfg, st, cs[0]);
      A.HasSlot(cfg, st);
      OtherOlder(cfg, st, cs[0], id, n);
      OtherChunks(cfg, A.ProcessChunk(cfg, st, cs[0]).0, cs[1..], id, n);
    }
  }

  lemma OtherOlder(cfg: A.Config, st: A.State, c: Chunk, id: nat, n: nat)
    requires A.Inv(cfg, st) && c.id != id && Older(st, id, n) && (st.free > 0 || st.used != [])
    ensures Older(A.ProcessChunk(cfg, st, c).0, id, n)
  {
    hide A.FrameFor, A.FrameInv, A.Accepts, A.Assemble, A.Incomplete;
    if EndOf(c) <= cfg.outputMtu {
      A.FrameForInv(cfg, st, c.id);
      OthersStay(cfg, st, c.id, id);
    }
  }

  lemma {:induction false} Ages(cfg: A.Config, st: A.State, quiet: seq<seq<byte>>, id: nat, n: nat)
    requires A.Inv(cfg, st) && Older(st, id, n) && Arrived(quiet, id) == []
    ensures Older(A.Run(cfg, st, quiet).0, id, n + |quiet|)
    decreases |quiet|
  {
    hide A.Inv, A.ProcessChunks, A.Tick, ReadChunks, Older;
    if quiet != [] {
      var cs := ReadChunks(quiet[0], 0);
      OtherChunks(cfg, st, cs, id, n);
      A.TickInv(cfg, A.ProcessChunks(cfg, st, cs).0);
      TickOlder(cfg, A.ProcessChunks(cfg, st, cs).0, id, n);
      Ages(cfg, A.ProcessPacket(cfg, st, quiet[0]).0, quiet[1..], id, n + 1);
    }
  }

  lemma NoneNew(cfg: A.Config, st: A.State, id: nat)
    requires A.Inv(cfg, st)
    ensures Older(st, id, 0)
  {
  }

  /**
    After more than numFrames packets without a chunk of an id, whatever was received under it
    before takes no part any more: if the chunks that come then are all of one frame g, nothing
    but g is delivered, and g is if it comes whole and in time.
    */
  lemma {:induction false} SilenceForgets(cfg: A.Config, st: A.State, id: nat, quiet: seq<seq<byte>>, g: seq<byte>, packets: seq<seq<byte>>)
    requires A.Inv(cfg, st) && Arrived(quiet, id) == [] && |quiet| > cfg.numFrames && PartsOf(packets, id, g)
    ensures Forgotten(cfg, A.Run(cfg, st, quiet).0, id)
    ensures forall x :: x in M.DeliveredFor(cfg, A.Run(cfg, st, quiet).0, packets, id) ==> x == g
  {
    hide A.Inv, A.Run, M.DeliveredFor, PartsOf;
    NoneNew(cfg, st, id);
    Ages(cfg, st, quiet, id, 0);
    PacketsFrom(cfg, A.Run(cfg, st, quiet).0, id, g, packets);
  }
}
