/**
  The assembler as the program keeps it: a fixed array of frame entries, an array of chunk
  spans and a byte buffer per entry, lists of free and used entries and a lookup tree by
  frame id. Buffers are reused without being cleared; the methods are proved to do what
  FragmentAssembler says on values, which never looks at stale bytes.
  */
module FragmentSlots {
  import opened Bytes
  import opened Lists
  import opened FragmentWire
  import opened FragmentAssembler

  /** A struct FragmentProtoAssembler_chunk. */
  datatype Span = Span(start: nat, len: nat)

  /** The fields of a struct FragmentProtoAssembler_frame besides its chunks and its buffer. */
  datatype Entry = Entry(id: nat, time: nat, numChunks: nat, sum: int, length: int, lengthSoFar: int)

  predicate EntryOk(e: Entry, spans: seq<Span>, bytes: seq<byte>) {
    && e.numChunks <= |spans|
    && forall k :: 0 <= k < e.numChunks ==> spans[k].start + spans[k].len <= |bytes|
  }

  /** The frame that an entry, its span array and its buffer stand for. */
  ghost function FrameOf(e: Entry, spans: seq<Span>, bytes: seq<byte>): (f: Frame)
    requires EntryOk(e, spans, bytes)
    ensures |f.pieces| == e.numChunks
    ensures forall k :: 0 <= k < e.numChunks ==>
              f.pieces[k] == Piece(spans[k].start, bytes[spans[k].start..spans[k].start + spans[k].len])
  {
    Frame(e.id, e.time,
          seq(e.numChunks, k requires 0 <= k < e.numChunks =>
                Piece(spans[k].start, bytes[spans[k].start..spans[k].start + spans[k].len])),
          e.sum, e.length, e.lengthSoFar)
  }

  /** The new entry fields when a chunk is stored. */
  function StoredEntry(e: Entry, chunkStart: nat, isLast: bool, chunkLen: nat, now: nat): (r: Entry) {
    var chunkEnd := chunkStart + chunkLen;
    Entry(e.id, now, e.numChunks + 1, e.sum + chunkLen,
          if isLast then chunkEnd else e.length,
          if !isLast && e.length < 0 && e.lengthSoFar < chunkEnd then chunkEnd else e.lengthSoFar)
  }

  lemma StoredEntryFields(f: Frame, e: Entry, start: nat, last: bool, data: seq<byte>, now: nat)
    requires f == Frame(e.id, e.time, f.pieces, e.sum, e.length, e.lengthSoFar)
    ensures var g := AddPiece(f, Piece(start, data), last, now);
            g.id == f.id && g.time == now
            && StoredEntry(e, start, last, |data|, now) == Entry(g.id, now, e.numChunks + 1, g.sum, g.length, g.lengthSoFar)
  {
  }

  /** Copying a disjoint chunk into the buffer leaves the bytes of the other chunks alone. */
  lemma StoreChunk(e: Entry, spans: seq<Span>, bytes: seq<byte>, data: seq<byte>, start: nat, last: bool, e': Entry)
    requires EntryOk(e, spans, bytes) && e.numChunks < |spans| && start + |data| <= |bytes|
    requires Accepts(FrameOf(e, spans, bytes), Piece(start, data), last)
    requires var g := AddPiece(FrameOf(e, spans, bytes), Piece(start, data), last, e'.time);
             e' == Entry(g.id, g.time, e.numChunks + 1, g.sum, g.length, g.lengthSoFar)
    ensures var spans' := spans[e.numChunks := Span(start, |data|)];
            var bytes' := Splice(bytes, start, data);
            && EntryOk(e', spans', bytes')
            && FrameOf(e', spans', bytes') == AddPiece(FrameOf(e, spans, bytes), Piece(start, data), last, e'.time)
  {
    hide AddPiece, Accepts;
    var f := FrameOf(e, spans, bytes);
    assert forall k :: 0 <= k < |f.pieces| ==> !Overlaps(f.pieces[k], Piece(start, data)) by {
      AcceptsDisjoint(f, Piece(start, data), last);
    }
    var spans', bytes' := spans[e.numChunks := Span(start, |data|)], Splice(bytes, start, data);
    var g := FrameOf(e', spans', bytes');
    forall k | 0 <= k < |g.pieces|
      ensures g.pieces[k] == (f.pieces + [Piece(start, data)])[k]
    {
      SpliceHere(bytes, start, data);
      if k < e.numChunks {
        assert !Overlaps(f.pieces[k], Piece(start, data));
        SpliceElsewhere(bytes, start, data, spans[k].start, spans[k].start + spans[k].len);
      }
    }
    assert g.pieces == f.pieces + [Piece(start, data)];
    AddPiecePieces(f, Piece(start, data), last, e'.time);
  }

  lemma AddPiecePieces(f: Frame, p: Piece, last: bool, time: nat)
    ensures AddPiece(f, p, last, time).pieces == f.pieces + [p]
  {
  }

  lemma AcceptsDisjoint(f: Frame, p: Piece, last: bool)
    requires Accepts(f, p, last)
    ensures forall k :: 0 <= k < |f.pieces| ==> !Overlaps(f.pieces[k], p)
  {
  }

  lemma SpliceHere(bytes: seq<byte>, start: nat, data: seq<byte>)
    requires start + |data| <= |bytes|
    ensures Splice(bytes, start, data)[start..start + |data|] == data
  {
  }

  lemma SliceOfPrefix<T>(s: seq<T>, n: nat, lo: nat, hi: nat)
    requires lo <= hi <= n <= |s|
    ensures s[..n][lo..hi] == s[lo..hi]
  {
  }

  lemma SpliceElsewhere(bytes: seq<byte>, start: nat, data: seq<byte>, lo: nat, hi: nat)
    requires start + |data| <= |bytes| && lo <= hi <= |bytes|
    requires !ChunksOverlap(lo, hi - lo, start, |data|)
    ensures Splice(bytes, start, data)[lo..hi] == bytes[lo..hi]
  {
  }

  /** A complete frame's buffer holds exactly the assembled frame, whatever was there before. */
  lemma BufferIsFrame(e: Entry, spans: seq<Span>, bytes: seq<byte>)
    requires EntryOk(e, spans, bytes) && 0 <= e.length <= |bytes|
    requires var f := FrameOf(e, spans, bytes);
             Disjoint(f.pieces) && Within(f.pieces, e.length) && Total(f.pieces) == e.length
    ensures bytes[..e.length] == Assemble(FrameOf(e, spans, bytes).pieces, e.length)
  {
    var f := FrameOf(e, spans, bytes);
    forall k | 0 <= k < |f.pieces|
      ensures f.pieces[k].data == bytes[..e.length][f.pieces[k].start..f.pieces[k].End()]
    {
      assert f.pieces[k].End() <= e.length;
      SliceOfPrefix(bytes, e.length, spans[k].start, spans[k].start + spans[k].len);
    }
    AssembleSlices(f.pieces, bytes[..e.length]);
  }

  /** The lookup tree finds exactly the used entries, by the ids of their frames. */
  ghost predicate TreeFor(tree: map<nat, nat>, slots: seq<nat>, frames: seq<Frame>) {
    && |slots| == |frames|
    && (forall k :: 0 <= k < |slots| ==> frames[k].id in tree && tree[frames[k].id] == slots[k])
    && (forall id :: id in tree ==> exists k :: 0 <= k < |frames| && frames[k].id == id)
  }

  lemma TreeRemove(tree: map<nat, nat>, slots: seq<nat>, frames: seq<Frame>, p: nat)
    requires TreeFor(tree, slots, frames) && NoDuplicates(slots) && p < |slots|
    ensures TreeFor(tree - {frames[p].id}, RemoveAt(slots, p), RemoveAt(frames, p))
  {
    hide RemoveAt;
    var t, fs, ss := tree - {frames[p].id}, RemoveAt(frames, p), RemoveAt(slots, p);
    forall k | 0 <= k < |ss|
      ensures fs[k].id in t && t[fs[k].id] == ss[k]
    {
      var j := if k < p then k else k + 1;
      assert fs[k] == frames[j] && ss[k] == slots[j];
      assert slots[j] != slots[p];
    }
    forall id | id in t
      ensures exists k :: 0 <= k < |fs| && fs[k].id == id
    {
      var k :| 0 <= k < |frames| && frames[k].id == id;
      assert if k < p then fs[k].id == id else fs[k - 1].id == id;
    }
  }

  lemma TreeAppend(tree: map<nat, nat>, slots: seq<nat>, frames: seq<Frame>, slot: nat, f: Frame)
    requires TreeFor(tree, slots, frames) && forall k :: 0 <= k < |frames| ==> frames[k].id != f.id
    ensures TreeFor(tree[f.id := slot], slots + [slot], frames + [f])
  {
    var t, fs := tree[f.id := slot], frames + [f];
    forall id | id in t
      ensures exists k :: 0 <= k < |fs| && fs[k].id == id
    {
      if id != f.id {
        var k :| 0 <= k < |frames| && frames[k].id == id;
        assert fs[k].id == id;
      } else {
        assert fs[|frames|].id == id;
      }
    }
  }

  /** Changing used frames without changing ids keeps the tree. */
  lemma TreeSameIds(tree: map<nat, nat>, slots: seq<nat>, frames: seq<Frame>, frames': seq<Frame>)
    requires TreeFor(tree, slots, frames) && |frames'| == |frames|
    requires forall k :: 0 <= k < |frames| ==> frames'[k].id == frames[k].id
    ensures TreeFor(tree, slots, frames')
  {
  }

  class FragmentProtoAssembler {
    const cfg: Config
    const entries: array<Entry>
    const chunks: array2<Span>
    const buffer: array2<byte>
    /** The value this object stands for. */
    ghost var view: State
    var framesFree: seq<nat>
    var framesUsed: seq<nat>
    var framesUsedTree: map<nat, nat>
    var time: nat
    var inLen: int
    var input: seq<byte>
    var inPos: nat

    ghost function SpanRow(i: nat): (r: seq<Span>)
      requires i < chunks.Length0
      reads chunks
      ensures |r| == chunks.Length1 && forall k :: 0 <= k < |r| ==> r[k] == chunks[i, k]
    {
      seq(chunks.Length1, k requires 0 <= k < chunks.Length1 reads chunks => chunks[i, k])
    }

    ghost function ByteRow(i: nat): (r: seq<byte>)
      requires i < buffer.Length0
      reads buffer
      ensures |r| == buffer.Length1 && forall k :: 0 <= k < |r| ==> r[k] == buffer[i, k]
    {
      seq(buffer.Length1, k requires 0 <= k < buffer.Length1 reads buffer => buffer[i, k])
    }

    /** Array sizes; the free and used lists together hold every entry exactly once. */
    ghost predicate Shape()
      reads this`framesFree, this`framesUsed
    {
      && cfg.Valid()
      && entries.Length == chunks.Length0 == buffer.Length0 == cfg.numFrames
      && chunks.Length1 == cfg.numChunks && buffer.Length1 == cfg.outputMtu
      && Pool(framesFree, framesUsed, cfg.numFrames)
    }

    ghost predicate SlotOk(i: nat)
      requires i < entries.Length == chunks.Length0 == buffer.Length0
      reads entries, chunks, buffer
    {
      EntryOk(entries[i], SpanRow(i), ByteRow(i))
    }

    ghost function Slot(i: nat): (f: Frame)
      requires i < entries.Length == chunks.Length0 == buffer.Length0 && SlotOk(i)
      reads entries, chunks, buffer
    {
      FrameOf(entries[i], SpanRow(i), ByteRow(i))
    }

    /** The parts fit together; this holds in the middle of processing a chunk, too. */
    ghost predicate Linked()
      reads this`view, this`framesFree, this`framesUsed, this`framesUsedTree, this`time, entries, chunks, buffer
    {
      && Shape()
      && |view.used| == |framesUsed| && view.free == |framesFree| && view.time == time
      && (forall k :: 0 <= k < |framesUsed| ==> SlotOk(framesUsed[k]) && view.used[k] == Slot(framesUsed[k]))
      && TreeFor(framesUsedTree, framesUsed, view.used)
    }

    ghost predicate Valid()
      reads this`view, this`framesFree, this`framesUsed, this`framesUsedTree, this`time, entries, chunks, buffer
    {
      Linked() && Inv(cfg, view)
    }

    constructor (cfg: Config)
      requires cfg.Valid()
      ensures Valid() && view == Init(cfg) && this.cfg == cfg && inLen == -1
      ensures fresh(entries) && fresh(chunks) && fresh(buffer)
    {
      this.cfg := cfg;
      entries := new Entry[cfg.numFrames](_ => Entry(0, 0, 0, 0, -1, 0));
      chunks := new Span[cfg.numFrames, cfg.numChunks]((_, _) => Span(0, 0));
      buffer := new byte[cfg.numFrames, cfg.outputMtu]((_, _) => 0);
      framesFree, framesUsed, framesUsedTree := seq(cfg.numFrames, i => i), [], map[];
      time, inLen, input, inPos := 0, -1, [], 0;
      view := Init(cfg);
    }

    /** free_frame, for the used entry at list position p. */
    method FreeFrame(slot: nat, ghost p: nat)
      requires Linked() && p < |framesUsed| && framesUsed[p] == slot
      modifies this`view, this`framesFree, this`framesUsed, this`framesUsedTree
      ensures Linked() && view == FragmentAssembler.FreeFrame(old(view), p)
      ensures framesUsed == RemoveAt(old(framesUsed), p) && framesFree == old(framesFree) + [slot]
      ensures framesUsedTree == old(framesUsedTree) - {entries[slot].id}
    {
      hide EntryOk, TreeFor, RemoveAt, Remove, SpanRow, ByteRow;
      ghost var v := view;
      UsedEntry(p);
      PoolFree(framesFree, framesUsed, cfg.numFrames, p);
      TreeRemove(framesUsedTree, framesUsed, v.used, p);
      framesUsed := Remove(framesUsed, slot);
      framesUsedTree := framesUsedTree - {entries[slot].id};
      framesFree := framesFree + [slot];
      view := FragmentAssembler.FreeFrame(v, p);
    }

    /** Initializing an entry that is not in use changes no used frame. */
    method SetEntry(slot: nat, e: Entry)
      requires slot < entries.Length == chunks.Length0 == buffer.Length0
      modifies entries
      ensures entries[slot] == e
      ensures forall i :: 0 <= i < entries.Length && i != slot ==> entries[i] == old(entries[i])
      ensures forall i :: 0 <= i < entries.Length && i != slot ==>
                SlotOk(i) == old(SlotOk(i)) && (SlotOk(i) ==> Slot(i) == old(Slot(i)))
    {
      entries[slot] := e;
    }

    /** The second half of allocate_new_frame: the first free entry becomes a fresh used one. */
    method UseFreeEntry(id: nat) returns (slot: nat)
      requires Linked() && id !in framesUsedTree && framesFree != []
      modifies this`view, this`framesFree, this`framesUsed, this`framesUsedTree, entries
      ensures Linked() && view == AllocateFrame(old(view), id)
      ensures framesUsed != [] && slot == framesUsed[|framesUsed| - 1]
    {
      hide TreeFor, RemoveAt, Pool, FrameOf, EntryOk, SpanRow, ByteRow, AllocateFrame;
      ghost var v := view;
      PoolUse(framesFree, framesUsed, cfg.numFrames);
      TreeAbsent(framesUsedTree, framesUsed, v.used, id);
      AllocateWithFree(v, id);
      slot := framesFree[0];
      ghost var f := Frame(id, time, [], 0, -1, 0);
      TreeAppend(framesUsedTree, framesUsed, v.used, slot, f);
      framesFree := framesFree[1..];
      SetEntry(slot, Entry(id, time, 0, 0, -1, 0));
      framesUsed := framesUsed + [slot];
      framesUsedTree := framesUsedTree[id := slot];
      FreshFrame(entries[slot], SpanRow(slot), ByteRow(slot));
      view := AllocateFrame(v, id);
    }

    /** allocate_new_frame */
    method AllocateNewFrame(id: nat) returns (slot: nat)
      requires Linked() && id !in framesUsedTree
      modifies this`view, this`framesFree, this`framesUsed, this`framesUsedTree, entries
      ensures Linked() && view == AllocateFrame(old(view), id)
      ensures framesUsed != [] && slot == framesUsed[|framesUsed| - 1]
    {
      hide RemoveAt, Linked, SlotOk, Slot;
      SomeEntry();
      if framesFree == [] {
        FreeFrame(framesUsed[0], 0);
      }
      slot := UseFreeEntry(id);
    }

    lemma SomeEntry()
      requires Linked()
      ensures framesFree != [] || framesUsed != []
      ensures view.time == time && view.free == |framesFree| && |view.used| == |framesUsed|
    {
    }

    /** The frame lookup of process_chunk; the entry is at list position p afterwards. */
    method FrameEntry(id: nat) returns (slot: nat, ghost p: nat)
      requires Linked()
      modifies this`view, this`framesFree, this`framesUsed, this`framesUsedTree, entries
      ensures Linked() && (view, p) == FrameFor(cfg, old(view), id)
      ensures p < |framesUsed| && framesUsed[p] == slot
    {
      hide RemoveAt, Linked, FindFrame, SlotOk, Slot;
      SomeEntry();
      LookUp(id);
      p := FindFrame(view.used, id);
      if id !in framesUsedTree {
        slot := AllocateNewFrame(id);
        SomeEntry();
        p := |framesUsed| - 1;
      } else {
        slot := framesUsedTree[id];
        UsedEntry(p);
        if time - entries[slot].time > cfg.numFrames {
          FreeFrame(slot, p);
          slot := AllocateNewFrame(id);
          SomeEntry();
          p := |framesUsed| - 1;
        }
      }
    }

    lemma LookUp(id: nat)
      requires Linked()
      ensures id in framesUsedTree <==> FindFrame(view.used, id) < |view.used|
      ensures |view.used| == |framesUsed|
      ensures id in framesUsedTree ==> framesUsed[FindFrame(view.used, id)] == framesUsedTree[id]
    {
      FindInTree(framesUsedTree, framesUsed, view.used, id);
    }

    lemma UsedDistinct(p: nat)
      requires Linked() && p < |framesUsed|
      ensures forall k :: 0 <= k < |framesUsed| ==> framesUsed[k] < cfg.numFrames && (k != p ==> framesUsed[k] != framesUsed[p])
    {
    }

    /** A used entry and the frame it stands for. */
    lemma UsedEntry(k: nat)
      requires Linked() && k < |framesUsed|
      ensures framesUsed[k] < cfg.numFrames == entries.Length == chunks.Length0 == buffer.Length0
      ensures chunks.Length1 == cfg.numChunks && buffer.Length1 == cfg.outputMtu
      ensures SlotOk(framesUsed[k]) && view.used[k] == Slot(framesUsed[k])
      ensures var e, f := entries[framesUsed[k]], view.used[k];
              f == Frame(e.id, e.time, f.pieces, e.sum, e.length, e.lengthSoFar) && |f.pieces| == e.numChunks
    {
    }

    /** The loop that checks a chunk against the stored ones. */
    method OverlapsStored(slot: nat, chunkStart: nat, chunkLen: nat) returns (found: bool)
      requires Linked() && slot < cfg.numFrames && SlotOk(slot)
      ensures found <==> exists k :: 0 <= k < entries[slot].numChunks
                           && ChunksOverlap(chunks[slot, k].start, chunks[slot, k].len, chunkStart, chunkLen)
    {
      found := false;
      var i := 0;
      while i < entries[slot].numChunks
        invariant 0 <= i <= entries[slot].numChunks
        invariant forall k :: 0 <= k < i ==>
                    !ChunksOverlap(chunks[slot, k].start, chunks[slot, k].len, chunkStart, chunkLen)
      {
        if ChunksOverlap(chunks[slot, i].start, chunks[slot, i].len, chunkStart, chunkLen) {
          return true;
        }
        i := i + 1;
      }
    }

    /** The checks of process_chunk between the lookup and the store. */
    method AcceptsChunk(slot: nat, chunkStart: nat, isLast: bool, payload: seq<byte>) returns (ok: bool)
      requires Linked() && slot < cfg.numFrames && SlotOk(slot)
      ensures ok == Accepts(Slot(slot), Piece(chunkStart, payload), isLast)
    {
      var chunkEnd := chunkStart + |payload|;
      ghost var f, p := Slot(slot), Piece(chunkStart, payload);
      var overlap := OverlapsStored(slot, chunkStart, |payload|);
      assert forall k :: 0 <= k < |f.pieces| ==>
          f.pieces[k].start == chunks[slot, k].start && |f.pieces[k].data| == chunks[slot, k].len;
      if overlap {
        ghost var k :| 0 <= k < entries[slot].numChunks
                       && ChunksOverlap(chunks[slot, k].start, chunks[slot, k].len, chunkStart, |payload|);
        assert Overlaps(f.pieces[k], p);
        return false;
      }
      if isLast {
        if entries[slot].length >= 0 {
          return false;
        }
        if entries[slot].lengthSoFar > chunkEnd {
          return false;
        }
      } else {
        if entries[slot].length >= 0 {
          if chunkEnd > entries[slot].length {
            return false;
          }
        }
      }
      return true;
    }

    /** The writes of process_chunk: the span, the counters and the payload, all in one entry. */
    method WriteChunk(slot: nat, chunkStart: nat, isLast: bool, payload: seq<byte>)
      requires slot < entries.Length == chunks.Length0 == buffer.Length0
      requires entries[slot].numChunks < chunks.Length1 && chunkStart + |payload| <= buffer.Length1
      modifies entries, chunks, buffer
      ensures entries[slot] == StoredEntry(old(entries[slot]), chunkStart, isLast, |payload|, time)
      ensures SpanRow(slot) == old(SpanRow(slot))[old(entries[slot]).numChunks := Span(chunkStart, |payload|)]
      ensures ByteRow(slot) == Splice(old(ByteRow(slot)), chunkStart, payload)
      ensures forall i :: 0 <= i < entries.Length && i != slot ==>
                entries[i] == old(entries[i]) && SpanRow(i) == old(SpanRow(i)) && ByteRow(i) == old(ByteRow(i))
    {
      hide Splice, SpanRow, ByteRow;
      var chunkEnd, e := chunkStart + |payload|, entries[slot];
      chunks[slot, e.numChunks] := Span(chunkStart, |payload|);
      var length, lengthSoFar := e.length, e.lengthSoFar;
      if isLast {
        length := chunkEnd;
      } else {
        if length < 0 {
          if lengthSoFar < chunkEnd {
            lengthSoFar := chunkEnd;
          }
        }
      }
      entries[slot] := Entry(e.id, time, e.numChunks + 1, e.sum + |payload|, length, lengthSoFar);
      forall k | 0 <= k < |payload| {
        buffer[slot, chunkStart + k] := payload[k];
      }
      SpliceBytes(old(ByteRow(slot)), chunkStart, payload);
      assert ByteRow(slot) == Splice(old(ByteRow(slot)), chunkStart, payload);
    }

    /** Storing an accepted chunk. */
    method AddChunk(slot: nat, ghost p: nat, chunkStart: nat, isLast: bool, payload: seq<byte>)
      requires Linked() && p < |framesUsed| && framesUsed[p] == slot && p < |view.used|
      requires entries[slot].numChunks < cfg.numChunks && chunkStart + |payload| <= cfg.outputMtu
      requires Accepts(view.used[p], Piece(chunkStart, payload), isLast)
      modifies this`view, entries, chunks, buffer
      ensures Linked()
      ensures view == old(view).(used := old(view).used[p := AddPiece(old(view).used[p], Piece(chunkStart, payload), isLast, old(view).time)])
    {
      hide Accepts, FrameOf, EntryOk, TreeFor, Pool, SpanRow, ByteRow, AddPiece;
      UsedEntry(p);
      UsedDistinct(p);
      ghost var v, e0, spans0, bytes0 := view, entries[slot], SpanRow(slot), ByteRow(slot);
      WriteChunk(slot, chunkStart, isLast, payload);
      ghost var g := AddPiece(v.used[p], Piece(chunkStart, payload), isLast, time);
      StoredEntryFields(v.used[p], e0, chunkStart, isLast, payload, time);
      StoreChunk(e0, spans0, bytes0, payload, chunkStart, isLast, entries[slot]);
      view := v.(used := v.used[p := g]);
      TreeSameIds(framesUsedTree, framesUsed, v.used, view.used);
    }

    /** The frame bytes handed to the output: the first length bytes of the entry's buffer. */
    method ReadBuffer(slot: nat, length: nat) returns (r: seq<byte>)
      requires Linked() && slot < cfg.numFrames && length <= cfg.outputMtu
      ensures r == ByteRow(slot)[..length]
    {
      r := [];
      while |r| < length
        invariant |r| <= length && forall k :: 0 <= k < |r| ==> r[k] == buffer[slot, k]
      {
        r := r + [buffer[slot, |r|]];
      }
    }

    /** process_chunk */
    method ProcessChunk(frameId: nat, chunkStart: nat, isLast: bool, payload: seq<byte>) returns (out: Option<seq<byte>>)
      requires Valid()
      modifies this`view, this`framesFree, this`framesUsed, this`framesUsedTree, entries, chunks, buffer
      ensures Valid()
      ensures (view, out) == FragmentAssembler.ProcessChunk(cfg, old(view), Chunk(frameId, chunkStart, payload, isLast))
    {
      hide Linked, Accepts, FrameFor, Inv, RemoveAt, StorePiece, FrameOf, EntryOk, Slot, SlotOk, ByteRow;
      SomeEntry();
      ghost var v := view;
      ProcessChunkInv(cfg, v, Chunk(frameId, chunkStart, payload, isLast));
      if chunkStart > cfg.outputMtu {
        return None;
      }
      if |payload| > cfg.outputMtu - chunkStart {
        return None;
      }
      var slot; ghost var p;
      slot, p := FrameEntry(frameId);
      UsedEntry(p);
      ghost var s := view;
      FrameForInv(cfg, v, frameId);
      var ok := AcceptsChunk(slot, chunkStart, isLast, payload);
      if !ok {
        FreeFrame(slot, p);
        return None;
      }
      out := StoreChunkAt(slot, p, chunkStart, isLast, payload);
    }

    /** The rest of process_chunk, once the chunk is accepted. */
    method StoreChunkAt(slot: nat, ghost p: nat, chunkStart: nat, isLast: bool, payload: seq<byte>) returns (out: Option<seq<byte>>)
      requires Valid() && p < |framesUsed| && framesUsed[p] == slot && chunkStart + |payload| <= cfg.outputMtu
      requires p < |view.used| && Accepts(view.used[p], Piece(chunkStart, payload), isLast)
      modifies this`view, this`framesFree, this`framesUsed, this`framesUsedTree, entries, chunks, buffer
      ensures Linked()
      ensures p < |old(view).used| && (view, out) == StorePiece(cfg, old(view), p, Piece(chunkStart, payload), isLast)
    {
      hide Linked, Accepts, Inv, RemoveAt, AddPiece, FrameOf, EntryOk, Slot, SlotOk, ByteRow;
      SomeEntry();
      ghost var s := view;
      ghost var piece := Piece(chunkStart, payload);
      UsedEntry(p);
      StoredChunkFacts(cfg, s, p, piece, isLast);
      AddChunk(slot, p, chunkStart, isLast, payload);
      ghost var g := AddPiece(s.used[p], piece, isLast, s.time);
      UsedEntry(p);
      var e := entries[slot];
      FreeUpdated(s, p, g);
      if e.length < 0 || e.sum < e.length {
        if e.numChunks == cfg.numChunks {
          FreeFrame(slot, p);
        }
        return None;
      }
      var frame := ReadBuffer(slot, e.length);
      DeliveredBytes(slot, p);
      FreeFrame(slot, p);
      return Some(frame);
    }

    /** BufferIsFrame for a used entry. */
    lemma DeliveredBytes(slot: nat, p: nat)
      requires Linked() && p < |framesUsed| && framesUsed[p] == slot
      requires var f := view.used[p];
               0 <= f.length <= cfg.outputMtu && Disjoint(f.pieces) && Within(f.pieces, f.length) && Total(f.pieces) == f.length
      ensures slot < buffer.Length0 && view.used[p].length <= buffer.Length1
      ensures ByteRow(slot)[..view.used[p].length] == Assemble(view.used[p].pieces, view.used[p].length)
    {
      BufferIsFrame(entries[slot], SpanRow(slot), ByteRow(slot));
    }

    /** The first loop of reduce_times: drop timed-out frames, find the survivor with the least time. */
    method DropTimedOut() returns (minFrame: Option<nat>)
      requires Linked()
      modifies this`view, this`framesFree, this`framesUsed, this`framesUsedTree
      ensures Linked()
      ensures view == old(view).(used := Survivors(cfg, old(view), old(view).used), free := view.free)
      ensures view.free == old(view).free + |old(view).used| - |view.used|
      ensures minFrame.None? <==> view.used == []
      ensures minFrame.Some? ==> minFrame.value < entries.Length && entries[minFrame.value].time == MinTime(view.used)
    {
      hide Linked, SlotOk, Slot, Survivors, MinTime, Scanned, FragmentAssembler.FreeFrame;
      ghost var v := view;
      ghost var n := 0;
      var i := 0;
      minFrame := None;
      StartScan(cfg, v);
      SomeEntry();
      while i < |framesUsed|
        invariant Linked() && time == v.time && |view.used| == |framesUsed| && i <= |framesUsed|
        invariant Scanned(cfg, v, n, i, view) && n <= |v.used|
        invariant minFrame.None? <==> i == 0
        invariant minFrame.Some? ==> minFrame.value < entries.Length
        invariant minFrame.Some? ==> entries[minFrame.value].time == MinTime(view.used[..i])
        decreases |v.used| - n
      {
        var slot := framesUsed[i];
        UsedEntry(i);
        ScanNext(cfg, v, n, i, view);
        if time - entries[slot].time > cfg.numFrames {
          FreeFrame(slot, i);
          SomeEntry();
        } else {
          MinTimeAppend(view.used, i);
          if minFrame.None? || entries[slot].time < entries[minFrame.value].time {
            minFrame := Some(slot);
          }
          i := i + 1;
        }
        n := n + 1;
      }
      EndScan(cfg, v, n, i, view);
      assert view.used[..i] == view.used;
    }

    /** The second loop of reduce_times: subtract the minimal time from every used frame. */
    method SubtractTime(minTime: nat)
      requires Linked() && forall f :: f in view.used ==> minTime <= f.time
      modifies this`view, entries
      ensures Linked() && view == old(view).(used := Shift(old(view).used, minTime))
    {
      hide Linked, SlotOk, Slot, Shift, PartShift;
      ghost var v := view;
      var i := 0;
      SomeEntry();
      PartShiftEnds(v.used, minTime);
      while i < |framesUsed|
        invariant 0 <= i <= |framesUsed| == |v.used|
        invariant Linked() && view == v.(used := PartShift(v.used, minTime, i))
      {
        UsedEntry(i);
        PartShiftNext(v.used, minTime, i);
        SetTime(framesUsed[i], i, entries[framesUsed[i]].time - minTime);
        i := i + 1;
      }
    }

    method SetTime(slot: nat, ghost p: nat, newTime: nat)
      requires Linked() && p < |framesUsed| && framesUsed[p] == slot && slot < entries.Length && p < |view.used|
      modifies this`view, entries
      ensures Linked() && view == old(view).(used := old(view).used[p := old(view).used[p].(time := newTime)])
    {
      hide FrameOf, EntryOk, TreeFor, Pool, SpanRow, ByteRow;
      UsedEntry(p);
      UsedDistinct(p);
      ghost var v := view;
      var e := entries[slot];
      RetimedFrame(e, SpanRow(slot), ByteRow(slot), newTime);
      SetEntry(slot, e.(time := newTime));
      view := v.(used := v.used[p := v.used[p].(time := newTime)]);
      TreeSameIds(framesUsedTree, framesUsed, v.used, view.used);
    }

    /** reduce_times */
    method ReduceTimes()
      requires Valid()
      modifies this`view, this`framesFree, this`framesUsed, this`framesUsedTree, this`time, entries
      ensures Linked() && InvTimes(old(view)) && view == FragmentAssembler.ReduceTimes(cfg, old(view))
    {
      hide Linked, Inv, Survivors, MinTime, Shift;
      TimesBounded(cfg, view);
      var minFrame := DropTimedOut();
      if minFrame.None? {
        SetPacketTime(0);
        return;
      }
      var minTime := entries[minFrame.value].time;
      SubtractTime(minTime);
      SomeEntry();
      SurvivorsMembers(cfg, old(view), old(view).used);
      SetPacketTime(time - minTime);
    }

    method SetPacketTime(t: nat)
      requires Linked()
      modifies this`view, this`time
      ensures Linked() && view == old(view).(time := t) && time == t
    {
      time := t;
      view := view.(time := t);
    }

    /** The end of process_input: move the packet time on and give the input back. */
    method EndInput()
      requires Valid()
      modifies this`view, this`framesFree, this`framesUsed, this`framesUsedTree, this`time, this`inLen, entries
      ensures Valid() && inLen == -1 && view == Tick(cfg, old(view))
    {
      hide Linked, Inv, FragmentAssembler.ReduceTimes;
      SomeEntry();
      TickInv(cfg, view);
      if time == MAX_TIME {
        ReduceTimes();
        SomeEntry();
        if framesUsed != [] {
          SetPacketTime(time + 1);
        }
      } else {
        SetPacketTime(time + 1);
      }
      inLen := -1;
    }

    /** What is still to be read of the current packet. */
    ghost function Pending(): (cs: seq<Chunk>)
      requires inPos <= |input|
      reads this`input, this`inPos
    {
      ReadChunks(input, inPos)
    }

    ghost predicate Reading()
      reads this`input, this`inPos, this`inLen
    {
      inLen == |input| && inPos <= |input|
    }

    /** process_input: runs until a frame is complete or the packet is used up. */
    method ProcessInput() returns (out: Option<seq<byte>>)
      requires Valid() && Reading()
      modifies this`view, this`framesFree, this`framesUsed, this`framesUsedTree, this`time, this`inLen, this`inPos
      modifies entries, chunks, buffer
      ensures Valid()
      ensures out.None? ==> inLen == -1 && view == Tick(cfg, ProcessChunks(cfg, old(view), old(Pending())).0)
                            && ProcessChunks(cfg, old(view), old(Pending())).1 == []
      ensures out.Some? ==> Reading() && inPos > old(inPos)
                            && ProcessChunks(cfg, old(view), old(Pending()))
                               == (var (t, more) := ProcessChunks(cfg, view, Pending()); (t, [out.value] + more))
    {
      hide Linked, Inv, FragmentAssembler.ProcessChunk, ReadChunk, ProcessChunks, ReadChunks, FromLe;
      ghost var all := ProcessChunks(cfg, view, Pending());
      while inPos < inLen
        invariant Valid() && Reading() && inPos >= old(inPos)
        invariant ProcessChunks(cfg, view, Pending()) == all
      {
        NextPending();
        if inLen - inPos < HEADER {
          HeaderMissing(input, inPos);
          break;
        }
        var frameId := FromLe(input[inPos..inPos + 2]);
        var chunkStart := FromLe(input[inPos + 2..inPos + 4]);
        var chunkLen := FromLe(input[inPos + 4..inPos + 6]);
        var isLast := input[inPos + 6];
        if !(isLast == 0 || isLast == 1) {
          FlagWrong(input, inPos);
          break;
        }
        if inLen - (inPos + HEADER) < chunkLen {
          DataMissing(input, inPos);
          break;
        }
        ChunkThere(input, inPos);
        ghost var c := ReadChunk(input, inPos).value;
        out := ProcessChunk(frameId, chunkStart, isLast == 1, input[inPos + HEADER..inPos + HEADER + chunkLen]);
        inPos := inPos + HEADER + chunkLen;
        if out.Some? {
          return;
        }
      }
      if inPos == inLen {
        HeaderMissing(input, inPos);
        NextPending();
      }
      EndInput();
      out := None;
    }

    lemma NextPending()
      requires Valid() && Reading()
      ensures var r := ReadChunk(input, inPos);
              if r.None? then Pending() == [] && ProcessChunks(cfg, view, Pending()) == (view, [])
              else
                && inPos + HEADER + |r.value.data| <= |input|
                && var rest := ReadChunks(input, inPos + HEADER + |r.value.data|);
                && Pending() == [r.value] + rest
                && (var (s, out) := FragmentAssembler.ProcessChunk(cfg, view, r.value);
                    && Inv(cfg, s)
                    && (var (t, more) := ProcessChunks(cfg, s, rest);
                        ProcessChunks(cfg, view, Pending()) == (t, if out.Some? then [out.value] + more else more)))
    {
      hide FragmentAssembler.ProcessChunk, ReadChunk;
      var r := ReadChunk(input, inPos);
      if r.Some? {
        ProcessChunkInv(cfg, view, r.value);
        assert ([r.value] + ReadChunks(input, inPos + HEADER + |r.value.data|))[1..]
            == ReadChunks(input, inPos + HEADER + |r.value.data|);
      }
    }

    /** input_handler_send */
    method InputSend(data: seq<byte>) returns (out: Option<seq<byte>>)
      requires Valid() && inLen == -1
      modifies this`view, this`framesFree, this`framesUsed, this`framesUsedTree, this`time, this`inLen, this`inPos, this`input
      modifies entries, chunks, buffer
      ensures Valid() && (out.Some? ==> Reading())
      ensures var all := ProcessChunks(cfg, old(view), ReadChunks(data, 0));
              if out.None? then inLen == -1 && (view, []) == (Tick(cfg, all.0), all.1)
              else var (t, more) := ProcessChunks(cfg, view, Pending()); all == (t, [out.value] + more)
    {
      hide Linked, Inv, ProcessChunks, ReadChunks;
      inLen, input, inPos := |data|, data, 0;
      out := ProcessInput();
    }

    /**
      A whole input packet, with the output interface accepting each completed frame
      (output_handler_done): the frames delivered and the new state are those of ProcessPacket.
      */
    method Submit(packet: seq<byte>) returns (frames: seq<seq<byte>>)
      requires Valid() && inLen == -1
      modifies this`view, this`framesFree, this`framesUsed, this`framesUsedTree, this`time, this`inLen, this`inPos, this`input
      modifies entries, chunks, buffer
      ensures Valid() && inLen == -1
      ensures (view, frames) == ProcessPacket(cfg, old(view), packet)
    {
      hide Linked, Inv, ProcessChunks, ReadChunks, Tick;
      ghost var all := ProcessChunks(cfg, view, ReadChunks(packet, 0));
      frames := [];
      var out := InputSend(packet);
      assert out.Some? ==> frames + [out.value] == [out.value];
      while out.Some?
        invariant Valid() && (out.Some? ==> Reading())
        invariant if out.None? then inLen == -1 && (view, frames) == (Tick(cfg, all.0), all.1)
                  else var (t, more) := ProcessChunks(cfg, view, Pending());
                       all == (t, frames + [out.value] + more)
        decreases out.Some?, |input| - inPos
      {
        frames := frames + [out.value];
        ghost var before := ProcessChunks(cfg, view, Pending());
        out := ProcessInput();
        if out.Some? {
          Assoc(frames, [out.value], ProcessChunks(cfg, view, Pending()).1);
        } else {
          assert frames + [] == frames;
        }
      }
    }
  }

  lemma HeaderMissing(p: seq<byte>, pos: nat)
    requires pos <= |p| && |p| - pos < HEADER
    ensures ReadChunk(p, pos) == None
    ensures ReadChunks(p, pos) == []
  {
  }

  lemma FlagWrong(p: seq<byte>, pos: nat)
    requires pos + HEADER <= |p| && p[pos + 6] != 0 && p[pos + 6] != 1
    ensures ReadChunk(p, pos) == None
  {
  }

  lemma DataMissing(p: seq<byte>, pos: nat)
    requires pos + HEADER <= |p| && (p[pos + 6] == 0 || p[pos + 6] == 1)
    requires |p| - (pos + HEADER) < FromLe(p[pos + 4..pos + 6])
    ensures ReadChunk(p, pos) == None
  {
  }

  lemma ChunkThere(p: seq<byte>, pos: nat)
    requires pos + HEADER <= |p| && (p[pos + 6] == 0 || p[pos + 6] == 1)
    requires |p| - (pos + HEADER) >= FromLe(p[pos + 4..pos + 6])
    ensures var n := FromLe(p[pos + 4..pos + 6]);
            ReadChunk(p, pos) == Some(Chunk(FromLe(p[pos..pos + 2]), FromLe(p[pos + 2..pos + 4]),
                                            p[pos + HEADER..pos + HEADER + n], p[pos + 6] == 1))
  {
  }

  lemma FreshFrame(e: Entry, spans: seq<Span>, bytes: seq<byte>)
    requires e.numChunks == 0
    ensures EntryOk(e, spans, bytes) && FrameOf(e, spans, bytes) == Frame(e.id, e.time, [], e.sum, e.length, e.lengthSoFar)
  {
    assert FrameOf(e, spans, bytes).pieces == [];
  }

  lemma AllocateWithFree(st: State, id: nat)
    requires st.free > 0
    ensures AllocateFrame(st, id) == State(st.used + [Frame(id, st.time, [], 0, -1, 0)], st.free - 1, st.time)
  {
  }

  lemma TreeAbsent(tree: map<nat, nat>, slots: seq<nat>, frames: seq<Frame>, id: nat)
    requires TreeFor(tree, slots, frames) && id !in tree
    ensures forall k :: 0 <= k < |frames| ==> frames[k].id != id
  {
  }

  lemma FindInTree(tree: map<nat, nat>, slots: seq<nat>, frames: seq<Frame>, id: nat)
    requires TreeFor(tree, slots, frames)
    ensures id in tree <==> FindFrame(frames, id) < |frames|
    ensures id in tree ==> slots[FindFrame(frames, id)] == tree[id]
  {
  }

  /** What the accepted chunk makes of the entry: it fits, and when complete it tiles. */
  lemma StoredChunkFacts(cfg: Config, s: State, p: nat, piece: Piece, last: bool)
    requires Inv(cfg, s) && p < |s.used| && Accepts(s.used[p], piece, last) && piece.End() <= cfg.outputMtu
    ensures |s.used[p].pieces| < cfg.numChunks
    ensures var g := AddPiece(s.used[p], piece, last, s.time);
            && |g.pieces| == |s.used[p].pieces| + 1 && g.length <= cfg.outputMtu
            && Disjoint(g.pieces) && g.sum == Total(g.pieces)
            && (g.length >= 0 ==> Within(g.pieces, g.length) && g.sum <= g.length)
  {
    AcceptedPiece(cfg, s.time, s.used[p], piece, last);
  }

  lemma FreeUpdated(s: State, p: nat, g: Frame)
    requires p < |s.used|
    ensures FragmentAssembler.FreeFrame(s.(used := s.used[p := g]), p) == FragmentAssembler.FreeFrame(s, p)
  {
  }

  lemma {:induction false} SurvivorsConcat(cfg: Config, st: State, a: seq<Frame>, b: seq<Frame>)
    ensures Survivors(cfg, st, a + b) == Survivors(cfg, st, a) + Survivors(cfg, st, b)
    decreases |a|
  {
    if a == [] {
      assert a + b == b;
    } else {
      SurvivorsConcat(cfg, st, a[1..], b);
      assert (a + b)[1..] == a[1..] + b;
    }
  }

  lemma SurvivorsAppend(cfg: Config, st: State, fs: seq<Frame>, n: nat)
    requires n < |fs|
    ensures Survivors(cfg, st, fs[..n + 1])
         == Survivors(cfg, st, fs[..n]) + if TimedOut(cfg, st, fs[n]) then [] else [fs[n]]
  {
    assert fs[..n + 1] == fs[..n] + [fs[n]];
    SurvivorsConcat(cfg, st, fs[..n], [fs[n]]);
    assert [fs[n]][1..] == [];
  }

  lemma RemoveMiddle<T>(a: seq<T>, s: seq<T>, n: nat)
    requires n < |s|
    ensures RemoveAt(a + s[n..], |a|) == a + s[n + 1..]
  {
  }

  lemma MoveBoundary<T>(a: seq<T>, s: seq<T>, n: nat)
    requires n < |s|
    ensures a + s[n..] == (a + [s[n]]) + s[n + 1..]
  {
  }

  ghost predicate InvTimes(st: State) { forall f :: f in st.used ==> f.time <= st.time }

  lemma TimesBounded(cfg: Config, st: State)
    requires Inv(cfg, st)
    ensures InvTimes(st)
  {
  }

  /** The first loop of reduce_times after n frames of st.used, i of which are kept. */
  ghost predicate Scanned(cfg: Config, st: State, n: nat, i: nat, s: State) {
    && n <= |st.used| && i == |Survivors(cfg, st, st.used[..n])|
    && s == st.(used := Survivors(cfg, st, st.used[..n]) + st.used[n..], free := s.free)
    && s.free == st.free + n - i
  }

  lemma StartScan(cfg: Config, st: State)
    ensures Scanned(cfg, st, 0, 0, st)
  {
    assert st.used[..0] == [] && [] + st.used[0..] == st.used;
  }

  lemma ScanNext(cfg: Config, st: State, n: nat, i: nat, s: State)
    requires Scanned(cfg, st, n, i, s) && i < |s.used|
    ensures n < |st.used|
    ensures if TimedOut(cfg, st, s.used[i])
            then var r := FragmentAssembler.FreeFrame(s, i);
                 Scanned(cfg, st, n + 1, i, r) && i <= |r.used| && r.used[..i] == s.used[..i]
            else Scanned(cfg, st, n + 1, i + 1, s)
  {
    hide Survivors, RemoveAt;
    var kept := Survivors(cfg, st, st.used[..n]);
    assert s.used[i] == st.used[n];
    SurvivorsAppend(cfg, st, st.used, n);
    RemoveMiddle(kept, st.used, n);
    MoveBoundary(kept, st.used, n);
    assert (kept + st.used[n + 1..])[..i] == kept == s.used[..i];
  }

  lemma EndScan(cfg: Config, st: State, n: nat, i: nat, s: State)
    requires Scanned(cfg, st, n, i, s) && i >= |s.used|
    ensures s.used == Survivors(cfg, st, st.used) && s == st.(used := s.used, free := s.free)
    ensures s.free == st.free + |st.used| - |s.used|
  {
    assert n == |st.used|;
    assert st.used[..n] == st.used && st.used[n..] == [];
  }

  lemma MinTimeAppend(fs: seq<Frame>, i: nat)
    requires i < |fs|
    ensures fs[..i + 1] != []
    ensures MinTime(fs[..i + 1]) == if i == 0 then fs[0].time
                                    else if fs[i].time < MinTime(fs[..i]) then fs[i].time else MinTime(fs[..i])
  {
    assert fs[..i + 1] == fs[..i] + [fs[i]];
    assert forall f :: f in fs[..i + 1] <==> f in fs[..i] || f == fs[i];
  }

  /** The used frames when the first i of them have been shifted. */
  ghost function PartShift(fs: seq<Frame>, t: nat, i: nat): (r: seq<Frame>)
    requires i <= |fs| && forall f :: f in fs ==> t <= f.time
  {
    Shift(fs, t)[..i] + fs[i..]
  }

  lemma PartShiftEnds(fs: seq<Frame>, t: nat)
    requires forall f :: f in fs ==> t <= f.time
    ensures PartShift(fs, t, 0) == fs && PartShift(fs, t, |fs|) == Shift(fs, t)
  {
  }

  lemma PartShiftNext(fs: seq<Frame>, t: nat, i: nat)
    requires i < |fs| && forall f :: f in fs ==> t <= f.time
    ensures t <= fs[i].time && |PartShift(fs, t, i)| == |fs| && PartShift(fs, t, i)[i] == fs[i]
    ensures PartShift(fs, t, i)[i := fs[i].(time := fs[i].time - t)] == PartShift(fs, t, i + 1)
  {
    assert fs[i] in fs;
  }

  lemma RetimedFrame(e: Entry, spans: seq<Span>, bytes: seq<byte>, t: nat)
    requires EntryOk(e, spans, bytes)
    ensures EntryOk(e.(time := t), spans, bytes)
    ensures FrameOf(e.(time := t), spans, bytes) == FrameOf(e, spans, bytes).(time := t)
  {
    assert FrameOf(e.(time := t), spans, bytes).pieces == FrameOf(e, spans, bytes).pieces;
  }
}
