/** The emitted writer and parser objects, and the round trip between them. */
module BProtoMessage {
  import opened Bytes
  import opened Lists
  import opened BProtoWire
  import opened BProto

  // ---------------------------------------------------------------- writer calls

  /** One Add call: which field, and the value (for data, what the caller then fills in). */
  datatype Call = Call(field: nat, value: Value)

  /** What the emitted Add takes: the C type of its argument and make_add_length_assert. */
  predicate ValueFits(kind: Kind, v: Value) {
    match kind
    case UInt(code) => v.Number? && 1 <= code <= 4 && v.n < Limit(UIntSize(code))
    case Data => v.Blob? && |v.b| < 0x1_0000_0000
    case ConstData(size) => v.Blob? && |v.b| == size
  }

  ghost predicate CallOk(schema: Schema, c: Call) {
    c.field < |schema| && ValueFits(schema[c.field].kind, c.value)
  }

  ghost predicate CallsOk(schema: Schema, cs: seq<Call>) { forall k :: 0 <= k < |cs| ==> CallOk(schema, cs[k]) }

  ghost function CallCount(cs: seq<Call>, f: nat): (n: nat) {
    if cs == [] then 0 else CallCount(cs[..|cs| - 1], f) + if cs[|cs| - 1].field == f then 1 else 0
  }

  /** make_finish_assert, for every field. */
  ghost predicate FinishOk(schema: Schema, cs: seq<Call>) {
    forall f :: 0 <= f < |schema| ==> CountOk(schema[f].cardinality, CallCount(cs, f))
  }

  /** The values added for a field, in the order of the calls. */
  ghost function Written(cs: seq<Call>, f: nat): (r: seq<Value>) {
    if cs == [] then [] else (if cs[0].field == f then [cs[0].value] else []) + Written(cs[1..], f)
  }

  /** make_size_define */
  function SizeMacro(kind: Kind, v: Value): (n: nat)
    requires ValueFits(kind, v)
  {
    match kind
    case UInt(code) => HEADER + UIntSize(code)
    case Data => HEADER + DATA_HEADER + |v.b|
    case ConstData(size) => HEADER + DATA_HEADER + size
  }

  ghost function SizeSum(schema: Schema, cs: seq<Call>): (n: nat)
    requires CallsOk(schema, cs)
  {
    if cs == [] then 0
    else
      var last := cs[|cs| - 1];
      assert CallOk(schema, last);
      SizeSum(schema, cs[..|cs| - 1]) + SizeMacro(schema[last.field].kind, last.value)
  }

  /** The bytes after the header and length: the little-endian number or the data. */
  function Body(kind: Kind, v: Value): (b: seq<byte>)
    requires ValueFits(kind, v)
  {
    match kind
    case UInt(code) => ToLe(v.n, UIntSize(code))
    case _ => v.b
  }

  function ItemOf(field: Field, v: Value): (i: Item)
    requires ValueFits(field.kind, v)
  {
    Item(field.id, Code(field.kind), Body(field.kind, v))
  }

  ghost function ItemsOf(schema: Schema, cs: seq<Call>): (s: seq<Item>)
    requires CallsOk(schema, cs)
    ensures |s| == |cs|
    ensures forall k :: 0 <= k < |cs| ==> CallOk(schema, cs[k]) && s[k] == ItemOf(schema[cs[k].field], cs[k].value)
  {
    seq(|cs|, k requires 0 <= k < |cs| => assert CallOk(schema, cs[k]); ItemOf(schema[cs[k].field], cs[k].value))
  }

  /** An added value makes a good entry that gives the value back and belongs to its field alone. */
  lemma ItemOfCall(schema: Schema, c: Call)
    requires WellFormed(schema) && CallOk(schema, c)
    ensures var i := ItemOf(schema[c.field], c.value);
            && ItemOk(i) && ValueOf(i) == c.value && Lookup(schema, i) == Some(c.field)
            && Size(i) == SizeMacro(schema[c.field].kind, c.value)
            && forall f :: 0 <= f < |schema| ==> (Matches(schema[f], i) <==> f == c.field)
  {
    hide Lookup, FromLe, ToLe;
    var field := schema[c.field];
    var i := ItemOf(field, c.value);
    if field.kind.UInt? {
      LeRoundTrip(c.value.n, UIntSize(field.kind.code));
    }
    LookupIs(schema, i, c.field);
    forall f | 0 <= f < |schema| ensures Matches(schema[f], i) <==> f == c.field {
      LookupIs(schema, i, f);
    }
  }

  lemma {:induction false} CountIsCalls(schema: Schema, cs: seq<Call>, f: nat)
    requires WellFormed(schema) && CallsOk(schema, cs) && f < |schema|
    ensures Count(ItemsOf(schema, cs), schema[f]) == CallCount(cs, f)
  {
    hide WellFormed, CallOk, ItemOf, Lookup, Matches, ItemOk, Size;
    if cs != [] {
      var front, last := cs[..|cs| - 1], cs[|cs| - 1];
      CountIsCalls(schema, front, f);
      ItemOfCall(schema, last);
      assert ItemsOf(schema, cs)[..|cs| - 1] == ItemsOf(schema, front);
    }
  }

  lemma {:induction false} ValuesAreWritten(schema: Schema, cs: seq<Call>, f: nat)
    requires WellFormed(schema) && CallsOk(schema, cs) && f < |schema|
    ensures Values(ItemsOf(schema, cs), schema[f]) == Written(cs, f)
  {
    hide WellFormed, CallOk, ItemOf, Lookup, Matches, ItemOk, Size;
    if cs != [] {
      ValuesAreWritten(schema, cs[1..], f);
      ItemOfCall(schema, cs[0]);
      assert ItemsOf(schema, cs)[1..] == ItemsOf(schema, cs[1..]);
    }
  }

  lemma {:induction false} LengthIsSum(schema: Schema, cs: seq<Call>)
    requires WellFormed(schema) && CallsOk(schema, cs)
    ensures |Encode(ItemsOf(schema, cs))| == SizeSum(schema, cs)
  {
    hide WellFormed, CallOk, ItemOf, Lookup, Matches, ItemOk, Size, SizeMacro;
    if cs != [] {
      LengthIsSum(schema, cs[..|cs| - 1]);
      ItemOfCall(schema, cs[|cs| - 1]);
      assert ItemsOf(schema, cs)[..|cs| - 1] == ItemsOf(schema, cs[..|cs| - 1]);
    }
  }

  /**
    Round trip, for every schema and every call sequence that meets the writer's assertions:
    the parser accepts the bytes, each field's values come back in the order they were added,
    and the length is the sum of the size macros.
    */
  lemma RoundTrip(schema: Schema, cs: seq<Call>)
    requires WellFormed(schema) && CallsOk(schema, cs) && FinishOk(schema, cs)
    ensures MessageOf(schema, Encode(ItemsOf(schema, cs)), ItemsOf(schema, cs))
    ensures Acceptable(schema, Encode(ItemsOf(schema, cs)))
    ensures forall f :: 0 <= f < |schema| ==> Values(ItemsOf(schema, cs), schema[f]) == Written(cs, f)
    ensures |Encode(ItemsOf(schema, cs))| == SizeSum(schema, cs)
  {
    hide WellFormed, CallOk, ItemOf, Lookup, Matches, ItemOk, Encode, CountOk, Values, Written, SizeSum;
    var s := ItemsOf(schema, cs);
    forall k | 0 <= k < |s| ensures ItemOk(s[k]) && Lookup(schema, s[k]).Some? { ItemOfCall(schema, cs[k]); }
    forall f | 0 <= f < |schema| ensures CountOk(schema[f].cardinality, Count(s, schema[f])) { CountIsCalls(schema, cs, f); }
    forall f | 0 <= f < |schema| ensures Values(s, schema[f]) == Written(cs, f) { ValuesAreWritten(schema, cs, f); }
    LengthIsSum(schema, cs);
    assert MessageOf(schema, Encode(s), s);
  }

  /** The bytes of a message determine what every Get returns: a parser of the writer's bytes sees the calls. */
  lemma OnlyReading(schema: Schema, cs: seq<Call>, s: seq<Item>)
    requires WellFormed(schema) && CallsOk(schema, cs) && FinishOk(schema, cs)
    requires MessageOf(schema, Encode(ItemsOf(schema, cs)), s)
    ensures forall f :: 0 <= f < |schema| ==> Values(s, schema[f]) == Written(cs, f)
  {
    hide WellFormed, CallsOk, Encode, Values, Written, FinishOk;
    RoundTrip(schema, cs);
    EncodeInjective(s, ItemsOf(schema, cs));
  }

  // ---------------------------------------------------------------- the writer

  lemma AppendCall(schema: Schema, cs: seq<Call>, c: Call)
    requires CallsOk(schema, cs) && CallOk(schema, c)
    ensures CallsOk(schema, cs + [c])
    ensures Encode(ItemsOf(schema, cs + [c])) == Encode(ItemsOf(schema, cs)) + EncodeItem(ItemOf(schema[c.field], c.value))
  {
    assert ItemsOf(schema, cs + [c]) == ItemsOf(schema, cs) + [ItemOf(schema[c.field], c.value)];
    EncodeAppend(ItemsOf(schema, cs), ItemOf(schema[c.field], c.value));
  }

  lemma AppendCount(cs: seq<Call>, c: Call, f: nat)
    ensures CallCount(cs + [c], f) == CallCount(cs, f) + if c.field == f then 1 else 0
  {
    assert (cs + [c])[..|cs|] == cs;
  }

  class Writer {
    const schema: Schema
    const out: array<byte>
    var used: nat
    var count: seq<nat>
    /** The calls made so far. */
    ghost var calls: seq<Call>

    ghost predicate Valid()
      reads this, out
    {
      && WellFormed(schema) && CallsOk(schema, calls) && used <= out.Length
      && out[..used] == Encode(ItemsOf(schema, calls))
      && |count| == |schema| && forall f :: 0 <= f < |schema| ==> count[f] == CallCount(calls, f)
    }

    /** Writer_Init */
    constructor (schema: Schema, out: array<byte>)
      requires WellFormed(schema)
      ensures Valid() && calls == [] && this.schema == schema && this.out == out
    {
      this.schema, this.out := schema, out;
      used, count, calls := 0, seq(|schema|, _ => 0), [];
    }

    /** memcpy to the end of what was written. */
    method Put(b: seq<byte>)
      requires used + |b| <= out.Length
      modifies this`used, out
      ensures used == old(used) + |b| && out[..used] == old(out[..used]) + b
    {
      WriteAt(out, used, b);
      used := used + |b|;
    }

    /** The header, the length of data, and the value. */
    method PutItem(field: Field, v: Value)
      requires ValueFits(field.kind, v) && used + SizeMacro(field.kind, v) <= out.Length
      modifies this`used, out
      ensures used == old(used) + SizeMacro(field.kind, v)
      ensures out[..used] == old(out[..used]) + EncodeItem(ItemOf(field, v))
    {
      hide EncodeItem, ToLe;
      PutShape(field, v);
      Put(ToLe(field.id, 2) + ToLe(Code(field.kind), 2));
      if !field.kind.UInt? {
        Put(ToLe(|v.b|, 4));
      }
      Put(Body(field.kind, v));
    }

    /** Writer_Add of the field number f. */
    method Add(f: nat, v: Value)
      requires Valid() && CallOk(schema, Call(f, v))
      requires schema[f].cardinality.Optional? || schema[f].cardinality.Required? ==> count[f] == 0
      requires used + SizeMacro(schema[f].kind, v) <= out.Length
      modifies this, out
      ensures Valid() && calls == old(calls) + [Call(f, v)] && used == old(used) + SizeMacro(schema[f].kind, v)
    {
      hide WellFormed, Encode, ItemsOf, CallsOk, ItemOk, Lookup, Matches, EncodeItem, ItemOf, SizeMacro, Size;
      AppendCall(schema, calls, Call(f, v));
      ItemOfCall(schema, Call(f, v));
      PutItem(schema[f], v);
      count := count[f := count[f] + 1];
      forall g | 0 <= g < |schema| ensures count[g] == CallCount(calls + [Call(f, v)], g) { AppendCount(calls, Call(f, v), g); }
      calls := calls + [Call(f, v)];
    }

    /** Writer_Finish: the length of a message that the parser accepts. */
    method Finish() returns (length: nat)
      requires Valid() && forall f :: 0 <= f < |schema| ==> CountOk(schema[f].cardinality, count[f])
      ensures length == used == SizeSum(schema, calls)
      ensures Acceptable(schema, out[..length])
    {
      RoundTrip(schema, calls);
      length := used;
    }
  }

  lemma PutShape(field: Field, v: Value)
    requires ValueFits(field.kind, v)
    ensures var h := ToLe(field.id, 2) + ToLe(Code(field.kind), 2);
            EncodeItem(ItemOf(field, v)) ==
              if field.kind.UInt? then h + Body(field.kind, v) else h + ToLe(|v.b|, 4) + Body(field.kind, v)
  {
  }

  // ---------------------------------------------------------------- the parser

  class Parser {
    const schema: Schema
    var buf: seq<byte>
    var start: seq<nat>
    var span: seq<nat>
    var pos: seq<nat>
    /** The entries of the message, and the number of the next one to read for each field. */
    ghost var items: seq<Item>
    ghost var at: seq<nat>

    ghost predicate Valid()
      reads this
    {
      && WellFormed(schema) && MessageOf(schema, buf, items)
      && |start| == |span| == |pos| == |at| == |schema|
      && forall f :: 0 <= f < |schema| ==> FieldOk(buf, items, schema[f], start[f], span[f], pos[f], at[f])
    }

    /** The values of field f that Get has not returned yet. */
    ghost function Remaining(f: nat): (r: seq<Value>)
      requires Valid() && f < |schema|
      reads this
    {
      Left(items, schema[f], at[f])
    }

    constructor (schema: Schema)
      ensures this.schema == schema
    {
      this.schema := schema;
      buf, start, span, pos, items, at := [], [], [], [], [], [];
    }

    /** Parser_Init */
    method Init(buf: seq<byte>) returns (ok: bool)
      requires WellFormed(schema)
      modifies this
      ensures ok <==> Acceptable(schema, buf)
      ensures ok ==> Valid() && this.buf == buf && forall f :: 0 <= f < |schema| ==> Remaining(f) == Values(items, schema[f])
    {
      hide WellFormed, Window, MessageOf, FieldOk, Left;
      this.buf := buf;
      ok, start, span, items := ParseAll(schema, buf);
      pos := seq(|schema|, _ => 0);
      if ok {
        ghost var s := items;
        at := seq(|schema|, f requires 0 <= f < |schema| => First(s, schema[f]));
        forall f | 0 <= f < |schema|
          ensures FieldOk(buf, items, schema[f], start[f], span[f], 0, at[f]) && Left(items, schema[f], at[f]) == Values(items, schema[f])
        {
          FieldStart(schema, buf, items, f, start[f], span[f]);
        }
      }
    }

    /** The emitted Get of field f. */
    method Get(f: nat) returns (r: Option<Value>)
      requires Valid() && f < |schema|
      modifies this`pos, this`at
      ensures Valid()
      ensures old(Remaining(f)) == [] ==> r == None && Remaining(f) == []
      ensures old(Remaining(f)) != [] ==> r == Some(old(Remaining(f))[0]) && Remaining(f) == old(Remaining(f))[1..]
      ensures forall g :: 0 <= g < |schema| && g != f ==> Remaining(g) == old(Remaining(g))
    {
      hide WellFormed, Window, MessageOf, FieldOk, Left, TypeDecides, NoneBetween, Matches, ValueOf, ItemsOk, Encode, Offset;
      FieldParts(schema, buf, items, f, start[f], span[f], pos[f], at[f]);
      ghost var e := End(items, schema[f]);
      var p;
      ghost var k;
      p, r, k := Scan(schema[f], buf, start[f], span[f], pos[f], items, at[f], e);
      FieldAfter(buf, items, schema[f], start[f], span[f], pos[f], at[f], p, r, k);
      pos := pos[f := p];
      at := at[f := k];
    }

    /** Reset: from the first entry again. */
    method Reset(f: nat)
      requires Valid() && f < |schema|
      modifies this`pos, this`at
      ensures Valid() && Remaining(f) == Values(items, schema[f])
      ensures forall g :: 0 <= g < |schema| && g != f ==> Remaining(g) == old(Remaining(g))
    {
      hide WellFormed, Window, MessageOf, FieldOk, Left;
      FieldWindow(buf, items, schema[f], start[f], span[f], pos[f], at[f]);
      FieldStart(schema, buf, items, f, start[f], span[f]);
      pos := pos[f := 0];
      at := at[f := First(items, schema[f])];
    }

    /** Forward: past the last entry. */
    method Forward(f: nat)
      requires Valid() && f < |schema|
      modifies this`pos, this`at
      ensures Valid() && Remaining(f) == []
      ensures forall g :: 0 <= g < |schema| && g != f ==> Remaining(g) == old(Remaining(g))
    {
      hide WellFormed, Window, MessageOf, FieldOk, Left;
      FieldStop(schema, buf, items, f, start[f], span[f], pos[f], at[f]);
      pos := pos[f := span[f]];
      at := at[f := End(items, schema[f])];
    }

    /** GotEverything: exactly when no field has values left. */
    method GotEverything() returns (r: bool)
      requires Valid()
      ensures r <==> forall f :: 0 <= f < |schema| ==> Remaining(f) == []
    {
      hide WellFormed, Window, MessageOf, FieldOk, Left;
      r := true;
      for f := 0 to |schema|
        invariant r <==> forall g :: 0 <= g < f ==> Remaining(g) == []
      {
        FieldDone(schema, buf, items, f, start[f], span[f], pos[f], at[f]);
        assert Remaining(f) == Left(items, schema[f], at[f]);
        r := r && pos[f] == span[f];
      }
    }
  }

  /** One field of a parser: its window, and a position at the beginning of item at. */
  ghost predicate FieldOk(buf: seq<byte>, s: seq<Item>, field: Field, start: nat, span: nat, pos: nat, at: nat) {
    && Window(s, field, |buf|, start, span) && First(s, field) <= at <= End(s, field)
    && pos <= span && start + pos == Offset(s, at)
  }

  ghost function Left(s: seq<Item>, field: Field, at: nat): (r: seq<Value>) {
    if at <= End(s, field) then Values(s[at..End(s, field)], field) else []
  }

  lemma FieldWindow(buf: seq<byte>, s: seq<Item>, field: Field, start: nat, span: nat, pos: nat, at: nat)
    requires FieldOk(buf, s, field, start, span, pos, at)
    ensures Window(s, field, |buf|, start, span)
  {
  }

  lemma {:induction false} ValuesFront(s: seq<Item>, field: Field, e: nat)
    requires e <= |s| && NoneBetween(s, field, e, |s|)
    ensures Values(s, field) == Values(s[..e], field)
    decreases |s|
  {
    if s != [] {
      if e == 0 {
        ValuesFront(s[1..], field, 0) by {
          forall k | 0 <= k < |s| - 1 ensures !Matches(field, s[1..][k]) { assert s[1..][k] == s[k + 1]; }
        }
        assert s[..0] == [] && s[1..][..0] == [];
      } else {
        ValuesFront(s[1..], field, e - 1) by {
          forall k | e - 1 <= k < |s| - 1 ensures !Matches(field, s[1..][k]) { assert s[1..][k] == s[k + 1]; }
        }
        assert s[..e][1..] == s[1..][..e - 1];
      }
    }
  }

  lemma FieldStart(schema: Schema, buf: seq<byte>, s: seq<Item>, f: nat, start: nat, span: nat)
    requires f < |schema| && MessageOf(schema, buf, s) && Window(s, schema[f], |buf|, start, span)
    ensures FieldOk(buf, s, schema[f], start, span, 0, First(s, schema[f]))
    ensures Left(s, schema[f], First(s, schema[f])) == Values(s, schema[f])
  {
    hide Matches, Values;
    SentinelNeverCollides(schema, buf, s, f, start, span);
    var field := schema[f];
    ValuesFront(s, field, End(s, field));
    ValuesSkip(s, field, 0, First(s, field), End(s, field));
    assert s[0..End(s, field)] == s[..End(s, field)];
  }

  lemma FieldParts(schema: Schema, buf: seq<byte>, s: seq<Item>, f: nat, start: nat, span: nat, pos: nat, at: nat)
    requires WellFormed(schema) && f < |schema| && MessageOf(schema, buf, s) && FieldOk(buf, s, schema[f], start, span, pos, at)
    ensures ItemsOk(s) && buf == Encode(s) && TypeDecides(s, schema[f]) && at <= End(s, schema[f]) <= |s| && pos <= span
    ensures start + pos == Offset(s, at) && start + span == Offset(s, End(s, schema[f]))
  {
    hide WellFormed, Known, CountsOk, TypeDecides, Window;
    TypeIsEnough(schema, s, f);
    SentinelNeverCollides(schema, buf, s, f, start, span);
  }

  lemma FieldAfter(buf: seq<byte>, s: seq<Item>, field: Field, start: nat, span: nat, pos: nat, at: nat,
                   p: nat, r: Option<Value>, k: nat)
    requires FieldOk(buf, s, field, start, span, pos, at)
    requires at <= k <= End(s, field) && p <= span && start + p == Offset(s, k)
    requires r == None ==> k == End(s, field) && p == span && NoneBetween(s, field, at, End(s, field))
    requires r.Some? ==> at < k && NoneBetween(s, field, at, k - 1) && Matches(field, s[k - 1]) && r.value == ValueOf(s[k - 1])
    ensures FieldOk(buf, s, field, start, span, p, k)
    ensures r == None ==> Left(s, field, at) == [] == Left(s, field, k)
    ensures r.Some? ==> Left(s, field, at) == [r.value] + Left(s, field, k)
  {
    hide Window, Encode, Matches, Values, ValueOf, NoneBetween, Offset;
    var e := End(s, field);
    if r == None {
      ValuesSkip(s, field, at, e, e);
      assert s[e..e] == [];
      NoValues(field);
    } else {
      ValuesSkip(s, field, at, k - 1, e);
      ValuesNext(s, field, k - 1, e);
    }
  }

  lemma FieldStop(schema: Schema, buf: seq<byte>, s: seq<Item>, f: nat, start: nat, span: nat, pos: nat, at: nat)
    requires f < |schema| && MessageOf(schema, buf, s) && FieldOk(buf, s, schema[f], start, span, pos, at)
    ensures FieldOk(buf, s, schema[f], start, span, span, End(s, schema[f])) && Left(s, schema[f], End(s, schema[f])) == []
  {
    SentinelNeverCollides(schema, buf, s, f, start, span);
    var e := End(s, schema[f]);
    assert s[e..e] == [];
  }

  /** The last entry before the end of a window is the field's own, so the position tells what is left. */
  lemma FieldDone(schema: Schema, buf: seq<byte>, s: seq<Item>, f: nat, start: nat, span: nat, pos: nat, at: nat)
    requires f < |schema| && MessageOf(schema, buf, s) && FieldOk(buf, s, schema[f], start, span, pos, at)
    ensures pos == span <==> Left(s, schema[f], at) == []
  {
    hide Window, Encode, Matches, Known, CountsOk, Values;
    var field, e := schema[f], End(s, schema[f]);
    SentinelNeverCollides(schema, buf, s, f, start, span);
    if at < e {
      OffsetGrows(s, at, e);
      HasLast(s, field, at, e);
    } else {
      assert s[at..e] == [];
      NoValues(field);
    }
  }

  lemma NoValues(field: Field)
    ensures Values([], field) == []
  {
  }

  lemma {:induction false} HasLast(s: seq<Item>, field: Field, a: nat, e: nat)
    requires a < e <= |s| && Matches(field, s[e - 1])
    ensures Values(s[a..e], field) != []
    decreases e - a
  {
    if a < e - 1 {
      HasLast(s, field, a + 1, e);
      assert s[a..e][1..] == s[a + 1..e];
    }
  }
}
