/**
  The writers and parsers that the BProto generator emits, once for any schema: a message is a
  list of entries with ids, types and cardinalities.
  */
module BProto {
  import opened Bytes
  import opened Lists
  import opened BProtoWire

  datatype Kind = UInt(code: nat) | Data | ConstData(size: nat)

  datatype Cardinality = Repeated | RequiredRepeated | Optional | Required

  datatype Field = Field(id: nat, kind: Kind, cardinality: Cardinality)

  type Schema = seq<Field>

  /** make_type_name */
  function Code(kind: Kind): (c: nat) {
    match kind
    case UInt(code) => code
    case Data => TYPE_DATA
    case ConstData(_) => TYPE_CONSTDATA
  }

  /** The emitted parser has one switch over ids for each integer width and one for both data types. */
  predicate SameSwitch(a: nat, b: nat) { a == b || (HasLength(a) && HasLength(b)) }

  /** Ids are 16 bits wide, sizes 32, and no switch has two cases with the same id. */
  ghost predicate WellFormed(schema: Schema) {
    && (forall f :: 0 <= f < |schema| ==>
          && schema[f].id < 0x1_0000
          && (schema[f].kind.UInt? ==> 1 <= schema[f].kind.code <= 4)
          && (schema[f].kind.ConstData? ==> schema[f].kind.size < 0x1_0000_0000))
    && (forall f, g :: 0 <= f < g < |schema| && SameSwitch(Code(schema[f].kind), Code(schema[g].kind)) ==>
          schema[f].id != schema[g].id)
  }

  /** Two fields may have the same id if they are integers of different widths, or one of them is data and the other is not. */
  lemma MayShareId(a: Field, b: Field)
    requires a.id < 0x1_0000 && b.id < 0x1_0000 && (a.kind.UInt? ==> 1 <= a.kind.code <= 4) && (b.kind.UInt? ==> 1 <= b.kind.code <= 4)
    requires (a.kind.ConstData? ==> a.kind.size < 0x1_0000_0000) && (b.kind.ConstData? ==> b.kind.size < 0x1_0000_0000)
    ensures WellFormed([a, b]) <==> a.id != b.id || a.kind.UInt? != b.kind.UInt? || (a.kind.UInt? && a.kind.code != b.kind.code)
  {
    var s := [a, b];
    assert s[0] == a && s[1] == b;
  }

  /** Item i is an occurrence of the field. */
  predicate Matches(field: Field, i: Item) {
    && i.id == field.id && i.code == Code(field.kind)
    && (field.kind.ConstData? ==> |i.body| == field.kind.size)
  }

  /** The case that the parser's switches take for an item, if it is accepted there. */
  function Lookup(schema: Schema, i: Item): (r: Option<nat>)
    ensures r.Some? ==> r.value < |schema| && Matches(schema[r.value], i)
  {
    if schema == [] then None
    else if SameSwitch(Code(schema[0].kind), i.code) && schema[0].id == i.id then
      if Matches(schema[0], i) then Some(0) else None
    else
      match Lookup(schema[1..], i)
      case None => None
      case Some(f) => Some(f + 1)
  }

  /** The switches find the one field that matches. */
  lemma {:induction false} LookupIs(schema: Schema, i: Item, f: nat)
    requires WellFormed(schema)
    ensures Lookup(schema, i) == Some(f) <==> f < |schema| && Matches(schema[f], i)
  {
    if schema != [] {
      if f > 0 {
        LookupIs(schema[1..], i, f - 1);
      } else {
        assert Matches(schema[0], i) ==> Lookup(schema, i) == Some(0);
      }
      if 0 < f < |schema| && Matches(schema[f], i) {
        assert SameSwitch(Code(schema[0].kind), i.code) ==> schema[0].id != i.id;
      }
    }
  }

  // ---------------------------------------------------------------- conforming messages

  ghost function Count(s: seq<Item>, field: Field): (n: nat) {
    if s == [] then 0 else Count(s[..|s| - 1], field) + if Matches(field, s[|s| - 1]) then 1 else 0
  }

  predicate CountOk(c: Cardinality, n: nat) {
    match c
    case Repeated => true
    case RequiredRepeated => n >= 1
    case Optional => n <= 1
    case Required => n == 1
  }

  ghost predicate Known(schema: Schema, s: seq<Item>) {
    forall k :: 0 <= k < |s| ==> Lookup(schema, s[k]).Some?
  }

  ghost predicate CountsOk(schema: Schema, s: seq<Item>) {
    forall f :: 0 <= f < |schema| ==> CountOk(schema[f].cardinality, Count(s, schema[f]))
  }

  /** buf is the encoding of a list of entries of the schema, with the right number of each. */
  ghost predicate MessageOf(schema: Schema, buf: seq<byte>, s: seq<Item>) {
    ItemsOk(s) && buf == Encode(s) && Known(schema, s) && CountsOk(schema, s)
  }

  ghost predicate Acceptable(schema: Schema, buf: seq<byte>) { exists s :: MessageOf(schema, buf, s) }

  datatype Value = Number(n: nat) | Blob(b: seq<byte>)

  function ValueOf(i: Item): (v: Value) {
    if HasLength(i.code) then Blob(i.body) else Number(FromLe(i.body))
  }

  /** The values of the field, in the order of the message. */
  ghost function Values(s: seq<Item>, field: Field): (r: seq<Value>) {
    if s == [] then [] else (if Matches(field, s[0]) then [ValueOf(s[0])] else []) + Values(s[1..], field)
  }

  /** The type numbers of the wire format: 1 to 4 for the integers of 8 to 64 bits, 5 for data, 6 for data of a fixed size. */
  lemma TypeNumbers(kind: Kind)
    requires kind.UInt? ==> 1 <= kind.code <= 4
    ensures match kind
            case UInt(code) => Code(kind) == code && UIntSize(code) == (if code == 1 then 1 else if code == 2 then 2 else if code == 3 then 4 else 8)
            case Data => Code(kind) == 5
            case ConstData(_) => Code(kind) == 6
  {
  }

  /** What acceptance says about the values: how many a field has, and that each is of its type and size. */
  lemma {:induction false} ValuesOfField(s: seq<Item>, field: Field)
    requires ItemsOk(s) && (field.kind.UInt? ==> 1 <= field.kind.code <= 4)
    ensures |Values(s, field)| == Count(s, field)
    ensures forall k :: 0 <= k < |Values(s, field)| ==> FitsKind(field.kind, Values(s, field)[k])
  {
    if s != [] {
      ValuesOfField(s[1..], field);
      CountFirst(s, field);
      if Matches(field, s[0]) {
        assert ItemOk(s[0]);
        FirstFits(field, s[0]);
      }
    }
  }

  lemma FirstFits(field: Field, i: Item)
    requires ItemOk(i) && Matches(field, i) && (field.kind.UInt? ==> 1 <= field.kind.code <= 4)
    ensures FitsKind(field.kind, ValueOf(i))
  {
    hide FromLe;
    Limits();
  }

  predicate FitsKind(kind: Kind, v: Value) {
    match kind
    case UInt(code) => v.Number? && (code == 1 ==> v.n < 0x100) && (code == 2 ==> v.n < 0x1_0000) && (code == 3 ==> v.n < 0x1_0000_0000)
    case Data => v.Blob?
    case ConstData(size) => v.Blob? && |v.b| == size
  }

  lemma {:induction false} CountFirst(s: seq<Item>, field: Field)
    requires s != []
    ensures Count(s, field) == Count(s[1..], field) + if Matches(field, s[0]) then 1 else 0
  {
    if |s| > 1 {
      CountFirst(s[..|s| - 1], field);
      assert s[1..][..|s| - 2] == s[..|s| - 1][1..];
    }
  }

  /** A message of the schema has one value of each required field, at most one of each optional one, and so on. */
  lemma Cardinalities(schema: Schema, buf: seq<byte>, s: seq<Item>, f: nat)
    requires WellFormed(schema) && MessageOf(schema, buf, s) && f < |schema|
    ensures var n := |Values(s, schema[f])|;
            && (schema[f].cardinality == Required ==> n == 1) && (schema[f].cardinality == Optional ==> n <= 1)
            && (schema[f].cardinality == RequiredRepeated ==> n >= 1)
    ensures forall k :: 0 <= k < |Values(s, schema[f])| ==> FitsKind(schema[f].kind, Values(s, schema[f])[k])
  {
    ValuesOfField(s, schema[f]);
  }

  /** And that is all that is asked for, besides that every entry belongs to a field. */
  lemma AcceptableWhen(schema: Schema, s: seq<Item>)
    requires WellFormed(schema) && ItemsOk(s)
    requires forall k :: 0 <= k < |s| ==> BelongsTo(schema, s[k])
    requires forall f :: 0 <= f < |schema| ==>
               var n := |Values(s, schema[f])|;
               schema[f].cardinality == Repeated || (schema[f].cardinality == Required && n == 1)
               || (schema[f].cardinality == Optional && n <= 1) || (schema[f].cardinality == RequiredRepeated && n >= 1)
    ensures Acceptable(schema, Encode(s))
  {
    hide Encode, Values, ItemOk;
    forall k | 0 <= k < |s| ensures Lookup(schema, s[k]).Some? {
      assert BelongsTo(schema, s[k]);
      var f :| 0 <= f < |schema| && Matches(schema[f], s[k]);
      LookupIs(schema, s[k], f);
    }
    forall f | 0 <= f < |schema| ensures CountOk(schema[f].cardinality, Count(s, schema[f])) { ValuesOfField(s, schema[f]); }
    assert MessageOf(schema, Encode(s), s);
  }

  ghost predicate BelongsTo(schema: Schema, i: Item) { exists f :: 0 <= f < |schema| && Matches(schema[f], i) }

  // ---------------------------------------------------------------- where a field's entries are

  /** The first match, or |s|. */
  ghost function First(s: seq<Item>, field: Field): (k: nat)
    ensures k <= |s| && (k < |s| ==> Matches(field, s[k])) && forall i :: 0 <= i < k ==> !Matches(field, s[i])
  {
    if s == [] || Matches(field, s[0]) then 0 else 1 + First(s[1..], field)
  }

  /** One past the last match, or |s| if there is none. */
  ghost function End(s: seq<Item>, field: Field): (k: nat)
    ensures First(s, field) <= k <= |s|
    ensures First(s, field) < |s| ==> First(s, field) < k && Matches(field, s[k - 1])
    ensures First(s, field) == |s| ==> k == |s|
    ensures forall i :: k <= i < |s| ==> !Matches(field, s[i])
  {
    if s == [] then 0
    else if Matches(field, s[|s| - 1]) then |s|
    else
      var front := s[..|s| - 1];
      if First(front, field) < |front| then FirstFront(s, field); End(front, field) else FirstFront(s, field); |s|
  }

  lemma FirstFront(s: seq<Item>, field: Field)
    requires s != []
    ensures var front := s[..|s| - 1];
            if First(front, field) < |front| then First(s, field) == First(front, field)
            else First(s, field) == if Matches(field, s[|s| - 1]) then |s| - 1 else |s|
  {
    var front := s[..|s| - 1];
    var a, b := First(front, field), First(s, field);
    forall i | 0 <= i < a ensures !Matches(field, s[i]) { assert front[i] == s[i]; }
    if a < |front| {
      assert Matches(field, s[a]);
    }
  }

  /** start and span of the emitted parser once the items s of a len-byte message were read. */
  ghost predicate Window(s: seq<Item>, field: Field, len: nat, start: nat, span: nat) {
    if First(s, field) == |s| then start == len && span == 0
    else start == Offset(s, First(s, field)) && start + span == Offset(s, End(s, field))
  }

  lemma OffsetFront(s: seq<Item>, i: Item, k: nat)
    requires k <= |s|
    ensures Offset(s + [i], k) == Offset(s, k)
  {
    assert (s + [i])[..k] == s[..k];
  }

  /** An item of another field leaves the window alone. */
  lemma {:induction false} WindowOther(s: seq<Item>, i: Item, field: Field, len: nat, start: nat, span: nat)
    requires Window(s, field, len, start, span) && !Matches(field, i)
    ensures Window(s + [i], field, len, start, span)
  {
    assert (s + [i])[..|s|] == s;
    FirstFront(s + [i], field);
    hide Encode;
    if First(s, field) < |s| {
      OffsetFront(s, i, First(s, field));
      OffsetFront(s, i, End(s, field));
    }
  }

  /**
    An item of the field opens or extends the window. While the item begins before the end of
    the buffer, start == len says that there was none before.
    */
  lemma {:induction false} WindowExtend(s: seq<Item>, i: Item, field: Field, len: nat, start: nat, span: nat)
    requires Window(s, field, len, start, span) && Matches(field, i) && |Encode(s)| + Size(i) <= len
    ensures start == len <==> First(s, field) == |s|
    ensures var start' := if start == len then |Encode(s)| else start;
            var end := |Encode(s)| + Size(i);
            start' <= end && Window(s + [i], field, len, start', end - start')
  {
    var t := s + [i];
    assert t[..|s|] == s;
    FirstFront(t, field);
    assert End(t, field) == |t|;
    OffsetEnd(t);
    assert Encode(t) == Encode(s) + EncodeItem(i);
    OffsetEnd(s);
    OffsetFront(s, i, |s|);
    if First(s, field) < |s| {
      OffsetFront(s, i, First(s, field));
      OffsetGrows(s, First(s, field), |s|);
    }
  }

  /** What Parser_Init keeps for every field after the items s. */
  ghost predicate Tracks(schema: Schema, s: seq<Item>, len: nat, start: seq<nat>, span: seq<nat>, count: seq<nat>) {
    && |start| == |span| == |count| == |schema|
    && forall f :: 0 <= f < |schema| ==> Window(s, schema[f], len, start[f], span[f]) && count[f] == Count(s, schema[f])
  }

  lemma {:induction false} TracksStep(schema: Schema, s: seq<Item>, i: Item, f: nat, len: nat, start: seq<nat>, span: seq<nat>, count: seq<nat>)
    requires WellFormed(schema) && Tracks(schema, s, len, start, span, count) && Lookup(schema, i) == Some(f)
    requires |Encode(s)| + Size(i) <= len
    ensures f < |schema|
    ensures var b := if start[f] == len then |Encode(s)| else start[f];
            var end := |Encode(s)| + Size(i);
            b <= end && Tracks(schema, s + [i], len, start[f := b], span[f := end - b], count[f := count[f] + 1])
  {
    hide Window, Matches, Lookup, WellFormed, Encode, Size;
    LookupIs(schema, i, f);
    WindowExtend(s, i, schema[f], len, start[f], span[f]);
    assert (s + [i])[..|s|] == s;
    forall g | 0 <= g < |schema| && g != f
      ensures Window(s + [i], schema[g], len, start[g], span[g]) && Count(s + [i], schema[g]) == Count(s, schema[g])
    {
      LookupIs(schema, i, g);
      WindowOther(s, i, schema[g], len, start[g], span[g]);
    }
  }

  /** No message continues s with something that cannot be read or that no field matches. */
  lemma Reject(schema: Schema, buf: seq<byte>, s: seq<Item>, pos: nat)
    requires ItemsOk(s) && pos < |buf| && Encode(s) == buf[..pos]
    requires ReadItem(buf, pos).None? || Lookup(schema, ReadItem(buf, pos).value).None?
    ensures !Acceptable(schema, buf)
  {
    hide Encode, ReadItem, Lookup, ItemOk;
    forall t ensures !MessageOf(schema, buf, t) {
      if MessageOf(schema, buf, t) {
        assert Encode(t) == Encode(s) + buf[pos..];
        PrefixUnique(t, s, buf[pos..]);
        RejectHere(schema, buf, t, s);
        assert false;
      }
    }
  }

  lemma RejectHere(schema: Schema, buf: seq<byte>, t: seq<Item>, s: seq<Item>)
    requires MessageOf(schema, buf, t) && |s| <= |t| && t[..|s|] == s && |Encode(s)| < |buf|
    ensures ReadItem(buf, |Encode(s)|).Some? && Lookup(schema, ReadItem(buf, |Encode(s)|).value).Some?
  {
    hide Encode, ReadItem, Lookup, ItemOk;
    assert |s| == |t| ==> t == s;
    ReadAtOffset(t, |s|);
  }

  lemma RejectCounts(schema: Schema, s: seq<Item>)
    requires ItemsOk(s) && !CountsOk(schema, s)
    ensures !Acceptable(schema, Encode(s))
  {
    hide Encode, ItemOk, CountsOk;
    forall t ensures !MessageOf(schema, Encode(s), t) {
      if MessageOf(schema, Encode(s), t) {
        EncodeInjective(s, t);
      }
    }
  }

  /** Parser_Init: accepts exactly the messages of the schema, and finds where each field's entries are. */
  method ParseAll(schema: Schema, buf: seq<byte>)
      returns (ok: bool, start: seq<nat>, span: seq<nat>, ghost s: seq<Item>)
    requires WellFormed(schema)
    ensures ok <==> Acceptable(schema, buf)
    ensures ok ==> MessageOf(schema, buf, s) && |start| == |span| == |schema|
    ensures ok ==> forall f :: 0 <= f < |schema| ==> Window(s, schema[f], |buf|, start[f], span[f])
  {
    hide WellFormed, Encode, ReadItem, Lookup, Window, Count, CountOk, ItemOk;
    start, span := seq(|schema|, _ => |buf|), seq(|schema|, _ => 0);
    var count: seq<nat> := seq(|schema|, _ => 0);
    s := [];
    EmptyTracked(schema, |buf|);
    var pos: nat, left: nat := 0, |buf|;
    while left > 0
      invariant pos + left == |buf| && Encode(s) == buf[..pos] && ItemsOk(s) && Known(schema, s)
      invariant Tracks(schema, s, |buf|, start, span, count)
    {
      var entry := ReadItem(buf, pos);
      if entry.None? {
        Reject(schema, buf, s, pos);
        return false, start, span, s;
      }
      EncodeReadItem(buf, pos);
      var i := entry.value;
      var field := Lookup(schema, i);
      if field.None? {
        Reject(schema, buf, s, pos);
        return false, start, span, s;
      }
      var f, end := field.value, pos + Size(i);
      TracksStep(schema, s, i, f, |buf|, start, span, count);
      if start[f] == |buf| {
        start := start[f := pos];
      }
      span := span[f := end - start[f]];
      count := count[f := count[f] + 1];
      pos, left := end, |buf| - end;
      EncodeAppend(s, i);
      s := s + [i];
    }
    assert buf[..pos] == buf;
    ok := true;
    for f := 0 to |schema|
      invariant ok && forall g :: 0 <= g < f ==> CountOk(schema[g].cardinality, Count(s, schema[g]))
    {
      if !CountOk(schema[f].cardinality, count[f]) {
        RejectCounts(schema, s);
        return false, start, span, s;
      }
    }
    assert MessageOf(schema, buf, s);
  }

  lemma EmptyTracked(schema: Schema, len: nat)
    ensures Encode([]) == []
    ensures Tracks(schema, [], len, seq(|schema|, _ => len), seq(|schema|, _ => 0), seq(|schema|, _ => 0))
  {
  }

  lemma EncodeAppend(s: seq<Item>, i: Item)
    ensures Encode(s + [i]) == Encode(s) + EncodeItem(i)
  {
    assert (s + [i])[..|s|] == s;
  }

  /** The sentinel: start is the buffer length exactly when the field does not occur. */
  lemma {:induction false} SentinelNeverCollides(schema: Schema, buf: seq<byte>, s: seq<Item>, f: nat, start: nat, span: nat)
    requires MessageOf(schema, buf, s) && f < |schema| && Window(s, schema[f], |buf|, start, span)
    ensures start == |buf| <==> forall k :: 0 <= k < |s| ==> !Matches(schema[f], s[k])
    ensures start == Offset(s, First(s, schema[f])) && start + span == Offset(s, End(s, schema[f]))
  {
    hide Matches, Encode;
    OffsetEnd(s);
    if First(s, schema[f]) < |s| {
      OffsetGrows(s, First(s, schema[f]), |s|);
    }
  }

  // ---------------------------------------------------------------- reading one field

  /** Every item with the field's id and type is an occurrence of the field. */
  ghost predicate TypeDecides(s: seq<Item>, field: Field) {
    forall k :: 0 <= k < |s| && s[k].id == field.id && s[k].code == Code(field.kind) ==> Matches(field, s[k])
  }

  lemma TypeIsEnough(schema: Schema, s: seq<Item>, f: nat)
    requires WellFormed(schema) && Known(schema, s) && f < |schema|
    ensures TypeDecides(s, schema[f])
  {
    hide Lookup;
    forall k | 0 <= k < |s| && s[k].id == schema[f].id && s[k].code == Code(schema[f].kind)
      ensures Matches(schema[f], s[k])
    {
      var g := Lookup(schema, s[k]).value;
      assert g != f ==> SameSwitch(Code(schema[g].kind), Code(schema[f].kind));
    }
  }

  ghost predicate NoneBetween(s: seq<Item>, field: Field, a: nat, b: nat) {
    forall k :: a <= k < b && k < |s| ==> !Matches(field, s[k])
  }

  lemma {:induction false} ValuesSkip(s: seq<Item>, field: Field, a: nat, k: nat, e: nat)
    requires a <= k <= e <= |s| && NoneBetween(s, field, a, k)
    ensures Values(s[a..e], field) == Values(s[k..e], field)
    decreases k - a
  {
    if a < k {
      assert s[a..e][1..] == s[a + 1..e];
      ValuesSkip(s, field, a + 1, k, e);
    }
  }

  lemma ValuesNext(s: seq<Item>, field: Field, k: nat, e: nat)
    requires k < e <= |s| && Matches(field, s[k])
    ensures Values(s[k..e], field) == [ValueOf(s[k])] + Values(s[k + 1..e], field)
  {
    assert s[k..e][1..] == s[k + 1..e];
  }

  lemma ReadFields(buf: seq<byte>, p: nat, i: Item)
    requires p <= |buf| && ReadItem(buf, p) == Some(i)
    ensures p + Size(i) <= |buf| && FromLe(buf[p..p + 2]) == i.id && FromLe(buf[p + 2..p + 4]) == i.code
    ensures HasLength(i.code) || 1 <= i.code <= 4
    ensures HasLength(i.code) ==> FromLe(buf[p + 4..p + 8]) == |i.body| && buf[p + 8..p + 8 + |i.body|] == i.body
    ensures !HasLength(i.code) ==> |i.body| == UIntSize(i.code) && buf[p + 4..p + 4 + UIntSize(i.code)] == i.body
  {
  }

  /** Where the item at position k of a message is, for a reader that must stop at item e. */
  lemma NextItem(buf: seq<byte>, s: seq<Item>, k: nat, e: nat)
    requires ItemsOk(s) && buf == Encode(s) && k <= e <= |s| && Offset(s, k) < Offset(s, e)
    ensures k < e && Offset(s, k) + Size(s[k]) <= Offset(s, e) <= |buf| && Offset(s, k + 1) == Offset(s, k) + Size(s[k])
    ensures ReadItem(buf, Offset(s, k)) == Some(s[k])
  {
    hide Encode, ReadItem, Size, Offset, ItemOk;
    assert |buf| == Offset(s, |s|) by { OffsetEnd(s); }
    OffsetGrows(s, k, e);
    if e < |s| {
      OffsetGrows(s, e, |s|);
    }
    assert ReadItem(buf, Offset(s, k)) == Some(s[k]) by { ReadAtOffset(s, k); }
    assert Offset(s, k + 1) == Offset(s, k) + Size(s[k]) by { SplitAt(s, k); }
  }

  /**
    The body of an emitted Get: from item a on, the next occurrence of the field before item e.
    None of its assertions can fail, and it skips the entries of other fields.
    */
  method Scan(field: Field, buf: seq<byte>, start: nat, span: nat, from: nat, ghost s: seq<Item>, ghost a: nat, ghost e: nat)
      returns (pos: nat, r: Option<Value>, ghost k: nat)
    requires ItemsOk(s) && buf == Encode(s) && TypeDecides(s, field)
    requires a <= e <= |s| && from <= span && start + from == Offset(s, a) && start + span == Offset(s, e)
    ensures a <= k <= e && pos <= span && start + pos == Offset(s, k)
    ensures r == None ==> k == e && pos == span && NoneBetween(s, field, a, e)
    ensures r.Some? ==> a < k && NoneBetween(s, field, a, k - 1) && Matches(field, s[k - 1]) && r.value == ValueOf(s[k - 1])
  {
    hide Encode, ReadItem, UIntSize, ItemOk;
    pos, k, r := from, a, None;
    var left: nat := span - pos;
    while left > 0
      invariant a <= k <= e && pos + left == span && start + pos == Offset(s, k) && NoneBetween(s, field, a, k)
    {
      NextItem(buf, s, k, e);
      var p := start + pos;
      ReadFields(buf, p, s[k]);
      assert left >= HEADER;
      var id, code := FromLe(buf[p..p + 2]), FromLe(buf[p + 2..p + 4]);
      pos, left := pos + HEADER, left - HEADER;
      k := k + 1;
      if 1 <= code <= 4 {
        assert left >= UIntSize(code);
        var val := buf[p + 4..p + 4 + UIntSize(code)];
        pos, left := pos + UIntSize(code), left - UIntSize(code);
        if field.kind == UInt(code) && id == field.id {
          r := Some(Number(FromLe(val)));
          return;
        }
      } else if code == TYPE_DATA || code == TYPE_CONSTDATA {
        assert left >= DATA_HEADER;
        var len := FromLe(buf[p + 4..p + 8]);
        pos, left := pos + DATA_HEADER, left - DATA_HEADER;
        assert left >= len;
        var payload := buf[p + 8..p + 8 + len];
        pos, left := pos + len, left - len;
        if Code(field.kind) == code && id == field.id {
          r := Some(Blob(payload));
          return;
        }
      } else {
        assert false;
      }
    }
    assert k == e by { StopsAtEnd(s, k, e); }
  }

  lemma StopsAtEnd(s: seq<Item>, k: nat, e: nat)
    requires k <= e <= |s| && Offset(s, k) == Offset(s, e)
    ensures k == e
  {
    if k < e {
      OffsetGrows(s, k, e);
    }
  }
}
