/** BProto on the wire: entries of a message, their bytes, and the reading of one entry. */
module BProtoWire {
  import opened Bytes
  import opened Lists

  // struct BProto_header_s: 16-bit id, 16-bit type; struct BProto_data_header_s: 32-bit length
  const HEADER: nat := 4
  const DATA_HEADER: nat := 4

  const TYPE_DATA: nat := 5
  const TYPE_CONSTDATA: nat := 6

  /** The width of BPROTO_TYPE_UINT8 (1) to BPROTO_TYPE_UINT64 (4). */
  function UIntSize(code: nat): (w: nat)
    requires 1 <= code <= 4
    ensures 1 <= w <= 8
  {
    match code
    case 1 => 1
    case 2 => 2
    case 3 => 4
    case _ => 8
  }

  predicate HasLength(code: nat) { code == TYPE_DATA || code == TYPE_CONSTDATA }

  /** One entry of a message: the body is the little-endian integer or the data. */
  datatype Item = Item(id: nat, code: nat, body: seq<byte>)

  predicate ItemOk(i: Item) {
    && i.id < 0x1_0000
    && (HasLength(i.code) || 1 <= i.code <= 4)
    && (if HasLength(i.code) then |i.body| < 0x1_0000_0000 else |i.body| == UIntSize(i.code))
  }

  ghost predicate ItemsOk(s: seq<Item>) { forall k :: 0 <= k < |s| ==> ItemOk(s[k]) }

  function Size(i: Item): (n: nat) {
    HEADER + (if HasLength(i.code) then DATA_HEADER else 0) + |i.body|
  }

  function EncodeItem(i: Item): (b: seq<byte>)
    ensures |b| == Size(i)
  {
    ToLe(i.id, 2) + ToLe(i.code, 2) + (if HasLength(i.code) then ToLe(|i.body|, 4) else []) + i.body
  }

  function Encode(s: seq<Item>): (b: seq<byte>) {
    if s == [] then [] else Encode(s[..|s| - 1]) + EncodeItem(s[|s| - 1])
  }

  /** The position where item k begins. */
  ghost function Offset(s: seq<Item>, k: nat): (n: nat)
    requires k <= |s|
  {
    |Encode(s[..k])|
  }

  /** The entry at pos, or None where Parser_Init gives up: truncated, or of unknown type. */
  function ReadItem(buf: seq<byte>, pos: nat): (r: Option<Item>)
    requires pos <= |buf|
  {
    if |buf| - pos < HEADER then None
    else
      var id, code := FromLe(buf[pos..pos + 2]), FromLe(buf[pos + 2..pos + 4]);
      var p := pos + HEADER;
      if 1 <= code <= 4 then
        var w := UIntSize(code);
        if |buf| - p < w then None else Some(Item(id, code, buf[p..p + w]))
      else if HasLength(code) then
        if |buf| - p < DATA_HEADER then None
        else
          var len := FromLe(buf[p..p + 4]);
          if |buf| - (p + DATA_HEADER) < len then None
          else Some(Item(id, code, buf[p + DATA_HEADER..p + DATA_HEADER + len]))
      else None
  }

  lemma EncodedItemFields(i: Item)
    requires ItemOk(i)
    ensures var b := EncodeItem(i);
            && FromLe(b[0..2]) == i.id && FromLe(b[2..4]) == i.code
            && (if HasLength(i.code) then FromLe(b[4..8]) == |i.body| && b[8..8 + |i.body|] == i.body
                else b[4..4 + |i.body|] == i.body)
  {
    hide ToLe, FromLe;
    Limits();
    LeRoundTrip(i.id, 2);
    LeRoundTrip(i.code, 2);
    var b := EncodeItem(i);
    assert b[0..2] == ToLe(i.id, 2);
    assert b[2..4] == ToLe(i.code, 2);
    if HasLength(i.code) {
      LeRoundTrip(|i.body|, 4);
      assert b[4..8] == ToLe(|i.body|, 4);
    }
  }

  /** The bytes of an entry: id and type, for data its length, each with the low byte first; then the body. */
  lemma ItemBytes(i: Item)
    requires ItemOk(i)
    ensures i.code < 0x100
    ensures EncodeItem(i) == [i.id % 0x100, i.id / 0x100, i.code, 0]
                             + (if i.code == 5 || i.code == 6
                                then [|i.body| % 0x100, |i.body| / 0x100 % 0x100, |i.body| / 0x1_0000 % 0x100, |i.body| / 0x100_0000] else [])
                             + i.body
    ensures i.code in {1, 2, 3, 4, 5, 6}
    ensures (i.code == 1 ==> |i.body| == 1) && (i.code == 2 ==> |i.body| == 2) && (i.code == 3 ==> |i.body| == 4) && (i.code == 4 ==> |i.body| == 8)
  {
    hide ToLe;
    LeBytes(i.id);
    LeBytes(i.code);
    LeBytes(|i.body|);
  }

  lemma ReadEncodedItem(before: seq<byte>, i: Item, after: seq<byte>)
    requires ItemOk(i)
    ensures ReadItem(before + EncodeItem(i) + after, |before|) == Some(i)
  {
    hide EncodeItem, FromLe;
    var e := EncodeItem(i);
    EncodedItemFields(i);
    InnerSlice(before, e, after, 0, 2);
    InnerSlice(before, e, after, 2, 4);
    if HasLength(i.code) {
      InnerSlice(before, e, after, 4, 8);
      InnerSlice(before, e, after, 8, 8 + |i.body|);
    } else {
      InnerSlice(before, e, after, 4, 4 + |i.body|);
    }
  }

  /** What was read is exactly the bytes there. */
  lemma EncodeReadItem(buf: seq<byte>, pos: nat)
    requires pos <= |buf| && ReadItem(buf, pos).Some?
    ensures var i := ReadItem(buf, pos).value;
            ItemOk(i) && pos + Size(i) <= |buf| && buf[..pos + Size(i)] == buf[..pos] + EncodeItem(i)
  {
    hide FromLe, ToLe;
    Limits();
    var i := ReadItem(buf, pos).value;
    LeOfValue(buf[pos..pos + 2]);
    LeOfValue(buf[pos + 2..pos + 4]);
    if HasLength(i.code) {
      LeOfValue(buf[pos + 4..pos + 8]);
    }
  }

  lemma {:induction false} EncodeConcat(a: seq<Item>, b: seq<Item>)
    ensures Encode(a + b) == Encode(a) + Encode(b)
    decreases |b|
  {
    if b == [] {
      assert a + b == a;
    } else {
      var front, last := b[..|b| - 1], b[|b| - 1];
      EncodeConcat(a, front);
      assert (a + b)[..|a + b| - 1] == a + front && (a + b)[|a + b| - 1] == last;
      Assoc(Encode(a), Encode(front), EncodeItem(last));
    }
  }

  lemma EncodeOne(i: Item)
    ensures Encode([i]) == EncodeItem(i)
  {
    assert [i][..0] == [];
  }

  /** The message around item k. */
  lemma SplitAt(s: seq<Item>, k: nat)
    requires k < |s|
    ensures Encode(s) == Encode(s[..k]) + EncodeItem(s[k]) + Encode(s[k + 1..])
    ensures Offset(s, k + 1) == Offset(s, k) + Size(s[k]) <= |Encode(s)|
  {
    assert s == s[..k] + [s[k]] + s[k + 1..];
    EncodeConcat(s[..k] + [s[k]], s[k + 1..]);
    EncodeConcat(s[..k], [s[k]]);
    EncodeOne(s[k]);
    assert s[..k + 1] == s[..k] + [s[k]];
  }

  /** At the position of item k the reader finds item k. */
  lemma ReadAtOffset(s: seq<Item>, k: nat)
    requires k < |s| && ItemsOk(s)
    ensures Offset(s, k) <= |Encode(s)| && ReadItem(Encode(s), Offset(s, k)) == Some(s[k])
  {
    hide ReadItem, EncodeItem, Encode;
    SplitAt(s, k);
    ReadEncodedItem(Encode(s[..k]), s[k], Encode(s[k + 1..]));
  }

  lemma OffsetEnd(s: seq<Item>)
    ensures Offset(s, |s|) == |Encode(s)|
  {
    assert s[..|s|] == s;
  }

  /** Positions grow with the items between them. */
  lemma {:induction false} OffsetGrows(s: seq<Item>, a: nat, b: nat)
    requires a < b <= |s|
    ensures Offset(s, a) + Size(s[a]) <= Offset(s, b)
    decreases b
  {
    hide Encode, Size;
    SplitAt(s, b - 1);
    if a < b - 1 {
      OffsetGrows(s, a, b - 1);
    }
  }

  /** A message that starts with the bytes of s starts with the items of s. */
  lemma {:induction false} PrefixUnique(t: seq<Item>, s: seq<Item>, rest: seq<byte>)
    requires ItemsOk(t) && ItemsOk(s) && Encode(t) == Encode(s) + rest
    ensures |s| <= |t| && t[..|s|] == s
    decreases |s|
  {
    hide Encode, ReadItem, EncodeItem, ItemOk;
    if s != [] {
      var n := |s| - 1;
      EncodePrefixShape(s, rest);
      PrefixUnique(t, s[..n], EncodeItem(s[n]) + rest);
      var front := s[..n];
      assert t == t[..n] ==> |Encode(t)| == |Encode(front)|;
      ReadAtOffset(t, n);
      ReadEncodedItem(Encode(s[..n]), s[n], rest);
      Assoc(Encode(s[..n]), EncodeItem(s[n]), rest);
      assert t[n] == s[n];
      assert t[..|s|] == t[..n] + [t[n]] && s == s[..n] + [s[n]];
    }
  }

  lemma EncodePrefixShape(s: seq<Item>, rest: seq<byte>)
    requires s != []
    ensures Encode(s) + rest == Encode(s[..|s| - 1]) + (EncodeItem(s[|s| - 1]) + rest)
  {
    Assoc(Encode(s[..|s| - 1]), EncodeItem(s[|s| - 1]), rest);
  }

  /** Bytes determine the message. */
  lemma EncodeInjective(s: seq<Item>, t: seq<Item>)
    requires ItemsOk(s) && ItemsOk(t) && Encode(s) == Encode(t)
    ensures s == t
  {
    assert Encode(t) == Encode(s) + [] && Encode(s) == Encode(t) + [];
    PrefixUnique(t, s, []);
    PrefixUnique(s, t, []);
  }
}
