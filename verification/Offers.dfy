/**
  The "youconnect" message of the peer protocol: an offer of the external addresses of one
  bind address. Its size decides whether it is sent.
  */
module Offers {
  import opened Bytes
  import opened Lists
  import opened BProtoWire
  import opened BProto
  import opened BProtoMessage

  // ---------------------------------------------------------------- the messages

  /** AddrProto: type, port, IPv4 address, IPv6 address. */
  const AddrSchema: Schema :=
    [Field(1, UInt(1), Required), Field(2, ConstData(2), Optional), Field(3, ConstData(4), Optional), Field(4, ConstData(16), Optional)]

  /** msg_youconnect_addr: scope name, address. */
  const ExtSchema: Schema := [Field(1, Data, Required), Field(2, Data, Required)]

  /** msg_youconnect: addresses, key, password. */
  const OfferSchema: Schema := [Field(1, Data, RequiredRepeated), Field(2, Data, Optional), Field(3, UInt(4), Optional)]

  datatype Ip = V4(bytes: seq<byte>) | V6(bytes: seq<byte>)

  /** An external address; known and readable: what the peer that gets the offer makes of it. */
  datatype Ext = Ext(scope: seq<byte>, ip: Ip, port: seq<byte>, known: bool, readable: bool)

  /** UDP without encryption, UDP with a key, TCP with a password. */
  datatype Secret = NoSecret | Key(bytes: seq<byte>) | Password(n: nat)

  /** A bind address: its external addresses, whether binding to it works, and what an offer of it carries. */
  datatype Addr = Addr(exts: seq<Ext>, binds: bool, secret: Secret)

  predicate ExtOk(e: Ext) { |e.port| == 2 && |e.ip.bytes| == if e.ip.V4? then 4 else 16 }

  ghost predicate AddrOk(x: Addr) {
    && (forall k :: 0 <= k < |x.exts| ==> ExtOk(x.exts[k]))
    && (x.secret.Password? ==> x.secret.n < 0x1_0000_0000_0000_0000)
  }

  /** addr_write */
  function AddressCalls(e: Ext): (cs: seq<Call>) {
    [Call(0, Number(if e.ip.V4? then 1 else 2)), Call(1, Blob(e.port)), Call(if e.ip.V4? then 2 else 3, Blob(e.ip.bytes))]
  }

  // ---------------------------------------------------------------- sizes

  /** The size macro of a data entry. */
  function DataSize(n: nat): (r: nat) { HEADER + DATA_HEADER + n }

  /** ADDR_SIZE_IPV4 and ADDR_SIZE_IPV6 */
  function AddressSize(ip: Ip): (n: nat) { (HEADER + 1) + DataSize(2) + DataSize(if ip.V4? then 4 else 16) }

  function ExtSize(e: Ext): (n: nat) { DataSize(|e.scope|) + DataSize(AddressSize(e.ip)) }

  function ExtsSize(exts: seq<Ext>): (n: nat) {
    if exts == [] then 0 else ExtsSize(exts[..|exts| - 1]) + DataSize(ExtSize(exts[|exts| - 1]))
  }

  function SecretSize(s: Secret): (n: nat) {
    match s
    case NoSecret => 0
    case Key(bytes) => DataSize(|bytes|)
    case Password(_) => HEADER + 8
  }

  /** The message length that peer_send_conectinfo computes. */
  function OfferSize(x: Addr): (n: nat) { ExtsSize(x.exts) + SecretSize(x.secret) }

  // SC_MAX_PAYLOAD less a 16-bit peer id, less the msg header with its type and an empty payload
  const SC_MAX_MSGLEN: nat := 2000 - 2
  const MSG_MAX_PAYLOAD: nat := SC_MAX_MSGLEN - (HEADER + 2) - (HEADER + DATA_HEADER)

  predicate Fits(x: Addr) { OfferSize(x) <= MSG_MAX_PAYLOAD }

  /** An offer has room for 1984 bytes; an external address takes 24, its scope name, and an address of 27 or 39 bytes. */
  lemma {:induction false} OfferSizeIs(x: Addr)
    ensures Fits(x) <==> OfferSize(x) <= 1984
    ensures x.exts == [] ==> OfferSize(x) == match x.secret
                                             case NoSecret => 0
                                             case Key(bytes) => 8 + |bytes|
                                             case Password(_) => 12
    ensures x.exts != [] ==>
              var n := |x.exts| - 1; var e := x.exts[n];
              OfferSize(x) == OfferSize(x.(exts := x.exts[..n])) + 8 + (8 + |e.scope|) + (8 + 5 + 10 + if e.ip.V4? then 12 else 24)
  {
  }

  /** The loop of peer_send_conectinfo over the external addresses, and the check that follows. */
  method FitsMessage(x: Addr) returns (ok: bool)
    ensures ok <==> Fits(x)
  {
    var len := 0;
    for i := 0 to |x.exts|
      invariant len == ExtsSize(x.exts[..i])
    {
      assert x.exts[..i + 1][..i] == x.exts[..i];
      len := len + DataSize(DataSize(|x.exts[i].scope|) + DataSize(AddressSize(x.exts[i].ip)));
    }
    assert x.exts[..|x.exts|] == x.exts;
    if x.secret.Key? {
      len := len + DataSize(|x.secret.bytes|);
    } else if x.secret.Password? {
      len := len + HEADER + 8;
    }
    ok := len <= MSG_MAX_PAYLOAD;
  }

  // ---------------------------------------------------------------- what the program can be configured with

  const MAX_EXT_ADDRS: nat := 8
  const SCOPE_SIZE: nat := 64
  const MAX_KEY_SIZE: nat := 16

  /** At most 8 external addresses, scope names of fewer than 64 characters, keys of at most 16 bytes. */
  ghost predicate Configured(x: Addr) {
    && |x.exts| <= MAX_EXT_ADDRS && (forall k :: 0 <= k < |x.exts| ==> |x.exts[k].scope| < SCOPE_SIZE)
    && (x.secret.Key? ==> |x.secret.bytes| <= MAX_KEY_SIZE)
  }

  lemma {:induction false} ExtsBound(exts: seq<Ext>)
    requires forall k :: 0 <= k < |exts| ==> |exts[k].scope| < SCOPE_SIZE
    ensures ExtsSize(exts) <= 126 * |exts|
  {
    if exts != [] {
      ExtsBound(exts[..|exts| - 1]);
    }
  }

  /** Every offer that the program can be configured to make fits into a message. */
  lemma ConfiguredFits(x: Addr)
    requires Configured(x)
    ensures Fits(x)
  {
    ExtsBound(x.exts);
  }

  // ---------------------------------------------------------------- the offer as bytes

  ghost function Message(schema: Schema, cs: seq<Call>): (b: seq<byte>)
    requires CallsOk(schema, cs)
  {
    Encode(ItemsOf(schema, cs))
  }

  lemma SchemasOk()
    ensures WellFormed(AddrSchema) && WellFormed(ExtSchema) && WellFormed(OfferSchema)
  {
  }

  ghost function SizeOf(schema: Schema, c: Call): (n: nat)
    requires CallOk(schema, c)
  {
    SizeMacro(schema[c.field].kind, c.value)
  }

  /** One more call: the size, the count of each field and the values of each field. */
  lemma OneMore(schema: Schema, cs: seq<Call>, c: Call)
    requires CallsOk(schema, cs) && CallOk(schema, c)
    ensures CallsOk(schema, cs + [c]) && SizeSum(schema, cs + [c]) == SizeSum(schema, cs) + SizeOf(schema, c)
    ensures forall f: nat :: CallCount(cs + [c], f) == CallCount(cs, f) + if c.field == f then 1 else 0
    ensures forall f: nat :: Written(cs + [c], f) == Written(cs, f) + if c.field == f then [c.value] else []
  {
    assert (cs + [c])[..|cs|] == cs;
    forall f: nat ensures CallCount(cs + [c], f) == CallCount(cs, f) + if c.field == f then 1 else 0 { AppendCount(cs, c, f); }
    forall f: nat ensures Written(cs + [c], f) == Written(cs, f) + if c.field == f then [c.value] else [] { WrittenAppend(cs, c, f); }
  }

  lemma {:induction false} WrittenAppend(cs: seq<Call>, c: Call, f: nat)
    ensures Written(cs + [c], f) == Written(cs, f) + if c.field == f then [c.value] else []
  {
    if cs == [] {
      assert (cs + [c])[1..] == [];
    } else {
      WrittenAppend(cs[1..], c, f);
      assert (cs + [c])[1..] == cs[1..] + [c];
    }
  }

  lemma NoCalls(schema: Schema)
    ensures CallsOk(schema, []) && SizeSum(schema, []) == 0
    ensures forall f: nat :: CallCount([], f) == 0 && Written([], f) == []
  {
  }

  lemma AddressOk(e: Ext)
    requires ExtOk(e)
    ensures CallsOk(AddrSchema, AddressCalls(e)) && FinishOk(AddrSchema, AddressCalls(e))
    ensures |Message(AddrSchema, AddressCalls(e))| == AddressSize(e.ip)
  {
    hide WellFormed, Encode, ItemsOf, SizeSum, CallCount, Written;
    SchemasOk();
    Limits();
    var cs := AddressCalls(e);
    NoCalls(AddrSchema);
    OneMore(AddrSchema, [], cs[0]);
    OneMore(AddrSchema, [] + [cs[0]], cs[1]);
    OneMore(AddrSchema, [] + [cs[0]] + [cs[1]], cs[2]);
    assert [] + [cs[0]] + [cs[1]] + [cs[2]] == cs;
    LengthIsSum(AddrSchema, cs);
  }

  /** The address message says which kind of address it is, with its port and bytes, and nothing else. */
  lemma AddressIsReadable(e: Ext, s: seq<Item>)
    requires ExtOk(e)
    ensures CallsOk(AddrSchema, AddressCalls(e)) && Acceptable(AddrSchema, Message(AddrSchema, AddressCalls(e)))
    ensures MessageOf(AddrSchema, Message(AddrSchema, AddressCalls(e)), s) ==>
              && Values(s, Field(1, UInt(1), Required)) == [Number(if e.ip.V4? then 1 else 2)]
              && Values(s, Field(2, ConstData(2), Optional)) == [Blob(e.port)]
              && Values(s, Field(3, ConstData(4), Optional)) == (if e.ip.V4? then [Blob(e.ip.bytes)] else [])
              && Values(s, Field(4, ConstData(16), Optional)) == (if e.ip.V4? then [] else [Blob(e.ip.bytes)])
  {
    hide WellFormed, Encode, ItemsOf, SizeSum, CallCount, Written, Values, MessageOf, Acceptable, CallsOk, FinishOk;
    SchemasOk();
    AddressOk(e);
    AddressWritten(e);
    RoundTrip(AddrSchema, AddressCalls(e));
    if MessageOf(AddrSchema, Message(AddrSchema, AddressCalls(e)), s) {
      OnlyReading(AddrSchema, AddressCalls(e), s);
    }
  }

  lemma AddressWritten(e: Ext)
    ensures var cs := AddressCalls(e);
            && Written(cs, 0) == [Number(if e.ip.V4? then 1 else 2)] && Written(cs, 1) == [Blob(e.port)]
            && Written(cs, 2) == (if e.ip.V4? then [Blob(e.ip.bytes)] else []) && Written(cs, 3) == (if e.ip.V4? then [] else [Blob(e.ip.bytes)])
  {
    hide Written;
    var cs := AddressCalls(e);
    NoCalls(AddrSchema);
    forall f: nat ensures Written(cs, f) == (if cs[0].field == f then [cs[0].value] else []) + (if cs[1].field == f then [cs[1].value] else [])
                                            + (if cs[2].field == f then [cs[2].value] else []) {
      WrittenAppend([], cs[0], f);
      WrittenAppend([] + [cs[0]], cs[1], f);
      WrittenAppend([] + [cs[0]] + [cs[1]], cs[2], f);
      assert [] + [cs[0]] + [cs[1]] + [cs[2]] == cs;
    }
  }

  ghost function AddressBytes(e: Ext): (b: seq<byte>)
    requires ExtOk(e)
    ensures |b| == AddressSize(e.ip)
  {
    AddressOk(e);
    Message(AddrSchema, AddressCalls(e))
  }

  /** The entry for one external address: scope name and address. */
  ghost function ExtCalls(e: Ext): (cs: seq<Call>)
    requires ExtOk(e)
  {
    [Call(0, Blob(e.scope)), Call(1, Blob(AddressBytes(e)))]
  }

  lemma ExtMessageOk(e: Ext)
    requires ExtOk(e) && |e.scope| < 0x1_0000_0000
    ensures CallsOk(ExtSchema, ExtCalls(e)) && FinishOk(ExtSchema, ExtCalls(e))
    ensures |Message(ExtSchema, ExtCalls(e))| == ExtSize(e)
    ensures Written(ExtCalls(e), 0) == [Blob(e.scope)] && Written(ExtCalls(e), 1) == [Blob(AddressBytes(e))]
  {
    hide WellFormed, Encode, ItemsOf, SizeSum, CallCount, Written, AddressBytes;
    SchemasOk();
    var cs := ExtCalls(e);
    NoCalls(ExtSchema);
    OneMore(ExtSchema, [], cs[0]);
    OneMore(ExtSchema, [] + [cs[0]], cs[1]);
    assert [] + [cs[0]] + [cs[1]] == cs;
    LengthIsSum(ExtSchema, cs);
  }

  ghost function ExtBytes(e: Ext): (b: seq<byte>)
    requires ExtOk(e) && |e.scope| < 0x1_0000_0000
    ensures |b| == ExtSize(e)
  {
    ExtMessageOk(e);
    Message(ExtSchema, ExtCalls(e))
  }

  ghost predicate ExtsOk(exts: seq<Ext>) {
    forall k :: 0 <= k < |exts| ==> ExtOk(exts[k]) && ExtSize(exts[k]) < 0x1_0000_0000
  }

  ghost function ExtValues(exts: seq<Ext>): (r: seq<Value>)
    requires ExtsOk(exts)
    ensures |r| == |exts| && forall k :: 0 <= k < |exts| ==> r[k] == Blob(ExtBytes(exts[k]))
  {
    seq(|exts|, k requires 0 <= k < |exts| => Blob(ExtBytes(exts[k])))
  }

  /** The Add calls for the external addresses. */
  ghost function AddrCalls(exts: seq<Ext>): (cs: seq<Call>)
    requires ExtsOk(exts)
    ensures |cs| == |exts| && forall k :: 0 <= k < |exts| ==> cs[k] == Call(0, Blob(ExtBytes(exts[k])))
  {
    seq(|exts|, k requires 0 <= k < |exts| => Call(0, Blob(ExtBytes(exts[k]))))
  }

  lemma {:induction false} AddrCallsOk(exts: seq<Ext>)
    requires ExtsOk(exts)
    ensures var cs := AddrCalls(exts);
            && CallsOk(OfferSchema, cs) && SizeSum(OfferSchema, cs) == ExtsSize(exts)
            && (forall f: nat :: CallCount(cs, f) == if f == 0 then |exts| else 0)
            && (forall f: nat :: Written(cs, f) == if f == 0 then ExtValues(exts) else [])
  {
    hide WellFormed, SizeSum, CallCount, Written, ExtBytes;
    NoCalls(OfferSchema);
    if exts == [] {
      assert AddrCalls(exts) == [] && ExtValues(exts) == [];
    } else {
      var front, e := exts[..|exts| - 1], exts[|exts| - 1];
      AddrCallsOk(front);
      assert AddrCalls(exts) == AddrCalls(front) + [Call(0, Blob(ExtBytes(e)))];
      OneMore(OfferSchema, AddrCalls(front), Call(0, Blob(ExtBytes(e))));
      assert ExtValues(exts) == ExtValues(front) + [Blob(ExtBytes(e))];
    }
  }

  ghost function OfferCalls(x: Addr): (cs: seq<Call>)
    requires ExtsOk(x.exts)
  {
    AddrCalls(x.exts) + match x.secret
                        case NoSecret => []
                        case Key(bytes) => [Call(1, Blob(bytes))]
                        case Password(n) => [Call(2, Number(n))]
  }

  lemma {:induction false} PartsFit(exts: seq<Ext>, k: nat)
    requires k < |exts|
    ensures ExtSize(exts[k]) <= ExtsSize(exts)
  {
    if k < |exts| - 1 {
      PartsFit(exts[..|exts| - 1], k);
    }
  }

  lemma FitsParts(x: Addr)
    requires AddrOk(x) && Fits(x)
    ensures ExtsOk(x.exts)
  {
    forall k | 0 <= k < |x.exts| ensures ExtSize(x.exts[k]) < 0x1_0000_0000 { PartsFit(x.exts, k); }
  }

  lemma OfferCallsOk(x: Addr)
    requires AddrOk(x) && Fits(x) && x.exts != []
    ensures ExtsOk(x.exts) && CallsOk(OfferSchema, OfferCalls(x)) && FinishOk(OfferSchema, OfferCalls(x))
    ensures SizeSum(OfferSchema, OfferCalls(x)) == OfferSize(x) && Written(OfferCalls(x), 0) == ExtValues(x.exts)
  {
    hide WellFormed, SizeSum, CallCount, Written, ExtBytes, ExtsOk, ExtsSize;
    FitsParts(x);
    Limits();
    AddrCallsOk(x.exts);
    match x.secret
    case NoSecret => assert AddrCalls(x.exts) + [] == AddrCalls(x.exts);
    case Key(bytes) => OneMore(OfferSchema, AddrCalls(x.exts), Call(1, Blob(bytes)));
    case Password(n) => OneMore(OfferSchema, AddrCalls(x.exts), Call(2, Number(n)));
  }

  /**
    An offer that fits is a message of the computed size from which the receiver gets exactly the
    external addresses, in order, each with its scope name and address.
    */
  lemma OfferIsReadable(x: Addr, s: seq<Item>)
    requires AddrOk(x) && Fits(x) && x.exts != []
    ensures ExtsOk(x.exts) && CallsOk(OfferSchema, OfferCalls(x))
    ensures var b := Message(OfferSchema, OfferCalls(x));
            && |b| == OfferSize(x) && Acceptable(OfferSchema, b)
            && (MessageOf(OfferSchema, b, s) ==> Values(s, Field(1, Data, RequiredRepeated)) == ExtValues(x.exts))
  {
    hide WellFormed, SizeSum, Written, ExtBytes, ExtsOk, Encode, Values, OfferCalls, CallsOk, FinishOk, MessageOf, Acceptable;
    SchemasOk();
    OfferCallsOk(x);
    RoundTrip(OfferSchema, OfferCalls(x));
    if MessageOf(OfferSchema, Message(OfferSchema, OfferCalls(x)), s) {
      OnlyReading(OfferSchema, OfferCalls(x), s);
    }
  }

  lemma ExtIsReadable(e: Ext, s: seq<Item>)
    requires ExtOk(e) && |e.scope| < 0x1_0000_0000
    ensures Acceptable(ExtSchema, ExtBytes(e))
    ensures MessageOf(ExtSchema, ExtBytes(e), s) ==>
            Values(s, Field(1, Data, Required)) == [Blob(e.scope)] && Values(s, Field(2, Data, Required)) == [Blob(AddressBytes(e))]
  {
    hide WellFormed, Written, AddressBytes, Encode, Values, ExtCalls, CallsOk, FinishOk, MessageOf, Acceptable;
    SchemasOk();
    ExtMessageOk(e);
    RoundTrip(ExtSchema, ExtCalls(e));
    if MessageOf(ExtSchema, ExtBytes(e), s) {
      OnlyReading(ExtSchema, ExtCalls(e), s);
    }
  }
}
