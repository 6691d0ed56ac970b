/**
  SPProto packets: an optional one-time password and an optional hash in front of the payload,
  all of it optionally padded and encrypted. The hash and the cipher are abstract functions.
  */
module SecurePackets {
  import opened Bytes
  import opened Lists
  import opened BitMath

  /** Which parts are used: one-time passwords, a hash of so many bytes, a cipher with blocks of so many bytes. */
  datatype Params = Params(haveOtp: bool, hashSize: Option<nat>, block: Option<nat>)

  datatype Crypto = Crypto(hash: seq<byte> -> seq<byte>, encrypt: (seq<byte>, seq<byte>) -> seq<byte>, decrypt: (seq<byte>, seq<byte>) -> seq<byte>)

  /** The 16-bit seed id and the four bytes of the password. */
  datatype Otp = Otp(seed: nat, password: seq<byte>)

  datatype Packet = Packet(otp: Option<Otp>, payload: seq<byte>)

  const OTPDATA_LEN: nat := 6

  predicate ParamsOk(p: Params) { p.block.Some? ==> p.block.value > 0 }

  /** What the cipher is defined on: whole blocks, and an initialization vector of one block. */
  predicate InBlocks(p: Params, iv: seq<byte>, x: seq<byte>) {
    p.block.Some? && p.block.value > 0 && |iv| == p.block.value && |x| % p.block.value == 0
  }

  /** The hash has its size; decrypting undoes encrypting and keeps the length. */
  ghost predicate CryptoOk(p: Params, c: Crypto) {
    && (p.hashSize.Some? ==> forall x :: |c.hash(x)| == p.hashSize.value)
    && (forall iv, x :: InBlocks(p, iv, x) ==> |c.encrypt(iv, x)| == |x|)
    && (forall iv, x :: InBlocks(p, iv, x) ==> c.decrypt(iv, c.encrypt(iv, x)) == x)
    && (forall iv, x :: InBlocks(p, iv, x) ==> |c.decrypt(iv, x)| == |x|)
  }

  /** The cipher is a permutation: encrypting undoes decrypting as well. */
  ghost predicate CipherOnto(p: Params, c: Crypto) {
    forall iv, x :: InBlocks(p, iv, x) ==> c.encrypt(iv, c.decrypt(iv, x)) == x
  }

  predicate PacketOk(p: Params, k: Packet) {
    (k.otp.Some? <==> p.haveOtp) && (k.otp.Some? ==> k.otp.value.seed < 0x1_0000 && |k.otp.value.password| == 4)
  }

  function HashOff(p: Params): (n: nat) { if p.haveOtp then OTPDATA_LEN else 0 }

  function HashLen(p: Params): (n: nat) { if p.hashSize.Some? then p.hashSize.value else 0 }

  function HeaderLen(p: Params): (n: nat) { HashOff(p) + HashLen(p) }

  function Zeros(n: nat): (s: seq<byte>)
    ensures |s| == n && forall i :: 0 <= i < n ==> s[i] == 0
  {
    seq(n, _ => 0)
  }

  // ---------------------------------------------------------------- padding

  /** balign_up */
  function AlignUp(x: nat, n: nat): (r: nat)
    requires n > 0
  {
    if x % n != 0 then x + (n - x % n) else x
  }

  function AlignDown(x: nat, n: nat): (r: nat)
    requires n > 0
  {
    x - x % n
  }

  /** A 1 and then zeros up to the next multiple of the block size. */
  function Pad(s: seq<byte>, block: nat): (t: seq<byte>)
    requires block > 0
  {
    s + [1] + Zeros(AlignUp(|s| + 1, block) - (|s| + 1))
  }

  /** The last byte that is not zero. */
  function LastNonZero(t: seq<byte>): (i: int)
    ensures -1 <= i < |t| && (i >= 0 ==> t[i] != 0) && forall k :: i < k < |t| ==> t[k] == 0
  {
    if t == [] then -1 else if t[|t| - 1] != 0 then |t| - 1 else LastNonZero(t[..|t| - 1])
  }

  /** What the padding scan accepts: a whole block at the end, and in it a 1 followed by zeros only. */
  function Unpad(t: seq<byte>, block: nat): (s: Option<seq<byte>>) {
    var i := LastNonZero(t);
    if |t| < block || i < 0 || i < |t| - block || t[i] != 1 then None else Some(t[..i])
  }

  lemma AlignUpOk(x: nat, n: nat)
    requires n > 0
    ensures x <= AlignUp(x, n) < x + n && AlignUp(x, n) % n == 0
  {
    DivMod(x, n);
    if x % n != 0 {
      var q := x / n;
      assert x + (n - x % n) == (q + 1) * n;
      ModIs((q + 1) * n, n, q + 1, 0);
    }
  }

  /** There is only one multiple of n in each half-open interval of length n. */
  lemma AlignUpIs(x: nat, y: nat, n: nat)
    requires n > 0 && y % n == 0 && x <= y < x + n
    ensures AlignUp(x, n) == y
  {
    AlignUpOk(x, n);
    if AlignUp(x, n) < y {
      MultipleGap(AlignUp(x, n), y, n);
    } else if y < AlignUp(x, n) {
      MultipleGap(y, AlignUp(x, n), n);
    }
  }

  lemma LastNonZeroIs(t: seq<byte>, i: nat)
    requires i < |t| && t[i] != 0 && forall k :: i < k < |t| ==> t[k] == 0
    ensures LastNonZero(t) == i
  {
  }

  /** Removing the padding gives back what was padded. */
  lemma UnpadPad(s: seq<byte>, block: nat)
    requires block > 0
    ensures |Pad(s, block)| == AlignUp(|s| + 1, block) && |Pad(s, block)| % block == 0 && |Pad(s, block)| >= block
    ensures |s| < |Pad(s, block)| <= |s| + block && Pad(s, block)[..|s|] == s && Pad(s, block)[|s|] == 1
    ensures forall i :: |s| < i < |Pad(s, block)| ==> Pad(s, block)[i] == 0
    ensures Unpad(Pad(s, block), block) == Some(s)
  {
    var t := Pad(s, block);
    AlignUpOk(|s| + 1, block);
    assert |t| == (|t| / block) * block;
    assert |t| / block >= 1;
    assert |t| >= block;
    LastNonZeroIs(t, |s|);
    assert t[..|s|] == s;
  }

  /** Whatever the scan accepts is the padded form of what it returns. */
  lemma PadUnpad(t: seq<byte>, block: nat)
    requires block > 0 && |t| % block == 0 && Unpad(t, block).Some?
    ensures Pad(Unpad(t, block).value, block) == t
  {
    var s := Unpad(t, block).value;
    AlignUpIs(|s| + 1, |t|, block);
  }

  // ---------------------------------------------------------------- packets

  function OtpBytes(k: Packet): (s: seq<byte>) {
    if k.otp.Some? then ToLe(k.otp.value.seed, 2) + k.otp.value.password else []
  }

  /** The plaintext with zeros in the place of the hash. */
  function Unhashed(p: Params, k: Packet): (s: seq<byte>) { OtpBytes(k) + Zeros(HashLen(p)) + k.payload }

  function Plaintext(p: Params, c: Crypto, k: Packet): (s: seq<byte>) {
    OtpBytes(k) + (if p.hashSize.Some? then c.hash(Unhashed(p, k)) else []) + k.payload
  }

  /** encode_work_func; iv is the random initialization vector. */
  function Encode(p: Params, c: Crypto, iv: seq<byte>, k: Packet): (s: seq<byte>)
    requires ParamsOk(p)
  {
    if p.block.Some? then iv + c.encrypt(iv, Pad(Plaintext(p, c, k), p.block.value)) else Plaintext(p, c, k)
  }

  /** The checks of decode_work_func on the plaintext. */
  function DecodePlain(p: Params, c: Crypto, mtu: nat, t: seq<byte>): (r: Option<Packet>) {
    if |t| < HeaderLen(p) then None
    else if |t| - HeaderLen(p) > mtu then None
    else if p.hashSize.Some? && c.hash(Splice(t, HashOff(p), Zeros(HashLen(p)))) != t[HashOff(p)..HeaderLen(p)] then None
    else Some(Packet(if p.haveOtp then Some(Otp(FromLe(t[0..2]), t[2..6])) else None, t[HeaderLen(p)..]))
  }

  /** decode_work_func */
  function Decode(p: Params, c: Crypto, haveKey: bool, mtu: nat, data: seq<byte>): (r: Option<Packet>)
    requires ParamsOk(p)
  {
    if p.block.None? then DecodePlain(p, c, mtu, data)
    else
      var n := p.block.value;
      if |data| % n != 0 || |data| < n || !haveKey then None
      else
        match Unpad(c.decrypt(data[..n], data[n..]), n)
        case None => None
        case Some(t) => DecodePlain(p, c, mtu, t)
  }

  lemma OtpShape(p: Params, k: Packet)
    requires PacketOk(p, k)
    ensures |OtpBytes(k)| == HashOff(p)
    ensures p.haveOtp ==> FromLe(OtpBytes(k)[0..2]) == k.otp.value.seed && OtpBytes(k)[2..6] == k.otp.value.password
  {
    hide ToLe, FromLe;
    if p.haveOtp {
      Limits();
      LeRoundTrip(k.otp.value.seed, 2);
      assert OtpBytes(k)[0..2] == ToLe(k.otp.value.seed, 2);
    }
  }

  /** The decoder's checks pass on what the encoder wrote. */
  lemma PlainRoundTrip(p: Params, c: Crypto, mtu: nat, k: Packet)
    requires CryptoOk(p, c) && PacketOk(p, k) && |k.payload| <= mtu
    ensures DecodePlain(p, c, mtu, Plaintext(p, c, k)) == Some(k)
  {
    hide OtpBytes, FromLe;
    OtpShape(p, k);
    var o, t := OtpBytes(k), Plaintext(p, c, k);
    var h := if p.hashSize.Some? then c.hash(Unhashed(p, k)) else [];
    assert |h| == HashLen(p) && t == o + h + k.payload;
    assert t[HeaderLen(p)..] == k.payload;
    assert t[HashOff(p)..HeaderLen(p)] == h;
    assert Splice(t, HashOff(p), Zeros(HashLen(p))) == Unhashed(p, k);
    if p.haveOtp {
      assert t[0..2] == o[0..2] && t[2..6] == o[2..6];
    }
  }

  /** Round trip: decoding an encoded packet gives the payload, the seed id and the password that were sent. */
  lemma RoundTrip(p: Params, c: Crypto, mtu: nat, iv: seq<byte>, k: Packet)
    requires ParamsOk(p) && CryptoOk(p, c) && PacketOk(p, k) && |k.payload| <= mtu && (p.block.Some? ==> |iv| == p.block.value)
    ensures Decode(p, c, true, mtu, Encode(p, c, iv, k)) == Some(k)
  {
    hide Pad, Unpad, Plaintext, DecodePlain, AlignUp;
    PlainRoundTrip(p, c, mtu, k);
    if p.block.Some? {
      var n, t := p.block.value, Plaintext(p, c, k);
      UnpadPad(t, n);
      assert InBlocks(p, iv, Pad(t, n));
      var ct := c.encrypt(iv, Pad(t, n));
      var data := Encode(p, c, iv, k);
      assert data == iv + ct && data[..n] == iv && data[n..] == ct;
      PlusStep(|ct|, n);
    }
  }

  lemma DifferenceOfMultiples(x: nat, n: nat)
    requires n > 0 && x % n == 0 && x >= n
    ensures (x - n) % n == 0
  {
    DivMod(x, n);
    assert x - n == (x / n - 1) * n;
    ModIs(x - n, n, x / n - 1, 0);
  }

  /** The plaintext is determined by what the decoder returns. */
  lemma PlainOnto(p: Params, c: Crypto, mtu: nat, t: seq<byte>)
    requires CryptoOk(p, c) && DecodePlain(p, c, mtu, t).Some?
    ensures var k := DecodePlain(p, c, mtu, t).value; PacketOk(p, k) && |k.payload| <= mtu && Plaintext(p, c, k) == t
  {
    hide FromLe, ToLe;
    var k := DecodePlain(p, c, mtu, t).value;
    Limits();
    if p.haveOtp {
      LeOfValue(t[0..2]);
      assert t[..6] == t[0..2] + t[2..6];
    }
    var off, len := HashOff(p), HeaderLen(p);
    assert OtpBytes(k) == t[..off];
    assert Unhashed(p, k) == Splice(t, off, Zeros(HashLen(p)));
    assert t == t[..off] + t[off..len] + t[len..];
  }

  /** Without a key no encrypted packet is accepted, nor one that is not made of whole blocks, an initialization vector first. */
  lemma NeedsKey(p: Params, c: Crypto, haveKey: bool, mtu: nat, data: seq<byte>)
    requires ParamsOk(p) && p.block.Some?
    ensures !haveKey || |data| < p.block.value || |data| % p.block.value != 0 ==> Decode(p, c, haveKey, mtu, data) == None
  {
  }

  /**
    Where the parts are: a one-time password is six bytes, the 16-bit seed id with its low byte first
    and the password; then the hash of the packet with zeros in its place; then the payload.
    */
  lemma Layout(p: Params, c: Crypto, k: Packet)
    requires CryptoOk(p, c) && PacketOk(p, k)
    ensures HashOff(p) == (if p.haveOtp then 6 else 0) && HeaderLen(p) == HashOff(p) + (if p.hashSize.Some? then p.hashSize.value else 0)
    ensures var t := Plaintext(p, c, k);
            && |t| == HeaderLen(p) + |k.payload| && t[HeaderLen(p)..] == k.payload
            && (p.haveOtp ==> t[..6] == [k.otp.value.seed % 0x100, k.otp.value.seed / 0x100] + k.otp.value.password)
            && (p.hashSize.Some? ==> t[HashOff(p)..HeaderLen(p)] == c.hash(t[..HashOff(p)] + Zeros(p.hashSize.value) + k.payload))
  {
    hide ToLe;
    if p.haveOtp {
      LeBytes(k.otp.value.seed);
    }
    var o, t := OtpBytes(k), Plaintext(p, c, k);
    var h := if p.hashSize.Some? then c.hash(Unhashed(p, k)) else [];
    assert t == o + h + k.payload && t[..HashOff(p)] == o;
    assert t[HashOff(p)..HeaderLen(p)] == h;
  }

  /** The decoder accepts a packet exactly when it is the encoding of what it returns. */
  lemma AcceptsExactlyEncodings(p: Params, c: Crypto, mtu: nat, data: seq<byte>, k: Packet)
    requires ParamsOk(p) && CryptoOk(p, c) && CipherOnto(p, c)
    ensures Decode(p, c, true, mtu, data) == Some(k) <==>
            PacketOk(p, k) && |k.payload| <= mtu && IsEncoding(p, c, data, k)
  {
    hide Pad, Unpad, Plaintext, DecodePlain, PacketOk;
    if Decode(p, c, true, mtu, data) == Some(k) {
      if p.block.None? {
        PlainOnto(p, c, mtu, data);
        assert data == Encode(p, c, [], k);
      } else {
        var n := p.block.value;
        var t := c.decrypt(data[..n], data[n..]);
        DifferenceOfMultiples(|data|, n);
        assert InBlocks(p, data[..n], data[n..]);
        PadUnpad(t, n);
        PlainOnto(p, c, mtu, Unpad(t, n).value);
        assert data == data[..n] + data[n..];
        assert data == Encode(p, c, data[..n], k);
      }
    }
    if PacketOk(p, k) && |k.payload| <= mtu && IsEncoding(p, c, data, k) {
      var iv :| (p.block.Some? ==> |iv| == p.block.value) && data == Encode(p, c, iv, k);
      RoundTrip(p, c, mtu, iv, k);
    }
  }

  ghost predicate IsEncoding(p: Params, c: Crypto, data: seq<byte>, k: Packet)
    requires ParamsOk(p)
  {
    exists iv :: (p.block.Some? ==> |iv| == p.block.value) && data == Encode(p, c, iv, k)
  }

  // ---------------------------------------------------------------- sizes

  /** spproto_carrier_mtu_for_payload_mtu, for sizes below the limit of int. */
  function CarrierMtu(p: Params, payload: nat): (n: nat)
    requires ParamsOk(p)
  {
    if p.block.None? then HeaderLen(p) + payload
    else p.block.value + AlignUp(HeaderLen(p) + payload + 1, p.block.value)
  }

  /** spproto_payload_mtu_for_carrier_mtu */
  function PayloadMtu(p: Params, carrier: nat): (n: int)
    requires ParamsOk(p)
  {
    if p.block.None? then carrier - HeaderLen(p)
    else AlignDown(carrier, p.block.value) - p.block.value - HeaderLen(p) - 1
  }

  lemma EncodedLength(p: Params, c: Crypto, iv: seq<byte>, k: Packet)
    requires ParamsOk(p) && CryptoOk(p, c) && PacketOk(p, k) && (p.block.Some? ==> |iv| == p.block.value)
    ensures |Encode(p, c, iv, k)| == CarrierMtu(p, |k.payload|)
  {
    hide OtpBytes, AlignUp;
    OtpShape(p, k);
    assert |Plaintext(p, c, k)| == HeaderLen(p) + |k.payload|;
    if p.block.Some? {
      UnpadPad(Plaintext(p, c, k), p.block.value);
      assert InBlocks(p, iv, Pad(Plaintext(p, c, k), p.block.value));
    }
  }

  /** A payload fits the payload MTU of a carrier exactly when its packet fits the carrier. */
  lemma MtusAgree(p: Params, payload: nat, carrier: nat)
    requires ParamsOk(p)
    ensures payload <= PayloadMtu(p, carrier) <==> CarrierMtu(p, payload) <= carrier
  {
    if p.block.Some? {
      var n, y := p.block.value, HeaderLen(p) + payload + 1;
      AlignUpOk(y, n);
      FitsAligned(y, AlignUp(y, n), carrier, n);
    }
  }

  /** Rounding y up and one more block fits exactly when y fits into what is left after rounding down. */
  lemma FitsAligned(y: nat, up: nat, carrier: nat, n: nat)
    requires n > 0 && up % n == 0 && y <= up < y + n
    ensures n + up <= carrier <==> y <= carrier - carrier % n - n
  {
    var a, d := up / n, carrier / n;
    assert up == a * n && carrier - carrier % n == d * n;
    assert (a + 1) * n == up + n;
    if a + 1 <= d {
      MulLe(a + 1, d, n);
    } else {
      MulLe(d, a, n);
    }
  }

  // ---------------------------------------------------------------- the program

  /** Writing the header fields in front of the payload. */
  lemma HeaderWritten(p: Params, s: seq<byte>, n: nat, k: Packet, field: seq<byte>)
    requires PacketOk(p, k) && HeaderLen(p) + n <= |s| && k.payload == s[HeaderLen(p)..HeaderLen(p) + n] && |field| == HashLen(p)
    ensures |OtpBytes(k)| == HashOff(p)
    ensures Splice(Splice(s, 0, OtpBytes(k)), HashOff(p), field)[..HeaderLen(p) + n] == OtpBytes(k) + field + k.payload
  {
    OtpShape(p, k);
  }

  class SPProtoEncoder {
    const p: Params
    const c: Crypto
    const buf: array<byte>
    var outLen: nat

    ghost predicate Valid()
      reads this
    {
      ParamsOk(p) && CryptoOk(p, c)
    }

    constructor (p: Params, c: Crypto, buf: array<byte>)
      requires ParamsOk(p) && CryptoOk(p, c)
      ensures Valid() && this.p == p && this.c == c && this.buf == buf
    {
      this.p, this.c, this.buf, outLen := p, c, buf, 0;
    }

    /** The OTP and hash parts of encode_work_func, in front of the n bytes of payload already there. */
    method WriteHeader(plaintext: array<byte>, n: nat, k: Packet)
      requires Valid() && PacketOk(p, k) && HeaderLen(p) + n <= plaintext.Length
      requires k.payload == plaintext[HeaderLen(p)..HeaderLen(p) + n]
      modifies plaintext
      ensures plaintext[..HeaderLen(p) + n] == Plaintext(p, c, k)
    {
      hide OtpBytes, ToLe, Splice;
      OtpShape(p, k);
      ghost var s := plaintext[..];
      var len := HeaderLen(p) + n;
      if p.haveOtp {
        WriteAt(plaintext, 0, OtpBytes(k));
      }
      NoSplice(s, 0);
      assert !p.haveOtp ==> OtpBytes(k) == [];
      if p.hashSize.Some? {
        HeaderWritten(p, s, n, k, Zeros(HashLen(p)));
        WriteHash(plaintext, len, Unhashed(p, k));
        HeaderWritten(p, s, n, k, c.hash(Unhashed(p, k)));
      } else {
        HeaderWritten(p, s, n, k, []);
        NoSplice(Splice(s, 0, OtpBytes(k)), HashOff(p));
      }
      assert plaintext[..len] == plaintext[..][..len];
    }

    /** The hash field: zeroed, then set to the hash of the len bytes, which are then those of unhashed. */
    method WriteHash(plaintext: array<byte>, len: nat, ghost unhashed: seq<byte>)
      requires Valid() && p.hashSize.Some? && HeaderLen(p) <= len <= plaintext.Length
      requires Splice(plaintext[..], HashOff(p), Zeros(HashLen(p)))[..len] == unhashed
      modifies plaintext
      ensures |c.hash(unhashed)| == HashLen(p) && plaintext[..] == Splice(old(plaintext[..]), HashOff(p), c.hash(unhashed))
    {
      hide Splice;
      ghost var s := plaintext[..];
      WriteAt(plaintext, HashOff(p), Zeros(HashLen(p)));
      assert plaintext[..len] == plaintext[..][..len];
      var hash := c.hash(plaintext[..len]);
      assert hash == c.hash(unhashed);
      SpliceTwice(s, HashOff(p), Zeros(HashLen(p)), hash);
      WriteAt(plaintext, HashOff(p), hash);
    }

    /** The padding loop. */
    method WritePadding(plaintext: array<byte>, len: nat)
      requires Valid() && p.block.Some? && AlignUp(len + 1, p.block.value) <= plaintext.Length
      modifies plaintext
      ensures len <= plaintext.Length && plaintext[..AlignUp(len + 1, p.block.value)] == Pad(old(plaintext[..])[..len], p.block.value)
    {
      hide AlignUp;
      AlignUpOk(len + 1, p.block.value);
      var end := AlignUp(len + 1, p.block.value);
      plaintext[len] := 1;
      for i := len + 1 to end
        invariant plaintext[..len] == old(plaintext[..len]) && plaintext[len] == 1
        invariant forall j :: len < j < i ==> plaintext[j] == 0
      {
        plaintext[i] := 0;
      }
      assert plaintext[..end] == old(plaintext[..])[..len] + [1] + Zeros(end - (len + 1));
    }

    /** The initialization vector and the ciphertext of the first size bytes of the buffer. */
    method Encrypt(out: array<byte>, size: nat, iv: seq<byte>)
      requires Valid() && out != buf && size <= buf.Length && |iv| + size <= out.Length && InBlocks(p, iv, buf[..size])
      modifies out
      ensures out[..|iv| + size] == iv + c.encrypt(iv, buf[..size])
    {
      hide CryptoOk, Splice;
      ghost var s := out[..];
      WriteAt(out, 0, iv);
      var ciphertext := c.encrypt(iv, buf[..size]);
      CipherLength(p, c, iv, buf[..size]);
      WriteAt(out, |iv|, ciphertext);
      SpliceNext(s, iv, ciphertext);
      assert out[..|iv| + size] == out[..][..|iv| + size];
    }

    /** encode_work_func: n bytes of payload are behind the header space of the plaintext buffer. */
    method EncodeWork(out: array<byte>, n: nat, otp: Option<Otp>, iv: seq<byte>)
      requires Valid() && out != buf && CarrierMtu(p, n) <= out.Length && (p.block.Some? ==> |iv| == p.block.value)
      requires p.block.Some? ==> AlignUp(HeaderLen(p) + n + 1, p.block.value) <= buf.Length && HeaderLen(p) + n <= buf.Length
      requires PacketOk(p, Packet(otp, []))
      modifies this`outLen, buf, out
      ensures outLen == CarrierMtu(p, n)
      ensures var payload := if p.block.Some? then old(buf[..])[HeaderLen(p)..HeaderLen(p) + n] else old(out[..])[HeaderLen(p)..HeaderLen(p) + n];
              out[..outLen] == Encode(p, c, iv, Packet(otp, payload))
    {
      hide AlignUp, Pad, Plaintext, CryptoOk, Splice;
      var plaintext := if p.block.Some? then buf else out;
      var len := HeaderLen(p) + n;
      ghost var k := Packet(otp, plaintext[HeaderLen(p)..len]);
      EncodedLength(p, c, iv, k);
      WriteHeader(plaintext, n, Packet(otp, plaintext[HeaderLen(p)..len]));
      if p.block.Some? {
        var size := AlignUp(len + 1, p.block.value);
        assert buf[..len] == buf[..][..len];
        WritePadding(buf, len);
        AlignUpOk(len + 1, p.block.value);
        Encrypt(out, size, iv);
        outLen := p.block.value + size;
      } else {
        outLen := len;
      }
    }
  }

  lemma CipherLength(p: Params, c: Crypto, iv: seq<byte>, x: seq<byte>)
    requires CryptoOk(p, c) && InBlocks(p, iv, x)
    ensures |c.encrypt(iv, x)| == |x|
  {
  }

  lemma NoSplice(s: seq<byte>, off: nat)
    requires off <= |s|
    ensures Splice(s, off, []) == s
  {
  }

  lemma SpliceNext(s: seq<byte>, a: seq<byte>, b: seq<byte>)
    requires |a| + |b| <= |s|
    ensures Splice(Splice(s, 0, a), |a|, b)[..|a| + |b|] == a + b
  {
  }

  lemma SplicePrefix(s: seq<byte>, len: nat, off: nat, b: seq<byte>)
    requires off + |b| <= len <= |s|
    ensures Splice(s, off, b)[..len] == Splice(s[..len], off, b)
  {
  }

  lemma SpliceBack(s: seq<byte>, off: nat, b: seq<byte>)
    requires off + |b| <= |s|
    ensures Splice(Splice(s, off, b), off, s[off..off + |b|]) == s
  {
  }

  lemma SpliceTwice(s: seq<byte>, off: nat, a: seq<byte>, b: seq<byte>)
    requires off + |a| <= |s| && |a| == |b|
    ensures Splice(Splice(s, off, a), off, b) == Splice(s, off, b)
  {
  }

  class SPProtoDecoder {
    const p: Params
    const c: Crypto
    const buf: array<byte>
    const outputMtu: nat
    var haveEncryptionKey: bool

    ghost predicate Valid()
      reads this
    {
      ParamsOk(p) && CryptoOk(p, c)
    }

    constructor (p: Params, c: Crypto, buf: array<byte>, outputMtu: nat)
      requires ParamsOk(p) && CryptoOk(p, c)
      ensures Valid() && this.p == p && this.c == c && this.buf == buf && this.outputMtu == outputMtu && !haveEncryptionKey
    {
      this.p, this.c, this.buf, this.outputMtu, haveEncryptionKey := p, c, buf, outputMtu, false;
    }

    /** The backward scan over the last block: where the plaintext ends. */
    method ReadPadding(plaintext: array<byte>, len: nat) returns (r: Option<nat>)
      requires Valid() && p.block.Some? && len <= plaintext.Length
      ensures r.Some? ==> r.value <= len && Unpad(plaintext[..len], p.block.value) == Some(plaintext[..r.value])
      ensures r == None ==> Unpad(plaintext[..len], p.block.value) == None
    {
      var block := p.block.value;
      ghost var t := plaintext[..len];
      if len < block {
        return None;
      }
      var i := len - 1;
      while i >= len - block
        invariant len - block - 1 <= i < len && forall k :: i < k < len ==> plaintext[k] == 0
      {
        if plaintext[i] == 1 {
          LastNonZeroIs(t, i);
          assert t[..i] == plaintext[..i];
          return Some(i);
        }
        if plaintext[i] != 0 {
          LastNonZeroIs(t, i);
          return None;
        }
        i := i - 1;
      }
      LastIsEarlier(t, block);
      r := None;
    }

    /** The hash check: the field is zeroed for the calculation and then restored. */
    method CheckHash(plaintext: array<byte>, len: nat) returns (ok: bool)
      requires Valid() && p.hashSize.Some? && HeaderLen(p) <= len <= plaintext.Length
      modifies plaintext
      ensures plaintext[..] == old(plaintext[..])
      ensures ok <==> c.hash(Splice(plaintext[..len], HashOff(p), Zeros(HashLen(p)))) == plaintext[HashOff(p)..HeaderLen(p)]
    {
      hide Splice, CryptoOk;
      ghost var s := plaintext[..];
      var hash := plaintext[HashOff(p)..HeaderLen(p)];
      WriteAt(plaintext, HashOff(p), Zeros(HashLen(p)));
      SplicePrefix(s, len, HashOff(p), Zeros(HashLen(p)));
      assert plaintext[..len] == plaintext[..][..len] && s[..len] == old(plaintext[..len]);
      var calculated := c.hash(plaintext[..len]);
      assert hash == s[HashOff(p)..HeaderLen(p)];
      SpliceBack(s, HashOff(p), Zeros(HashLen(p)));
      WriteAt(plaintext, HashOff(p), hash);
      assert plaintext[..len] == plaintext[..][..len] && plaintext[HashOff(p)..HeaderLen(p)] == plaintext[..][HashOff(p)..HeaderLen(p)];
      ok := hash == calculated;
    }

    /** decode_work_func, with what decode_work_handler gets from it. */
    method DecodeWork(input: array<byte>, n: nat) returns (r: Option<Packet>)
      requires Valid() && n <= input.Length && (p.block.Some? ==> n <= buf.Length) && input != buf
      modifies input, buf
      ensures r == Decode(p, c, haveEncryptionKey, outputMtu, old(input[..])[..n])
      ensures input[..] == old(input[..])
    {
      hide Unpad, CryptoOk, DecodePlain;
      ghost var data := input[..n];
      if p.block.None? {
        r := CheckPlaintext(input, n);
        return;
      }
      var block := p.block.value;
      if n % block != 0 || n < block || !haveEncryptionKey {
        return None;
      }
      var text := c.decrypt(input[..block], input[block..n]);
      DifferenceOfMultiples(n, block);
      DecryptLength(p, c, input[..block], input[block..n]);
      assert data[..block] == input[..block] && data[block..] == input[block..n];
      WriteAt(buf, 0, text);
      assert buf[..|text|] == text;
      var end := ReadPadding(buf, |text|);
      if end == None {
        return None;
      }
      r := CheckPlaintext(buf, end.value);
    }

    /** The part of decode_work_func on the first len bytes of the plaintext: header, length, OTP and hash. */
    method CheckPlaintext(plaintext: array<byte>, len: nat) returns (r: Option<Packet>)
      requires Valid() && len <= plaintext.Length
      modifies plaintext
      ensures r == DecodePlain(p, c, outputMtu, old(plaintext[..len])) && plaintext[..] == old(plaintext[..])
    {
      hide CryptoOk, Splice, FromLe;
      ghost var s := plaintext[..];
      ghost var t := plaintext[..len];
      if len < HeaderLen(p) || len - HeaderLen(p) > outputMtu {
        return None;
      }
      if p.hashSize.Some? {
        var ok := CheckHash(plaintext, len);
        HashField(p, s, len);
        assert plaintext[..len] == s[..len] && plaintext[HashOff(p)..HeaderLen(p)] == s[HashOff(p)..HeaderLen(p)];
        if !ok {
          return None;
        }
      }
      var payload := plaintext[HeaderLen(p)..len];
      assert t[HeaderLen(p)..] == payload;
      if p.haveOtp {
        var otp := Otp(FromLe(plaintext[0..2]), plaintext[2..6]);
        assert t[0..2] == plaintext[0..2] && t[2..6] == plaintext[2..6];
        r := Some(Packet(Some(otp), payload));
      } else {
        r := Some(Packet(None, payload));
      }
    }
  }

  lemma LastIsEarlier(t: seq<byte>, block: nat)
    requires block <= |t| && forall k :: |t| - block <= k < |t| ==> t[k] == 0
    ensures Unpad(t, block) == None
  {
  }

  lemma DecryptLength(p: Params, c: Crypto, iv: seq<byte>, x: seq<byte>)
    requires CryptoOk(p, c) && InBlocks(p, iv, x)
    ensures |c.decrypt(iv, x)| == |x|
  {
  }

  lemma HashField(p: Params, s: seq<byte>, len: nat)
    requires HeaderLen(p) <= len <= |s|
    ensures s[..len][HashOff(p)..HeaderLen(p)] == s[HashOff(p)..HeaderLen(p)]
  {
  }
}
