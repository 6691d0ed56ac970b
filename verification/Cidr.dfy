/** CIDR blocks: aligned ranges of IPv4 addresses, the two halves of a block, its parent. */
module Cidr {
  import opened BitMath

  const ADDRESSES: nat := 0x1_0000_0000

  /** A {ipAsLong, prefixLength} pair. */
  datatype Block = Block(ip: nat, prefix: nat)

  /** Number of addresses of a block with this prefix length. */
  function Size(prefix: nat): (n: nat)
    requires prefix <= 32
    ensures n > 0
  {
    Pow2(32 - prefix)
  }

  predicate Aligned(b: Block) {
    b.prefix <= 32 && b.ip % Size(b.prefix) == 0 && b.ip + Size(b.prefix) <= ADDRESSES
  }

  /** The last address of a block. */
  function End(b: Block): (e: int)
    requires b.prefix <= 32
  {
    b.ip + Size(b.prefix) - 1
  }

  predicate Has(b: Block, a: int)
    requires b.prefix <= 32
  {
    b.ip <= a <= End(b)
  }

  predicate Apart(b: Block, c: Block)
    requires b.prefix <= 32 && c.prefix <= 32
  {
    c.ip > End(b) || End(c) < b.ip
  }

  /** All of b lies in c. */
  predicate Inside(b: Block, c: Block)
    requires b.prefix <= 32 && c.prefix <= 32
  {
    c.ip <= b.ip && End(b) <= End(c)
  }

  /** The aligned block of this prefix length that the address lies in. */
  function BlockOf(ip: nat, prefix: nat): (b: Block)
    requires prefix <= 32
  {
    Block(RoundDown(ip, Size(prefix)), prefix)
  }

  function Left(b: Block): (c: Block) { Block(b.ip, b.prefix + 1) }

  function Right(b: Block): (c: Block)
    requires b.prefix < 32
  {
    Block(b.ip + Size(b.prefix + 1), b.prefix + 1)
  }

  function Parent(b: Block): (c: Block)
    requires 0 < b.prefix <= 32
  {
    BlockOf(b.ip, b.prefix - 1)
  }

  lemma SizeHalves(p: nat)
    requires p < 32
    ensures Size(p) == 2 * Size(p + 1)
  {
  }

  lemma {:induction false} SizeMultiple(p: nat, q: nat)
    requires p <= q <= 32
    ensures Size(p) == Pow2(q - p) * Size(q)
  {
    Pow2Add(q - p, 32 - q);
  }

  lemma ChildrenAligned(b: Block)
    requires Aligned(b) && b.prefix < 32
    ensures Aligned(Left(b)) && Aligned(Right(b))
    ensures End(Left(b)) + 1 == Right(b).ip && End(Right(b)) == End(b)
  {
    SizeHalves(b.prefix);
    hide Size;
    var m := Size(b.prefix + 1);
    MultipleOfMultiple(b.ip, 2, m);
    PlusStep(b.ip, m);
  }

  /** Two aligned blocks are disjoint or the smaller lies in the larger. */
  lemma Nested(b: Block, c: Block)
    requires Aligned(b) && Aligned(c) && c.prefix <= b.prefix
    ensures Apart(b, c) || Inside(b, c)
  {
    SizeMultiple(c.prefix, b.prefix);
    hide Size;
    var m := Size(b.prefix);
    MultipleOfMultiple(c.ip, Pow2(b.prefix - c.prefix), m);
    var e := c.ip + Size(c.prefix);
    if b.ip < c.ip {
      MultipleGap(b.ip, c.ip, m);
    } else if b.ip < e {
      MultipleGap(b.ip, e, m);
    }
  }

  /** A block is one of the two halves of its parent. */
  lemma ParentOf(b: Block)
    requires Aligned(b) && b.prefix > 0
    ensures Aligned(Parent(b)) && Inside(b, Parent(b))
    ensures b == Left(Parent(b)) || b == Right(Parent(b))
  {
    SizeHalves(b.prefix - 1);
    BlockOfAligned(b.ip, b.prefix - 1);
    hide Size;
    EvenOrOdd(b.ip, Size(b.prefix));
  }

  lemma BlockOfAligned(ip: nat, prefix: nat)
    requires ip < ADDRESSES && prefix <= 32
    ensures Aligned(BlockOf(ip, prefix)) && Has(BlockOf(ip, prefix), ip)
  {
    SizeMultiple(0, prefix);
    assert Size(0) == ADDRESSES by { Pow2Values(); }
    hide Size;
    var s, r := Size(prefix), RoundDown(ip, Size(prefix));
    assert (0 + Size(0)) % s == 0 by {
      ModIs(0, Pow2(prefix - 0) * s, 0, 0);
      MultipleOfMultiple(0, Pow2(prefix - 0), s);
    }
    MultipleGap(r, ADDRESSES, s);
  }

  /** A block strictly inside another has its parent inside it, too. */
  lemma ParentInside(b: Block, c: Block)
    requires Aligned(b) && Aligned(c) && Inside(b, c) && b.prefix > c.prefix
    ensures Aligned(Parent(b)) && Inside(Parent(b), c)
  {
    ParentOf(b);
    Nested(Parent(b), c);
  }

  /** Inside with the same prefix length is equality; a larger block does not fit. */
  lemma InsideSize(b: Block, c: Block)
    requires Aligned(b) && Aligned(c) && Inside(b, c)
    ensures c.prefix <= b.prefix && (b.prefix == c.prefix ==> b == c)
  {
    if b.prefix < c.prefix {
      SizeMultiple(b.prefix, c.prefix);
      assert Pow2(c.prefix - b.prefix) >= 2;
      MulLe(2, Pow2(c.prefix - b.prefix), Size(c.prefix));
    }
  }

  /** Overlapping aligned blocks: one lies in the other. */
  lemma OverlapNested(b: Block, c: Block)
    requires Aligned(b) && Aligned(c) && !Apart(b, c)
    ensures Inside(b, c) || Inside(c, b)
  {
    if c.prefix <= b.prefix { Nested(b, c); } else { Nested(c, b); }
  }
}
