/**
  VPN routes: subtracting address blocks from a list of CIDR routes. The list that results
  from any exclusions is canonical: the maximal aligned blocks that avoid them, in order.
  */
module Routes {
  import opened BitMath
  import opened Lists
  import opened Cidr

  // ---------------------------------------------------------------- masks

  const LOW32: nat := 0xFFFF_FFFF

  /** prefixToMask: (~0L << (32 - prefix)) & 0xFFFFFFFFL, the 64-bit ~0L << k being 2^64 - 2^k. */
  function PrefixToMask(prefix: nat): (m: nat)
    requires prefix <= 32
  {
    if prefix == 0 then 0
    else
      Pow2Monotonic(32 - prefix, 64);
      And(Pow2(64) - Pow2(32 - prefix), LOW32)
  }

  /** start | ~mask & 0xFFFFFFFFL */
  function LastAddress(start: nat, mask: nat): (e: nat)
    requires mask <= LOW32
  {
    Or(start, LOW32 - mask)
  }

  /** (h*h - x) mod h, for 0 < x <= h. */
  lemma BelowSquare(h: nat, x: nat)
    requires 0 < x < h
    ensures h * h >= x && (h * h - x) % h == h - x
  {
    assert h * h - x == (h - 1) * h + (h - x);
    ModIs(h * h - x, h, h - 1, h - x);
  }

  lemma Pow2One()
    ensures Pow2(1) == 2
  {
  }

  lemma MaskIs(prefix: nat)
    requires prefix <= 32
    ensures PrefixToMask(prefix) == ADDRESSES - Size(prefix)
  {
    hide Pow2, And;
    Pow2Values();
    if prefix > 0 {
      var k := 32 - prefix;
      Pow2Monotonic(k, 64);
      Pow2Monotonic(k, 31);
      Pow2Add(1, 31);
      Pow2One();
      AndLowMask(Pow2(64) - Pow2(k), 32);
      Pow2Add(32, 32);
      BelowSquare(Pow2(32), Pow2(k));
    }
  }

  /** Masking gives exactly the first and the last address of the aligned block around ip. */
  lemma MaskedBlock(ip: nat, prefix: nat)
    requires ip < ADDRESSES && prefix <= 32
    ensures PrefixToMask(prefix) <= LOW32
    ensures And(ip, PrefixToMask(prefix)) == BlockOf(ip, prefix).ip
    ensures LastAddress(BlockOf(ip, prefix).ip, PrefixToMask(prefix)) == End(BlockOf(ip, prefix))
  {
    hide Pow2, And, Or, PrefixToMask;
    MaskIs(prefix);
    Pow2Values();
    AndHighMask(ip, 32, 32 - prefix);
    RoundDownIs(ip, Size(prefix));
    OrLow(BlockOf(ip, prefix).ip, Size(prefix) - 1, 32 - prefix);
  }

  // ---------------------------------------------------------------- splitting and subtracting

  /** What splitExcluding appends for a block whose range partly overlaps [exclStart, exclEnd]. */
  function Split(start: nat, prefix: nat, exclStart: int, exclEnd: int): (r: seq<Block>)
    requires prefix <= 32
    decreases 32 - prefix, 0
  {
    if prefix + 1 > 32 then []
    else Half(start, prefix + 1, exclStart, exclEnd) + Half(start + Size(prefix + 1), prefix + 1, exclStart, exclEnd)
  }

  /** One child of a split: kept whole, dropped, or split further. */
  function Half(start: nat, prefix: nat, exclStart: int, exclEnd: int): (r: seq<Block>)
    requires prefix <= 32
    decreases 32 - prefix, 1
  {
    var end := start + Size(prefix) - 1;
    if exclStart > end || exclEnd < start then [Block(start, prefix)]
    else if exclStart <= start && exclEnd >= end then []
    else Split(start, prefix, exclStart, exclEnd)
  }

  /** What one route contributes to subtractCidr's result. */
  function Minus(route: Block, s: Block): (r: seq<Block>)
    requires route.prefix <= 32 && s.prefix <= 32
  {
    var start := RoundDown(route.ip, Size(route.prefix));
    var end := start + Size(route.prefix) - 1;
    if s.ip > end || End(s) < start then [route]
    else if s.ip <= start && End(s) >= end then []
    else Split(start, route.prefix, s.ip, End(s))
  }

  /** subtractCidr, for an already masked block s. */
  function Subtract(routes: seq<Block>, s: Block): (r: seq<Block>)
    requires s.prefix <= 32 && forall i :: 0 <= i < |routes| ==> routes[i].prefix <= 32
  {
    if routes == [] then [] else Subtract(routes[..|routes| - 1], s) + Minus(routes[|routes| - 1], s)
  }

  /** splitExcluding: appends to result. */
  method SplitExcluding(result: seq<Block>, blockStart: nat, blockPrefix: nat, exclStart: int, exclEnd: int)
    returns (r: seq<Block>)
    requires blockPrefix <= 32
    ensures r == result + Split(blockStart, blockPrefix, exclStart, exclEnd)
    decreases 32 - blockPrefix
  {
    r := result;
    var childPrefix := blockPrefix + 1;
    if childPrefix > 32 {
      return;
    }
    var childSize := Size(childPrefix);
    var leftStart := blockStart;
    var rightStart := blockStart + childSize;
    var children := [(leftStart, leftStart + childSize - 1), (rightStart, rightStart + childSize - 1)];
    ghost var halves := [Half(leftStart, childPrefix, exclStart, exclEnd), Half(rightStart, childPrefix, exclStart, exclEnd)];
    hide Size;
    for i := 0 to 2
      invariant r == result + if i == 0 then [] else if i == 1 then halves[0] else halves[0] + halves[1]
    {
      var child := children[i];
      ghost var before := r;
      if exclStart > child.1 || exclEnd < child.0 {
        r := r + [Block(child.0, childPrefix)];
      } else if exclStart <= child.0 && exclEnd >= child.1 {
      } else {
        r := SplitExcluding(r, child.0, childPrefix, exclStart, exclEnd);
      }
      assert r == before + halves[i];
      if i == 1 {
        Assoc(result, halves[0], halves[1]);
      }
    }
  }

  /** subtractCidr */
  method SubtractCidr(routes: seq<Block>, subtractIp: nat, subtractPrefix: nat) returns (result: seq<Block>)
    requires subtractIp < ADDRESSES && subtractPrefix <= 32
    requires forall i :: 0 <= i < |routes| ==> routes[i].ip < ADDRESSES && routes[i].prefix <= 32
    ensures result == Subtract(routes, BlockOf(subtractIp, subtractPrefix))
  {
    hide PrefixToMask, LastAddress, Size, BlockOf, Split;
    ghost var s := BlockOf(subtractIp, subtractPrefix);
    MaskedBlock(subtractIp, subtractPrefix);
    BlockOfPrefix(subtractIp, subtractPrefix);
    var subtractMask := PrefixToMask(subtractPrefix);
    var subtractStart := And(subtractIp, subtractMask);
    var subtractEnd := LastAddress(subtractStart, subtractMask);
    result := [];
    for i := 0 to |routes|
      invariant result == Subtract(routes[..i], s)
    {
      var route := routes[i];
      MaskedBlock(route.ip, route.prefix);
      BlockOfPrefix(route.ip, route.prefix);
      var routeMask := PrefixToMask(route.prefix);
      var routeStart := And(route.ip, routeMask);
      var routeEnd := LastAddress(routeStart, routeMask);
      assert routes[..i + 1][..i] == routes[..i];
      if subtractStart > routeEnd || subtractEnd < routeStart {
        result := result + [route];
      } else if subtractStart <= routeStart && subtractEnd >= routeEnd {
        assert result + [] == result;
      } else {
        result := SplitExcluding(result, routeStart, route.prefix, subtractStart, subtractEnd);
      }
    }
    assert routes[..|routes|] == routes;
  }

  lemma BlockOfPrefix(ip: nat, prefix: nat)
    requires prefix <= 32
    ensures BlockOf(ip, prefix) == Block(RoundDown(ip, Size(prefix)), prefix)
  {
  }

  // ---------------------------------------------------------------- what a split is

  function SplitBy(b: Block, s: Block): (r: seq<Block>)
    requires b.prefix <= 32 && s.prefix <= 32
  {
    Split(b.ip, b.prefix, s.ip, End(s))
  }

  /** s is strictly inside b. */
  predicate StrictlyIn(s: Block, b: Block) {
    Aligned(b) && Aligned(s) && Inside(s, b) && b.prefix < s.prefix
  }

  /** Splitting keeps one half whole and leaves the half with s. */
  lemma SplitShape(b: Block, s: Block)
    requires StrictlyIn(s, b)
    ensures Aligned(Left(b)) && Aligned(Right(b))
    ensures Inside(s, Left(b)) ==>
              Apart(Right(b), s) && SplitBy(b, s) == (if s == Left(b) then [] else SplitBy(Left(b), s)) + [Right(b)]
    ensures !Inside(s, Left(b)) ==>
              Inside(s, Right(b)) && Apart(Left(b), s)
              && SplitBy(b, s) == [Left(b)] + (if s == Right(b) then [] else SplitBy(Right(b), s))
  {
    hide Split, Half, Size, SplitBy;
    var l, r := Left(b), Right(b);
    InOneChild(b, s);
    SplitHalves(b, s);
    var c, other := if Inside(s, l) then l else r, if Inside(s, l) then r else l;
    HalfOf(c, s);
    HalfApart(other, s);
  }

  lemma SplitHalves(b: Block, s: Block)
    requires b.prefix < 32 && s.prefix <= 32
    ensures var l, r := Left(b), Right(b);
            SplitBy(b, s) == Half(l.ip, l.prefix, s.ip, End(s)) + Half(r.ip, r.prefix, s.ip, End(s))
  {
  }

  /** A block strictly inside b is in one of its children and apart from the other. */
  lemma InOneChild(b: Block, s: Block)
    requires StrictlyIn(s, b)
    ensures Aligned(Left(b)) && Aligned(Right(b))
    ensures if Inside(s, Left(b)) then Apart(Right(b), s) else Inside(s, Right(b)) && Apart(Left(b), s)
  {
    ChildrenAligned(b);
    Nested(s, Left(b));
    Nested(s, Right(b));
    assert Size(s.prefix) > 0;
  }

  lemma HalfApart(c: Block, s: Block)
    requires c.prefix <= 32 && s.prefix <= 32 && Apart(c, s)
    ensures Half(c.ip, c.prefix, s.ip, End(s)) == [c]
  {
  }

  lemma HalfOf(c: Block, s: Block)
    requires Aligned(c) && Aligned(s) && Inside(s, c)
    ensures Half(c.ip, c.prefix, s.ip, End(s)) == if s == c then [] else SplitBy(c, s)
  {
    if Inside(c, s) {
      InsideSize(c, s);
      InsideSize(s, c);
    }
  }

  /** Blocks in increasing order without overlap. */
  predicate Ordered(bs: seq<Block>) {
    && (forall i :: 0 <= i < |bs| ==> Aligned(bs[i]))
    && (forall i, j :: 0 <= i < j < |bs| ==> End(bs[i]) < bs[j].ip)
  }

  predicate AllInside(bs: seq<Block>, b: Block)
    requires b.prefix <= 32
  {
    forall i :: 0 <= i < |bs| ==> bs[i].prefix <= 32 && Inside(bs[i], b)
  }

  ghost predicate Covered(bs: seq<Block>, a: int) {
    exists i :: 0 <= i < |bs| && bs[i].prefix <= 32 && Has(bs[i], a)
  }

  /** The piece of a split: aligned, inside b, apart from s, while its parent still meets s. */
  predicate Piece(c: Block, b: Block, s: Block) {
    && Aligned(c) && Aligned(s) && Aligned(b)
    && Inside(c, b) && b.prefix < c.prefix && Apart(c, s) && !Apart(Parent(c), s)
  }

  lemma StrictlyInChild(b: Block, s: Block, c: Block)
    requires StrictlyIn(s, b) && Aligned(c) && c.prefix == b.prefix + 1 && Inside(s, c) && s != c
    ensures StrictlyIn(s, c)
  {
    InsideSize(s, c);
  }

  lemma ChildIsPiece(b: Block, s: Block, c: Block)
    requires StrictlyIn(s, b) && Aligned(c) && Apart(c, s) && (c == Left(b) || c == Right(b))
    ensures Piece(c, b, s)
  {
    ChildrenAligned(b);
    ParentOf(c);
    OverlapNested(Parent(c), b);
    InsideSizeEither(Parent(c), b);
  }

  lemma InsideSizeEither(b: Block, c: Block)
    requires Aligned(b) && Aligned(c) && b.prefix == c.prefix && (Inside(b, c) || Inside(c, b))
    ensures b == c
  {
    if Inside(b, c) { InsideSize(b, c); } else { InsideSize(c, b); }
  }

  /** Every block of a split is a piece, in order. */
  lemma {:induction false} SplitPieces(b: Block, s: Block)
    requires StrictlyIn(s, b)
    ensures forall i :: 0 <= i < |SplitBy(b, s)| ==> Piece(SplitBy(b, s)[i], b, s)
    ensures Ordered(SplitBy(b, s))
    decreases 32 - b.prefix
  {
    hide Split, Size;
    SplitShape(b, s);
    ChildrenAligned(b);
    var l, r := Left(b), Right(b);
    var c := if Inside(s, l) then l else r;
    ChildIsPiece(b, s, if Inside(s, l) then r else l);
    if s != c {
      StrictlyInChild(b, s, c);
      SplitPieces(c, s);
    }
  }

  /** A split loses exactly the addresses of s. */
  lemma {:induction false} SplitCovers(b: Block, s: Block, a: int)
    requires StrictlyIn(s, b) && Has(b, a) && !Has(s, a)
    ensures Covered(SplitBy(b, s), a)
    decreases 32 - b.prefix
  {
    hide Split, Size;
    SplitShape(b, s);
    ChildrenAligned(b);
    var l, r := Left(b), Right(b);
    var c, other := if Inside(s, l) then l else r, if Inside(s, l) then r else l;
    var whole := SplitBy(b, s);
    if Has(other, a) {
      var k := if Inside(s, l) then |whole| - 1 else 0;
      assert whole[k] == other;
    } else {
      assert s != c;
      StrictlyInChild(b, s, c);
      SplitCovers(c, s, a);
      var k :| 0 <= k < |SplitBy(c, s)| && SplitBy(c, s)[k].prefix <= 32 && Has(SplitBy(c, s)[k], a);
      assert whole[if Inside(s, l) then k else k + 1] == SplitBy(c, s)[k];
    }
  }

  /** A split has every piece. */
  lemma {:induction false} SplitHasPieces(b: Block, s: Block, p: Block)
    requires StrictlyIn(s, b) && Piece(p, b, s)
    ensures p in SplitBy(b, s)
    decreases 32 - b.prefix
  {
    hide Split, Size;
    SplitShape(b, s);
    ChildrenAligned(b);
    var l, r := Left(b), Right(b);
    var c, other := if Inside(s, l) then l else r, if Inside(s, l) then r else l;
    PieceBelow(b, s, p, c, other);
    if p != other {
      SplitHasPieces(c, s, p);
    }
  }

  /** A piece is the half without s, or a piece of the half with s. */
  lemma PieceBelow(b: Block, s: Block, p: Block, c: Block, other: Block)
    requires StrictlyIn(s, b) && Piece(p, b, s) && Aligned(c) && Aligned(other) && Inside(s, c) && Apart(other, s)
    requires (c == Left(b) && other == Right(b)) || (c == Right(b) && other == Left(b))
    ensures p == other || (StrictlyIn(s, c) && Piece(p, c, s))
  {
    hide Size;
    ChildrenAligned(b);
    Nested(p, c);
    Nested(p, other);
    if Inside(p, other) {
      InsideSize(p, other);
      if p.prefix > other.prefix {
        ParentInside(p, other);
      }
    } else {
      InsideSize(p, c);
      InsideSize(s, c);
    }
  }

  /** Splitting a /r by a /q strictly inside it gives q - r blocks, one of each length r+1 .. q. */
  lemma {:induction false} SplitCount(b: Block, s: Block)
    requires StrictlyIn(s, b)
    ensures |SplitBy(b, s)| == s.prefix - b.prefix
    ensures forall q :: b.prefix < q <= s.prefix ==> HasPrefix(SplitBy(b, s), q)
    decreases 32 - b.prefix
  {
    hide Split, Size;
    SplitShape(b, s);
    var l, r := Left(b), Right(b);
    var c := if Inside(s, l) then l else r;
    var whole := SplitBy(b, s);
    if s != c {
      StrictlyInChild(b, s, c);
      SplitCount(c, s);
      var deep := SplitBy(c, s);
      forall q | b.prefix < q <= s.prefix
        ensures HasPrefix(whole, q)
      {
        if q > c.prefix {
          assert HasPrefix(deep, q);
          var k :| 0 <= k < |deep| && deep[k].prefix == q;
          assert whole[if Inside(s, l) then k else k + 1].prefix == q;
        } else {
          assert whole[if Inside(s, l) then |whole| - 1 else 0].prefix == q;
        }
      }
    } else {
      assert whole[0].prefix == s.prefix;
    }
  }

  ghost predicate HasPrefix(bs: seq<Block>, q: nat) {
    exists k :: 0 <= k < |bs| && bs[k].prefix == q
  }

  // ---------------------------------------------------------------- exact difference

  /** One route: aligned ordered pieces inside it, covering its addresses minus those of s. */
  lemma MinusExact(r: Block, s: Block)
    requires Aligned(r) && Aligned(s)
    ensures Ordered(Minus(r, s)) && AllInside(Minus(r, s), r)
    ensures forall a :: Covered(Minus(r, s), a) <==> Has(r, a) && !Has(s, a)
  {
    hide Size, Split, Minus, Covered;
    MinusCases(r, s);
    if StrictlyIn(s, r) {
      SplitPieces(r, s);
    }
    forall a ensures Covered(Minus(r, s), a) <==> Has(r, a) && !Has(s, a)
    {
      MinusCovers(r, s, a);
    }
  }

  lemma MinusCovers(r: Block, s: Block, a: int)
    requires Aligned(r) && Aligned(s)
    ensures Covered(Minus(r, s), a) <==> Has(r, a) && !Has(s, a)
  {
    hide Size, Split, Minus;
    MinusCases(r, s);
    if StrictlyIn(s, r) {
      SplitPieces(r, s);
      if Has(r, a) && !Has(s, a) { SplitCovers(r, s, a); }
      if Covered(SplitBy(r, s), a) {
        var i :| 0 <= i < |SplitBy(r, s)| && SplitBy(r, s)[i].prefix <= 32 && Has(SplitBy(r, s)[i], a);
        assert Piece(SplitBy(r, s)[i], r, s);
      }
    } else if Apart(r, s) {
      if Has(r, a) { assert Has([r][0], a); }
    }
  }

  /** The three cases for an aligned route: apart, covered, or split with s strictly inside. */
  lemma MinusCases(r: Block, s: Block)
    requires Aligned(r) && Aligned(s)
    ensures Apart(r, s) ==> Minus(r, s) == [r]
    ensures Inside(r, s) ==> Minus(r, s) == []
    ensures !Apart(r, s) && !Inside(r, s) ==> StrictlyIn(s, r) && Minus(r, s) == SplitBy(r, s)
    ensures StrictlyIn(s, r) ==> !Apart(r, s) && !Inside(r, s)
  {
    RoundDownIs(r.ip, Size(r.prefix));
    assert Size(r.prefix) > 0 && Size(s.prefix) > 0;
    if !Apart(r, s) {
      OverlapNested(r, s);
      if Inside(s, r) {
        InsideSize(s, r);
        if Inside(r, s) { InsideSize(r, s); }
      }
    }
  }

  predicate AllAligned(bs: seq<Block>) { forall i :: 0 <= i < |bs| ==> Aligned(bs[i]) }

  predicate PairwiseApart(bs: seq<Block>)
    requires AllAligned(bs)
  {
    forall i, j :: 0 <= i < j < |bs| ==> Apart(bs[i], bs[j])
  }

  /** Each result block lies in a route it comes from. */
  lemma {:induction false} SubtractFrom(routes: seq<Block>, s: Block, k: nat) returns (i: nat)
    requires AllAligned(routes) && Aligned(s) && k < |Subtract(routes, s)|
    ensures i < |routes| && Subtract(routes, s)[k] in Minus(routes[i], s)
  {
    hide Minus, Size;
    var n := |routes| - 1;
    if k < |Subtract(routes[..n], s)| {
      i := SubtractFrom(routes[..n], s, k);
    } else {
      i := n;
      assert Subtract(routes, s)[k] == Minus(routes[n], s)[k - |Subtract(routes[..n], s)|];
    }
  }

  lemma {:induction false} SubtractHas(routes: seq<Block>, s: Block, i: nat, b: Block)
    requires AllAligned(routes) && Aligned(s) && i < |routes| && b in Minus(routes[i], s)
    ensures b in Subtract(routes, s)
  {
    if i < |routes| - 1 {
      SubtractHas(routes[..|routes| - 1], s, i, b);
    }
  }

  lemma InsideApart(b: Block, r: Block, c: Block, q: Block)
    requires Aligned(b) && Aligned(r) && Aligned(c) && Aligned(q) && Inside(b, r) && Inside(c, q) && Apart(r, q)
    ensures Apart(b, c)
  {
    assert Size(b.prefix) > 0 && Size(c.prefix) > 0;
  }

  lemma FromInside(routes: seq<Block>, s: Block, k: nat) returns (i: nat)
    requires AllAligned(routes) && Aligned(s) && k < |Subtract(routes, s)|
    ensures i < |routes| && Aligned(Subtract(routes, s)[k]) && Inside(Subtract(routes, s)[k], routes[i])
  {
    i := SubtractFrom(routes, s, k);
    MinusExact(routes[i], s);
    var m := Minus(routes[i], s);
    var j :| 0 <= j < |m| && m[j] == Subtract(routes, s)[k];
  }

  /** For any aligned, pairwise disjoint routes the result is aligned and pairwise disjoint ... */
  lemma {:induction false} SubtractApart(routes: seq<Block>, s: Block)
    requires AllAligned(routes) && PairwiseApart(routes) && Aligned(s)
    ensures AllAligned(Subtract(routes, s)) && PairwiseApart(Subtract(routes, s))
  {
    if routes != [] {
      hide Minus, Size;
      var n := |routes| - 1;
      var front, m := Subtract(routes[..n], s), Minus(routes[n], s);
      SubtractApart(routes[..n], s);
      MinusExact(routes[n], s);
      forall i, j | 0 <= i < |front| && 0 <= j < |m|
        ensures Apart(front[i], m[j])
      {
        var k := FromInside(routes[..n], s, i);
        InsideApart(front[i], routes[k], m[j], routes[n]);
      }
      OrderedApart(m);
    }
  }

  lemma OrderedApart(bs: seq<Block>)
    requires Ordered(bs)
    ensures AllAligned(bs) && PairwiseApart(bs)
  {
  }

  /** ... and covers exactly the old addresses that are not in the subtracted block. */
  lemma SubtractExact(routes: seq<Block>, s: Block, a: int)
    requires AllAligned(routes) && Aligned(s)
    ensures Covered(Subtract(routes, s), a) <==> Covered(routes, a) && !Has(s, a)
  {
    hide Minus, Subtract;
    var result := Subtract(routes, s);
    if Covered(result, a) {
      var k :| 0 <= k < |result| && result[k].prefix <= 32 && Has(result[k], a);
      var i := SubtractFrom(routes, s, k);
      MinusExact(routes[i], s);
      var m := Minus(routes[i], s);
      var j :| 0 <= j < |m| && m[j] == result[k];
      assert Covered(m, a);
      assert Has(routes[i], a);
    }
    if Covered(routes, a) && !Has(s, a) {
      var i :| 0 <= i < |routes| && routes[i].prefix <= 32 && Has(routes[i], a);
      MinusExact(routes[i], s);
      var m := Minus(routes[i], s);
      assert Covered(m, a);
      var j :| 0 <= j < |m| && m[j].prefix <= 32 && Has(m[j], a);
      SubtractHas(routes, s, i, m[j]);
      var k :| 0 <= k < |result| && result[k] == m[j];
    }
  }

  lemma {:induction false} SubtractOrdered(routes: seq<Block>, s: Block)
    requires Ordered(routes) && Aligned(s)
    ensures Ordered(Subtract(routes, s))
  {
    hide Minus, Size;
    if routes != [] {
      var n := |routes| - 1;
      var front, m := Subtract(routes[..n], s), Minus(routes[n], s);
      SubtractOrdered(routes[..n], s);
      MinusExact(routes[n], s);
      forall i, j | 0 <= i < |front| && 0 <= j < |m|
        ensures End(front[i]) < m[j].ip
      {
        var k := FromInside(routes[..n], s, i);
        Follows(front[i], routes[k], m[j], routes[n]);
      }
    }
  }

  lemma Follows(b: Block, r: Block, c: Block, q: Block)
    requires Aligned(b) && Aligned(r) && Aligned(c) && Aligned(q) && Inside(b, r) && Inside(c, q) && End(r) < q.ip
    ensures End(b) < c.ip
  {
  }

  // ---------------------------------------------------------------- canonical routes

  const EVERYTHING := Block(0, 0)

  /** Folding subtractCidr over a list of exclusions, starting from 0.0.0.0/0. */
  function Exclude(es: seq<Block>): (r: seq<Block>)
    requires AllAligned(es)
    ensures AllAligned(r)
  {
    if es == [] then
      EverythingAligned();
      [EVERYTHING]
    else
      var before := Exclude(es[..|es| - 1]);
      SubtractAligned(before, es[|es| - 1]);
      Subtract(before, es[|es| - 1])
  }

  lemma EverythingAligned()
    ensures Aligned(EVERYTHING) && Size(0) == ADDRESSES
  {
    Pow2Values();
    ModIs(0, Size(0), 0, 0);
  }

  lemma SubtractAligned(routes: seq<Block>, s: Block)
    requires AllAligned(routes) && Aligned(s)
    ensures AllAligned(Subtract(routes, s))
  {
    forall k | 0 <= k < |Subtract(routes, s)|
      ensures Aligned(Subtract(routes, s)[k])
    {
      var i := FromInside(routes, s, k);
    }
  }

  predicate FreeOf(b: Block, es: seq<Block>)
    requires AllAligned(es) && b.prefix <= 32
  {
    forall i :: 0 <= i < |es| ==> Apart(b, es[i])
  }

  /** An aligned block that avoids every exclusion, while its parent does not. */
  predicate Maximal(b: Block, es: seq<Block>)
    requires AllAligned(es)
  {
    Aligned(b) && FreeOf(b, es) && (b.prefix > 0 ==> !FreeOf(Parent(b), es))
  }

  /** Every free block lies in a maximal one. */
  lemma {:induction false} MaximalAround(b: Block, es: seq<Block>) returns (r: Block)
    requires AllAligned(es) && Aligned(b) && FreeOf(b, es)
    ensures Maximal(r, es) && Inside(b, r)
    decreases b.prefix
  {
    r := b;
    if b.prefix > 0 {
      ParentOf(b);
      if FreeOf(Parent(b), es) {
        r := MaximalAround(Parent(b), es);
      }
    }
  }

  lemma FreeInside(b: Block, r: Block, es: seq<Block>)
    requires AllAligned(es) && Aligned(b) && Aligned(r) && Inside(b, r) && FreeOf(r, es)
    ensures FreeOf(b, es)
  {
    forall i | 0 <= i < |es| ensures Apart(b, es[i]) { InsideApart(b, r, es[i], es[i]); }
  }

  lemma FreeAppend(b: Block, es: seq<Block>, s: Block)
    requires AllAligned(es) && Aligned(s) && b.prefix <= 32
    ensures AllAligned(es + [s]) && (FreeOf(b, es + [s]) <==> FreeOf(b, es) && Apart(b, s))
  {
    assert forall i :: 0 <= i < |es| ==> (es + [s])[i] == es[i];
    assert (es + [s])[|es|] == s;
  }

  /** A result block of the step is maximal for the longer list. */
  lemma StepSound(r: Block, es: seq<Block>, s: Block, b: Block)
    requires AllAligned(es) && Aligned(s) && Maximal(r, es) && b in Minus(r, s)
    ensures AllAligned(es + [s]) && Maximal(b, es + [s])
  {
    hide Minus, Size, Split;
    MinusCases(r, s);
    FreeAppend(b, es, s) by { MinusExact(r, s); var j :| 0 <= j < |Minus(r, s)| && Minus(r, s)[j] == b; }
    if Apart(r, s) {
      if b.prefix > 0 { ParentOf(b); FreeAppend(Parent(b), es, s); }
    } else {
      SplitPieces(r, s);
      var j :| 0 <= j < |SplitBy(r, s)| && SplitBy(r, s)[j] == b;
      assert Piece(b, r, s);
      FreeInside(b, r, es);
      ParentOf(b);
      FreeAppend(Parent(b), es, s);
    }
  }

  /** A maximal block of the longer list comes from the old maximal block around it. */
  lemma StepComplete(r: Block, es: seq<Block>, s: Block, b: Block)
    requires AllAligned(es) && Aligned(s) && AllAligned(es + [s]) && Maximal(b, es + [s])
    requires Maximal(r, es) && Inside(b, r)
    ensures b in Minus(r, s)
  {
    hide Minus, Size, Split;
    FreeAppend(b, es, s);
    MinusCases(r, s);
    InsideSize(b, r);
    if b != r {
      ParentInside(b, r);
      FreeInside(Parent(b), r, es);
      FreeAppend(Parent(b), es, s);
      assert !Apart(Parent(b), s);
    }
    if Apart(r, s) {
      if b != r {
        InsideApart(Parent(b), r, s, s);
        assert false;
      }
    } else {
      assert !Inside(r, s) by {
        if Inside(r, s) { InsideMeets(b, s); }
      }
      assert Piece(b, r, s);
      SplitHasPieces(r, s, b);
    }
  }

  lemma InsideMeets(b: Block, s: Block)
    requires Aligned(b) && Aligned(s)
    ensures Inside(b, s) ==> !Apart(b, s)
  {
    assert Size(b.prefix) > 0;
  }

  /**
    After any list of exclusions the routes are exactly the maximal aligned blocks that
    avoid all of them, in address order.
    */
  lemma {:induction false} Canonical(es: seq<Block>)
    requires AllAligned(es)
    ensures Ordered(Exclude(es))
    ensures forall b :: b in Exclude(es) <==> Maximal(b, es)
  {
    if es == [] {
      EverythingAligned();
      forall b | Maximal(b, es)
        ensures b == EVERYTHING
      {
        if b.prefix > 0 { ParentOf(b); } else { InsideEverything(b); }
      }
    } else {
      var n := |es| - 1;
      var front, s := es[..n], es[n];
      assert front + [s] == es;
      Canonical(front);
      SubtractOrdered(Exclude(front), s);
      forall b
        ensures b in Exclude(es) <==> Maximal(b, es)
      {
        CanonicalStep(front, s, b);
      }
    }
  }

  lemma InsideEverything(b: Block)
    requires Aligned(b) && b.prefix == 0
    ensures b == EVERYTHING
  {
    EverythingAligned();
  }

  lemma CanonicalStep(es: seq<Block>, s: Block, b: Block)
    requires AllAligned(es) && Aligned(s) && AllAligned(es + [s])
    requires forall r :: r in Exclude(es) <==> Maximal(r, es)
    ensures b in Subtract(Exclude(es), s) <==> Maximal(b, es + [s])
  {
    hide Minus, Maximal, Subtract, Exclude;
    var routes := Exclude(es);
    if b in Subtract(routes, s) {
      var k :| 0 <= k < |Subtract(routes, s)| && Subtract(routes, s)[k] == b;
      var i := SubtractFrom(routes, s, k);
      StepSound(routes[i], es, s, b);
    }
    if Maximal(b, es + [s]) {
      MaximalFree(b, es + [s]);
      FreeAppend(b, es, s);
      var r := MaximalAround(b, es);
      StepComplete(r, es, s, b);
      var i :| 0 <= i < |routes| && routes[i] == r;
      SubtractHas(routes, s, i, b);
    }
  }

  lemma MaximalFree(b: Block, es: seq<Block>)
    requires AllAligned(es) && Maximal(b, es)
    ensures Aligned(b) && FreeOf(b, es)
  {
  }

  // ---------------------------------------------------------------- order independence and minimality

  lemma {:induction false} OrderedUnique(xs: seq<Block>, ys: seq<Block>)
    requires Ordered(xs) && Ordered(ys) && forall b :: b in xs <==> b in ys
    ensures xs == ys
  {
    hide Ordered, Elements;
    assert Elements(xs) == Elements(ys);
    NoElements(xs);
    NoElements(ys);
    if xs != [] {
      OrderedTail(xs);
      OrderedTail(ys);
      assert xs[0] in ys && ys[0] in xs;
      SameFirst(xs, ys);
      forall b
        ensures b in xs[1..] <==> b in ys[1..]
      {
        TailMembers(xs, b);
        TailMembers(ys, b);
      }
      OrderedUnique(xs[1..], ys[1..]);
      assert xs == [xs[0]] + xs[1..] && ys == [ys[0]] + ys[1..];
    }
  }

  lemma OrderedTail(xs: seq<Block>)
    requires Ordered(xs) && xs != []
    ensures Ordered(xs[1..])
  {
    hide Aligned;
  }

  lemma SameFirst(xs: seq<Block>, ys: seq<Block>)
    requires Ordered(xs) && Ordered(ys) && xs != [] && ys != [] && xs[0] in ys && ys[0] in xs
    ensures xs[0] == ys[0]
  {
    hide Size;
    var i :| 0 <= i < |ys| && ys[i] == xs[0];
    var j :| 0 <= j < |xs| && xs[j] == ys[0];
    assert i > 0 ==> End(ys[0]) < ys[i].ip;
    assert j > 0 ==> End(xs[0]) < xs[j].ip;
  }

  lemma TailMembers(xs: seq<Block>, b: Block)
    requires Ordered(xs) && xs != []
    ensures b in xs[1..] <==> b in xs && b != xs[0]
  {
    hide Size;
    if b in xs[1..] {
      var i :| 0 <= i < |xs[1..]| && xs[1..][i] == b;
      assert End(xs[0]) < xs[i + 1].ip;
    }
  }

  /** The routes depend only on which blocks are excluded, not on the order or on repetitions. */
  lemma OrderIndependent(es: seq<Block>, fs: seq<Block>)
    requires AllAligned(es) && AllAligned(fs) && forall b :: b in es <==> b in fs
    ensures Exclude(es) == Exclude(fs)
  {
    hide Exclude;
    Canonical(es);
    Canonical(fs);
    forall b ensures Maximal(b, es) <==> Maximal(b, fs)
    {
      if Aligned(b) {
        SameFree(b, es, fs);
        if b.prefix > 0 { ParentOf(b); SameFree(Parent(b), es, fs); }
      }
    }
    OrderedUnique(Exclude(es), Exclude(fs));
  }

  lemma SameFree(b: Block, es: seq<Block>, fs: seq<Block>)
    requires AllAligned(es) && AllAligned(fs) && b.prefix <= 32 && forall c :: c in es <==> c in fs
    ensures FreeOf(b, es) <==> FreeOf(b, fs)
  {
    if FreeOf(b, es) {
      forall i | 0 <= i < |fs| ensures Apart(b, fs[i]) { assert fs[i] in es; }
    }
    if FreeOf(b, fs) {
      forall i | 0 <= i < |es| ensures Apart(b, es[i]) { assert es[i] in fs; }
    }
  }

  ghost predicate Excluded(es: seq<Block>, a: int)
    requires AllAligned(es)
  {
    exists i :: 0 <= i < |es| && Has(es[i], a)
  }

  /** The routes cover exactly the addresses that no exclusion has. */
  lemma {:induction false} ExcludeExact(es: seq<Block>, a: int)
    requires AllAligned(es)
    ensures Covered(Exclude(es), a) <==> 0 <= a < ADDRESSES && !Excluded(es, a)
  {
    hide Size, Covered, Subtract;
    if es == [] {
      EverythingCovers(a);
    } else {
      var n := |es| - 1;
      ExcludeExact(es[..n], a);
      SubtractExact(Exclude(es[..n]), es[n], a);
      ExcludedSplit(es, a);
    }
  }

  lemma EverythingCovers(a: int)
    ensures Covered([EVERYTHING], a) <==> 0 <= a < ADDRESSES
  {
    EverythingAligned();
    assert Has(EVERYTHING, a) <==> 0 <= a < ADDRESSES;
    assert [EVERYTHING][0] == EVERYTHING;
  }

  lemma ExcludedSplit(es: seq<Block>, a: int)
    requires AllAligned(es) && es != []
    ensures Excluded(es, a) <==> Excluded(es[..|es| - 1], a) || Has(es[|es| - 1], a)
  {
    hide Size;
    var n := |es| - 1;
    if Excluded(es, a) {
      var i :| 0 <= i < |es| && Has(es[i], a);
      assert i < n ==> Has(es[..n][i], a);
    }
    if Excluded(es[..n], a) {
      var i :| 0 <= i < n && Has(es[..n][i], a);
      assert Has(es[i], a);
    }
  }

  /** In any other aligned cover of the same addresses, the block at a route's start lies in that route. */
  lemma CoverInside(es: seq<Block>, c: Block, r: Block)
    requires AllAligned(es) && Aligned(c) && Maximal(r, es) && Has(c, r.ip)
    requires forall a :: Has(c, a) ==> !Excluded(es, a)
    ensures Inside(c, r)
  {
    hide Size;
    forall i | 0 <= i < |es|
      ensures Apart(c, es[i])
    {
      SharedAddress(c, es[i]);
    }
    var big := MaximalAround(c, es);
    assert !Apart(big, r);
    OverlapNested(big, r);
    MaximalApart(big, r, es);
  }

  lemma SharedAddress(c: Block, e: Block)
    requires Aligned(c) && Aligned(e)
    ensures !Apart(c, e) ==> exists a :: Has(c, a) && Has(e, a)
  {
    hide Size;
    var a := if c.ip < e.ip then e.ip else c.ip;
    if !Apart(c, e) {
      assert Has(c, a) && Has(e, a);
    }
  }

  lemma MaximalApart(b: Block, r: Block, es: seq<Block>)
    requires AllAligned(es) && Maximal(b, es) && Maximal(r, es) && (Inside(b, r) || Inside(r, b))
    ensures b == r
  {
    hide Size;
    if Inside(b, r) {
      InsideSize(b, r);
      if b != r { ParentInside(b, r); FreeInside(Parent(b), r, es); }
    } else {
      InsideSize(r, b);
      if b != r { ParentInside(r, b); FreeInside(Parent(r), b, es); }
    }
  }

  /** A block of another cover inside the k-th route, at its first address. */
  lemma Covering(es: seq<Block>, cs: seq<Block>, k: nat) returns (i: nat)
    requires AllAligned(es) && AllAligned(cs) && k < |Exclude(es)|
    requires forall a :: Covered(cs, a) <==> 0 <= a < ADDRESSES && !Excluded(es, a)
    ensures i < |cs| && Exclude(es)[k].prefix <= 32 && Has(cs[i], Exclude(es)[k].ip) && Inside(cs[i], Exclude(es)[k])
  {
    hide Exclude, Size, Maximal, Excluded;
    var r := Exclude(es)[k];
    Canonical(es);
    assert r in Exclude(es);
    MaximalFree(r, es);
    assert Covered(Exclude(es), r.ip) by { assert Has(Exclude(es)[k], r.ip) by { assert Size(r.prefix) > 0; } }
    ExcludeExact(es, r.ip);
    i :| 0 <= i < |cs| && cs[i].prefix <= 32 && Has(cs[i], r.ip);
    forall a | Has(cs[i], a) ensures !Excluded(es, a) { assert Covered(cs, a); }
    CoverInside(es, cs[i], r);
  }

  /** For each of the first n routes a block of cs inside it, all different. */
  lemma {:induction false} Chosen(es: seq<Block>, cs: seq<Block>, n: nat) returns (ks: seq<int>)
    requires AllAligned(es) && AllAligned(cs) && n <= |Exclude(es)|
    requires forall a :: Covered(cs, a) <==> 0 <= a < ADDRESSES && !Excluded(es, a)
    ensures |ks| == n && NoDuplicates(ks)
    ensures forall k :: 0 <= k < n ==> 0 <= ks[k] < |cs| && Inside(cs[ks[k]], Exclude(es)[k])
    decreases n
  {
    ks := [];
    if n > 0 {
      hide Exclude, Size, Maximal, Covered, Excluded;
      ks := Chosen(es, cs, n - 1);
      var r := Exclude(es)[n - 1];
      var i := Covering(es, cs, n - 1);
      Canonical(es);
      assert r in Exclude(es);
      forall k | 0 <= k < n - 1
        ensures ks[k] != i
      {
        assert End(Exclude(es)[k]) < r.ip;
        assert Size(cs[i].prefix) > 0;
      }
      ks := ks + [i];
    }
  }

  /** Minimality: no list of aligned blocks covers the same addresses with fewer blocks. */
  lemma Minimal(es: seq<Block>, cs: seq<Block>)
    requires AllAligned(es) && AllAligned(cs)
    requires forall a :: Covered(cs, a) <==> 0 <= a < ADDRESSES && !Excluded(es, a)
    ensures |Exclude(es)| <= |cs|
  {
    var ks := Chosen(es, cs, |Exclude(es)|);
    PigeonHole(ks, |cs|);
  }

  // ---------------------------------------------------------------- applyVpnRoutes

  /** RFC 1918 ranges: 10.0.0.0/8, 172.16.0.0/12, 192.168.0.0/16. */
  const LAN_SUBNETS: seq<Block> := [Block(0x0A00_0000, 8), Block(0xAC10_0000, 12), Block(0xC0A8_0000, 16)]

  /** An exclusion as configured: any address, with a prefix length. */
  predicate Configured(e: Block) { e.ip < ADDRESSES && e.prefix <= 32 }

  /** The aligned blocks that the configured exclusions stand for. */
  function Blocks(es: seq<Block>): (r: seq<Block>)
    requires forall i :: 0 <= i < |es| ==> Configured(es[i])
    ensures AllAligned(r) && |r| == |es|
    ensures forall i :: 0 <= i < |es| ==> Configured(es[i]) && r[i] == BlockOf(es[i].ip, es[i].prefix)
  {
    if es == [] then []
    else
      assert Configured(es[|es| - 1]);
      BlockOfAligned(es[|es| - 1].ip, es[|es| - 1].prefix);
      Blocks(es[..|es| - 1]) + [BlockOf(es[|es| - 1].ip, es[|es| - 1].prefix)]
  }

  /** Subtracting more exclusions from routes that already avoid some. */
  method SubtractAll(routes: seq<Block>, ghost done: seq<Block>, es: seq<Block>) returns (r: seq<Block>)
    requires forall i :: 0 <= i < |es| ==> Configured(es[i])
    requires forall i :: 0 <= i < |done| ==> Configured(done[i])
    requires routes == Exclude(Blocks(done))
    ensures forall i :: 0 <= i < |done + es| ==> Configured((done + es)[i])
    ensures r == Exclude(Blocks(done + es))
  {
    hide Exclude, Subtract, BlockOf;
    r := routes;
    assert done + es[..0] == done;
    for i := 0 to |es|
      invariant forall k :: 0 <= k < |done + es[..i]| ==> Configured((done + es[..i])[k])
      invariant r == Exclude(Blocks(done + es[..i]))
    {
      ghost var d := done + es[..i];
      assert d + [es[i]] == done + es[..i + 1];
      ExcludeNext(d, es[i]);
      AlignedInRange(r);
      r := SubtractCidr(r, es[i].ip, es[i].prefix);
    }
    assert es[..|es|] == es;
  }

  lemma AlignedInRange(bs: seq<Block>)
    requires AllAligned(bs)
    ensures forall i :: 0 <= i < |bs| ==> bs[i].ip < ADDRESSES && bs[i].prefix <= 32
  {
  }

  lemma ExcludeNext(d: seq<Block>, e: Block)
    requires Configured(e) && forall k :: 0 <= k < |d| ==> Configured(d[k])
    ensures forall k :: 0 <= k < |d + [e]| ==> Configured((d + [e])[k])
    ensures Exclude(Blocks(d + [e])) == Subtract(Exclude(Blocks(d)), BlockOf(e.ip, e.prefix))
  {
    var bs := Blocks(d + [e]);
    assert (d + [e])[..|d + [e]| - 1] == d;
    assert bs[..|bs| - 1] == Blocks(d);
  }

  /** The address has the same network part as the exclusion. */
  predicate SamePrefix(e: Block, a: nat) { e.prefix <= 32 && a / Pow2(32 - e.prefix) == e.ip / Pow2(32 - e.prefix) }

  /** Addresses that are not to go through the VPN: private ones when the proxy is shared, and those of the exclusions. */
  ghost predicate KeptOut(share: bool, bypass: seq<Block>, a: nat) {
    (share && PrivateAddress(a)) || exists i :: 0 <= i < |bypass| && SamePrefix(bypass[i], a)
  }

  /** 10.x.x.x, 172.16.x.x to 172.31.x.x, 192.168.x.x */
  predicate PrivateAddress(a: nat) {
    var first, second := a / 0x100_0000, a / 0x1_0000 % 0x100;
    first == 10 || (first == 172 && 16 <= second <= 31) || (first == 192 && second == 168)
  }

  lemma HasIsSamePrefix(e: Block, a: nat)
    requires Configured(e)
    ensures Has(BlockOf(e.ip, e.prefix), a) <==> SamePrefix(e, a)
  {
    hide Pow2;
    var m := Size(e.prefix);
    RoundDownIs(e.ip, m);
    DivMod(e.ip, m);
    DivMod(a, m);
    SameQuotient(a, e.ip, m);
  }

  lemma SameQuotient(a: nat, b: nat, m: nat)
    requires m > 0
    ensures b - b % m <= a <= b - b % m + m - 1 <==> a / m == b / m
  {
    var q, p := b / m, a / m;
    assert b == q * m + b % m && a == p * m + a % m;
    if p < q {
      MulLe(p + 1, q, m);
    } else if q < p {
      MulLe(q + 1, p, m);
    }
  }

  lemma LanIsPrivate(a: nat)
    requires a < ADDRESSES
    ensures (exists i :: 0 <= i < 3 && SamePrefix(LAN_SUBNETS[i], a)) <==> PrivateAddress(a)
  {
    hide Pow2;
    Pow2Values();
    Pow2Add(4, 16);
    assert Pow2(4) == 16 by { Pow2Four(); }
    assert SamePrefix(LAN_SUBNETS[0], a) <==> a / 0x100_0000 == 10;
    assert SamePrefix(LAN_SUBNETS[1], a) <==> a / 0x10_0000 == 172 * 16 + 1;
    assert SamePrefix(LAN_SUBNETS[2], a) <==> a / 0x1_0000 == 192 * 256 + 168;
    Nibbles(a);
  }

  lemma Pow2Four()
    ensures Pow2(4) == 16
  {
  }

  lemma Nibbles(a: nat)
    requires a < ADDRESSES
    ensures a / 0x10_0000 == 172 * 16 + 1 <==> a / 0x100_0000 == 172 && 16 <= a / 0x1_0000 % 0x100 <= 31
    ensures a / 0x1_0000 == 192 * 256 + 168 <==> a / 0x100_0000 == 192 && a / 0x1_0000 % 0x100 == 168
  {
  }

  /** What the exclusions mean for an address. */
  lemma ExcludedMeans(share: bool, bypass: seq<Block>, a: nat)
    requires a < ADDRESSES && forall i :: 0 <= i < |bypass| ==> Configured(bypass[i])
    ensures var es := (if share then LAN_SUBNETS else []) + bypass;
            && (forall i :: 0 <= i < |es| ==> Configured(es[i]))
            && (Excluded(Blocks(es), a) <==> KeptOut(share, bypass, a))
  {
    hide Pow2, BlockOf, PrivateAddress, SamePrefix;
    var lan := if share then LAN_SUBNETS else [];
    var es := lan + bypass;
    LanIsPrivate(a);
    if Excluded(Blocks(es), a) {
      var i :| 0 <= i < |es| && Has(Blocks(es)[i], a);
      HasIsSamePrefix(es[i], a);
      if i < |lan| {
        assert SamePrefix(LAN_SUBNETS[i], a);
      } else {
        assert es[i] == bypass[i - |lan|];
      }
    }
    if share && PrivateAddress(a) {
      var i :| 0 <= i < 3 && SamePrefix(LAN_SUBNETS[i], a);
      assert es[i] == LAN_SUBNETS[i];
      HasIsSamePrefix(es[i], a);
      assert Has(Blocks(es)[i], a);
    }
    if i :| 0 <= i < |bypass| && SamePrefix(bypass[i], a) {
      assert es[|lan| + i] == bypass[i];
      HasIsSamePrefix(es[|lan| + i], a);
      assert Has(Blocks(es)[|lan| + i], a);
    }
  }

  /** The routes of applyVpnRoutes below API 33: exactly the maximal blocks outside all exclusions. */
  method ApplyVpnRoutes(shareProxyOnNetwork: bool, bypassExcludedRoutes: seq<Block>) returns (routes: seq<Block>)
    requires forall i :: 0 <= i < |bypassExcludedRoutes| ==> Configured(bypassExcludedRoutes[i])
    ensures var es := (if shareProxyOnNetwork then LAN_SUBNETS else []) + bypassExcludedRoutes;
            && (forall i :: 0 <= i < |es| ==> Configured(es[i]))
            && Ordered(routes)
            && (forall b :: b in routes <==> Maximal(b, Blocks(es)))
            && (forall a :: Covered(routes, a) <==> 0 <= a < ADDRESSES && !Excluded(Blocks(es), a))
    ensures forall a: nat :: a < 0x1_0000_0000 ==> (Covered(routes, a) <==> !KeptOut(shareProxyOnNetwork, bypassExcludedRoutes, a))
  {
    hide Maximal, Ordered, Excluded, Covered, Subtract, KeptOut;
    routes := [EVERYTHING];
    ghost var done := [];
    if shareProxyOnNetwork {
      routes := SubtractAll(routes, [], LAN_SUBNETS);
      done := LAN_SUBNETS;
      assert [] + LAN_SUBNETS == LAN_SUBNETS;
    }
    routes := SubtractAll(routes, done, bypassExcludedRoutes);
    ghost var es := done + bypassExcludedRoutes;
    Canonical(Blocks(es));
    forall a
      ensures Covered(routes, a) <==> 0 <= a < ADDRESSES && !Excluded(Blocks(es), a)
    {
      ExcludeExact(Blocks(es), a);
    }
    forall a: nat | a < 0x1_0000_0000
      ensures Covered(routes, a) <==> !KeptOut(shareProxyOnNetwork, bypassExcludedRoutes, a)
    {
      ExcludedMeans(shareProxyOnNetwork, bypassExcludedRoutes, a);
    }
  }
}
