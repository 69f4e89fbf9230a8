/** First fit is exact, and on aligned addresses it uses as few transactions as possible. */
module AtomicTheory {
  import opened Ordered
  import opened Coalescing
  import opened CoalescingTheory
  import opened LineUnits
  import opened CoalescingCoverage
  import opened CoalescingModes
  import opened AtomicCoalescing

  /** Sub-accesses of different lanes. */
  ghost predicate LanesDiffer(ps: seq<Piece>) {
    forall i, j | 0 <= i < j < |ps| :: ps[i].lane != ps[j].lane
  }

  /** No byte in common. */
  predicate Apart(w: Instruction, p: Piece, q: Piece) {
    Bits(w, p) !! Bits(w, q)
  }

  function List(w: Instruction, ps: seq<Piece>, b: nat): seq<Transaction> {
    ListAt(CollectAtomic(w, ps), b)
  }

  lemma ListOfMore(w: Instruction, qs: seq<Piece>, p: Piece, b: nat)
    ensures List(w, qs + [p], b) == if b == Block(w, p) then Place(w, List(w, qs, b), p) else List(w, qs, b)
  {
    hide Place, Block;
    CollectAtomicLast(w, qs, p);
  }

  lemma ConflictWithMore(w: Instruction, info: Transaction, p: Piece, q: Piece)
    ensures Conflicts(w, Touched(w, info, p), q) <==> Conflicts(w, info, q) || !Apart(w, p, q)
  {
    assert Bits(w, p) == ByteBits(p.addr, PieceSize(w));
    hide Bits, ByteBits;
    assert !Apart(w, p, q) ==> exists x :: x in Bits(w, p) && x in Bits(w, q);
  }

  // ---------------------------------------------------------------- exactness

  /** The transactions of block `b` describe groups of its pieces: every piece is in exactly one
      group, and the pieces of a group share no byte. */
  ghost predicate Grouped(w: Instruction, ps: seq<Piece>, b: nat, list: seq<Transaction>, g: seq<seq<Piece>>) {
    && |g| == |list|
    && (forall j | 0 <= j < |g| :: g[j] != [] && list[j] == Info(w, g[j], b))
    && (forall j, p | 0 <= j < |g| && p in g[j] :: p in ps && Block(w, p) == b)
    && (forall p | p in ps && Block(w, p) == b :: exists j :: 0 <= j < |g| && p in g[j])
    && (forall i, j, p | 0 <= i < j < |g| && p in g[i] :: p !in g[j])
    && (forall j, p, q | 0 <= j < |g| && p in g[j] && q in g[j] && p != q :: Apart(w, p, q))
  }

  lemma ApartFromGroup(w: Instruction, q: seq<Piece>, b: nat, p: Piece)
    requires !Conflicts(w, Info(w, q, b), p) && forall r | r in q :: Block(w, r) == b
    ensures forall r | r in q :: Apart(w, r, p) && Apart(w, p, r)
  {
    forall r | r in q
      ensures Apart(w, r, p) && Apart(w, p, r)
    {
      assert Bits(w, r) == ByteBits(r.addr, PieceSize(w));
      hide Bits, ByteBits, Block;
      assert Block(w, r) == b;
      assert forall x | x in Bits(w, r) :: x in BitsIn(w, q, b);
      assert forall x | x in Bits(w, p) :: x !in Info(w, q, b).bytes;
    }
  }

  lemma GroupOfMore(w: Instruction, q: seq<Piece>, b: nat, p: Piece)
    requires Block(w, p) == b
    ensures Info(w, q + [p], b) == Touched(w, Info(w, q, b), p)
  {
    hide Touched;
    OneMore(w, q, p, b);
  }

  lemma EmptyGroup(w: Instruction, b: nat)
    ensures Info(w, [], b) == EMPTY
  {
    hide Block;
  }

  /** Placing one more piece keeps the list grouped. */
  lemma PlaceGrouped(w: Instruction, ps: seq<Piece>, b: nat, list: seq<Transaction>, g: seq<seq<Piece>>, p: Piece)
      returns (h: seq<seq<Piece>>)
    requires Grouped(w, ps, b, list, g) && Block(w, p) == b && p !in ps
    ensures Grouped(w, ps + [p], b, Place(w, list, p), h)
  {
    var j := FirstFit(w, list, p);
    hide Conflicts, Info, Touched, Block, Apart, FirstFit;
    if j == |list| {
      h := g + [[p]];
      EmptyGroup(w, b);
      GroupOfMore(w, [], b, p);
      assert [] + [p] == [p];
    } else {
      h := g[j := g[j] + [p]];
      GroupOfMore(w, g[j], b, p);
      ApartFromGroup(w, g[j], b, p);
    }
    assert forall r :: r in ps + [p] <==> r in ps || r == p;
    forall r | r in ps + [p] && Block(w, r) == b
      ensures exists i :: 0 <= i < |h| && r in h[i]
    {
      if r == p {
        assert p in h[j];
      } else {
        var i :| 0 <= i < |g| && r in g[i];
        assert r in h[i];
      }
    }
  }

  lemma {:induction false} ListGrouped(w: Instruction, ps: seq<Piece>, b: nat) returns (g: seq<seq<Piece>>)
    requires LanesDiffer(ps)
    ensures Grouped(w, ps, b, List(w, ps, b), g)
  {
    if ps == [] {
      g := [];
    } else {
      var qs, p := ps[..|ps| - 1], ps[|ps| - 1];
      assert ps == qs + [p];
      assert p !in qs;
      hide Block, Place, List, Grouped;
      g := ListGrouped(w, qs, b);
      ListOfMore(w, qs, p, b);
      if b == Block(w, p) {
        g := PlaceGrouped(w, qs, b, List(w, qs, b), g, p);
      } else {
        OtherGrouped(w, qs, b, List(w, qs, b), g, p);
      }
    }
  }

  /** A piece of another block changes nothing. */
  lemma OtherGrouped(w: Instruction, qs: seq<Piece>, b: nat, list: seq<Transaction>, g: seq<seq<Piece>>, p: Piece)
    requires Grouped(w, qs, b, list, g) && Block(w, p) != b
    ensures Grouped(w, qs + [p], b, list, g)
  {
    hide Block, Info, Apart;
    assert forall r :: r in qs + [p] <==> r in qs || r == p;
  }

  // ---------------------------------------------------------------- optimality

  /** The sub-accesses at one address. */
  function At(ps: seq<Piece>, addr: nat): set<Piece> {
    set p | p in ps && p.addr == addr
  }

  /** A piece of the block, among those considered. */
  predicate InBlock(w: Instruction, all: seq<Piece>, b: nat, p: Piece) {
    p in all && Block(w, p) == b
  }

  /** Pieces of one block use the same bytes or none in common. */
  ghost predicate NoPartialOverlap(w: Instruction, all: seq<Piece>) {
    forall p, q | p in all && q in all && Block(w, p) == Block(w, q) && p.addr != q.addr :: Apart(w, p, q)
  }

  lemma SameOrApart(w: Instruction, all: seq<Piece>, b: nat, p: Piece, q: Piece)
    requires PieceSize(w) > 0 && NoPartialOverlap(w, all) && InBlock(w, all, b, p) && InBlock(w, all, b, q)
    ensures Apart(w, p, q) <==> p.addr != q.addr
  {
    if p.addr == q.addr { assert p.addr % 128 in Bits(w, p); }
  }

  /** Naturally aligned pieces never overlap in part. */
  lemma AlignedNoPartialOverlap(w: Instruction, all: seq<Piece>)
    requires Good(w, all) && PieceSize(w) > 0 && forall p | p in all :: p.addr % PieceSize(w) == 0
    ensures NoPartialOverlap(w, all)
  {
    hide Block, Bits, WithinSegment;
    forall p, q | p in all && q in all && Block(w, p) == Block(w, q) && p.addr != q.addr
      ensures Apart(w, p, q)
    {
      AlignedApart(w, p, q);
    }
  }

  lemma AlignedApart(w: Instruction, p: Piece, q: Piece)
    requires w.dataSize in {1, 2, 4, 8, 16} && PieceSize(w) > 0 && WithinSegment(w, p.addr) && WithinSegment(w, q.addr)
    requires p.addr % PieceSize(w) == 0 && q.addr % PieceSize(w) == 0 && Block(w, p) == Block(w, q) && p.addr != q.addr
    ensures Apart(w, p, q)
  {
    PieceGeometry(w, p);
    PieceGeometry(w, q);
    DistinctMultiples(p.addr, q.addr, PieceSize(w));
    OffsetsApart(w, p, q);
  }

  lemma OffsetsApart(w: Instruction, p: Piece, q: Piece)
    requires Line(p.addr) == Line(q.addr) && (p.addr + PieceSize(w) <= q.addr || q.addr + PieceSize(w) <= p.addr)
    ensures Apart(w, p, q)
  {
    hide Range;
    assert p.addr % 128 - q.addr % 128 == p.addr - q.addr;
  }

  /** The j-th transaction holds an address exactly if more than j lanes use it. */
  ghost predicate Fills(w: Instruction, all: seq<Piece>, ps: seq<Piece>, b: nat, list: seq<Transaction>) {
    && (forall j, p | 0 <= j < |list| && InBlock(w, all, b, p) :: Conflicts(w, list[j], p) <==> |At(ps, p.addr)| > j)
    && (forall p | InBlock(w, all, b, p) :: |At(ps, p.addr)| <= |list|)
    && (list != [] ==> exists p :: p in ps && Block(w, p) == b && |At(ps, p.addr)| == |list|)
  }

  lemma AtMore(ps: seq<Piece>, p: Piece, addr: nat)
    requires p !in ps
    ensures |At(ps + [p], addr)| == |At(ps, addr)| + if p.addr == addr then 1 else 0
  {
    assert forall r :: r in ps + [p] <==> r in ps || r == p;
    if p.addr == addr {
      assert At(ps + [p], addr) == At(ps, addr) + {p};
    } else {
      assert At(ps + [p], addr) == At(ps, addr);
    }
  }

  lemma FitsAtItsCount(w: Instruction, all: seq<Piece>, ps: seq<Piece>, b: nat, list: seq<Transaction>, p: Piece)
    requires Fills(w, all, ps, b, list) && InBlock(w, all, b, p)
    ensures FirstFit(w, list, p) == |At(ps, p.addr)|
  {
    hide Conflicts, InBlock, At;
    FirstFitIs(w, list, p, |At(ps, p.addr)|);
  }

  lemma PlaceFills(w: Instruction, all: seq<Piece>, ps: seq<Piece>, b: nat, list: seq<Transaction>, p: Piece)
    requires Fills(w, all, ps, b, list) && InBlock(w, all, b, p) && p !in ps && PieceSize(w) > 0
        && NoPartialOverlap(w, all)
    ensures Fills(w, all, ps + [p], b, Place(w, list, p))
  {
    var j := |At(ps, p.addr)|;
    var more := Place(w, list, p);
    FitsAtItsCount(w, all, ps, b, list, p);
    assert forall q :: !Conflicts(w, EMPTY, q);
    hide Conflicts, At, Touched, FirstFit, Block, NoPartialOverlap, PieceSize;
    forall i, q | 0 <= i < |more| && InBlock(w, all, b, q)
      ensures Conflicts(w, more[i], q) <==> |At(ps + [p], q.addr)| > i
    {
      AtMore(ps, p, q.addr);
      SameOrApart(w, all, b, p, q);
      if i == j {
        ConflictWithMore(w, if j == |list| then EMPTY else list[j], p, q);
      }
    }
    forall q | InBlock(w, all, b, q)
      ensures |At(ps + [p], q.addr)| <= |more|
    {
      AtMore(ps, p, q.addr);
    }
    if j == |list| {
      AtMore(ps, p, p.addr);
    } else {
      var q :| q in ps && Block(w, q) == b && |At(ps, q.addr)| == |list|;
      AtMore(ps, p, q.addr);
      assert q in ps + [p] && q.addr != p.addr;
    }
  }

  lemma {:induction false} ListFills(w: Instruction, all: seq<Piece>, ps: seq<Piece>, b: nat)
    requires LanesDiffer(ps) && PieceSize(w) > 0 && NoPartialOverlap(w, all) && forall p | p in ps :: p in all
    ensures Fills(w, all, ps, b, List(w, ps, b))
  {
    if ps == [] {
      assert forall a :: At([], a) == {};
    } else {
      var qs, p := ps[..|ps| - 1], ps[|ps| - 1];
      assert ps == qs + [p];
      hide Block, Place, List, Fills, NoPartialOverlap, PieceSize;
      ListFills(w, all, qs, b);
      ListOfMore(w, qs, p, b);
      if b == Block(w, p) {
        PlaceFills(w, all, qs, b, List(w, qs, b), p);
      } else {
        OtherBlock(w, all, qs, p, b, List(w, qs, b));
      }
    }
  }

  lemma OtherBlock(w: Instruction, all: seq<Piece>, qs: seq<Piece>, p: Piece, b: nat, list: seq<Transaction>)
    requires Fills(w, all, qs, b, list) && Block(w, p) != b && forall r | r in qs :: r in all
    ensures Fills(w, all, qs + [p], b, list)
  {
    hide Conflicts, Block, At;
    forall q | InBlock(w, all, b, q)
      ensures At(qs + [p], q.addr) == At(qs, q.addr)
    {
      SameAddress(w, p, q);
      AtSame(qs, p, q.addr);
    }
    assert forall r :: r in qs ==> r in qs + [p];
  }

  lemma SameAddress(w: Instruction, p: Piece, q: Piece)
    ensures p.addr == q.addr ==> Block(w, p) == Block(w, q)
  {
  }

  lemma AtSame(ps: seq<Piece>, p: Piece, addr: nat)
    requires p.addr != addr
    ensures At(ps + [p], addr) == At(ps, addr)
  {
    assert forall r :: r in ps + [p] <==> r in ps || r == p;
  }

  /** First fit needs, for each block, exactly as many transactions as there are lanes at its most
      contended address. */
  lemma FirstFitCount(w: Instruction, ps: seq<Piece>, b: nat)
    requires LanesDiffer(ps) && PieceSize(w) > 0 && NoPartialOverlap(w, ps)
    ensures forall p | p in ps && Block(w, p) == b :: |At(ps, p.addr)| <= |List(w, ps, b)|
    ensures b in Blocks(w, ps) ==> exists p :: p in ps && Block(w, p) == b && |At(ps, p.addr)| == |List(w, ps, b)|
  {
    ListFills(w, ps, ps, b);
    hide Block, List, PieceSize;
    if b in Blocks(w, ps) {
      var g := ListGrouped(w, ps, b);
      var r :| r in ps && Block(w, r) == b;
      var p :| p in ps && Block(w, p) == b && |At(ps, p.addr)| == |List(w, ps, b)|;
    }
  }

  /** A way to serve the block: groups of pieces without a common byte that hold every piece. */
  ghost predicate Serve(w: Instruction, ps: seq<Piece>, b: nat, g: seq<set<Piece>>) {
    && (forall j, p, q | 0 <= j < |g| && p in g[j] && q in g[j] && p != q :: Apart(w, p, q))
    && (forall p | p in ps && Block(w, p) == b :: exists j :: 0 <= j < |g| && p in g[j])
  }

  ghost predicate AtMostOne<T(!new)>(s: set<T>, part: set<T>) {
    forall x, y | x in s && x in part && y in s && y in part :: x == y
  }

  lemma OneLess<T(!new)>(s: set<T>, part: set<T>)
    requires AtMostOne(s, part)
    ensures |s| <= |s - part| + 1
  {
    if exists x :: x in s && x in part {
      var x :| x in s && x in part;
      assert s == (s - part) + {x};
    } else {
      assert s - part == s;
    }
  }

  lemma {:induction false} Pigeonhole<T(!new)>(s: set<T>, g: seq<set<T>>)
    requires forall j | 0 <= j < |g| :: AtMostOne(s, g[j])
    requires forall x | x in s :: exists j :: 0 <= j < |g| && x in g[j]
    ensures |s| <= |g|
  {
    if g == [] {
      assert s == {};
    } else {
      var rest, last := g[..|g| - 1], g[|g| - 1];
      forall j | 0 <= j < |rest| ensures AtMostOne(s - last, rest[j]) {
        assert AtMostOne(s, g[j]);
      }
      forall x | x in s - last ensures exists j :: 0 <= j < |rest| && x in rest[j] {
        var j :| 0 <= j < |g| && x in g[j];
        assert x in rest[j];
      }
      Pigeonhole(s - last, rest);
      OneLess(s, last);
    }
  }

  /** No way to serve the block takes fewer transactions than first fit. */
  lemma FirstFitOptimal(w: Instruction, ps: seq<Piece>, b: nat, g: seq<set<Piece>>)
    requires LanesDiffer(ps) && PieceSize(w) > 0 && NoPartialOverlap(w, ps)
    requires Serve(w, ps, b, g)
    ensures |List(w, ps, b)| <= |g|
  {
    ListFills(w, ps, ps, b);
    hide Block, List, Apart, PieceSize, NoPartialOverlap;
    if List(w, ps, b) != [] {
      var p :| p in ps && Block(w, p) == b && |At(ps, p.addr)| == |List(w, ps, b)|;
      SharedAddress(w, ps, b, p);
      forall j | 0 <= j < |g| ensures AtMostOne(At(ps, p.addr), g[j]) {
      }
      Pigeonhole(At(ps, p.addr), g);
    }
  }

  lemma SharedAddress(w: Instruction, ps: seq<Piece>, b: nat, p: Piece)
    requires p in ps && Block(w, p) == b && PieceSize(w) > 0 && NoPartialOverlap(w, ps)
    ensures forall q, r | q in At(ps, p.addr) && r in At(ps, p.addr) :: !Apart(w, q, r)
    ensures forall q | q in At(ps, p.addr) :: Block(w, q) == b
  {
    forall q, r | q in At(ps, p.addr) && r in At(ps, p.addr)
      ensures !Apart(w, q, r)
    {
      SameOrApart(w, ps, b, q, r);
    }
  }

  /** Partial overlaps matter: four lanes with words at 0, 9, 3 and 6 fit in two transactions (0 with 6, 3
      with 9), but first fit takes three. */
  lemma UnalignedNotOptimal(w: Instruction, ps: seq<Piece>)
    requires w.dataSize == 4 && w.space == GlobalSpace && |ps| == 4
    requires ps[0] == Piece(0, 0) && ps[1] == Piece(1, 9) && ps[2] == Piece(2, 3) && ps[3] == Piece(3, 6)
    ensures |List(w, ps, 0)| == 3 && Serve(w, ps, 0, [{ps[0], ps[3]}, {ps[1], ps[2]}])
  {
    hide Apart, Block, Serve, List;
    WordsApart(w, ps[0], ps[1]);
    WordsApart(w, ps[0], ps[2]);
    WordsApart(w, ps[1], ps[3]);
    WordsApart(w, ps[2], ps[3]);
    WordsApart(w, ps[0], ps[3]);
    WordsApart(w, ps[1], ps[2]);
    assert ps[..4] == ps;
    OneByOne(w, 0, ps);
    TwoGroups(w, 0, ps);
  }

  lemma WordsApart(w: Instruction, p: Piece, q: Piece)
    requires w.dataSize == 4 && w.space == GlobalSpace && p.addr <= 124 && q.addr <= 124
    ensures Apart(w, p, q) <==> p.addr + 4 <= q.addr || q.addr + 4 <= p.addr
    ensures (Apart(w, q, p) <==> Apart(w, p, q)) && Block(w, p) == 0 && Block(w, q) == 0
  {
    FirstLine(w, p);
    FirstLine(w, q);
    hide Bits, Range, Block;
    if !(p.addr + 4 <= q.addr || q.addr + 4 <= p.addr) {
      var x := if p.addr <= q.addr then q.addr else p.addr;
      assert x in Bits(w, p) && x in Bits(w, q);
    }
  }

  lemma FirstLine(w: Instruction, p: Piece)
    requires w.dataSize == 4 && w.space == GlobalSpace && p.addr <= 124
    ensures Bits(w, p) == Range(p.addr, 4) && Block(w, p) == 0
  {
    hide Range;
    assert p.addr % 128 == p.addr;
  }

  lemma TwoGroups(w: Instruction, b: nat, ps: seq<Piece>)
    requires |ps| == 4 && Apart(w, ps[0], ps[3]) && Apart(w, ps[3], ps[0]) && Apart(w, ps[1], ps[2])
        && Apart(w, ps[2], ps[1])
    ensures Serve(w, ps, b, [{ps[0], ps[3]}, {ps[1], ps[2]}])
  {
    hide Apart, Block;
    var g := [{ps[0], ps[3]}, {ps[1], ps[2]}];
    forall p | p in ps ensures exists j :: 0 <= j < |g| && p in g[j] {
      assert p in g[0] || p in g[1];
    }
  }

  /** The k-th piece goes into the j-th transaction. */
  lemma PlacedAt(w: Instruction, b: nat, ps: seq<Piece>, k: nat, list: seq<Transaction>, j: nat)
    requires k < |ps| && Block(w, ps[k]) == b && List(w, ps[..k], b) == list && j <= |list|
    requires (forall i | 0 <= i < j :: Conflicts(w, list[i], ps[k])) && (j < |list| ==> !Conflicts(w, list[j], ps[k]))
    ensures List(w, ps[..k + 1], b)
         == if j == |list| then list + [Touched(w, EMPTY, ps[k])] else list[j := Touched(w, list[j], ps[k])]
  {
    hide Block, Conflicts, Touched, List;
    assert ps[..k + 1] == ps[..k] + [ps[k]];
    ListOfMore(w, ps[..k], ps[k], b);
    FirstFitIs(w, list, ps[k], j);
  }

  lemma NoneConflicts(w: Instruction, q: Piece)
    ensures !Conflicts(w, EMPTY, q)
  {
  }

  lemma TwoTogether(w: Instruction, b: nat, ps: seq<Piece>) returns (t1: Transaction)
    requires |ps| == 4 && Block(w, ps[0]) == b && Block(w, ps[1]) == b && Apart(w, ps[0], ps[1])
    ensures List(w, ps[..2], b) == [t1]
    ensures forall q :: Conflicts(w, t1, q) <==> !Apart(w, ps[0], q) || !Apart(w, ps[1], q)
  {
    hide Block, Conflicts, Apart, Touched, List, Place, FirstFit;
    var t0 := Touched(w, EMPTY, ps[0]);
    t1 := Touched(w, t0, ps[1]);
    forall q
      ensures Conflicts(w, t0, q) <==> !Apart(w, ps[0], q)
      ensures Conflicts(w, t1, q) <==> !Apart(w, ps[0], q) || !Apart(w, ps[1], q)
    {
      NoneConflicts(w, q);
      ConflictWithMore(w, EMPTY, ps[0], q);
      ConflictWithMore(w, t0, ps[1], q);
    }
    NothingListed(w, ps, b);
    PlacedAt(w, b, ps, 0, [], 0);
    PlacedAt(w, b, ps, 1, [t0], 0);
  }

  lemma NothingListed(w: Instruction, ps: seq<Piece>, b: nat)
    ensures List(w, ps[..0], b) == []
  {
  }

  lemma OneByOne(w: Instruction, b: nat, ps: seq<Piece>)
    requires |ps| == 4 && forall k | 0 <= k < 4 :: Block(w, ps[k]) == b
    requires Apart(w, ps[0], ps[1]) && !Apart(w, ps[0], ps[2]) && !Apart(w, ps[1], ps[3]) && !Apart(w, ps[2], ps[3])
    ensures |List(w, ps[..4], b)| == 3
  {
    hide Block, Conflicts, Apart, Touched, List, Place, FirstFit;
    var t1 := TwoTogether(w, b, ps);
    var t2 := Touched(w, EMPTY, ps[2]);
    PlacedAt(w, b, ps, 2, [t1], 1);
    ConflictWithMore(w, EMPTY, ps[2], ps[3]);
    PlacedAt(w, b, ps, 3, [t1, t2], 2);
  }

  // ---------------------------------------------------------------- the accesses of a warp

  /** No lane is named by two accesses. */
  ghost predicate LanesOnce(accs: seq<MemAccess>) {
    forall i, j | 0 <= i < j < |accs| :: accs[i].lanes !! accs[j].lanes
  }

  lemma OnceAppend(a: seq<MemAccess>, b: seq<MemAccess>)
    requires LanesOnce(a) && LanesOnce(b) && Named(a) !! Named(b)
    ensures LanesOnce(a + b)
  {
    forall i, j | 0 <= i < j < |a + b|
      ensures (a + b)[i].lanes !! (a + b)[j].lanes
    {
      if i < |a| <= j {
        assert (a + b)[i] == a[i] && (a + b)[j] == b[j - |a|];
        assert a[i].lanes <= Named(a) && b[j - |a|].lanes <= Named(b);
      }
    }
  }

  lemma SameLaneSamePiece(ps: seq<Piece>, p: Piece, q: Piece)
    requires LanesDiffer(ps) && p in ps && q in ps && p.lane == q.lane
    ensures p == q
  {
    var i, j :| 0 <= i < |ps| && 0 <= j < |ps| && ps[i] == p && ps[j] == q;
  }

  /** What an access of the half-warp stands for: a group of pieces of one block without common bytes. */
  ghost predicate ForGroup(w: Instruction, ps: seq<Piece>, b: nat, q: seq<Piece>, a: MemAccess) {
    && q != [] && a == Reduced(w, Info(w, q, b), b)
    && (forall p | p in q :: p in ps && Block(w, p) == b)
    && (forall p, r | p in q && r in q && p != r :: Apart(w, p, r))
  }

  lemma GroupLanes(w: Instruction, ps: seq<Piece>, b: nat, q: seq<Piece>, a: MemAccess)
    requires ForGroup(w, ps, b, q, a)
    ensures a.lanes == PieceLanes(q) && a.lanes <= LanesIn(w, ps, b)
  {
    hide Block, Apart;
  }

  /** The accesses of one block. */
  lemma ListSent(w: Instruction, ps: seq<Piece>, b: nat) returns (g: seq<seq<Piece>>)
    requires LanesDiffer(ps)
    ensures var accs := SendList(w, List(w, ps, b), b);
            && LanesOnce(accs) && Named(accs) == LanesIn(w, ps, b)
            && |g| == |accs| && (forall j | 0 <= j < |accs| :: ForGroup(w, ps, b, g[j], accs[j]))
            && (forall p | p in ps && Block(w, p) == b :: exists j :: 0 <= j < |g| && p in g[j])
  {
    g := ListGrouped(w, ps, b);
    var accs := SendList(w, List(w, ps, b), b);
    hide Block, List, Reduced, Info, Apart;
    forall j | 0 <= j < |accs|
      ensures accs[j].lanes == PieceLanes(g[j]) && accs[j].lanes <= LanesIn(w, ps, b)
    {
      GroupLanes(w, ps, b, g[j], accs[j]);
    }
    GroupsOnce(w, ps, b, g, accs);
    NamedByGroups(w, ps, b, g, accs);
  }

  lemma NamedByGroups(w: Instruction, ps: seq<Piece>, b: nat, g: seq<seq<Piece>>, accs: seq<MemAccess>)
    requires |accs| == |g| && forall j | 0 <= j < |accs| ::
        accs[j].lanes == PieceLanes(g[j]) && accs[j].lanes <= LanesIn(w, ps, b)
    requires forall p | p in ps && Block(w, p) == b :: exists j :: 0 <= j < |g| && p in g[j]
    ensures Named(accs) == LanesIn(w, ps, b)
  {
    hide Block;
    forall t | t in LanesIn(w, ps, b)
      ensures t in Named(accs)
    {
      var p :| p in ps && Block(w, p) == b && p.lane == t;
      var j :| 0 <= j < |g| && p in g[j];
      assert accs[j] in accs && t in accs[j].lanes;
    }
  }

  lemma GroupsOnce(w: Instruction, ps: seq<Piece>, b: nat, g: seq<seq<Piece>>, accs: seq<MemAccess>)
    requires LanesDiffer(ps) && Grouped(w, ps, b, List(w, ps, b), g) && |accs| == |g|
    requires forall j | 0 <= j < |accs| :: accs[j].lanes == PieceLanes(g[j])
    ensures LanesOnce(accs)
  {
    hide Block, List, Info, Apart;
    forall i, j | 0 <= i < j < |accs|
      ensures accs[i].lanes !! accs[j].lanes
    {
      forall t | t in accs[i].lanes ensures t !in accs[j].lanes {
        var p :| p in g[i] && p.lane == t;
        if t in accs[j].lanes {
          var r :| r in g[j] && r.lane == t;
          SameLaneSamePiece(ps, p, r);
          assert false;
        }
      }
    }
  }

  lemma {:induction false} CollectedBlocks(w: Instruction, ps: seq<Piece>)
    ensures CollectAtomic(w, ps).Keys == Blocks(w, ps)
  {
    hide Block, Place;
    if ps != [] {
      var qs, p := ps[..|ps| - 1], ps[|ps| - 1];
      assert ps == qs + [p];
      CollectedBlocks(w, qs);
      BlocksOfMore(w, qs, p);
    }
  }

  /** The lanes with a piece in one of the listed blocks. */
  function LanesOf(w: Instruction, ps: seq<Piece>, keys: seq<nat>): set<nat> {
    set p | p in ps && Block(w, p) in keys :: p.lane
  }

  /** Accesses that name each lane of the listed blocks once and stand for groups without common bytes. */
  ghost predicate Exact(w: Instruction, ps: seq<Piece>, keys: seq<nat>, accs: seq<MemAccess>) {
    && LanesOnce(accs) && Named(accs) == LanesOf(w, ps, keys)
    && forall a | a in accs :: exists b, q :: ForGroup(w, ps, b, q, a)
  }

  lemma ExactAppend(w: Instruction, ps: seq<Piece>, keys: seq<nat>, accs: seq<MemAccess>, b: nat)
    requires LanesDiffer(ps) && Exact(w, ps, keys, accs) && b !in keys
    ensures Exact(w, ps, keys + [b], accs + SendList(w, List(w, ps, b), b))
  {
    hide Block, List, Reduced, LanesOnce, Apart, SendList;
    var more := SendList(w, List(w, ps, b), b);
    var g := ListSent(w, ps, b);
    LanesOfMore(w, ps, keys, b);
    AppendAccesses(accs, more);
    OnceAppend(accs, more);
    forall a | a in accs + more
      ensures exists c, q :: ForGroup(w, ps, c, q, a)
    {
      if a !in accs {
        var j :| 0 <= j < |more| && more[j] == a;
        assert ForGroup(w, ps, b, g[j], a);
      }
    }
  }

  lemma LanesOfMore(w: Instruction, ps: seq<Piece>, keys: seq<nat>, b: nat)
    requires LanesDiffer(ps) && b !in keys
    ensures LanesOf(w, ps, keys + [b]) == LanesOf(w, ps, keys) + LanesIn(w, ps, b)
    ensures LanesOf(w, ps, keys) !! LanesIn(w, ps, b)
  {
    hide Block;
    forall t | t in LanesOf(w, ps, keys)
      ensures t !in LanesIn(w, ps, b)
    {
      var p :| p in ps && Block(w, p) in keys && p.lane == t;
      if t in LanesIn(w, ps, b) {
        var r :| r in ps && Block(w, r) == b && r.lane == t;
        SameLaneSamePiece(ps, p, r);
        assert false;
      }
    }
  }

  lemma {:induction false} SendListsExact(w: Instruction, ps: seq<Piece>, keys: seq<nat>)
    requires LanesDiffer(ps) && (forall k | k in keys :: k in CollectAtomic(w, ps))
    requires forall i, j | 0 <= i < j < |keys| :: keys[i] != keys[j]
    ensures Exact(w, ps, keys, SendLists(w, CollectAtomic(w, ps), keys))
  {
    hide Block, CollectAtomic, SendList, Exact, LanesDiffer;
    if keys == [] {
      assert Exact(w, ps, [], []) by { NothingExact(w, ps); }
    } else {
      var n := |keys| - 1;
      SendListsExact(w, ps, keys[..n]);
      ExactAppend(w, ps, keys[..n], SendLists(w, CollectAtomic(w, ps), keys[..n]), keys[n]);
      assert keys[..n] + [keys[n]] == keys;
    }
  }

  lemma NothingExact(w: Instruction, ps: seq<Piece>)
    ensures Exact(w, ps, [], [])
  {
  }

  lemma EmitExactly(w: Instruction, ps: seq<Piece>)
    requires LanesDiffer(ps)
    ensures var accs := EmitAtomic(w, CollectAtomic(w, ps));
            LanesOnce(accs) && Named(accs) == PieceLanes(ps)
            && forall a | a in accs :: exists b, q :: ForGroup(w, ps, b, q, a)
  {
    hide LanesOnce, LanesDiffer, ForGroup, CollectAtomic, SendLists, Sorted, Named;
    CollectedBlocks(w, ps);
    var keys := Sorted(Blocks(w, ps));
    SendListsExact(w, ps, keys);
    AllBlocks(w, ps, keys);
  }

  lemma AllBlocks(w: Instruction, ps: seq<Piece>, keys: seq<nat>)
    requires forall b | b in Blocks(w, ps) :: b in keys
    ensures LanesOf(w, ps, keys) == PieceLanes(ps)
  {
    hide Block;
    forall p | p in ps ensures Block(w, p) in keys {
      assert Block(w, p) in Blocks(w, ps);
    }
  }
}
