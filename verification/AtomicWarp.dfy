/** What an atomic instruction sends to memory, for the whole warp. */
module AtomicWarp {
  import opened Ordered
  import opened Coalescing
  import opened CoalescingTheory
  import opened CoalescingCoverage
  import opened CoalescingModes
  import opened CoalescingOutcome
  import Subwarps
  import opened AtomicCoalescing
  import opened AtomicTheory

  /** The sub-accesses of one half-warp. */
  function Half(w: Instruction, half: nat): seq<Piece>
    requires ValidAtomic(w) && half < 2
  {
    SubwarpFits(w, half);
    Pieces(w, Start(w, half), Start(w, half + 1))
  }

  /** The only sub-access of a lane. */
  function PieceOf(w: Instruction, t: nat): Piece
    requires ValidAtomic(w) && t in w.active
  {
    Piece(t, w.addrs[t][0])
  }

  lemma NextPiece(w: Instruction, lo: nat, t: nat)
    requires ValidAtomic(w) && lo <= t < w.warpSize
    ensures Pieces(w, lo, lo) == []
    ensures Pieces(w, lo, t + 1) == Pieces(w, lo, t) + if t in w.active then [PieceOf(w, t)] else []
  {
    NoLanes(w, lo);
    NextLane(w, lo, t);
    if t in w.active { assert LanePieces(w, t, 1) == [PieceOf(w, t)]; }
  }

  /** The sequence has exactly the sub-accesses of the active lanes in [lo, hi). */
  ghost predicate OfLanes(w: Instruction, ps: seq<Piece>, lo: nat, hi: nat)
    requires ValidAtomic(w)
  {
    && LanesDiffer(ps)
    && (forall p | p in ps :: lo <= p.lane < hi && p.lane in w.active && p == PieceOf(w, p.lane))
    && forall t | t in w.active && lo <= t < hi :: PieceOf(w, t) in ps
  }

  lemma OneMoreOfLanes(w: Instruction, ps: seq<Piece>, lo: nat, t: nat)
    requires ValidAtomic(w) && lo <= t && OfLanes(w, ps, lo, t)
    ensures OfLanes(w, ps + (if t in w.active then [PieceOf(w, t)] else []), lo, t + 1)
  {
    hide Valid;
    if t in w.active {
      OneMoreDiffers(ps, PieceOf(w, t));
    } else {
      assert ps + [] == ps;
    }
  }

  lemma NoneOfLanes(w: Instruction, lo: nat)
    requires ValidAtomic(w)
    ensures OfLanes(w, [], lo, lo)
  {
  }

  lemma {:induction false} PiecesOfLanes(w: Instruction, lo: nat, hi: nat)
    requires ValidAtomic(w) && lo <= hi <= w.warpSize
    ensures OfLanes(w, Pieces(w, lo, hi), lo, hi)
  {
    hide Valid, Pieces, OfLanes, PieceOf;
    if lo == hi {
      NoLanes(w, lo);
      NoneOfLanes(w, lo);
    } else {
      PiecesOfLanes(w, lo, hi - 1);
      NextPiece(w, lo, hi - 1);
      OneMoreOfLanes(w, Pieces(w, lo, hi - 1), lo, hi - 1);
    }
  }

  lemma OneMoreDiffers(ps: seq<Piece>, p: Piece)
    requires LanesDiffer(ps) && forall q | q in ps :: q.lane < p.lane
    ensures LanesDiffer(ps + [p])
  {
    var more := ps + [p];
    forall i, j | 0 <= i < j < |more|
      ensures more[i].lane != more[j].lane
    {
      assert more[i] == ps[i] && ps[i] in ps;
    }
  }

  function HalfSize(w: Instruction): nat {
    w.warpSize / 2
  }

  /** The first lane of the second half-warp. */
  lemma HalfBounds(w: Instruction)
    requires ValidAtomic(w)
    ensures Start(w, 0) == 0 && Start(w, 1) == HalfSize(w) && Start(w, 2) == w.warpSize && Start(w, 1) <= w.warpSize
  {
    StartsAtZero(w);
    SubwarpFits(w, 0);
  }

  lemma HalfPieces(w: Instruction, half: nat)
    requires ValidAtomic(w) && half < 2
    ensures LanesDiffer(Half(w, half)) && Good(w, Half(w, half))
    ensures forall p | p in Half(w, half) :: p.lane in w.active && p == PieceOf(w, p.lane)
    ensures forall t | t in w.active ::
              PieceOf(w, t) in Half(w, half) <==> (if half == 0 then t < HalfSize(w) else t >= HalfSize(w))
  {
    hide Pieces, Start, HalfSize, Good, LanesDiffer;
    HalfBounds(w);
    SubwarpFits(w, half);
    PiecesOfLanes(w, Start(w, half), Start(w, half + 1));
    PiecesGood(w, Start(w, half), Start(w, half + 1));
  }

  /** Each access of a half-warp stands for a group of its lanes; together they name each lane once. */
  lemma HalfExact(w: Instruction, half: nat)
    requires ValidAtomic(w) && half < 2
    ensures LanesOnce(HalfAccesses(w, half)) && Named(HalfAccesses(w, half)) == PieceLanes(Half(w, half))
    ensures forall a | a in HalfAccesses(w, half) :: exists b, q :: ForGroup(w, Half(w, half), b, q, a)
  {
    hide EmitAtomic, CollectAtomic, Pieces, LanesOnce, Named, PieceLanes, ForGroup, LanesDiffer, Good;
    HalfPieces(w, half);
    EmitExactly(w, Half(w, half));
  }

  lemma HalvesSplit(w: Instruction)
    requires ValidAtomic(w)
    ensures PieceLanes(Half(w, 0)) !! PieceLanes(Half(w, 1))
    ensures PieceLanes(Half(w, 0)) + PieceLanes(Half(w, 1)) == w.active
  {
    hide Half, Good, LanesDiffer;
    HalfPieces(w, 0);
    HalfPieces(w, 1);
    forall t | t in w.active
      ensures t in PieceLanes(Half(w, 0)) + PieceLanes(Half(w, 1))
    {
      var p := PieceOf(w, t);
      assert p in Half(w, 0) || p in Half(w, 1);
    }
  }

  /** Each active lane is named by exactly one access. */
  lemma AtomicLanesOnce(w: Instruction)
    requires ValidAtomic(w)
    ensures LanesOnce(AtomicAccesses(w)) && Named(AtomicAccesses(w)) == w.active
  {
    hide HalfAccesses, LanesOnce, Named, PieceLanes, ForGroup, Half;
    HalfExact(w, 0);
    HalfExact(w, 1);
    HalvesSplit(w);
    AppendAccesses(HalfAccesses(w, 0), HalfAccesses(w, 1));
    OnceAppend(HalfAccesses(w, 0), HalfAccesses(w, 1));
  }

  lemma GroupOf(w: Instruction, a: MemAccess) returns (half: nat, b: nat, q: seq<Piece>)
    requires ValidAtomic(w) && a in AtomicAccesses(w)
    ensures half < 2 && ForGroup(w, Half(w, half), b, q, a)
  {
    hide HalfAccesses, ForGroup, Half;
    HalfExact(w, 0);
    HalfExact(w, 1);
    if a in HalfAccesses(w, 0) {
      half := 0;
    } else {
      half := 1;
      assert a in HalfAccesses(w, 1);
    }
    b, q :| ForGroup(w, Half(w, half), b, q, a);
  }

  lemma PieceInGroup(w: Instruction, half: nat, b: nat, q: seq<Piece>, a: MemAccess, t: nat)
    requires ValidAtomic(w) && half < 2 && ForGroup(w, Half(w, half), b, q, a) && t in a.lanes
    ensures t in w.active && PieceOf(w, t) in q
  {
    hide Half, Block, Apart, Good, LanesDiffer;
    HalfPieces(w, half);
    GroupLanes(w, Half(w, half), b, q, a);
    var p :| p in q && p.lane == t;
  }

  /** The bytes of two lanes of one access never overlap. */
  lemma AtomicBytesApart(w: Instruction, a: MemAccess, t: nat, u: nat)
    requires ValidAtomic(w)
    ensures a in AtomicAccesses(w) && t in a.lanes && u in a.lanes && t != u ==>
              && t in w.active && u in w.active
              && Range(w.addrs[t][0], w.dataSize) !! Range(w.addrs[u][0], w.dataSize)
  {
    hide Half, AtomicAccesses, Block, Range, ByteBits;
    if a in AtomicAccesses(w) && t in a.lanes && u in a.lanes && t != u {
      var half, b, q := GroupOf(w, a);
      PieceInGroup(w, half, b, q, a, t);
      PieceInGroup(w, half, b, q, a, u);
      var p, r := PieceOf(w, t), PieceOf(w, u);
      assert Apart(w, p, r) && Block(w, p) == Block(w, r);
      forall x | x in Range(p.addr, w.dataSize)
        ensures x !in Range(r.addr, w.dataSize)
      {
        PieceBit(w, p, x);
        var y: nat := x - Line(b);
        PieceBit(w, p, y);
        PieceBit(w, r, y);
      }
    }
  }

  /** Another lane of the access touches a chunk that keeps it from shrinking to the chunk of lane t. */
  predicate WidenedBy(w: Instruction, a: MemAccess, t: nat)
    requires ValidAtomic(w) && t in w.active && a.lanes <= w.active
  {
    var c := Chunk(w.addrs[t][0]);
    exists u :: u in a.lanes && if c == 1 then Chunk(w.addrs[u][0]) >= 2 else Chunk(w.addrs[u][0]) != c
  }

  lemma LanesActive(w: Instruction, a: MemAccess)
    requires ValidAtomic(w)
    ensures a in AtomicAccesses(w) ==> a.lanes <= w.active
  {
    hide AtomicAccesses, Half;
    if a in AtomicAccesses(w) {
      forall t | t in a.lanes
        ensures t in w.active
      {
        var half, b, q := GroupOf(w, a);
        PieceInGroup(w, half, b, q, a, t);
      }
    }
  }

  lemma WidenedInGroup(w: Instruction, half: nat, b: nat, q: seq<Piece>, a: MemAccess, t: nat)
    requires ValidAtomic(w) && half < 2 && ForGroup(w, Half(w, half), b, q, a) && t in a.lanes
    requires a.lanes <= w.active
    ensures Widened(w, q, PieceOf(w, t)) <==> WidenedBy(w, a, t)
  {
    hide Half, Block, Chunk, Apart, Reduced;
    PieceInGroup(w, half, b, q, a, t);
    GroupLanes(w, Half(w, half), b, q, a);
    HalfPieces(w, half);
    if WidenedBy(w, a, t) {
      var c := Chunk(w.addrs[t][0]);
      var u :| u in a.lanes && if c == 1 then Chunk(w.addrs[u][0]) >= 2 else Chunk(w.addrs[u][0]) != c;
      PieceInGroup(w, half, b, q, a, u);
      assert PieceOf(w, u) in q;
    }
  }

  /** The access that names a lane covers all its bytes exactly if they lie in one 32-byte chunk or
      another lane of the access keeps it wide enough; aligned lanes are always covered. */
  lemma AtomicServed(w: Instruction, a: MemAccess, t: nat)
    requires ValidAtomic(w)
    ensures a in AtomicAccesses(w) && t in a.lanes ==>
              && a.lanes <= w.active
              && (var p := Piece(t, w.addrs[t][0]);
                  && (Serves(w, a, p) <==> InChunk(w, p) || WidenedBy(w, a, t))
                  && (w.addrs[t][0] % w.dataSize == 0 ==> Serves(w, a, p)))
  {
    hide AtomicAccesses, Block, Serves, Half, WidenedBy, Widened, InChunk;
    LanesActive(w, a);
    if a in AtomicAccesses(w) && t in a.lanes {
      var half, b, q := GroupOf(w, a);
      PieceInGroup(w, half, b, q, a, t);
      HalfPieces(w, half);
      ServesExactly(w, q, PieceOf(w, t));
      WidenedInGroup(w, half, b, q, a, t);
      if w.addrs[t][0] % w.dataSize == 0 {
        AlignedInChunk(w, PieceOf(w, t));
      }
    }
  }

  /** The access is for lanes of one half-warp whose data start in the block at `b`; its bytes are
      theirs, and it has the direction and space of the instruction. */
  ghost predicate AtomicPart(w: Instruction, half: nat, b: nat, a: MemAccess)
    requires ValidAtomic(w)
  {
    && IsBlock(w, b) && b <= a.addr && a.addr + a.size <= b + SegmentSize(w.dataSize)
    && a.lanes != {} && a.lanes <= w.active
    && (forall t | t in a.lanes ::
          (if half == 0 then t < w.warpSize / 2 else t >= w.warpSize / 2)
          && b <= w.addrs[t][0] < b + SegmentSize(w.dataSize))
    && (forall x: nat :: x in a.bytes <==>
          exists t :: t in a.lanes && w.addrs[t][0] <= Line(b) + x < w.addrs[t][0] + w.dataSize)
    && a.write == w.write && OfKind(w, a.typ)
  }

  lemma GroupBits(w: Instruction, half: nat, b: nat, q: seq<Piece>, a: MemAccess, x: nat)
    requires ValidAtomic(w) && half < 2 && ForGroup(w, Half(w, half), b, q, a) && a.lanes <= w.active
    ensures x in BitsIn(w, q, b) <==>
            exists t :: t in a.lanes && w.addrs[t][0] <= Line(b) + x < w.addrs[t][0] + w.dataSize
  {
    hide Half, Block, ByteBits, Range, Line, Apart, Reduced;
    HalfPieces(w, half);
    GroupLanes(w, Half(w, half), b, q, a);
    if x in BitsIn(w, q, b) {
      var p :| p in q && Block(w, p) == b && x in ByteBits(p.addr, PieceSize(w));
      PieceBit(w, p, x);
      assert p.lane in a.lanes && p == PieceOf(w, p.lane);
    }
    if t :| t in a.lanes && w.addrs[t][0] <= Line(b) + x < w.addrs[t][0] + w.dataSize {
      PieceInGroup(w, half, b, q, a, t);
      PieceBit(w, PieceOf(w, t), x);
    }
  }

  lemma GroupIsPart(w: Instruction, half: nat, b: nat, q: seq<Piece>, a: MemAccess)
    requires ValidAtomic(w) && half < 2 && ForGroup(w, Half(w, half), b, q, a) && a.lanes <= w.active
    ensures AtomicPart(w, half, b, a)
  {
    hide Half, Block, Line, Apart, Reduced, OfKind;
    HalfPieces(w, half);
    GroupLanes(w, Half(w, half), b, q, a);
    var p := q[0];
    assert p.lane in a.lanes && b in Blocks(w, q);
    SendInBlock(w, q, b, false);
    KindOf(w, Info(w, q, b), b, false);
    BlockIs(w, p, b);
    forall t | t in a.lanes
      ensures (if half == 0 then t < w.warpSize / 2 else t >= w.warpSize / 2)
          && b <= w.addrs[t][0] < b + SegmentSize(w.dataSize)
    {
      PieceInGroup(w, half, b, q, a, t);
      BlockIs(w, PieceOf(w, t), b);
    }
    forall x: nat
      ensures x in a.bytes <==>
              exists t :: t in a.lanes && w.addrs[t][0] <= Line(b) + x < w.addrs[t][0] + w.dataSize
    {
      GroupBits(w, half, b, q, a, x);
    }
  }

  /** The i-th access is for a block of a half-warp; the accesses go by half-warps, and in each by
      ascending blocks. */
  ghost predicate InOrder(w: Instruction, accs: seq<MemAccess>, halves: seq<nat>, blocks: seq<nat>)
    requires ValidAtomic(w)
  {
    && |halves| == |blocks| == |accs|
    && (forall i | 0 <= i < |accs| :: halves[i] < 2 && AtomicPart(w, halves[i], blocks[i], accs[i]))
    && forall i, j | 0 <= i < j < |accs| :: halves[i] < halves[j] || (halves[i] == halves[j] && blocks[i] <= blocks[j])
  }

  ghost predicate StandsFor(w: Instruction, ps: seq<Piece>, b: nat, a: MemAccess) {
    exists q :: ForGroup(w, ps, b, q, a)
  }

  /** Each access stands for a group of pieces of its block; the blocks are among the keys, in order. */
  ghost predicate ForBlocks(w: Instruction, ps: seq<Piece>, keys: seq<nat>, blocks: seq<nat>, accs: seq<MemAccess>) {
    && |blocks| == |accs| && (forall i | 0 <= i < |blocks| :: blocks[i] in keys)
    && (forall i, j | 0 <= i < j < |blocks| :: blocks[i] <= blocks[j])
    && forall i | 0 <= i < |accs| :: StandsFor(w, ps, blocks[i], accs[i])
  }

  function Repeated(b: nat, n: nat): (r: seq<nat>)
    ensures |r| == n && forall i | 0 <= i < n :: r[i] == b
  {
    seq(n, _ => b)
  }

  lemma MoreBlocks(w: Instruction, ps: seq<Piece>, keys: seq<nat>, blocks: seq<nat>, accs: seq<MemAccess>, b: nat,
      g: seq<seq<Piece>>, more: seq<MemAccess>)
    requires ForBlocks(w, ps, keys, blocks, accs) && (forall k | k in keys :: k <= b) && |g| == |more|
    requires forall j | 0 <= j < |more| :: ForGroup(w, ps, b, g[j], more[j])
    ensures ForBlocks(w, ps, keys + [b], blocks + Repeated(b, |more|), accs + more)
  {
    hide ForGroup;
    var blocks', accs' := blocks + Repeated(b, |more|), accs + more;
    forall i | 0 <= i < |blocks'|
      ensures blocks'[i] in keys + [b]
    {
      if i < |blocks| { assert blocks[i] in keys; }
    }
    forall i, j | 0 <= i < j < |blocks'|
      ensures blocks'[i] <= blocks'[j]
    {
      assert i < |blocks| ==> blocks[i] in keys;
    }
    forall i | 0 <= i < |accs'|
      ensures StandsFor(w, ps, blocks'[i], accs'[i])
    {
      if i >= |accs| { assert ForGroup(w, ps, b, g[i - |accs|], more[i - |accs|]); }
    }
  }

  lemma {:induction false} SentInOrder(w: Instruction, ps: seq<Piece>, keys: seq<nat>) returns (blocks: seq<nat>)
    requires LanesDiffer(ps) && Ascending(keys) && forall k | k in keys :: k in CollectAtomic(w, ps)
    ensures ForBlocks(w, ps, keys, blocks, SendLists(w, CollectAtomic(w, ps), keys))
  {
    if keys == [] {
      blocks := [];
    } else {
      var n := |keys| - 1;
      var b, rest := keys[n], keys[..n];
      assert keys == rest + [b];
      hide Block, CollectAtomic, SendList, ForGroup, ForBlocks, LanesDiffer, LanesIn, LanesOnce, Named;
      blocks := SentInOrder(w, ps, rest);
      var g := ListSent(w, ps, b);
      var before, mine := SendLists(w, CollectAtomic(w, ps), rest), SendList(w, List(w, ps, b), b);
      MoreBlocks(w, ps, rest, blocks, before, b, g, mine);
      blocks := blocks + Repeated(b, |mine|);
    }
  }

  lemma HalfSent(w: Instruction, half: nat) returns (blocks: seq<nat>)
    requires ValidAtomic(w) && half < 2
    ensures ForBlocks(w, Half(w, half), Sorted(Blocks(w, Half(w, half))), blocks, HalfAccesses(w, half))
  {
    HalfPieces(w, half);
    hide CollectAtomic, SendLists, Sorted, ForBlocks, LanesDiffer, Good, Pieces;
    CollectedBlocks(w, Half(w, half));
    blocks := SentInOrder(w, Half(w, half), Sorted(Blocks(w, Half(w, half))));
  }

  lemma HalfInOrder(w: Instruction, half: nat) returns (blocks: seq<nat>)
    requires ValidAtomic(w) && half < 2
    requires forall a | a in HalfAccesses(w, half) :: a.lanes <= w.active
    ensures InOrder(w, HalfAccesses(w, half), Repeated(half, |HalfAccesses(w, half)|), blocks)
  {
    hide HalfAccesses, Half, Sorted, Blocks, ForGroup, AtomicPart, Valid;
    blocks := HalfSent(w, half);
    var accs := HalfAccesses(w, half);
    forall i | 0 <= i < |accs|
      ensures AtomicPart(w, half, blocks[i], accs[i])
    {
      var q :| ForGroup(w, Half(w, half), blocks[i], q, accs[i]);
      GroupIsPart(w, half, blocks[i], q, accs[i]);
    }
  }

  /** What an atomic instruction sends, and in which order. */
  lemma AtomicInOrder(w: Instruction) returns (halves: seq<nat>, blocks: seq<nat>)
    requires ValidAtomic(w)
    ensures InOrder(w, AtomicAccesses(w), halves, blocks)
  {
    hide HalfAccesses, AtomicPart;
    var first, second := HalfAccesses(w, 0), HalfAccesses(w, 1);
    forall a: MemAccess | a in first + second
      ensures a.lanes <= w.active
    {
      LanesActive(w, a);
    }
    assert forall a: MemAccess :: a in first || a in second ==> a in first + second;
    var b0 := HalfInOrder(w, 0);
    var b1 := HalfInOrder(w, 1);
    halves := Repeated(0, |first|) + Repeated(1, |second|);
    blocks := b0 + b1;
  }

  // ---------------------------------------------------------------- how many

  /** The most lanes at one address of block `b`, among the first `n` pieces' addresses. */
  function Contention(w: Instruction, ps: seq<Piece>, b: nat, n: nat): nat
    requires n <= |ps|
  {
    if n == 0 then 0
    else
      var c := Contention(w, ps, b, n - 1);
      var lanes := At(ps, ps[n - 1].addr);
      if Block(w, ps[n - 1]) == b && |lanes| > c then |lanes| else c
  }

  lemma {:induction false} ContentionIsMax(w: Instruction, ps: seq<Piece>, b: nat, n: nat)
    requires n <= |ps|
    ensures forall i | 0 <= i < n && Block(w, ps[i]) == b :: |At(ps, ps[i].addr)| <= Contention(w, ps, b, n)
    ensures Contention(w, ps, b, n) > 0 ==>
              exists i :: 0 <= i < n && Block(w, ps[i]) == b && |At(ps, ps[i].addr)| == Contention(w, ps, b, n)
  {
    hide Block, At;
    if n > 0 {
      ContentionIsMax(w, ps, b, n - 1);
      assert Block(w, ps[n - 1]) == b && |At(ps, ps[n - 1].addr)| > Contention(w, ps, b, n - 1)
        ==> |At(ps, ps[n - 1].addr)| == Contention(w, ps, b, n);
    }
  }

  lemma ListIsContention(w: Instruction, ps: seq<Piece>, b: nat)
    requires LanesDiffer(ps) && b in Blocks(w, ps) && PieceSize(w) > 0 && NoPartialOverlap(w, ps)
    ensures |List(w, ps, b)| == Contention(w, ps, b, |ps|)
  {
    FirstFitCount(w, ps, b);
    ContentionIsMax(w, ps, b, |ps|);
    hide Block, List, At, PieceSize;
    var p :| p in ps && Block(w, p) == b && |At(ps, p.addr)| == |List(w, ps, b)|;
    var i :| 0 <= i < |ps| && ps[i] == p;
  }

  /** The contention of the listed blocks, added up. */
  function TotalContention(w: Instruction, ps: seq<Piece>, keys: seq<nat>): nat {
    if keys == [] then 0
    else TotalContention(w, ps, keys[..|keys| - 1]) + Contention(w, ps, keys[|keys| - 1], |ps|)
  }

  lemma {:induction false} SentCount(w: Instruction, ps: seq<Piece>, keys: seq<nat>)
    requires LanesDiffer(ps) && PieceSize(w) > 0 && NoPartialOverlap(w, ps)
    requires forall b | b in keys :: b in CollectAtomic(w, ps)
    ensures |SendLists(w, CollectAtomic(w, ps), keys)| == TotalContention(w, ps, keys)
  {
    if keys != [] {
      var n := |keys| - 1;
      SentCount(w, ps, keys[..n]);
      CollectedBlocks(w, ps);
      ListIsContention(w, ps, keys[n]);
    }
  }

  /** If no two lanes overlap in part, a half-warp sends, for each block, as many accesses as there
      are lanes at the block's most contended address. */
  lemma HalfCount(w: Instruction, half: nat)
    requires ValidAtomic(w) && half < 2 && NoPartialOverlap(w, Half(w, half))
    ensures |HalfAccesses(w, half)| == TotalContention(w, Half(w, half), Sorted(Blocks(w, Half(w, half))))
  {
    HalfPieces(w, half);
    hide Pieces, CollectAtomic, SendLists, Sorted, LanesDiffer, Good, NoPartialOverlap, Blocks;
    CollectedBlocks(w, Half(w, half));
    SentCount(w, Half(w, half), Sorted(Blocks(w, Half(w, half))));
  }

  /** In particular when all active lanes are naturally aligned. */
  lemma AlignedHalfCount(w: Instruction, half: nat)
    requires ValidAtomic(w) && half < 2 && forall t | t in w.active :: w.addrs[t][0] % w.dataSize == 0
    ensures NoPartialOverlap(w, Half(w, half))
    ensures |HalfAccesses(w, half)| == TotalContention(w, Half(w, half), Sorted(Blocks(w, Half(w, half))))
  {
    HalfPieces(w, half);
    hide HalfAccesses, Half, NoPartialOverlap, Good;
    AlignedNoPartialOverlap(w, Half(w, half));
    HalfCount(w, half);
  }
}
