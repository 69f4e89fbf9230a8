/**
 What a warp instruction sends to memory, in terms of its lanes and addresses: the warp is cut into
 ranges of lanes, and each range sends one access for each block that its lanes touch.
 */
module CoalescingOutcome {
  import opened Ordered
  import opened LineUnits
  import opened Coalescing
  import opened CoalescingTheory
  import opened CoalescingCoverage
  import opened CoalescingModes
  import Subwarps

  // ---------------------------------------------------------------- what is asked for

  /** Local accesses are split into words of four bytes, global ones are not split; the sub-accesses
      of a lane add up to its data. */
  lemma PiecesAddUp(w: Instruction)
    requires w.dataSize in {1, 2, 4, 8, 16}
    ensures PieceCount(w) * PieceSize(w) == w.dataSize
    ensures w.space == GlobalSpace ==> PieceCount(w) == 1
    ensures w.space != GlobalSpace ==> PieceSize(w) == if w.dataSize > 4 then 4 else w.dataSize
  {
  }

  /** The start of a segment. */
  predicate IsBlock(w: Instruction, b: nat) {
    b % SegmentSize(w.dataSize) == 0
  }

  /** Sub-access `k` of lane `t` starts in the block at `b`. */
  ghost predicate StartsIn(w: Instruction, t: nat, k: nat, b: nat)
    requires Valid(w)
  {
    t in w.active && k < PieceCount(w) && b <= w.addrs[t][k] < b + SegmentSize(w.dataSize)
  }

  ghost predicate Reaches(w: Instruction, t: nat, b: nat)
    requires Valid(w)
  {
    exists k: nat :: StartsIn(w, t, k, b)
  }

  /** Lane `t` asks for the byte at `y`, in a sub-access that starts in the block. */
  ghost predicate Asks(w: Instruction, t: nat, b: nat, y: nat)
    requires Valid(w)
  {
    exists k: nat :: StartsIn(w, t, k, b) && w.addrs[t][k] <= y < w.addrs[t][k] + PieceSize(w)
  }

  // ---------------------------------------------------------------- what is sent

  /** The kind of access that a load or store of this space makes. */
  predicate OfKind(w: Instruction, typ: AccessType) {
    match typ
    case GlobalRead => w.space == GlobalSpace && !w.write
    case GlobalWrite => w.space == GlobalSpace && w.write
    case LocalRead => w.space != GlobalSpace && !w.write
    case LocalWrite => w.space != GlobalSpace && w.write
  }

  /** The access stands for the lanes of [lo, hi) that touch the block, and for the bytes they ask for. */
  ghost predicate Exact(w: Instruction, lo: nat, hi: nat, b: nat, a: MemAccess)
    requires Valid(w)
  {
    && IsBlock(w, b)
    && a.lanes != {} && (forall t :: t in a.lanes <==> lo <= t < hi && Reaches(w, t, b))
    && (forall x: nat :: x in a.bytes <==> exists t :: t in a.lanes && Asks(w, t, b, Line(b) + x))
    && a.write == w.write && OfKind(w, a.typ)
  }

  /** The range contains the 32-byte chunk in which each sub-access of the block starts. */
  ghost predicate CoversStarts(w: Instruction, lo: nat, hi: nat, b: nat, addr: nat, size: nat)
    requires Valid(w)
  {
    forall t: nat, k: nat | lo <= t < hi && StartsIn(w, t, k, b) ::
      addr <= w.addrs[t][k] - w.addrs[t][k] % 32 && w.addrs[t][k] - w.addrs[t][k] % 32 + 32 <= addr + size
  }

  /** The least aligned range in the block that does so. */
  ghost predicate Tight(w: Instruction, lo: nat, hi: nat, b: nat, addr: nat, size: nat)
    requires Valid(w)
  {
    && Aligned(w, addr, size) && b <= addr && addr + size <= b + SegmentSize(w.dataSize)
    && CoversStarts(w, lo, hi, b, addr, size)
    && forall addr': nat, size': nat | Aligned(w, addr', size') && CoversStarts(w, lo, hi, b, addr', size') ::
         size <= size' && (size == size' ==> addr == addr')
  }

  /** The lanes of [lo, hi) send one access for each block that one of them touches, in address order:
      the whole block, or the least part of it. */
  ghost predicate OnePerBlock(w: Instruction, lo: nat, hi: nat, whole: bool, blocks: seq<nat>, accs: seq<MemAccess>)
    requires Valid(w)
  {
    && |blocks| == |accs| && Ascending(blocks)
    && (forall t: nat, k: nat, b: nat | lo <= t < hi && StartsIn(w, t, k, b) && IsBlock(w, b) :: b in blocks)
    && forall i | 0 <= i < |accs| ::
         && Exact(w, lo, hi, blocks[i], accs[i])
         && if whole then accs[i].addr == blocks[i] && accs[i].size == SegmentSize(w.dataSize)
            else Tight(w, lo, hi, blocks[i], accs[i].addr, accs[i].size)
  }

  ghost predicate SendsRange(w: Instruction, lo: nat, hi: nat, whole: bool, accs: seq<MemAccess>)
    requires Valid(w)
  {
    exists blocks :: OnePerBlock(w, lo, hi, whole, blocks, accs)
  }

  /** The accesses of the first `n` ranges of `size` lanes each. */
  ghost predicate ByRanges(w: Instruction, n: nat, size: nat, whole: bool, accs: seq<MemAccess>)
    requires Valid(w)
  {
    if n == 0 then accs == []
    else
      exists m: nat :: m <= |accs| &&
        ByRanges(w, n - 1, size, whole, accs[..m]) && SendsRange(w, (n - 1) * size, n * size, whole, accs[m..])
  }

  // ---------------------------------------------------------------- pieces

  /** The pieces of a range are the sub-accesses of its lanes. */
  lemma {:induction false} PiecesFrom(w: Instruction, lo: nat, hi: nat, p: Piece) returns (k: nat)
    requires Valid(w) && lo <= hi <= w.warpSize && p in Pieces(w, lo, hi)
    ensures IsPiece(w, p, k) && lo <= p.lane < hi
  {
    hide Valid, Pieces, LastPieces, IsPiece;
    if lo == hi {
      NoLanes(w, lo);
      assert false;
    } else {
      PiecesNext(w, lo, hi - 1);
      if p in Pieces(w, lo, hi - 1) {
        k := PiecesFrom(w, lo, hi - 1, p);
      } else {
        k := LastFrom(w, hi - 1, p);
      }
    }
  }

  lemma LastFrom(w: Instruction, t: nat, p: Piece) returns (k: nat)
    requires Valid(w) && t < w.warpSize && p in LastPieces(w, t)
    ensures IsPiece(w, p, k) && p.lane == t
  {
    var ps := LanePieces(w, t, PieceCount(w));
    k :| 0 <= k < |ps| && ps[k] == p;
  }

  lemma BlockIs(w: Instruction, p: Piece, b: nat)
    requires w.dataSize in {1, 2, 4, 8, 16} && WithinSegment(w, p.addr)
    ensures Block(w, p) == b <==> IsBlock(w, b) && b <= p.addr < b + SegmentSize(w.dataSize)
  {
    hide Block, WithinSegment, SegmentSize, PieceSize;
    PieceGeometry(w, p);
    SizeKnown(w);
    if b % SegmentSize(w.dataSize) == 0 && b <= p.addr < b + SegmentSize(w.dataSize) && b != Block(w, p) {
      SegmentsDisjoint(w, b, Block(w, p), p.addr);
    }
  }

  lemma BlockAligned(w: Instruction, ps: seq<Piece>, b: nat)
    requires Good(w, ps) && b in Blocks(w, ps)
    ensures IsBlock(w, b)
  {
    hide Blocks, ChunksIn, ChunksFit;
    ChunksOfBlock(w, ps, b);
  }

  lemma SizeKnown(w: Instruction)
    requires w.dataSize in {1, 2, 4, 8, 16}
    ensures PieceSize(w) > 0 && SegmentSize(w.dataSize) > 0
  {
  }

  /** `p` is a sub-access of a lane of [lo, hi) that starts in the block. */
  lemma InBlock(w: Instruction, lo: nat, hi: nat, b: nat, t: nat, k: nat)
    requires Valid(w) && lo <= hi <= w.warpSize && IsBlock(w, b)
    ensures lo <= t < hi && StartsIn(w, t, k, b) ==>
              var p := Piece(t, w.addrs[t][k]); p in Pieces(w, lo, hi) && Block(w, p) == b
  {
    if lo <= t < hi && StartsIn(w, t, k, b) {
      var p := Piece(t, w.addrs[t][k]);
      PiecesHave(w, lo, hi, p, k);
      BlockIs(w, p, b);
    }
  }

  lemma FromBlock(w: Instruction, lo: nat, hi: nat, p: Piece) returns (k: nat)
    requires Valid(w) && lo <= hi <= w.warpSize && p in Pieces(w, lo, hi)
    ensures StartsIn(w, p.lane, k, Block(w, p)) && p.addr == w.addrs[p.lane][k] && lo <= p.lane < hi
  {
    k := PiecesFrom(w, lo, hi, p);
    hide Pieces, Block;
    BlockIs(w, p, Block(w, p));
  }

  // ---------------------------------------------------------------- one access

  lemma LanesOf(w: Instruction, lo: nat, hi: nat, b: nat)
    requires Valid(w) && lo <= hi <= w.warpSize && IsBlock(w, b)
    ensures forall t :: t in LanesIn(w, Pieces(w, lo, hi), b) <==> lo <= t < hi && Reaches(w, t, b)
  {
    hide Pieces, Block, StartsIn;
    var ps := Pieces(w, lo, hi);
    forall t | t in LanesIn(w, ps, b)
      ensures lo <= t < hi && Reaches(w, t, b)
    {
      var p :| p in ps && Block(w, p) == b && p.lane == t;
      var k := FromBlock(w, lo, hi, p);
    }
    forall t: nat | lo <= t < hi && Reaches(w, t, b)
      ensures t in LanesIn(w, ps, b)
    {
      var k: nat :| StartsIn(w, t, k, b);
      InBlock(w, lo, hi, b, t, k);
    }
  }

  /** A bit of the mask stands for a byte that one of the lanes asks for. */
  lemma BitAskedBy(w: Instruction, lo: nat, hi: nat, b: nat, x: nat) returns (t: nat)
    requires Valid(w) && lo <= hi <= w.warpSize && x in BitsIn(w, Pieces(w, lo, hi), b)
    ensures lo <= t < hi && Asks(w, t, b, Line(b) + x)
  {
    hide Pieces, Block, StartsIn, Line, Range, ByteBits;
    var p :| p in Pieces(w, lo, hi) && Block(w, p) == b && x in ByteBits(p.addr, PieceSize(w));
    var k := FromBlock(w, lo, hi, p);
    FromBlockFits(w, p.lane, k, b);
    PieceBit(w, p, x);
    t := p.lane;
  }

  lemma FromBlockFits(w: Instruction, t: nat, k: nat, b: nat)
    requires Valid(w) && StartsIn(w, t, k, b)
    ensures WithinSegment(w, w.addrs[t][k])
  {
  }

  lemma AskedIsBit(w: Instruction, lo: nat, hi: nat, b: nat, t: nat, x: nat)
    requires Valid(w) && lo <= t < hi <= w.warpSize && IsBlock(w, b)
    requires Asks(w, t, b, Line(b) + x)
    ensures x in BitsIn(w, Pieces(w, lo, hi), b)
  {
    hide Pieces, Block, Line, Range, ByteBits, WithinSegment;
    var k: nat :| StartsIn(w, t, k, b) && w.addrs[t][k] <= Line(b) + x < w.addrs[t][k] + PieceSize(w);
    InBlock(w, lo, hi, b, t, k);
    FromBlockFits(w, t, k, b);
    PieceBit(w, Piece(t, w.addrs[t][k]), x);
  }

  lemma KindOf(w: Instruction, info: Transaction, b: nat, whole: bool)
    ensures var a := Send(w, info, b, whole); a.write == w.write && OfKind(w, a.typ)
  {
  }

  lemma BitsExact(w: Instruction, lo: nat, hi: nat, b: nat, x: nat)
    requires Valid(w) && lo <= hi <= w.warpSize && IsBlock(w, b)
    ensures x in BitsIn(w, Pieces(w, lo, hi), b)
       <==> exists t :: t in LanesIn(w, Pieces(w, lo, hi), b) && Asks(w, t, b, Line(b) + x)
  {
    hide Pieces, Line, BitsIn, LanesIn, Reaches, Asks, Valid;
    LanesOf(w, lo, hi, b);
    if x in BitsIn(w, Pieces(w, lo, hi), b) {
      var t := BitAskedBy(w, lo, hi, b, x);
      AsksReaches(w, t, b, Line(b) + x);
    }
    if t :| t in LanesIn(w, Pieces(w, lo, hi), b) && Asks(w, t, b, Line(b) + x) {
      AskedIsBit(w, lo, hi, b, t, x);
    }
  }

  lemma BlockHasLane(w: Instruction, ps: seq<Piece>, b: nat)
    requires b in Blocks(w, ps)
    ensures LanesIn(w, ps, b) != {}
  {
    hide Block;
    var p :| p in ps && Block(w, p) == b;
    assert p.lane in LanesIn(w, ps, b);
  }

  /** What the access for a block has from its transaction. */
  lemma SentInfo(w: Instruction, lo: nat, hi: nat, b: nat, whole: bool)
    requires Valid(w) && lo <= hi <= w.warpSize && b in Blocks(w, Pieces(w, lo, hi))
    ensures IsBlock(w, b)
    ensures var a := Send(w, Info(w, Pieces(w, lo, hi), b), b, whole);
            a.bytes == BitsIn(w, Pieces(w, lo, hi), b) && a.lanes == LanesIn(w, Pieces(w, lo, hi), b)
  {
    hide Pieces, Blocks, BitsIn, LanesIn, ChunksIn, Good, Line, Send, SegmentSize, IsBlock, Valid;
    PiecesGood(w, lo, hi);
    BlockAligned(w, Pieces(w, lo, hi), b);
    SendInBlock(w, Pieces(w, lo, hi), b, whole);
  }

  lemma SentIsExact(w: Instruction, lo: nat, hi: nat, b: nat, whole: bool)
    requires Valid(w) && lo <= hi <= w.warpSize && b in Blocks(w, Pieces(w, lo, hi))
    ensures Exact(w, lo, hi, b, Send(w, Info(w, Pieces(w, lo, hi), b), b, whole))
  {
    var ps := Pieces(w, lo, hi);
    hide Pieces, Blocks, BitsIn, LanesIn, ChunksIn, Line, Send, OfKind, Reaches, Asks, SegmentSize, IsBlock, Valid;
    SentInfo(w, lo, hi, b, whole);
    BlockHasLane(w, ps, b);
    KindOf(w, Info(w, ps, b), b, whole);
    LanesOf(w, lo, hi, b);
    AllBitsExact(w, lo, hi, b);
  }

  lemma AllBitsExact(w: Instruction, lo: nat, hi: nat, b: nat)
    requires Valid(w) && lo <= hi <= w.warpSize && IsBlock(w, b)
    ensures forall x: nat ::
              x in BitsIn(w, Pieces(w, lo, hi), b) <==>
              exists t :: t in LanesIn(w, Pieces(w, lo, hi), b) && Asks(w, t, b, Line(b) + x)
  {
    hide Pieces, BitsIn, LanesIn, Asks, Line, IsBlock, Valid;
    forall x: nat
      ensures x in BitsIn(w, Pieces(w, lo, hi), b)
         <==> exists t :: t in LanesIn(w, Pieces(w, lo, hi), b) && Asks(w, t, b, Line(b) + x)
    {
      BitsExact(w, lo, hi, b, x);
    }
  }

  lemma AsksReaches(w: Instruction, t: nat, b: nat, y: nat)
    requires Valid(w) && Asks(w, t, b, y)
    ensures Reaches(w, t, b)
  {
  }

  lemma ChunkStart(addr: nat)
    ensures Line(addr) + 32 * Chunk(addr) == addr - addr % 32
  {
    var q, c, d := Split(addr);
    Joined(addr, q, c, d);
    LineOf(addr, q, c, d);
  }

  /** Covering the touched chunks is covering where the sub-accesses start. */
  lemma CoversSame(w: Instruction, lo: nat, hi: nat, b: nat, addr: nat, size: nat)
    requires Valid(w) && lo <= hi <= w.warpSize && IsBlock(w, b)
    ensures CoversChunks(ChunksIn(w, Pieces(w, lo, hi), b), Line(b), addr, size)
       <==> CoversStarts(w, lo, hi, b, addr, size)
  {
    hide Pieces, Block, StartsIn, Line, Chunk, SegmentSize, WithinSegment;
    var ps := Pieces(w, lo, hi);
    var chunks := ChunksIn(w, ps, b);
    if CoversStarts(w, lo, hi, b, addr, size) {
      forall c | c in chunks
        ensures addr <= Line(b) + 32 * c && Line(b) + 32 * c + 32 <= addr + size
      {
        var p :| p in ps && Block(w, p) == b && Chunk(p.addr) == c;
        var k := FromBlock(w, lo, hi, p);
        FromBlockFits(w, p.lane, k, b);
        PieceGeometry(w, p);
        ChunkStart(p.addr);
      }
    }
    if CoversChunks(chunks, Line(b), addr, size) {
      StartsCovered(w, lo, hi, b, addr, size);
    }
  }

  lemma StartsCovered(w: Instruction, lo: nat, hi: nat, b: nat, addr: nat, size: nat)
    requires Valid(w) && lo <= hi <= w.warpSize && IsBlock(w, b)
    requires CoversChunks(ChunksIn(w, Pieces(w, lo, hi), b), Line(b), addr, size)
    ensures CoversStarts(w, lo, hi, b, addr, size)
  {
    hide Pieces, Block, Line, Chunk, SegmentSize, WithinSegment;
    forall t: nat, k: nat | lo <= t < hi && StartsIn(w, t, k, b)
      ensures addr <= w.addrs[t][k] - w.addrs[t][k] % 32 && w.addrs[t][k] - w.addrs[t][k] % 32 + 32 <= addr + size
    {
      InBlock(w, lo, hi, b, t, k);
      var p := Piece(t, w.addrs[t][k]);
      assert Chunk(p.addr) in ChunksIn(w, Pieces(w, lo, hi), b);
      FromBlockFits(w, t, k, b);
      PieceGeometry(w, p);
      ChunkStart(p.addr);
    }
  }

  lemma ReducedIsTight(w: Instruction, lo: nat, hi: nat, b: nat)
    requires Valid(w) && lo <= hi <= w.warpSize && b in Blocks(w, Pieces(w, lo, hi))
    ensures var a := Send(w, Info(w, Pieces(w, lo, hi), b), b, false); Tight(w, lo, hi, b, a.addr, a.size)
  {
    var ps := Pieces(w, lo, hi);
    var info := Info(w, ps, b);
    hide Pieces, Block, Line, Chunk, SegmentSize, WithinSegment, Reduced, CoversStarts, CoversChunks, Aligned, Blocks;
    PiecesGood(w, lo, hi);
    ChunksOfBlock(w, ps, b);
    ReducedCovers(w, info, b);
    var a := Reduced(w, info, b);
    CoversSame(w, lo, hi, b, a.addr, a.size);
    forall addr: nat, size: nat | Aligned(w, addr, size) && CoversStarts(w, lo, hi, b, addr, size)
      ensures a.size <= size && (size == a.size ==> addr == a.addr)
    {
      CoversSame(w, lo, hi, b, addr, size);
      ReducedMinimal(w, info, b, addr, size);
    }
  }

  // ---------------------------------------------------------------- one range

  lemma BlocksListed(w: Instruction, lo: nat, hi: nat, t: nat, k: nat, b: nat)
    requires Valid(w) && lo <= t < hi <= w.warpSize && StartsIn(w, t, k, b) && IsBlock(w, b)
    ensures b in Blocks(w, Pieces(w, lo, hi))
  {
    hide Pieces, Block;
    InBlock(w, lo, hi, b, t, k);
  }

  lemma SentForBlock(w: Instruction, lo: nat, hi: nat, b: nat, whole: bool)
    requires Valid(w) && lo <= hi <= w.warpSize && b in Blocks(w, Pieces(w, lo, hi))
    ensures var a := Send(w, Info(w, Pieces(w, lo, hi), b), b, whole);
      && Exact(w, lo, hi, b, a)
      && if whole then a.addr == b && a.size == SegmentSize(w.dataSize) else Tight(w, lo, hi, b, a.addr, a.size)
  {
    hide Pieces, Blocks, Exact, Tight, Reduced, Info, Valid, IsBlock, SegmentSize;
    SentIsExact(w, lo, hi, b, whole);
    if !whole { ReducedIsTight(w, lo, hi, b); }
  }

  /** The i-th access of a range is that for the i-th block. */
  ghost predicate SentAt(w: Instruction, lo: nat, hi: nat, whole: bool, b: nat, a: MemAccess)
    requires Valid(w)
  {
    Exact(w, lo, hi, b, a)
    && if whole then a.addr == b && a.size == SegmentSize(w.dataSize) else Tight(w, lo, hi, b, a.addr, a.size)
  }

  lemma AccessAt(w: Instruction, lo: nat, hi: nat, whole: bool, i: nat)
    requires Valid(w) && lo <= hi <= w.warpSize
    ensures var (blocks, accs) := (Sorted(Blocks(w, Pieces(w, lo, hi))), Emit(w, Collect(w, Pieces(w, lo, hi)), whole));
            |blocks| == |accs| && (i < |accs| ==> SentAt(w, lo, hi, whole, blocks[i], accs[i]))
  {
    var ps := Pieces(w, lo, hi);
    hide Pieces, Blocks, Emit, Collect, Send, Exact, Tight, Info, Valid, SegmentSize, Sorted;
    EmitExact(w, ps, whole);
    var blocks := Sorted(Blocks(w, ps));
    if i < |blocks| {
      assert blocks[i] in Blocks(w, ps);
      SentForBlock(w, lo, hi, blocks[i], whole);
    }
  }

  lemma BuildRange(w: Instruction, lo: nat, hi: nat, whole: bool, blocks: seq<nat>, accs: seq<MemAccess>)
    requires Valid(w) && |blocks| == |accs| && Ascending(blocks)
    requires forall t: nat, k: nat, b: nat | lo <= t < hi && StartsIn(w, t, k, b) && IsBlock(w, b) :: b in blocks
    requires forall i | 0 <= i < |accs| :: SentAt(w, lo, hi, whole, blocks[i], accs[i])
    ensures SendsRange(w, lo, hi, whole, accs)
  {
    hide StartsIn, IsBlock, Exact, Tight, Valid, SegmentSize;
    assert OnePerBlock(w, lo, hi, whole, blocks, accs) by {
      assert forall i | 0 <= i < |accs| :: SentAt(w, lo, hi, whole, blocks[i], accs[i]);
    }
  }

  lemma RangeSends(w: Instruction, lo: nat, hi: nat, whole: bool)
    requires Valid(w) && lo <= hi <= w.warpSize
    ensures SendsRange(w, lo, hi, whole, Emit(w, Collect(w, Pieces(w, lo, hi)), whole))
  {
    hide Pieces, Blocks, Emit, Collect, StartsIn, SentAt, Valid, IsBlock, Sorted, SendsRange;
    var all := Blocks(w, Pieces(w, lo, hi));
    var blocks, accs := Sorted(all), Emit(w, Collect(w, Pieces(w, lo, hi)), whole);
    AccessAt(w, lo, hi, whole, 0);
    forall i | 0 <= i < |accs|
      ensures SentAt(w, lo, hi, whole, blocks[i], accs[i])
    {
      AccessAt(w, lo, hi, whole, i);
    }
    forall t: nat, k: nat, b: nat | lo <= t < hi && StartsIn(w, t, k, b) && IsBlock(w, b)
      ensures b in blocks
    {
      BlocksListed(w, lo, hi, t, k, b);
    }
    BuildRange(w, lo, hi, whole, blocks, accs);
  }

  // ---------------------------------------------------------------- the whole warp

  /** Without coalescing each lane is a range of its own. */
  lemma {:induction false} SeparateByLanes(w: Instruction, n: nat)
    requires Valid(w) && n <= w.warpSize
    ensures ByRanges(w, n, 1, true, Separate(w, 0, n))
  {
    hide Valid, Pieces, Emit, Collect, SendsRange, Separate;
    if n == 0 {
      NoLanes(w, 0);
    } else {
      SeparateByLanes(w, n - 1);
      RangeSends(w, n - 1, n, true);
      SeparateOne(w, n - 1);
      var before, accs := Separate(w, 0, n - 1), Separate(w, 0, n);
      assert accs[..|before|] == before && accs[|before|..] == Emit(w, Collect(w, Pieces(w, n - 1, n)), true);
    }
  }

  lemma SeparateOne(w: Instruction, t: nat)
    requires Valid(w) && t < w.warpSize
    ensures Separate(w, 0, t + 1) == Separate(w, 0, t) + Emit(w, Collect(w, Pieces(w, t, t + 1)), true)
  {
    hide Emit, Collect, LanePieces, Separate, Pieces;
    NoLanes(w, t);
    NextLane(w, t, t);
    NextLane(w, 0, t);
    NothingSentAtAll(w);
    if t in w.active {
      assert [] + LanePieces(w, t, PieceCount(w)) == LanePieces(w, t, PieceCount(w));
    }
  }

  lemma NothingSentAtAll(w: Instruction)
    ensures Emit(w, Collect(w, []), true) == []
  {
    assert Sorted({}) == [];
  }

  lemma SubwarpSends(w: Instruction, part: nat)
    requires Valid(w) && part < w.parts
    ensures SendsRange(w, part * (w.warpSize / w.parts), (part + 1) * (w.warpSize / w.parts), false,
              SubwarpAccesses(w, false, part))
  {
    hide Pieces, Emit, Collect, SendsRange;
    SubwarpFits(w, part);
    RangeSends(w, Start(w, part), Start(w, part + 1), false);
  }

  lemma {:induction false} SeparateSplit(w: Instruction, mid: nat, hi: nat)
    requires Valid(w) && mid <= hi <= w.warpSize
    ensures Separate(w, 0, hi) == Separate(w, 0, mid) + Separate(w, mid, hi)
  {
    hide Emit, Collect, Pieces, LanePieces, Separate;
    if mid == hi {
      NoLanes(w, hi);
      assert Separate(w, 0, mid) + [] == Separate(w, 0, mid);
    } else {
      SeparateSplit(w, mid, hi - 1);
      NextLane(w, 0, hi - 1);
      NextLane(w, mid, hi - 1);
      if hi - 1 in w.active {
        Associative(Separate(w, 0, mid), Separate(w, mid, hi - 1),
          Emit(w, Collect(w, LanePieces(w, hi - 1, PieceCount(w))), true));
      }
    }
  }

  lemma {:induction false} DisabledIsSeparate(w: Instruction, n: nat)
    requires Valid(w) && n <= w.parts
    ensures Start(w, n) <= w.warpSize && Coalesced(w, true, n) == Separate(w, 0, Start(w, n))
  {
    hide Start, Separate;
    StartsAtZero(w);
    if n == 0 {
      NoLanes(w, 0);
    } else {
      DisabledIsSeparate(w, n - 1);
      SubwarpFits(w, n - 1);
      SeparateSplit(w, Start(w, n - 1), Start(w, n));
    }
  }

  /** With coalescing each subwarp is. */
  lemma {:induction false} CoalescedBySubwarps(w: Instruction, n: nat)
    requires Valid(w) && n <= w.parts
    ensures ByRanges(w, n, w.warpSize / w.parts, false, Coalesced(w, false, n))
  {
    hide Valid, SubwarpAccesses, SendsRange;
    if n > 0 {
      CoalescedBySubwarps(w, n - 1);
      SubwarpSends(w, n - 1);
      var before, mine := Coalesced(w, false, n - 1), SubwarpAccesses(w, false, n - 1);
      var accs := Coalesced(w, false, n);
      assert accs[..|before|] == before && accs[|before|..] == mine;
    }
  }

  /** Both modes, for the whole warp: with coalescing disabled every lane sends its blocks whole; else
      every subwarp sends each block once, shrunk as far as it goes. */
  lemma CoalescedByRanges(w: Instruction, disabled: bool)
    requires Valid(w)
    ensures var sent := Coalesced(w, disabled, w.parts);
            if disabled then ByRanges(w, w.warpSize, 1, true, sent)
            else ByRanges(w, w.parts, w.warpSize / w.parts, false, sent)
  {
    if disabled {
      StartsAtZero(w);
      DisabledIsSeparate(w, w.parts);
      SeparateByLanes(w, w.warpSize);
    } else {
      CoalescedBySubwarps(w, w.parts);
    }
  }
}
