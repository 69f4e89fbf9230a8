/** What the accesses of a warp instruction cover, with and without coalescing. */
module CoalescingTheory {
  import opened Ordered
  import opened Coalescing
  import opened LineUnits

  // ---------------------------------------------------------------- transactions

  function Blocks(w: Instruction, ps: seq<Piece>): set<nat> {
    set p | p in ps :: Block(w, p)
  }

  function ChunksIn(w: Instruction, ps: seq<Piece>, b: nat): set<nat> {
    set p | p in ps && Block(w, p) == b :: Chunk(p.addr)
  }

  function LanesIn(w: Instruction, ps: seq<Piece>, b: nat): set<nat> {
    set p | p in ps && Block(w, p) == b :: p.lane
  }

  function BitsIn(w: Instruction, ps: seq<Piece>, b: nat): set<nat> {
    set p, x | p in ps && Block(w, p) == b && x in ByteBits(p.addr, PieceSize(w)) :: x
  }

  /** What the pieces in block `b` touch. */
  function Info(w: Instruction, ps: seq<Piece>, b: nat): Transaction {
    Transaction(ChunksIn(w, ps, b), BitsIn(w, ps, b), LanesIn(w, ps, b))
  }

  /** The transactions depend only on which pieces there are: one for each block they fall in,
      with every chunk, byte and lane of those pieces. */
  lemma {:induction false} CollectExact(w: Instruction, ps: seq<Piece>)
    ensures Collect(w, ps).Keys == Blocks(w, ps)
    ensures forall b | b in Collect(w, ps) ::
              Collect(w, ps)[b] == Info(w, ps, b)
  {
    hide Block, Chunk, ByteBits, PieceSize;
    if ps != [] {
      var qs, last := ps[..|ps| - 1], ps[|ps| - 1];
      assert ps == qs + [last];
      CollectExact(w, qs);
      forall b | b in Collect(w, ps)
        ensures Collect(w, ps)[b] == Info(w, ps, b)
      {
        OneMore(w, qs, last, b);
      }
      BlocksOfMore(w, qs, last);
    }
  }

  lemma BlocksOfMore(w: Instruction, qs: seq<Piece>, last: Piece)
    ensures Blocks(w, qs + [last]) == Blocks(w, qs) + {Block(w, last)}
  {
    hide Block;
    assert forall p :: p in qs + [last] <==> p in qs || p == last;
  }

  lemma OneMore(w: Instruction, qs: seq<Piece>, last: Piece, b: nat)
    requires b in Blocks(w, qs) || b == Block(w, last)
    ensures var more := Info(w, qs + [last], b);
            var info := Info(w, qs, b);
            && more == (if b == Block(w, last) then Touched(w, info, last) else info)
            && (b !in Blocks(w, qs) ==> info == EMPTY)
  {
    hide Block, Chunk, ByteBits, PieceSize;
    assert forall p :: p in qs + [last] <==> p in qs || p == last;
  }

  // ---------------------------------------------------------------- shrinking a transaction

  /** An aligned block of 32, 64 or 128 bytes, at most a segment. */
  predicate Aligned(w: Instruction, addr: nat, size: nat) {
    size in {32, 64, 128} && size <= SegmentSize(w.dataSize) && addr % size == 0
  }

  /** The block contains every touched 32-byte chunk of the line. */
  predicate CoversChunks(chunks: set<nat>, line: nat, addr: nat, size: nat) {
    forall c | c in chunks :: addr <= line + 32 * c && line + 32 * c + 32 <= addr + size
  }

  /** Chunk numbers that lie in the segment at `block`. */
  predicate ChunksFit(w: Instruction, chunks: set<nat>, block: nat) {
    forall c | c in chunks :: c < 4 && block <= Line(block) + 32 * c
        && Line(block) + 32 * c + 32 <= block + SegmentSize(w.dataSize)
  }

  /** Chunks in a segment. */
  function SegChunks(w: Instruction): (m: nat)
    ensures m in {1, 2, 4} && SegmentSize(w.dataSize) == 32 * m
  {
    if w.dataSize == 1 then 1 else if w.dataSize == 2 then 2 else 4
  }

  lemma LineOf(addr: nat, q: nat, c: nat, d: nat)
    requires addr == 128 * q + 32 * c + d && c < 4 && d < 32
    ensures Line(addr) == 128 * q && Chunk(addr) == c
  {
    Joined(addr, q, c, d);
  }

  /** A block number: line n, chunk o. */
  lemma BlockUnits(w: Instruction, block: nat) returns (n: nat, o: nat)
    requires block % SegmentSize(w.dataSize) == 0
    ensures block == 128 * n + 32 * o && StartsGroup(o, SegChunks(w)) && Line(block) == 128 * n
  {
    var d;
    n, o, d := Split(block);
    hide Line, Chunk, SegmentSize, SegChunks;
    LineOf(block, n, o, d);
    AlignedTo(block, n, o, d, SegmentSize(w.dataSize), SegChunks(w));
  }

  /** The chunk at which a reduced transaction starts, and how many chunks it has. */
  function Shrunk(q: set<nat>, segChunks: nat, o: nat): (nat, nat) {
    if segChunks == 4 then
      if 2 !in q && 3 !in q && (0 in q || 1 in q) then Shrunk(q, 2, 0)
      else if 0 !in q && 1 !in q && (2 in q || 3 in q) then Shrunk(q, 2, 2)
      else (0, 4)
    else if segChunks == 2 then
      if o in q && o + 1 !in q then (o, 1) else if o !in q && o + 1 in q then (o + 1, 1) else (o, 2)
    else (o, 1)
  }

  lemma ReducedUnits(w: Instruction, info: Transaction, n: nat, o: nat)
    requires StartsGroup(o, SegChunks(w))
    ensures var r := Reduced(w, info, 128 * n + 32 * o);
            var (k, m) := Shrunk(info.chunks, SegChunks(w), o);
            r.addr == 128 * n + 32 * k && r.size == 32 * m
  {
    Joined(128 * n + 32 * o, n, o, 0);
  }

  lemma ShrunkCovers(q: set<nat>, segChunks: nat, o: nat)
    requires StartsGroup(o, segChunks)
    requires q != {} && forall c | c in q :: o <= c < o + segChunks
    ensures var (k, m) := Shrunk(q, segChunks, o);
            && StartsGroup(k, m) && m <= segChunks && o <= k && k + m <= o + segChunks
            && forall c | c in q :: k <= c < k + m
  {
    var c :| c in q;
    assert forall d | d in q :: d == 0 || d == 1 || d == 2 || d == 3;
  }

  lemma ShrunkMinimal(q: set<nat>, segChunks: nat, o: nat, k': nat, m': nat)
    requires StartsGroup(o, segChunks)
    requires q != {} && forall c | c in q :: o <= c < o + segChunks
    requires StartsGroup(k', m') && m' <= segChunks && forall c | c in q :: k' <= c < k' + m'
    ensures var (k, m) := Shrunk(q, segChunks, o); m <= m' && (m == m' ==> k == k')
  {
    var c :| c in q;
    assert forall d | d in q :: d == 0 || d == 1 || d == 2 || d == 3;
  }

  /** The emitted access is an aligned block inside the segment that covers every touched chunk. */
  lemma ReducedCovers(w: Instruction, info: Transaction, block: nat)
    requires info.chunks != {} && block % SegmentSize(w.dataSize) == 0 && ChunksFit(w, info.chunks, block)
    ensures var r := Reduced(w, info, block);
            && Aligned(w, r.addr, r.size)
            && block <= r.addr && r.addr + r.size <= block + SegmentSize(w.dataSize)
            && CoversChunks(info.chunks, Line(block), r.addr, r.size)
  {
    hide Reduced, Shrunk, Line, SegChunks, SegmentSize;
    var n, o := BlockUnits(w, block);
    ReducedUnits(w, info, n, o);
    ShrunkCovers(info.chunks, SegChunks(w), o);
    var (k, m) := Shrunk(info.chunks, SegChunks(w), o);
    AlignedTo(128 * n + 32 * k, n, k, 0, 32 * m, m);
  }

  /** ... and no smaller aligned block covers them, nor any other of the same size. */
  lemma ReducedMinimal(w: Instruction, info: Transaction, block: nat, addr: nat, size: nat)
    requires info.chunks != {} && block % SegmentSize(w.dataSize) == 0 && ChunksFit(w, info.chunks, block)
    requires Aligned(w, addr, size) && CoversChunks(info.chunks, Line(block), addr, size)
    ensures var r := Reduced(w, info, block); r.size <= size && (size == r.size ==> addr == r.addr)
  {
    hide Reduced, Shrunk, Line, SegChunks, SegmentSize, StartsGroup, FirstChunk;
    var n, o := BlockUnits(w, block);
    ReducedUnits(w, info, n, o);
    var m := if size == 32 then 1 else if size == 64 then 2 else 4;
    var q, k, e := Split(addr);
    AlignedTo(addr, q, k, e, size, m);
    forall d | d in info.chunks
      ensures q == n && k <= d < k + m
    {
      GroupCovering(n, d, q, k, m);
      GroupOf(d, m);
    }
    StartInSegment(o, SegChunks(w));
    ShrunkMinimal(info.chunks, SegChunks(w), o, k, m);
  }

  lemma StartInSegment(o: nat, m: nat)
    requires StartsGroup(o, m)
    ensures m in {1, 2, 4} && o + m <= 4
  {
  }

  // ---------------------------------------------------------------- coverage

  /** Pieces as the source takes them: within a segment of a known size. */
  ghost predicate Good(w: Instruction, ps: seq<Piece>) {
    w.dataSize in {1, 2, 4, 8, 16} && forall p | p in ps :: WithinSegment(w, p.addr)
  }

  /** The piece lies in one 32-byte chunk; naturally aligned accesses do. */
  predicate InChunk(w: Instruction, p: Piece) {
    p.addr % 32 + PieceSize(w) <= 32
  }

  lemma AlignedInChunk(w: Instruction, p: Piece)
    requires w.dataSize in {1, 2, 4, 8, 16} && p.addr % PieceSize(w) == 0
    ensures InChunk(w, p)
  {
    NaturallyAligned(p.addr, PieceSize(w));
  }

  lemma TagIs(addr: nat, seg: nat, offset: nat)
    requires seg > 0 && addr < 0x1_0000_0000 && addr % seg == offset <= addr
    ensures Tag(addr, seg) == addr - offset
  {
  }

  /** Line q, chunk c, offset d of the piece; its block starts at chunk e. */
  lemma PieceUnits(w: Instruction, p: Piece) returns (q: nat, c: nat, d: nat, e: nat)
    requires w.dataSize in {1, 2, 4, 8, 16} && WithinSegment(w, p.addr)
    ensures p.addr == 128 * q + 32 * c + d && c < 4 && d < 32
    ensures Line(p.addr) == 128 * q && Chunk(p.addr) == c && p.addr % 32 == d
    ensures e == FirstChunk(c, SegChunks(w)) && StartsGroup(e, SegChunks(w)) && e <= c < e + SegChunks(w)
    ensures Block(w, p) == 128 * q + 32 * e && Block(w, p) % SegmentSize(w.dataSize) == 0
    ensures 32 * (c - e) + d + PieceSize(w) <= SegmentSize(w.dataSize)
  {
    var seg, m := SegmentSize(w.dataSize), SegChunks(w);
    q, c, d := Split(p.addr);
    e := FirstChunk(c, m);
    hide SegmentSize, SegChunks, PieceSize, Line, Chunk, Tag, FirstChunk, StartsGroup;
    LineOf(p.addr, q, c, d);
    Joined(p.addr, q, c, d);
    GroupOf(c, m);
    InSegment(p.addr, q, c, d, seg, m);
    TagIs(p.addr, seg, 32 * (c - e) + d);
    AlignedTo(128 * q + 32 * e, q, e, 0, seg, m);
  }

  lemma PieceGeometry(w: Instruction, p: Piece)
    requires w.dataSize in {1, 2, 4, 8, 16} && WithinSegment(w, p.addr)
    ensures var (b, seg, start) := (Block(w, p), SegmentSize(w.dataSize), Line(p.addr) + 32 * Chunk(p.addr));
            && b % seg == 0 && b <= p.addr && p.addr + PieceSize(w) <= b + seg
            && Line(b) == Line(p.addr) && Chunk(p.addr) < 4
            && b <= start && start + 32 <= b + seg
            && start <= p.addr && (InChunk(w, p) <==> p.addr + PieceSize(w) <= start + 32)
  {
    var q, c, d, e := PieceUnits(w, p);
    hide Chunk, Line, Block, PieceSize, WithinSegment, SegmentSize, SegChunks, FirstChunk, StartsGroup;
    StartInSegment(e, SegChunks(w));
    LineOf(Block(w, p), q, e, 0);
  }

  /** An access that names the lane of `p` and covers all its bytes. */
  predicate Serves(w: Instruction, a: MemAccess, p: Piece) {
    && p.lane in a.lanes
    && a.addr <= p.addr && p.addr + PieceSize(w) <= a.addr + a.size
    && ByteBits(p.addr, PieceSize(w)) <= a.bytes
  }

  /** The i-th emitted access belongs to the i-th block and describes exactly its pieces. */
  lemma EmitExact(w: Instruction, ps: seq<Piece>, whole: bool)
    ensures var (keys, accs) := (Sorted(Blocks(w, ps)), Emit(w, Collect(w, ps), whole));
            |accs| == |keys| && forall i | 0 <= i < |keys| ::
              accs[i] == Send(w, Info(w, ps, keys[i]), keys[i], whole)
  {
    hide Send, SendAll, Collect, Blocks;
    CollectExact(w, ps);
    SendAllAt(w, Collect(w, ps), Sorted(Blocks(w, ps)), whole);
  }

  lemma ChunksOfBlock(w: Instruction, ps: seq<Piece>, b: nat)
    requires Good(w, ps) && b in Blocks(w, ps)
    ensures ChunksIn(w, ps, b) != {} && b % SegmentSize(w.dataSize) == 0 && ChunksFit(w, ChunksIn(w, ps, b), b)
  {
    hide Block, Line, Chunk;
    var p :| p in ps && Block(w, p) == b;
    assert Chunk(p.addr) in ChunksIn(w, ps, b);
    PieceGeometry(w, p);
    forall c | c in ChunksIn(w, ps, b)
      ensures c < 4 && b <= Line(b) + 32 * c && Line(b) + 32 * c + 32 <= b + SegmentSize(w.dataSize)
    {
      var q :| q in ps && Block(w, q) == b && Chunk(q.addr) == c;
      PieceGeometry(w, q);
    }
  }

  /** The range of the access for block `b` lies in that block. */
  lemma SendInBlock(w: Instruction, ps: seq<Piece>, b: nat, whole: bool)
    requires Good(w, ps) && b in Blocks(w, ps)
    ensures var a := Send(w, Info(w, ps, b), b, whole);
            b <= a.addr && a.addr + a.size <= b + SegmentSize(w.dataSize) && Line(a.addr) == Line(b)
            && a.bytes == BitsIn(w, ps, b) && a.lanes == LanesIn(w, ps, b) && a.size > 0
  {
    var info := Info(w, ps, b);
    ChunksOfBlock(w, ps, b);
    ReducedCovers(w, info, b);
    var r := Reduced(w, info, b);
    SameLine(w, b, r.addr);
  }

  lemma SameLine(w: Instruction, b: nat, addr: nat)
    requires b % SegmentSize(w.dataSize) == 0 && b <= addr < b + SegmentSize(w.dataSize)
    ensures Line(addr) == Line(b)
  {
    hide Line, Chunk, SegmentSize, SegChunks;
    var n, o := BlockUnits(w, b);
    StartInSegment(o, SegChunks(w));
    var q, c, d := Split(addr);
    LineOf(addr, q, c, d);
    assert q == n;
  }

  /** With coalescing, a piece inside a chunk is served by the access of its block. */
  lemma BlockServes(w: Instruction, ps: seq<Piece>, p: Piece)
    requires Good(w, ps) && p in ps && InChunk(w, p)
    ensures var b := Block(w, p);
            Serves(w, Send(w, Info(w, ps, b), b, false), p)
  {
    hide Block, Line, Chunk, InChunk, ByteBits;
    var b := Block(w, p);
    var info := Info(w, ps, b);
    assert b in Blocks(w, ps);
    ChunksOfBlock(w, ps, b);
    ReducedCovers(w, info, b);
    SendInBlock(w, ps, b, false);
    PieceGeometry(w, p);
    assert Chunk(p.addr) in info.chunks;
    assert p.lane in info.active;
    assert ByteBits(p.addr, PieceSize(w)) <= info.bytes;
  }

  /** Accesses of other blocks do not reach the piece. */
  lemma OtherBlocksMiss(w: Instruction, ps: seq<Piece>, p: Piece, b: nat, whole: bool)
    requires Good(w, ps) && p in ps && b in Blocks(w, ps) && b != Block(w, p)
    ensures var a := Send(w, Info(w, ps, b), b, whole);
            !(a.addr <= p.addr < a.addr + a.size)
  {
    hide Block;
    SendInBlock(w, ps, b, whole);
    PieceGeometry(w, p);
    ChunksOfBlock(w, ps, b);
    SegmentsDisjoint(w, b, Block(w, p), p.addr);
  }

  lemma SegmentsDisjoint(w: Instruction, b: nat, c: nat, addr: nat)
    requires b % SegmentSize(w.dataSize) == 0 && c % SegmentSize(w.dataSize) == 0 && b != c
    requires c <= addr < c + SegmentSize(w.dataSize)
    ensures !(b <= addr < b + SegmentSize(w.dataSize))
  {
    hide Line, SegmentSize, SegChunks, StartsGroup;
    var n, o := BlockUnits(w, b);
    var q, k := BlockUnits(w, c);
    GroupsApart(n, o, q, k, SegChunks(w));
  }
}
