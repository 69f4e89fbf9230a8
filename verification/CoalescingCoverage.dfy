/** Each sub-access of an active lane is served by exactly one memory access, or the exact case in
    which the coalescer loses it; and the mode without coalescing serves the same bytes and lanes. */
module CoalescingCoverage {
  import opened Ordered
  import opened Coalescing
  import opened LineUnits
  import opened CoalescingTheory
  import Subwarps

  // ---------------------------------------------------------------- counting

  /** How many of the accesses serve the piece. */
  function Serving(w: Instruction, accs: seq<MemAccess>, p: Piece): nat {
    if accs == [] then 0
    else Serving(w, accs[..|accs| - 1], p) + (if Serves(w, accs[|accs| - 1], p) then 1 else 0)
  }

  lemma {:induction false} ServingAppend(w: Instruction, a: seq<MemAccess>, b: seq<MemAccess>, p: Piece)
    ensures Serving(w, a + b, p) == Serving(w, a, p) + Serving(w, b, p)
  {
    hide Serves;
    if b == [] {
      assert a + b == a;
    } else {
      ServingAppend(w, a, b[..|b| - 1], p);
      assert (a + b)[..|a + b| - 1] == a + b[..|b| - 1];
    }
  }

  lemma {:induction false} ServingNone(w: Instruction, accs: seq<MemAccess>, p: Piece)
    requires forall i | 0 <= i < |accs| :: !Serves(w, accs[i], p)
    ensures Serving(w, accs, p) == 0
  {
    hide Serves;
    if accs != [] { ServingNone(w, accs[..|accs| - 1], p); }
  }

  lemma {:induction false} ServingOnly(w: Instruction, accs: seq<MemAccess>, i: nat, p: Piece)
    requires i < |accs| && forall j | 0 <= j < |accs| && j != i :: !Serves(w, accs[j], p)
    ensures Serving(w, accs, p) == if Serves(w, accs[i], p) then 1 else 0
  {
    hide Serves;
    if i == |accs| - 1 {
      ServingNone(w, accs[..i], p);
    } else {
      ServingOnly(w, accs[..|accs| - 1], i, p);
    }
  }

  lemma EmitServing(w: Instruction, ps: seq<Piece>, p: Piece, whole: bool)
    requires Good(w, ps) && p in ps
    ensures Serving(w, Emit(w, Collect(w, ps), whole), p)
         == if Serves(w, Send(w, Info(w, ps, Block(w, p)), Block(w, p), whole), p) then 1 else 0
  {
    var keys, accs := Sorted(Blocks(w, ps)), Emit(w, Collect(w, ps), whole);
    EmitExact(w, ps, whole);
    assert Block(w, p) in Blocks(w, ps);
    var i: nat :| i < |keys| && keys[i] == Block(w, p);
    hide Block, Blocks, Collect, Emit, Send, Info, Sorted, Good;
    forall j | 0 <= j < |accs| && j != i
      ensures !Serves(w, accs[j], p)
    {
      assert keys[j] in Blocks(w, ps) && keys[j] != keys[i];
      EmptyPiece(w, ps, p);
      OtherBlocksMiss(w, ps, p, keys[j], whole);
    }
    ServingOnly(w, accs, i, p);
  }

  lemma EmptyPiece(w: Instruction, ps: seq<Piece>, p: Piece)
    requires Good(w, ps)
    ensures PieceSize(w) > 0
  {
  }

  /** Lanes without a piece are not named. */
  lemma OtherLanes(w: Instruction, ps: seq<Piece>, p: Piece, whole: bool)
    requires Good(w, ps) && forall q | q in ps :: q.lane != p.lane
    ensures Serving(w, Emit(w, Collect(w, ps), whole), p) == 0
  {
    var keys, accs := Sorted(Blocks(w, ps)), Emit(w, Collect(w, ps), whole);
    EmitExact(w, ps, whole);
    hide Block, Blocks, Collect, Emit, Send, Sorted, Good;
    forall i | 0 <= i < |accs|
      ensures !Serves(w, accs[i], p)
    {
      assert keys[i] in Blocks(w, ps);
      SendInBlock(w, ps, keys[i], whole);
      assert accs[i].lanes == LanesIn(w, ps, keys[i]);
    }
    ServingNone(w, accs, p);
  }

  // ---------------------------------------------------------------- the exact condition

  /** A piece that runs over the end of its chunk, but another piece makes the access wide enough. */
  predicate Widened(w: Instruction, ps: seq<Piece>, p: Piece) {
    exists q :: q in ps && Block(w, q) == Block(w, p) &&
      if Chunk(p.addr) == 1 then Chunk(q.addr) >= 2 else Chunk(q.addr) != Chunk(p.addr)
  }

  predicate Covered(w: Instruction, ps: seq<Piece>, p: Piece) {
    InChunk(w, p) || Widened(w, ps, p)
  }

  /** A shrunk transaction that contains chunk c also contains the next one exactly if ... */
  lemma ShrunkReaches(q: set<nat>, segChunks: nat, o: nat, c: nat)
    requires StartsGroup(o, segChunks)
    requires c in q && (forall d | d in q :: o <= d < o + segChunks) && c + 1 < o + segChunks
    ensures var (k, m) := Shrunk(q, segChunks, o);
            c + 1 < k + m <==> exists d :: d in q && if c == 1 then d >= 2 else d != c
  {
    assert forall d | d in q :: d == 0 || d == 1 || d == 2 || d == 3;
    if exists d :: d in q && if c == 1 then d >= 2 else d != c {
      var d :| d in q && if c == 1 then d >= 2 else d != c;
    }
  }

  /** Where the access of a piece's block lies, in units of 32 bytes. */
  lemma AccessUnits(w: Instruction, ps: seq<Piece>, p: Piece) returns (n: nat, o: nat, k: nat, m: nat)
    requires Good(w, ps) && p in ps
    ensures var a := Send(w, Info(w, ps, Block(w, p)), Block(w, p), false);
            a.addr == 128 * n + 32 * k && a.size == 32 * m
    ensures Line(p.addr) == 128 * n && Block(w, p) == 128 * n + 32 * o && StartsGroup(o, SegChunks(w))
    ensures (k, m) == Shrunk(ChunksIn(w, ps, Block(w, p)), SegChunks(w), o)
    ensures Chunk(p.addr) in ChunksIn(w, ps, Block(w, p)) && k <= Chunk(p.addr) < k + m
    ensures forall d | d in ChunksIn(w, ps, Block(w, p)) :: o <= d < o + SegChunks(w)
  {
    var b := Block(w, p);
    hide Reduced, Shrunk, Line, Chunk, Block;
    assert b in Blocks(w, ps);
    assert Chunk(p.addr) in ChunksIn(w, ps, b);
    PieceGeometry(w, p);
    ChunksOfBlock(w, ps, b);
    n, o := BlockUnits(w, b);
    var u := Shrunk(ChunksIn(w, ps, b), SegChunks(w), o);
    k, m := u.0, u.1;
    ReducedUnits(w, Info(w, ps, b), n, o);
    ShrunkCovers(ChunksIn(w, ps, b), SegChunks(w), o);
  }

  /** An unaligned piece needs the chunk after its own. */
  lemma NeedsNextChunk(w: Instruction, p: Piece, n: nat, o: nat, k: nat, m: nat)
    requires w.dataSize in {1, 2, 4, 8, 16} && WithinSegment(w, p.addr) && !InChunk(w, p)
    requires Line(p.addr) == 128 * n && Block(w, p) == 128 * n + 32 * o
    ensures Chunk(p.addr) + 1 < o + SegChunks(w)
    ensures p.addr + PieceSize(w) <= 128 * n + 32 * k + 32 * m <==> Chunk(p.addr) + 1 < k + m
  {
    hide Line, Chunk, Block;
    PieceGeometry(w, p);
    var q, c, d := Split(p.addr);
    Joined(p.addr, q, c, d);
    LineOf(p.addr, q, c, d);
    assert 32 < d + PieceSize(w) <= 48;
  }

  /** With coalescing, a piece is served by the access of its block exactly if it lies in one 32-byte
      chunk or the other pieces of the block keep the access from shrinking to its first chunk. */
  lemma ServesExactly(w: Instruction, ps: seq<Piece>, p: Piece)
    requires Good(w, ps) && p in ps
    ensures Serves(w, Send(w, Info(w, ps, Block(w, p)), Block(w, p), false), p) <==> Covered(w, ps, p)
  {
    var b := Block(w, p);
    if InChunk(w, p) {
      BlockServes(w, ps, p);
    } else {
      hide Line, Chunk, Block, Shrunk, Reduced;
      var n, o, k, m := AccessUnits(w, ps, p);
      NeedsNextChunk(w, p, n, o, k, m);
      ShrunkReaches(ChunksIn(w, ps, b), SegChunks(w), o, Chunk(p.addr));
      WidenedByChunk(w, ps, p);
      MarkedBits(w, ps, p);
      PieceGeometry(w, p);
    }
  }

  lemma WidenedByChunk(w: Instruction, ps: seq<Piece>, p: Piece)
    ensures Widened(w, ps, p) <==>
            exists d :: d in ChunksIn(w, ps, Block(w, p)) && if Chunk(p.addr) == 1 then d >= 2 else d != Chunk(p.addr)
  {
    hide Chunk, Block;
    if Widened(w, ps, p) {
      var q :| q in ps && Block(w, q) == Block(w, p)
          && if Chunk(p.addr) == 1 then Chunk(q.addr) >= 2 else Chunk(q.addr) != Chunk(p.addr);
      assert Chunk(q.addr) in ChunksIn(w, ps, Block(w, p));
    }
  }

  lemma MarkedBits(w: Instruction, ps: seq<Piece>, p: Piece)
    requires p in ps
    ensures ByteBits(p.addr, PieceSize(w)) <= BitsIn(w, ps, Block(w, p)) && p.lane in LanesIn(w, ps, Block(w, p))
  {
    hide Block, ByteBits;
  }

  // ---------------------------------------------------------------- one lane, without coalescing

  /** Without coalescing the segment is sent whole, so it covers each of the lane's pieces. */
  lemma WholeServes(w: Instruction, ps: seq<Piece>, p: Piece)
    requires Good(w, ps) && p in ps
    ensures Serves(w, Send(w, Info(w, ps, Block(w, p)), Block(w, p), true), p)
  {
    hide Block, ByteBits, Line, Chunk;
    PieceGeometry(w, p);
    MarkedBits(w, ps, p);
  }

  // ---------------------------------------------------------------- the whole warp

  /** `p` is sub-access `k` of active lane `t`. */
  predicate IsPiece(w: Instruction, p: Piece, k: nat)
    requires Valid(w)
  {
    p.lane in w.active && k < PieceCount(w) && p.addr == w.addrs[p.lane][k]
  }

  lemma LaneGood(w: Instruction, t: nat)
    requires Valid(w) && t in w.active
    ensures Good(w, LanePieces(w, t, PieceCount(w)))
  {
    var ps := LanePieces(w, t, PieceCount(w));
    forall p | p in ps
      ensures WithinSegment(w, p.addr)
    {
      var k :| 0 <= k < |ps| && ps[k] == p;
    }
  }

  lemma {:induction false} PiecesGood(w: Instruction, lo: nat, hi: nat)
    requires Valid(w) && lo <= hi <= w.warpSize
    ensures Good(w, Pieces(w, lo, hi))
    ensures forall p | p in Pieces(w, lo, hi) :: lo <= p.lane < hi
  {
    hide LanePieces, PieceCount;
    if lo < hi {
      PiecesGood(w, lo, hi - 1);
      if hi - 1 in w.active {
        LaneGood(w, hi - 1);
        LaneNamed(w, hi - 1);
      }
    }
  }

  lemma LaneNamed(w: Instruction, t: nat)
    requires Valid(w) && t in w.active
    ensures forall p | p in LanePieces(w, t, PieceCount(w)) :: p.lane == t
  {
  }

  lemma {:induction false} PiecesHave(w: Instruction, lo: nat, hi: nat, p: Piece, k: nat)
    requires Valid(w) && lo <= hi <= w.warpSize && IsPiece(w, p, k) && lo <= p.lane < hi
    ensures p in Pieces(w, lo, hi)
  {
    if p.lane == hi - 1 {
      assert LanePieces(w, p.lane, PieceCount(w))[k] == p;
    } else {
      PiecesHave(w, lo, hi - 1, p, k);
    }
  }

  lemma {:induction false} SeparateServing(w: Instruction, lo: nat, hi: nat, p: Piece, k: nat)
    requires Valid(w) && lo <= hi <= w.warpSize && IsPiece(w, p, k)
    ensures Serving(w, Separate(w, lo, hi), p) == if lo <= p.lane < hi then 1 else 0
  {
    hide Serving, Emit, Collect;
    if lo == hi {
      NoLanes(w, lo);
      ServingNone(w, [], p);
    } else {
      SeparateServing(w, lo, hi - 1, p, k);
      var t := hi - 1;
      NextLane(w, lo, t);
      if t in w.active {
        var ps := LanePieces(w, t, PieceCount(w));
        ServingAppend(w, Separate(w, lo, t), Emit(w, Collect(w, ps), true), p);
        LaneGood(w, t);
        if p.lane == t {
          assert ps[k] == p;
          EmitServing(w, ps, p, true);
          WholeServes(w, ps, p);
        } else {
          LaneNamed(w, t);
          OtherLanes(w, ps, p, true);
        }
      }
    }
  }

  lemma LanesServing(w: Instruction, disabled: bool, lo: nat, hi: nat, p: Piece, k: nat)
    requires Valid(w) && lo <= hi <= w.warpSize && IsPiece(w, p, k)
    ensures Serving(w, LanesAccesses(w, disabled, lo, hi), p)
         == if lo <= p.lane < hi && (disabled || Covered(w, Pieces(w, lo, hi), p)) then 1 else 0
  {
    hide Covered, Emit, Collect;
    if disabled {
      SeparateServing(w, lo, hi, p, k);
    } else {
      PiecesGood(w, lo, hi);
      if lo <= p.lane < hi {
        PiecesHave(w, lo, hi, p, k);
        EmitServing(w, Pieces(w, lo, hi), p, false);
        ServesExactly(w, Pieces(w, lo, hi), p);
      } else {
        OtherLanes(w, Pieces(w, lo, hi), p, false);
      }
    }
  }

  function SubwarpPieces(w: Instruction, part: nat): seq<Piece>
    requires Valid(w) && part < w.parts
  {
    SubwarpFits(w, part);
    Pieces(w, Start(w, part), Start(w, part + 1))
  }

  function SubwarpOf(w: Instruction, t: nat): (part: nat)
    requires w.parts > 0 && w.warpSize % w.parts == 0 && t < w.warpSize
    ensures part < w.parts
  {
    Subwarps.PartExists(w.warpSize, w.parts, t);
    Subwarps.PartOf(w.warpSize, w.parts, t)
  }

  lemma InSubwarp(w: Instruction, part: nat, t: nat)
    requires w.parts > 0 && w.warpSize % w.parts == 0 && t < w.warpSize
    ensures Start(w, part) <= t < Start(w, part + 1) <==> part == SubwarpOf(w, t)
  {
    Subwarps.PartExists(w.warpSize, w.parts, t);
    Subwarps.PartBounds(w.warpSize, w.parts, t, part);
  }

  lemma SubwarpServing(w: Instruction, disabled: bool, part: nat, p: Piece, k: nat)
    requires Valid(w) && part < w.parts && IsPiece(w, p, k)
    ensures Serving(w, SubwarpAccesses(w, disabled, part), p)
         == if part == SubwarpOf(w, p.lane) && (disabled || Covered(w, SubwarpPieces(w, part), p)) then 1 else 0
  {
    hide Covered, Pieces, LanesAccesses, Serving;
    SubwarpFits(w, part);
    InSubwarp(w, part, p.lane);
    hide SubwarpOf, Start;
    LanesServing(w, disabled, Start(w, part), Start(w, part + 1), p, k);
  }

  lemma {:induction false} FirstSubwarps(w: Instruction, disabled: bool, n: nat, p: Piece, k: nat)
    requires Valid(w) && n <= w.parts && IsPiece(w, p, k)
    ensures Serving(w, Coalesced(w, disabled, n), p)
         == if SubwarpOf(w, p.lane) < n && (disabled || Covered(w, SubwarpPieces(w, SubwarpOf(w, p.lane)), p))
            then 1 else 0
  {
    hide Covered, SubwarpPieces, SubwarpAccesses, SubwarpOf, Valid, IsPiece;
    if n > 0 {
      FirstSubwarps(w, disabled, n - 1, p, k);
      ServingAppend(w, Coalesced(w, disabled, n - 1), SubwarpAccesses(w, disabled, n - 1), p);
      SubwarpServing(w, disabled, n - 1, p, k);
    }
  }

  /** Every sub-access of every active lane is served by exactly one access of the warp: always when
      coalescing is disabled, otherwise exactly if it stays in a 32-byte chunk or is widened. */
  lemma ServedOnce(w: Instruction, disabled: bool, t: nat, k: nat)
    requires Valid(w) && t in w.active && k < PieceCount(w)
    ensures var p := Piece(t, w.addrs[t][k]);
            Serving(w, Coalesced(w, disabled, w.parts), p)
            == if disabled || Covered(w, SubwarpPieces(w, SubwarpOf(w, t)), p) then 1 else 0
  {
    var p := Piece(t, w.addrs[t][k]);
    assert IsPiece(w, p, k);
    FirstSubwarps(w, disabled, w.parts, p, k);
  }

  /** In particular naturally aligned accesses are served exactly once in both modes. */
  lemma AlignedServedOnce(w: Instruction, disabled: bool, t: nat, k: nat)
    requires Valid(w) && t in w.active && k < PieceCount(w) && w.addrs[t][k] % PieceSize(w) == 0
    ensures Serving(w, Coalesced(w, disabled, w.parts), Piece(t, w.addrs[t][k])) == 1
  {
    ServedOnce(w, disabled, t, k);
    AlignedInChunk(w, Piece(t, w.addrs[t][k]));
  }

  /** One lane that reads 16 bytes at address 24. */
  function Unaligned(): Instruction {
    Instruction(1, 1, 16, GlobalSpace, false, {0}, [[24, 0, 0, 0, 0, 0, 0, 0]])
  }

  lemma UnalignedPiece()
    ensures Valid(Unaligned()) && SubwarpPieces(Unaligned(), 0) == [Piece(0, 24)] && PieceCount(Unaligned()) == 1
  {
    var w := Unaligned();
    assert w.addrs[0][0] == 24;
    assert Valid(w);
    hide Valid;
    assert SubwarpPieces(w, 0) == Pieces(w, 0, 1);
    NextLane(w, 0, 0);
    NoLanes(w, 0);
    assert LanePieces(w, 0, 1) == [Piece(0, 24)];
  }

  /** The access shrinks to the lane's first chunk and loses the last eight bytes. */
  lemma UnalignedIsLost()
    ensures Valid(Unaligned()) && Serving(Unaligned(), Coalesced(Unaligned(), false, 1), Piece(0, 24)) == 0
  {
    var w, p := Unaligned(), Piece(0, 24);
    UnalignedPiece();
    hide Coalesced, Serving, Valid, SubwarpPieces, Covered;
    ServedOnce(w, false, 0, 0);
    assert SubwarpOf(w, 0) == 0;
    AloneIsLost();
  }

  lemma AloneIsLost()
    ensures !Covered(Unaligned(), [Piece(0, 24)], Piece(0, 24))
  {
  }
}
