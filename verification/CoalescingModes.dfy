/** Disabling coalescing changes how many accesses are sent, not what they touch. */
module CoalescingModes {
  import opened Ordered
  import opened Coalescing
  import opened CoalescingTheory
  import opened CoalescingCoverage
  import opened Subwarps

  // ---------------------------------------------------------------- bytes and lanes

  /** The memory bytes marked by the accesses: byte-mask bits counted from the 128-byte line. */
  function Touches(accs: seq<MemAccess>): set<nat> {
    set a, x | a in accs && x in a.bytes :: Line(a.addr) + x
  }

  function Named(accs: seq<MemAccess>): set<nat> {
    set a, t | a in accs && t in a.lanes :: t
  }

  /** The bytes that the pieces ask for. */
  function PieceBytes(w: Instruction, ps: seq<Piece>): set<nat> {
    set p, x | p in ps && x in Range(p.addr, PieceSize(w)) :: x
  }

  function PieceLanes(ps: seq<Piece>): set<nat> {
    set p | p in ps :: p.lane
  }

  lemma AppendAccesses(a: seq<MemAccess>, b: seq<MemAccess>)
    ensures Touches(a + b) == Touches(a) + Touches(b) && Named(a + b) == Named(a) + Named(b)
  {
    hide Line;
  }

  lemma AppendPieces(w: Instruction, a: seq<Piece>, b: seq<Piece>)
    ensures PieceBytes(w, a + b) == PieceBytes(w, a) + PieceBytes(w, b)
        && PieceLanes(a + b) == PieceLanes(a) + PieceLanes(b)
  {
    hide Range, PieceSize;
  }

  /** A bit of the mask of block b is a byte of one of its pieces, and back. */
  lemma PieceBit(w: Instruction, p: Piece, x: nat)
    requires w.dataSize in {1, 2, 4, 8, 16} && WithinSegment(w, p.addr)
    ensures x in ByteBits(p.addr, PieceSize(w)) <==> Line(Block(w, p)) + x in Range(p.addr, PieceSize(w))
    ensures x in Range(p.addr, PieceSize(w)) ==> x >= Line(Block(w, p))
  {
    hide Range, Block;
    PieceGeometry(w, p);
    assert Line(p.addr) + p.addr % 128 == p.addr;
  }

  /** The access describes the pieces of block `b`. */
  predicate Describes(w: Instruction, ps: seq<Piece>, b: nat, a: MemAccess) {
    Line(a.addr) == Line(b) && a.bytes == BitsIn(w, ps, b) && a.lanes == LanesIn(w, ps, b)
  }

  lemma AccessOfBlock(w: Instruction, ps: seq<Piece>, whole: bool, b: nat) returns (a: MemAccess)
    requires Good(w, ps) && b in Blocks(w, ps)
    ensures a in Emit(w, Collect(w, ps), whole) && Describes(w, ps, b, a)
  {
    hide Blocks, Collect, Emit, Send, Line, BitsIn, LanesIn, Good, Sorted;
    var keys := Sorted(Blocks(w, ps));
    EmitExact(w, ps, whole);
    var i :| 0 <= i < |keys| && keys[i] == b;
    SendInBlock(w, ps, b, whole);
    a := Emit(w, Collect(w, ps), whole)[i];
  }

  lemma BlockOfAccess(w: Instruction, ps: seq<Piece>, whole: bool, a: MemAccess) returns (b: nat)
    requires Good(w, ps) && a in Emit(w, Collect(w, ps), whole)
    ensures b in Blocks(w, ps) && Describes(w, ps, b, a)
  {
    hide Blocks, Collect, Emit, Send, Line, BitsIn, LanesIn, Good, Sorted;
    var accs := Emit(w, Collect(w, ps), whole);
    EmitExact(w, ps, whole);
    var i :| 0 <= i < |accs| && accs[i] == a;
    b := Sorted(Blocks(w, ps))[i];
    SendInBlock(w, ps, b, whole);
  }

  lemma BitAsked(w: Instruction, ps: seq<Piece>, b: nat, x: nat)
    requires Good(w, ps) && x in BitsIn(w, ps, b)
    ensures Line(b) + x in PieceBytes(w, ps)
  {
    hide Block, Line, Range, ByteBits, PieceSize, WithinSegment;
    var p :| p in ps && Block(w, p) == b && x in ByteBits(p.addr, PieceSize(w));
    PieceBit(w, p, x);
  }

  lemma ByteMarked(w: Instruction, ps: seq<Piece>, y: nat) returns (b: nat, x: nat)
    requires Good(w, ps) && y in PieceBytes(w, ps)
    ensures b in Blocks(w, ps) && x in BitsIn(w, ps, b) && y == Line(b) + x
  {
    hide Block, Line, Range, ByteBits, PieceSize, WithinSegment;
    var p :| p in ps && y in Range(p.addr, PieceSize(w));
    PieceBit(w, p, y);
    b, x := Block(w, p), y - Line(Block(w, p));
    PieceBit(w, p, x);
  }

  lemma TouchedAreAsked(w: Instruction, ps: seq<Piece>, whole: bool)
    requires Good(w, ps)
    ensures Touches(Emit(w, Collect(w, ps), whole)) <= PieceBytes(w, ps)
  {
    hide Blocks, BitsIn, PieceBytes, Collect, Emit, Line, Good;
    var accs := Emit(w, Collect(w, ps), whole);
    forall y | y in Touches(accs)
      ensures y in PieceBytes(w, ps)
    {
      var a, x :| a in accs && x in a.bytes && y == Line(a.addr) + x;
      var b := BlockOfAccess(w, ps, whole, a);
      BitAsked(w, ps, b, x);
    }
  }

  lemma AskedAreTouched(w: Instruction, ps: seq<Piece>, whole: bool)
    requires Good(w, ps)
    ensures PieceBytes(w, ps) <= Touches(Emit(w, Collect(w, ps), whole))
  {
    hide Blocks, BitsIn, PieceBytes, Collect, Emit, Line, Good;
    forall y | y in PieceBytes(w, ps)
      ensures y in Touches(Emit(w, Collect(w, ps), whole))
    {
      var b, x := ByteMarked(w, ps, y);
      var a := AccessOfBlock(w, ps, whole, b);
      assert x in a.bytes && y == Line(a.addr) + x;
    }
  }

  lemma LaneMarked(w: Instruction, ps: seq<Piece>, t: nat) returns (b: nat)
    requires t in PieceLanes(ps)
    ensures b in Blocks(w, ps) && t in LanesIn(w, ps, b)
  {
    hide Block;
    var p :| p in ps && p.lane == t;
    b := Block(w, p);
  }

  lemma LaneAsked(w: Instruction, ps: seq<Piece>, b: nat)
    ensures LanesIn(w, ps, b) <= PieceLanes(ps)
  {
    hide Block;
  }

  lemma EmitNames(w: Instruction, ps: seq<Piece>, whole: bool)
    requires Good(w, ps)
    ensures Named(Emit(w, Collect(w, ps), whole)) == PieceLanes(ps)
  {
    hide Blocks, LanesIn, PieceLanes, Collect, Emit, Good;
    var accs := Emit(w, Collect(w, ps), whole);
    forall t | t in Named(accs)
      ensures t in PieceLanes(ps)
    {
      var a :| a in accs && t in a.lanes;
      var b := BlockOfAccess(w, ps, whole, a);
      LaneAsked(w, ps, b);
    }
    forall t | t in PieceLanes(ps)
      ensures t in Named(accs)
    {
      var b := LaneMarked(w, ps, t);
      var a := AccessOfBlock(w, ps, whole, b);
      assert t in a.lanes;
    }
  }

  lemma EmitTouches(w: Instruction, ps: seq<Piece>, whole: bool)
    requires Good(w, ps)
    ensures Touches(Emit(w, Collect(w, ps), whole)) == PieceBytes(w, ps)
    ensures Named(Emit(w, Collect(w, ps), whole)) == PieceLanes(ps)
  {
    hide Touches, Named, PieceBytes, PieceLanes, Emit, Collect;
    TouchedAreAsked(w, ps, whole);
    AskedAreTouched(w, ps, whole);
    EmitNames(w, ps, whole);
  }

  lemma {:induction false} SeparateTouches(w: Instruction, lo: nat, hi: nat)
    requires Valid(w) && lo <= hi <= w.warpSize
    ensures Touches(Separate(w, lo, hi)) == PieceBytes(w, Pieces(w, lo, hi))
    ensures Named(Separate(w, lo, hi)) == PieceLanes(Pieces(w, lo, hi))
  {
    hide Collect, Emit, LanePieces, Separate, Pieces, Line, Range, PieceSize;
    if lo == hi {
      NoLanes(w, lo);
    } else {
      SeparateTouches(w, lo, hi - 1);
      NextLane(w, lo, hi - 1);
      if hi - 1 in w.active {
        var ps := LanePieces(w, hi - 1, PieceCount(w));
        LaneGood(w, hi - 1);
        EmitTouches(w, ps, true);
        AppendAccesses(Separate(w, lo, hi - 1), Emit(w, Collect(w, ps), true));
        AppendPieces(w, Pieces(w, lo, hi - 1), ps);
      }
    }
  }

  /** The pieces of lane t, if it is active. */
  function LastPieces(w: Instruction, t: nat): seq<Piece>
    requires Valid(w) && t < w.warpSize
  {
    if t in w.active then LanePieces(w, t, PieceCount(w)) else []
  }

  lemma PiecesNext(w: Instruction, lo: nat, t: nat)
    requires Valid(w) && lo <= t < w.warpSize
    ensures Pieces(w, lo, t + 1) == Pieces(w, lo, t) + LastPieces(w, t)
  {
    hide LanePieces, PieceCount;
    NextLane(w, lo, t);
  }

  lemma {:induction false} PiecesSplit(w: Instruction, lo: nat, mid: nat, hi: nat)
    requires Valid(w) && lo <= mid <= hi <= w.warpSize
    ensures Pieces(w, lo, hi) == Pieces(w, lo, mid) + Pieces(w, mid, hi)
  {
    hide Valid, Pieces, LastPieces;
    if mid == hi {
      NoLanes(w, hi);
      assert Pieces(w, lo, mid) + [] == Pieces(w, lo, mid);
    } else {
      PiecesSplit(w, lo, mid, hi - 1);
      PiecesNext(w, lo, hi - 1);
      PiecesNext(w, mid, hi - 1);
      Associative(Pieces(w, lo, mid), Pieces(w, mid, hi - 1), LastPieces(w, hi - 1));
    }
  }

  lemma Associative<T>(a: seq<T>, b: seq<T>, c: seq<T>)
    ensures (a + b) + c == a + (b + c)
  {
  }

  lemma LanesTouch(w: Instruction, disabled: bool, lo: nat, hi: nat)
    requires Valid(w) && lo <= hi <= w.warpSize
    ensures Touches(LanesAccesses(w, disabled, lo, hi)) == PieceBytes(w, Pieces(w, lo, hi))
    ensures Named(LanesAccesses(w, disabled, lo, hi)) == PieceLanes(Pieces(w, lo, hi))
  {
    hide Touches, Named, PieceBytes, PieceLanes, Collect, Emit;
    if disabled {
      SeparateTouches(w, lo, hi);
    } else {
      PiecesGood(w, lo, hi);
      EmitTouches(w, Pieces(w, lo, hi), false);
    }
  }

  lemma StartsAtZero(w: Instruction)
    requires Valid(w)
    ensures Start(w, 0) == 0 && Start(w, w.parts) == w.warpSize
  {
    Subwarps.Whole(w.warpSize, w.parts);
  }

  /** Subwarp `part`, added to the ones before it. */
  lemma NextSubwarp(w: Instruction, disabled: bool, part: nat)
    requires Valid(w) && part < w.parts
    ensures Start(w, part) <= Start(w, part + 1) <= w.warpSize
    ensures Pieces(w, 0, Start(w, part + 1)) == Pieces(w, 0, Start(w, part)) + SubwarpPieces(w, part)
    ensures Touches(SubwarpAccesses(w, disabled, part)) == PieceBytes(w, SubwarpPieces(w, part))
    ensures Named(SubwarpAccesses(w, disabled, part)) == PieceLanes(SubwarpPieces(w, part))
  {
    hide Touches, Named, PieceBytes, PieceLanes, Pieces, LanesAccesses;
    SubwarpFits(w, part);
    LanesTouch(w, disabled, Start(w, part), Start(w, part + 1));
    PiecesSplit(w, 0, Start(w, part), Start(w, part + 1));
  }

  lemma {:induction false} FirstTouch(w: Instruction, disabled: bool, n: nat)
    requires Valid(w) && n <= w.parts
    ensures Start(w, n) <= w.warpSize
    ensures Touches(Coalesced(w, disabled, n)) == PieceBytes(w, Pieces(w, 0, Start(w, n)))
    ensures Named(Coalesced(w, disabled, n)) == PieceLanes(Pieces(w, 0, Start(w, n)))
  {
    hide SubwarpPieces, SubwarpAccesses, Start;
    StartsAtZero(w);
    if n == 0 {
      NoLanes(w, 0);
    } else {
      hide Touches, Named, PieceBytes, PieceLanes, Pieces;
      FirstTouch(w, disabled, n - 1);
      NextSubwarp(w, disabled, n - 1);
      AppendAccesses(Coalesced(w, disabled, n - 1), SubwarpAccesses(w, disabled, n - 1));
      AppendPieces(w, Pieces(w, 0, Start(w, n - 1)), SubwarpPieces(w, n - 1));
    }
  }

  lemma LanesAll(w: Instruction)
    requires Valid(w)
    ensures PieceLanes(Pieces(w, 0, w.warpSize)) == w.active
  {
    PiecesActive(w, w.warpSize);
    forall t | t in w.active
      ensures t in PieceLanes(Pieces(w, 0, w.warpSize))
    {
      var p := Piece(t, w.addrs[t][0]);
      PiecesHave(w, 0, w.warpSize, p, 0);
    }
  }

  lemma {:induction false} PiecesActive(w: Instruction, hi: nat)
    requires Valid(w) && hi <= w.warpSize
    ensures forall p | p in Pieces(w, 0, hi) :: p.lane in w.active
  {
    hide LanePieces, PieceCount;
    if hi > 0 {
      PiecesActive(w, hi - 1);
      NextLane(w, 0, hi - 1);
      if hi - 1 in w.active { LaneNamed(w, hi - 1); }
    } else {
      NoLanes(w, 0);
    }
  }

  /** In both modes the accesses mark exactly the bytes the active lanes ask for and name exactly
      the active lanes. */
  lemma ModesTouchTheSame(w: Instruction, disabled: bool)
    requires Valid(w)
    ensures Touches(Coalesced(w, disabled, w.parts)) == PieceBytes(w, Pieces(w, 0, w.warpSize))
    ensures Named(Coalesced(w, disabled, w.parts)) == w.active
  {
    hide Touches, Named, PieceBytes, PieceLanes, Pieces, Coalesced;
    StartsAtZero(w);
    FirstTouch(w, disabled, w.parts);
    LanesAll(w);
  }

  // ---------------------------------------------------------------- how many accesses

  lemma EmitCount(w: Instruction, ps: seq<Piece>, whole: bool)
    ensures |Emit(w, Collect(w, ps), whole)| == |Blocks(w, ps)|
  {
    EmitExact(w, ps, whole);
  }

  lemma UnionSize<T>(a: set<T>, b: set<T>)
    ensures |a + b| <= |a| + |b|
  {
    assert a + b == a + (b - a);
  }

  lemma BlocksAppend(w: Instruction, a: seq<Piece>, b: seq<Piece>)
    ensures Blocks(w, a + b) == Blocks(w, a) + Blocks(w, b)
  {
    hide Block;
  }

  /** Without coalescing: at least one access for each block, and for global memory one for each lane. */
  lemma {:induction false} SeparateCount(w: Instruction, lo: nat, hi: nat)
    requires Valid(w) && lo <= hi <= w.warpSize
    ensures |Separate(w, lo, hi)| >= |Blocks(w, Pieces(w, lo, hi))|
    ensures w.space == GlobalSpace ==> |Separate(w, lo, hi)| == |ActiveIn(w.active, lo, hi)|
  {
    hide Collect, Emit, LanePieces, Separate, Pieces, Block;
    if lo == hi {
      NoLanes(w, lo);
      NoneActive(w.active, lo);
      assert Blocks(w, []) == {};
    } else {
      var t := hi - 1;
      SeparateCount(w, lo, t);
      NextLane(w, lo, t);
      OneMoreLane(w.active, lo, t);
      if t in w.active {
        var ps := LanePieces(w, t, PieceCount(w));
        EmitCount(w, ps, true);
        BlocksAppend(w, Pieces(w, lo, t), ps);
        UnionSize(Blocks(w, Pieces(w, lo, t)), Blocks(w, ps));
        LaneBlock(w, t);
      }
    }
  }

  /** A lane has one global access, in one block. */
  lemma LaneBlock(w: Instruction, t: nat)
    requires Valid(w) && t in w.active
    ensures w.space == GlobalSpace ==> |Blocks(w, LanePieces(w, t, PieceCount(w)))| == 1
  {
    if w.space == GlobalSpace {
      hide Block;
      var p := Piece(t, w.addrs[t][0]);
      assert LanePieces(w, t, PieceCount(w)) == [p];
      assert Blocks(w, [p]) == {Block(w, p)};
    }
  }

  lemma SubwarpCount(w: Instruction, part: nat)
    requires Valid(w) && part < w.parts
    ensures Start(w, part) <= Start(w, part + 1)
    ensures |SubwarpAccesses(w, false, part)| <= |SubwarpAccesses(w, true, part)|
    ensures w.space == GlobalSpace ==>
              |SubwarpAccesses(w, true, part)| == |ActiveIn(w.active, Start(w, part), Start(w, part + 1))|
  {
    hide Collect, Emit, Separate, Pieces, Blocks, Start, ActiveIn;
    SubwarpFits(w, part);
    var lo, hi := Start(w, part), Start(w, part + 1);
    SeparateCount(w, lo, hi);
    EmitCount(w, Pieces(w, lo, hi), false);
  }

  lemma {:induction false} FirstCount(w: Instruction, n: nat)
    requires Valid(w) && n <= w.parts
    ensures |Coalesced(w, false, n)| <= |Coalesced(w, true, n)|
    ensures w.space == GlobalSpace ==> |Coalesced(w, true, n)| == |ActiveIn(w.active, 0, Start(w, n))|
  {
    hide SubwarpAccesses, Start;
    StartsAtZero(w);
    if n == 0 {
      NoneActive(w.active, 0);
    } else {
      hide ActiveIn, Valid;
      FirstCount(w, n - 1);
      SubwarpCount(w, n - 1);
      ActiveSplit(w.active, Start(w, n - 1), Start(w, n));
    }
  }

  /** Coalescing never sends more accesses; without it global memory gets exactly one access for each
      active lane, whatever the addresses are. */
  lemma SecureCount(w: Instruction)
    requires Valid(w)
    ensures |Coalesced(w, false, w.parts)| <= |Coalesced(w, true, w.parts)|
    ensures w.space == GlobalSpace ==> |Coalesced(w, true, w.parts)| == |w.active|
  {
    StartsAtZero(w);
    FirstCount(w, w.parts);
    assert ActiveIn(w.active, 0, w.warpSize) == w.active;
  }
}
