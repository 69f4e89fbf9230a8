/**
 Generation of memory accesses for one warp instruction on global or local memory: the coalescing
 rules, and the repository's mode that disables coalescing.
 */
module Coalescing {
  import opened Ordered
  import Subwarps

  datatype AccessType = GlobalRead | LocalRead | GlobalWrite | LocalWrite

  datatype Space = GlobalSpace | LocalSpace | ParamSpaceLocal

  /** `bytes` counts from the start of the 128-byte line that holds `addr`. */
  datatype MemAccess = MemAccess(typ: AccessType, addr: nat, size: nat, write: bool, lanes: set<nat>, bytes: set<nat>)

  /** `transaction_info`: which 32-byte chunks and bytes of a 128-byte line are touched, and by whom. */
  datatype Transaction = Transaction(chunks: set<nat>, bytes: set<nat>, active: set<nat>)

  const EMPTY := Transaction({}, {}, {})

  /** The instruction: `addrs[t]` are the addresses of lane t, one for each sub-access. */
  datatype Instruction = Instruction(
    warpSize: nat, parts: nat, dataSize: nat, space: Space, write: bool,
    active: set<nat>, addrs: seq<seq<nat>>)

  /** `access_type` in generate_mem_accesses. */
  function TypeOf(w: Instruction): AccessType {
    match w.space
    case GlobalSpace => if w.write then GlobalWrite else GlobalRead
    case LocalSpace => if w.write then LocalWrite else LocalRead
    case ParamSpaceLocal => if w.write then LocalWrite else LocalRead
  }

  const MAX_ACCESSES_PER_INSN_PER_THREAD := 8

  // ---------------------------------------------------------------- addresses

  /** `line_size_based_tag_func`, truncated to 32 bits. */
  function Tag(addr: nat, lineSize: nat): nat
    requires lineSize > 0
  {
    (addr - addr % lineSize) % 0x1_0000_0000
  }

  function SegmentSize(dataSize: nat): nat {
    if dataSize == 1 then 32 else if dataSize == 2 then 64 else 128
  }

  function Line(addr: nat): nat {
    addr - addr % 128
  }

  predicate SplitInWords(w: Instruction) {
    w.space != GlobalSpace && w.dataSize >= 4
  }

  /** Local accesses of more than four bytes are split into four-byte pieces. */
  function PieceSize(w: Instruction): nat {
    if SplitInWords(w) then 4 else w.dataSize
  }

  function PieceCount(w: Instruction): nat {
    if SplitInWords(w) then w.dataSize / 4 else 1
  }

  /** What the source asserts or takes for granted: known sizes, 32-bit addresses, and pieces that
      do not cross a segment. */
  ghost predicate Valid(w: Instruction) {
    && w.parts > 0 && w.warpSize % w.parts == 0
    && w.dataSize in {1, 2, 4, 8, 16}
    && |w.addrs| == w.warpSize
    && (forall t | t in w.active :: t < w.warpSize)
    && (forall t | 0 <= t < w.warpSize :: |w.addrs[t]| == MAX_ACCESSES_PER_INSN_PER_THREAD)
    && (forall t, k | t in w.active && 0 <= k < PieceCount(w) :: WithinSegment(w, w.addrs[t][k]))
  }

  predicate WithinSegment(w: Instruction, addr: nat) {
    var seg := SegmentSize(w.dataSize);
    addr < 0x1_0000_0000 && addr % seg + PieceSize(w) <= seg
  }

  // ---------------------------------------------------------------- collecting transactions

  /** One sub-access: a lane and the first byte it touches. */
  datatype Piece = Piece(lane: nat, addr: nat)

  function Block(w: Instruction, p: Piece): nat {
    Tag(p.addr, SegmentSize(w.dataSize))
  }

  function Chunk(addr: nat): nat {
    addr % 128 / 32
  }

  /** The `n` numbers from `lo` on. */
  function Range(lo: nat, n: nat): (r: set<nat>)
    ensures forall x :: x in r <==> lo <= x < lo + n
  {
    if n == 0 then {} else Range(lo, n - 1) + {lo + n - 1}
  }

  /** The byte-mask bits of an access of `size` bytes. */
  function ByteBits(addr: nat, size: nat): set<nat> {
    Range(addr % 128, size)
  }

  function Touched(w: Instruction, info: Transaction, p: Piece): Transaction {
    Transaction(info.chunks + {Chunk(p.addr)}, info.bytes + ByteBits(p.addr, PieceSize(w)), info.active + {p.lane})
  }

  function Insert(w: Instruction, m: map<nat, Transaction>, p: Piece): map<nat, Transaction> {
    var b := Block(w, p);
    m[b := Touched(w, if b in m then m[b] else EMPTY, p)]
  }

  function Collect(w: Instruction, ps: seq<Piece>): map<nat, Transaction> {
    if ps == [] then map[] else Insert(w, Collect(w, ps[..|ps| - 1]), ps[|ps| - 1])
  }

  /** The first `n` sub-accesses of lane `t`. */
  function LanePieces(w: Instruction, t: nat, n: nat): (ps: seq<Piece>)
    requires t < |w.addrs| && n <= |w.addrs[t]|
    ensures |ps| == n && forall k | 0 <= k < n :: ps[k] == Piece(t, w.addrs[t][k])
  {
    if n == 0 then [] else LanePieces(w, t, n - 1) + [Piece(t, w.addrs[t][n - 1])]
  }

  /** The sub-accesses of the active lanes in [lo, hi), in order. */
  function Pieces(w: Instruction, lo: nat, hi: nat): seq<Piece>
    requires Valid(w) && lo <= hi <= w.warpSize
  {
    if lo == hi then []
    else Pieces(w, lo, hi - 1) + (if hi - 1 in w.active then LanePieces(w, hi - 1, PieceCount(w)) else [])
  }

  // ---------------------------------------------------------------- emitting accesses

  /** The access that `memory_coalescing_arch_13_reduce_and_send` emits: halved while one half is unused. */
  function Reduced(w: Instruction, info: Transaction, addr: nat): MemAccess {
    var seg := SegmentSize(w.dataSize);
    var q := info.chunks;
    var (addr64, size64, h0, h1) :=
      if seg == 128 then
        var lower, upper := 0 in q || 1 in q, 2 in q || 3 in q;
        if lower && !upper then (addr, 64, 0 in q, 1 in q)
        else if !lower && upper then (addr + 64, 64, 2 in q, 3 in q)
        else (addr, 128, false, false)
      else if seg == 64 then
        if addr % 128 == 0 then (addr, 64, 0 in q, 1 in q) else (addr, 64, 2 in q, 3 in q)
      else (addr, seg, false, false);
    var (addr32, size32) :=
      if size64 == 64 then
        if h0 && !h1 then (addr64, 32) else if !h0 && h1 then (addr64 + 32, 32) else (addr64, 64)
      else (addr64, size64);
    MemAccess(TypeOf(w), addr32, size32, w.write, info.active, info.bytes)
  }

  function Whole(w: Instruction, info: Transaction, addr: nat): MemAccess {
    MemAccess(TypeOf(w), addr, SegmentSize(w.dataSize), w.write, info.active, info.bytes)
  }

  function Send(w: Instruction, info: Transaction, addr: nat, whole: bool): MemAccess {
    if whole then Whole(w, info, addr) else Reduced(w, info, addr)
  }

  /** One access for each listed block, in order. */
  function SendAll(w: Instruction, m: map<nat, Transaction>, keys: seq<nat>, whole: bool): (r: seq<MemAccess>)
    requires forall k | k in keys :: k in m
  {
    if keys == [] then []
    else
      var n := |keys| - 1;
      SendAll(w, m, keys[..n], whole) + [Send(w, m[keys[n]], keys[n], whole)]
  }

  lemma NothingSent(w: Instruction, m: map<nat, Transaction>, whole: bool)
    ensures SendAll(w, m, [], whole) == []
  {
  }

  lemma SendAllNext(w: Instruction, m: map<nat, Transaction>, keys: seq<nat>, i: nat, whole: bool)
    requires i < |keys| && forall k | k in keys :: k in m
    ensures SendAll(w, m, keys[..i + 1], whole)
        == SendAll(w, m, keys[..i], whole) + [Send(w, m[keys[i]], keys[i], whole)]
  {
    assert keys[..i + 1][..i] == keys[..i];
  }

  lemma {:induction false} SendAllAt(w: Instruction, m: map<nat, Transaction>, keys: seq<nat>, whole: bool)
    requires forall k | k in keys :: k in m
    ensures var r := SendAll(w, m, keys, whole);
            |r| == |keys| && forall i | 0 <= i < |keys| :: r[i] == Send(w, m[keys[i]], keys[i], whole)
  {
    hide Send;
    if keys != [] { SendAllAt(w, m, keys[..|keys| - 1], whole); }
  }

  /** One access for each block, in address order. */
  function Emit(w: Instruction, m: map<nat, Transaction>, whole: bool): seq<MemAccess> {
    SendAll(w, m, Sorted(m.Keys), whole)
  }

  /** Without coalescing every active lane in [lo, hi) sends its own blocks whole. */
  function Separate(w: Instruction, lo: nat, hi: nat): seq<MemAccess>
    requires Valid(w) && lo <= hi <= w.warpSize
  {
    if lo == hi then []
    else
      Separate(w, lo, hi - 1)
      + (if hi - 1 in w.active then Emit(w, Collect(w, LanePieces(w, hi - 1, PieceCount(w))), true) else [])
  }

  /** The first lane of a subwarp. */
  function Start(w: Instruction, part: nat): nat
    requires w.parts > 0
  {
    Subwarps.First(w.warpSize, w.parts, part)
  }

  lemma SubwarpFits(w: Instruction, part: nat)
    requires w.parts > 0 && w.warpSize % w.parts == 0 && part < w.parts
    ensures Start(w, part) <= Start(w, part + 1) <= w.warpSize
  {
    Subwarps.Fits(w.warpSize, w.parts, part);
  }

  function LanesAccesses(w: Instruction, disabled: bool, lo: nat, hi: nat): seq<MemAccess>
    requires Valid(w) && lo <= hi <= w.warpSize
  {
    if disabled then Separate(w, lo, hi) else Emit(w, Collect(w, Pieces(w, lo, hi)), false)
  }

  function SubwarpAccesses(w: Instruction, disabled: bool, part: nat): seq<MemAccess>
    requires Valid(w) && part < w.parts
  {
    SubwarpFits(w, part);
    LanesAccesses(w, disabled, Start(w, part), Start(w, part + 1))
  }

  /** The accesses of the first `n` subwarps. */
  function Coalesced(w: Instruction, disabled: bool, n: nat): seq<MemAccess>
    requires Valid(w) && n <= w.parts
  {
    if n == 0 then [] else Coalesced(w, disabled, n - 1) + SubwarpAccesses(w, disabled, n - 1)
  }

  // ---------------------------------------------------------------- one lane, one piece more

  lemma NoLanes(w: Instruction, lo: nat)
    requires Valid(w) && lo <= w.warpSize
    ensures Pieces(w, lo, lo) == [] && Separate(w, lo, lo) == []
  {
  }

  lemma NextLane(w: Instruction, lo: nat, t: nat)
    requires Valid(w) && lo <= t < w.warpSize
    ensures t in w.active ==>
              && Pieces(w, lo, t + 1) == Pieces(w, lo, t) + LanePieces(w, t, PieceCount(w))
              && Separate(w, lo, t + 1) == Separate(w, lo, t)
                  + Emit(w, Collect(w, LanePieces(w, t, PieceCount(w))), true)
    ensures t !in w.active ==> Pieces(w, lo, t + 1) == Pieces(w, lo, t) && Separate(w, lo, t + 1) == Separate(w, lo, t)
  {
    hide Emit, Collect, PieceCount;
  }

  lemma CollectLast(w: Instruction, ps: seq<Piece>, p: Piece)
    ensures Collect(w, ps + [p]) == Insert(w, Collect(w, ps), p)
  {
    assert (ps + [p])[..|ps|] == ps;
  }

  lemma NothingCollected(w: Instruction)
    ensures Collect(w, []) == map[] && Emit(w, map[], false) == []
  {
  }
}
