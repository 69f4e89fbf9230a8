/**
 Memory accesses of an atomic operation.  Lanes that touch a common byte must go in different
 transactions, so each block has a list of transactions that is filled first fit.
 */
module AtomicCoalescing {
  import opened Ordered
  import opened Coalescing

  type Lists = map<nat, seq<Transaction>>

  /** Atomics work on global memory and on half-warps, whatever the configuration says. */
  ghost predicate ValidAtomic(w: Instruction) {
    Valid(w) && w.space == GlobalSpace && w.parts == 2
  }

  function Bits(w: Instruction, p: Piece): set<nat> {
    ByteBits(p.addr, PieceSize(w))
  }

  /** `transaction_info::test_bytes` on the bytes of the piece. */
  predicate Conflicts(w: Instruction, info: Transaction, p: Piece) {
    exists x :: x in Bits(w, p) && x in info.bytes
  }

  /** The first transaction of the list without a conflict, or its length. */
  function FirstFit(w: Instruction, list: seq<Transaction>, p: Piece): (j: nat)
    ensures j <= |list| && (forall i | 0 <= i < j :: Conflicts(w, list[i], p))
        && (j < |list| ==> !Conflicts(w, list[j], p))
  {
    if list == [] then 0 else if Conflicts(w, list[0], p) then 1 + FirstFit(w, list[1..], p) else 0
  }

  lemma FirstFitIs(w: Instruction, list: seq<Transaction>, p: Piece, j: nat)
    requires j <= |list| && (forall i | 0 <= i < j :: Conflicts(w, list[i], p))
        && (j < |list| ==> !Conflicts(w, list[j], p))
    ensures j == FirstFit(w, list, p)
  {
    hide Conflicts;
  }

  function Place(w: Instruction, list: seq<Transaction>, p: Piece): seq<Transaction> {
    var j := FirstFit(w, list, p);
    if j == |list| then list + [Touched(w, EMPTY, p)] else list[j := Touched(w, list[j], p)]
  }

  function ListAt(m: Lists, b: nat): seq<Transaction> {
    if b in m then m[b] else []
  }

  function CollectAtomic(w: Instruction, ps: seq<Piece>): Lists {
    if ps == [] then map[]
    else
      var m, p := CollectAtomic(w, ps[..|ps| - 1]), ps[|ps| - 1];
      m[Block(w, p) := Place(w, ListAt(m, Block(w, p)), p)]
  }

  lemma CollectAtomicLast(w: Instruction, ps: seq<Piece>, p: Piece)
    ensures CollectAtomic(w, ps + [p])
        == CollectAtomic(w, ps)[Block(w, p) := Place(w, ListAt(CollectAtomic(w, ps), Block(w, p)), p)]
  {
    assert (ps + [p])[..|ps|] == ps;
  }

  function SendList(w: Instruction, list: seq<Transaction>, b: nat): (r: seq<MemAccess>)
    ensures |r| == |list| && forall i | 0 <= i < |list| :: r[i] == Reduced(w, list[i], b)
  {
    seq(|list|, i requires 0 <= i < |list| => Reduced(w, list[i], b))
  }

  function SendLists(w: Instruction, m: Lists, keys: seq<nat>): seq<MemAccess>
    requires forall k | k in keys :: k in m
  {
    if keys == [] then []
    else SendLists(w, m, keys[..|keys| - 1]) + SendList(w, m[keys[|keys| - 1]], keys[|keys| - 1])
  }

  lemma NoLists(w: Instruction, m: Lists)
    ensures SendLists(w, m, []) == []
  {
  }

  lemma NextList(w: Instruction, m: Lists, keys: seq<nat>, i: nat)
    requires i < |keys| && forall k | k in keys :: k in m
    ensures SendLists(w, m, keys[..i + 1]) == SendLists(w, m, keys[..i]) + SendList(w, m[keys[i]], keys[i])
  {
    assert keys[..i + 1][..i] == keys[..i];
  }

  function EmitAtomic(w: Instruction, m: Lists): seq<MemAccess> {
    SendLists(w, m, Sorted(m.Keys))
  }

  function HalfAccesses(w: Instruction, half: nat): seq<MemAccess>
    requires ValidAtomic(w) && half < 2
  {
    SubwarpFits(w, half);
    EmitAtomic(w, CollectAtomic(w, Pieces(w, Start(w, half), Start(w, half + 1))))
  }

  function AtomicAccesses(w: Instruction): seq<MemAccess>
    requires ValidAtomic(w)
  {
    HalfAccesses(w, 0) + HalfAccesses(w, 1)
  }

  // ---------------------------------------------------------------- the methods

  method TestBytes(bytes: set<nat>, startBit: nat, n: nat) returns (hit: bool)
    ensures hit <==> exists x :: x in Range(startBit, n) && x in bytes
  {
    for i := 0 to n
      invariant forall x | x in Range(startBit, i) :: x !in bytes
    {
      if startBit + i in bytes {
        assert startBit + i in Range(startBit, n);
        return true;
      }
    }
    return false;
  }

  method PlaceLane(w: Instruction, list: seq<Transaction>, p: Piece) returns (r: seq<Transaction>)
    requires w.space == GlobalSpace
    ensures r == Place(w, list, p)
  {
    var idx := p.addr % 128;
    var j := 0;
    while j < |list|
      invariant j <= |list|
      invariant forall i | 0 <= i < j :: Conflicts(w, list[i], p)
    {
      var hit := TestBytes(list[j].bytes, idx, w.dataSize);
      if !hit { break; }
      j := j + 1;
    }
    FirstFitIs(w, list, p, j);
    var info := if j < |list| then list[j] else EMPTY;
    var bytes := info.bytes;
    for i := 0 to w.dataSize
      invariant bytes == info.bytes + Range(idx, i)
    {
      bytes := bytes + {idx + i};
    }
    info := Transaction(info.chunks + {p.addr % 128 / 32}, bytes, info.active + {p.lane});
    r := if j < |list| then list[j := info] else list + [info];
  }

  /** Step 1: the transactions of one half-warp. */
  method CollectHalf(w: Instruction, lo: nat, hi: nat) returns (m: Lists)
    requires ValidAtomic(w) && lo <= hi <= w.warpSize
    ensures m == CollectAtomic(w, Pieces(w, lo, hi))
  {
    hide Place, CollectAtomic, Block;
    m := map[];
    NoneCollected(w);
    NoLanes(w, lo);
    for thread := lo to hi
      invariant m == CollectAtomic(w, Pieces(w, lo, thread))
    {
      NextLane(w, lo, thread);
      if thread in w.active {
        var p := Piece(thread, w.addrs[thread][0]);
        assert LanePieces(w, thread, 1) == [p];
        CollectAtomicLast(w, Pieces(w, lo, thread), p);
        var block := Block(w, p);
        var list := PlaceLane(w, ListAt(m, block), p);
        m := m[block := list];
      }
    }
  }

  lemma NoneCollected(w: Instruction)
    ensures CollectAtomic(w, []) == map[]
  {
  }
}
