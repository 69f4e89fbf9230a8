/** A warp instruction as an object that the methods add memory accesses to. */
module WarpInsts {
  import opened Ordered
  import opened Coalescing
  import opened CoalescingModes
  import opened CoalescingOutcome
  import opened AtomicCoalescing
  import opened AtomicTheory
  import opened AtomicWarp

  /** The configuration flags that control the secure mode. */
  datatype Config = Config(coalDisabled: bool, coalDisabledDyn: bool, coalLineNum: nat)

  /** Coalescing is off globally, or, in dynamic mode, at one source line only. */
  function Disabled(c: Config, line: nat): bool {
    if c.coalDisabledDyn then line == c.coalLineNum else c.coalDisabled
  }

  class WarpInst {
    const w: Instruction
    var accessq: seq<MemAccess>

    constructor (w: Instruction)
      ensures this.w == w && accessq == []
    {
      this.w := w;
      accessq := [];
    }

    method ReduceAndSend(info: Transaction, block: nat)
      modifies this
      ensures accessq == old(accessq) + [Reduced(w, info, block)]
      ensures var sent := accessq[|old(accessq)|];
              sent.write == w.write && OfKind(w, sent.typ) && sent.lanes == info.active && sent.bytes == info.bytes
    {
      var q, addr, segmentSize := info.chunks, block, SegmentSize(w.dataSize);
      var h0, h1 := false, false;
      var size := segmentSize;
      if segmentSize == 128 {
        var lowerHalfUsed := 0 in q || 1 in q;
        var upperHalfUsed := 2 in q || 3 in q;
        if lowerHalfUsed && !upperHalfUsed {
          size := 64;
          if 0 in q { h0 := true; }
          if 1 in q { h1 := true; }
        } else if !lowerHalfUsed && upperHalfUsed {
          addr := addr + 64;
          size := 64;
          if 2 in q { h0 := true; }
          if 3 in q { h1 := true; }
        }
      } else if segmentSize == 64 {
        if addr % 128 == 0 {
          if 0 in q { h0 := true; }
          if 1 in q { h1 := true; }
        } else {
          if 2 in q { h0 := true; }
          if 3 in q { h1 := true; }
        }
      }
      if size == 64 {
        if h0 && !h1 {
          size := 32;
        } else if !h0 && h1 {
          addr := addr + 32;
          size := 32;
        }
      }
      accessq := accessq + [MemAccess(TypeOf(w), addr, size, w.write, info.active, info.bytes)];
    }

    method MarkBytes(bytes: set<nat>, idx: nat, n: nat) returns (marked: set<nat>)
      ensures marked == bytes + Range(idx, n)
    {
      marked := bytes;
      for i := 0 to n
        invariant marked == bytes + Range(idx, i)
      {
        marked := marked + {idx + i};
      }
    }

    method AddPiece(transactions: map<nat, Transaction>, thread: nat, addr: nat, dataSizeCoales: nat,
        ghost before: seq<Piece>)
      returns (after: map<nat, Transaction>)
      requires transactions == Collect(w, before) && dataSizeCoales == PieceSize(w)
      ensures after == Collect(w, before + [Piece(thread, addr)])
    {
      hide Tag, Range, Collect;
      var block := Tag(addr, SegmentSize(w.dataSize));
      var chunk := addr % 128 / 32;
      var info := if block in transactions then transactions[block] else EMPTY;
      var bytes := MarkBytes(info.bytes, addr % 128, dataSizeCoales);
      CollectLast(w, before, Piece(thread, addr));
      after := transactions[block := Transaction(info.chunks + {chunk}, bytes, info.active + {thread})];
    }

    /** Adds the sub-accesses of one lane to the transactions. */
    method AddLane(transactions: map<nat, Transaction>, thread: nat, ghost before: seq<Piece>)
        returns (after: map<nat, Transaction>)
      requires Valid(w) && thread < w.warpSize && transactions == Collect(w, before)
      ensures after == Collect(w, before + LanePieces(w, thread, PieceCount(w)))
    {
      hide Collect;
      var dataSizeCoales, numAccesses := w.dataSize, 1;
      if w.space == LocalSpace || w.space == ParamSpaceLocal {
        if w.dataSize >= 4 {
          dataSizeCoales := 4;
          numAccesses := w.dataSize / 4;
        }
      }
      after := transactions;
      assert before + LanePieces(w, thread, 0) == before;
      for access := 0 to numAccesses
        invariant after == Collect(w, before + LanePieces(w, thread, access))
      {
        var addr := w.addrs[thread][access];
        after := AddPiece(after, thread, addr, dataSizeCoales, before + LanePieces(w, thread, access));
        assert before + LanePieces(w, thread, access + 1)
            == (before + LanePieces(w, thread, access)) + [Piece(thread, addr)];
      }
    }

    method SendReduced(transactions: map<nat, Transaction>, keys: seq<nat>)
      requires forall k | k in keys :: k in transactions
      modifies this
      ensures accessq == old(accessq) + SendAll(w, transactions, keys, false)
    {
      hide Reduced, SendAll;
      NothingSent(w, transactions, false);
      for i := 0 to |keys|
        invariant accessq == old(accessq) + SendAll(w, transactions, keys[..i], false)
      {
        SendAllNext(w, transactions, keys, i, false);
        ReduceAndSend(transactions[keys[i]], keys[i]);
      }
      assert keys[..|keys|] == keys;
    }

    method SendWhole(transactions: map<nat, Transaction>, keys: seq<nat>)
      requires forall k | k in keys :: k in transactions
      modifies this
      ensures accessq == old(accessq) + SendAll(w, transactions, keys, true)
    {
      hide SendAll;
      NothingSent(w, transactions, true);
      for i := 0 to |keys|
        invariant accessq == old(accessq) + SendAll(w, transactions, keys[..i], true)
      {
        SendAllNext(w, transactions, keys, i, true);
        var info := transactions[keys[i]];
        accessq := accessq + [MemAccess(TypeOf(w), keys[i], SegmentSize(w.dataSize), w.write, info.active, info.bytes)];
      }
      assert keys[..|keys|] == keys;
    }

    /** The body of the thread loop, for an active lane. */
    method CoalesceLane(c: Config, line: nat, thread: nat, transactionsIn: map<nat, Transaction>,
        ghost before: seq<Piece>)
      returns (coalDisabled: bool, transactions: map<nat, Transaction>)
      requires Valid(w) && thread < w.warpSize
      requires !Disabled(c, line) ==> transactionsIn == Collect(w, before)
      modifies this
      ensures coalDisabled == Disabled(c, line)
      ensures coalDisabled ==> accessq == old(accessq) + Emit(w, Collect(w, LanePieces(w, thread, PieceCount(w))), true)
      ensures !coalDisabled ==>
                accessq == old(accessq) && transactions == Collect(w, before + LanePieces(w, thread, PieceCount(w)))
    {
      ghost var mine := LanePieces(w, thread, PieceCount(w));
      assert [] + mine == mine;
      hide Valid, Emit, LanePieces, Collect, PieceCount;
      NothingCollected(w);
      transactions := transactionsIn;
      coalDisabled := c.coalDisabled;
      if c.coalDisabledDyn {
        coalDisabled := if line == c.coalLineNum then true else false;
      }
      if coalDisabled {
        transactions := map[];
      }
      transactions := AddLane(transactions, thread, if coalDisabled then [] else before);
      if coalDisabled {
        SendWholeAll(transactions);
      }
    }

    /** The lanes [lo, hi) of one subwarp. */
    method CoalesceLanes(c: Config, line: nat, lo: nat, hi: nat, coalDisabledIn: bool, ghost idle: bool)
        returns (coalDisabled: bool, ghost idle': bool)
      requires Valid(w) && lo <= hi <= w.warpSize
      requires coalDisabledIn == Disabled(c, line) || (coalDisabledIn && idle)
      modifies this
      ensures accessq == old(accessq) + LanesAccesses(w, Disabled(c, line), lo, hi)
      ensures coalDisabled == Disabled(c, line) || (coalDisabled && idle')
    {
      hide Valid, Collect, Emit, LanePieces, Disabled, Pieces, Separate, PieceCount;
      coalDisabled, idle' := coalDisabledIn, idle;
      var transactions := map[];
      NothingCollected(w);
      NoLanes(w, lo);
      for thread := lo to hi
        invariant coalDisabled == Disabled(c, line) || (coalDisabled && idle' && Pieces(w, lo, thread) == [])
        invariant accessq == old(accessq) + (if Disabled(c, line) then Separate(w, lo, thread) else [])
        invariant !Disabled(c, line) ==> transactions == Collect(w, Pieces(w, lo, thread))
      {
        NextLane(w, lo, thread);
        if thread in w.active {
          idle' := false;
          coalDisabled, transactions := CoalesceLane(c, line, thread, transactions, Pieces(w, lo, thread));
        }
      }
      if !coalDisabled {
        SendReducedAll(transactions);
      }
    }

    /** One subwarp.  `coalDisabled` keeps its value across subwarps: it is set by the active lanes. */
    method CoalesceSubwarp(c: Config, line: nat, subwarp: nat, coalDisabledIn: bool, ghost idle: bool)
        returns (coalDisabled: bool, ghost idle': bool)
      requires Valid(w) && subwarp < w.parts
      requires coalDisabledIn == Disabled(c, line) || (coalDisabledIn && idle)
      modifies this
      ensures accessq == old(accessq) + SubwarpAccesses(w, Disabled(c, line), subwarp)
      ensures coalDisabled == Disabled(c, line) || (coalDisabled && idle')
    {
      SubwarpFits(w, subwarp);
      var subwarpSize := w.warpSize / w.parts;
      var first, end := subwarp * subwarpSize, subwarpSize * (subwarp + 1);
      assert first == Start(w, subwarp) && end == Start(w, subwarp + 1);
      hide Start, LanesAccesses, Disabled;
      coalDisabled, idle' := CoalesceLanes(c, line, first, end, coalDisabledIn, idle);
    }

    method SendWholeAll(transactions: map<nat, Transaction>)
      modifies this
      ensures accessq == old(accessq) + Emit(w, transactions, true)
    {
      hide SendAll;
      SendWhole(transactions, Sorted(transactions.Keys));
    }

    method SendReducedAll(transactions: map<nat, Transaction>)
      modifies this
      ensures accessq == old(accessq) + Emit(w, transactions, false)
    {
      hide SendAll;
      SendReduced(transactions, Sorted(transactions.Keys));
    }

    /** memory_coalescing_arch_13.  If coalescing is disabled, at this source line in dynamic mode or else
        throughout, each lane sends the blocks it touches by itself and whole; in every other case each
        subwarp sends each block that its lanes touch once, and no more of it than they need. */
    method MemoryCoalescing(c: Config, line: nat)
      requires Valid(w)
      modifies this
      ensures accessq == old(accessq) + Coalesced(w, Disabled(c, line), w.parts)
      ensures (c.coalDisabledDyn && line == c.coalLineNum) || (!c.coalDisabledDyn && c.coalDisabled) ==>
                && ByRanges(w, w.warpSize, 1, true, accessq[|old(accessq)|..])
                && (w.space == GlobalSpace ==> |accessq| == |old(accessq)| + |w.active|)
      ensures (c.coalDisabledDyn && line != c.coalLineNum) || (!c.coalDisabledDyn && !c.coalDisabled) ==>
                ByRanges(w, w.parts, w.warpSize / w.parts, false, accessq[|old(accessq)|..])
    {
      hide SubwarpAccesses, ByRanges;
      var coalDisabled := true;
      ghost var idle := true;
      for subwarp := 0 to w.parts
        invariant coalDisabled == Disabled(c, line) || (coalDisabled && idle)
        invariant accessq == old(accessq) + Coalesced(w, Disabled(c, line), subwarp)
      {
        coalDisabled, idle := CoalesceSubwarp(c, line, subwarp, coalDisabled, idle);
      }
      assert accessq[|old(accessq)|..] == Coalesced(w, Disabled(c, line), w.parts);
      CoalescedByRanges(w, Disabled(c, line));
      SecureCount(w);
    }



    /** The same instruction cut into half-warps, as atomics are whatever the configuration says. */
    function Halves(): Instruction {
      w.(parts := 2)
    }

    method EmitList(list: seq<Transaction>, b: nat)
      modifies this
      ensures accessq == old(accessq) + SendList(Halves(), list, b)
    {
      forall i | 0 <= i < |list|
        ensures Reduced(w, list[i], b) == Reduced(Halves(), list[i], b)
      {
        PartsIrrelevant(w, 2, list[i], b);
      }
      hide Reduced;
      for i := 0 to |list|
        invariant accessq == old(accessq) + SendList(Halves(), list, b)[..i]
      {
        ReduceAndSend(list[i], b);
      }
    }

    /** Step 2: the accesses of one half-warp. */
    method EmitHalf(m: Lists)
      modifies this
      ensures accessq == old(accessq) + EmitAtomic(Halves(), m)
    {
      var keys := Sorted(m.Keys);
      hide SendList, SendLists, Sorted;
      NoLists(Halves(), m);
      for i := 0 to |keys|
        invariant accessq == old(accessq) + SendLists(Halves(), m, keys[..i])
      {
        NextList(Halves(), m, keys, i);
        EmitList(m[keys[i]], keys[i]);
      }
      assert keys[..|keys|] == keys;
    }

    /** memory_coalescing_arch_13_atomic: every active lane is named by exactly one of the new accesses,
        each of them is for lanes of one half-warp in one block, and they go by half-warps and blocks. */
    method CoalesceAtomic()
      requires ValidAtomic(Halves())
      modifies this
      ensures accessq == old(accessq) + AtomicAccesses(Halves())
      ensures LanesOnce(accessq[|old(accessq)|..]) && Named(accessq[|old(accessq)|..]) == w.active
      ensures exists halves, blocks :: InOrder(Halves(), accessq[|old(accessq)|..], halves, blocks)
    {
      hide CollectAtomic, EmitAtomic, Pieces, InOrder, LanesOnce, Named;
      var h := Halves();
      ghost var sent: seq<MemAccess> := [];
      for half := 0 to 2
        invariant accessq == old(accessq) + sent
        invariant sent == if half == 0 then [] else if half == 1 then HalfAccesses(h, 0) else AtomicAccesses(h)
      {
        SubwarpFits(h, half);
        var size := w.warpSize / 2;
        var first, end := half * size, (half + 1) * size;
        assert first == Start(h, half) && end == Start(h, half + 1);
        var m := CollectHalf(h, first, end);
        EmitHalf(m);
        sent := sent + HalfAccesses(h, half);
      }
      assert accessq[|old(accessq)|..] == AtomicAccesses(h);
      AtomicLanesOnce(h);
      ghost var halves, blocks := AtomicInOrder(h);
    }
  }

  lemma PartsIrrelevant(w: Instruction, n: nat, info: Transaction, b: nat)
    ensures Reduced(w.(parts := n), info, b) == Reduced(w, info, b)
  {
  }
}
