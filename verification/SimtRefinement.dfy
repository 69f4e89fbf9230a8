/**
 The reconvergence stack refines a set of independent scalar threads: the highest
 entry that holds a live lane always carries that lane's own program counter.
 */
module SimtRefinement {
  import opened Ordered
  import opened SimtStacks

  // ---------------------------------------------------------------- abstraction

  /** The PC of the highest entry that holds lane `i`; no live lane is ever at NULL_PC. */
  function PcOf(stack: seq<Entry>, i: nat): Pc {
    if stack == [] then NULL_PC
    else if i in Top(stack).mask then Top(stack).pc
    else PcOf(Below(stack), i)
  }

  predicate Holds(stack: seq<Entry>, i: nat) {
    exists k :: 0 <= k < |stack| && i in stack[k].mask
  }

  ghost predicate Agrees(stack: seq<Entry>, lanes: set<nat>, pcs: seq<Pc>) {
    forall i | i in lanes :: i < |pcs| && pcs[i] != NULL_PC && PcOf(stack, i) == pcs[i]
  }

  // ---------------------------------------------------------------- invariant

  /** Entry `p` waits at the reconvergence point of entry `k` and holds all its live lanes,
      and nothing between them does. */
  ghost predicate IsParent(stack: seq<Entry>, done: set<nat>, k: int, p: int)
    requires 0 <= k < |stack|
  {
    && 0 <= p < k
    && stack[p].pc == stack[k].recvg
    && stack[k].mask - done <= stack[p].mask
    && forall m | p < m < k :: stack[m].kind == Normal && stack[m].mask !! (stack[k].mask - done)
  }

  ghost predicate Reconverges(stack: seq<Entry>, done: set<nat>, k: int)
    requires 0 <= k < |stack|
  {
    stack[k].kind == Normal && stack[k].recvg != NULL_PC ==> exists p :: IsParent(stack, done, k, p)
  }

  /** A call entry holds only lanes of its caller, and every live caller lane is in the callee. */
  ghost predicate CallCovered(stack: seq<Entry>, done: set<nat>, c: int)
    requires 0 <= c < |stack|
  {
    stack[c].kind == Call ==>
      && 0 < c
      && stack[c].mask - done <= stack[c - 1].mask
      && forall i | i in stack[c - 1].mask - done :: Holds(stack[c..], i)
  }

  ghost predicate Inv(stack: seq<Entry>, warpSize: nat, done: set<nat>) {
    && WellFormed(stack, warpSize)
    && forall k | 0 <= k < |stack| :: Reconverges(stack, done, k) && CallCovered(stack, done, k)
  }

  lemma InvMonotone(stack: seq<Entry>, warpSize: nat, done: set<nat>, done': set<nat>)
    requires Inv(stack, warpSize, done) && done <= done'
    ensures Inv(stack, warpSize, done')
  {
    forall k | 0 <= k < |stack|
      ensures Reconverges(stack, done', k) && CallCovered(stack, done', k)
    {
      assert Reconverges(stack, done, k) && CallCovered(stack, done, k);
      if stack[k].kind == Normal && stack[k].recvg != NULL_PC {
        var p :| IsParent(stack, done, k, p);
        assert IsParent(stack, done', k, p);
      }
    }
  }

  // ---------------------------------------------------------------- lookup lemmas

  lemma PcOfPush(stack: seq<Entry>, e: Entry, i: nat)
    ensures PcOf(stack + [e], i) == if i in e.mask then e.pc else PcOf(stack, i)
  {
    assert Below(stack + [e]) == stack;
  }

  lemma {:induction false} PcOfAt(stack: seq<Entry>, p: nat, i: nat)
    requires p < |stack| && i in stack[p].mask
    requires forall m | p < m < |stack| :: i !in stack[m].mask
    ensures PcOf(stack, i) == stack[p].pc
  {
    if p < |stack| - 1 {
      PcOfAt(Below(stack), p, i);
    }
  }

  lemma {:induction false} PcOfHeld(stack: seq<Entry>, i: nat)
    ensures PcOf(stack, i) != NULL_PC ==> Holds(stack, i)
  {
    if stack != [] && i !in Top(stack).mask {
      PcOfHeld(Below(stack), i);
      if PcOf(stack, i) != NULL_PC {
        var k :| 0 <= k < |Below(stack)| && i in Below(stack)[k].mask;
        assert i in stack[k].mask;
      }
    }
  }

  /** When the top entry reconverges, its lanes fall back to an entry at its reconvergence PC. */
  lemma FallsBack(stack: seq<Entry>, warpSize: nat, done: set<nat>, i: nat)
    requires Inv(stack, warpSize, done) && stack != []
    requires Top(stack).kind == Normal && Top(stack).recvg != NULL_PC
    requires i in Top(stack).mask - done
    ensures PcOf(Below(stack), i) == Top(stack).recvg
  {
    var k := |stack| - 1;
    assert Reconverges(stack, done, k);
    var p :| IsParent(stack, done, k, p);
    PcOfAt(Below(stack), p, i);
  }

  // ---------------------------------------------------------------- replacing the top entry

  /** Lane `i` of the top entry is also held lower down, with no call entry in between. */
  ghost predicate Sheltered(stack: seq<Entry>, i: nat)
    requires stack != []
  {
    exists j :: 0 <= j < |stack| - 1 && i in stack[j].mask && forall m | j < m < |stack| - 1 :: stack[m].kind == Normal
  }

  lemma ReplaceTop(stack: seq<Entry>, warpSize: nat, done: set<nat>, tail: seq<Entry>)
    requires Inv(stack, warpSize, done) && stack != []
    requires forall i | i in Top(stack).mask - done :: Holds(tail, i) || Sheltered(stack, i)
    requires WellFormed(Below(stack) + tail, warpSize)
    requires forall k | |stack| - 1 <= k < |stack| - 1 + |tail| ::
               Reconverges(Below(stack) + tail, done, k) && CallCovered(Below(stack) + tail, done, k)
    ensures Inv(Below(stack) + tail, warpSize, done)
  {
    var t := |stack| - 1;
    var new_ := Below(stack) + tail;
    forall k | 0 <= k < t
      ensures Reconverges(new_, done, k) && CallCovered(new_, done, k)
    {
      assert Reconverges(stack, done, k) && CallCovered(stack, done, k);
      if stack[k].kind == Normal && stack[k].recvg != NULL_PC {
        var p :| IsParent(stack, done, k, p);
        assert IsParent(new_, done, k, p);
      }
      if stack[k].kind == Call {
        forall i | i in stack[k - 1].mask - done
          ensures Holds(new_[k..], i)
        {
          StillHeld(stack, done, tail, k, i);
        }
      }
    }
  }

  lemma StillHeld(stack: seq<Entry>, done: set<nat>, tail: seq<Entry>, k: nat, i: nat)
    requires stack != [] && k < |stack| - 1 && stack[k].kind == Call
    requires Holds(stack[k..], i) && i !in done
    requires i in Top(stack).mask - done ==> Holds(tail, i) || Sheltered(stack, i)
    ensures Holds((Below(stack) + tail)[k..], i)
  {
    var t := |stack| - 1;
    var new_ := (Below(stack) + tail)[k..];
    var j :| 0 <= j < |stack[k..]| && i in stack[k..][j].mask;
    if k + j < t {
      assert i in new_[j].mask;
    } else if Holds(tail, i) {
      var m :| 0 <= m < |tail| && i in tail[m].mask;
      assert i in new_[t - k + m].mask;
    } else {
      var m :| 0 <= m < t && i in stack[m].mask && forall x | m < x < t :: stack[x].kind == Normal;
      assert k <= m;
      assert i in new_[m - k].mask;
    }
  }

  // ---------------------------------------------------------------- the cases of `update`

  lemma NormalTopSheltered(stack: seq<Entry>, warpSize: nat, done: set<nat>, i: nat)
    requires Inv(stack, warpSize, done) && stack != []
    requires Top(stack).kind == Normal && Top(stack).recvg != NULL_PC && i in Top(stack).mask - done
    ensures Sheltered(stack, i)
  {
    var k := |stack| - 1;
    assert Reconverges(stack, done, k);
    var p :| IsParent(stack, done, k, p);
    assert i in stack[p].mask;
  }

  /** The top entry is popped: its lanes have all exited, or it reconverges. */
  lemma PopKeepsInv(stack: seq<Entry>, warpSize: nat, done: set<nat>)
    requires Inv(stack, warpSize, done) && stack != []
    requires Top(stack).mask - done == {} || Top(stack).kind == Call || Top(stack).recvg != NULL_PC
    ensures Inv(Below(stack), warpSize, done)
  {
    forall i | i in Top(stack).mask - done
      ensures Sheltered(stack, i)
    {
      var k := |stack| - 1;
      if Top(stack).kind == Normal {
        NormalTopSheltered(stack, warpSize, done, i);
      } else {
        assert CallCovered(stack, done, k);
        assert i in stack[k - 1].mask;
      }
    }
    assert Below(stack) + [] == Below(stack);
    ReplaceTop(stack, warpSize, done, []);
  }

  /** An entry pushed in the slot of the top entry, with part of its lanes, keeps its parent. */
  lemma SameParent(stack: seq<Entry>, warpSize: nat, done: set<nat>, new_: seq<Entry>, k: int)
    requires Inv(stack, warpSize, done) && stack != []
    requires |stack| - 1 <= k < |new_| && Below(stack) <= new_
    requires Top(stack).kind == Normal && new_[k].recvg == Top(stack).recvg
    requires new_[k].mask - done <= Top(stack).mask - done
    requires forall m | |stack| - 1 <= m < k :: new_[m].kind == Normal && new_[m].mask !! new_[k].mask
    ensures Reconverges(new_, done, k)
  {
    assert Reconverges(stack, done, |stack| - 1);
    if Top(stack).recvg != NULL_PC {
      var p :| IsParent(stack, done, |stack| - 1, p);
      forall m | p < m < k
        ensures new_[m].kind == Normal && new_[m].mask !! (new_[k].mask - done)
      {
        if m < |stack| - 1 {
          assert new_[m] == stack[m];
        }
      }
      assert IsParent(new_, done, k, p);
    }
  }

  /** The top entry moves on with all its live lanes. */
  lemma MoveKeepsInv(stack: seq<Entry>, warpSize: nat, done: set<nat>, e: Entry)
    requires Inv(stack, warpSize, done) && stack != []
    requires e.kind == Top(stack).kind && e.recvg == Top(stack).recvg
    requires Top(stack).mask - done <= e.mask <= Top(stack).mask
    ensures Inv(Below(stack) + [e], warpSize, done)
  {
    var k := |stack| - 1;
    var new_ := Below(stack) + [e];
    assert Reconverges(stack, done, k) && CallCovered(stack, done, k);
    if e.kind == Normal {
      SameParent(stack, warpSize, done, new_, k);
    } else {
      forall i | i in new_[k - 1].mask - done
        ensures Holds(new_[k..], i)
      {
        assert Holds(stack[k..], i);
        assert i in new_[k..][0].mask;
      }
    }
    forall i | i in Top(stack).mask - done
      ensures Holds([e], i)
    {
      assert i in [e][0].mask;
    }
    ReplaceTop(stack, warpSize, done, [e]);
  }

  lemma PushKeepsInv(stack: seq<Entry>, warpSize: nat, done: set<nat>, e: Entry)
    requires Inv(stack, warpSize, done)
    requires WellFormed(stack + [e], warpSize)
    requires Reconverges(stack + [e], done, |stack|) && CallCovered(stack + [e], done, |stack|)
    ensures Inv(stack + [e], warpSize, done)
  {
    var new_ := stack + [e];
    forall k | 0 <= k < |stack|
      ensures Reconverges(new_, done, k) && CallCovered(new_, done, k)
    {
      assert Reconverges(stack, done, k) && CallCovered(stack, done, k);
      if stack[k].kind == Normal && stack[k].recvg != NULL_PC {
        var p :| IsParent(stack, done, k, p);
        assert IsParent(new_, done, k, p);
      }
      if stack[k].kind == Call {
        forall i | i in new_[k - 1].mask - done
          ensures Holds(new_[k..], i)
        {
          assert i in stack[k - 1].mask - done;
          assert Holds(stack[k..], i);
          var j :| 0 <= j < |stack[k..]| && i in stack[k..][j].mask;
          assert i in new_[k..][j].mask;
        }
      }
    }
  }

  lemma CallKeepsInv(stack: seq<Entry>, warpSize: nat, done: set<nat>, pc: Pc)
    requires Inv(stack, warpSize, done) && stack != []
    ensures Inv(stack + [Entry(pc, 0, Top(stack).mask - done, NULL_PC, Call)], warpSize, done)
  {
    var e := Entry(pc, 0, Top(stack).mask - done, NULL_PC, Call);
    var new_ := stack + [e];
    forall i | i in new_[|stack| - 1].mask - done
      ensures Holds(new_[|stack|..], i)
    {
      assert i in new_[|stack|..][0].mask;
    }
    PushKeepsInv(stack, warpSize, done, e);
  }

  lemma ReturnKeepsInv(stack: seq<Entry>, warpSize: nat, done: set<nat>, pc: Pc)
    requires Inv(stack, warpSize, done) && stack != [] && Top(stack).kind == Call && pc != NULL_PC
    ensures |stack| > 1 && Inv(Returned(Below(stack), pc), warpSize, done)
  {
    assert CallCovered(stack, done, |stack| - 1);
    PopKeepsInv(stack, warpSize, done);
    var callers := Below(stack);
    if pc == Top(callers).recvg && Top(callers).kind != Call {
      PopKeepsInv(callers, warpSize, done);
    } else {
      MoveKeepsInv(callers, warpSize, done, Top(callers).(pc := pc));
    }
  }

  /** A divergent branch, with the two groups of the live lanes. */
  ghost predicate Splits(stack: seq<Entry>, done: set<nat>, p: Pc, pMask: set<nat>, q: Pc, qMask: set<nat>)
    requires stack != []
  {
    p != q && p != NULL_PC && q != NULL_PC && pMask !! qMask && pMask != {} && qMask != {}
    && pMask + qMask == Top(stack).mask - done
  }

  /** Divergence below a fresh reconvergence entry. */
  lemma FreshSplitKeepsInv(stack: seq<Entry>, warpSize: nat, done: set<nat>, recvg: Pc,
                           p: Pc, pMask: set<nat>, q: Pc, qMask: set<nat>)
    requires Inv(stack, warpSize, done) && stack != [] && recvg != Top(stack).recvg
    requires Splits(stack, done, p, pMask, q, qMask)
    ensures Inv(Diverged(Below(stack), Top(stack), recvg, p, pMask, q, qMask), warpSize, done)
  {
    var top := Top(stack);
    var base := Below(stack) + [top.(pc := recvg)];
    MoveKeepsInv(stack, warpSize, done, top.(pc := recvg));
    var ps := if Kept(top, recvg, p) then [Entry(p, 0, pMask, recvg, Normal)] else [];
    var qs := if Kept(top, recvg, q) then [Entry(q, 0, qMask, recvg, Normal)] else [];
    assert Diverged(Below(stack), top, recvg, p, pMask, q, qMask) == base + ps + qs;
    PushChild(base, warpSize, done, |base| - 1, ps);
    PushChild(base + ps, warpSize, done, |base| - 1, qs);
  }

  /** Pushing a group (or nothing) whose reconvergence entry is at index `p`. */
  lemma PushChild(stack: seq<Entry>, warpSize: nat, done: set<nat>, p: nat, es: seq<Entry>)
    requires Inv(stack, warpSize, done) && p < |stack| && |es| <= 1
    requires es != [] ==>
      && es[0].kind == Normal && es[0].recvg == stack[p].pc && es[0].mask <= stack[p].mask
      && forall m | p < m < |stack| :: stack[m].kind == Normal && stack[m].mask !! es[0].mask
    ensures Inv(stack + es, warpSize, done)
  {
    if es == [] {
      assert stack + es == stack;
    } else {
      assert es == [es[0]];
      assert IsParent(stack + es, done, |stack|, p);
      PushKeepsInv(stack, warpSize, done, es[0]);
    }
  }

  /** Divergence that reconverges where the top entry does: the groups replace it. */
  lemma SharedSplitKeepsInv(stack: seq<Entry>, warpSize: nat, done: set<nat>,
                            p: Pc, pMask: set<nat>, q: Pc, qMask: set<nat>)
    requires Inv(stack, warpSize, done) && stack != []
    requires Splits(stack, done, p, pMask, q, qMask)
    ensures Inv(Diverged(Below(stack), Top(stack), Top(stack).recvg, p, pMask, q, qMask), warpSize, done)
  {
    var top, t := Top(stack), |stack| - 1;
    var kp, kq := Kept(top, top.recvg, p), Kept(top, top.recvg, q);
    var tail := (if kp then [Entry(p, 0, pMask, top.recvg, top.kind)] else [])
              + (if kq then [Entry(q, 0, qMask, top.recvg, if kp then Normal else top.kind)] else []);
    var new_ := Below(stack) + tail;
    assert Diverged(Below(stack), top, top.recvg, p, pMask, q, qMask) == new_;
    assert Reconverges(stack, done, t) && CallCovered(stack, done, t);
    forall i | i in top.mask - done
      ensures Holds(tail, i) || Sheltered(stack, i)
    {
      if i in pMask && kp {
        assert i in tail[0].mask;
      } else if i in qMask && kq {
        assert i in tail[|tail| - 1].mask;
      } else {
        NormalTopSheltered(stack, warpSize, done, i);
      }
    }
    forall k | t <= k < t + |tail|
      ensures Reconverges(new_, done, k) && CallCovered(new_, done, k)
    {
      if top.kind == Normal {
        SameParent(stack, warpSize, done, new_, k);
      } else if k == t {
        forall i | i in new_[t - 1].mask - done
          ensures Holds(new_[t..], i)
        {
          assert Holds(stack[t..], i);
          assert new_[t..] == tail;
          assert i in tail[0].mask || i in tail[1].mask;
        }
      }
    }
    ReplaceTop(stack, warpSize, done, tail);
  }

  // ---------------------------------------------------------------- one step refines the scalar threads

  /** A lane jumps from one side of a divergent branch straight to the reconvergence point of
      the enclosing region, although the branch itself reconverges elsewhere. */
  predicate Strays(stack: seq<Entry>, s: StepInput)
    requires stack != [] && forall i | i in Live(stack, s) :: i < |s.nextPc|
  {
    var paths := Paths(Live(stack, s), s.nextPc);
    |paths| == 2 && Top(stack).kind == Normal && s.recvg != Top(stack).recvg && Top(stack).recvg in paths
  }

  lemma DivergedPc(stack: seq<Entry>, recvg: Pc, p: Pc, pMask: set<nat>, q: Pc, qMask: set<nat>, i: nat)
    requires stack != []
    ensures var top := Top(stack);
            PcOf(Diverged(Below(stack), top, recvg, p, pMask, q, qMask), i)
            == if i in qMask && Kept(top, recvg, q) then q
               else if i in pMask && Kept(top, recvg, p) then p
               else if i in top.mask && recvg != top.recvg then recvg
               else PcOf(Below(stack), i)
  {
    var top := Top(stack);
    var reuse := recvg == top.recvg;
    var slot := if reuse then top.kind else Normal;
    var base := if reuse then Below(stack) else Below(stack) + [top.(pc := recvg)];
    PcOfPush(Below(stack), top.(pc := recvg), i);
    var ps := if Kept(top, recvg, p) then [Entry(p, 0, pMask, recvg, slot)] else [];
    PcOfPush(base, Entry(p, 0, pMask, recvg, slot), i);
    var qEntry := Entry(q, 0, qMask, recvg, if Kept(top, recvg, p) then Normal else slot);
    PcOfPush(base + ps, qEntry, i);
    var d := Diverged(Below(stack), top, recvg, p, pMask, q, qMask);
    assert d == base + ps + (if Kept(top, recvg, q) then [qEntry] else []);
    assert base + [] == base && (base + ps) + [] == base + ps;
  }

  /** After a return the live lanes of the callee are at the return address. */
  lemma ReturnedPc(stack: seq<Entry>, warpSize: nat, done: set<nat>, pc: Pc, i: nat)
    requires Inv(stack, warpSize, done) && stack != [] && Top(stack).kind == Call && pc != NULL_PC && i !in done
    ensures |stack| > 1
    ensures PcOf(Returned(Below(stack), pc), i) == if i in Top(stack).mask then pc else PcOf(stack, i)
  {
    assert CallCovered(stack, done, |stack| - 1);
    var callers := Below(stack);
    var caller := Top(callers);
    assert stack[|stack| - 1..] == [Top(stack)];
    assert i in caller.mask <==> i in Top(stack).mask by {
      if i in caller.mask { assert Holds([Top(stack)], i); }
    }
    if pc == caller.recvg && caller.kind != Call {
      PopKeepsInv(stack, warpSize, done);
      if i in caller.mask { FallsBack(callers, warpSize, done, i); }
    } else {
      PcOfPush(Below(callers), caller.(pc := pc), i);
    }
  }

  /** Where a divergent branch leaves each live lane. */
  lemma ForkedPc(stack: seq<Entry>, warpSize: nat, s: StepInput, p: Pc, i: nat)
    requires Allowed(stack, warpSize, s) && Inv(stack, warpSize, s.done) && i !in s.done
    requires var paths := Paths(Live(stack, s), s.nextPc);
             paths != {} && p == FirstPath(paths, s.notTaken) && paths != {p} && s.op != CallOp
             && !(s.op == RetOp && Top(stack).kind == Call)
    ensures i !in Top(stack).mask ==> PcOf(Updated(stack, warpSize, s), i) == PcOf(stack, i)
    ensures i in Top(stack).mask ==>
              (i < |s.nextPc| && PcOf(Updated(stack, warpSize, s), i)
                 == if Strays(stack, s) && s.nextPc[i] == Top(stack).recvg then s.recvg else s.nextPc[i])
  {
    var live, top := Live(stack, s), Top(stack);
    var groups := Groups(live, s.nextPc);
    TwoPaths(groups.Keys, p);
    var q := Least(groups.Keys - {p});
    assert Updated(stack, warpSize, s) == Diverged(Below(stack), top, s.recvg, p, groups[p], q, groups[q]);
    hide Diverged, Inv, Updated;
    if i in top.mask { assert i in live && s.nextPc[i] in groups; }
    DivergedPc(stack, s.recvg, p, groups[p], q, groups[q], i);
    if i in live && top.kind == Normal && s.nextPc[i] == top.recvg { FallsBack(stack, warpSize, s.done, i); }
  }

  /** Where one step leaves each live lane. */
  lemma UpdatedPc(stack: seq<Entry>, warpSize: nat, s: StepInput, i: nat)
    requires Allowed(stack, warpSize, s) && Inv(stack, warpSize, s.done) && i !in s.done
    ensures i !in Top(stack).mask ==> PcOf(Updated(stack, warpSize, s), i) == PcOf(stack, i)
    ensures i in Top(stack).mask ==>
              (i < |s.nextPc| && PcOf(Updated(stack, warpSize, s), i)
                 == if Strays(stack, s) && s.nextPc[i] == Top(stack).recvg then s.recvg else s.nextPc[i])
  {
    var live := Live(stack, s);
    var groups := Groups(live, s.nextPc);
    var top := Top(stack);
    hide Inv, Diverged;
    if i in top.mask { assert i in live && s.nextPc[i] in groups; }
    if groups != map[] {
      var p := FirstPath(groups.Keys, s.notTaken);
      assert p in Paths(live, s.nextPc);
      if s.op == CallOp {
        OneGroup(live, s.nextPc, p);
        PcOfPush(stack, Entry(p, 0, live, NULL_PC, Call), i);
      } else if s.op == RetOp && top.kind == Call {
        OneGroup(live, s.nextPc, p);
        ReturnedPc(stack, warpSize, s.done, p, i);
      } else if groups.Keys == {p} {
        OneGroup(live, s.nextPc, p);
        PcOfPush(Below(stack), top.(pc := p, mask := live), i);
        if p == top.recvg && top.kind == Normal && i in live { FallsBack(stack, warpSize, s.done, i); }
      } else {
        hide Updated;
        ForkedPc(stack, warpSize, s, p, i);
      }
    }
  }

  lemma OneGroup(lanes: set<nat>, nextPc: seq<Pc>, p: Pc)
    requires forall i | i in lanes :: i < |nextPc|
    requires p in Paths(lanes, nextPc) && |Paths(lanes, nextPc)| <= 1
    ensures Paths(lanes, nextPc) == {p} && Going(lanes, nextPc, p) == lanes
  {
    var paths := Paths(lanes, nextPc);
    assert |paths - {p}| == |paths| - 1;
    assert paths == {p};
    assert forall i | i in lanes :: nextPc[i] in paths;
  }

  lemma UpdateKeepsInv(stack: seq<Entry>, warpSize: nat, s: StepInput)
    requires Allowed(stack, warpSize, s) && Inv(stack, warpSize, s.done)
    ensures Inv(Updated(stack, warpSize, s), warpSize, s.done)
  {
    var live := Live(stack, s);
    var groups := Groups(live, s.nextPc);
    var top := Top(stack);
    if groups == map[] {
      NoGroups(live, s.nextPc);
      PopKeepsInv(stack, warpSize, s.done);
    } else {
      var p := FirstPath(groups.Keys, s.notTaken);
      assert p in Paths(live, s.nextPc);
      if s.op == CallOp {
        OneGroup(live, s.nextPc, p);
        CallKeepsInv(stack, warpSize, s.done, p);
      } else if s.op == RetOp && top.kind == Call {
        ReturnKeepsInv(stack, warpSize, s.done, p);
      } else if groups.Keys == {p} {
        OneGroup(live, s.nextPc, p);
        if p == top.recvg && top.kind == Normal {
          PopKeepsInv(stack, warpSize, s.done);
        } else {
          MoveKeepsInv(stack, warpSize, s.done, top.(pc := p, mask := live));
        }
      } else {
        TwoPaths(groups.Keys, p);
        var q := Least(groups.Keys - {p});
        TwoGroups(live, s.nextPc, p, q);
        if s.recvg == top.recvg {
          SharedSplitKeepsInv(stack, warpSize, s.done, p, groups[p], q, groups[q]);
        } else {
          FreshSplitKeepsInv(stack, warpSize, s.done, s.recvg, p, groups[p], q, groups[q]);
        }
      }
    }
  }

  lemma NoGroups(lanes: set<nat>, nextPc: seq<Pc>)
    requires forall i | i in lanes :: i < |nextPc|
    ensures Paths(lanes, nextPc) == {} ==> lanes == {}
  {
    if lanes != {} {
      var i :| i in lanes;
      assert nextPc[i] in Paths(lanes, nextPc);
    }
  }

  lemma TwoGroups(lanes: set<nat>, nextPc: seq<Pc>, p: Pc, q: Pc)
    requires forall i | i in lanes :: i < |nextPc|
    requires p != q && Paths(lanes, nextPc) == {p, q}
    ensures var (ps, qs) := (Going(lanes, nextPc, p), Going(lanes, nextPc, q));
            ps !! qs && ps != {} && qs != {} && ps + qs == lanes
  {
    assert forall i | i in lanes :: nextPc[i] in Paths(lanes, nextPc);
    var i :| i in lanes && nextPc[i] == p;
    var j :| j in lanes && nextPc[j] == q;
    assert i in Going(lanes, nextPc, p) && j in Going(lanes, nextPc, q);
  }

  /** What the thread contexts report for lanes that did not execute: they have not moved. */
  ghost predicate Reported(stack: seq<Entry>, launched: set<nat>, s: StepInput, pcs: seq<Pc>)
    requires stack != []
  {
    && |pcs| == |s.nextPc|
    && Top(stack).mask <= launched
    && forall i | i in launched - s.done ::
         && i < |s.nextPc| && s.nextPc[i] != NULL_PC
         && (i !in Top(stack).mask ==> s.nextPc[i] == pcs[i])
  }

  /** One step of the warp keeps the stack in agreement with the scalar threads, exactly unless
      a lane strays to the enclosing reconvergence point. */
  lemma UpdateRefines(stack: seq<Entry>, warpSize: nat, launched: set<nat>, done: set<nat>, pcs: seq<Pc>, s: StepInput)
    requires Allowed(stack, warpSize, s) && Inv(stack, warpSize, done) && done <= s.done
    requires Agrees(stack, launched - done, pcs) && Reported(stack, launched, s, pcs)
    ensures Inv(Updated(stack, warpSize, s), warpSize, s.done)
    ensures Agrees(Updated(stack, warpSize, s), launched - s.done, s.nextPc) <==> !Strays(stack, s)
  {
    InvMonotone(stack, warpSize, done, s.done);
    UpdateKeepsInv(stack, warpSize, s);
    var after := Updated(stack, warpSize, s);
    forall i | i in launched - s.done
      ensures !Strays(stack, s) ==> PcOf(after, i) == s.nextPc[i]
    {
      UpdatedPc(stack, warpSize, s, i);
    }
    if Strays(stack, s) {
      var i :| i in Live(stack, s) && s.nextPc[i] == Top(stack).recvg;
      UpdatedPc(stack, warpSize, s, i);
      assert i in launched - s.done && PcOf(after, i) != s.nextPc[i];
    }
  }

  // ---------------------------------------------------------------- no lane is lost

  /** A lane below the top entry stays held: only a return pops two entries, and then the lanes of
      the lower one were all in the callee. */
  lemma BystanderHeld(stack: seq<Entry>, warpSize: nat, s: StepInput, i: nat)
    requires Allowed(stack, warpSize, s) && Inv(stack, warpSize, s.done) && i !in s.done
    requires Holds(stack, i) && i !in Top(stack).mask
    ensures Holds(Updated(stack, warpSize, s), i)
  {
    var after, t := Updated(stack, warpSize, s), |stack| - 1;
    var k :| 0 <= k < |stack| && i in stack[k].mask;
    if Top(stack).kind == Call { CallerInCallee(stack, warpSize, s.done, i); }
    assert k < |after| && after[k].mask == stack[k].mask;
  }

  lemma CallerInCallee(stack: seq<Entry>, warpSize: nat, done: set<nat>, i: nat)
    requires Inv(stack, warpSize, done) && stack != [] && Top(stack).kind == Call
    ensures |stack| > 1 && (i in Top(Below(stack)).mask - done ==> i in Top(stack).mask)
  {
    var t := |stack| - 1;
    assert CallCovered(stack, done, t);
    assert stack[t..] == [Top(stack)];
    if i in stack[t - 1].mask - done { assert Holds(stack[t..], i); }
  }

  /** Whatever a step does, a lane that has not exited is still in some mask afterwards. */
  lemma UpdateKeepsLanes(stack: seq<Entry>, warpSize: nat, s: StepInput, i: nat)
    requires Allowed(stack, warpSize, s) && Inv(stack, warpSize, s.done) && i !in s.done
    requires Holds(stack, i)
    ensures Holds(Updated(stack, warpSize, s), i)
  {
    var after, t := Updated(stack, warpSize, s), |stack| - 1;
    if i !in Top(stack).mask {
      BystanderHeld(stack, warpSize, s, i);
    } else if Strays(stack, s) {
      StrayWaits(stack, warpSize, s);
      assert i in after[t].mask;
    } else {
      UpdatedPc(stack, warpSize, s, i);
      PcOfHeld(after, i);
    }
  }

  /** A stray lane is left in the entry that waits at the inner reconvergence point. */
  lemma StrayWaits(stack: seq<Entry>, warpSize: nat, s: StepInput)
    requires Allowed(stack, warpSize, s) && Strays(stack, s)
    ensures var after := Updated(stack, warpSize, s);
            |stack| <= |after| && after[|stack| - 1] == Top(stack).(pc := s.recvg)
  {
    var groups := Groups(Live(stack, s), s.nextPc);
    var p := FirstPath(groups.Keys, s.notTaken);
    assert |groups.Keys| == 2;
    assert groups.Keys != {p};
  }

  // ---------------------------------------------------------------- call entries

  /** A call entry and its caller hold the same live lanes. */
  ghost predicate CallsMatch(stack: seq<Entry>, done: set<nat>) {
    forall c | 0 < c < |stack| && stack[c].kind == Call :: stack[c].mask - done == stack[c - 1].mask - done
  }

  lemma CallsBelow(stack: seq<Entry>, done: set<nat>)
    requires CallsMatch(stack, done) && stack != []
    ensures CallsMatch(Below(stack), done)
  {
  }

  /** Whether one more entry matches depends on that entry only. */
  lemma CallsPush(stack: seq<Entry>, done: set<nat>, e: Entry)
    requires CallsMatch(stack, done)
    ensures CallsMatch(stack + [e], done)
        <==> e.kind == Normal || stack == [] || e.mask - done == Top(stack).mask - done
  {
    var more, n := stack + [e], |stack|;
    if CallsMatch(more, done) && e.kind == Call && stack != [] {
      assert more[n].mask - done == more[n - 1].mask - done;
    }
  }

  lemma CallsPushNormal(stack: seq<Entry>, done: set<nat>, kept: bool, e: Entry)
    requires e.kind == Normal
    ensures CallsMatch(stack + (if kept then [e] else []), done) <==> CallsMatch(stack, done)
  {
    if kept {
      if CallsMatch(stack, done) { CallsPush(stack, done, e); }
      if CallsMatch(stack + [e], done) {
        CallsBelow(stack + [e], done);
        assert Below(stack + [e]) == stack;
      }
    } else {
      assert stack + [] == stack;
    }
  }

  /** The top entry is replaced by one of its kind with the same live lanes. */
  lemma CallsMove(stack: seq<Entry>, done: set<nat>, e: Entry)
    requires CallsMatch(stack, done) && stack != [] && e.kind == Top(stack).kind
        && e.mask - done == Top(stack).mask - done
    ensures CallsMatch(Below(stack) + [e], done)
  {
    CallsBelow(stack, done);
    if e.kind == Call && |stack| > 1 {
      assert stack[|stack| - 1].mask - done == stack[|stack| - 2].mask - done;
    }
    CallsPush(Below(stack), done, e);
  }

  lemma CallsLater(stack: seq<Entry>, done: set<nat>, done': set<nat>)
    requires CallsMatch(stack, done) && done <= done'
    ensures CallsMatch(stack, done')
  {
    forall c | 0 < c < |stack| && stack[c].kind == Call
      ensures stack[c].mask - done' == stack[c - 1].mask - done'
    {
      assert stack[c].mask - done' == (stack[c].mask - done) - done';
      assert stack[c - 1].mask - done' == (stack[c - 1].mask - done) - done';
    }
  }

  /** A branch diverges in a callee's own entry without a reconvergence point. */
  predicate Unbalances(stack: seq<Entry>, s: StepInput)
    requires stack != [] && forall i | i in Live(stack, s) :: i < |s.nextPc|
  {
    |Paths(Live(stack, s), s.nextPc)| == 2 && Top(stack).kind == Call && s.recvg == NULL_PC
  }

  lemma FreshForkCalls(stack: seq<Entry>, done: set<nat>, recvg: Pc, p: Pc, pMask: set<nat>, q: Pc, qMask: set<nat>)
    requires CallsMatch(stack, done) && stack != [] && recvg != Top(stack).recvg
    ensures CallsMatch(Diverged(Below(stack), Top(stack), recvg, p, pMask, q, qMask), done)
  {
    var top := Top(stack);
    var base := Below(stack) + [top.(pc := recvg)];
    CallsMove(stack, done, top.(pc := recvg));
    hide CallsMatch;
    CallsPushNormal(base, done, Kept(top, recvg, p), Entry(p, 0, pMask, recvg, Normal));
    var ps := base + if Kept(top, recvg, p) then [Entry(p, 0, pMask, recvg, Normal)] else [];
    CallsPushNormal(ps, done, Kept(top, recvg, q), Entry(q, 0, qMask, recvg, Normal));
  }

  /** A split that takes the place of the top entry leaves a callee without some of its lanes. */
  lemma SharedForkCalls(stack: seq<Entry>, done: set<nat>, p: Pc, pMask: set<nat>, q: Pc, qMask: set<nat>)
    requires stack != [] && CallsMatch(stack, done) && Splits(stack, done, p, pMask, q, qMask)
    requires Top(stack).kind == Call ==> Top(stack).recvg == NULL_PC && |stack| > 1
    ensures CallsMatch(Diverged(Below(stack), Top(stack), Top(stack).recvg, p, pMask, q, qMask), done)
        <==> Top(stack).kind == Normal
  {
    var top, below := Top(stack), Below(stack);
    var r := top.recvg;
    var kp, kq := Kept(top, r, p), Kept(top, r, q);
    var pEntry, qEntry := Entry(p, 0, pMask, r, top.kind), Entry(q, 0, qMask, r, Normal);
    CallsBelow(stack, done);
    if top.kind == Normal {
      hide CallsMatch;
      CallsPushNormal(below, done, kp, pEntry);
      CallsPushNormal(below + (if kp then [pEntry] else []), done, kq, qEntry);
    } else {
      assert stack[|stack| - 1].mask - done == stack[|stack| - 2].mask - done;
      var i :| i in qMask;
      assert i in Top(below).mask - done && i !in pMask - done;
      CallsPush(below, done, pEntry);
      hide CallsMatch;
      CallsPushNormal(below + [pEntry], done, true, qEntry);
      assert Diverged(below, top, r, p, pMask, q, qMask) == below + [pEntry] + [qEntry];
    }
  }

  /** Call entries keep exactly their caller's live lanes, except after such a branch. */
  lemma CallLanesMatch(stack: seq<Entry>, warpSize: nat, done: set<nat>, s: StepInput)
    requires Allowed(stack, warpSize, s) && done <= s.done && CallsMatch(stack, done)
    ensures CallsMatch(Updated(stack, warpSize, s), s.done)
       <==> !Unbalances(stack, s)
  {
    var live, top := Live(stack, s), Top(stack);
    var groups := Groups(live, s.nextPc);
    CallsLater(stack, done, s.done);
    CallsBelow(stack, s.done);
    hide CallsMatch, Diverged;
    if groups != map[] {
      var p := FirstPath(groups.Keys, s.notTaken);
      assert p in Paths(live, s.nextPc);
      if s.op == CallOp {
        OneGroup(live, s.nextPc, p);
        CallsPush(stack, s.done, Entry(p, 0, live, NULL_PC, Call));
      } else if s.op == RetOp && top.kind == Call {
        ReturnCalls(stack, s.done, p);
      } else if groups.Keys == {p} {
        OneGroup(live, s.nextPc, p);
        CallsMove(stack, s.done, top.(pc := p, mask := live));
      } else {
        TwoPaths(groups.Keys, p);
        var q := Least(groups.Keys - {p});
        TwoGroups(live, s.nextPc, p, q);
        if s.recvg == top.recvg {
          SharedForkCalls(stack, s.done, p, groups[p], q, groups[q]);
        } else {
          FreshForkCalls(stack, s.done, s.recvg, p, groups[p], q, groups[q]);
        }
      }
    }
  }

  lemma ReturnCalls(stack: seq<Entry>, done: set<nat>, pc: Pc)
    requires CallsMatch(stack, done) && |stack| > 1
    ensures CallsMatch(Returned(Below(stack), pc), done)
  {
    CallsBelow(stack, done);
    var callers := Below(stack);
    CallsBelow(callers, done);
    CallsMove(callers, done, Top(callers).(pc := pc));
  }
}
