/**
 What the entries of the stack are after a step, in terms of the lanes and their next PCs, and which
 entries a step leaves alone.
 */
module SimtEntries {
  import opened Ordered
  import opened SimtStacks
  import opened SimtRefinement
  import opened SimtRun
  import opened SimtDepth
  import opened SimtProgress

  // ---------------------------------------------------------------- one step

  predicate Returns(stack: seq<Entry>, s: StepInput)
    requires stack != []
  {
    s.op == RetOp && Top(stack).kind == Call
  }

  predicate Diverges(stack: seq<Entry>, s: StepInput)
    requires stack != [] && forall i | i in Live(stack, s) :: i < |s.nextPc|
  {
    exists i, j :: i in Live(stack, s) && j in Live(stack, s) && s.nextPc[i] != s.nextPc[j]
  }

  /** The old top entry stays below the new ones: as a caller, or as a branch that waits at its own
      reconvergence point. */
  predicate Stays(stack: seq<Entry>, s: StepInput)
    requires stack != [] && forall i | i in Live(stack, s) :: i < |s.nextPc|
  {
    !(Top(stack).mask <= s.done) && (s.op == CallOp || (Diverges(stack, s) && s.recvg != Top(stack).recvg))
  }

  /** Exactly the live lanes that go on at the entry's PC, which is not where it is to be popped. */
  predicate Follows(stack: seq<Entry>, s: StepInput, k: nat, e: Entry)
    requires stack != [] && forall i | i in Live(stack, s) :: i < |s.nextPc|
  {
    var top := stack[|stack| - 1];
    && e.mask == (set i | i in Live(stack, s) && s.nextPc[i] == e.pc)
    && e.mask != {}
    && (s.op == CallOp ==> e == Entry(e.pc, 0, e.mask, NULL_PC, Call))
    && (s.op != CallOp ==>
          && e.kind == (if k == |stack| - 1 then top.kind else Normal)
          && e.recvg == (if Diverges(stack, s) then s.recvg else top.recvg)
          && e.callDepth == (if Diverges(stack, s) then 0 else top.callDepth)
          && (e.pc == e.recvg ==> e.kind == Call))
  }

  lemma DivergesMeans(stack: seq<Entry>, s: StepInput)
    requires stack != [] && forall i | i in Live(stack, s) :: i < |s.nextPc|
    requires |Paths(Live(stack, s), s.nextPc)| <= 2
    ensures Diverges(stack, s) <==> |Paths(Live(stack, s), s.nextPc)| == 2
  {
    var live, paths := Live(stack, s), Paths(Live(stack, s), s.nextPc);
    if Diverges(stack, s) {
      var i, j :| i in live && j in live && s.nextPc[i] != s.nextPc[j];
      assert paths == (paths - {s.nextPc[i], s.nextPc[j]}) + {s.nextPc[i], s.nextPc[j]};
      assert |{s.nextPc[i], s.nextPc[j]}| == 2;
    }
    if |paths| == 2 {
      var p :| p in paths;
      TwoPaths(paths, p);
      var q :| q in paths - {p};
      var i, j :| i in live && j in live && s.nextPc[i] == p && s.nextPc[j] == q;
      assert s.nextPc[i] != s.nextPc[j];
    }
  }

  /** Unless it returns, a step leaves everything below the top entry alone.  The top entry is replaced
      by entries that each hold exactly the live lanes with one next PC; it stays below them, moved to
      the branch's reconvergence point, if that is a new one, and as it is if it makes a call. */
  lemma EntriesAfter(stack: seq<Entry>, warpSize: nat, s: StepInput, k: nat)
    requires Allowed(stack, warpSize, s) && !Returns(stack, s)
    ensures var after := Updated(stack, warpSize, s);
      && |stack| - 1 <= |after| && after[..|stack| - 1] == stack[..|stack| - 1]
      && (Stays(stack, s) ==> |stack| <= |after|)
      && (|stack| - 1 <= k < |after| ==>
            if k == |stack| - 1 && Stays(stack, s)
            then after[k] == if s.op == CallOp then stack[k] else stack[k].(pc := s.recvg)
            else Follows(stack, s, k, after[k]))
  {
    var live, top := Live(stack, s), Top(stack);
    var groups := Groups(live, s.nextPc);
    DivergesMeans(stack, s);
    NoneLive(stack, s);
    NoGroups(live, s.nextPc);
    hide Diverges, Diverged;
    if groups != map[] {
      var p := FirstPath(groups.Keys, s.notTaken);
      GroupNotEmpty(live, s.nextPc, p);
      if s.op == CallOp {
        OneGroup(live, s.nextPc, p);
      } else if groups.Keys == {p} {
        OneGroup(live, s.nextPc, p);
      } else {
        TwoPaths(groups.Keys, p);
        var q := Least(groups.Keys - {p});
        GroupNotEmpty(live, s.nextPc, q);
        ForkEntries(stack, s, p, q, k);
      }
    }
  }

  lemma ForkEntries(stack: seq<Entry>, s: StepInput, p: Pc, q: Pc, k: nat)
    requires stack != [] && forall i | i in Live(stack, s) :: i < |s.nextPc|
    requires Diverges(stack, s) && s.op != CallOp && !(Top(stack).mask <= s.done)
    requires (Top(stack).kind == Call ==> Top(stack).recvg == NULL_PC) && p != NULL_PC && q != NULL_PC
    requires Going(Live(stack, s), s.nextPc, p) != {} && Going(Live(stack, s), s.nextPc, q) != {}
    ensures var (ps, qs) := (Going(Live(stack, s), s.nextPc, p), Going(Live(stack, s), s.nextPc, q));
            var after := Diverged(Below(stack), Top(stack), s.recvg, p, ps, q, qs);
      && |stack| - 1 <= |after| && after[..|stack| - 1] == stack[..|stack| - 1]
      && (Stays(stack, s) ==> |stack| <= |after|)
      && (|stack| - 1 <= k < |after| ==>
            if k == |stack| - 1 && Stays(stack, s)
            then after[k] == stack[k].(pc := s.recvg)
            else Follows(stack, s, k, after[k]))
  {
    hide Diverges, Live;
  }

  /** Of two entries that a branch pushes the lower one, which is served later, holds the fall-through
      lanes if there are any, and the lanes at the lesser PC otherwise. */
  lemma ServiceOrder(stack: seq<Entry>, warpSize: nat, s: StepInput, k: nat)
    requires Allowed(stack, warpSize, s) && s.op != CallOp && Diverges(stack, s)
    requires var after := Updated(stack, warpSize, s);
             |stack| - (if s.recvg == Top(stack).recvg then 1 else 0) <= k < |after| - 1
    ensures var after := Updated(stack, warpSize, s);
            after[k + 1].pc != s.notTaken && (after[k].pc == s.notTaken || after[k].pc < after[k + 1].pc)
  {
    var live := Live(stack, s);
    var groups := Groups(live, s.nextPc);
    DivergesMeans(stack, s);
    var p := FirstPath(groups.Keys, s.notTaken);
    assert p in Paths(live, s.nextPc);
    assert groups.Keys != {p};
    TwoPaths(groups.Keys, p);
  }

  /** A return pops the callee and moves its caller to the address at which the live lanes go on, or
      pops the caller too if that is the caller's reconvergence point. */
  lemma ReturnEntries(stack: seq<Entry>, warpSize: nat, s: StepInput, i: nat)
    requires Allowed(stack, warpSize, s) && Returns(stack, s) && i in Live(stack, s)
    ensures |stack| >= 2 && i < |s.nextPc|
    ensures var after, caller := Updated(stack, warpSize, s), stack[|stack| - 2];
      && after[..|stack| - 2] == stack[..|stack| - 2]
      && (if caller.kind == Normal && s.nextPc[i] == caller.recvg then |after| == |stack| - 2
          else |after| == |stack| - 1 && after[|stack| - 2] == caller.(pc := s.nextPc[i]))
  {
    var live := Live(stack, s);
    assert s.nextPc[i] in Paths(live, s.nextPc);
    var p := FirstPath(Paths(live, s.nextPc), s.notTaken);
    OneGroup(live, s.nextPc, p);
  }

  // ---------------------------------------------------------------- no entry outlives its region

  /** No entry stands at the PC at which its lanes are to reconverge. */
  ghost predicate NoneAtRecvg(stack: seq<Entry>) {
    forall k | 0 <= k < |stack| && stack[k].kind == Normal && stack[k].recvg != NULL_PC :: stack[k].pc != stack[k].recvg
  }

  /** Every step keeps it so, calls and returns included: a group that gets there is popped. */
  lemma StepLeavesNoneAtRecvg(stack: seq<Entry>, warpSize: nat, s: StepInput)
    requires Allowed(stack, warpSize, s) && NoneAtRecvg(stack)
    ensures NoneAtRecvg(Updated(stack, warpSize, s))
  {
    var after := Updated(stack, warpSize, s);
    NoneLive(stack, s);
    hide Diverges, Updated;
    forall k | 0 <= k < |after| && after[k].kind == Normal && after[k].recvg != NULL_PC
      ensures after[k].pc != after[k].recvg
    {
      if Live(stack, s) == {} {
        ExitedIsPopped(stack, warpSize, s);
      } else if Returns(stack, s) {
        var i :| i in Live(stack, s);
        ReturnEntries(stack, warpSize, s, i);
        if k < |stack| - 2 { assert after[k] == stack[k]; }
      } else {
        EntriesAfter(stack, warpSize, s, k);
        if k < |stack| - 1 { assert after[k] == stack[k]; }
      }
    }
  }

  lemma StepNoneAtRecvg(trace: Trace, launched: set<nat>, w: Warp, e: Event, w': Warp)
    requires StepsTo(trace, launched, w, e, w') && NoneAtRecvg(w.stack)
    ensures NoneAtRecvg(w'.stack)
  {
    hide NoneAtRecvg, Updated;
    StepLeavesNoneAtRecvg(w.stack, |w.steps|, Report(trace, launched, w, e));
  }

  /** On every run, no entry ever stands at its own reconvergence point: lanes that get there have
      rejoined the others. */
  lemma {:induction false} RunLeavesNoneAtRecvg(trace: Trace, warpSize: nat, startPc: Pc, launched: set<nat>,
      ws: seq<Warp>, events: seq<Event>, k: nat)
    requires IsRun(trace, launched, ws, events) && Begins(trace, warpSize, startPc, launched, ws[0]) && k < |ws|
    ensures NoneAtRecvg(ws[k].stack)
  {
    hide StepsTo, NoneAtRecvg;
    if k > 0 {
      RunLeavesNoneAtRecvg(trace, warpSize, startPc, launched, ws, events, k - 1);
      assert StepsTo(trace, launched, ws[k - 1], events[k - 1], ws[k]);
      StepNoneAtRecvg(trace, launched, ws[k - 1], events[k - 1], ws[k]);
    } else {
      StartsFresh(ws[0].stack, startPc, launched);
    }
  }

  lemma StartsFresh(stack: seq<Entry>, startPc: Pc, launched: set<nat>)
    requires stack == Launched(startPc, launched)
    ensures NoneAtRecvg(stack)
  {
  }
}
