/** Runs from a launch in which the stack parts from its threads, or a call entry from its caller. */
module SimtExamples {
  import opened Ordered
  import opened SimtStacks
  import opened SimtRefinement
  import opened SimtRun

  /** A branch with two ways on, the first of them the fall-through. */
  lemma Forks(stack: seq<Entry>, warpSize: nat, s: StepInput, q: Pc, ps: set<nat>, qs: set<nat>)
    requires WellFormed(stack, warpSize) && stack != [] && |s.nextPc| == warpSize && s.op == OtherOp
    requires q != s.notTaken && q != NULL_PC && s.notTaken != NULL_PC
    requires ps != {} && qs != {} && Live(stack, s) == ps + qs
    requires forall i | i in ps :: s.nextPc[i] == s.notTaken
    requires forall i | i in qs :: s.nextPc[i] == q
    ensures Allowed(stack, warpSize, s) && Paths(Live(stack, s), s.nextPc) == {s.notTaken, q}
    ensures Updated(stack, warpSize, s) == Diverged(Below(stack), Top(stack), s.recvg, s.notTaken, ps, q, qs)
  {
    var i, j :| i in ps && j in qs;
    assert s.nextPc[i] == s.notTaken && s.nextPc[j] == q;
    var groups := Groups(Live(stack, s), s.nextPc);
    assert groups.Keys == {s.notTaken, q};
    assert groups.Keys - {s.notTaken} == {q} && groups.Keys != {s.notTaken};
    assert Going(ps + qs, s.nextPc, s.notTaken) == ps && Going(ps + qs, s.nextPc, q) == qs;
  }

  /** All live lanes go on together. */
  lemma Proceeds(stack: seq<Entry>, warpSize: nat, s: StepInput, p: Pc)
    requires WellFormed(stack, warpSize) && stack != [] && |s.nextPc| == warpSize
    requires Live(stack, s) != {} && p != NULL_PC && forall i | i in Live(stack, s) :: s.nextPc[i] == p
    ensures Allowed(stack, warpSize, s)
    ensures s.op == OtherOp ==> Updated(stack, warpSize, s) == Advanced(stack, p, Live(stack, s))
    ensures s.op == CallOp ==> Updated(stack, warpSize, s) == stack + [Entry(p, 0, Live(stack, s), NULL_PC, Call)]
  {
    var live := Live(stack, s);
    var i :| i in live;
    assert s.nextPc[i] == p;
    assert Paths(live, s.nextPc) == {p};
    assert Going(live, s.nextPc, p) == live;
  }

  /** A step of a warp of which no lane has exited. */
  lemma Steps(trace: Trace, launched: set<nat>, w: Warp, e: Event, steps: seq<nat>, nextPc: seq<Pc>)
    requires w.stack != [] && |steps| == |w.steps| == |nextPc| && Top(w.stack).mask <= launched
    requires forall i | 0 <= i < |steps| :: i in launched && trace(i, w.steps[i]) != NULL_PC
    requires forall i | 0 <= i < |steps| :: steps[i] == if i in Top(w.stack).mask then w.steps[i] + 1 else w.steps[i]
    requires forall i | 0 <= i < |steps| :: nextPc[i] == trace(i, steps[i]) && nextPc[i] != NULL_PC
    ensures StepsAfter(trace, launched, w) == steps
    ensures Report(trace, launched, w, e)
         == StepInput({}, nextPc, e.recvg, e.op, (Top(w.stack).pc + e.size) % 0x1_0000_0000)
  {
    assert DoneLanes(trace, launched, w.steps) == {} && DoneLanes(trace, launched, steps) == {};
  }

  /** A step in which the lanes `ps` fall through and the lanes `qs` branch to `q`. */
  lemma ForkStep(trace: Trace, launched: set<nat>, w: Warp, e: Event, steps: seq<nat>, nextPc: seq<Pc>,
                 ps: set<nat>, q: Pc, qs: set<nat>)
    requires WellFormed(w.stack, |w.steps|) && e.op == OtherOp
    requires w.stack != [] && |steps| == |w.steps| == |nextPc| && Top(w.stack).mask <= launched
    requires forall i | 0 <= i < |steps| :: i in launched && trace(i, w.steps[i]) != NULL_PC
    requires forall i | 0 <= i < |steps| :: steps[i] == if i in Top(w.stack).mask then w.steps[i] + 1 else w.steps[i]
    requires forall i | 0 <= i < |steps| :: nextPc[i] == trace(i, steps[i]) && nextPc[i] != NULL_PC
    requires ps != {} && qs != {} && Top(w.stack).mask == ps + qs
    requires (Top(w.stack).pc + e.size) % 0x1_0000_0000 !in {q, NULL_PC} && q != NULL_PC
    requires forall i | i in ps :: nextPc[i] == (Top(w.stack).pc + e.size) % 0x1_0000_0000
    requires forall i | i in qs :: nextPc[i] == q
    ensures var p := (Top(w.stack).pc + e.size) % 0x1_0000_0000;
            var top := Top(w.stack);
            && StepsTo(trace, launched, w, e, Warp(Diverged(Below(w.stack), top, e.recvg, p, ps, q, qs), steps))
            && (LosesLane(trace, launched, w, e) <==> top.kind == Normal && e.recvg != top.recvg && top.recvg in {p, q})
            && (LosesCaller(trace, launched, w, e) <==> top.kind == Call && e.recvg == NULL_PC)
  {
    Steps(trace, launched, w, e, steps, nextPc);
    var s := Report(trace, launched, w, e);
    hide WellFormed, Report, Diverged, Updated, Allowed;
    Forks(w.stack, |w.steps|, s, q, ps, qs);
    var p := s.notTaken;
    assert {p, q} - {p} == {q};
    assert |{p, q}| == 2;
  }

  lemma TwoSteps(trace: Trace, launched: set<nat>, ws: seq<Warp>, events: seq<Event>)
    requires |ws| == 3 && |events| == 2
    requires StepsTo(trace, launched, ws[0], events[0], ws[1]) && StepsTo(trace, launched, ws[1], events[1], ws[2])
    ensures IsRun(trace, launched, ws, events)
  {
    hide StepsTo;
  }

  lemma ThreeSteps(trace: Trace, launched: set<nat>, ws: seq<Warp>, events: seq<Event>)
    requires |ws| == 4 && |events| == 3
    requires StepsTo(trace, launched, ws[0], events[0], ws[1]) && StepsTo(trace, launched, ws[1], events[1], ws[2])
    requires StepsTo(trace, launched, ws[2], events[2], ws[3])
    ensures IsRun(trace, launched, ws, events)
  {
    hide StepsTo;
  }

  // ---------------------------------------------------------------- a stray lane

  /** Lanes 0 and 1 go to 10 and lane 2 to 50; from 10 lane 0 leaves for 100 and lane 1 goes on to 20. */
  function StrayTrace(i: nat, k: nat): Pc {
    if k == 0 then 0
    else if k == 1 then (if i == 2 then 50 else 10)
    else if i == 1 then 20 else 100
  }

  const OUTER := Entry(100, 1, {0, 1, 2}, NULL_PC, Normal)
  const INNER := Entry(10, 0, {0, 1}, 100, Normal)

  /** The branch at 0 reconverges at 100, but the one at 10, inside it, is said to at 60. */
  const STRAY_EVENTS := [Event(100, OtherOp, 10), Event(100, OtherOp, 8), Event(60, OtherOp, 10)]

  const STRAY_RUN := [
    Warp([Entry(0, 1, {0, 1, 2}, NULL_PC, Normal)], [0, 0, 0]),
    Warp([OUTER, INNER, Entry(50, 0, {2}, 100, Normal)], [1, 1, 1]),
    Warp([OUTER, INNER], [1, 1, 2]),
    Warp([OUTER, INNER.(pc := 60), Entry(20, 0, {1}, 60, Normal)], [2, 2, 2])]

  lemma OuterBranch()
    ensures StepsTo(StrayTrace, {0, 1, 2}, STRAY_RUN[0], STRAY_EVENTS[0], STRAY_RUN[1])
  {
    hide StepsTo, LosesLane, LosesCaller;
    var w := STRAY_RUN[0];
    assert Diverged(Below(w.stack), Top(w.stack), 100, 10, {0, 1}, 50, {2}) == STRAY_RUN[1].stack;
    ForkStep(StrayTrace, {0, 1, 2}, STRAY_RUN[0], STRAY_EVENTS[0], [1, 1, 1], [10, 10, 50], {0, 1}, 50, {2});
  }

  lemma OtherSideReconverges()
    ensures StepsTo(StrayTrace, {0, 1, 2}, STRAY_RUN[1], STRAY_EVENTS[1], STRAY_RUN[2])
  {
    var w, e := STRAY_RUN[1], STRAY_EVENTS[1];
    Steps(StrayTrace, {0, 1, 2}, w, e, [1, 1, 2], [10, 10, 100]);
    Proceeds(w.stack, 3, Report(StrayTrace, {0, 1, 2}, w, e), 100);
  }

  lemma InnerBranch()
    ensures StepsTo(StrayTrace, {0, 1, 2}, STRAY_RUN[2], STRAY_EVENTS[2], STRAY_RUN[3])
    ensures LosesLane(StrayTrace, {0, 1, 2}, STRAY_RUN[2], STRAY_EVENTS[2])
  {
    hide StepsTo, LosesLane, LosesCaller;
    var w := STRAY_RUN[2];
    assert Diverged(Below(w.stack), Top(w.stack), 60, 20, {1}, 100, {0}) == STRAY_RUN[3].stack;
    ForkStep(StrayTrace, {0, 1, 2}, STRAY_RUN[2], STRAY_EVENTS[2], [2, 2, 2], [100, 20, 100], {1}, 100, {0});
  }

  /** A run from a launch in which a lane strays: at the end the thread of lane 0 is at 100, but the
      highest entry that holds it waits at 60. */
  lemma StrayLaneLosesItsPc()
    ensures IsRun(StrayTrace, {0, 1, 2}, STRAY_RUN, STRAY_EVENTS)
    ensures Begins(StrayTrace, 3, 0, {0, 1, 2}, STRAY_RUN[0])
    ensures LosesLane(StrayTrace, {0, 1, 2}, STRAY_RUN[2], STRAY_EVENTS[2])
    ensures StrayTrace(0, STRAY_RUN[3].steps[0]) == 100 && PcOf(STRAY_RUN[3].stack, 0) == 60
  {
    OuterBranch();
    OtherSideReconverges();
    InnerBranch();
    hide StepsTo, LosesLane, IsRun;
    ThreeSteps(StrayTrace, {0, 1, 2}, STRAY_RUN, STRAY_EVENTS);
    PcOfAt(STRAY_RUN[3].stack, 1, 0);
  }

  // ---------------------------------------------------------------- a callee that diverges for good

  /** Both lanes call 200 from 8; there lane 0 goes to 300 and lane 1 on to 208. */
  function CallTrace(i: nat, k: nat): Pc {
    if k == 0 then 8 else if k == 1 then 200 else if i == 0 then 300 else 208
  }

  const CALLER := Entry(8, 1, {0, 1}, NULL_PC, Normal)

  const CALL_EVENTS := [Event(NULL_PC, CallOp, 8), Event(NULL_PC, OtherOp, 8)]

  const CALL_RUN := [
    Warp([CALLER], [0, 0]),
    Warp([CALLER, Entry(200, 0, {0, 1}, NULL_PC, Call)], [1, 1]),
    Warp([CALLER, Entry(208, 0, {1}, NULL_PC, Call), Entry(300, 0, {0}, NULL_PC, Normal)], [2, 2])]

  lemma CallStep()
    ensures StepsTo(CallTrace, {0, 1}, CALL_RUN[0], CALL_EVENTS[0], CALL_RUN[1])
  {
    var w, e := CALL_RUN[0], CALL_EVENTS[0];
    Steps(CallTrace, {0, 1}, w, e, [1, 1], [200, 200]);
    Proceeds(w.stack, 2, Report(CallTrace, {0, 1}, w, e), 200);
    assert Live(w.stack, Report(CallTrace, {0, 1}, w, e)) == {0, 1};
  }

  lemma CalleeBranch()
    ensures StepsTo(CallTrace, {0, 1}, CALL_RUN[1], CALL_EVENTS[1], CALL_RUN[2])
    ensures LosesCaller(CallTrace, {0, 1}, CALL_RUN[1], CALL_EVENTS[1])
  {
    hide StepsTo, LosesLane, LosesCaller;
    var w := CALL_RUN[1];
    assert Diverged(Below(w.stack), Top(w.stack), NULL_PC, 208, {1}, 300, {0}) == CALL_RUN[2].stack;
    ForkStep(CallTrace, {0, 1}, CALL_RUN[1], CALL_EVENTS[1], [2, 2], [300, 208], {1}, 300, {0});
  }

  /** A run from a launch in which a branch in a callee's own entry has no reconvergence point: the
      call entry keeps lane 1 only, and no longer matches its caller. */
  lemma CalleeLosesItsCaller()
    ensures IsRun(CallTrace, {0, 1}, CALL_RUN, CALL_EVENTS)
    ensures Begins(CallTrace, 2, 8, {0, 1}, CALL_RUN[0])
    ensures LosesCaller(CallTrace, {0, 1}, CALL_RUN[1], CALL_EVENTS[1])
    ensures !CallsMatch(CALL_RUN[2].stack, DoneLanes(CallTrace, {0, 1}, CALL_RUN[2].steps))
  {
    CallStep();
    CalleeBranch();
    hide StepsTo, LosesCaller, IsRun;
    TwoSteps(CallTrace, {0, 1}, CALL_RUN, CALL_EVENTS);
    assert DoneLanes(CallTrace, {0, 1}, [2, 2]) == {};
    var stack := CALL_RUN[2].stack;
    assert stack[1].kind == Call && 0 in stack[0].mask - {} && 0 !in stack[1].mask - {};
  }
}
