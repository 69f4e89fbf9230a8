/**
 Whole runs of a warp.  Each lane is a scalar thread given by its trace: `trace(i, k)` is the PC
 of the k-th instruction of lane `i`, or NULL_PC when the thread has exited by then.
 */
module SimtRun {
  import opened Ordered
  import opened SimtStacks
  import opened SimtRefinement

  type Trace = (nat, nat) -> Pc

  /** `steps[i]` counts the instructions lane `i` has executed. */
  datatype Warp = Warp(stack: seq<Entry>, steps: seq<nat>)

  datatype Event = Event(recvg: Pc, op: Opcode, size: nat)

  function Pcs(trace: Trace, steps: seq<nat>): seq<Pc> {
    seq(|steps|, i requires 0 <= i < |steps| => trace(i, steps[i]))
  }

  /** Lanes whose thread was never created or has exited. */
  function DoneLanes(trace: Trace, launched: set<nat>, steps: seq<nat>): set<nat> {
    set i | 0 <= i < |steps| && (i !in launched || trace(i, steps[i]) == NULL_PC)
  }

  /** The lanes that execute the instruction at the top of the stack. */
  function Issued(trace: Trace, launched: set<nat>, w: Warp): set<nat>
    requires w.stack != []
  {
    Top(w.stack).mask - DoneLanes(trace, launched, w.steps)
  }

  function StepsAfter(trace: Trace, launched: set<nat>, w: Warp): seq<nat>
    requires w.stack != []
  {
    seq(|w.steps|, i requires 0 <= i < |w.steps| =>
      if i in Issued(trace, launched, w) then w.steps[i] + 1 else w.steps[i])
  }

  /** What the thread contexts report to the stack after the lanes have executed. */
  function Report(trace: Trace, launched: set<nat>, w: Warp, e: Event): StepInput
    requires w.stack != []
  {
    var steps := StepsAfter(trace, launched, w);
    var done := DoneLanes(trace, launched, steps);
    StepInput(done,
              seq(|steps|, i requires 0 <= i < |steps| => if i in done then NULL_PC else trace(i, steps[i])),
              e.recvg, e.op, (Top(w.stack).pc + e.size) % 0x1_0000_0000)
  }

  ghost predicate CanStep(trace: Trace, launched: set<nat>, w: Warp, e: Event) {
    w.stack != [] && Allowed(w.stack, |w.steps|, Report(trace, launched, w, e))
  }

  function Step(trace: Trace, launched: set<nat>, w: Warp, e: Event): Warp
    requires CanStep(trace, launched, w, e)
  {
    Warp(Updated(w.stack, |w.steps|, Report(trace, launched, w, e)), StepsAfter(trace, launched, w))
  }

  function Start(warpSize: nat, startPc: Pc, launched: set<nat>): Warp {
    Warp(Launched(startPc, launched), seq(warpSize, _ => 0))
  }

  ghost predicate StepsTo(trace: Trace, launched: set<nat>, w: Warp, e: Event, w': Warp) {
    CanStep(trace, launched, w, e) && w' == Step(trace, launched, w, e)
  }

  /** A lane strays in this step. */
  ghost predicate LosesLane(trace: Trace, launched: set<nat>, w: Warp, e: Event) {
    CanStep(trace, launched, w, e) && Strays(w.stack, Report(trace, launched, w, e))
  }

  /** A call entry and its caller come to differ in this step. */
  ghost predicate LosesCaller(trace: Trace, launched: set<nat>, w: Warp, e: Event) {
    CanStep(trace, launched, w, e) && Unbalances(w.stack, Report(trace, launched, w, e))
  }

  /** The states of a warp from its launch on, one more than there are events. */
  ghost predicate IsRun(trace: Trace, launched: set<nat>, ws: seq<Warp>, events: seq<Event>) {
    |ws| == |events| + 1 && forall k | 0 <= k < |events| :: StepsTo(trace, launched, ws[k], events[k], ws[k + 1])
  }

  /** All launched lanes exist and begin at the start PC. */
  ghost predicate Begins(trace: Trace, warpSize: nat, startPc: Pc, launched: set<nat>, w: Warp) {
    w == Start(warpSize, startPc, launched) && forall i | i in launched :: i < warpSize && trace(i, 0) == startPc
  }

  /** The stack agrees with the scalar threads, and only launched lanes are on it. */
  ghost predicate InLockstep(trace: Trace, launched: set<nat>, w: Warp) {
    && (forall i | i in launched :: i < |w.steps|)
    && (forall k | 0 <= k < |w.stack| :: w.stack[k].mask <= launched)
    && Inv(w.stack, |w.steps|, DoneLanes(trace, launched, w.steps))
    && Agrees(w.stack, launched - DoneLanes(trace, launched, w.steps), Pcs(trace, w.steps))
  }

  lemma MasksShrink(stack: seq<Entry>, warpSize: nat, s: StepInput, launched: set<nat>)
    requires Allowed(stack, warpSize, s)
    requires forall k | 0 <= k < |stack| :: stack[k].mask <= launched
    ensures var after := Updated(stack, warpSize, s); forall k | 0 <= k < |after| :: after[k].mask <= launched
  {
    assert Top(stack).mask <= launched;
    forall pc | pc in Groups(Live(stack, s), s.nextPc)
      ensures Groups(Live(stack, s), s.nextPc)[pc] <= launched
    {
    }
  }

  lemma StepKeepsLockstep(trace: Trace, launched: set<nat>, w: Warp, e: Event)
    requires InLockstep(trace, launched, w) && CanStep(trace, launched, w, e)
    ensures InLockstep(trace, launched, Step(trace, launched, w, e))
        <==> !Strays(w.stack, Report(trace, launched, w, e))
  {
    var s := Report(trace, launched, w, e);
    var done := DoneLanes(trace, launched, w.steps);
    var w' := Step(trace, launched, w, e);
    assert done <= s.done;
    assert Top(w.stack).mask <= launched;
    UpdateRefines(w.stack, |w.steps|, launched, done, Pcs(trace, w.steps), s);
    MasksShrink(w.stack, |w.steps|, s, launched);
    assert forall i | i in launched - s.done :: s.nextPc[i] == Pcs(trace, w'.steps)[i];
  }

  lemma StartInLockstep(trace: Trace, warpSize: nat, startPc: Pc, launched: set<nat>, w: Warp)
    requires Begins(trace, warpSize, startPc, launched, w)
    ensures InLockstep(trace, launched, w) && |w.steps| == warpSize
  {
    forall i | i in launched
      ensures PcOf(w.stack, i) == startPc
    {
      PcOfAt(w.stack, 0, i);
    }
  }

  lemma StepInLockstep(trace: Trace, launched: set<nat>, w: Warp, e: Event, w': Warp)
    requires InLockstep(trace, launched, w) && StepsTo(trace, launched, w, e, w')
    ensures InLockstep(trace, launched, w') <==> !LosesLane(trace, launched, w, e)
    ensures |w'.steps| == |w.steps|
  {
    StepKeepsLockstep(trace, launched, w, e);
  }

  lemma {:induction false} RunKeepsLockstep(trace: Trace, launched: set<nat>, ws: seq<Warp>, events: seq<Event>, k: nat)
    requires IsRun(trace, launched, ws, events) && InLockstep(trace, launched, ws[0]) && k < |ws|
    requires forall j | 0 <= j < k :: !LosesLane(trace, launched, ws[j], events[j])
    ensures InLockstep(trace, launched, ws[k]) && |ws[k].steps| == |ws[0].steps|
  {
    hide InLockstep, StepsTo, LosesLane;
    if k > 0 {
      RunKeepsLockstep(trace, launched, ws, events, k - 1);
      assert StepsTo(trace, launched, ws[k - 1], events[k - 1], ws[k]);
      StepInLockstep(trace, launched, ws[k - 1], events[k - 1], ws[k]);
    }
  }

  /** A run keeps the stack in agreement with the scalar threads throughout exactly if no lane ever
      strays from a divergent branch to an enclosing reconvergence point. */
  lemma LockstepExactly(trace: Trace, warpSize: nat, startPc: Pc, launched: set<nat>, ws: seq<Warp>, events: seq<Event>)
    requires IsRun(trace, launched, ws, events) && Begins(trace, warpSize, startPc, launched, ws[0])
    ensures (forall k | 0 <= k < |ws| :: InLockstep(trace, launched, ws[k]))
       <==> (forall j | 0 <= j < |events| :: !LosesLane(trace, launched, ws[j], events[j]))
  {
    StartInLockstep(trace, warpSize, startPc, launched, ws[0]);
    hide InLockstep, StepsTo, LosesLane, Begins;
    if forall k | 0 <= k < |ws| :: InLockstep(trace, launched, ws[k]) {
      forall j | 0 <= j < |events|
        ensures !LosesLane(trace, launched, ws[j], events[j])
      {
        StepInLockstep(trace, launched, ws[j], events[j], ws[j + 1]);
      }
    }
    if forall j | 0 <= j < |events| :: !LosesLane(trace, launched, ws[j], events[j]) {
      forall k | 0 <= k < |ws|
        ensures InLockstep(trace, launched, ws[k])
      {
        RunKeepsLockstep(trace, launched, ws, events, k);
      }
    }
  }

  /** The invariant holds, launched lanes exist, and each of them that has not exited is on the stack. */
  ghost predicate AllHeld(trace: Trace, launched: set<nat>, w: Warp) {
    && (forall i | i in launched :: i < |w.steps|)
    && Inv(w.stack, |w.steps|, DoneLanes(trace, launched, w.steps))
    && forall i | i in launched - DoneLanes(trace, launched, w.steps) :: Holds(w.stack, i)
  }

  lemma StepHoldsAll(trace: Trace, launched: set<nat>, w: Warp, e: Event, w': Warp)
    requires AllHeld(trace, launched, w) && StepsTo(trace, launched, w, e, w')
    ensures AllHeld(trace, launched, w') && |w'.steps| == |w.steps|
  {
    var s := Report(trace, launched, w, e);
    DoneGrows(trace, launched, w);
    hide Updated, Inv, Holds, Allowed;
    InvMonotone(w.stack, |w.steps|, DoneLanes(trace, launched, w.steps), s.done);
    UpdateKeepsInv(w.stack, |w.steps|, s);
    forall i | i in launched - s.done
      ensures Holds(w'.stack, i)
    {
      UpdateKeepsLanes(w.stack, |w.steps|, s, i);
    }
  }

  lemma StartHoldsAll(trace: Trace, warpSize: nat, startPc: Pc, launched: set<nat>, w: Warp)
    requires Begins(trace, warpSize, startPc, launched, w)
    ensures AllHeld(trace, launched, w) && |w.steps| == warpSize
  {
    forall i | i in launched
      ensures Holds(w.stack, i)
    {
      assert i in w.stack[0].mask;
    }
  }

  lemma {:induction false} RunHoldsAll(trace: Trace, launched: set<nat>, ws: seq<Warp>, events: seq<Event>, k: nat)
    requires IsRun(trace, launched, ws, events) && AllHeld(trace, launched, ws[0]) && k < |ws|
    ensures AllHeld(trace, launched, ws[k]) && |ws[k].steps| == |ws[0].steps|
  {
    hide AllHeld, StepsTo;
    if k > 0 {
      RunHoldsAll(trace, launched, ws, events, k - 1);
      assert StepsTo(trace, launched, ws[k - 1], events[k - 1], ws[k]);
      StepHoldsAll(trace, launched, ws[k - 1], events[k - 1], ws[k]);
    }
  }

  /** On every run, strays or not, each launched lane that has not exited is held by some entry, and
      so the stack is empty only when all launched threads have exited. */
  lemma NoLaneLost(trace: Trace, warpSize: nat, startPc: Pc, launched: set<nat>, ws: seq<Warp>, events: seq<Event>,
      k: nat)
    requires IsRun(trace, launched, ws, events) && Begins(trace, warpSize, startPc, launched, ws[0]) && k < |ws|
    ensures |ws[k].steps| == warpSize
    ensures forall i | i in launched && trace(i, ws[k].steps[i]) != NULL_PC :: Holds(ws[k].stack, i)
    ensures ws[k].stack == [] ==> forall i | i in launched :: trace(i, ws[k].steps[i]) == NULL_PC
  {
    StartHoldsAll(trace, warpSize, startPc, launched, ws[0]);
    RunHoldsAll(trace, launched, ws, events, k);
    HeldMeans(trace, launched, ws[k]);
  }

  lemma HeldMeans(trace: Trace, launched: set<nat>, w: Warp)
    requires AllHeld(trace, launched, w)
    ensures forall i | i in launched && trace(i, w.steps[i]) != NULL_PC :: Holds(w.stack, i)
    ensures w.stack == [] ==> forall i | i in launched :: trace(i, w.steps[i]) == NULL_PC
  {
    forall i | i in launched && trace(i, w.steps[i]) != NULL_PC
      ensures Holds(w.stack, i)
    {
      assert i in launched - DoneLanes(trace, launched, w.steps);
    }
  }

  /** As long as no lane strays, every instruction a warp issues is, for every lane that executes it,
      that lane's own next instruction, and a lane that does not execute is held at the PC where its
      own thread left it. */
  lemma WarpSimulatesThreads(
      trace: Trace, warpSize: nat, startPc: Pc, launched: set<nat>, ws: seq<Warp>, events: seq<Event>, k: nat)
    requires IsRun(trace, launched, ws, events) && Begins(trace, warpSize, startPc, launched, ws[0]) && k < |ws|
    requires forall j | 0 <= j < k :: !LosesLane(trace, launched, ws[j], events[j])
    ensures |ws[k].steps| == warpSize
    ensures forall i | i in launched && trace(i, ws[k].steps[i]) != NULL_PC ::
              Holds(ws[k].stack, i) && PcOf(ws[k].stack, i) == trace(i, ws[k].steps[i])
    ensures ws[k].stack != [] ==>
              forall i | i in Issued(trace, launched, ws[k]) ::
                i < warpSize && trace(i, ws[k].steps[i]) == Top(ws[k].stack).pc
  {
    StartInLockstep(trace, warpSize, startPc, launched, ws[0]);
    RunKeepsLockstep(trace, launched, ws, events, k);
    LockstepMeans(trace, launched, ws[k]);
  }

  lemma LockstepMeans(trace: Trace, launched: set<nat>, w: Warp)
    requires InLockstep(trace, launched, w)
    ensures forall i | i in launched && trace(i, w.steps[i]) != NULL_PC ::
              Holds(w.stack, i) && PcOf(w.stack, i) == trace(i, w.steps[i])
    ensures w.stack != [] ==>
              forall i | i in Issued(trace, launched, w) :: i < |w.steps| && trace(i, w.steps[i]) == Top(w.stack).pc
  {
    forall i | i in launched && trace(i, w.steps[i]) != NULL_PC
      ensures PcOf(w.stack, i) == trace(i, w.steps[i]) && Holds(w.stack, i)
    {
      assert i in launched - DoneLanes(trace, launched, w.steps);
      PcOfHeld(w.stack, i);
    }
  }

  // ---------------------------------------------------------------- calls

  lemma StepMatchesCalls(trace: Trace, launched: set<nat>, w: Warp, e: Event, w': Warp)
    requires StepsTo(trace, launched, w, e, w') && CallsMatch(w.stack, DoneLanes(trace, launched, w.steps))
    ensures CallsMatch(w'.stack, DoneLanes(trace, launched, w'.steps)) <==> !LosesCaller(trace, launched, w, e)
  {
    hide CallsMatch, Unbalances, Updated;
    DoneGrows(trace, launched, w);
    CallLanesMatch(w.stack, |w.steps|, DoneLanes(trace, launched, w.steps), Report(trace, launched, w, e));
  }

  lemma {:induction false} RunKeepsCalls(trace: Trace, launched: set<nat>, ws: seq<Warp>, events: seq<Event>, k: nat)
    requires IsRun(trace, launched, ws, events) && k < |ws|
    requires CallsMatch(ws[0].stack, DoneLanes(trace, launched, ws[0].steps))
    requires forall j | 0 <= j < k :: !LosesCaller(trace, launched, ws[j], events[j])
    ensures CallsMatch(ws[k].stack, DoneLanes(trace, launched, ws[k].steps))
  {
    hide CallsMatch, LosesCaller, StepsTo;
    if k > 0 {
      RunKeepsCalls(trace, launched, ws, events, k - 1);
      assert StepsTo(trace, launched, ws[k - 1], events[k - 1], ws[k]);
      StepMatchesCalls(trace, launched, ws[k - 1], events[k - 1], ws[k]);
    }
  }

  /** On every run from a launch, each call entry always holds exactly the live lanes of the entry
      below it if and only if no branch diverges in a callee's own entry without a reconvergence
      point. */
  lemma CallsMatchExactly(trace: Trace, warpSize: nat, startPc: Pc, launched: set<nat>, ws: seq<Warp>,
      events: seq<Event>)
    requires IsRun(trace, launched, ws, events) && Begins(trace, warpSize, startPc, launched, ws[0])
    ensures (forall k | 0 <= k < |ws| :: CallsMatch(ws[k].stack, DoneLanes(trace, launched, ws[k].steps)))
       <==> (forall j | 0 <= j < |events| :: !LosesCaller(trace, launched, ws[j], events[j]))
  {
    assert CallsMatch(ws[0].stack, DoneLanes(trace, launched, ws[0].steps));
    hide CallsMatch, StepsTo, LosesCaller, Begins, DoneLanes;
    if forall k | 0 <= k < |ws| :: CallsMatch(ws[k].stack, DoneLanes(trace, launched, ws[k].steps)) {
      forall j | 0 <= j < |events|
        ensures !LosesCaller(trace, launched, ws[j], events[j])
      {
        StepMatchesCalls(trace, launched, ws[j], events[j], ws[j + 1]);
      }
    }
    if forall j | 0 <= j < |events| :: !LosesCaller(trace, launched, ws[j], events[j]) {
      forall k | 0 <= k < |ws|
        ensures CallsMatch(ws[k].stack, DoneLanes(trace, launched, ws[k].steps))
      {
        RunKeepsCalls(trace, launched, ws, events, k);
      }
    }
  }

  lemma DoneGrows(trace: Trace, launched: set<nat>, w: Warp)
    requires w.stack != []
    ensures DoneLanes(trace, launched, w.steps) <= DoneLanes(trace, launched, StepsAfter(trace, launched, w))
  {
  }
}
