/**
 The warp makes progress: every step executes an instruction or shortens the stack, so a run ends
 when the threads do, with an empty stack.
 */
module SimtProgress {
  import opened Ordered
  import opened SimtStacks
  import opened SimtRefinement
  import opened SimtRun
  import opened SimtDepth

  // ---------------------------------------------------------------- one step

  /** An entry whose lanes have all exited is popped, and nothing else happens. */
  lemma ExitedIsPopped(stack: seq<Entry>, warpSize: nat, s: StepInput)
    requires Allowed(stack, warpSize, s) && Top(stack).mask <= s.done
    ensures Updated(stack, warpSize, s) == stack[..|stack| - 1]
  {
    assert Live(stack, s) == {};
    assert Paths(Live(stack, s), s.nextPc) == {};
    assert Groups(Live(stack, s), s.nextPc) == map[];
  }

  lemma NoneLive(stack: seq<Entry>, s: StepInput)
    requires stack != []
    ensures Live(stack, s) == {} <==> Top(stack).mask <= s.done
  {
    if Live(stack, s) == {} {
      forall i | i in Top(stack).mask
        ensures i in s.done
      {
        assert i !in Live(stack, s);
      }
    }
  }

  lemma TwoLanes(lanes: set<nat>, nextPc: seq<Pc>)
    requires forall i | i in lanes :: i < |nextPc|
    requires |Paths(lanes, nextPc)| == 2
    ensures |lanes| >= 2
  {
    var paths := Paths(lanes, nextPc);
    var p :| p in paths;
    TwoPaths(paths, p);
    var q :| q in paths - {p};
    var i, j :| i in lanes && j in lanes && nextPc[i] == p && nextPc[j] == q;
    assert lanes == (lanes - {i} - {j}) + {i, j};
    assert |{i, j}| == 2;
  }

  /** A step adds at most one entry, or two if the warp diverges. */
  lemma StepHeight(stack: seq<Entry>, warpSize: nat, s: StepInput)
    requires Allowed(stack, warpSize, s)
    ensures |Updated(stack, warpSize, s)| <= |stack| + if |Paths(Live(stack, s), s.nextPc)| == 2 then 2 else 1
  {
    var live := Live(stack, s);
    var groups := Groups(live, s.nextPc);
    if groups != map[] {
      var p := FirstPath(groups.Keys, s.notTaken);
      if s.op != CallOp && !(s.op == RetOp && Top(stack).kind == Call) && groups.Keys != {p} {
        TwoPaths(groups.Keys, p);
      }
    }
  }

  // ---------------------------------------------------------------- counting instructions

  function Sum(ns: seq<nat>): nat {
    if ns == [] then 0 else Sum(ns[..|ns| - 1]) + ns[|ns| - 1]
  }

  /** Where the lanes of a set go up by one, the sum goes up by their number. */
  lemma {:induction false} SumGrows(ns: seq<nat>, more: seq<nat>, lanes: set<nat>)
    requires |ns| == |more| && forall i | i in lanes :: i < |ns|
    requires forall i | 0 <= i < |ns| :: more[i] == if i in lanes then ns[i] + 1 else ns[i]
    ensures Sum(more) == Sum(ns) + |lanes|
  {
    if ns == [] {
      assert lanes == {};
    } else {
      var n := |ns| - 1;
      SumGrows(ns[..n], more[..n], lanes - {n});
      if n in lanes { assert lanes == (lanes - {n}) + {n}; }
    }
  }

  lemma {:induction false} SumBelow(ns: seq<nat>, limits: seq<nat>)
    requires |ns| == |limits| && forall i | 0 <= i < |ns| :: ns[i] <= limits[i]
    ensures Sum(ns) <= Sum(limits)
  {
    if ns != [] { SumBelow(ns[..|ns| - 1], limits[..|ns| - 1]); }
  }

  lemma {:induction false} SumOfNone(ns: seq<nat>)
    requires forall i | 0 <= i < |ns| :: ns[i] == 0
    ensures Sum(ns) == 0
  {
    if ns != [] { SumOfNone(ns[..|ns| - 1]); }
  }

  /** Each lane that executes takes one instruction of its thread, and no other lane moves; if none
      does, the top entry is popped. */
  lemma ExecutesOrPops(trace: Trace, launched: set<nat>, w: Warp, e: Event, w': Warp)
    requires StepsTo(trace, launched, w, e, w')
    ensures |w'.steps| == |w.steps| && Sum(w'.steps) == Sum(w.steps) + |Issued(trace, launched, w)|
    ensures forall i | 0 <= i < |w.steps| ::
              w'.steps[i] == w.steps[i] ||
              (w'.steps[i] == w.steps[i] + 1 && i in launched && trace(i, w.steps[i]) != NULL_PC)
    ensures w'.steps == w.steps ==> w'.stack == w.stack[..|w.stack| - 1]
  {
    var s, issued := Report(trace, launched, w, e), Issued(trace, launched, w);
    SumGrows(w.steps, w'.steps, issued);
    if w'.steps == w.steps {
      assert |issued| == 0;
      DoneGrows(trace, launched, w);
      ExitedIsPopped(w.stack, |w.steps|, s);
    }
  }

  /** Every step uses up part of what is left: entries of the stack and instructions of the threads. */
  lemma StepUses(trace: Trace, launched: set<nat>, w: Warp, e: Event, w': Warp)
    requires StepsTo(trace, launched, w, e, w')
    ensures |w'.stack| + 2 * Sum(w.steps) < |w.stack| + 2 * Sum(w'.steps)
  {
    var s, issued := Report(trace, launched, w, e), Issued(trace, launched, w);
    ExecutesOrPops(trace, launched, w, e, w');
    DoneGrows(trace, launched, w);
    StepHeight(w.stack, |w.steps|, s);
    if issued == {} {
      assert w'.steps == w.steps;
    } else if |Paths(Live(w.stack, s), s.nextPc)| == 2 {
      TwoLanes(Live(w.stack, s), s.nextPc);
      Fewer(Live(w.stack, s), issued);
    }
  }

  lemma Fewer(s: set<nat>, t: set<nat>)
    requires s <= t
    ensures |s| <= |t|
  {
    assert t == s + (t - s);
  }

  // ---------------------------------------------------------------- whole runs

  /** Thread `i` has exited after `lengths[i]` instructions. */
  ghost predicate Ends(trace: Trace, launched: set<nat>, lengths: seq<nat>) {
    forall i | i in launched :: i < |lengths| && trace(i, lengths[i]) == NULL_PC
  }

  ghost predicate Within(w: Warp, lengths: seq<nat>) {
    |w.steps| == |lengths| && forall i | 0 <= i < |lengths| :: w.steps[i] <= lengths[i]
  }

  lemma StepStaysWithin(trace: Trace, launched: set<nat>, lengths: seq<nat>, w: Warp, e: Event, w': Warp)
    requires StepsTo(trace, launched, w, e, w') && Ends(trace, launched, lengths) && Within(w, lengths)
    ensures Within(w', lengths)
  {
    ExecutesOrPops(trace, launched, w, e, w');
  }

  lemma {:induction false} RunUses(trace: Trace, launched: set<nat>, lengths: seq<nat>, ws: seq<Warp>,
      events: seq<Event>, k: nat)
    requires IsRun(trace, launched, ws, events) && k < |ws|
    requires Ends(trace, launched, lengths) && Within(ws[0], lengths)
    ensures Within(ws[k], lengths)
    ensures k + |ws[k].stack| + 2 * Sum(ws[0].steps) <= |ws[0].stack| + 2 * Sum(ws[k].steps)
  {
    hide StepsTo, Ends, Within, Sum;
    if k > 0 {
      RunUses(trace, launched, lengths, ws, events, k - 1);
      assert StepsTo(trace, launched, ws[k - 1], events[k - 1], ws[k]);
      StepUses(trace, launched, ws[k - 1], events[k - 1], ws[k]);
      StepStaysWithin(trace, launched, lengths, ws[k - 1], events[k - 1], ws[k]);
    }
  }

  /** No run from a launch is longer than twice the number of instructions of all its threads, plus
      one, whatever the branches, calls and reconvergence points are. */
  lemma RunsEnd(trace: Trace, warpSize: nat, startPc: Pc, launched: set<nat>, lengths: seq<nat>, ws: seq<Warp>,
      events: seq<Event>)
    requires IsRun(trace, launched, ws, events) && Begins(trace, warpSize, startPc, launched, ws[0])
    requires |lengths| == warpSize && Ends(trace, launched, lengths)
    ensures |events| <= 2 * Sum(lengths) + 1
  {
    hide StepsTo, Ends;
    var n := |events|;
    SumOfNone(ws[0].steps);
    RunUses(trace, launched, lengths, ws, events, n);
    SumBelow(ws[n].steps, lengths);
  }

  ghost predicate AllExited(trace: Trace, launched: set<nat>, w: Warp) {
    forall i | 0 <= i < |w.steps| && i in launched :: trace(i, w.steps[i]) == NULL_PC
  }

  /** What every state of a run satisfies and draining needs. */
  ghost predicate Drainable(w: Warp) {
    WellFormed(w.stack, |w.steps|) && Layered(w.stack)
  }

  /** When all threads have exited, a step is possible exactly while the stack is not empty, and it
      pops one entry. */
  lemma Drains(trace: Trace, launched: set<nat>, w: Warp, e: Event)
    requires Drainable(w) && AllExited(trace, launched, w)
    ensures CanStep(trace, launched, w, e) <==> w.stack != []
    ensures w.stack != [] ==> Step(trace, launched, w, e) == Warp(w.stack[..|w.stack| - 1], w.steps)
  {
    if w.stack != [] {
      var s := Report(trace, launched, w, e);
      assert Issued(trace, launched, w) == {};
      assert StepsAfter(trace, launched, w) == w.steps;
      assert Live(w.stack, s) == {};
      assert Paths({}, s.nextPc) == {};
      ExitedIsPopped(w.stack, |w.steps|, s);
    }
  }

  lemma RunIsDrainable(trace: Trace, warpSize: nat, startPc: Pc, launched: set<nat>, ws: seq<Warp>, events: seq<Event>,
      k: nat)
    requires IsRun(trace, launched, ws, events) && Begins(trace, warpSize, startPc, launched, ws[0]) && k < |ws|
    requires launched != {}
    ensures Drainable(ws[k])
  {
    StartHoldsAll(trace, warpSize, startPc, launched, ws[0]);
    StartLayered(trace, warpSize, startPc, launched, ws[0]);
    hide StepsTo, Layered, Holds, Reconverges, CallCovered;
    RunHoldsAll(trace, launched, ws, events, k);
    RunKeepsLayers(trace, launched, ws, events, k);
  }

  lemma {:induction false} DrainsOn(trace: Trace, launched: set<nat>, ws: seq<Warp>, events: seq<Event>, k: nat, j: nat)
    requires IsRun(trace, launched, ws, events) && k <= j < |ws| && AllExited(trace, launched, ws[k])
    requires forall m | k <= m < |ws| :: Drainable(ws[m])
    ensures j - k <= |ws[k].stack| && ws[j] == Warp(ws[k].stack[..|ws[k].stack| - (j - k)], ws[k].steps)
    decreases j
  {
    hide StepsTo, AllExited, Drainable;
    if k < j {
      DrainsOn(trace, launched, ws, events, k, j - 1);
      ExitedDepends(trace, launched, ws[k], ws[j - 1]);
      assert StepsTo(trace, launched, ws[j - 1], events[j - 1], ws[j]);
      StepDrains(trace, launched, ws[j - 1], events[j - 1], ws[j]);
    }
  }

  lemma ExitedDepends(trace: Trace, launched: set<nat>, w: Warp, w': Warp)
    requires w.steps == w'.steps
    ensures AllExited(trace, launched, w) <==> AllExited(trace, launched, w')
  {
  }

  lemma StepDrains(trace: Trace, launched: set<nat>, w: Warp, e: Event, w': Warp)
    requires StepsTo(trace, launched, w, e, w') && Drainable(w) && AllExited(trace, launched, w)
    ensures w.stack != [] && w' == Warp(w.stack[..|w.stack| - 1], w.steps)
  {
    hide Updated, Allowed;
    Drains(trace, launched, w, e);
  }

  /** After the last thread has exited the warp empties its stack in exactly as many steps as it has
      entries: it goes on if and only if the stack is not empty, and each step pops one entry. */
  lemma RunsDrain(trace: Trace, warpSize: nat, startPc: Pc, launched: set<nat>, ws: seq<Warp>, events: seq<Event>,
      k: nat, j: nat)
    requires IsRun(trace, launched, ws, events) && Begins(trace, warpSize, startPc, launched, ws[0])
    requires launched != {} && k <= j < |ws| && AllExited(trace, launched, ws[k])
    ensures j - k <= |ws[k].stack| && ws[j] == Warp(ws[k].stack[..|ws[k].stack| - (j - k)], ws[k].steps)
    ensures forall e :: CanStep(trace, launched, ws[j], e) <==> j - k < |ws[k].stack|
  {
    hide StepsTo, AllExited, Drainable, CanStep, Begins, Step;
    forall m | k <= m < |ws|
      ensures Drainable(ws[m])
    {
      RunIsDrainable(trace, warpSize, startPc, launched, ws, events, m);
    }
    DrainsOn(trace, launched, ws, events, k, j);
    ExitedDepends(trace, launched, ws[k], ws[j]);
    forall e: Event
      ensures CanStep(trace, launched, ws[j], e) <==> ws[j].stack != []
    {
      Drains(trace, launched, ws[j], e);
    }
  }
}
