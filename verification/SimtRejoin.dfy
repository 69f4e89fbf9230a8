/**
 Regions of a run: from a divergent branch to its reconvergence, and from a call to its return, the
 stack below is left alone, and at the end of the region it is as it was, apart from the PC.
 */
module SimtRejoin {
  import opened Ordered
  import opened SimtStacks
  import opened SimtRefinement
  import opened SimtRun
  import opened SimtProgress
  import opened SimtEntries

  /** The lower entries are `base`, and what is above them starts with an entry of this kind. */
  ghost predicate Above(stack: seq<Entry>, base: seq<Entry>, kind: EntryKind) {
    base < stack && stack[|base|].kind == kind
  }

  /** What a return from `base`'s callee leaves: the caller at `pc`, or nothing if it reconverges there. */
  ghost predicate ResumesAt(stack: seq<Entry>, base: seq<Entry>, pc: Pc)
    requires base != []
  {
    var caller := base[|base| - 1];
    if caller.kind == Normal && pc == caller.recvg then stack == base[..|base| - 1]
    else stack == base[..|base| - 1] + [caller.(pc := pc)]
  }

  lemma ReturnInRegion(stack: seq<Entry>, warpSize: nat, s: StepInput, base: seq<Entry>, kind: EntryKind, i: nat)
    requires Allowed(stack, warpSize, s) && Above(stack, base, kind) && base != []
    requires Returns(stack, s) && i in Live(stack, s)
    ensures i < |s.nextPc|
    ensures var after := Updated(stack, warpSize, s);
            if |stack| == |base| + 1 then kind == Call && ResumesAt(after, base, s.nextPc[i])
            else Above(after, base, kind) || after == base
  {
    hide Updated;
    ReturnEntries(stack, warpSize, s, i);
    if |stack| == |base| + 1 { assert base == stack[..|stack| - 1]; }
  }

  lemma MoveInRegion(stack: seq<Entry>, warpSize: nat, s: StepInput, base: seq<Entry>, kind: EntryKind)
    requires Allowed(stack, warpSize, s) && Above(stack, base, kind) && base != []
    requires !Returns(stack, s) && !(Top(stack).mask <= s.done)
    ensures var after := Updated(stack, warpSize, s); Above(after, base, kind) || after == base
  {
    hide Updated, Diverges;
    EntriesAfter(stack, warpSize, s, |base|);
  }

  /** A step inside a region keeps what is below it; one that ends it leaves exactly that, or returns
      to the caller that it ends with. */
  lemma StepInRegion(stack: seq<Entry>, warpSize: nat, s: StepInput, base: seq<Entry>, kind: EntryKind)
    requires Allowed(stack, warpSize, s) && Above(stack, base, kind) && base != []
    ensures var after := Updated(stack, warpSize, s);
      || Above(after, base, kind)
      || after == base
      || (kind == Call && Returns(stack, s) && |stack| == |base| + 1 && Live(stack, s) != {}
          && forall i | i in Live(stack, s) :: i < |s.nextPc| && ResumesAt(after, base, s.nextPc[i]))
  {
    NoneLive(stack, s);
    if Live(stack, s) == {} {
      ExitedIsPopped(stack, warpSize, s);
    } else {
      hide Updated, Above, ResumesAt, Returns, Allowed;
      if Returns(stack, s) {
        forall i | i in Live(stack, s)
          ensures i < |s.nextPc|
          ensures if |stack| == |base| + 1
                  then kind == Call && ResumesAt(Updated(stack, warpSize, s), base, s.nextPc[i])
                  else Above(Updated(stack, warpSize, s), base, kind) || Updated(stack, warpSize, s) == base
        {
          ReturnInRegion(stack, warpSize, s, base, kind, i);
        }
      } else {
        MoveInRegion(stack, warpSize, s, base, kind);
      }
    }
  }

  lemma RegionStep(trace: Trace, launched: set<nat>, w: Warp, e: Event, w': Warp, base: seq<Entry>, kind: EntryKind)
    requires StepsTo(trace, launched, w, e, w') && Above(w.stack, base, kind) && base != []
    ensures || Above(w'.stack, base, kind) || w'.stack == base
            || (kind == Call && Resumes(trace, launched, w, e, w', base))
  {
    hide Updated, Above, ResumesAt;
    StepInRegion(w.stack, |w.steps|, Report(trace, launched, w, e), base, kind);
  }

  /** The callee returns: all lanes that execute go on at one address, and so does the caller. */
  ghost predicate Resumes(trace: Trace, launched: set<nat>, w: Warp, e: Event, w': Warp, base: seq<Entry>)
    requires base != []
  {
    && StepsTo(trace, launched, w, e, w') && e.op == RetOp && |w.stack| == |base| + 1
    && exists i :: i in w.stack[|base|].mask && i < |w'.steps| && trace(i, w'.steps[i]) != NULL_PC &&
         ResumesAt(w'.stack, base, trace(i, w'.steps[i]))
  }

  lemma {:induction false} RegionLasts(trace: Trace, launched: set<nat>, ws: seq<Warp>, events: seq<Event>,
      base: seq<Entry>, kind: EntryKind, k: nat, j: nat)
    requires IsRun(trace, launched, ws, events) && k <= j < |ws| && base != [] && Above(ws[k].stack, base, kind)
    requires forall m | k <= m <= j :: |ws[m].stack| > |base|
    ensures Above(ws[j].stack, base, kind)
    decreases j
  {
    hide StepsTo, Above;
    if k < j {
      RegionLasts(trace, launched, ws, events, base, kind, k, j - 1);
      assert StepsTo(trace, launched, ws[j - 1], events[j - 1], ws[j]);
      RegionStep(trace, launched, ws[j - 1], events[j - 1], ws[j], base, kind);
      ShorterThan(ws[j].stack, base);
    }
  }

  lemma ShorterThan(stack: seq<Entry>, base: seq<Entry>)
    requires base != []
    ensures forall pc: Pc | ResumesAt(stack, base, pc) :: |stack| <= |base|
    ensures forall kind | Above(stack, base, kind) :: |stack| > |base|
  {
  }

  lemma RegionEnds(trace: Trace, launched: set<nat>, ws: seq<Warp>, events: seq<Event>, base: seq<Entry>,
      kind: EntryKind, k: nat, j: nat)
    requires IsRun(trace, launched, ws, events) && k < j < |ws| && base != [] && Above(ws[k].stack, base, kind)
    requires (forall m | k <= m < j :: |ws[m].stack| > |base|) && |ws[j].stack| <= |base|
    ensures ws[j].stack == base
         || (kind == Call && Resumes(trace, launched, ws[j - 1], events[j - 1], ws[j], base))
  {
    hide StepsTo, Above;
    RegionLasts(trace, launched, ws, events, base, kind, k, j - 1);
    assert StepsTo(trace, launched, ws[j - 1], events[j - 1], ws[j]);
    RegionStep(trace, launched, ws[j - 1], events[j - 1], ws[j], base, kind);
    ShorterThan(ws[j].stack, base);
  }

  // ---------------------------------------------------------------- branches

  /** The warp diverges at a branch with a reconvergence point of its own. */
  ghost predicate Branches(trace: Trace, launched: set<nat>, w: Warp, e: Event, w': Warp) {
    && StepsTo(trace, launched, w, e, w') && e.op == OtherOp && e.recvg != Top(w.stack).recvg
    && Diverges(w.stack, Report(trace, launched, w, e))
  }

  /** The stack of a branch that waits for its lanes. */
  function Waiting(w: Warp, e: Event): seq<Entry>
    requires w.stack != []
  {
    w.stack[..|w.stack| - 1] + [w.stack[|w.stack| - 1].(pc := e.recvg)]
  }

  lemma BranchOpens(trace: Trace, launched: set<nat>, w: Warp, e: Event, w': Warp)
    requires Branches(trace, launched, w, e, w')
    ensures w'.stack == Waiting(w, e) || Above(w'.stack, Waiting(w, e), Normal)
  {
    var s, n := Report(trace, launched, w, e), |w.stack|;
    hide Updated;
    NoneLive(w.stack, s);
    EntriesAfter(w.stack, |w.steps|, s, n - 1);
    EntriesAfter(w.stack, |w.steps|, s, n);
    hide Diverges, Follows;
    assert w'.stack[..n] == Waiting(w, e);
  }

  /** When the stack is back to its height before a divergent branch for the first time, it is the
      stack before the branch with its top entry at the reconvergence point: the lanes execute
      together again, and no outer entry has changed. */
  lemma Reconverged(trace: Trace, launched: set<nat>, ws: seq<Warp>, events: seq<Event>, k: nat, j: nat)
    requires IsRun(trace, launched, ws, events) && k < j < |ws|
    requires Branches(trace, launched, ws[k], events[k], ws[k + 1])
    requires forall m | k < m < j :: |ws[m].stack| > |ws[k].stack|
    requires |ws[j].stack| <= |ws[k].stack|
    ensures ws[j].stack == Waiting(ws[k], events[k])
  {
    BranchOpens(trace, launched, ws[k], events[k], ws[k + 1]);
    var base := Waiting(ws[k], events[k]);
    ShorterThan(ws[k + 1].stack, base);
    hide StepsTo, Branches, Above, Waiting;
    if ws[k + 1].stack != base {
      RegionEnds(trace, launched, ws, events, base, Normal, k + 1, j);
    }
  }

  // ---------------------------------------------------------------- calls

  lemma CallOpens(trace: Trace, launched: set<nat>, w: Warp, e: Event, w': Warp, i: nat)
    requires StepsTo(trace, launched, w, e, w') && e.op == CallOp
    requires i in w.stack[|w.stack| - 1].mask && i < |w'.steps| && i in launched && trace(i, w'.steps[i]) != NULL_PC
    ensures Above(w'.stack, w.stack, Call)
  {
    var s, n := Report(trace, launched, w, e), |w.stack|;
    EntriesAfter(w.stack, |w.steps|, s, n - 1);
    EntriesAfter(w.stack, |w.steps|, s, n);
  }

  /** When a callee's entries are gone for the first time, either all its lanes have exited and the
      stack is that of the caller at the call, or the callee has returned, and the caller goes on
      where the returning lanes do. */
  lemma CallReturned(trace: Trace, launched: set<nat>, ws: seq<Warp>, events: seq<Event>, k: nat, j: nat, i: nat)
    requires IsRun(trace, launched, ws, events) && k < j < |ws| && events[k].op == CallOp
    requires ws[k].stack != [] && i in ws[k].stack[|ws[k].stack| - 1].mask && i in launched
    requires i < |ws[k + 1].steps| && trace(i, ws[k + 1].steps[i]) != NULL_PC
    requires (forall m | k < m < j :: |ws[m].stack| > |ws[k].stack|) && |ws[j].stack| <= |ws[k].stack|
    ensures ws[j].stack == ws[k].stack || Resumes(trace, launched, ws[j - 1], events[j - 1], ws[j], ws[k].stack)
  {
    CallOpens(trace, launched, ws[k], events[k], ws[k + 1], i);
    ShorterThan(ws[k + 1].stack, ws[k].stack);
    hide StepsTo, Above;
    RegionEnds(trace, launched, ws, events, ws[k].stack, Call, k + 1, j);
  }
}
