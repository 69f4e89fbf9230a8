/**
 Programs without calls: if every divergent branch reconverges at its immediate post-dominator, no
 lane ever strays, so the stack simulates the threads on every run.
 */
module SimtProgram {
  import opened Ordered
  import opened SimtStacks
  import opened SimtRefinement
  import opened SimtRun

  /** The control-flow graph.  NULL_PC stands for the exit. */
  type Graph = Pc -> set<Pc>

  ghost predicate IsPath(g: Graph, path: seq<Pc>) {
    path != [] && forall k | 0 <= k < |path| - 1 :: path[k + 1] in g(path[k])
  }

  /** A path from `d` to the exit. */
  ghost predicate Leaves(g: Graph, d: Pc, path: seq<Pc>) {
    IsPath(g, path) && path[0] == d && path[|path| - 1] == NULL_PC
  }

  ghost predicate PostDominates(g: Graph, m: Pc, d: Pc) {
    forall path | Leaves(g, d, path) :: m in path
  }

  /** The closest strict post-dominator. */
  ghost predicate IsImmediate(g: Graph, m: Pc, d: Pc) {
    && m != d && PostDominates(g, m, d)
    && forall x | x != d && PostDominates(g, x, d) :: PostDominates(g, x, m)
  }

  ghost predicate ReachesExit(g: Graph, d: Pc) {
    exists path :: Leaves(g, d, path)
  }

  lemma Prepend(g: Graph, d: Pc, p: Pc, path: seq<Pc>)
    requires p in g(d) && Leaves(g, p, path)
    ensures Leaves(g, d, [d] + path)
  {
    var longer := [d] + path;
    forall k | 0 <= k < |longer| - 1
      ensures longer[k + 1] in g(longer[k])
    {
      if k > 0 { assert longer[k] == path[k - 1] && longer[k + 1] == path[k]; }
    }
  }

  /** What strictly post-dominates a branch post-dominates both ways out of it. */
  lemma SuccessorDominated(g: Graph, m: Pc, d: Pc, p: Pc)
    requires m != d && PostDominates(g, m, d) && p in g(d)
    ensures PostDominates(g, m, p)
  {
    forall path | Leaves(g, p, path)
      ensures m in path
    {
      Prepend(g, d, p, path);
      assert m in [d] + path;
    }
  }

  lemma Suffix(g: Graph, d: Pc, path: seq<Pc>, j: nat)
    requires Leaves(g, d, path) && j < |path|
    ensures Leaves(g, path[j], path[j..])
  {
    var rest := path[j..];
    forall k | 0 <= k < |rest| - 1
      ensures rest[k + 1] in g(rest[k])
    {
      assert rest[k] == path[j + k] && rest[k + 1] == path[j + k + 1];
    }
  }

  /** Two PCs that post-dominate each other are the same, if the exit can be reached. */
  lemma {:induction false} Antisymmetric(g: Graph, a: Pc, b: Pc, path: seq<Pc>)
    requires PostDominates(g, a, b) && PostDominates(g, b, a) && Leaves(g, b, path)
    ensures a == b
    decreases |path|
  {
    if a != b {
      var j: nat :| j < |path| && path[j] == a;
      Suffix(g, b, path, j);
      Antisymmetric(g, b, a, path[j..]);
    }
  }

  // ---------------------------------------------------------------- the stack

  /** The entry waits for a PC ahead of it: its reconvergence PC strictly post-dominates its PC. */
  ghost predicate Ahead(g: Graph, e: Entry) {
    e.recvg != NULL_PC ==> e.pc != e.recvg && PostDominates(g, e.recvg, e.pc)
  }

  /** No call entry, and every entry ahead of its reconvergence point. */
  ghost predicate Structured(g: Graph, stack: seq<Entry>) {
    forall k | 0 <= k < |stack| :: stack[k].kind == Normal && Ahead(g, stack[k])
  }

  /** The live lanes follow the graph, and a divergent branch has its immediate post-dominator. */
  ghost predicate FollowsGraph(g: Graph, stack: seq<Entry>, s: StepInput)
    requires stack != [] && forall i | i in Live(stack, s) :: i < |s.nextPc|
  {
    && s.op != CallOp
    && (forall i | i in Live(stack, s) :: s.nextPc[i] in g(Top(stack).pc))
    && (|Paths(Live(stack, s), s.nextPc)| == 2 ==> IsImmediate(g, s.recvg, Top(stack).pc))
  }

  /** A branch that jumps to the enclosing reconvergence point has it as immediate post-dominator. */
  lemma JumpsToImmediate(g: Graph, d: Pc, m: Pc, r: Pc)
    requires IsImmediate(g, m, d) && r in g(d) && r != d && PostDominates(g, r, d) && ReachesExit(g, r)
    ensures m == r
  {
    SuccessorDominated(g, m, d, r);
    var path :| Leaves(g, r, path);
    Antisymmetric(g, m, r, path);
  }

  lemma NoStray(g: Graph, stack: seq<Entry>, warpSize: nat, s: StepInput)
    requires Allowed(stack, warpSize, s) && Structured(g, stack) && FollowsGraph(g, stack, s)
    requires forall pc | pc in g(Top(stack).pc) :: ReachesExit(g, pc)
    ensures !Strays(stack, s)
  {
    if Strays(stack, s) {
      var r := Top(stack).recvg;
      assert Ahead(g, Top(stack));
      var i :| i in Live(stack, s) && s.nextPc[i] == r;
      JumpsToImmediate(g, Top(stack).pc, s.recvg, r);
      assert false;
    }
  }

  lemma PushAhead(g: Graph, stack: seq<Entry>, e: Entry)
    requires Structured(g, stack) && e.kind == Normal && Ahead(g, e)
    ensures Structured(g, stack + [e])
  {
  }

  lemma BelowAhead(g: Graph, stack: seq<Entry>)
    requires Structured(g, stack) && stack != []
    ensures Structured(g, Below(stack)) && Top(stack).kind == Normal && Ahead(g, Top(stack))
  {
  }

  /** The waiting entry of a divergent branch is ahead of the enclosing reconvergence point. */
  lemma WaitingAhead(g: Graph, top: Entry, m: Pc)
    requires Ahead(g, top) && m != top.recvg && IsImmediate(g, m, top.pc)
    ensures Ahead(g, top.(pc := m))
  {
  }

  /** Each way out of a branch is ahead of the branch's post-dominators. */
  lemma GroupAhead(g: Graph, d: Pc, p: Pc, mask: set<nat>, m: Pc)
    requires m != NULL_PC ==> m != d && PostDominates(g, m, d)
    requires p in g(d) && p != m
    ensures Ahead(g, Entry(p, 0, mask, m, Normal))
  {
    if m != NULL_PC { SuccessorDominated(g, m, d, p); }
  }

  lemma ForkKeepsStructure(g: Graph, stack: seq<Entry>, recvg: Pc, p: Pc, pMask: set<nat>, q: Pc, qMask: set<nat>)
    requires Structured(g, stack) && stack != [] && IsImmediate(g, recvg, Top(stack).pc)
    requires p in g(Top(stack).pc) && q in g(Top(stack).pc)
    ensures Structured(g, Diverged(Below(stack), Top(stack), recvg, p, pMask, q, qMask))
  {
    var top := Top(stack);
    BelowAhead(g, stack);
    if recvg != top.recvg { WaitingAhead(g, top, recvg); }
    if p != recvg { GroupAhead(g, top.pc, p, pMask, recvg); }
    if q != recvg { GroupAhead(g, top.pc, q, qMask, recvg); }
    hide Structured, Ahead, IsImmediate;
    var base := Below(stack) + if recvg == top.recvg then [] else [top.(pc := recvg)];
    if recvg == top.recvg {
      assert base == Below(stack);
    } else {
      PushAhead(g, Below(stack), top.(pc := recvg));
    }
    var ps := base + if Kept(top, recvg, p) then [Entry(p, 0, pMask, recvg, Normal)] else [];
    if Kept(top, recvg, p) {
      PushAhead(g, base, Entry(p, 0, pMask, recvg, Normal));
    } else {
      assert ps == base;
    }
    if Kept(top, recvg, q) { PushAhead(g, ps, Entry(q, 0, qMask, recvg, Normal)); }
    assert Diverged(Below(stack), top, recvg, p, pMask, q, qMask)
        == ps + if Kept(top, recvg, q) then [Entry(q, 0, qMask, recvg, Normal)] else [];
    assert ps + [] == ps;
  }

  lemma StepKeepsStructure(g: Graph, stack: seq<Entry>, warpSize: nat, s: StepInput)
    requires Allowed(stack, warpSize, s) && Structured(g, stack) && FollowsGraph(g, stack, s)
    ensures Structured(g, Updated(stack, warpSize, s))
  {
    var live, top := Live(stack, s), Top(stack);
    var groups := Groups(live, s.nextPc);
    BelowAhead(g, stack);
    if groups != map[] {
      var p := FirstPath(groups.Keys, s.notTaken);
      assert p in Paths(live, s.nextPc);
      if groups.Keys == {p} {
        if p != top.recvg {
          GroupAhead(g, top.pc, p, live, top.recvg);
          PushAhead(g, Below(stack), top.(pc := p, mask := groups[p]));
        }
      } else {
        TwoPaths(groups.Keys, p);
        var q := Least(groups.Keys - {p});
        assert q in Paths(live, s.nextPc);
        ForkKeepsStructure(g, stack, s.recvg, p, groups[p], q, groups[q]);
      }
    }
  }

  // ---------------------------------------------------------------- whole runs

  /** Every launched thread follows the graph, from which the exit can be reached everywhere. */
  ghost predicate Executes(g: Graph, trace: Trace, launched: set<nat>) {
    && (forall d: Pc :: ReachesExit(g, d))
    && forall i, k: nat | i in launched && trace(i, k) != NULL_PC :: trace(i, k + 1) in g(trace(i, k))
  }

  /** The event is no call, and if it diverges it names the immediate post-dominator of the branch. */
  ghost predicate Guided(g: Graph, trace: Trace, launched: set<nat>, w: Warp, e: Event) {
    CanStep(trace, launched, w, e) ==>
      && e.op != CallOp
      && (var s := Report(trace, launched, w, e);
          |Paths(Live(w.stack, s), s.nextPc)| == 2 ==> IsImmediate(g, e.recvg, Top(w.stack).pc))
  }

  lemma StepFollows(g: Graph, trace: Trace, launched: set<nat>, w: Warp, e: Event, w': Warp)
    requires Executes(g, trace, launched) && InLockstep(trace, launched, w)
    requires StepsTo(trace, launched, w, e, w') && Guided(g, trace, launched, w, e)
    ensures FollowsGraph(g, w.stack, Report(trace, launched, w, e))
  {
    var s := Report(trace, launched, w, e);
    hide Inv, IsImmediate, Updated, ReachesExit;
    LockstepMeans(trace, launched, w);
    DoneGrows(trace, launched, w);
    forall i | i in Live(w.stack, s)
      ensures s.nextPc[i] in g(Top(w.stack).pc)
    {
      assert i in Issued(trace, launched, w);
      assert Top(w.stack).mask <= launched;
      assert trace(i, w.steps[i]) == Top(w.stack).pc && s.nextPc[i] == trace(i, w.steps[i] + 1);
    }
  }

  lemma StepStays(g: Graph, trace: Trace, launched: set<nat>, w: Warp, e: Event, w': Warp)
    requires Executes(g, trace, launched) && InLockstep(trace, launched, w) && Structured(g, w.stack)
    requires StepsTo(trace, launched, w, e, w') && Guided(g, trace, launched, w, e)
    ensures InLockstep(trace, launched, w') && Structured(g, w'.stack) && !LosesLane(trace, launched, w, e)
  {
    StepFollows(g, trace, launched, w, e, w');
    var s := Report(trace, launched, w, e);
    NoStray(g, w.stack, |w.steps|, s);
    StepKeepsStructure(g, w.stack, |w.steps|, s);
    StepInLockstep(trace, launched, w, e, w');
  }

  lemma {:induction false} RunStays(
      g: Graph, trace: Trace, launched: set<nat>, ws: seq<Warp>, events: seq<Event>, k: nat)
    requires Executes(g, trace, launched) && IsRun(trace, launched, ws, events) && k < |ws|
    requires InLockstep(trace, launched, ws[0]) && Structured(g, ws[0].stack)
    requires forall j | 0 <= j < |events| :: Guided(g, trace, launched, ws[j], events[j])
    ensures InLockstep(trace, launched, ws[k]) && Structured(g, ws[k].stack)
  {
    hide Executes, InLockstep, Structured, StepsTo, Guided;
    if k > 0 {
      RunStays(g, trace, launched, ws, events, k - 1);
      assert StepsTo(trace, launched, ws[k - 1], events[k - 1], ws[k]);
      StepStays(g, trace, launched, ws[k - 1], events[k - 1], ws[k]);
    }
  }

  /** A program without calls whose divergent branches reconverge at their immediate post-dominators
      runs in lockstep: no lane strays, and in every state the stack agrees with the threads. */
  lemma PostDominatorsSuffice(
      g: Graph, trace: Trace, warpSize: nat, startPc: Pc, launched: set<nat>, ws: seq<Warp>, events: seq<Event>)
    requires Executes(g, trace, launched)
    requires IsRun(trace, launched, ws, events) && Begins(trace, warpSize, startPc, launched, ws[0])
    requires forall j | 0 <= j < |events| :: Guided(g, trace, launched, ws[j], events[j])
    ensures forall j | 0 <= j < |events| :: !LosesLane(trace, launched, ws[j], events[j])
    ensures forall k | 0 <= k < |ws| :: InLockstep(trace, launched, ws[k])
  {
    StartInLockstep(trace, warpSize, startPc, launched, ws[0]);
    assert Structured(g, ws[0].stack);
    hide Executes, InLockstep, Structured, StepsTo, Guided, LosesLane, Begins;
    forall k | 0 <= k < |ws|
      ensures InLockstep(trace, launched, ws[k])
    {
      RunStays(g, trace, launched, ws, events, k);
    }
    forall j | 0 <= j < |events|
      ensures !LosesLane(trace, launched, ws[j], events[j])
    {
      RunStays(g, trace, launched, ws, events, j);
      StepStays(g, trace, launched, ws[j], events[j], ws[j + 1]);
    }
  }
}
