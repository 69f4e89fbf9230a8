/**
 The SIMT reconvergence stack of one warp.

 A warp executes up to 32 scalar threads in lock step.  Each stack entry names a
 set of lanes, the program counter they execute next, and the program counter at
 which they reconverge with the entry below.
 */
module SimtStacks {
  import opened Ordered

  /** `address_type`: a 32-bit unsigned program counter. */
  type Pc = x: int | 0 <= x < 0x1_0000_0000

  /** `(address_type)-1`. */
  const NULL_PC: Pc := 0xFFFF_FFFF

  const MAX_WARP_SIZE: nat := 32

  datatype EntryKind = Normal | Call

  datatype Entry = Entry(pc: Pc, callDepth: nat, mask: set<nat>, recvg: Pc, kind: EntryKind)

  const FRESH_ENTRY := Entry(NULL_PC, 0, {}, NULL_PC, Normal)

  /** The opcodes the stack distinguishes. */
  datatype Opcode = CallOp | RetOp | OtherOp

  // ---------------------------------------------------------------- the step as a function

  function Top(stack: seq<Entry>): Entry
    requires stack != []
  {
    stack[|stack| - 1]
  }

  function Below(stack: seq<Entry>): seq<Entry>
    requires stack != []
  {
    stack[..|stack| - 1]
  }

  /** The distinct next PCs of a set of lanes. */
  function Paths(lanes: set<nat>, nextPc: seq<Pc>): set<Pc>
    requires forall i | i in lanes :: i < |nextPc|
  {
    set i | i in lanes :: nextPc[i]
  }

  /** The lanes that continue at `pc`. */
  function Going(lanes: set<nat>, nextPc: seq<Pc>, pc: Pc): set<nat>
    requires forall i | i in lanes :: i < |nextPc|
  {
    set i | i in lanes && nextPc[i] == pc
  }

  /** The fall-through path is served first; otherwise paths go in ascending order. */
  function FirstPath(paths: set<Pc>, notTaken: Pc): Pc
    requires paths != {}
  {
    if notTaken in paths then notTaken else Least(paths)
  }

  /** Everything the warp executes in one step, beside the stack itself. */
  datatype StepInput = StepInput(
    done: set<nat>,       // lanes that have exited
    nextPc: seq<Pc>,      // next PC of every lane
    recvg: Pc,            // reconvergence PC of the executed instruction
    op: Opcode,
    notTaken: Pc)         // address of the next sequential instruction

  /** The lanes that execute: those of the top entry that have not exited. */
  function Live(stack: seq<Entry>, s: StepInput): set<nat>
    requires stack != []
  {
    Top(stack).mask - s.done
  }

  /** Index 0 is the launch entry; a call entry always sits on its caller and never reconverges. */
  ghost predicate WellFormed(stack: seq<Entry>, warpSize: nat) {
    && (forall k, i | 0 <= k < |stack| && i in stack[k].mask :: i < warpSize)
    && (stack != [] ==> stack[0].kind == Normal && stack[0].recvg == NULL_PC)
    && (forall k | 0 <= k < |stack| && stack[k].kind == Call :: stack[k].recvg == NULL_PC)
  }

  /** The groups of live lanes, keyed by next PC. */
  function Groups(lanes: set<nat>, nextPc: seq<Pc>): (groups: map<Pc, set<nat>>)
    requires forall i | i in lanes :: i < |nextPc|
    ensures groups.Keys == Paths(lanes, nextPc)
  {
    map pc | pc in Paths(lanes, nextPc) :: Going(lanes, nextPc, pc)
  }

  /** At most two ways on; a call, and a return from a call, never diverge. */
  predicate Manageable(stack: seq<Entry>, paths: set<Pc>, op: Opcode)
    requires stack != []
  {
    |paths| <= 2 && (op == CallOp || (op == RetOp && Top(stack).kind == Call) ==> |paths| <= 1)
  }

  /** What `update` asserts, and what the thread contexts supply: live lanes have a next PC. */
  ghost predicate Allowed(stack: seq<Entry>, warpSize: nat, s: StepInput) {
    && WellFormed(stack, warpSize)
    && stack != []
    && Top(stack).mask != {}
    && |s.nextPc| == warpSize
    && (forall i | i in Live(stack, s) :: s.nextPc[i] != NULL_PC)
    && Manageable(stack, Paths(Live(stack, s), s.nextPc), s.op)
  }

  /** Popping a call entry: the caller resumes at the return address, or reconverges there. */
  function Returned(callers: seq<Entry>, pc: Pc): seq<Entry>
    requires callers != []
  {
    var caller := Top(callers);
    if pc == caller.recvg && caller.kind != Call then Below(callers)
    else Below(callers) + [caller.(pc := pc)]
  }

  /** All live lanes continue at `pc`: the top entry moves on, or reconverges. */
  function Advanced(stack: seq<Entry>, pc: Pc, live: set<nat>): seq<Entry>
    requires stack != []
  {
    var top := Top(stack);
    if pc == top.recvg && top.kind == Normal then Below(stack) else Below(stack) + [top.(pc := pc, mask := live)]
  }

  predicate Kept(top: Entry, recvg: Pc, pc: Pc) {
    pc != recvg && !(pc == top.recvg && top.kind == Normal)
  }

  /** A divergent branch: the top entry waits at the reconvergence point below the two groups. */
  function Diverged(below: seq<Entry>, top: Entry, recvg: Pc, p: Pc, pMask: set<nat>, q: Pc,
      qMask: set<nat>): seq<Entry> {
    var reuse := recvg == top.recvg;
    var slot := if reuse then top.kind else Normal;
    (if reuse then below else below + [top.(pc := recvg)])
    + (if Kept(top, recvg, p) then [Entry(p, 0, pMask, recvg, slot)] else [])
    + (if Kept(top, recvg, q) then [Entry(q, 0, qMask, recvg, if Kept(top, recvg, p) then Normal else slot)] else [])
  }

  lemma TwoPaths(paths: set<Pc>, p: Pc)
    requires p in paths && |paths| <= 2 && paths != {p}
    ensures |paths| == 2 && paths - {p} != {} && paths == {p, Least(paths - {p})}
  {
    var rest := paths - {p};
    assert |rest| == |paths| - 1;
    assert rest != {};
    var q := Least(rest);
    assert |rest - {q}| == |rest| - 1;
  }

  /** The stack after the groups of the top entry's live lanes have been filed. */
  function Handled(stack: seq<Entry>, groups: map<Pc, set<nat>>, recvg: Pc, op: Opcode, notTaken: Pc): seq<Entry>
    requires stack != [] && Manageable(stack, groups.Keys, op)
    requires Top(stack).kind == Call ==> |stack| > 1
  {
    if groups == map[] then Below(stack)
    else
      var p := FirstPath(groups.Keys, notTaken);
      if op == CallOp then stack + [Entry(p, 0, groups[p], NULL_PC, Call)]
      else if op == RetOp && Top(stack).kind == Call then Returned(Below(stack), p)
      else if groups.Keys == {p} then Advanced(stack, p, groups[p])
      else
        TwoPaths(groups.Keys, p);
        var q := Least(groups.Keys - {p});
        Diverged(Below(stack), Top(stack), recvg, p, groups[p], q, groups[q])
  }

  function Updated(stack: seq<Entry>, warpSize: nat, s: StepInput): seq<Entry>
    requires Allowed(stack, warpSize, s)
  {
    Handled(stack, Groups(Live(stack, s), s.nextPc), s.recvg, s.op, s.notTaken)
  }

  /** The effect of filing one group, together with the divergence flag. */
  ghost function Placed(stack: seq<Entry>, diverged: bool, numPaths: nat, pc: Pc, mask: set<nat>,
                        recvg: Pc, topRecvg: Pc, topKind: EntryKind): (r: (seq<Entry>, bool))
    requires stack != []
    ensures r.0 != []
  {
    if pc == topRecvg && topKind != Call then (stack, diverged)
    else
      var splits := numPaths > 1 && !diverged;
      var base := if splits && recvg != topRecvg then Below(stack) + [Top(stack).(pc := recvg), FRESH_ENTRY] else stack;
      var diverged' := diverged || splits;
      if diverged' && pc == recvg then (base, diverged')
      else
        var slot := Top(base).(pc := pc, mask := mask, recvg := if diverged' then recvg else topRecvg,
                               callDepth := if diverged' then 0 else Top(base).callDepth);
        (Below(base) + [slot, FRESH_ENTRY], diverged')
  }

  function Launched(startPc: Pc, mask: set<nat>): seq<Entry> {
    [Entry(startPc, 1, mask, NULL_PC, Normal)]
  }

  // ---------------------------------------------------------------- the class

  class SimtStack {
    const warpSize: nat
    var stack: seq<Entry>

    ghost predicate Valid()
      reads this
    {
      warpSize <= MAX_WARP_SIZE && WellFormed(stack, warpSize)
    }

    constructor (warpSize: nat)
      requires warpSize <= MAX_WARP_SIZE
      ensures Valid() && stack == [] && this.warpSize == warpSize
    {
      this.warpSize := warpSize;
      stack := [];
    }

    method Reset()
      modifies this
      ensures stack == []
    {
      stack := [];
    }

    method Launch(startPc: Pc, activeMask: set<nat>)
      requires warpSize <= MAX_WARP_SIZE
      requires forall i | i in activeMask :: i < warpSize
      modifies this
      ensures Valid() && stack == Launched(startPc, activeMask)
    {
      Reset();
      stack := stack + [FRESH_ENTRY.(pc := startPc, callDepth := 1, mask := activeMask, kind := Normal)];
    }

    /** The lanes and PC the warp issues next. */
    method GetTop() returns (mask: set<nat>, pc: Pc, recvg: Pc)
      requires Valid() && stack != []
      ensures mask == Top(stack).mask && pc == Top(stack).pc && recvg == Top(stack).recvg
    {
      mask, pc, recvg := stack[|stack| - 1].mask, stack[|stack| - 1].pc, stack[|stack| - 1].recvg;
    }

    /** Partition of the live lanes of the top entry by next PC. */
    method GroupByNextPc(topMask: set<nat>, threadDone: set<nat>, nextPc: seq<Pc>)
      returns (paths: map<Pc, set<nat>>)
      requires |nextPc| == warpSize
      requires forall i | i in topMask :: i < warpSize
      requires forall i | i in topMask - threadDone :: nextPc[i] != NULL_PC
      ensures paths == Groups(topMask - threadDone, nextPc)
    {
      var rest := topMask;
      ghost var live := topMask - threadDone;
      paths := map[];
      while rest != {}
        invariant rest <= topMask
        invariant forall pc | pc in paths :: pc in Paths(live, nextPc) && paths[pc] == Going(live, nextPc, pc)
        invariant forall i | i in live :: i in rest <==> nextPc[i] !in paths
        decreases |rest|
      {
        var groupPc: Pc, group: set<nat> := NULL_PC, {};
        ghost var before := rest;
        for i := warpSize downto 0
          invariant rest <= before
          invariant forall j | j in before && j < i :: j in rest
          invariant groupPc == NULL_PC ==> group == {} && forall j | j in before && i <= j ::
              j in threadDone && j !in rest
          invariant groupPc != NULL_PC ==>
              && group == (set j | j in before && i <= j && j in live && nextPc[j] == groupPc)
              && group != {}
              && forall j | j in before && i <= j :: j in rest <==> j in live && nextPc[j] != groupPc
        {
          if i in rest {
            if i in threadDone {
              rest := rest - {i};
            } else if groupPc == NULL_PC {
              groupPc := nextPc[i];
              group := group + {i};
              rest := rest - {i};
            } else if groupPc == nextPc[i] {
              group := group + {i};
              rest := rest - {i};
            }
          }
        }
        if groupPc == NULL_PC {
          Shrunk(rest, before);
          continue;
        }
        assert group == Going(live, nextPc, groupPc);
        paths := paths[groupPc := group];
        Shrunk(rest, before);
      }
    }

    method PushCall(pc: Pc, mask: set<nat>)
      modifies this
      ensures stack == old(stack) + [Entry(pc, 0, mask, NULL_PC, Call)]
    {
      stack := stack + [FRESH_ENTRY.(pc := pc, mask := mask, kind := Call)];
    }

    method PopCall(pc: Pc)
      requires Valid() && stack != [] && Top(stack).kind == Call
      modifies this
      ensures old(|stack|) > 1 && stack == Returned(Below(old(stack)), pc)
    {
      stack := stack[..|stack| - 1];
      assert |stack| > 0;
      stack := stack[|stack| - 1 := stack[|stack| - 1].(pc := pc)];
      if pc == stack[|stack| - 1].recvg && stack[|stack| - 1].kind != Call {
        assert stack[|stack| - 1].kind == Normal;
        stack := stack[..|stack| - 1];
      }
    }

    /** The fall-through group if it is still there, else the group with the least PC. */
    method NextGroup(paths: map<Pc, set<nat>>, notTaken: Pc) returns (pc: Pc, mask: set<nat>, rest: map<Pc, set<nat>>)
      requires paths != map[]
      ensures pc in paths && mask == paths[pc] && rest == paths - {pc}
      ensures pc == FirstPath(paths.Keys, notTaken)
    {
      if notTaken in paths {
        pc := notTaken;
      } else {
        pc := Least(paths.Keys);
      }
      mask := paths[pc];
      rest := paths - {pc};
    }

    /** Files one group of lanes; the last entry is the slot the next group is written to. */
    method PlaceGroup(pc: Pc, mask: set<nat>, numPaths: nat, recvgPc: Pc, topRecvg: Pc, topKind: EntryKind,
        wasDiverged: bool)
      returns (diverged: bool)
      requires stack != []
      modifies this
      ensures (stack, diverged) == Placed(old(stack), wasDiverged, numPaths, pc, mask, recvgPc, topRecvg, topKind)
    {
      diverged := wasDiverged;
      if pc == topRecvg && topKind != Call { return; }
      if numPaths > 1 && !diverged {
        diverged := true;
        if recvgPc != topRecvg {
          stack := stack[|stack| - 1 := stack[|stack| - 1].(pc := recvgPc)];
          stack := stack + [FRESH_ENTRY];
          assert stack == Below(old(stack)) + [Top(old(stack)).(pc := recvgPc), FRESH_ENTRY];
        }
      }
      if diverged && pc == recvgPc { return; }
      ghost var base := stack;
      stack := stack[|stack| - 1 := stack[|stack| - 1].(pc := pc, mask := mask)];
      if diverged {
        stack := stack[|stack| - 1 := stack[|stack| - 1].(callDepth := 0, recvg := recvgPc)];
      } else {
        stack := stack[|stack| - 1 := stack[|stack| - 1].(recvg := topRecvg)];
      }
      stack := stack + [FRESH_ENTRY];
      assert stack == Below(base) + [Top(base).(pc := pc, mask := mask, recvg := if diverged then recvgPc else topRecvg,
                                                callDepth := if diverged then 0 else Top(base).callDepth), FRESH_ENTRY];
    }

    method HandleGroups(groups: map<Pc, set<nat>>, recvgPc: Pc, op: Opcode, notTaken: Pc)
      requires Valid() && stack != [] && Manageable(stack, groups.Keys, op)
      modifies this
      ensures stack == Handled(old(stack), groups, recvgPc, op, notTaken)
    {
      hide Placed, Advanced, Diverged;
      var topRecvg, topKind := stack[|stack| - 1].recvg, stack[|stack| - 1].kind;
      var warpDiverged := false;
      var paths, numPaths := groups, |groups|;
      ghost var before, all := stack, groups.Keys;
      ghost var p := if all == {} then NULL_PC else FirstPath(all, notTaken);
      ghost var q := if all - {p} == {} then NULL_PC else Least(all - {p});
      assert numPaths == |all|;
      if all != {} && all != {p} { TwoPaths(all, p); }
      ghost var first := if all == {} then (before, false)
        else Placed(before, false, numPaths, p, groups[p], recvgPc, topRecvg, topKind);
      ghost var second := if numPaths < 2 then first
        else Placed(first.0, first.1, numPaths, q, groups[q], recvgPc, topRecvg, topKind);
      var i := 0;
      while i < numPaths
        invariant 0 <= i <= numPaths
        invariant paths.Keys == (if i == 0 then all else if i == 1 then all - {p} else {})
        invariant forall pc | pc in paths :: paths[pc] == groups[pc]
        invariant 0 < i ==> op != CallOp && !(op == RetOp && topKind == Call)
        invariant (stack, warpDiverged) == if i == 0 then (before, false) else if i == 1 then first else second
      {
        var pc, mask;
        pc, mask, paths := NextGroup(paths, notTaken);
        i := i + 1;
        if op == CallOp {
          assert numPaths == 1;
          PushCall(pc, mask);
          return;
        } else if op == RetOp && topKind == Call {
          assert numPaths == 1;
          PopCall(pc);
          return;
        }
        warpDiverged := PlaceGroup(pc, mask, numPaths, recvgPc, topRecvg, topKind, warpDiverged);
      }
      if numPaths == 1 { PlacedOne(before, p, groups[p], recvgPc); }
      if numPaths == 2 { PlacedTwo(before, recvgPc, p, groups[p], q, groups[q]); }
      assert |stack| > 0;
      stack := stack[..|stack| - 1];
    }

    method Update(threadDone: set<nat>, nextPc: seq<Pc>, recvgPc: Pc, op: Opcode, instSize: nat, instPc: Pc)
      requires Valid()
      requires stack != [] && Top(stack).pc == instPc
      requires Allowed(stack, warpSize, StepInput(threadDone, nextPc, recvgPc, op, (instPc + instSize) % 0x1_0000_0000))
      modifies this
      ensures stack == Updated(old(stack), warpSize,
                         StepInput(threadDone, nextPc, recvgPc, op, (instPc + instSize) % 0x1_0000_0000))
    {
      var paths := GroupByNextPc(stack[|stack| - 1].mask, threadDone, nextPc);
      var notTaken: Pc := (instPc + instSize) % 0x1_0000_0000;
      HandleGroups(paths, recvgPc, op, notTaken);
    }
  }

  lemma PlacedOne(stack: seq<Entry>, pc: Pc, mask: set<nat>, recvg: Pc)
    requires stack != []
    ensures Below(Placed(stack, false, 1, pc, mask, recvg, Top(stack).recvg, Top(stack).kind).0)
        == Advanced(stack, pc, mask)
  {
  }

  lemma PlacedTwo(stack: seq<Entry>, recvg: Pc, p: Pc, pMask: set<nat>, q: Pc, qMask: set<nat>)
    requires stack != [] && p != q
    requires Top(stack).kind == Call ==> Top(stack).recvg == NULL_PC
    ensures var top := Top(stack);
            var first := Placed(stack, false, 2, p, pMask, recvg, top.recvg, top.kind);
            Below(Placed(first.0, first.1, 2, q, qMask, recvg, top.recvg, top.kind).0)
                == Diverged(Below(stack), top, recvg, p, pMask, q, qMask)
  {
  }

  lemma Shrunk(s: set<nat>, t: set<nat>)
    requires s < t
    ensures |s| < |t|
  {
    assert t == s + (t - s);
  }
}
