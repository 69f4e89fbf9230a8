/** How deep the reconvergence stack of a warp can get. */
module SimtDepth {
  import opened Ordered
  import opened SimtStacks
  import opened SimtRefinement
  import opened SimtRun

  // ---------------------------------------------------------------- laminar families

  /** Each later mask lies strictly inside an earlier one or beside it. */
  ghost predicate Laminar(masks: seq<set<nat>>) {
    && (forall k | 0 <= k < |masks| :: masks[k] != {})
    && forall j, k | 0 <= j < k < |masks| :: masks[k] < masks[j] || masks[k] !! masks[j]
  }

  function Inside(masks: seq<set<nat>>, m: set<nat>): seq<set<nat>> {
    if masks == [] then []
    else (if masks[0] < m then [masks[0]] else []) + Inside(masks[1..], m)
  }

  function Outside(masks: seq<set<nat>>, m: set<nat>): seq<set<nat>> {
    if masks == [] then []
    else (if masks[0] < m then [] else [masks[0]]) + Outside(masks[1..], m)
  }

  lemma LaminarParts(masks: seq<set<nat>>)
    requires Laminar(masks) && masks != []
    ensures Laminar(masks[1..])
    ensures forall x | x in masks[1..] :: x != {} && (x < masks[0] || x !! masks[0])
  {
    assert forall k | 0 <= k < |masks[1..]| :: masks[1..][k] == masks[k + 1];
  }

  lemma LaminarCons(m: set<nat>, rest: seq<set<nat>>)
    requires m != {} && Laminar(rest) && forall x | x in rest :: x < m || x !! m
    ensures Laminar([m] + rest)
  {
    var masks := [m] + rest;
    forall j, k | 0 <= j < k < |masks|
      ensures masks[k] < masks[j] || masks[k] !! masks[j]
    {
      assert masks[k] == rest[k - 1];
      if j == 0 { assert masks[k] in rest; }
    }
  }

  lemma {:induction false} SplitLaminar(masks: seq<set<nat>>, m: set<nat>)
    requires Laminar(masks)
    ensures Laminar(Inside(masks, m)) && Laminar(Outside(masks, m))
    ensures |Inside(masks, m)| + |Outside(masks, m)| == |masks|
    ensures forall x | x in Inside(masks, m) :: x in masks && x < m
    ensures forall x | x in Outside(masks, m) :: x in masks && !(x < m)
  {
    if masks != [] {
      LaminarParts(masks);
      SplitLaminar(masks[1..], m);
      if masks[0] < m {
        LaminarCons(masks[0], Inside(masks[1..], m));
      } else {
        LaminarCons(masks[0], Outside(masks[1..], m));
      }
    }
  }

  /** A laminar family of distinct non-empty subsets of an n-element set has at most 2n - 1 members. */
  lemma {:induction false} LaminarBound(masks: seq<set<nat>>, u: set<nat>)
    requires Laminar(masks) && forall x | x in masks :: x <= u
    ensures u == {} ==> masks == []
    ensures u != {} ==> |masks| <= 2 * |u| - 1
    ensures u != {} && (forall x | x in masks :: x < u) ==> |masks| <= 2 * |u| - 2
    decreases |masks|
  {
    assert u != {} ==> |u| > 0;
    if masks != [] {
      var m, rest := masks[0], masks[1..];
      assert m in masks && m != {};
      LaminarParts(masks);
      SplitLaminar(rest, m);
      LaminarBound(Inside(rest, m), m);
      var out := Outside(rest, m);
      forall x | x in out
        ensures x != {} && x <= u - m
      {
        assert x in rest && x in masks;
      }
      assert u == m + (u - m);
      assert |u| == |m| + |u - m|;
      LaminarBound(out, u - m);
    }
  }

  // ---------------------------------------------------------------- layers

  /** No call entry lies above index `j`. */
  predicate Reach(stack: seq<Entry>, j: nat) {
    forall m | j < m < |stack| :: stack[m].kind == Normal
  }

  predicate InsideOrBeside(m: set<nat>, outer: set<nat>) {
    m < outer || m !! outer
  }

  /** The mask nests with the entries since the last call entry. */
  ghost predicate Fits(stack: seq<Entry>, mask: set<nat>) {
    forall j: nat | j < |stack| && Reach(stack, j) :: InsideOrBeside(mask, stack[j].mask)
  }

  /** Non-empty masks that nest within each layer: a call entry and the entries above it, up to the
      next call entry. */
  ghost predicate Layered(stack: seq<Entry>)
    decreases |stack|
  {
    stack != [] ==>
      && Top(stack).mask != {}
      && (Top(stack).kind == Normal ==> Fits(Below(stack), Top(stack).mask))
      && Layered(Below(stack))
  }

  lemma Push(stack: seq<Entry>, e: Entry)
    requires Layered(stack) && e.mask != {} && (e.kind == Normal ==> Fits(stack, e.mask))
    ensures Layered(stack + [e])
  {
    assert Below(stack + [e]) == stack;
  }

  lemma FitsBelow(stack: seq<Entry>, mask: set<nat>, part: set<nat>)
    requires Fits(stack, mask) && part <= mask
    ensures Fits(stack, part)
  {
    forall j: nat | j < |stack| && Reach(stack, j)
      ensures InsideOrBeside(part, stack[j].mask)
    {
      assert InsideOrBeside(mask, stack[j].mask);
    }
  }

  lemma FitsAbove(stack: seq<Entry>, e: Entry, mask: set<nat>)
    requires InsideOrBeside(mask, e.mask) && (e.kind == Normal ==> Fits(stack, mask))
    ensures Fits(stack + [e], mask)
  {
    var more := stack + [e];
    forall j: nat | j < |more| && Reach(more, j)
      ensures InsideOrBeside(mask, more[j].mask)
    {
      if j < |stack| {
        assert more[|stack|].kind == Normal;
        assert forall m | j < m < |stack| :: more[m] == stack[m];
        assert Reach(stack, j);
      }
    }
  }

  /** The top entry is replaced by one of its kind with part of its lanes. */
  lemma ReplaceSlot(stack: seq<Entry>, e: Entry)
    requires Layered(stack) && stack != [] && e.kind == Top(stack).kind && e.mask != {} && e.mask <= Top(stack).mask
    ensures Layered(Below(stack) + [e])
  {
    if e.kind == Normal { FitsBelow(Below(stack), Top(stack).mask, e.mask); }
    Push(Below(stack), e);
  }

  /** Part of an entry's lanes, on top of that entry. */
  lemma PushPart(stack: seq<Entry>, e: Entry)
    requires Layered(stack) && stack != [] && e.kind == Normal && e.mask != {} && e.mask < Top(stack).mask
    ensures Layered(stack + [e]) && Fits(stack, e.mask)
  {
    PartFits(stack, e.mask);
    Push(stack, e);
  }

  lemma PartFits(stack: seq<Entry>, mask: set<nat>)
    requires Layered(stack) && stack != [] && mask < Top(stack).mask
    ensures Fits(stack, mask)
  {
    if Top(stack).kind == Normal { FitsBelow(Below(stack), Top(stack).mask, mask); }
    assert stack == Below(stack) + [Top(stack)];
    FitsAbove(Below(stack), Top(stack), mask);
  }

  /** Another part, beside the one on top. */
  lemma PushSibling(stack: seq<Entry>, p: Entry, q: Entry)
    requires Layered(stack + [p]) && (p.kind == Normal ==> Fits(stack, q.mask))
    requires q.kind == Normal && q.mask != {} && q.mask !! p.mask
    ensures Layered(stack + [p] + [q])
  {
    FitsAbove(stack, p, q.mask);
    Push(stack + [p], q);
  }

  lemma PushIf(stack: seq<Entry>, kept: bool, e: Entry)
    requires Layered(stack) && (kept ==> Layered(stack + [e]))
    ensures Layered(stack + if kept then [e] else [])
  {
    assert stack + [] == stack;
  }

  /** Divergence below a new waiting entry. */
  lemma FreshFork(stack: seq<Entry>, recvg: Pc, p: Pc, pMask: set<nat>, q: Pc, qMask: set<nat>)
    requires Layered(stack) && stack != [] && recvg != Top(stack).recvg
    requires pMask != {} && qMask != {} && pMask !! qMask && pMask + qMask <= Top(stack).mask
    ensures Layered(Diverged(Below(stack), Top(stack), recvg, p, pMask, q, qMask))
  {
    var top := Top(stack);
    var kp, kq := Kept(top, recvg, p), Kept(top, recvg, q);
    var base := Below(stack) + [top.(pc := recvg)];
    var pEntry, qEntry := Entry(p, 0, pMask, recvg, Normal), Entry(q, 0, qMask, recvg, Normal);
    var ps := base + if kp then [pEntry] else [];
    assert Diverged(Below(stack), top, recvg, p, pMask, q, qMask) == ps + if kq then [qEntry] else [];
    assert Top(base) == top.(pc := recvg) && base + [] == base;
    hide Kept, Diverged, Layered, Fits;
    ReplaceSlot(stack, top.(pc := recvg));
    PushPart(base, pEntry);
    PushPart(base, qEntry);
    PushIf(base, kp, pEntry);
    if kp { PushSibling(base, pEntry, qEntry); }
    PushIf(ps, kq, qEntry);
  }

  /** Divergence that takes the place of the top entry. */
  lemma SharedFork(stack: seq<Entry>, p: Pc, pMask: set<nat>, q: Pc, qMask: set<nat>)
    requires Layered(stack) && stack != []
    requires pMask != {} && qMask != {} && pMask !! qMask && pMask + qMask <= Top(stack).mask
    ensures Layered(Diverged(Below(stack), Top(stack), Top(stack).recvg, p, pMask, q, qMask))
  {
    var top, below := Top(stack), Below(stack);
    var r := top.recvg;
    var kp, kq := Kept(top, r, p), Kept(top, r, q);
    var pEntry, qEntry := Entry(p, 0, pMask, r, top.kind), Entry(q, 0, qMask, r, if kp then Normal else top.kind);
    var ps := below + if kp then [pEntry] else [];
    assert Diverged(below, top, r, p, pMask, q, qMask) == ps + if kq then [qEntry] else [];
    assert below + [] == below;
    LayersBelow(stack);
    hide Kept, Diverged;
    ReplaceSlot(stack, pEntry);
    PushIf(below, kp, pEntry);
    if kp {
      if top.kind == Normal { FitsBelow(below, top.mask, qMask); }
      PushSibling(below, pEntry, qEntry);
    } else {
      ReplaceSlot(stack, qEntry);
    }
    hide Layered, Fits;
    PushIf(ps, kq, qEntry);
  }

  lemma ReturnKeepsLayers(stack: seq<Entry>, pc: Pc)
    requires Layered(stack) && |stack| > 1
    ensures Layered(Returned(Below(stack), pc))
  {
    var callers := Below(stack);
    ReplaceSlot(callers, Top(callers).(pc := pc));
  }

  /** Every step, calls and returns included, keeps the masks of each layer nested. */
  lemma StepKeepsLayers(stack: seq<Entry>, warpSize: nat, s: StepInput)
    requires Allowed(stack, warpSize, s) && Layered(stack)
    ensures Layered(Updated(stack, warpSize, s))
  {
    var live, top := Live(stack, s), Top(stack);
    var groups := Groups(live, s.nextPc);
    hide Fits, Diverged, Returned, Layered;
    LayersBelow(stack);
    if groups != map[] {
      var p := FirstPath(groups.Keys, s.notTaken);
      assert p in Paths(live, s.nextPc);
      GroupNotEmpty(live, s.nextPc, p);
      if s.op == CallOp {
        Push(stack, Entry(p, 0, groups[p], NULL_PC, Call));
      } else if s.op == RetOp && top.kind == Call {
        ReturnKeepsLayers(stack, p);
      } else if groups.Keys == {p} {
        ReplaceSlot(stack, top.(pc := p, mask := groups[p]));
      } else {
        TwoPaths(groups.Keys, p);
        var q := Least(groups.Keys - {p});
        TwoGroups(live, s.nextPc, p, q);
        if s.recvg == top.recvg {
          SharedFork(stack, p, groups[p], q, groups[q]);
        } else {
          FreshFork(stack, s.recvg, p, groups[p], q, groups[q]);
        }
      }
    }
  }

  lemma LayersBelow(stack: seq<Entry>)
    requires Layered(stack) && stack != []
    ensures Layered(Below(stack))
  {
  }

  lemma GroupNotEmpty(lanes: set<nat>, nextPc: seq<Pc>, p: Pc)
    requires forall i | i in lanes :: i < |nextPc|
    requires p in Paths(lanes, nextPc)
    ensures Going(lanes, nextPc, p) != {}
  {
    var i :| i in lanes && nextPc[i] == p;
    assert i in Going(lanes, nextPc, p);
  }

  // ---------------------------------------------------------------- the bound

  function Calls(stack: seq<Entry>): nat {
    if stack == [] then 0 else Calls(Below(stack)) + if Top(stack).kind == Call then 1 else 0
  }

  /** The start of the top layer among the first `n` entries: the last call entry, or the bottom. */
  function LayerStart(stack: seq<Entry>, n: nat): (c: nat)
    requires 0 < n <= |stack|
    ensures c < n && (forall m | c < m < n :: stack[m].kind == Normal) && (c > 0 ==> stack[c].kind == Call)
  {
    match stack[n - 1].kind
    case Normal => if n == 1 then 0 else LayerStart(stack, n - 1)
    case Call => n - 1
  }

  lemma PrefixCalls(stack: seq<Entry>, n: nat)
    requires n < |stack|
    ensures Calls(stack[..n + 1]) == Calls(stack[..n]) + if stack[n].kind == Call then 1 else 0
  {
    assert Below(stack[..n + 1]) == stack[..n] && Top(stack[..n + 1]) == stack[n];
  }

  lemma {:induction false} CallsSplit(stack: seq<Entry>, n: nat)
    requires 0 < n <= |stack|
    ensures var c := LayerStart(stack, n); c > 0 ==> Calls(stack[..n]) == Calls(stack[..c]) + 1
  {
    PrefixCalls(stack, n - 1);
    if n > 1 && stack[n - 1].kind == Normal {
      CallsSplit(stack, n - 1);
    }
  }

  lemma {:induction false} PrefixLayered(stack: seq<Entry>, n: nat)
    requires Layered(stack) && n <= |stack|
    ensures Layered(stack[..n])
  {
    if n == |stack| {
      assert stack[..n] == stack;
    } else {
      PrefixLayered(Below(stack), n);
      assert Below(stack)[..n] == stack[..n];
    }
  }

  lemma LayerAt(stack: seq<Entry>, k: nat)
    requires Layered(stack) && k < |stack|
    ensures stack[k].mask != {} && (stack[k].kind == Normal ==> Fits(stack[..k], stack[k].mask))
  {
    PrefixLayered(stack, k + 1);
    assert Below(stack[..k + 1]) == stack[..k] && Top(stack[..k + 1]) == stack[k];
  }

  lemma WithinLayer(stack: seq<Entry>, c: nat, j: nat, k: nat)
    requires Layered(stack) && c <= j < k < |stack| && forall m | c < m < |stack| :: stack[m].kind == Normal
    ensures InsideOrBeside(stack[k].mask, stack[j].mask)
  {
    LayerAt(stack, k);
    hide Layered, InsideOrBeside;
    assert forall m | 0 <= m < k :: stack[..k][m] == stack[m];
    assert Reach(stack[..k], j);
  }

  /** The masks from index `c` on. */
  function LayerMasks(stack: seq<Entry>, c: nat): (r: seq<set<nat>>)
    requires c <= |stack|
    ensures |r| == |stack| - c
  {
    if c == |stack| then [] else LayerMasks(Below(stack), c) + [Top(stack).mask]
  }

  lemma {:induction false} LayerMaskAt(stack: seq<Entry>, c: nat, k: nat)
    requires c <= |stack| && k < |stack| - c
    ensures LayerMasks(stack, c)[k] == stack[c + k].mask
  {
    if c + k < |stack| - 1 { LayerMaskAt(Below(stack), c, k); }
  }

  /** The top layer is a laminar family. */
  lemma LayerLaminar(stack: seq<Entry>, c: nat)
    requires Layered(stack) && c <= |stack| && forall m | c < m < |stack| :: stack[m].kind == Normal
    ensures Laminar(LayerMasks(stack, c))
  {
    hide Layered, LayerMasks;
    var masks := LayerMasks(stack, c);
    forall k | 0 <= k < |masks|
      ensures masks[k] != {}
    {
      LayerMaskAt(stack, c, k);
      LayerAt(stack, c + k);
    }
    forall j, k | 0 <= j < k < |masks|
      ensures masks[k] < masks[j] || masks[k] !! masks[j]
    {
      LayerMaskAt(stack, c, j);
      LayerMaskAt(stack, c, k);
      WithinLayer(stack, c, c + j, c + k);
    }
  }

  lemma LayerBound(stack: seq<Entry>, c: nat, u: set<nat>)
    requires Layered(stack) && u != {} && forall k | 0 <= k < |stack| :: stack[k].mask <= u
    requires c <= |stack| && forall m | c < m < |stack| :: stack[m].kind == Normal
    ensures |stack| <= c + (2 * |u| - 1)
  {
    hide Layered;
    LayerLaminar(stack, c);
    var masks := LayerMasks(stack, c);
    forall x | x in masks
      ensures x <= u
    {
      var k :| 0 <= k < |masks| && masks[k] == x;
      LayerMaskAt(stack, c, k);
    }
    LaminarBound(masks, u);
  }

  /** The bound for a stack with `calls` call entries of a warp with `n` lanes. */
  function Limit(calls: nat, n: nat): int {
    (calls + 1) * (2 * n - 1)
  }

  lemma OneMoreLayer(calls: nat, n: nat)
    ensures Limit(0, n) == 2 * n - 1 && Limit(calls + 1, n) == Limit(calls, n) + (2 * n - 1)
    ensures n > 0 ==> Limit(calls, n) >= 2 * n - 1
  {
  }

  lemma {:induction false} LayersBound(stack: seq<Entry>, u: set<nat>)
    requires Layered(stack) && u != {} && forall k | 0 <= k < |stack| :: stack[k].mask <= u
    ensures |stack| <= Limit(Calls(stack), |u|)
    decreases |stack|
  {
    NotEmpty(u);
    OneMoreLayer(Calls(stack), |u|);
    if stack != [] {
      var c := LayerStart(stack, |stack|);
      hide Layered, Calls, LayerStart, Limit;
      LayerBound(stack, c, u);
      CallsSplit(stack, |stack|);
      assert stack[..|stack|] == stack;
      if c > 0 {
        PrefixLayered(stack, c);
        LayersBound(stack[..c], u);
        OneMoreLayer(Calls(stack[..c]), |u|);
      }
    }
  }

  lemma NotEmpty(s: set<nat>)
    requires s != {}
    ensures |s| > 0
  {
  }

  ghost predicate Contained(launched: set<nat>, w: Warp) {
    forall k | 0 <= k < |w.stack| :: w.stack[k].mask <= launched
  }

  lemma {:induction false} RunKeepsContained(trace: Trace, launched: set<nat>, ws: seq<Warp>, events: seq<Event>,
      k: nat)
    requires IsRun(trace, launched, ws, events) && Contained(launched, ws[0]) && k < |ws|
    ensures Contained(launched, ws[k])
  {
    hide StepsTo;
    if k > 0 {
      RunKeepsContained(trace, launched, ws, events, k - 1);
      assert StepsTo(trace, launched, ws[k - 1], events[k - 1], ws[k]);
      StepContains(trace, launched, ws[k - 1], events[k - 1], ws[k]);
    }
  }

  lemma StepContains(trace: Trace, launched: set<nat>, w: Warp, e: Event, w': Warp)
    requires StepsTo(trace, launched, w, e, w') && Contained(launched, w)
    ensures Contained(launched, w')
  {
    hide Updated;
    MasksShrink(w.stack, |w.steps|, Report(trace, launched, w, e), launched);
  }

  lemma StepLayers(trace: Trace, launched: set<nat>, w: Warp, e: Event, w': Warp)
    requires StepsTo(trace, launched, w, e, w') && Layered(w.stack)
    ensures Layered(w'.stack)
  {
    hide Layered, Updated;
    StepKeepsLayers(w.stack, |w.steps|, Report(trace, launched, w, e));
  }

  lemma {:induction false} RunKeepsLayers(
      trace: Trace, launched: set<nat>, ws: seq<Warp>, events: seq<Event>, k: nat)
    requires IsRun(trace, launched, ws, events) && Layered(ws[0].stack) && k < |ws|
    ensures Layered(ws[k].stack)
  {
    hide Layered, StepsTo;
    if k > 0 {
      RunKeepsLayers(trace, launched, ws, events, k - 1);
      assert StepsTo(trace, launched, ws[k - 1], events[k - 1], ws[k]);
      StepLayers(trace, launched, ws[k - 1], events[k - 1], ws[k]);
    }
  }

  lemma StartLayered(trace: Trace, warpSize: nat, startPc: Pc, launched: set<nat>, w: Warp)
    requires Begins(trace, warpSize, startPc, launched, w) && launched != {}
    ensures Layered(w.stack) && Contained(launched, w) && Calls(w.stack) == 0
  {
    assert Below(w.stack) == [];
  }

  /** On every run, with calls or without: each call entry adds at most 2 * |launched| - 1 entries to
      the bound, so a warp inside c calls has at most (c + 1) * (2 * warpSize - 1) entries. */
  lemma DepthWithCalls(
      trace: Trace, warpSize: nat, startPc: Pc, launched: set<nat>, ws: seq<Warp>, events: seq<Event>, k: nat)
    requires IsRun(trace, launched, ws, events) && Begins(trace, warpSize, startPc, launched, ws[0]) && k < |ws|
    requires launched != {}
    ensures Layered(ws[k].stack)
    ensures |ws[k].stack| <= Limit(Calls(ws[k].stack), |launched|) && |launched| <= warpSize
  {
    StartLayered(trace, warpSize, startPc, launched, ws[0]);
    RunKeepsLayers(trace, launched, ws, events, k);
    RunKeepsContained(trace, launched, ws, events, k);
    LanesBound(launched, warpSize);
    hide StepsTo, Layered;
    LayersBound(ws[k].stack, launched);
  }

  // ---------------------------------------------------------------- runs without calls

  /** No call entry, and masks that nest. */
  ghost predicate Nested(stack: seq<Entry>) {
    && (forall k | 0 <= k < |stack| :: stack[k].kind == Normal && stack[k].mask != {})
    && forall j, k | 0 <= j < k < |stack| :: stack[k].mask < stack[j].mask || stack[k].mask !! stack[j].mask
  }

  /** Without call entries there is one layer. */
  lemma {:induction false} NestedIsLayered(stack: seq<Entry>)
    ensures Nested(stack) <==> Layered(stack) && Calls(stack) == 0
  {
    if stack != [] {
      var below, n := Below(stack), |stack| - 1;
      NestedIsLayered(below);
      if Nested(stack) {
        assert Fits(below, Top(stack).mask);
      }
      if Layered(stack) && Calls(stack) == 0 {
        forall j: nat | j < n
          ensures Top(stack).mask < stack[j].mask || Top(stack).mask !! stack[j].mask
        {
          assert Reach(below, j) && InsideOrBeside(Top(stack).mask, below[j].mask);
        }
      }
    }
  }

  lemma {:induction false} NoCalls(stack: seq<Entry>)
    ensures Calls(stack) == 0 <==> forall k | 0 <= k < |stack| :: stack[k].kind == Normal
  {
    if stack != [] {
      NoCalls(Below(stack));
      assert forall k | 0 <= k < |stack| - 1 :: stack[k] == Below(stack)[k];
    }
  }

  lemma StepAddsNoCall(stack: seq<Entry>, warpSize: nat, s: StepInput)
    requires Allowed(stack, warpSize, s) && s.op != CallOp && forall k | 0 <= k < |stack| :: stack[k].kind == Normal
    ensures var after := Updated(stack, warpSize, s); forall k | 0 <= k < |after| :: after[k].kind == Normal
  {
    assert Top(stack).kind == Normal;
  }

  /** Without calls, one step keeps the masks a laminar family of distinct non-empty sets. */
  lemma StepKeepsNested(stack: seq<Entry>, warpSize: nat, s: StepInput)
    requires Allowed(stack, warpSize, s) && Nested(stack) && s.op != CallOp
    ensures Nested(Updated(stack, warpSize, s))
  {
    NestedIsLayered(stack);
    NoCalls(stack);
    StepKeepsLayers(stack, warpSize, s);
    StepAddsNoCall(stack, warpSize, s);
    hide Nested, Layered, Updated;
    NoCalls(Updated(stack, warpSize, s));
    NestedIsLayered(Updated(stack, warpSize, s));
  }

  lemma StepNests(trace: Trace, launched: set<nat>, w: Warp, e: Event, w': Warp)
    requires StepsTo(trace, launched, w, e, w') && Nested(w.stack) && e.op != CallOp
    ensures Nested(w'.stack)
  {
    hide Nested, Updated;
    StepKeepsNested(w.stack, |w.steps|, Report(trace, launched, w, e));
  }

  lemma {:induction false} RunKeepsNested(
      trace: Trace, launched: set<nat>, ws: seq<Warp>, events: seq<Event>, k: nat)
    requires IsRun(trace, launched, ws, events) && Nested(ws[0].stack) && k < |ws|
    requires forall e | e in events :: e.op != CallOp
    ensures Nested(ws[k].stack)
  {
    hide Nested, StepsTo;
    if k > 0 {
      RunKeepsNested(trace, launched, ws, events, k - 1);
      assert StepsTo(trace, launched, ws[k - 1], events[k - 1], ws[k]);
      StepNests(trace, launched, ws[k - 1], events[k - 1], ws[k]);
    }
  }

  /** The stack of a warp that makes no call never holds more than 2 * warpSize - 1 entries. */
  lemma DepthBound(
      trace: Trace, warpSize: nat, startPc: Pc, launched: set<nat>, ws: seq<Warp>, events: seq<Event>, k: nat)
    requires IsRun(trace, launched, ws, events) && Begins(trace, warpSize, startPc, launched, ws[0]) && k < |ws|
    requires launched != {} && forall e | e in events :: e.op != CallOp
    ensures Nested(ws[k].stack) && |ws[k].stack| <= 2 * |launched| - 1 <= 2 * warpSize - 1
  {
    StartLayered(trace, warpSize, startPc, launched, ws[0]);
    hide StepsTo, Layered, Nested, Begins, Limit, Calls;
    NestedIsLayered(ws[0].stack);
    RunKeepsNested(trace, launched, ws, events, k);
    DepthWithCalls(trace, warpSize, startPc, launched, ws, events, k);
    NestedIsLayered(ws[k].stack);
    OneMoreLayer(0, |launched|);
  }

  lemma {:induction false} LanesBound(lanes: set<nat>, n: nat)
    requires forall i | i in lanes :: i < n
    ensures |lanes| <= n
    decreases n
  {
    if n > 0 {
      LanesBound(lanes - {n - 1}, n - 1);
    } else {
      assert lanes == {};
    }
  }
}
