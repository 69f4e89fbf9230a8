/** `function_info::ptx_assemble`: instruction layout and branch labels. */
module Assembler {
  import opened Layout

  /** The state that all functions share: `g_assemble_code_next_pc` and `s_g_pc_to_insn`. */
  class Loader {
    var nextPc: nat
    var pcToInsn: seq<Slot>

    constructor ()
      ensures View() == START
    {
      nextPc := 0;
      pcToInsn := [];
    }

    ghost function View(): Image
      reads this
    {
      Image(nextPc, pcToInsn)
    }
  }

  /** The offset recorded for a label: that of its last definition so far. */
  ghost predicate LabelsRecorded(insns: seq<Insn>, labels: map<string, nat>, n: nat)
    requires n <= |insns|
  {
    forall name ::
      && (name in labels <==> LastLabel(insns, name, n) >= 0)
      && (name in labels ==> labels[name] == Offset(insns, LastLabel(insns, name, n)))
  }

  /** Each branch among the first `n` instructions has the address of the instruction it resolves to. */
  ghost predicate BranchesResolved(insns: seq<Insn>, labelAddress: map<string, nat>, startPc: nat, n: nat)
    requires n <= |insns|
  {
    forall i | 0 <= i < n && insns[i].Code? && insns[i].target.Branch? ::
      var name := insns[i].target.to;
      && name in labelAddress && Resolve(insns, name).To?
      && labelAddress[name] == startPc + Offset(insns, Resolve(insns, name).k)
  }

  /** The first `k` instructions are in the shared table and in the function's own buffer. */
  ghost predicate SlotsPlaced(fn: nat, insns: seq<Insn>, before: Image, table: seq<Slot>, mem: seq<Slot>, k: nat)
    requires k <= |insns| && Sized(insns)
  {
    && Offset(insns, k) <= |mem|
    && table == before.slots + Empties(before.nextPc % MAX_INST_SIZE) + Slots(fn, insns, k)
    && mem[..Offset(insns, k)] == Slots(fn, insns, k)
  }

  ghost predicate PcsRecorded(insns: seq<Insn>, pcs: map<nat, nat>, startPc: nat, k: nat)
    requires k <= |insns|
  {
    forall i | 0 <= i < k && insns[i].Code? :: i in pcs && pcs[i] == startPc + Offset(insns, i)
  }

  lemma CodePlaced(fn: nat, insns: seq<Insn>, before: Image, table: seq<Slot>, mem: seq<Slot>, k: nat,
      table': seq<Slot>, mem': seq<Slot>)
    requires k < |insns| && Sized(insns) && insns[k].Code? && insns[k].size > 0
        && SlotsPlaced(fn, insns, before, table, mem, k)
    requires var added := [Starts(fn, k)] + Empties(insns[k].size - 1);
             table' == table + added && |mem'| == |mem| && Offset(insns, k + 1) <= |mem|
                 && mem'[..Offset(insns, k + 1)] == mem[..Offset(insns, k)] + added
    ensures SlotsPlaced(fn, insns, before, table', mem', k + 1)
  {
  }

  lemma LabelPlaced(fn: nat, insns: seq<Insn>, before: Image, table: seq<Slot>, mem: seq<Slot>, k: nat)
    requires k < |insns| && Sized(insns) && insns[k].Label? && SlotsPlaced(fn, insns, before, table, mem, k)
    ensures SlotsPlaced(fn, insns, before, table, mem, k + 1)
  {
  }

  lemma CodeIsNoLabel(insns: seq<Insn>, labels: map<string, nat>, k: nat)
    requires k < |insns| && insns[k].Code? && LabelsRecorded(insns, labels, k)
    ensures LabelsRecorded(insns, labels, k + 1)
  {
  }

  class FunctionInfo {
    const fn: nat
    const instructions: seq<Insn>
    var assembled: bool
    var startPc: nat
    var instrMem: array<Slot>
    var labels: map<string, nat>
    /** `set_PC` of each instruction */
    var pcs: map<nat, nat>
    /** the addresses that `set_label_address` enters in the symbol table */
    var labelAddress: map<string, nat>

    constructor (fn: nat, instructions: seq<Insn>)
      ensures this.fn == fn && this.instructions == instructions && !assembled
    {
      this.fn, this.instructions, assembled, startPc := fn, instructions, false, 0;
      instrMem := new Slot[0];
      labels, pcs, labelAddress := map[], map[], map[];
    }

    /** The first loop has handled `k` instructions. */
    ghost predicate LaidOut(before: Image, view: Image, k: nat)
      requires k <= |instructions| && Sized(instructions)
      reads `instrMem, `labels, `pcs, `startPc, instrMem
    {
      && instrMem.Length == MAX_INST_SIZE * (|instructions| + 1)
      && startPc == StartPc(before.nextPc)
      && SlotsPlaced(fn, instructions, before, view.slots, instrMem[..], k)
      && LabelsRecorded(instructions, labels, k)
      && PcsRecorded(instructions, pcs, startPc, k)
    }

    /** Enters instruction `k` at offset `n`, with empty slots for its other bytes. */
    method PutCode(ld: Loader, k: nat, n: nat, size: nat)
      requires size > 0 && n + size <= instrMem.Length
      modifies instrMem, ld`pcToInsn
      ensures ld.pcToInsn == old(ld.pcToInsn) + ([Starts(fn, k)] + Empties(size - 1))
      ensures instrMem[..n + size] == old(instrMem[..n]) + ([Starts(fn, k)] + Empties(size - 1))
    {
      instrMem[n] := Starts(fn, k);
      ld.pcToInsn := ld.pcToInsn + [Starts(fn, k)];
      for i := 1 to size
        invariant ld.pcToInsn == old(ld.pcToInsn) + ([Starts(fn, k)] + Empties(i - 1))
        invariant instrMem[..n + i] == old(instrMem[..n]) + ([Starts(fn, k)] + Empties(i - 1))
      {
        ld.pcToInsn := ld.pcToInsn + [Empty];
        instrMem[n + i] := Empty;
        assert Empties(i) == Empties(i - 1) + [Empty];
      }
    }

    /** The padding loop. */
    method PadStart(ld: Loader)
      modifies ld`pcToInsn
      ensures ld.pcToInsn == old(ld.pcToInsn) + Empties(ld.nextPc % MAX_INST_SIZE)
    {
      for i := 0 to ld.nextPc % MAX_INST_SIZE
        invariant ld.pcToInsn == old(ld.pcToInsn) + Empties(i)
      {
        ld.pcToInsn := ld.pcToInsn + [Empty];
      }
    }

    /** One instruction of the first loop. */
    method PutInstruction(ld: Loader, k: nat, n: nat, pc: nat, ghost before: Image) returns (n': nat, pc': nat)
      requires Sized(instructions) && k < |instructions| && LaidOut(before, ld.View(), k)
      requires n == Offset(instructions, k) && pc == startPc + n
      modifies this`labels, this`pcs, instrMem, ld`pcToInsn
      ensures LaidOut(before, ld.View(), k + 1)
      ensures n' == Offset(instructions, k + 1) && pc' == startPc + n'
    {
      hide SlotsPlaced, LabelsRecorded, StartPc;
      OffsetFits(instructions, k + 1);
      n', pc' := n, pc;
      ghost var mem := instrMem[..];
      if instructions[k].Label? {
        labels := labels[instructions[k].name := n];
        LabelRecorded(instructions, old(labels), k);
        LabelPlaced(fn, instructions, before, ld.pcToInsn, mem, k);
      } else {
        var size := instructions[k].size;
        assert instructions[k] in instructions;
        assert mem[..n] == instrMem[..n];
        PutCode(ld, k, n, size);
        assert instrMem[..][..n + size] == instrMem[..n + size];
        CodePlaced(fn, instructions, before, old(ld.pcToInsn), mem, k, ld.pcToInsn, instrMem[..]);
        CodeIsNoLabel(instructions, labels, k);
        pcs := pcs[k := pc];
        n', pc' := n + size, pc + size;
      }
    }

    ghost predicate AllPlaced(before: Image, view: Image)
      requires Sized(instructions)
      reads `instrMem, `labels, `pcs, `startPc, instrMem
    {
      LaidOut(before, view, |instructions|)
    }

    /** Every instruction is in the buffer at its offset and has its PC. */
    lemma CodeFound(before: Image, view: Image, k: nat)
      requires Sized(instructions) && AllPlaced(before, view) && k < |instructions| && instructions[k].Code?
      ensures Offset(instructions, k) < instrMem.Length && instrMem[Offset(instructions, k)] == Starts(fn, k)
      ensures k in pcs && pcs[k] == startPc + Offset(instructions, k)
    {
      CodeInside(instructions, k);
      SlotAt(fn, instructions, |instructions|, Offset(instructions, k), k);
      assert instrMem[..][Offset(instructions, k)] == instrMem[Offset(instructions, k)];
    }

    /** The recorded offset of a label decides how it resolves. */
    lemma LabelFound(before: Image, view: Image, name: string)
      requires Sized(instructions) && AllPlaced(before, view)
      ensures name !in labels <==> Resolve(instructions, name).Missing?
      ensures name in labels ==>
                var r, end := Resolve(instructions, name), Offset(instructions, |instructions|);
                if r.To? then labels[name] == Offset(instructions, r.k) && labels[name] != end else labels[name] == end
    {
      var d := LastLabel(instructions, name, |instructions|);
      if d >= 0 {
        TargetOffset(instructions, d);
      }
    }

    /** The body of the second loop for the instruction at position `j`. */
    method ResolveOne(j: nat, n: nat, ghost before: Image, ghost view: Image) returns (outcome: Outcome)
      requires Sized(instructions) && j < |instructions| && n == Offset(instructions, |instructions|)
          && AllPlaced(before, view)
      modifies this`labelAddress
      ensures outcome == Check(instructions, instructions[j])
      ensures labelAddress == if outcome.Done? then WithBranch(instructions, old(labelAddress), startPc, j)
          else old(labelAddress)
    {
      hide AllPlaced, Resolve, Offset;
      outcome := Done;
      var insn := instructions[j];
      if insn.Code? && insn.target.Branch? {
        var name := insn.target.to;
        LabelFound(before, view, name);
        if name !in labels {
          return MissingLabel(name);
        }
        var index := labels[name];
        if index == n {
          return TrailingLabel(name); // the source reads m_instr_mem past the code here
        }
        CodeFound(before, view, Resolve(instructions, name).k);
        labelAddress := labelAddress[name := pcs[instrMem[index].k]];
      }
    }

    /** The second loop. */
    method ResolveBranches(n: nat, ghost before: Image, ghost view: Image) returns (outcome: Outcome)
      requires Sized(instructions) && n == Offset(instructions, |instructions|) && AllPlaced(before, view)
      modifies this`labelAddress
      ensures outcome == Checked(instructions, |instructions|)
      ensures outcome.Done? ==> BranchesResolved(instructions, labelAddress, startPc, |instructions|)
    {
      hide AllPlaced, BranchesResolved, Check;
      assert BranchesResolved(instructions, labelAddress, startPc, 0) by {
        NoBranches(instructions, labelAddress, startPc);
      }
      var ii := 0;
      ghost var k := 0;
      while ii < n
        invariant k <= |instructions| && ii == Offset(instructions, k)
        invariant Checked(instructions, k).Done? && BranchesResolved(instructions, labelAddress, startPc, k)
        invariant AllPlaced(before, view)
        decreases |instructions| - k
      {
        k := SkipLabels(instructions, labelAddress, startPc, k);
        CodeFound(before, view, k);
        var pI := instrMem[ii].k;
        BranchAdded(instructions, labelAddress, startPc, k);
        outcome := ResolveOne(pI, n, before, view);
        if !outcome.Done? {
          FailurePersists(instructions, k + 1, |instructions|);
          return;
        }
        k := k + 1;
        ii := ii + instructions[pI].size;
      }
      k := SkipLabels(instructions, labelAddress, startPc, k);
      outcome := Done;
    }

    /** The padding and the first loop. */
    method LayOut(ld: Loader) returns (n: nat, pc: nat)
      requires Sized(instructions)
      modifies this, ld`pcToInsn
      ensures LaidOut(old(ld.View()), ld.View(), |instructions|) && assembled == old(assembled)
      ensures n == Offset(instructions, |instructions|) && pc == StartPc(old(ld.nextPc)) + n
      ensures fresh(instrMem)
    {
      hide LaidOut, StartPc, Offset;
      ghost var before := ld.View();
      instrMem := new Slot[MAX_INST_SIZE * (|instructions| + 1)];
      PadStart(ld);
      pc := AlignedPc(ld.nextPc);
      startPc := pc;
      labels, pcs := map[], map[];
      n := 0;
      NothingPlaced(before, ld.View());
      for k := 0 to |instructions|
        invariant LaidOut(before, ld.View(), k)
        invariant n == Offset(instructions, k) && pc == startPc + n && startPc == StartPc(before.nextPc)
        invariant fresh(instrMem) && assembled == old(assembled)
      {
        n, pc := PutInstruction(ld, k, n, pc, before);
      }
    }

    /** ptx_assemble, up to the control-flow analysis. */
    method Assemble(ld: Loader) returns (outcome: Outcome)
      requires Sized(instructions)
      modifies this, ld
      ensures old(assembled) ==> outcome.Done? && unchanged(this) && unchanged(ld)
      ensures !old(assembled) ==>
                && ld.View() == Assembled(old(ld.View()), fn, instructions)
                && AllPlaced(old(ld.View()), ld.View())
                && outcome == Checked(instructions, |instructions|)
                && assembled == outcome.Done?
                && (outcome.Done? ==> BranchesResolved(instructions, labelAddress, startPc, |instructions|))
    {
      if assembled {
        return Done;
      }
      hide BranchesResolved, LaidOut, Checked, StartPc, Offset;
      ghost var before := ld.View();
      var n, pc := LayOut(ld);
      TableComplete(before, ld.View());
      hide Assembled;
      ld.nextPc := pc;
      TableOnly(before, Image(before.nextPc, ld.pcToInsn), ld.View());
      labelAddress := map[];
      outcome := ResolveBranches(n, before, ld.View());
      if outcome.Done? {
        assembled := true;
      }
    }

    lemma TableOnly(before: Image, view: Image, view': Image)
      requires Sized(instructions) && LaidOut(before, view, |instructions|) && view.slots == view'.slots
      ensures LaidOut(before, view', |instructions|)
    {
    }

    lemma NothingPlaced(before: Image, view: Image)
      requires Sized(instructions) && instrMem.Length == MAX_INST_SIZE * (|instructions| + 1)
          && startPc == StartPc(before.nextPc)
      requires view.slots == before.slots + Empties(before.nextPc % MAX_INST_SIZE) && labels == map[] && pcs == map[]
      ensures LaidOut(before, view, 0) && Offset(instructions, 0) == 0
    {
    }

    lemma TableComplete(before: Image, view: Image)
      requires Sized(instructions) && LaidOut(before, view, |instructions|)
      ensures view.slots == Assembled(before, fn, instructions).slots
      ensures Assembled(before, fn, instructions).nextPc
          == StartPc(before.nextPc) + Offset(instructions, |instructions|)
    {
    }
  }

  lemma NoBranches(insns: seq<Insn>, labelAddress: map<string, nat>, startPc: nat)
    ensures BranchesResolved(insns, labelAddress, startPc, 0)
  {
  }

  function WithBranch(insns: seq<Insn>, labelAddress: map<string, nat>, startPc: nat, j: nat): map<string, nat>
    requires j < |insns| && Check(insns, insns[j]).Done?
  {
    if insns[j].Code? && insns[j].target.Branch?
    then labelAddress[insns[j].target.to := startPc + Offset(insns, Resolve(insns, insns[j].target.to).k)]
    else labelAddress
  }

  lemma BranchAdded(insns: seq<Insn>, labelAddress: map<string, nat>, startPc: nat, k: nat)
    requires k < |insns| && BranchesResolved(insns, labelAddress, startPc, k)
    ensures Check(insns, insns[k]).Done?
        ==> BranchesResolved(insns, WithBranch(insns, labelAddress, startPc, k), startPc, k + 1)
  {
    hide Resolve, Offset;
  }

  /** A label's offset is that of the instruction after it, or the end. */
  lemma TargetOffset(insns: seq<Insn>, d: int)
    requires Sized(insns) && 0 <= d <= |insns|
    ensures var k := NextCode(insns, d);
            Offset(insns, d) == Offset(insns, k) && (k < |insns| <==> Offset(insns, d) < Offset(insns, |insns|))
            && Offset(insns, d) <= Offset(insns, |insns|)
  {
    var k := NextCode(insns, d);
    LabelsTakeNoRoom(insns, d, k);
    OffsetMonotone(insns, k, |insns|);
    if k < |insns| { CodeInside(insns, k); }
  }

  /** Labels have nothing to resolve. */
  lemma SkipLabels(insns: seq<Insn>, labelAddress: map<string, nat>, startPc: nat, k: nat) returns (k': nat)
    requires Sized(insns) && k <= |insns| && Checked(insns, k).Done?
        && BranchesResolved(insns, labelAddress, startPc, k)
    ensures k' == NextCode(insns, k) && Offset(insns, k') == Offset(insns, k)
        && (k' < |insns| <==> Offset(insns, k) < Offset(insns, |insns|))
    ensures Checked(insns, k').Done? && BranchesResolved(insns, labelAddress, startPc, k')
  {
    k' := NextCode(insns, k);
    TargetOffset(insns, k);
    NothingToCheck(insns, k, k');
  }

  lemma {:induction false} NothingToCheck(insns: seq<Insn>, k: nat, n: nat)
    requires k <= n <= |insns| && Checked(insns, k).Done? && forall i | k <= i < n :: insns[i].Label?
    ensures Checked(insns, n).Done?
  {
    if k < n { NothingToCheck(insns, k, n - 1); }
  }

  lemma {:induction false} FailurePersists(insns: seq<Insn>, k: nat, n: nat)
    requires k <= n <= |insns| && !Checked(insns, k).Done?
    ensures Checked(insns, n) == Checked(insns, k)
  {
    if k < n { FailurePersists(insns, k, n - 1); }
  }

  method AlignedPc(pc: nat) returns (r: nat)
    ensures r == StartPc(pc)
  {
    r := pc + pc % MAX_INST_SIZE;
  }

  lemma LabelRecorded(insns: seq<Insn>, labels: map<string, nat>, k: nat)
    requires k < |insns| && insns[k].Label? && LabelsRecorded(insns, labels, k)
    ensures LabelsRecorded(insns, labels[insns[k].name := Offset(insns, k)], k + 1)
  {
  }
}
