/** Where the assembler puts instructions: specification and laws. */
module Layout {

  /** Instructions that name a label: BRA, BREAKADDR and CALLP. */
  datatype Target = NoTarget | Branch(to: string)

  datatype Insn = Label(name: string) | Code(size: nat, target: Target)

  /** One byte address of instruction memory: instruction `k` of function `fn` starts here, or none does. */
  datatype Slot = Empty | Starts(fn: nat, k: nat)

  const MAX_INST_SIZE := 8

  /** The decoder gives an instruction 4 or 8 bytes. */
  predicate Sized(insns: seq<Insn>) {
    forall i | i in insns && i.Code? :: i.size == 4 || i.size == 8
  }

  function Width(i: Insn): nat {
    if i.Code? then i.size else 0
  }

  /** The offset of instruction `k`, or of the end. */
  function Offset(insns: seq<Insn>, k: nat): nat
    requires k <= |insns|
  {
    if k == 0 then 0 else Offset(insns, k - 1) + Width(insns[k - 1])
  }

  function Empties(n: nat): (r: seq<Slot>)
    ensures |r| == n && forall i | 0 <= i < n :: r[i] == Empty
  {
    seq(n, i => Empty)
  }

  /** The slots of the first `k` instructions. */
  function Slots(fn: nat, insns: seq<Insn>, k: nat): (r: seq<Slot>)
    requires k <= |insns| && Sized(insns)
    ensures |r| == Offset(insns, k)
  {
    if k == 0 then []
    else
      Slots(fn, insns, k - 1)
      + if insns[k - 1].Code? then [Starts(fn, k - 1)] + Empties(insns[k - 1].size - 1) else []
  }

  lemma {:induction false} OffsetMonotone(insns: seq<Insn>, i: nat, k: nat)
    requires i <= k <= |insns|
    ensures Offset(insns, i) <= Offset(insns, k)
  {
    if i < k { OffsetMonotone(insns, i, k - 1); }
  }

  /** The instruction buffer of 8 * (number of instructions + 1) entries is never overrun. */
  lemma {:induction false} OffsetFits(insns: seq<Insn>, k: nat)
    requires k <= |insns| && Sized(insns)
    ensures Offset(insns, k) <= MAX_INST_SIZE * k && Offset(insns, k) % 4 == 0
  {
    if k > 0 { OffsetFits(insns, k - 1); }
  }

  /** A slot of the layout names instruction k exactly if it is at the offset of k. */
  lemma {:induction false} SlotAt(fn: nat, insns: seq<Insn>, n: nat, pos: nat, k: nat)
    requires n <= |insns| && Sized(insns) && pos < Offset(insns, n)
    ensures Slots(fn, insns, n)[pos] == Starts(fn, k) <==> k < n && insns[k].Code? && pos == Offset(insns, k)
    ensures Slots(fn, insns, n)[pos].Starts? ==> Slots(fn, insns, n)[pos].fn == fn
  {
    var m := n - 1;
    if k < n { OffsetMonotone(insns, k, m); }
    if k + 1 <= m { OffsetMonotone(insns, k + 1, m); }
    if pos < Offset(insns, m) {
      SlotAt(fn, insns, m, pos, k);
    }
  }

  // ---------------------------------------------------------------- labels

  /** The position of the last definition of a label among the first `n` instructions, or -1. */
  function LastLabel(insns: seq<Insn>, name: string, n: nat): (r: int)
    requires n <= |insns|
    ensures -1 <= r < n && (r >= 0 ==> insns[r] == Label(name))
    ensures forall i | r < i < n :: insns[i] != Label(name)
  {
    if n == 0 then -1 else if insns[n - 1] == Label(name) then n - 1 else LastLabel(insns, name, n - 1)
  }

  /** The first instruction at or after position `k`, or the end. */
  function NextCode(insns: seq<Insn>, k: nat): (r: nat)
    requires k <= |insns|
    ensures k <= r <= |insns| && (forall i | k <= i < r :: insns[i].Label?) && (r < |insns| ==> insns[r].Code?)
    decreases |insns| - k
  {
    if k == |insns| || insns[k].Code? then k else NextCode(insns, k + 1)
  }

  lemma {:induction false} LabelsTakeNoRoom(insns: seq<Insn>, k: nat, n: nat)
    requires k <= n <= |insns| && forall i | k <= i < n :: insns[i].Label?
    ensures Offset(insns, k) == Offset(insns, n)
  {
    if k < n { LabelsTakeNoRoom(insns, k, n - 1); }
  }

  /** What a branch to `name` resolves to: the first instruction after the label's last definition. */
  datatype Resolution = To(k: nat) | Missing | Trailing

  function Resolve(insns: seq<Insn>, name: string): (r: Resolution)
    ensures r.To? ==> r.k < |insns| && insns[r.k].Code?
  {
    var d := LastLabel(insns, name, |insns|);
    if d < 0 then Missing
    else
      var k := NextCode(insns, d);
      if k < |insns| then To(k) else Trailing
  }

  /** What assembling a function reports: a missing label aborts the program, and a label with no
      instruction behind it makes it read past the code. */
  datatype Outcome = Done | MissingLabel(name: string) | TrailingLabel(name: string)

  function Check(insns: seq<Insn>, i: Insn): Outcome {
    if i.Code? && i.target.Branch? then
      match Resolve(insns, i.target.to)
      case To(_) => Done
      case Missing => MissingLabel(i.target.to)
      case Trailing => TrailingLabel(i.target.to)
    else Done
  }

  /** The first problem among the first `n` instructions. */
  function Checked(insns: seq<Insn>, n: nat): Outcome
    requires n <= |insns|
  {
    if n == 0 then Done
    else
      var before := Checked(insns, n - 1);
      if before.Done? then Check(insns, insns[n - 1]) else before
  }

  /** A function assembles exactly if the last definition of every label it branches to is followed
      by an instruction. */
  lemma {:induction false} AssemblesExactly(insns: seq<Insn>, n: nat)
    requires n <= |insns|
    ensures Checked(insns, n).Done?
        <==> forall i | 0 <= i < n && insns[i].Code? && insns[i].target.Branch? :: Reaches(insns, insns[i].target.to)
  {
    hide Resolve, Reaches;
    if n > 0 {
      AssemblesExactly(insns, n - 1);
      if insns[n - 1].Code? && insns[n - 1].target.Branch? {
        ResolvesExactly(insns, insns[n - 1].target.to);
      }
    }
  }

  /** What is reported is the first branch that does not resolve, and why: no definition of its label,
      or no instruction behind the last one. */
  lemma {:induction false} FirstProblem(insns: seq<Insn>, n: nat) returns (i: nat)
    requires n <= |insns| && !Checked(insns, n).Done?
    ensures i < n && insns[i].Code? && insns[i].target.Branch? && !Reaches(insns, insns[i].target.to)
    ensures forall j | 0 <= j < i && insns[j].Code? && insns[j].target.Branch? :: Reaches(insns, insns[j].target.to)
    ensures var name := insns[i].target.to;
            Checked(insns, n) == if Label(name) in insns then TrailingLabel(name) else MissingLabel(name)
  {
    hide Reaches;
    if Checked(insns, n - 1).Done? {
      i := n - 1;
      AssemblesExactly(insns, n - 1);
      ResolvesExactly(insns, insns[i].target.to);
      MissingExactly(insns, insns[i].target.to);
    } else {
      i := FirstProblem(insns, n - 1);
    }
  }

  lemma MissingExactly(insns: seq<Insn>, name: string)
    ensures Resolve(insns, name).Missing? <==> Label(name) !in insns
  {
    var d := LastLabel(insns, name, |insns|);
    if d >= 0 { assert insns[d] in insns; }
  }

  predicate Reaches(insns: seq<Insn>, name: string) {
    exists d, k | 0 <= d < k < |insns| :: insns[d] == Label(name) && insns[k].Code? && forall i | d < i < |insns| ::
        insns[i] != Label(name)
  }

  lemma ResolvesExactly(insns: seq<Insn>, name: string)
    ensures Resolve(insns, name).To? <==> Reaches(insns, name)
  {
    var d := LastLabel(insns, name, |insns|);
    if Resolve(insns, name).To? {
      var k := NextCode(insns, d);
      assert insns[d] == Label(name) && insns[k].Code?;
    }
  }

  // ---------------------------------------------------------------- a sequence of functions

  /** `g_assemble_code_next_pc` and `s_g_pc_to_insn`. */
  datatype Image = Image(nextPc: nat, slots: seq<Slot>)

  const START := Image(0, [])

  function StartPc(pc: nat): nat {
    pc + pc % MAX_INST_SIZE
  }

  function Assembled(im: Image, fn: nat, insns: seq<Insn>): Image
    requires Sized(insns)
  {
    Image(StartPc(im.nextPc) + Offset(insns, |insns|),
          im.slots + Empties(im.nextPc % MAX_INST_SIZE) + Slots(fn, insns, |insns|))
  }

  /** The image after the first `n` functions; function numbers are positions. */
  function AfterFunctions(fs: seq<seq<Insn>>, n: nat): Image
    requires n <= |fs| && forall f | f in fs :: Sized(f)
  {
    if n == 0 then START else Assembled(AfterFunctions(fs, n - 1), n - 1, fs[n - 1])
  }

  /** The address of an instruction. */
  function PcOf(fs: seq<seq<Insn>>, f: nat, k: nat): nat
    requires f < |fs| && k <= |fs[f]| && forall g | g in fs :: Sized(g)
  {
    StartPc(AfterFunctions(fs, f).nextPc) + Offset(fs[f], k)
  }

  /** The padding aligns a start address exactly if it is a multiple of 4: the code adds the
      remainder where alignment needs its complement. */
  lemma AlignedExactly(pc: nat)
    ensures StartPc(pc) % MAX_INST_SIZE == 0 <==> pc % MAX_INST_SIZE == 0 || pc % MAX_INST_SIZE == 4
  {
    var q, r := pc / 8, pc % 8;
    assert StartPc(pc) == 8 * q + 2 * r;
  }

  lemma OverEight(n: nat, q: nat, r: nat)
    requires n == 8 * q + r && r < 8
    ensures n % MAX_INST_SIZE == r
  {
  }

  lemma OverFour(n: nat) returns (q: nat)
    requires n % 4 == 0
    ensures n == 4 * q
  {
    q := n / 4;
  }

  lemma TimesFour(n: nat, q: nat)
    requires n == 4 * q
    ensures n % 4 == 0
  {
  }

  lemma NextMultiple(pc: nat, size: nat)
    requires pc % 4 == 0 && size % 4 == 0
    ensures (StartPc(pc) + size) % 4 == 0 && StartPc(pc) % MAX_INST_SIZE == 0
  {
    var a := OverFour(pc);
    var b := OverFour(size);
    var h, odd := Halves(a);
    OverEight(pc, h, 4 * odd);
    var start := StartPc(pc);
    assert start == 8 * (h + odd);
    hide StartPc;
    OverEight(start, h + odd, 0);
    TimesFour(start + size, 2 * (h + odd) + b);
  }

  lemma Halves(a: nat) returns (h: nat, odd: nat)
    ensures a == 2 * h + odd && odd < 2
  {
    h, odd := a / 2, a % 2;
  }

  /** Whatever the functions, the table has one slot for each address below the next PC, and every
      function starts on an aligned address. */
  lemma {:induction false} ImageConsistent(fs: seq<seq<Insn>>, n: nat)
    requires n <= |fs| && forall f | f in fs :: Sized(f)
    ensures |AfterFunctions(fs, n).slots| == AfterFunctions(fs, n).nextPc
    ensures AfterFunctions(fs, n).nextPc % 4 == 0
    ensures StartPc(AfterFunctions(fs, n).nextPc) % MAX_INST_SIZE == 0
  {
    if n > 0 {
      ImageConsistent(fs, n - 1);
      OffsetFits(fs[n - 1], |fs[n - 1]|);
      NextMultiple(AfterFunctions(fs, n - 1).nextPc, Offset(fs[n - 1], |fs[n - 1]|));
    }
    NextMultiple(AfterFunctions(fs, n).nextPc, 0);
  }

  /** Functions occupy disjoint address ranges, in order. */
  lemma {:induction false} RangesDisjoint(fs: seq<seq<Insn>>, f: nat, g: nat)
    requires f < g < |fs| && forall h | h in fs :: Sized(h)
    ensures PcOf(fs, f, |fs[f]|) <= AfterFunctions(fs, g).nextPc <= PcOf(fs, g, 0)
  {
    if f + 1 < g { RangesDisjoint(fs, f, g - 1); }
  }

  /** What one more function adds: nothing before the old end, padding, then its own slots. */
  lemma SlotOfAssembled(im: Image, fn: nat, insns: seq<Insn>, pc: nat)
    requires Sized(insns) && |im.slots| == im.nextPc && pc < Assembled(im, fn, insns).nextPc
    ensures var (all, start) := (Assembled(im, fn, insns).slots, StartPc(im.nextPc));
            && |all| == Assembled(im, fn, insns).nextPc
            && all[pc] == if pc < im.nextPc then im.slots[pc] else if pc < start then Empty
                else Slots(fn, insns, |insns|)[pc - start]
  {
  }

  lemma CodeInside(insns: seq<Insn>, k: nat)
    requires Sized(insns) && k < |insns| && insns[k].Code?
    ensures Offset(insns, k) < Offset(insns, |insns|)
  {
    OffsetMonotone(insns, k + 1, |insns|);
  }

  /** Every address is the PC of instruction k of function f exactly if its slot says so: each
      instruction is found at its PC, and nothing else is found anywhere. */
  lemma {:induction false} FoundAtItsPc(fs: seq<seq<Insn>>, n: nat, pc: nat, f: nat, k: nat)
    requires n <= |fs| && (forall g | g in fs :: Sized(g)) && pc < AfterFunctions(fs, n).nextPc
    ensures |AfterFunctions(fs, n).slots| == AfterFunctions(fs, n).nextPc
    ensures AfterFunctions(fs, n).slots[pc] == Starts(f, k)
       <==> f < n && k < |fs[f]| && fs[f][k].Code? && pc == PcOf(fs, f, k)
  {
    var m := n - 1;
    var before := AfterFunctions(fs, m);
    ImageConsistent(fs, n);
    ImageConsistent(fs, m);
    SlotOfAssembled(before, m, fs[m], pc);
    hide StartPc, Assembled, Slots, Offset;
    if f < n && k < |fs[f]| && fs[f][k].Code? {
      CodeInside(fs[f], k);
      if f < m { RangesDisjoint(fs, f, m); }
    }
    if pc < before.nextPc {
      FoundAtItsPc(fs, m, pc, f, k);
      StartsAfter(before.nextPc);
    } else if StartPc(before.nextPc) <= pc {
      SlotAt(m, fs[m], |fs[m]|, pc - StartPc(before.nextPc), k);
    }
  }

  lemma StartsAfter(pc: nat)
    ensures StartPc(pc) >= pc
  {
  }
}
