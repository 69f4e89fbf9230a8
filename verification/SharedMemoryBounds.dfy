/** Bounds on the cost of bank conflicts. */
module SharedMemoryBounds {
  import opened Ordered
  import opened SharedMemory
  import opened Subwarps

  // ---------------------------------------------------------------- what the tally means

  /** The accesses (by position) that go to a bank, and to one word of it. */
  function InBank(c: Config, accs: seq<nat>, b: nat): set<nat>
    requires c.numShmemBank > 0
  {
    set i: nat | i < |accs| && Bank(c, accs[i]) == b
  }

  function InWord(c: Config, accs: seq<nat>, b: nat, w: nat): set<nat>
    requires c.numShmemBank > 0
  {
    set i: nat | i < |accs| && Bank(c, accs[i]) == b && Word(accs[i]) == w
  }

  function WordsOf(c: Config, accs: seq<nat>, b: nat): set<nat>
    requires c.numShmemBank > 0
  {
    set i | i in InBank(c, accs, b) :: Word(accs[i])
  }

  function Words(t: Tally, b: nat): set<nat> {
    if b in t then t[b].Keys else {}
  }

  lemma CountedMore(c: Config, t: Tally, addr: nat, b: nat)
    requires c.numShmemBank > 0
    ensures b in Counted(c, t, addr) <==> b in t || b == Bank(c, addr)
    ensures Words(Counted(c, t, addr), b) == Words(t, b) + if b == Bank(c, addr) then {Word(addr)} else {}
  {
    hide Bank, Word;
  }

  lemma CountedAt(c: Config, t: Tally, addr: nat, b: nat, w: nat)
    requires c.numShmemBank > 0
    ensures CountAt(Counted(c, t, addr), b, w) == CountAt(t, b, w)
         + if b == Bank(c, addr) && w == Word(addr) then 1 else 0
  {
    hide Bank, Word;
  }

  /** The tally has a bank for each bank in use, with its words ... */
  lemma {:induction false} TallyWords(c: Config, accs: seq<nat>, b: nat)
    requires c.numShmemBank > 0
    ensures b in Tallied(c, accs) <==> WordsOf(c, accs, b) != {}
    ensures Words(Tallied(c, accs), b) == WordsOf(c, accs, b)
  {
    hide Bank, Word, Counted;
    if accs != [] {
      var n := |accs| - 1;
      TallyWords(c, accs[..n], b);
      WordsOfMore(c, accs, b);
      CountedMore(c, Tallied(c, accs[..n]), accs[n], b);
    }
  }

  /** ... and how often each is accessed. */
  lemma {:induction false} TallyCounts(c: Config, accs: seq<nat>, b: nat, w: nat)
    requires c.numShmemBank > 0
    ensures CountAt(Tallied(c, accs), b, w) == |InWord(c, accs, b, w)|
  {
    hide Bank, Word, Counted;
    if accs == [] {
      assert InWord(c, accs, b, w) == {};
    } else {
      var n := |accs| - 1;
      TallyCounts(c, accs[..n], b, w);
      InWordMore(c, accs, b, w);
      CountedAt(c, Tallied(c, accs[..n]), accs[n], b, w);
    }
  }

  lemma WordsOfMore(c: Config, accs: seq<nat>, b: nat)
    requires c.numShmemBank > 0 && accs != []
    ensures var (n, last) := (|accs| - 1, accs[|accs| - 1]);
            WordsOf(c, accs, b) == WordsOf(c, accs[..n], b) + if Bank(c, last) == b then {Word(last)} else {}
  {
    hide Bank, Word;
    var n, last := |accs| - 1, accs[|accs| - 1];
    assert InBank(c, accs, b) == InBank(c, accs[..n], b) + if Bank(c, last) == b then {n} else {};
  }

  lemma InWordMore(c: Config, accs: seq<nat>, b: nat, w: nat)
    requires c.numShmemBank > 0 && accs != []
    ensures var (n, last) := (|accs| - 1, accs[|accs| - 1]);
            |InWord(c, accs, b, w)| == |InWord(c, accs[..n], b, w)|
            + if Bank(c, last) == b && Word(last) == w then 1 else 0
  {
    var n, last := |accs| - 1, accs[|accs| - 1];
    var all, fewer := InWord(c, accs, b, w), InWord(c, accs[..n], b, w);
    hide Bank, Word;
    forall i
      ensures i in fewer <==> i in all && i < n
    {
      if 0 <= i < n { assert accs[..n][i] == accs[i]; }
    }
    assert forall i | i in all :: i <= n;
    OneMoreElement(all, fewer, n);
  }

  lemma OneMoreElement(all: set<nat>, fewer: set<nat>, n: nat)
    requires forall i :: i in fewer <==> i in all && i < n
    requires forall i | i in all :: i <= n
    ensures |all| == |fewer| + if n in all then 1 else 0
  {
    if n in all {
      assert all == fewer + {n};
    } else {
      assert all == fewer;
    }
  }

  function InWords(c: Config, accs: seq<nat>, b: nat, words: seq<nat>): set<nat>
    requires c.numShmemBank > 0
  {
    set i: nat | i < |accs| && Bank(c, accs[i]) == b && Word(accs[i]) in words
  }

  lemma {:induction false} SumCounts(c: Config, accs: seq<nat>, b: nat, words: seq<nat>)
    requires c.numShmemBank > 0 && b in Tallied(c, accs) && forall w | w in words :: w in Tallied(c, accs)[b]
    requires forall i, j | 0 <= i < j < |words| :: words[i] != words[j]
    ensures Sum(Tallied(c, accs)[b], words) == |InWords(c, accs, b, words)|
  {
    hide Bank, Word, Tallied;
    if words == [] {
      assert InWords(c, accs, b, words) == {};
    } else {
      var n, last := |words| - 1, words[|words| - 1];
      SumCounts(c, accs, b, words[..n]);
      TallyCounts(c, accs, b, last);
      assert CountAt(Tallied(c, accs), b, last) == Tallied(c, accs)[b][last];
      assert words == words[..n] + [last];
      assert InWords(c, accs, b, words) == InWords(c, accs, b, words[..n]) + InWord(c, accs, b, last);
      assert InWords(c, accs, b, words[..n]) !! InWord(c, accs, b, last);
    }
  }

  /** The counts of a bank add up to its accesses. */
  lemma BankSum(c: Config, accs: seq<nat>, b: nat)
    requires c.numShmemBank > 0 && b in Tallied(c, accs)
    ensures Sum(Tallied(c, accs)[b], Sorted(Tallied(c, accs)[b].Keys)) == |InBank(c, accs, b)|
  {
    var words := Sorted(Tallied(c, accs)[b].Keys);
    TallyWords(c, accs, b);
    SumCounts(c, accs, b, words);
    hide Sorted, Bank, Word, Tallied;
    forall i | i in InBank(c, accs, b) ensures i in InWords(c, accs, b, words) {
      assert Word(accs[i]) in WordsOf(c, accs, b);
    }
    assert InWords(c, accs, b, words) == InBank(c, accs, b);
  }

  // ---------------------------------------------------------------- one bank

  lemma {:induction false} WordsAtMost(accs: seq<nat>, s: set<nat>)
    requires forall i | i in s :: i < |accs|
    ensures |set i | i in s :: Word(accs[i])| <= |s|
  {
    hide Word;
    if s != {} {
      var k :| k in s;
      WordsAtMost(accs, s - {k});
      var words, fewer := (set i | i in s :: Word(accs[i])), (set i | i in s - {k} :: Word(accs[i]));
      assert words == fewer + {Word(accs[k])};
    }
  }

  /** Sharing one word still costs at least one access for each word. */
  lemma SharedWordCost(c: Config, accs: seq<nat>, b: nat, w: nat)
    requires c.numShmemBank > 0 && w in WordsOf(c, accs, b)
    ensures |WordsOf(c, accs, b)| <= |InBank(c, accs, b)| - |InWord(c, accs, b, w)| + 1
  {
    hide Bank, Word;
    var others := InBank(c, accs, b) - InWord(c, accs, b, w);
    WordsAtMost(accs, others);
    assert InBank(c, accs, b) == others + InWord(c, accs, b, w);
    assert WordsOf(c, accs, b) - {w} == set i | i in others :: Word(accs[i]);
    assert WordsOf(c, accs, b) == (WordsOf(c, accs, b) - {w}) + {w};
  }

  /** The numbers below n. */
  function Below(n: nat): (r: set<nat>)
    ensures |r| == n && forall i: nat :: i in r <==> i < n
  {
    if n == 0 then {} else Below(n - 1) + {n - 1}
  }

  lemma InBankAtMost(c: Config, accs: seq<nat>, b: nat)
    requires c.numShmemBank > 0
    ensures |InBank(c, accs, b)| <= |accs|
  {
    hide Bank;
    Subset(InBank(c, accs, b), Below(|accs|));
  }

  lemma Subset(s: set<nat>, t: set<nat>)
    requires s <= t
    ensures |s| <= |t|
  {
    assert t == s + (t - s);
  }

  /** With limited broadcast the shared word is served once. */
  lemma LimitedIs(c: Config, accs: seq<nat>, b: nat)
    requires c.numShmemBank > 0 && b in Tallied(c, accs)
    ensures var bc := Detected(Tallied(c, accs));
            if bc.At? && bc.bank == b
            then bc.word in WordsOf(c, accs, b) && InWord(c, accs, b, bc.word) != {}
                 && Cost(Tallied(c, accs), true, b) == |InBank(c, accs, b)| - |InWord(c, accs, b, bc.word)| + 1
            else Cost(Tallied(c, accs), true, b) == |InBank(c, accs, b)|
  {
    var t := Tallied(c, accs);
    var bc := Detected(t);
    DetectedProper(t);
    BankSum(c, accs, b);
    TallyWords(c, accs, b);
    hide Bank, Word, Tallied, Sorted, Detected, Sum, InBank, InWord, WordsOf;
    if bc.At? && bc.bank == b {
      TallyCounts(c, accs, b, bc.word);
    }
  }

  /** For every bank in use: at least one access, no fewer with limited broadcast than with full
      broadcast, and never more than there are lanes. */
  lemma BankBounds(c: Config, accs: seq<nat>, b: nat)
    requires c.numShmemBank > 0 && b in Tallied(c, accs)
    ensures 1 <= Cost(Tallied(c, accs), false, b) <= Cost(Tallied(c, accs), true, b) <= |accs|
    ensures Cost(Tallied(c, accs), false, b) == |WordsOf(c, accs, b)|
  {
    TallyWords(c, accs, b);
    LimitedIs(c, accs, b);
    InBankAtMost(c, accs, b);
    WordsAtMost(accs, InBank(c, accs, b));
    var bc := Detected(Tallied(c, accs));
    assert WordsOf(c, accs, b) == set i | i in InBank(c, accs, b) :: Word(accs[i]);
    assert Cost(Tallied(c, accs), false, b) == |Words(Tallied(c, accs), b)|;
    hide Bank, Word, Tallied, Detected, Cost, InBank, InWord, WordsOf;
    NotEmpty(WordsOf(c, accs, b));
    if bc.At? && bc.bank == b {
      SharedWordCost(c, accs, b, bc.word);
      NotEmpty(InWord(c, accs, b, bc.word));
    }
  }

  lemma NotEmpty(s: set<nat>)
    requires s != {}
    ensures |s| >= 1
  {
    var x :| x in s;
    assert s == (s - {x}) + {x};
  }

  // ---------------------------------------------------------------- a subwarp

  lemma {:induction false} MaxBounds(c: Config, accs: seq<nat>, banks: seq<nat>)
    requires c.numShmemBank > 0 && banks != [] && forall b | b in banks :: b in Tallied(c, accs)
    ensures 1 <= MaxCost(Tallied(c, accs), false, banks) <= MaxCost(Tallied(c, accs), true, banks) <= |accs|
  {
    hide Tallied, Cost;
    var n := |banks| - 1;
    BankBounds(c, accs, banks[n]);
    if n > 0 { MaxBounds(c, accs, banks[..n]); }
  }

  /** A subwarp with active lanes costs at least 1 and at most one for each lane; limited broadcast
      never costs less than full broadcast. */
  lemma SubwarpBounds(c: Config, accs: seq<nat>)
    requires c.numShmemBank > 0
    ensures accs != [] ==> 1 <= SubwarpCost(c, false, accs)
    ensures 0 <= SubwarpCost(c, false, accs) <= SubwarpCost(c, true, accs) <= |accs|
  {
    var banks := Sorted(Tallied(c, accs).Keys);
    if accs == [] {
      assert banks == [];
    } else {
      InUse(c, accs, 0);
      hide Tallied, Sorted, Bank, Word;
      assert Bank(c, accs[0]) in banks;
      MaxBounds(c, accs, banks);
    }
  }

  lemma {:induction false} MaxIsMax(t: Tally, limited: bool, banks: seq<nat>)
    requires forall b | b in banks :: b in t
    ensures forall b | b in banks :: Cost(t, limited, b) <= MaxCost(t, limited, banks)
    ensures MaxCost(t, limited, banks) > 0 ==> exists b ::
        b in banks && Cost(t, limited, b) == MaxCost(t, limited, banks)
  {
    hide Cost;
    if banks != [] {
      var n := |banks| - 1;
      MaxIsMax(t, limited, banks[..n]);
      assert banks == banks[..n] + [banks[n]];
    }
  }

  /** Two accesses conflict when they want different words of one bank. */
  predicate ConflictFree(c: Config, accs: seq<nat>)
    requires c.numShmemBank > 0
  {
    forall i, j | 0 <= i < |accs| && 0 <= j < |accs| && Bank(c, accs[i]) == Bank(c, accs[j]) ::
        Word(accs[i]) == Word(accs[j])
  }

  predicate SameWord(c: Config, accs: seq<nat>, b: nat)
    requires c.numShmemBank > 0
  {
    forall i, j | i in InBank(c, accs, b) && j in InBank(c, accs, b) :: Word(accs[i]) == Word(accs[j])
  }

  lemma AllSame(s: set<nat>, x: nat)
    requires x in s && forall y | y in s :: y == x
    ensures |s| == 1
  {
    assert s == {x};
  }

  /** A bank serves one word exactly if no two of its accesses conflict. */
  lemma OneWord(c: Config, accs: seq<nat>, b: nat)
    requires c.numShmemBank > 0 && WordsOf(c, accs, b) != {}
    ensures |WordsOf(c, accs, b)| == 1 <==> SameWord(c, accs, b)
  {
    hide Bank, Word;
    if SameWord(c, accs, b) {
      var k :| k in InBank(c, accs, b);
      AllSame(WordsOf(c, accs, b), Word(accs[k]));
    } else {
      var i, j :| i in InBank(c, accs, b) && j in InBank(c, accs, b) && Word(accs[i]) != Word(accs[j]);
      if |WordsOf(c, accs, b)| == 1 {
        Singleton(WordsOf(c, accs, b), Word(accs[i]), Word(accs[j]));
      }
    }
  }

  lemma FreeInEachBank(c: Config, accs: seq<nat>)
    requires c.numShmemBank > 0
    ensures ConflictFree(c, accs) <==> forall b | b in Tallied(c, accs) :: SameWord(c, accs, b)
  {
    hide Bank, Word, Tallied;
    if forall b | b in Tallied(c, accs) :: SameWord(c, accs, b) {
      forall i, j | 0 <= i < |accs| && 0 <= j < |accs| && Bank(c, accs[i]) == Bank(c, accs[j])
        ensures Word(accs[i]) == Word(accs[j])
      {
        InUse(c, accs, i);
        assert SameWord(c, accs, Bank(c, accs[i])) && j in InBank(c, accs, Bank(c, accs[i]));
      }
    }
  }

  /** With full broadcast a subwarp takes a single access exactly if no two lanes conflict. */
  lemma SingleAccess(c: Config, accs: seq<nat>)
    requires c.numShmemBank > 0 && accs != []
    ensures SubwarpCost(c, false, accs) == 1 <==> ConflictFree(c, accs)
  {
    var t := Tallied(c, accs);
    var banks := Sorted(t.Keys);
    MaxIsMax(t, false, banks);
    SubwarpBounds(c, accs);
    FreeInEachBank(c, accs);
    hide Bank, Word, Tallied, Sorted, Cost, WordsOf, SameWord, ConflictFree, MaxCost;
    forall b | b in banks
      ensures Cost(t, false, b) >= 1 && (Cost(t, false, b) == 1 <==> SameWord(c, accs, b))
    {
      BankBounds(c, accs, b);
      TallyWords(c, accs, b);
      OneWord(c, accs, b);
    }
  }

  lemma InUse(c: Config, accs: seq<nat>, i: nat)
    requires c.numShmemBank > 0 && i < |accs|
    ensures i in InBank(c, accs, Bank(c, accs[i])) && Bank(c, accs[i]) in Tallied(c, accs)
  {
    hide Bank, Word, Tallied;
    TallyWords(c, accs, Bank(c, accs[i]));
    assert Word(accs[i]) in WordsOf(c, accs, Bank(c, accs[i]));
  }

  lemma Singleton(s: set<nat>, x: nat, y: nat)
    requires |s| <= 1 && x in s && y in s
    ensures x == y
  {
    if x != y {
      Subset({x, y}, s);
    }
  }

  // ---------------------------------------------------------------- the whole warp

  lemma {:induction false} LaneCount(a: Access, lo: nat, hi: nat)
    requires lo <= hi <= |a.addrs|
    ensures |LaneAddrs(a, lo, hi)| == |ActiveIn(a.active, lo, hi)|
  {
    if lo == hi {
      NoneActive(a.active, lo);
    } else {
      LaneCount(a, lo, hi - 1);
      OneMoreLane(a.active, lo, hi - 1);
    }
  }

  /** The number of active lanes in the first `n` subwarps. */
  function ActiveBefore(c: Config, a: Access, n: nat): nat
    requires c.memWarpParts > 0
  {
    |ActiveIn(a.active, 0, Start(c, n))|
  }

  lemma {:induction false} FirstSubwarps(c: Config, a: Access, n: nat)
    requires Valid(c, a) && n <= c.memWarpParts
    ensures 0 <= Total(c, false, a, n) <= Total(c, true, a, n) <= ActiveBefore(c, a, n)
    ensures ActiveBefore(c, a, n) > 0 ==> Total(c, false, a, n) > 0
  {
    hide ActiveBefore, SubwarpCost;
    if n == 0 {
      NothingActive(c, a);
    } else {
      FirstSubwarps(c, a, n - 1);
      var full, limited, lanes := NextSubwarp(c, a, n - 1);
    }
  }

  lemma NothingActive(c: Config, a: Access)
    requires Valid(c, a)
    ensures ActiveBefore(c, a, 0) == 0
  {
    NoneActive(a.active, 0);
  }

  /** One more subwarp costs `full` or `limited` and has `lanes` active lanes. */
  lemma NextSubwarp(c: Config, a: Access, part: nat) returns (full: int, limited: int, lanes: nat)
    requires Valid(c, a) && part < c.memWarpParts
    ensures 0 <= full <= limited <= lanes && (lanes > 0 ==> full > 0)
    ensures Total(c, false, a, part + 1) == Total(c, false, a, part) + full
    ensures Total(c, true, a, part + 1) == Total(c, true, a, part) + limited
    ensures ActiveBefore(c, a, part + 1) == ActiveBefore(c, a, part) + lanes
  {
    hide SubwarpCost, Start;
    SubwarpFits(c, part);
    var lo, hi := Start(c, part), Start(c, part + 1);
    var accs := LaneAddrs(a, lo, hi);
    full, limited, lanes := SubwarpCost(c, false, accs), SubwarpCost(c, true, accs), |accs|;
    SubwarpBounds(c, accs);
    LaneCount(a, lo, hi);
    ActiveSplit(a.active, lo, hi);
  }

  /** The source's assertion, and more: with an active lane the total is at least 1 and at most the
      number of active lanes, and limited broadcast is never cheaper. */
  lemma TotalBounds(c: Config, a: Access)
    requires Valid(c, a) && a.active != {}
    ensures 1 <= Total(c, false, a, c.memWarpParts) <= Total(c, true, a, c.memWarpParts) <= |a.active| <= c.warpSize
  {
    hide Total, Start;
    FirstSubwarps(c, a, c.memWarpParts);
    AllLanes(c);
    assert ActiveIn(a.active, 0, c.warpSize) == a.active;
    NotEmpty(a.active);
    Subset(a.active, Below(c.warpSize));
  }

  lemma AllLanes(c: Config)
    requires c.memWarpParts > 0 && c.warpSize % c.memWarpParts == 0
    ensures Start(c, c.memWarpParts) == c.warpSize
  {
    Whole(c.warpSize, c.memWarpParts);
  }
}
