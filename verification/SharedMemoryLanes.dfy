/** The cost of a shared-memory instruction in terms of its lanes and their addresses. */
module SharedMemoryLanes {
  import opened Ordered
  import opened SharedMemory
  import opened SharedMemoryBounds
  import Subwarps

  // ---------------------------------------------------------------- lanes, banks and words

  /** The active lanes of [lo, hi) whose word is in bank `b`. */
  function LanesAt(c: Config, a: Access, lo: nat, hi: nat, b: nat): set<nat>
    requires c.numShmemBank > 0 && hi <= |a.addrs|
  {
    set t | t in a.active && lo <= t < hi && Bank(c, a.addrs[t]) == b
  }

  /** Those that want word `w` of it. */
  function LanesOn(c: Config, a: Access, lo: nat, hi: nat, b: nat, w: nat): set<nat>
    requires c.numShmemBank > 0 && hi <= |a.addrs|
  {
    set t | t in a.active && lo <= t < hi && Bank(c, a.addrs[t]) == b && Word(a.addrs[t]) == w
  }

  function WordsAt(c: Config, a: Access, lo: nat, hi: nat, b: nat): set<nat>
    requires c.numShmemBank > 0 && hi <= |a.addrs|
  {
    set t | t in LanesAt(c, a, lo, hi, b) :: Word(a.addrs[t])
  }

  /** The word that limited broadcast shares: of the words wanted by two lanes the first one in the
      first bank. */
  ghost predicate IsBroadcast(c: Config, a: Access, lo: nat, hi: nat, b: nat, w: nat)
    requires c.numShmemBank > 0 && hi <= |a.addrs|
  {
    && |LanesOn(c, a, lo, hi, b, w)| >= 2
    && forall b': nat, w': nat | |LanesOn(c, a, lo, hi, b', w')| >= 2 :: b < b' || (b == b' && w <= w')
  }

  /** How often a bank is accessed: once for each word with full broadcast; once for each lane with
      limited broadcast, except that the lanes of the broadcast word share one access. */
  ghost function BankCost(c: Config, limited: bool, a: Access, lo: nat, hi: nat, b: nat): int
    requires c.numShmemBank > 0 && hi <= |a.addrs|
  {
    if !limited then |WordsAt(c, a, lo, hi, b)|
    else if w: nat :| IsBroadcast(c, a, lo, hi, b, w) then
      |LanesAt(c, a, lo, hi, b)| - |LanesOn(c, a, lo, hi, b, w)| + 1
    else |LanesAt(c, a, lo, hi, b)|
  }

  lemma InBankMore(c: Config, accs: seq<nat>, b: nat)
    requires c.numShmemBank > 0 && accs != []
    ensures var (n, last) := (|accs| - 1, accs[|accs| - 1]);
            |InBank(c, accs, b)| == |InBank(c, accs[..n], b)| + if Bank(c, last) == b then 1 else 0
  {
    var n := |accs| - 1;
    var all, fewer := InBank(c, accs, b), InBank(c, accs[..n], b);
    hide Bank;
    forall i
      ensures i in fewer <==> i in all && i < n
    {
      if 0 <= i < n { assert accs[..n][i] == accs[i]; }
    }
    assert forall i | i in all :: i <= n;
    OneMoreElement(all, fewer, n);
  }

  lemma LanesMore(c: Config, a: Access, lo: nat, t: nat, b: nat, w: nat)
    requires c.numShmemBank > 0 && lo <= t < |a.addrs|
    ensures |LanesAt(c, a, lo, t + 1, b)|
         == |LanesAt(c, a, lo, t, b)| + if t in a.active && Bank(c, a.addrs[t]) == b then 1 else 0
    ensures |LanesOn(c, a, lo, t + 1, b, w)| == |LanesOn(c, a, lo, t, b, w)|
              + if t in a.active && Bank(c, a.addrs[t]) == b && Word(a.addrs[t]) == w then 1 else 0
    ensures WordsAt(c, a, lo, t + 1, b) == WordsAt(c, a, lo, t, b)
              + if t in a.active && Bank(c, a.addrs[t]) == b then {Word(a.addrs[t])} else {}
  {
    hide Bank, Word;
    OneMoreElement(LanesAt(c, a, lo, t + 1, b), LanesAt(c, a, lo, t, b), t);
    OneMoreElement(LanesOn(c, a, lo, t + 1, b, w), LanesOn(c, a, lo, t, b, w), t);
    WordsMore(c, a, lo, t, b);
  }

  lemma WordsMore(c: Config, a: Access, lo: nat, t: nat, b: nat)
    requires c.numShmemBank > 0 && lo <= t < |a.addrs|
    ensures WordsAt(c, a, lo, t + 1, b) == WordsAt(c, a, lo, t, b)
              + if t in a.active && Bank(c, a.addrs[t]) == b then {Word(a.addrs[t])} else {}
  {
    hide Bank, Word;
    assert LanesAt(c, a, lo, t + 1, b)
        == LanesAt(c, a, lo, t, b) + if t in a.active && Bank(c, a.addrs[t]) == b then {t} else {};
  }

  lemma NoneCounted(c: Config, a: Access, lo: nat, b: nat, w: nat)
    requires c.numShmemBank > 0 && lo <= |a.addrs|
    ensures LaneAddrs(a, lo, lo) == [] && InBank(c, [], b) == {} && InWord(c, [], b, w) == {} && WordsOf(c, [], b) == {}
    ensures LanesAt(c, a, lo, lo, b) == {} && LanesOn(c, a, lo, lo, b, w) == {} && WordsAt(c, a, lo, lo, b) == {}
  {
  }

  /** The accesses that the tally counts are the active lanes, each with its own address. */
  lemma {:induction false} CountsOfLanes(c: Config, a: Access, lo: nat, hi: nat, b: nat, w: nat)
    requires c.numShmemBank > 0 && lo <= hi <= |a.addrs|
    ensures |InBank(c, LaneAddrs(a, lo, hi), b)| == |LanesAt(c, a, lo, hi, b)|
    ensures |InWord(c, LaneAddrs(a, lo, hi), b, w)| == |LanesOn(c, a, lo, hi, b, w)|
    ensures WordsOf(c, LaneAddrs(a, lo, hi), b) == WordsAt(c, a, lo, hi, b)
  {
    hide Bank, Word, LanesAt, LanesOn, WordsAt, InBank, InWord, WordsOf;
    if lo == hi {
      NoneCounted(c, a, lo, b, w);
    } else {
      var t, accs := hi - 1, LaneAddrs(a, lo, hi);
      CountsOfLanes(c, a, lo, t, b, w);
      LanesMore(c, a, lo, t, b, w);
      if t in a.active {
        assert accs[..|accs| - 1] == LaneAddrs(a, lo, t);
        InBankMore(c, accs, b);
        InWordMore(c, accs, b, w);
        WordsOfMore(c, accs, b);
      }
    }
  }

  // ---------------------------------------------------------------- one bank

  /** Where a tally says that a word is shared. */
  lemma DetectedLeast(t: Tally)
    ensures Detected(t) == None <==> forall b, w | b in t && w in t[b] :: t[b][w] <= 1
    ensures Detected(t).At? ==>
              var (b, w) := (Detected(t).bank, Detected(t).word);
              && b in t && w in t[b] && t[b][w] > 1
              && forall b', w' | b' in t && w' in t[b'] && t[b'][w'] > 1 :: b < b' || (b == b' && w <= w')
  {
    hide Least;
    forall b, w | b in t && w in t[b] && t[b][w] > 1
      ensures b in SharedBanks(t) && w in Shared(t[b])
    {
      assert w in Shared(t[b]);
    }
    DetectedProper(t);
    if Detected(t) == None {
      assert SharedBanks(t) == {};
    } else {
      var b, w := Detected(t).bank, Detected(t).word;
      forall b', w' | b' in t && w' in t[b'] && t[b'][w'] > 1
        ensures b < b' || (b == b' && w <= w')
      {
        assert b' in SharedBanks(t) && w' in Shared(t[b']);
      }
    }
  }

  lemma TallyOfLanes(c: Config, a: Access, lo: nat, hi: nat, b: nat, w: nat)
    requires c.numShmemBank > 0 && lo <= hi <= |a.addrs|
    ensures var t := Tallied(c, LaneAddrs(a, lo, hi));
            |LanesOn(c, a, lo, hi, b, w)| == if b in t && w in t[b] then t[b][w] else 0
  {
    hide Bank, Word, Tallied;
    TallyCounts(c, LaneAddrs(a, lo, hi), b, w);
    CountsOfLanes(c, a, lo, hi, b, w);
  }

  /** The broadcast word that the search finds is the one that the lanes define; it finds none only if
      no two lanes want one word. */
  lemma DetectedIsBroadcast(c: Config, a: Access, lo: nat, hi: nat)
    requires c.numShmemBank > 0 && lo <= hi <= |a.addrs|
    ensures var bc := Detected(Tallied(c, LaneAddrs(a, lo, hi)));
      && (bc == None <==> forall b: nat, w: nat :: |LanesOn(c, a, lo, hi, b, w)| <= 1)
      && forall b: nat, w: nat :: IsBroadcast(c, a, lo, hi, b, w) <==> bc == At(b, w)
  {
    var t := Tallied(c, LaneAddrs(a, lo, hi));
    DetectedLeast(t);
    forall b: nat, w: nat
      ensures |LanesOn(c, a, lo, hi, b, w)| == if b in t && w in t[b] then t[b][w] else 0
    {
      TallyOfLanes(c, a, lo, hi, b, w);
    }
    hide Tallied, Detected, LanesOn;
    var bc := Detected(t);
    if bc.At? {
      assert IsBroadcast(c, a, lo, hi, bc.bank, bc.word);
    }
  }

  lemma BankInUse(c: Config, a: Access, lo: nat, hi: nat, b: nat)
    requires c.numShmemBank > 0 && lo <= hi <= |a.addrs|
    ensures b in Tallied(c, LaneAddrs(a, lo, hi)) <==> LanesAt(c, a, lo, hi, b) != {}
  {
    hide Bank, Word, Tallied;
    TallyWords(c, LaneAddrs(a, lo, hi), b);
    CountsOfLanes(c, a, lo, hi, b, 0);
    if t :| t in LanesAt(c, a, lo, hi, b) {
      assert Word(a.addrs[t]) in WordsAt(c, a, lo, hi, b);
    }
  }

  lemma CostOfBank(c: Config, limited: bool, a: Access, lo: nat, hi: nat, b: nat)
    requires c.numShmemBank > 0 && lo <= hi <= |a.addrs| && LanesAt(c, a, lo, hi, b) != {}
    ensures b in Tallied(c, LaneAddrs(a, lo, hi))
    ensures Cost(Tallied(c, LaneAddrs(a, lo, hi)), limited, b) == BankCost(c, limited, a, lo, hi, b)
  {
    var accs := LaneAddrs(a, lo, hi);
    BankInUse(c, a, lo, hi, b);
    BankBounds(c, accs, b);
    LimitedIs(c, accs, b);
    DetectedIsBroadcast(c, a, lo, hi);
    CountsOfLanes(c, a, lo, hi, b, 0);
    var bc := Detected(Tallied(c, accs));
    hide Tallied, Detected, Cost, LanesAt, LanesOn, WordsAt, InBank, InWord, WordsOf, IsBroadcast;
    if bc.At? && bc.bank == b {
      CountsOfLanes(c, a, lo, hi, b, bc.word);
      assert IsBroadcast(c, a, lo, hi, b, bc.word);
    }
  }

  // ---------------------------------------------------------------- a subwarp

  /** A subwarp costs as much as its most expensive bank. */
  lemma SubwarpCostIs(c: Config, limited: bool, a: Access, lo: nat, hi: nat)
    requires c.numShmemBank > 0 && lo <= hi <= |a.addrs|
    ensures var cost := SubwarpCost(c, limited, LaneAddrs(a, lo, hi));
      && (forall b | LanesAt(c, a, lo, hi, b) != {} :: BankCost(c, limited, a, lo, hi, b) <= cost)
      && 0 <= cost && (cost == 0 <==> forall b :: LanesAt(c, a, lo, hi, b) == {})
      && (cost > 0 ==> exists b :: LanesAt(c, a, lo, hi, b) != {} && BankCost(c, limited, a, lo, hi, b) == cost)
  {
    var accs := LaneAddrs(a, lo, hi);
    var t := Tallied(c, accs);
    var banks := Sorted(t.Keys);
    MaxIsMax(t, limited, banks);
    forall b: nat
      ensures b in t <==> LanesAt(c, a, lo, hi, b) != {}
      ensures b in t ==> Cost(t, limited, b) == BankCost(c, limited, a, lo, hi, b) && Cost(t, limited, b) >= 1
    {
      BankInUse(c, a, lo, hi, b);
      if b in t {
        CostOfBank(c, limited, a, lo, hi, b);
        BankBounds(c, accs, b);
      }
    }
    SubwarpBounds(c, accs);
    hide Tallied, Sorted, Cost, LanesAt, BankCost;
    var cost := SubwarpCost(c, limited, accs);
    assert cost == MaxCost(t, limited, banks);
  }

  // ---------------------------------------------------------------- access patterns

  lemma Products(n: nat, i: nat, j: nat)
    requires i < j
    ensures n * j >= n * i + n
  {
    Subwarps.Monotone(i + 1, j, n);
    Subwarps.NextMultiple(i, n);
  }

  lemma Residue(n: nat, q: nat, i: nat, r: nat)
    requires n > 0 && q == n * i + r && r < n
    ensures q % n == r && q / n == i
  {
    Subwarps.Division(q, n);
    if q / n < i {
      Products(n, q / n, i);
    } else if i < q / n {
      Products(n, i, q / n);
    }
  }

  /** Numbers less than n apart have different remainders. */
  lemma NearApart(n: nat, x: nat, y: nat)
    requires n > 0 && x < y < x + n
    ensures x % n != y % n
  {
    Subwarps.Division(x, n);
    Subwarps.Division(y, n);
    if x % n == y % n {
      if x / n < y / n {
        Products(n, x / n, y / n);
      } else if y / n < x / n {
        Products(n, y / n, x / n);
      }
    }
  }

  lemma WordNumber(addr: nat)
    requires addr < ADDRESS_LIMIT
    ensures addr % ADDRESS_LIMIT == addr && Word(addr) == 4 * (addr / 4)
  {
    Subwarps.Division(addr, 4);
  }

  lemma WordNumbers(c: Config, x: nat, y: nat)
    requires c.numShmemBank > 0 && x < ADDRESS_LIMIT && y < ADDRESS_LIMIT
    ensures Bank(c, x) == x / 4 % c.numShmemBank && (Word(x) == Word(y) <==> x / 4 == y / 4)
  {
    WordNumber(x);
    WordNumber(y);
    hide Word;
  }

  lemma NumbersOfLane(c: Config, a: Access, t: nat)
    requires c.numShmemBank > 0 && t < |a.addrs| && a.addrs[t] < ADDRESS_LIMIT
    ensures Bank(c, a.addrs[t]) == a.addrs[t] / 4 % c.numShmemBank
  {
    WordNumbers(c, a.addrs[t], a.addrs[t]);
  }

  lemma AtMostOne(s: set<nat>)
    requires forall x, y | x in s && y in s :: x == y
    ensures |s| <= 1
  {
    if x :| x in s { assert s == {x}; }
  }

  /** Lanes in different banks cost one access, ... */
  lemma AloneInBank(c: Config, limited: bool, a: Access, lo: nat, hi: nat, t: nat)
    requires c.numShmemBank > 0 && lo <= hi <= |a.addrs| && t in a.active && lo <= t < hi
    requires forall u | u in LanesAt(c, a, lo, hi, Bank(c, a.addrs[t])) :: u == t
    ensures BankCost(c, limited, a, lo, hi, Bank(c, a.addrs[t])) == 1
  {
    hide Bank, Word;
    var b := Bank(c, a.addrs[t]);
    AllSame(LanesAt(c, a, lo, hi, b), t);
    AllSame(WordsAt(c, a, lo, hi, b), Word(a.addrs[t]));
    forall w: nat
      ensures !IsBroadcast(c, a, lo, hi, b, w)
    {
      assert forall u | u in LanesOn(c, a, lo, hi, b, w) :: u in LanesAt(c, a, lo, hi, b);
      AtMostOne(LanesOn(c, a, lo, hi, b, w));
    }
  }

  lemma BanksDiffer(c: Config, lo: nat, hi: nat, q: nat, t: nat, u: nat)
    requires c.numShmemBank > 0 && lo <= t < hi && lo <= u < hi && t != u && hi - lo <= c.numShmemBank
    ensures (q + (t - lo)) % c.numShmemBank != (q + (u - lo)) % c.numShmemBank
  {
    if t < u {
      NearApart(c.numShmemBank, q + (t - lo), q + (u - lo));
    } else {
      NearApart(c.numShmemBank, q + (u - lo), q + (t - lo));
    }
  }

  lemma LanesApart(c: Config, a: Access, lo: nat, hi: nat, q: nat, t: nat, u: nat)
    requires c.numShmemBank > 0 && lo <= t < hi && lo <= u < hi <= |a.addrs| && t != u && hi - lo <= c.numShmemBank
    requires a.addrs[t] < ADDRESS_LIMIT && a.addrs[t] / 4 == q + (t - lo)
    requires a.addrs[u] < ADDRESS_LIMIT && a.addrs[u] / 4 == q + (u - lo)
    ensures Bank(c, a.addrs[t]) != Bank(c, a.addrs[u])
  {
    NumbersOfLane(c, a, t);
    NumbersOfLane(c, a, u);
    hide Bank;
    BanksDiffer(c, lo, hi, q, t, u);
  }

  /** Consecutive words, one for each lane and no more than there are banks: a single access. */
  lemma ConsecutiveWords(c: Config, limited: bool, a: Access, lo: nat, hi: nat, q: nat)
    requires c.numShmemBank > 0 && lo <= hi <= |a.addrs| && hi - lo <= c.numShmemBank
    requires exists t: nat :: t in a.active && lo <= t < hi
    requires forall t: nat | t in a.active && lo <= t < hi ::
               a.addrs[t] < ADDRESS_LIMIT && a.addrs[t] / 4 == q + (t - lo)
    ensures SubwarpCost(c, limited, LaneAddrs(a, lo, hi)) == 1
  {
    hide Bank, Word, SubwarpCost, BankCost;
    SubwarpCostIs(c, limited, a, lo, hi);
    forall b: nat, t: nat | t in LanesAt(c, a, lo, hi, b)
      ensures BankCost(c, limited, a, lo, hi, b) == 1
    {
      forall u | u in LanesAt(c, a, lo, hi, b)
        ensures u == t
      {
        if t != u { LanesApart(c, a, lo, hi, q, t, u); }
      }
      AloneInBank(c, limited, a, lo, hi, t);
    }
    var t: nat :| t in a.active && lo <= t < hi;
    assert t in LanesAt(c, a, lo, hi, Bank(c, a.addrs[t]));
  }

  /** All lanes in one bank, with the same word or with a word for each. */
  lemma OneBank(c: Config, limited: bool, a: Access, lo: nat, hi: nat, b: nat, lanes: set<nat>)
    requires c.numShmemBank > 0 && lo <= hi <= |a.addrs|
    requires lanes == (set t | t in a.active && lo <= t < hi) && lanes != {}
    requires forall t | t in lanes :: Bank(c, a.addrs[t]) == b
    ensures SubwarpCost(c, limited, LaneAddrs(a, lo, hi)) == BankCost(c, limited, a, lo, hi, b)
    ensures LanesAt(c, a, lo, hi, b) == lanes
  {
    hide Bank, Word, SubwarpCost, BankCost;
    SubwarpCostIs(c, limited, a, lo, hi);
    assert LanesAt(c, a, lo, hi, b) == lanes;
    forall b' | LanesAt(c, a, lo, hi, b') != {}
      ensures b' == b
    {
      var t :| t in LanesAt(c, a, lo, hi, b');
      assert t in lanes;
    }
    var cost := SubwarpCost(c, limited, LaneAddrs(a, lo, hi));
    assert cost > 0;
    var b' :| LanesAt(c, a, lo, hi, b') != {} && BankCost(c, limited, a, lo, hi, b') == cost;
  }

  /** All lanes want one word: a single access, in both modes. */
  lemma OneWordForAll(c: Config, limited: bool, a: Access, lo: nat, hi: nat, q: nat)
    requires c.numShmemBank > 0 && lo <= hi <= |a.addrs|
    requires exists t: nat :: t in a.active && lo <= t < hi
    requires forall t: nat | t in a.active && lo <= t < hi :: a.addrs[t] < ADDRESS_LIMIT && a.addrs[t] / 4 == q
    ensures SubwarpCost(c, limited, LaneAddrs(a, lo, hi)) == 1
  {
    hide Bank, Word, SubwarpCost;
    var lanes := set t | t in a.active && lo <= t < hi;
    var t: nat :| t in a.active && lo <= t < hi;
    assert t in lanes;
    var b, w := Bank(c, a.addrs[t]), Word(a.addrs[t]);
    forall u | u in lanes
      ensures Bank(c, a.addrs[u]) == b && Word(a.addrs[u]) == w
    {
      NumbersOfLane(c, a, t);
      NumbersOfLane(c, a, u);
      WordNumbers(c, a.addrs[t], a.addrs[u]);
    }
    OneBank(c, limited, a, lo, hi, b, lanes);
    AllSame(WordsAt(c, a, lo, hi, b), w);
    SharedByAll(c, a, lo, hi, b, w, lanes);
  }

  lemma SharedByAll(c: Config, a: Access, lo: nat, hi: nat, b: nat, w: nat, lanes: set<nat>)
    requires c.numShmemBank > 0 && lo <= hi <= |a.addrs| && LanesAt(c, a, lo, hi, b) == lanes != {}
    requires lanes == set t | t in a.active && lo <= t < hi
    requires forall t | t in lanes :: Bank(c, a.addrs[t]) == b && Word(a.addrs[t]) == w
    ensures BankCost(c, true, a, lo, hi, b) == 1
  {
    hide Bank, Word;
    assert LanesOn(c, a, lo, hi, b, w) == lanes;
    forall b': nat, w': nat | b' != b || w' != w
      ensures LanesOn(c, a, lo, hi, b', w') == {}
    {
    }
    var x :| x in lanes;
    assert lanes == (lanes - {x}) + {x};
    if |lanes| >= 2 {
      assert IsBroadcast(c, a, lo, hi, b, w);
    }
  }

  /** Words a multiple of the number of banks apart: one access for each lane, in both modes. */
  lemma SameBankStride(c: Config, limited: bool, a: Access, lo: nat, hi: nat, q: nat)
    requires c.numShmemBank > 0 && lo <= hi <= |a.addrs|
    requires exists t: nat :: t in a.active && lo <= t < hi
    requires forall t: nat | t in a.active && lo <= t < hi ::
               a.addrs[t] < ADDRESS_LIMIT && a.addrs[t] / 4 == q + c.numShmemBank * (t - lo)
    ensures SubwarpCost(c, limited, LaneAddrs(a, lo, hi)) == |set t | t in a.active && lo <= t < hi|
  {
    hide Bank, Word, SubwarpCost;
    var n, lanes := c.numShmemBank, set t | t in a.active && lo <= t < hi;
    var t0: nat :| t0 in a.active && lo <= t0 < hi;
    assert t0 in lanes;
    forall t | t in lanes
      ensures Bank(c, a.addrs[t]) == q % n
    {
      NumbersOfLane(c, a, t);
      SameRemainder(n, q, t - lo);
    }
    forall t, u | t in lanes && u in lanes && t != u
      ensures Word(a.addrs[t]) != Word(a.addrs[u])
    {
      WordNumbers(c, a.addrs[t], a.addrs[u]);
      if t < u { Products(n, t - lo, u - lo); } else { Products(n, u - lo, t - lo); }
    }
    OneBank(c, limited, a, lo, hi, q % n, lanes);
    DifferentWords(c, limited, a, lo, hi, q % n, lanes);
  }

  lemma SameRemainder(n: nat, q: nat, i: nat)
    requires n > 0
    ensures (q + n * i) % n == q % n
  {
    Subwarps.Division(q, n);
    assert q + n * i == n * (q / n + i) + q % n;
    Residue(n, q + n * i, q / n + i, q % n);
  }

  lemma {:induction false} ImageSize(a: Access, lanes: set<nat>)
    requires forall t | t in lanes :: t < |a.addrs|
    requires forall t, u | t in lanes && u in lanes && t != u :: Word(a.addrs[t]) != Word(a.addrs[u])
    ensures |set t | t in lanes :: Word(a.addrs[t])| == |lanes|
  {
    hide Word;
    if x :| x in lanes {
      var all, rest := (set t | t in lanes :: Word(a.addrs[t])), (set t | t in lanes - {x} :: Word(a.addrs[t]));
      ImageSize(a, lanes - {x});
      assert all == rest + {Word(a.addrs[x])};
    }
  }

  lemma DifferentWords(c: Config, limited: bool, a: Access, lo: nat, hi: nat, b: nat, lanes: set<nat>)
    requires c.numShmemBank > 0 && lo <= hi <= |a.addrs| && LanesAt(c, a, lo, hi, b) == lanes
    requires forall t, u | t in lanes && u in lanes && t != u :: Word(a.addrs[t]) != Word(a.addrs[u])
    ensures BankCost(c, limited, a, lo, hi, b) == |lanes|
  {
    hide Bank, Word;
    ImageSize(a, lanes);
    assert WordsAt(c, a, lo, hi, b) == set t | t in lanes :: Word(a.addrs[t]);
    forall w: nat
      ensures !IsBroadcast(c, a, lo, hi, b, w)
    {
      AtMostOne(LanesOn(c, a, lo, hi, b, w));
    }
  }
}
