/**
 The cost of a shared-memory instruction: every bank serves one word at a time, and lanes that read
 the same word may share the access, always or in the first broadcast word only.
 */
module SharedMemory {
  import opened Ordered
  import Subwarps

  const WORD_SIZE := 4
  const ADDRESS_LIMIT := 0x1_0000_0000

  datatype Config = Config(warpSize: nat, memWarpParts: nat, numShmemBank: nat, shmemLimitedBroadcast: bool)

  /** A warp's shared-memory instruction: the active lanes and the address of each lane. */
  datatype Access = Access(active: set<nat>, addrs: seq<nat>)

  ghost predicate Valid(c: Config, a: Access) {
    && c.memWarpParts > 0 && c.warpSize % c.memWarpParts == 0 && c.numShmemBank > 0
    && |a.addrs| == c.warpSize && forall t | t in a.active :: t < c.warpSize
  }

  // ---------------------------------------------------------------- what the source counts

  /** How often each word of each bank is accessed. */
  type Tally = map<nat, map<nat, nat>>

  /** `shmem_bank_func` takes a 32-bit address. */
  function Bank(c: Config, addr: nat): nat
    requires c.numShmemBank > 0
  {
    addr % ADDRESS_LIMIT / WORD_SIZE % c.numShmemBank
  }

  function Word(addr: nat): nat {
    (addr - addr % WORD_SIZE) % ADDRESS_LIMIT
  }

  function CountAt(t: Tally, b: nat, w: nat): nat {
    if b in t && w in t[b] then t[b][w] else 0
  }

  function Counted(c: Config, t: Tally, addr: nat): Tally
    requires c.numShmemBank > 0
  {
    var b, w := Bank(c, addr), Word(addr);
    t[b := (if b in t then t[b] else map[])[w := CountAt(t, b, w) + 1]]
  }

  /** `bank_accs` after these addresses. */
  function Tallied(c: Config, accs: seq<nat>): Tally
    requires c.numShmemBank > 0
  {
    if accs == [] then map[] else Counted(c, Tallied(c, accs[..|accs| - 1]), accs[|accs| - 1])
  }

  /** The number of accesses to the listed words of one bank. */
  function Sum(m: map<nat, nat>, words: seq<nat>): nat
    requires forall w | w in words :: w in m
  {
    if words == [] then 0 else Sum(m, words[..|words| - 1]) + m[words[|words| - 1]]
  }

  /** Where a word is accessed more than once: the first such bank, and in it the first such word. */
  datatype Broadcast = None | At(bank: nat, word: nat)

  function Shared(m: map<nat, nat>): set<nat> {
    set w | w in m && m[w] > 1
  }

  function SharedBanks(t: Tally): set<nat> {
    set b | b in t && Shared(t[b]) != {}
  }

  function Detected(t: Tally): Broadcast {
    if SharedBanks(t) == {} then None
    else
      var b: nat := Least(SharedBanks(t));
      var w: nat := Least(Shared(t[b]));
      At(b, w)
  }

  /** The accesses of one bank when only the broadcast word is shared. */
  function LimitedCost(t: Tally, bc: Broadcast, b: nat): int
    requires b in t && (bc.At? && bc.bank == b ==> bc.word in t[b])
  {
    var all := Sum(t[b], Sorted(t[b].Keys));
    if bc.At? && bc.bank == b then all - t[b][bc.word] + 1 else all
  }

  ghost predicate Proper(t: Tally, bc: Broadcast) {
    bc.At? ==> bc.bank in t && bc.word in t[bc.bank] && t[bc.bank][bc.word] > 1
  }

  function Cost(t: Tally, limited: bool, b: nat): int
    requires b in t
  {
    if limited then LimitedCost(t, Detected(t), b) else |t[b]|
  }

  function MaxCost(t: Tally, limited: bool, banks: seq<nat>): int
    requires forall b | b in banks :: b in t
  {
    if banks == [] then 0
    else
      var m, c := MaxCost(t, limited, banks[..|banks| - 1]), Cost(t, limited, banks[|banks| - 1]);
      if c > m then c else m
  }

  /** The cost of one subwarp that makes these accesses. */
  function SubwarpCost(c: Config, limited: bool, accs: seq<nat>): int
    requires c.numShmemBank > 0
  {
    MaxCost(Tallied(c, accs), limited, Sorted(Tallied(c, accs).Keys))
  }

  /** The addresses of the active lanes in [lo, hi). */
  function LaneAddrs(a: Access, lo: nat, hi: nat): seq<nat>
    requires lo <= hi <= |a.addrs|
  {
    if lo == hi then []
    else if hi - 1 in a.active then LaneAddrs(a, lo, hi - 1) + [a.addrs[hi - 1]]
    else LaneAddrs(a, lo, hi - 1)
  }

  function Start(c: Config, part: nat): nat
    requires c.memWarpParts > 0
  {
    Subwarps.First(c.warpSize, c.memWarpParts, part)
  }

  lemma SubwarpFits(c: Config, part: nat)
    requires c.memWarpParts > 0 && c.warpSize % c.memWarpParts == 0 && part < c.memWarpParts
    ensures Start(c, part) <= Start(c, part + 1) <= c.warpSize
  {
    Subwarps.Fits(c.warpSize, c.memWarpParts, part);
  }

  /** `total_accesses` over the first `n` subwarps. */
  function Total(c: Config, limited: bool, a: Access, n: nat): int
    requires Valid(c, a) && n <= c.memWarpParts
  {
    if n == 0 then 0
    else
      SubwarpFits(c, n - 1);
      Total(c, limited, a, n - 1) + SubwarpCost(c, limited, LaneAddrs(a, Start(c, n - 1), Start(c, n)))
  }

  // ---------------------------------------------------------------- the method

  method CountAccess(c: Config, t: Tally, addr: nat) returns (r: Tally)
    requires c.numShmemBank > 0
    ensures r == Counted(c, t, addr)
  {
    var bank, word := Bank(c, addr), Word(addr);
    var words := if bank in t then t[bank] else map[];
    var n := if word in words then words[word] else 0;
    r := t[bank := words[word := n + 1]];
  }

  /** Step 1 */
  method CountLanes(c: Config, a: Access, lo: nat, hi: nat) returns (t: Tally)
    requires c.numShmemBank > 0 && lo <= hi <= |a.addrs|
    ensures t == Tallied(c, LaneAddrs(a, lo, hi))
  {
    hide Counted;
    t := map[];
    for thread := lo to hi
      invariant t == Tallied(c, LaneAddrs(a, lo, thread))
    {
      if thread in a.active {
        TallyOneMore(c, LaneAddrs(a, lo, thread), a.addrs[thread]);
        t := CountAccess(c, t, a.addrs[thread]);
      }
    }
  }

  lemma TallyOneMore(c: Config, accs: seq<nat>, addr: nat)
    requires c.numShmemBank > 0
    ensures Tallied(c, accs + [addr]) == Counted(c, Tallied(c, accs), addr)
  {
    assert (accs + [addr])[..|accs|] == accs;
  }

  method FindShared(m: map<nat, nat>) returns (found: bool, word: nat)
    ensures found <==> Shared(m) != {}
    ensures found ==> word == Least(Shared(m))
  {
    var words := Sorted(m.Keys);
    hide Sorted, Least;
    for k := 0 to |words|
      invariant forall j | 0 <= j < k :: words[j] !in Shared(m)
    {
      if m[words[k]] > 1 {
        assert words[k] in Shared(m);
        LeastOf(Shared(m), m.Keys, words, k);
        return true, words[k];
      }
    }
    assert Shared(m) == {};
    return false, 0;
  }

  /** Step 2 of limited broadcast. */
  method DetectBroadcast(t: Tally) returns (bc: Broadcast)
    ensures bc == Detected(t)
  {
    var banks := Sorted(t.Keys);
    hide Sorted, Least, Shared;
    for i := 0 to |banks|
      invariant forall j | 0 <= j < i :: banks[j] !in SharedBanks(t)
    {
      var found, word := FindShared(t[banks[i]]);
      if found {
        assert banks[i] in SharedBanks(t);
        LeastOf(SharedBanks(t), t.Keys, banks, i);
        return At(banks[i], word);
      }
    }
    assert SharedBanks(t) == {};
    return None;
  }

  /** The first key of an ordered map that lies in a set is the least of the set. */
  lemma LeastOf(s: set<nat>, all: set<nat>, keys: seq<nat>, i: nat)
    requires s <= all && keys == Sorted(all) && i < |keys| && keys[i] in s
    requires forall j | 0 <= j < i :: keys[j] !in s
    ensures Least(s) == keys[i]
  {
    hide Sorted, Least;
    var m: nat := Least(s);
    var j :| 0 <= j < |keys| && keys[j] == m;
  }

  lemma SumNext(m: map<nat, nat>, words: seq<nat>, i: nat)
    requires i < |words| && forall w | w in words :: w in m
    ensures Sum(m, words[..i + 1]) == Sum(m, words[..i]) + m[words[i]]
  {
    assert words[..i + 1][..i] == words[..i];
  }

  method SumAccesses(m: map<nat, nat>, words: seq<nat>) returns (n: nat)
    requires forall w | w in words :: w in m
    ensures n == Sum(m, words)
  {
    n := 0;
    for i := 0 to |words|
      invariant n == Sum(m, words[..i])
    {
      SumNext(m, words, i);
      n := n + m[words[i]];
    }
    assert words[..|words|] == words;
  }

  /** The search for the broadcast word among the words of its bank. */
  method FindWord(words: seq<nat>, word: nat) returns (i: nat)
    requires word in words
    ensures i < |words| && words[i] == word
  {
    i := 0;
    while words[i] != word
      invariant i < |words| && exists k :: i <= k < |words| && words[k] == word
      decreases |words| - i
    {
      i := i + 1;
    }
  }

  /** Step 3 for one bank. */
  method LimitedAccesses(t: Tally, bc: Broadcast, b: nat) returns (n: int)
    requires b in t && Proper(t, bc)
    ensures n == LimitedCost(t, bc, b)
  {
    var words := Sorted(t[b].Keys);
    hide Sorted, Sum;
    n := SumAccesses(t[b], words);
    if bc.At? && bc.bank == b {
      var i := FindWord(words, bc.word);
      n := n - (t[b][words[i]] - 1);
    }
  }

  lemma MaxNext(t: Tally, limited: bool, banks: seq<nat>, i: nat)
    requires i < |banks| && forall b | b in banks :: b in t
    ensures var m, n := MaxCost(t, limited, banks[..i]), Cost(t, limited, banks[i]);
            MaxCost(t, limited, banks[..i + 1]) == if n > m then n else m
  {
    assert banks[..i + 1][..i] == banks[..i];
  }

  method BankAccesses(t: Tally, limited: bool, bc: Broadcast, b: nat) returns (n: int)
    requires b in t && (limited ==> bc == Detected(t))
    ensures n == Cost(t, limited, b)
  {
    if limited {
      DetectedProper(t);
      n := LimitedAccesses(t, bc, b);
    } else {
      n := |t[b]|;
    }
  }

  /** Step 3 with limited broadcast, steps 2 and 3 without. */
  method MaxBankAccesses(t: Tally, limited: bool) returns (most: int)
    ensures most == MaxCost(t, limited, Sorted(t.Keys))
  {
    var bc := None;
    if limited {
      bc := DetectBroadcast(t);
    }
    var banks := Sorted(t.Keys);
    hide Sorted, Cost, Detected;
    most := 0;
    for i := 0 to |banks|
      invariant most == MaxCost(t, limited, banks[..i])
    {
      MaxNext(t, limited, banks, i);
      var n := BankAccesses(t, limited, bc, banks[i]);
      if n > most { most := n; }
    }
    assert banks[..|banks|] == banks;
  }

  lemma DetectedProper(t: Tally)
    ensures Proper(t, Detected(t))
  {
    if SharedBanks(t) != {} {
      var b: nat := Least(SharedBanks(t));
      var w: nat := Least(Shared(t[b]));
    }
  }

  /** The shared-memory case of generate_mem_accesses. */
  method BankConflicts(c: Config, a: Access) returns (total: int)
    requires Valid(c, a)
    ensures total == Total(c, c.shmemLimitedBroadcast, a, c.memWarpParts)
  {
    hide Tallied, LaneAddrs, MaxCost, Sorted;
    total := 0;
    for subwarp := 0 to c.memWarpParts
      invariant total == Total(c, c.shmemLimitedBroadcast, a, subwarp)
    {
      SubwarpFits(c, subwarp);
      var subwarpSize := c.warpSize / c.memWarpParts;
      var first, end := subwarp * subwarpSize, (subwarp + 1) * subwarpSize;
      assert first == Start(c, subwarp) && end == Start(c, subwarp + 1);
      var t := CountLanes(c, a, first, end);
      var most := MaxBankAccesses(t, c.shmemLimitedBroadcast);
      total := total + most;
    }
  }
}
