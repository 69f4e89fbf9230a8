/**
 The byte-wise AES-128 key schedule of aes-op.cpp, forwards and backwards.  The substitution
 table is an arbitrary function: nothing here needs it to be the S-box.
 */
module ByteKeySchedule {
  import opened AesSpec
  import opened AesTheory
  import opened AesWords
  import opened AesKeySchedule
  import opened AesCipher

  /** The entries 0..10 of the rcon table. */
  const RCON: seq<bv8> := [0x8d, 0x01, 0x02, 0x04, 0x08, 0x10, 0x20, 0x40, 0x80, 0x1b, 0x36]

  // ---------------------------------------------------------------- one step, forwards and backwards

  /** SubWord and RotWord of the last column, with the round constant. */
  function Core(f: bv8 -> bv8, last: Column, rc: bv8): Column {
    Column(Xor(f(last.b1), rc), f(last.b2), f(last.b3), f(last.b0))
  }

  function NextKey(f: bv8 -> bv8, k: State, rc: bv8): State {
    var c0 := Add(Core(f, k.c3, rc), k.c0);
    var c1 := Add(c0, k.c1);
    var c2 := Add(c1, k.c2);
    State(c0, c1, c2, Add(c2, k.c3))
  }

  function PrevKey(f: bv8 -> bv8, k: State, rc: bv8): State {
    var c3 := Add(k.c2, k.c3);
    State(Add(Core(f, c3, rc), k.c0), Add(k.c0, k.c1), Add(k.c1, k.c2), c3)
  }

  lemma AddBack(a: Column, b: Column)
    ensures Add(a, Add(a, b)) == b && Add(Add(a, b), b) == a
  {
  }

  lemma PrevOfNext(f: bv8 -> bv8, k: State, rc: bv8)
    ensures PrevKey(f, NextKey(f, k, rc), rc) == k && NextKey(f, PrevKey(f, k, rc), rc) == k
  {
    hide Add, Core;
    var n := NextKey(f, k, rc);
    AddBack(n.c2, k.c3); AddBack(n.c1, k.c2); AddBack(n.c0, k.c1); AddBack(Core(f, k.c3, rc), k.c0);
    var p := PrevKey(f, k, rc);
    AddBack(k.c2, k.c3); AddBack(k.c1, k.c2); AddBack(k.c0, k.c1); AddBack(Core(f, p.c3, rc), k.c0);
  }

  // ---------------------------------------------------------------- the whole schedule

  /** Round key i. */
  function KeyRow(f: bv8 -> bv8, k: State, i: nat): State
    requires i <= 10
  {
    if i == 0 then k else NextKey(f, KeyRow(f, k, i - 1), RCON[i])
  }

  /** Round key i computed back from round key 10. */
  function KeyRowBack(f: bv8 -> bv8, last: State, i: nat): State
    requires i <= 10
    decreases 10 - i
  {
    if i == 10 then last else PrevKey(f, KeyRowBack(f, last, i + 1), RCON[i + 1])
  }

  /** Running the schedule backwards from its last round key passes through every round key. */
  lemma {:induction false} BackRetraces(f: bv8 -> bv8, k: State, i: nat)
    requires i <= 10
    ensures KeyRowBack(f, KeyRow(f, k, 10), i) == KeyRow(f, k, i)
    decreases 10 - i
  {
    hide NextKey, PrevKey;
    if i < 10 {
      BackRetraces(f, k, i + 1);
      PrevOfNext(f, KeyRow(f, k, i), RCON[i + 1]);
    }
  }

  lemma {:induction false} ForwardRetraces(f: bv8 -> bv8, last: State, i: nat)
    requires i <= 10
    ensures KeyRow(f, KeyRowBack(f, last, 0), i) == KeyRowBack(f, last, i)
  {
    hide NextKey, PrevKey;
    if i > 0 {
      ForwardRetraces(f, last, i - 1);
      PrevOfNext(f, KeyRowBack(f, last, i), RCON[i]);
    }
  }

  /** inv_key_expand recovers the cipher key from round key 10, and every block is a round key 10. */
  lemma BackwardsScheduleInverts(f: bv8 -> bv8, k: State, last: State)
    ensures KeyRowBack(f, KeyRow(f, k, 10), 0) == k
    ensures KeyRow(f, KeyRowBack(f, last, 0), 10) == last
  {
    BackRetraces(f, k, 0);
    ForwardRetraces(f, last, 10);
  }

  // ---------------------------------------------------------------- agreement with aes.c and the standard

  function KeyColumns(k: State): seq<Column> {
    [k.c0, k.c1, k.c2, k.c3]
  }

  lemma RconAgrees(i: nat)
    requires 1 <= i <= 10
    ensures RCON[i] == RconByte(i)
  {
    assert RconByte(1) == 0x01 && RconByte(2) == 0x02 && RconByte(3) == 0x04 && RconByte(4) == 0x08
        && RconByte(5) == 0x10;
    assert RconByte(6) == 0x20 && RconByte(7) == 0x40 && RconByte(8) == 0x80 && RconByte(9) == 0x1b
        && RconByte(10) == 0x36;
  }

  lemma CoreIsSubRot(f: bv8 -> bv8, last: Column, j: nat, prev: Column)
    requires 1 <= j <= 10
    ensures Add(Core(f, last, RCON[j]), prev) == Add(prev, Add(Apply(f, RotWord(last)), Rcon(j)))
  {
    hide RconByte, Xor;
    RconAgrees(j);
    var x := Apply(f, RotWord(last));
    XorCommutes(Xor(x.b0, RconByte(j)), prev.b0);
    WithZero(x.b1, prev.b1);
    WithZero(x.b2, prev.b2);
    WithZero(x.b3, prev.b3);
  }

  lemma WithZero(x: bv8, p: bv8)
    ensures Xor(x, p) == Xor(p, Xor(x, 0))
  {
  }

  lemma AddCommutes(a: Column, b: Column)
    ensures Add(a, b) == Add(b, a)
  {
  }

  lemma WordRecurrence(box: SBox, key: seq<Column>, n: nat)
    requires |key| == 4 <= n
    ensures ExpandedWord(box, key, n) ==
            if n % 4 == 0 then Add(ExpandedWord(box, key, n - 4),
                Add(Apply(box.s, RotWord(ExpandedWord(box, key, n - 1))), Rcon(n / 4)))
            else Add(ExpandedWord(box, key, n - 4), ExpandedWord(box, key, n - 1))
  {
    hide Add, Apply, RotWord, Rcon;
  }

  /** For 128-bit keys the byte-wise schedule is the FIPS 197 expansion, which aes.c packs into words. */
  lemma {:induction false} SchedulesAgree(box: SBox, k: State, i: nat)
    requires i <= 10
    ensures KeyRow(box.s, k, i) == ExpandedKey(box, KeyColumns(k), 10)[i]
  {
    hide Add, Core, Apply, RotWord, Rcon;
    var key := KeyColumns(k);
    if i > 0 {
      SchedulesAgree(box, k, i - 1);
      ScheduleStep(box, key, KeyRow(box.s, k, i - 1), i);
    }
  }

  /** The four words of one round key of a 128-bit schedule. */
  lemma RowRecurrence(box: SBox, key: seq<Column>, i: nat)
    requires |key| == 4 && i >= 1
    ensures ExpandedWord(box, key, 4 * i)
         == Add(ExpandedWord(box, key, 4 * i - 4),
             Add(Apply(box.s, RotWord(ExpandedWord(box, key, 4 * i - 1))), Rcon(i)))
    ensures ExpandedWord(box, key, 4 * i + 1) == Add(ExpandedWord(box, key, 4 * i - 3), ExpandedWord(box, key, 4 * i))
    ensures ExpandedWord(box, key, 4 * i + 2)
        == Add(ExpandedWord(box, key, 4 * i - 2), ExpandedWord(box, key, 4 * i + 1))
    ensures ExpandedWord(box, key, 4 * i + 3)
        == Add(ExpandedWord(box, key, 4 * i - 1), ExpandedWord(box, key, 4 * i + 2))
  {
    InGroupOfFour(i);
    hide ExpandedWord, Add, Apply, RotWord, Rcon;
    WordRecurrence(box, key, 4 * i);
    WordRecurrence(box, key, 4 * i + 1);
    WordRecurrence(box, key, 4 * i + 2);
    WordRecurrence(box, key, 4 * i + 3);
  }

  lemma InGroupOfFour(i: nat)
    ensures 4 * i % 4 == 0 && 4 * i / 4 == i && (4 * i + 1) % 4 == 1 && (4 * i + 2) % 4 == 2 && (4 * i + 3) % 4 == 3
  {
  }

  lemma ScheduleStep(box: SBox, key: seq<Column>, p: State, i: nat)
    requires |key| == 4 && 1 <= i <= 10 && p == ExpandedKey(box, key, 10)[i - 1]
    ensures NextKey(box.s, p, RCON[i]) == ExpandedKey(box, key, 10)[i]
  {
    hide Add, Core, Apply, RotWord, Rcon, ExpandedWord;
    var n := NextKey(box.s, p, RCON[i]);
    CoreIsSubRot(box.s, p.c3, i, p.c0);
    RowRecurrence(box, key, i);
    AddCommutes(n.c0, p.c1);
    AddCommutes(n.c1, p.c2);
    AddCommutes(n.c2, p.c3);
  }

  /** Column j of row i, packed big-endian, is word 4i + j of the schedule that AES_set_encrypt_key
      leaves in rd_key for the same 128-bit key. */
  lemma RowsAreWords(box: SBox, userKey: seq<bv8>, words: seq<Word>, i: nat, j: nat)
    requires |userKey| >= 16 && |words| >= 44 && Expanded(words, box, KeyWords(userKey, 4), 44)
    requires i <= 10 && j < 4
    ensures words[4 * i + j] == Pack(ColumnAt(KeyRow(box.s, BlockState(userKey[..16]), i), j))
  {
    hide Pack, KeyRow, ExpandedWord;
    var k := BlockState(userKey[..16]);
    assert KeyWords(userKey, 4) == KeyColumns(k);
    SchedulesAgree(box, k, i);
    assert ColumnAt(ExpandedKey(box, KeyColumns(k), 10)[i], j) == ExpandedWord(box, KeyColumns(k), 4 * i + j);
  }

  // ---------------------------------------------------------------- the loops

  function Row(table: array2<bv8>, i: nat): (b: seq<bv8>)
    requires i < table.Length0 && table.Length1 == 16
    reads table
    ensures |b| == 16
  {
    seq(16, k requires 0 <= k < 16 reads table => table[i, k])
  }

  /** `next` holds t xor the first column, then each byte xors the one a column back. */
  lemma ChainIsNextKey(f: bv8 -> bv8, prev: seq<bv8>, next: seq<bv8>, t: seq<bv8>, rc: bv8)
    requires |prev| == |next| == 16 && |t| == 4
    requires Column(t[0], t[1], t[2], t[3]) == Core(f, BlockState(prev).c3, rc)
    requires forall j | 0 <= j < 4 :: next[j] == Xor(t[j], prev[j])
    requires forall m | 4 <= m < 16 :: next[m] == Xor(next[m - 4], prev[m])
    ensures BlockState(next) == NextKey(f, BlockState(prev), rc)
  {
    hide Xor, Core;
  }

  lemma ChainIsPrevKey(f: bv8 -> bv8, prev: seq<bv8>, next: seq<bv8>, t: seq<bv8>, rc: bv8)
    requires |prev| == |next| == 16 && |t| == 4
    requires Column(t[0], t[1], t[2], t[3]) == Core(f, BlockState(prev).c3, rc)
    requires forall j | 0 <= j < 4 :: prev[j] == Xor(t[j], next[j])
    requires forall m | 4 <= m < 16 :: prev[m] == Xor(next[m - 4], next[m])
    ensures BlockState(prev) == PrevKey(f, BlockState(next), rc)
  {
    hide Xor, Core;
  }

  /** last = the last column of row i; t = the rotated, substituted column with the round constant. */
  method RotateSubstitute(f: bv8 -> bv8, table: array2<bv8>, i: nat, rc: bv8) returns (r: seq<bv8>)
    requires i < table.Length0 && table.Length1 == 16
    ensures |r| == 4 && Column(r[0], r[1], r[2], r[3]) == Core(f, BlockState(Row(table, i)).c3, rc)
  {
    hide Xor;
    var last, t := new bv8[4], new bv8[4];
    for j := 0 to 4
      modifies last
      invariant forall m | 0 <= m < j :: last[m] == table[i, m + 12]
    {
      last[j] := table[i, j + 12];
    }
    for j := 0 to 4
      modifies t
      invariant forall m | 0 <= m < j && m < 3 :: t[m] == f(last[m + 1])
      invariant j == 4 ==> t[3] == f(last[0])
    {
      if j != 3 {
        t[j] := last[j + 1];
        t[j] := f(t[j]);
      } else {
        t[3] := last[0];
        t[3] := f(t[3]);
      }
    }
    t[0] := Xor(t[0], rc);
    LastColumn(Row(table, i), last[..]);
    r := t[..];
  }

  lemma LastColumn(b: seq<bv8>, last: seq<bv8>)
    requires |b| == 16 && |last| == 4 && forall m | 0 <= m < 4 :: last[m] == b[m + 12]
    ensures BlockState(b).c3 == Column(last[0], last[1], last[2], last[3])
  {
  }

  /** key_expand: fills rows 0..10 with the round keys. */
  method KeyExpand(f: bv8 -> bv8, keyIn: array<bv8>, keyOut: array2<bv8>)
    requires keyIn.Length == 16 && keyOut.Length0 == 11 && keyOut.Length1 == 16
    modifies keyOut
    ensures forall i | 0 <= i <= 10 :: BlockState(Row(keyOut, i)) == KeyRow(f, BlockState(keyIn[..]), i)
  {
    hide NextKey, BlockState, Row;
    CopyIntoRow(keyIn, keyOut, 0);
    for i := 1 to 11
      invariant forall r | 0 <= r < i :: BlockState(Row(keyOut, r)) == KeyRow(f, BlockState(keyIn[..]), r)
    {
      NextRow(f, keyOut, i);
    }
  }

  /** Row `i` of the table is the only one that may differ. */
  twostate predicate OnlyRow(table: array2<bv8>, i: nat)
    reads table
  {
    forall r, n | 0 <= r < table.Length0 && r != i && 0 <= n < table.Length1 :: table[r, n] == old(table[r, n])
  }

  /** The first column of row `i`: t xor the first column of row `src`. */
  method XorHead(table: array2<bv8>, i: nat, src: nat, t: seq<bv8>)
    requires table.Length1 == 16 && i < table.Length0 && src < table.Length0 && i != src && |t| == 4
    modifies table
    ensures OnlyRow(table, i)
    ensures forall n | 0 <= n < 4 :: table[i, n] == Xor(t[n], table[src, n])
    ensures forall n | 4 <= n < 16 :: table[i, n] == old(table[i, n])
  {
    hide Xor;
    for j := 0 to 4
      invariant OnlyRow(table, i)
      invariant forall n | 0 <= n < j :: table[i, n] == Xor(t[n], table[src, n])
      invariant forall n | 4 <= n < 16 :: table[i, n] == old(table[i, n])
    {
      table[i, j] := Xor(t[j], table[src, j]);
    }
  }

  method XorColumn(table: array2<bv8>, i: nat, left: nat, src: nat, j: nat)
    requires table.Length1 == 16 && i < table.Length0 && left < table.Length0 && src < table.Length0 && i != src
        && j < 3
    modifies table
    ensures OnlyRow(table, i)
    ensures forall n | 0 <= n < 16 && !(4 * j + 4 <= n < 4 * j + 8) :: table[i, n] == old(table[i, n])
    ensures forall n | 4 * j + 4 <= n < 4 * j + 8 :: table[i, n] == Xor(table[left, n - 4], table[src, n])
  {
    hide Xor;
    var c := j * 4;
    ghost var back, same := Row(table, left), Row(table, src);
    for k := 4 to 8
      invariant OnlyRow(table, i)
      invariant forall n | 0 <= n < c + 4 || c + k <= n < 16 :: table[i, n] == old(table[i, n])
      invariant forall n | c + 4 <= n < c + k :: table[i, n] == Xor(back[n - 4], same[n])
    {
      assert table[left, c + k - 4] == back[c + k - 4] && table[src, c + k] == same[c + k];
      table[i, c + k] := Xor(table[left, c + k - 4], table[src, c + k]);
    }
  }

  /** Columns 1..3 of row `i`: each byte is the one a column back in row `left`, xor row `src`. */
  method XorTail(table: array2<bv8>, i: nat, left: nat, src: nat)
    requires table.Length1 == 16 && i < table.Length0 && left < table.Length0 && src < table.Length0 && i != src
    modifies table
    ensures OnlyRow(table, i)
    ensures forall n | 0 <= n < 4 :: table[i, n] == old(table[i, n])
    ensures forall n | 4 <= n < 16 :: table[i, n] == Xor(table[left, n - 4], table[src, n])
  {
    hide Xor;
    for j := 0 to 3
      invariant OnlyRow(table, i)
      invariant forall n | 0 <= n < 4 :: table[i, n] == old(table[i, n])
      invariant forall n | 4 <= n < 4 * j + 4 :: table[i, n] == Xor(table[left, n - 4], table[src, n])
    {
      XorColumn(table, i, left, src, j);
    }
  }

  /** Row `i`, byte by byte, from row `src` and the transformed column t. */
  method FillRow(table: array2<bv8>, i: nat, src: nat, t: seq<bv8>)
    requires table.Length1 == 16 && i < table.Length0 && src < table.Length0 && i != src && |t| == 4
    modifies table
    ensures forall r | 0 <= r < table.Length0 && r != i :: Row(table, r) == old(Row(table, r))
    ensures var (next, prev) := (Row(table, i), Row(table, src));
            && (forall j | 0 <= j < 4 :: next[j] == Xor(t[j], prev[j]))
            && (forall m | 4 <= m < 16 :: next[m] == Xor(next[m - 4], prev[m]))
  {
    hide Xor;
    XorHead(table, i, src, t);
    XorTail(table, i, i, src);
  }

  method NextRow(f: bv8 -> bv8, keyOut: array2<bv8>, i: nat)
    requires keyOut.Length0 == 11 && keyOut.Length1 == 16 && 1 <= i <= 10
    modifies keyOut
    ensures BlockState(Row(keyOut, i)) == NextKey(f, BlockState(Row(keyOut, i - 1)), RCON[i])
    ensures forall r | 0 <= r <= 10 && r != i :: Row(keyOut, r) == old(Row(keyOut, r))
  {
    hide NextKey, Core, Xor, BlockState, Row;
    var t := RotateSubstitute(f, keyOut, i - 1, RCON[i]);
    FillRow(keyOut, i, i - 1, t);
    ChainIsNextKey(f, Row(keyOut, i - 1), Row(keyOut, i), t, RCON[i]);
  }

  method PrevRow(f: bv8 -> bv8, table: array2<bv8>, i: nat)
    requires table.Length0 == 11 && table.Length1 == 16 && i <= 9
    modifies table
    ensures BlockState(Row(table, i)) == PrevKey(f, BlockState(Row(table, i + 1)), RCON[i + 1])
    ensures forall r | 0 <= r <= 10 && r != i :: Row(table, r) == old(Row(table, r))
  {
    hide PrevKey, Core, Xor, BlockState;
    ghost var next := Row(table, i + 1);
    XorTail(table, i, i + 1, i + 1);
    var t := RotateSubstitute(f, table, i, RCON[i + 1]);
    ghost var half := Row(table, i);
    XorHead(table, i, i + 1, t);
    assert Row(table, i + 1) == next;
    assert forall n | 12 <= n < 16 :: half[n] == Row(table, i)[n];
    SameLastColumn(half, Row(table, i));
    ChainIsPrevKey(f, Row(table, i), next, t, RCON[i + 1]);
  }

  lemma SameLastColumn(a: seq<bv8>, b: seq<bv8>)
    requires |a| == |b| == 16 && forall n | 12 <= n < 16 :: a[n] == b[n]
    ensures BlockState(a).c3 == BlockState(b).c3
  {
  }

  method CopyIntoRow(b: array<bv8>, table: array2<bv8>, i: nat)
    requires b.Length == 16 && table.Length1 == 16 && i < table.Length0
    modifies table
    ensures Row(table, i) == b[..]
    ensures forall r | 0 <= r < table.Length0 && r != i :: Row(table, r) == old(Row(table, r))
  {
    for m := 0 to 16
      invariant forall n | 0 <= n < m :: table[i, n] == b[n]
      invariant forall r, n | 0 <= r < table.Length0 && r != i && 0 <= n < 16 :: table[r, n] == old(table[r, n])
    {
      table[i, m] := b[m];
    }
  }

  method CopyFromRow(table: array2<bv8>, i: nat, b: array<bv8>)
    requires b.Length == 16 && table.Length1 == 16 && i < table.Length0
    modifies b
    ensures b[..] == Row(table, i)
  {
    for m := 0 to 16
      invariant forall n | 0 <= n < m :: b[n] == table[i, n]
    {
      b[m] := table[i, m];
    }
  }

  /** inv_key_expand: from round key 10 back to the cipher key. */
  method InvKeyExpand(f: bv8 -> bv8, keyOut: array<bv8>, keyIn: array<bv8>)
    requires keyOut.Length == 16 && keyIn.Length == 16
    modifies keyIn
    ensures BlockState(keyIn[..]) == KeyRowBack(f, BlockState(old(keyOut[..])), 0)
  {
    hide PrevKey, BlockState, Row;
    var table := new bv8[11, 16]((i, j) => 0);
    ghost var last := keyOut[..];
    CopyIntoRow(keyOut, table, 10);
    for i := 10 downto 0
      modifies table
      invariant forall r | i <= r <= 10 :: BlockState(Row(table, r)) == KeyRowBack(f, BlockState(last), r)
    {
      PrevRow(f, table, i);
    }
    CopyFromRow(table, 0, keyIn);
  }
}
