/** The block routines of aes.c: AES_encrypt, AES_decrypt and the table-index recorder AES_enc. */
module AesCipher {
  import opened AesSpec
  import opened AesTheory
  import opened AesWords
  import opened AesKeySchedule

  // ---------------------------------------------------------------- blocks

  /** Section 3.4 of FIPS 197: byte r + 4c of a block is row r, column c of the state. */
  function BlockState(b: seq<bv8>): State
    requires |b| == 16
  {
    State(Column(b[0], b[1], b[2], b[3]), Column(b[4], b[5], b[6], b[7]),
          Column(b[8], b[9], b[10], b[11]), Column(b[12], b[13], b[14], b[15]))
  }

  function ColumnAt(s: State, c: nat): Column {
    if c == 0 then s.c0 else if c == 1 then s.c1 else if c == 2 then s.c2 else s.c3
  }

  function RowAt(c: Column, r: nat): bv8 {
    if r == 0 then c.b0 else if r == 1 then c.b1 else if r == 2 then c.b2 else c.b3
  }

  function StateBlock(s: State): (b: seq<bv8>)
    ensures |b| == 16 && BlockState(b) == s
  {
    seq(16, k requires 0 <= k < 16 => RowAt(ColumnAt(s, k / 4), k % 4))
  }

  /** Four words that hold a state. */
  ghost predicate Packs(s: State, w0: Word, w1: Word, w2: Word, w3: Word) {
    w0 == Pack(s.c0) && w1 == Pack(s.c1) && w2 == Pack(s.c2) && w3 == Pack(s.c3)
  }

  lemma PacksSmall(s: State, w0: Word, w1: Word, w2: Word, w3: Word)
    requires Packs(s, w0, w1, w2, w3)
    ensures w0 < LIMIT && w1 < LIMIT && w2 < LIMIT && w3 < LIMIT
    ensures State(Unpack(w0), Unpack(w1), Unpack(w2), Unpack(w3)) == s
  {
    hide Pack, Unpack;
    UnpackPack(s.c0); UnpackPack(s.c1); UnpackPack(s.c2); UnpackPack(s.c3);
  }

  lemma KeyPacks(words: seq<Word>, nr: nat, r: nat)
    requires r <= nr && nr > 0 && 4 * (nr + 1) <= |words| && Small(words, 4 * (nr + 1))
    ensures Packs(ScheduleOf(words, nr)[r], words[4 * r], words[4 * r + 1], words[4 * r + 2], words[4 * r + 3])
  {
    hide Pack, Unpack;
    PackUnpack(words[4 * r]); PackUnpack(words[4 * r + 1]); PackUnpack(words[4 * r + 2]); PackUnpack(words[4 * r + 3]);
  }

  // ---------------------------------------------------------------- rounds on words

  lemma InitialAdd(x: State, k: State, x0: Word, x1: Word, x2: Word, x3: Word, k0: Word, k1: Word, k2: Word, k3: Word)
    requires Packs(x, x0, x1, x2, x3) && Packs(k, k0, k1, k2, k3)
    ensures Packs(AddRoundKey(x, k), WXor(x0, k0), WXor(x1, k1), WXor(x2, k2), WXor(x3, k3))
  {
    hide Pack, WXor, Add;
    PackAdd(x.c0, k.c0); PackAdd(x.c1, k.c1); PackAdd(x.c2, k.c2); PackAdd(x.c3, k.c3);
  }

  lemma EncRound(box: SBox, s: State, k: State, w0: Word, w1: Word, w2: Word, w3: Word, k0: Word, k1: Word, k2: Word,
      k3: Word)
    requires Packs(s, w0, w1, w2, w3) && Packs(k, k0, k1, k2, k3)
    ensures w0 < LIMIT && w1 < LIMIT && w2 < LIMIT && w3 < LIMIT
    ensures Packs(AddRoundKey(MixColumns(ShiftRows(SubBytes(box.s, s))), k),
                  EncWord(box, w0, w1, w2, w3, k0), EncWord(box, w1, w2, w3, w0, k1),
                  EncWord(box, w2, w3, w0, w1, k2), EncWord(box, w3, w0, w1, w2, k3))
  {
    hide Pack, Add, MixColumn, EncWord;
    EncWordIsRound(box, s.c0, s.c1, s.c2, s.c3, k.c0);
    EncWordIsRound(box, s.c1, s.c2, s.c3, s.c0, k.c1);
    EncWordIsRound(box, s.c2, s.c3, s.c0, s.c1, k.c2);
    EncWordIsRound(box, s.c3, s.c0, s.c1, s.c2, k.c3);
  }

  lemma EncLast(box: SBox, s: State, k: State, w0: Word, w1: Word, w2: Word, w3: Word, k0: Word, k1: Word, k2: Word,
      k3: Word)
    requires Packs(s, w0, w1, w2, w3) && Packs(k, k0, k1, k2, k3)
    ensures w0 < LIMIT && w1 < LIMIT && w2 < LIMIT && w3 < LIMIT
    ensures Packs(AddRoundKey(ShiftRows(SubBytes(box.s, s)), k),
                  LastWord(box.s, w0, w1, w2, w3, k0), LastWord(box.s, w1, w2, w3, w0, k1),
                  LastWord(box.s, w2, w3, w0, w1, k2), LastWord(box.s, w3, w0, w1, w2, k3))
  {
    hide Pack, Add, LastWord;
    LastWordIsRound(box.s, s.c0, s.c1, s.c2, s.c3, k.c0);
    LastWordIsRound(box.s, s.c1, s.c2, s.c3, s.c0, k.c1);
    LastWordIsRound(box.s, s.c2, s.c3, s.c0, s.c1, k.c2);
    LastWordIsRound(box.s, s.c3, s.c0, s.c1, s.c2, k.c3);
  }

  lemma DecRound(box: SBox, s: State, k: State, w0: Word, w1: Word, w2: Word, w3: Word, k0: Word, k1: Word, k2: Word,
      k3: Word)
    requires Packs(s, w0, w1, w2, w3) && Packs(k, k0, k1, k2, k3)
    ensures w0 < LIMIT && w1 < LIMIT && w2 < LIMIT && w3 < LIMIT
    ensures Packs(AddRoundKey(InvMixColumns(InvShiftRows(SubBytes(box.si, s))), k),
                  DecWord(box, w0, w3, w2, w1, k0), DecWord(box, w1, w0, w3, w2, k1),
                  DecWord(box, w2, w1, w0, w3, k2), DecWord(box, w3, w2, w1, w0, k3))
  {
    hide Pack, Add, InvMixColumn, DecWord;
    DecWordIsRound(box, s.c0, s.c3, s.c2, s.c1, k.c0);
    DecWordIsRound(box, s.c1, s.c0, s.c3, s.c2, k.c1);
    DecWordIsRound(box, s.c2, s.c1, s.c0, s.c3, k.c2);
    DecWordIsRound(box, s.c3, s.c2, s.c1, s.c0, k.c3);
  }

  lemma DecLast(box: SBox, s: State, k: State, w0: Word, w1: Word, w2: Word, w3: Word, k0: Word, k1: Word, k2: Word,
      k3: Word)
    requires Packs(s, w0, w1, w2, w3) && Packs(k, k0, k1, k2, k3)
    ensures w0 < LIMIT && w1 < LIMIT && w2 < LIMIT && w3 < LIMIT
    ensures Packs(AddRoundKey(InvShiftRows(SubBytes(box.si, s)), k),
                  LastWord(box.si, w0, w3, w2, w1, k0), LastWord(box.si, w1, w0, w3, w2, k1),
                  LastWord(box.si, w2, w1, w0, w3, k2), LastWord(box.si, w3, w2, w1, w0, k3))
  {
    hide Pack, Add, LastWord;
    LastWordIsRound(box.si, s.c0, s.c3, s.c2, s.c1, k.c0);
    LastWordIsRound(box.si, s.c1, s.c0, s.c3, s.c2, k.c1);
    LastWordIsRound(box.si, s.c2, s.c1, s.c0, s.c3, k.c2);
    LastWordIsRound(box.si, s.c3, s.c2, s.c1, s.c0, k.c3);
  }

  // ---------------------------------------------------------------- memory

  method PutU32(ct: array<bv8>, at: nat, st: Word)
    requires at + 4 <= ct.Length
    modifies ct
    ensures Column(ct[at], ct[at + 1], ct[at + 2], ct[at + 3]) == Unpack(st)
    ensures forall k | 0 <= k < ct.Length && !(at <= k < at + 4) :: ct[k] == old(ct[k])
  {
    ct[at] := ((st >> 24) & 0xff) as bv8;
    ct[at + 1] := ((st >> 16) & 0xff) as bv8;
    ct[at + 2] := ((st >> 8) & 0xff) as bv8;
    ct[at + 3] := (st & 0xff) as bv8;
  }

  /** The four PUTU32 at the end of a block routine. */
  method StoreBlock(out: array<bv8>, at: nat, s0: Word, s1: Word, s2: Word, s3: Word, ghost s: State)
    requires at + 16 <= out.Length && Packs(s, s0, s1, s2, s3)
    modifies out
    ensures out[at..at + 16] == StateBlock(s)
    ensures forall k | 0 <= k < out.Length && !(at <= k < at + 16) :: out[k] == old(out[k])
  {
    hide Unpack, Pack, StateBlock;
    PacksSmall(s, s0, s1, s2, s3);
    PutU32(out, at, s0);
    PutU32(out, at + 4, s1);
    PutU32(out, at + 8, s2);
    PutU32(out, at + 12, s3);
    ghost var b := out[at..at + 16];
    assert forall k | 0 <= k < 16 :: b[k] == out[at + k];
    ColumnsMakeBlock(b, s);
  }

  // ---------------------------------------------------------------- the steps of the routines

  ghost predicate Scheduled(words: seq<Word>, nr: nat) {
    nr > 0 && 4 * (nr + 1) <= |words| && Small(words, 4 * (nr + 1))
  }

  /** s = GETU32(in) ^ rk, for the four words of a block. */
  method LoadBlock(src: array<bv8>, at: nat, rd: array<Word>, ghost nr: nat)
      returns (s0: Word, s1: Word, s2: Word, s3: Word)
    requires at + 16 <= src.Length && 4 <= rd.Length && Scheduled(rd[..], nr)
    ensures Packs(AddRoundKey(BlockState(src[at..at + 16]), ScheduleOf(rd[..], nr)[0]), s0, s1, s2, s3)
  {
    hide Pack, WXor, AddRoundKey;
    KeyPacks(rd[..], nr, 0);
    InitialAdd(BlockState(src[at..at + 16]), ScheduleOf(rd[..], nr)[0],
               GetU32(src, at), GetU32(src, at + 4), GetU32(src, at + 8), GetU32(src, at + 12),
               rd[0], rd[1], rd[2], rd[3]);
    s0 := WXor(GetU32(src, at), rd[0]);
    s1 := WXor(GetU32(src, at + 4), rd[1]);
    s2 := WXor(GetU32(src, at + 8), rd[2]);
    s3 := WXor(GetU32(src, at + 12), rd[3]);
  }

  /** One full encryption round with the key words at `rk`. */
  method EncStep(box: SBox, rd: array<Word>, rk: nat, s0: Word, s1: Word, s2: Word, s3: Word, ghost s: State,
      ghost nr: nat, ghost r: nat)
    returns (t0: Word, t1: Word, t2: Word, t3: Word)
    requires Scheduled(rd[..], nr) && r <= nr && rk == 4 * r && rk + 4 <= rd.Length && Packs(s, s0, s1, s2, s3)
    ensures Packs(AddRoundKey(MixColumns(ShiftRows(SubBytes(box.s, s))), ScheduleOf(rd[..], nr)[r]), t0, t1, t2, t3)
  {
    hide Packs, EncWord, AddRoundKey, MixColumns, ShiftRows, SubBytes;
    KeyPacks(rd[..], nr, r);
    EncRound(box, s, ScheduleOf(rd[..], nr)[r], s0, s1, s2, s3, rd[rk], rd[rk + 1], rd[rk + 2], rd[rk + 3]);
    t0 := EncWord(box, s0, s1, s2, s3, rd[rk]);
    t1 := EncWord(box, s1, s2, s3, s0, rd[rk + 1]);
    t2 := EncWord(box, s2, s3, s0, s1, rd[rk + 2]);
    t3 := EncWord(box, s3, s0, s1, s2, rd[rk + 3]);
  }

  /** The last encryption round, stored to `out`. */
  method EncFinish(box: SBox, rd: array<Word>, rk: nat, t0: Word, t1: Word, t2: Word, t3: Word, ghost s: State,
                   ghost nr: nat, out: array<bv8>, at: nat)
    requires Scheduled(rd[..], nr) && rk == 4 * nr && rk + 4 <= rd.Length && Packs(s, t0, t1, t2, t3)
        && at + 16 <= out.Length
    modifies out
    ensures out[at..at + 16] == StateBlock(AddRoundKey(ShiftRows(SubBytes(box.s, s)), ScheduleOf(rd[..], nr)[nr]))
    ensures forall k | 0 <= k < out.Length && !(at <= k < at + 16) :: out[k] == old(out[k])
  {
    hide Packs, LastWord, AddRoundKey, ShiftRows, SubBytes, StateBlock;
    KeyPacks(rd[..], nr, nr);
    EncLast(box, s, ScheduleOf(rd[..], nr)[nr], t0, t1, t2, t3, rd[rk], rd[rk + 1], rd[rk + 2], rd[rk + 3]);
    var s0 := LastWord(box.s, t0, t1, t2, t3, rd[rk]);
    var s1 := LastWord(box.s, t1, t2, t3, t0, rd[rk + 1]);
    var s2 := LastWord(box.s, t2, t3, t0, t1, rd[rk + 2]);
    var s3 := LastWord(box.s, t3, t0, t1, t2, rd[rk + 3]);
    StoreBlock(out, at, s0, s1, s2, s3, AddRoundKey(ShiftRows(SubBytes(box.s, s)), ScheduleOf(rd[..], nr)[nr]));
  }

  /** One full decryption round with the key words at `rk`. */
  method DecStep(box: SBox, rd: array<Word>, rk: nat, s0: Word, s1: Word, s2: Word, s3: Word, ghost s: State,
      ghost nr: nat, ghost r: nat)
    returns (t0: Word, t1: Word, t2: Word, t3: Word)
    requires Scheduled(rd[..], nr) && r <= nr && rk == 4 * r && rk + 4 <= rd.Length && Packs(s, s0, s1, s2, s3)
    ensures Packs(AddRoundKey(InvMixColumns(InvShiftRows(SubBytes(box.si, s))), ScheduleOf(rd[..], nr)[r]),
                  t0, t1, t2, t3)
  {
    hide Packs, DecWord, AddRoundKey, InvMixColumns, InvShiftRows, SubBytes;
    KeyPacks(rd[..], nr, r);
    DecRound(box, s, ScheduleOf(rd[..], nr)[r], s0, s1, s2, s3, rd[rk], rd[rk + 1], rd[rk + 2], rd[rk + 3]);
    t0 := DecWord(box, s0, s3, s2, s1, rd[rk]);
    t1 := DecWord(box, s1, s0, s3, s2, rd[rk + 1]);
    t2 := DecWord(box, s2, s1, s0, s3, rd[rk + 2]);
    t3 := DecWord(box, s3, s2, s1, s0, rd[rk + 3]);
  }

  /** The last decryption round, stored to `out`. */
  method DecFinish(box: SBox, rd: array<Word>, rk: nat, t0: Word, t1: Word, t2: Word, t3: Word, ghost s: State,
                   ghost nr: nat, out: array<bv8>, at: nat)
    requires Scheduled(rd[..], nr) && rk == 4 * nr && rk + 4 <= rd.Length && Packs(s, t0, t1, t2, t3)
        && at + 16 <= out.Length
    modifies out
    ensures out[at..at + 16] == StateBlock(AddRoundKey(InvShiftRows(SubBytes(box.si, s)), ScheduleOf(rd[..], nr)[nr]))
    ensures forall k | 0 <= k < out.Length && !(at <= k < at + 16) :: out[k] == old(out[k])
  {
    hide Packs, LastWord, AddRoundKey, InvShiftRows, SubBytes, StateBlock;
    KeyPacks(rd[..], nr, nr);
    DecLast(box, s, ScheduleOf(rd[..], nr)[nr], t0, t1, t2, t3, rd[rk], rd[rk + 1], rd[rk + 2], rd[rk + 3]);
    var s0 := LastWord(box.si, t0, t3, t2, t1, rd[rk]);
    var s1 := LastWord(box.si, t1, t0, t3, t2, rd[rk + 1]);
    var s2 := LastWord(box.si, t2, t1, t0, t3, rd[rk + 2]);
    var s3 := LastWord(box.si, t3, t2, t1, t0, rd[rk + 3]);
    StoreBlock(out, at, s0, s1, s2, s3, AddRoundKey(InvShiftRows(SubBytes(box.si, s)), ScheduleOf(rd[..], nr)[nr]));
  }

  // ---------------------------------------------------------------- the routines

  /** AES_encrypt.  `src` and `out` may be the same buffer and may overlap. */
  method Encrypt(box: SBox, src: array<bv8>, srcAt: nat, out: array<bv8>, outAt: nat, key: AesKey)
    requires srcAt + 16 <= src.Length && outAt + 16 <= out.Length && key.Valid()
    modifies out
    ensures out[outAt..outAt + 16] == StateBlock(Cipher(box, BlockState(old(src[srcAt..srcAt + 16])), old(key.Keys())))
    ensures forall k | 0 <= k < out.Length && !(outAt <= k < outAt + 16) :: out[k] == old(out[k])
  {
    hide Packs, AddRoundKey, MixColumns, ShiftRows, SubBytes, StateBlock, BlockState, ScheduleOf;
    var rd, nr := key.rdKey, key.rounds;
    ghost var x, keys := BlockState(src[srcAt..srcAt + 16]), key.Keys();
    var s0, s1, s2, s3 := LoadBlock(src, srcAt, rd, nr);
    var t0, t1, t2, t3: Word;
    var rk, r := 0, nr / 2;
    ghost var done := 0;
    while true
      invariant 1 <= r && done == nr - 2 * r && rk == 4 * done
      invariant Packs(CipherRounds(box, x, keys, done), s0, s1, s2, s3)
      modifies {}
      decreases r
    {
      t0, t1, t2, t3 := EncStep(box, rd, rk + 4, s0, s1, s2, s3, CipherRounds(box, x, keys, done), nr, done + 1);
      rk, r := rk + 8, r - 1;
      if r == 0 { break; }
      s0, s1, s2, s3 := EncStep(box, rd, rk, t0, t1, t2, t3, CipherRounds(box, x, keys, done + 1), nr, done + 2);
      done := done + 2;
    }
    EncFinish(box, rd, rk, t0, t1, t2, t3, CipherRounds(box, x, keys, nr - 1), nr, out, outAt);
  }

  /** AES_decrypt, on the schedule of `SetDecryptKey`.  `src` and `out` may be the same buffer and may overlap. */
  method Decrypt(box: SBox, src: array<bv8>, srcAt: nat, out: array<bv8>, outAt: nat, key: AesKey)
    requires srcAt + 16 <= src.Length && outAt + 16 <= out.Length && key.Valid()
    modifies out
    ensures out[outAt..outAt + 16] == StateBlock(EqInvCipher(box, BlockState(old(src[srcAt..srcAt + 16])),
        old(key.Keys())))
    ensures forall k | 0 <= k < out.Length && !(outAt <= k < outAt + 16) :: out[k] == old(out[k])
  {
    hide Packs, AddRoundKey, InvMixColumns, InvShiftRows, SubBytes, StateBlock, BlockState, ScheduleOf;
    var rd, nr := key.rdKey, key.rounds;
    ghost var x, keys := BlockState(src[srcAt..srcAt + 16]), key.Keys();
    var s0, s1, s2, s3 := LoadBlock(src, srcAt, rd, nr);
    var t0, t1, t2, t3: Word;
    var rk, r := 0, nr / 2;
    ghost var done := 0;
    while true
      invariant 1 <= r && done == nr - 2 * r && rk == 4 * done
      invariant Packs(EqInvRounds(box, x, keys, done), s0, s1, s2, s3)
      modifies {}
      decreases r
    {
      t0, t1, t2, t3 := DecStep(box, rd, rk + 4, s0, s1, s2, s3, EqInvRounds(box, x, keys, done), nr, done + 1);
      rk, r := rk + 8, r - 1;
      if r == 0 { break; }
      s0, s1, s2, s3 := DecStep(box, rd, rk, t0, t1, t2, t3, EqInvRounds(box, x, keys, done + 1), nr, done + 2);
      done := done + 2;
    }
    DecFinish(box, rd, rk, t0, t1, t2, t3, EqInvRounds(box, x, keys, nr - 1), nr, out, outAt);
  }

  // ---------------------------------------------------------------- AES_enc

  /** The four lookups of one output word use the bytes of column `m`. */
  ghost predicate LooksUp(a: Word, b: Word, c: Word, d: Word, m: Column) {
    Index3(a) == m.b0 as Word && Index2(b) == m.b1 as Word && Index1(c) == m.b2 as Word && Index0(d) == m.b3 as Word
  }

  lemma ColumnLooksUp(a: Column, b: Column, c: Column, d: Column)
    ensures LooksUp(Pack(a), Pack(b), Pack(c), Pack(d), Column(a.b0, b.b1, c.b2, d.b3))
  {
    hide Pack, Index3, Index2, Index1, Index0;
    Indices(a); Indices(b); Indices(c); Indices(d);
  }

  lemma RoundLooksUp(s: State, s0: Word, s1: Word, s2: Word, s3: Word)
    requires Packs(s, s0, s1, s2, s3)
    ensures var m := ShiftRows(s);
            LooksUp(s0, s1, s2, s3, m.c0) && LooksUp(s1, s2, s3, s0, m.c1) && LooksUp(s2, s3, s0, s1, m.c2)
                && LooksUp(s3, s0, s1, s2, m.c3)
  {
    hide Pack, LooksUp;
    ColumnLooksUp(s.c0, s.c1, s.c2, s.c3);
    ColumnLooksUp(s.c1, s.c2, s.c3, s.c0);
    ColumnLooksUp(s.c2, s.c3, s.c0, s.c1);
    ColumnLooksUp(s.c3, s.c0, s.c1, s.c2);
  }

  lemma ColumnsMakeBlock(b: seq<bv8>, s: State)
    requires |b| == 16 && BlockState(b) == s
    ensures b == StateBlock(s)
  {
  }

  method RecordColumn(hits: array<bv8>, at: nat, a: Word, b: Word, c: Word, d: Word, ghost m: Column)
    requires at + 4 <= hits.Length && LooksUp(a, b, c, d, m)
    modifies hits
    ensures Column(hits[at], hits[at + 1], hits[at + 2], hits[at + 3]) == m
    ensures forall k | 0 <= k < hits.Length && !(at <= k < at + 4) :: hits[k] == old(hits[k])
  {
    hide Index3, Index2, Index1, Index0;
    ByteOfWord(m.b0); ByteOfWord(m.b1); ByteOfWord(m.b2); ByteOfWord(m.b3);
    hits[at] := Index3(a) as bv8;
    hits[at + 1] := Index2(b) as bv8;
    hits[at + 2] := Index1(c) as bv8;
    hits[at + 3] := Index0(d) as bv8;
  }

  /** The table indices of a round: byte j of column c looks up entry 4c + j. */
  method RecordHits(hits: array<bv8>, at: nat, s0: Word, s1: Word, s2: Word, s3: Word, ghost s: State)
    requires at + 16 <= hits.Length && Packs(s, s0, s1, s2, s3)
    modifies hits
    ensures hits[at..at + 16] == StateBlock(ShiftRows(s))
    ensures forall k | 0 <= k < hits.Length && !(at <= k < at + 16) :: hits[k] == old(hits[k])
  {
    hide LooksUp, Packs, ShiftRows, StateBlock;
    RoundLooksUp(s, s0, s1, s2, s3);
    ghost var m := ShiftRows(s);
    RecordColumn(hits, at, s0, s1, s2, s3, m.c0);
    RecordColumn(hits, at + 4, s1, s2, s3, s0, m.c1);
    RecordColumn(hits, at + 8, s2, s3, s0, s1, m.c2);
    RecordColumn(hits, at + 12, s3, s0, s1, s2, m.c3);
    ColumnsMakeBlock(hits[at..at + 16], m);
  }

  /** The 16 entries of round r. */
  function RoundHits(hits: seq<bv8>, r: nat): seq<bv8>
    requires 16 * r + 16 <= |hits|
  {
    hits[16 * r..16 * r + 16]
  }

  /** The first `n` rounds are recorded: 16 entries each, the state bytes after ShiftRows. */
  ghost predicate Recorded(hits: seq<bv8>, box: SBox, x: State, keys: Schedule, n: nat)
    requires n < |keys| && 16 * n <= |hits|
  {
    forall r: nat | r < n :: RoundHits(hits, r) == StateBlock(ShiftRows(CipherRounds(box, x, keys, r)))
  }

  /** The bytes [at, at + n) of a buffer. */
  predicate Within(k: int, at: nat, n: nat) {
    at <= k < at + n
  }

  /** AES_enc: AES_encrypt that also records every table index it uses.  The hit entries may share a
      buffer with the input or the output, if they do not overlap the output block. */
  method EncryptRecording(box: SBox, src: array<bv8>, srcAt: nat, out: array<bv8>, outAt: nat, key: AesKey,
                          hits: array<bv8>, hitsAt: nat)
    requires srcAt + 16 <= src.Length && outAt + 16 <= out.Length && key.Valid()
    requires hitsAt + 16 * key.rounds <= hits.Length
    requires hits == out ==> hitsAt + 16 * key.rounds <= outAt || outAt + 16 <= hitsAt
    modifies out, hits
    ensures out[outAt..outAt + 16] == StateBlock(Cipher(box, BlockState(old(src[srcAt..srcAt + 16])), old(key.Keys())))
    ensures Recorded(hits[hitsAt..], box, BlockState(old(src[srcAt..srcAt + 16])), old(key.Keys()), key.rounds)
    ensures forall k | 0 <= k < out.Length && !Within(k, outAt, 16)
        && !(hits == out && Within(k, hitsAt, 16 * key.rounds)) ::
              out[k] == old(out[k])
    ensures forall k | 0 <= k < hits.Length && !Within(k, hitsAt, 16 * key.rounds)
        && !(hits == out && Within(k, outAt, 16)) ::
              hits[k] == old(hits[k])
  {
    hide Packs, AddRoundKey, MixColumns, ShiftRows, SubBytes, StateBlock, BlockState, ScheduleOf, Recorded;
    var rd, nr := key.rdKey, key.rounds;
    ghost var x, keys := BlockState(src[srcAt..srcAt + 16]), key.Keys();
    var s0, s1, s2, s3 := LoadBlock(src, srcAt, rd, nr);
    var t0, t1, t2, t3: Word;
    var rk, r, round := 0, nr / 2, 0;
    NothingRecorded(hits[hitsAt..], box, x, keys);
    while true
      invariant 1 <= r && round == nr - 2 * r && rk == 4 * round
      invariant Packs(CipherRounds(box, x, keys, round), s0, s1, s2, s3)
      invariant Recorded(hits[hitsAt..], box, x, keys, round)
      invariant forall k | 0 <= k < hits.Length && !Within(k, hitsAt, 16 * nr) :: hits[k] == old(hits[k])
      modifies hits
      decreases r
    {
      t0, t1, t2, t3 := EncStep(box, rd, rk + 4, s0, s1, s2, s3, CipherRounds(box, x, keys, round), nr, round + 1);
      Record(hits, hitsAt, round, s0, s1, s2, s3, box, x, keys);
      rk, r, round := rk + 8, r - 1, round + 1;
      if r == 0 { break; }
      s0, s1, s2, s3 := EncStep(box, rd, rk, t0, t1, t2, t3, CipherRounds(box, x, keys, round), nr, round + 1);
      Record(hits, hitsAt, round, t0, t1, t2, t3, box, x, keys);
      round := round + 1;
    }
    FinishRecording(box, rd, rk, t0, t1, t2, t3, nr, out, outAt, hits, hitsAt, x, keys);
  }

  /** The last round and its 16 hits. */
  method FinishRecording(box: SBox, rd: array<Word>, rk: nat, t0: Word, t1: Word, t2: Word, t3: Word, nr: nat,
                         out: array<bv8>, outAt: nat, hits: array<bv8>, hitsAt: nat, ghost x: State,
                         ghost keys: Schedule)
    requires rk + 4 <= rd.Length && rk == 4 * nr && Scheduled(rd[..], nr) && keys == ScheduleOf(rd[..], nr)
    requires Packs(CipherRounds(box, x, keys, nr - 1), t0, t1, t2, t3)
    requires outAt + 16 <= out.Length && hitsAt + 16 * nr <= hits.Length
    requires hits == out ==> hitsAt + 16 * nr <= outAt || outAt + 16 <= hitsAt
    requires Recorded(hits[hitsAt..], box, x, keys, nr - 1)
    modifies out, hits
    ensures out[outAt..outAt + 16] == StateBlock(Cipher(box, x, keys))
    ensures Recorded(hits[hitsAt..], box, x, keys, nr)
    ensures forall k | 0 <= k < out.Length && !Within(k, outAt, 16) && !(hits == out && Within(k, hitsAt, 16 * nr)) ::
              out[k] == old(out[k])
    ensures forall k | 0 <= k < hits.Length && !Within(k, hitsAt, 16 * nr) && !(hits == out && Within(k, outAt, 16)) ::
              hits[k] == old(hits[k])
  {
    hide Packs, AddRoundKey, ShiftRows, SubBytes, StateBlock, ScheduleOf, Recorded, CipherRounds;
    ghost var before := hits[hitsAt..];
    EncFinish(box, rd, rk, t0, t1, t2, t3, CipherRounds(box, x, keys, nr - 1), nr, out, outAt);
    RecordedStays(before, hits[hitsAt..], box, x, keys, nr - 1);
    ghost var cipherText := out[outAt..outAt + 16];
    Record(hits, hitsAt, nr - 1, t0, t1, t2, t3, box, x, keys);
    assert out[outAt..outAt + 16] == cipherText;
  }

  lemma NothingRecorded(hits: seq<bv8>, box: SBox, x: State, keys: Schedule)
    requires |keys| > 0
    ensures Recorded(hits, box, x, keys, 0)
  {
  }

  /** Changes outside the recorded entries do no harm. */
  lemma RecordedStays(before: seq<bv8>, after: seq<bv8>, box: SBox, x: State, keys: Schedule, n: nat)
    requires n < |keys| && 16 * n <= |before| == |after| && Recorded(before, box, x, keys, n)
    requires forall k | 0 <= k < 16 * n :: after[k] == before[k]
    ensures Recorded(after, box, x, keys, n)
  {
    hide StateBlock, ShiftRows, CipherRounds, RoundHits;
    forall r: nat | r < n
      ensures RoundHits(after, r) == StateBlock(ShiftRows(CipherRounds(box, x, keys, r)))
    {
      SameHits(before, after, n, r);
    }
  }

  lemma SameHits(before: seq<bv8>, after: seq<bv8>, n: nat, r: nat)
    requires r < n && 16 * n <= |before| == |after| && forall k | 0 <= k < 16 * n :: after[k] == before[k]
    ensures RoundHits(after, r) == RoundHits(before, r)
  {
  }

  method Record(hits: array<bv8>, hitsAt: nat, round: nat, s0: Word, s1: Word, s2: Word, s3: Word,
                ghost box: SBox, ghost x: State, ghost keys: Schedule)
    requires round + 1 < |keys| && hitsAt + 16 * round + 16 <= hits.Length
    requires Packs(CipherRounds(box, x, keys, round), s0, s1, s2, s3) && Recorded(hits[hitsAt..], box, x, keys, round)
    modifies hits
    ensures Recorded(hits[hitsAt..], box, x, keys, round + 1)
    ensures forall k | 0 <= k < hits.Length && !Within(k, hitsAt + 16 * round, 16) :: hits[k] == old(hits[k])
  {
    hide Packs, ShiftRows, StateBlock, Recorded, CipherRounds;
    ghost var before := hits[..];
    var at := hitsAt + round * 16;
    RecordHits(hits, at, s0, s1, s2, s3, CipherRounds(box, x, keys, round));
    ShiftedRecord(before, hits[..], hitsAt, box, x, keys, round);
  }

  lemma ShiftedRecord(before: seq<bv8>, after: seq<bv8>, at: nat, box: SBox, x: State, keys: Schedule, n: nat)
    requires n + 1 < |keys| && at + 16 * n + 16 <= |before| == |after| && Recorded(before[at..], box, x, keys, n)
    requires forall k | 0 <= k < at + 16 * n :: after[k] == before[k]
    requires after[at + 16 * n..at + 16 * n + 16] == StateBlock(ShiftRows(CipherRounds(box, x, keys, n)))
    ensures Recorded(after[at..], box, x, keys, n + 1)
  {
    hide ShiftRows, StateBlock, Recorded, CipherRounds;
    SliceOfTail(after, at, 16 * n, 16);
    RecordedNext(before[at..], after[at..], box, x, keys, n);
  }

  lemma SliceOfTail(b: seq<bv8>, at: nat, lo: nat, n: nat)
    requires at + lo + n <= |b|
    ensures b[at..][lo..lo + n] == b[at + lo..at + lo + n]
  {
  }

  lemma RecordedNext(before: seq<bv8>, after: seq<bv8>, box: SBox, x: State, keys: Schedule, n: nat)
    requires n + 1 < |keys| && 16 * n + 16 <= |before| == |after| && Recorded(before, box, x, keys, n)
    requires forall k | 0 <= k < 16 * n :: after[k] == before[k]
    requires after[16 * n..16 * n + 16] == StateBlock(ShiftRows(CipherRounds(box, x, keys, n)))
    ensures Recorded(after, box, x, keys, n + 1)
  {
    hide StateBlock, ShiftRows, CipherRounds;
    RecordedStays(before, after, box, x, keys, n);
  }

  /** What the recorded indices reveal: in the last round every ciphertext byte is the S-box entry
      of its recorded index xor the matching byte of the last round key. */
  lemma LastRoundHits(box: SBox, x: State, keys: Schedule, hits: seq<bv8>, k: nat)
    requires 16 * (|keys| - 1) <= |hits| && Recorded(hits, box, x, keys, |keys| - 1) && k < 16
    ensures StateBlock(Cipher(box, x, keys))[k]
         == Xor(box.s(hits[16 * (|keys| - 2) + k]), StateBlock(keys[|keys| - 1])[k])
  {
    hide Xor, AddRoundKey, SubBytes, ShiftRows, StateBlock, CipherRounds;
    var r := |keys| - 2;
    var s := CipherRounds(box, x, keys, r);
    assert RoundHits(hits, r)[k] == hits[16 * r + k];
    ShiftSubCommute(box.s, s);
    AddedByte(ShiftRows(SubBytes(box.s, s)), keys[|keys| - 1], k);
    SubstitutedByte(box.s, ShiftRows(s), k);
  }

  lemma ShiftSubCommute(f: bv8 -> bv8, s: State)
    ensures ShiftRows(SubBytes(f, s)) == SubBytes(f, ShiftRows(s))
  {
  }

  lemma AddedRow(a: Column, b: Column, r: nat)
    ensures RowAt(Add(a, b), r) == Xor(RowAt(a, r), RowAt(b, r))
  {
    hide Xor;
    if r == 0 {} else if r == 1 {} else if r == 2 {} else {}
  }

  lemma SubstitutedRow(f: bv8 -> bv8, a: Column, r: nat)
    ensures RowAt(Apply(f, a), r) == f(RowAt(a, r))
  {
    if r == 0 {} else if r == 1 {} else if r == 2 {} else {}
  }

  lemma AddedByte(a: State, b: State, k: nat)
    requires k < 16
    ensures StateBlock(AddRoundKey(a, b))[k] == Xor(StateBlock(a)[k], StateBlock(b)[k])
  {
    hide Xor, RowAt, Add;
    AddedRow(ColumnAt(a, k / 4), ColumnAt(b, k / 4), k % 4);
  }

  lemma SubstitutedByte(f: bv8 -> bv8, a: State, k: nat)
    requires k < 16
    ensures StateBlock(SubBytes(f, a))[k] == f(StateBlock(a)[k])
  {
    hide RowAt, Apply;
    SubstitutedRow(f, ColumnAt(a, k / 4), k % 4);
  }

  // ---------------------------------------------------------------- the two routines are inverse

  /** The schedules that the two key set-up routines build from the same key. */
  ghost function EncKeys(box: SBox, userKey: seq<bv8>, bits: int): Schedule
    requires bits in {128, 192, 256} && bits / 8 <= |userKey|
  {
    ExpandedKey(box, KeyWords(userKey, bits / 32), Rounds(bits))
  }

  ghost function DecKeys(box: SBox, userKey: seq<bv8>, bits: int): Schedule
    requires bits in {128, 192, 256} && bits / 8 <= |userKey|
  {
    InvSchedule(EncKeys(box, userKey, bits))
  }

  /** For every key of every size and every block, AES_decrypt undoes AES_encrypt and AES_encrypt
      undoes AES_decrypt. */
  lemma DecryptInvertsEncrypt(box: SBox, userKey: seq<bv8>, bits: int, x: State)
    requires Inverse(box) && bits in {128, 192, 256} && bits / 8 <= |userKey|
    ensures EqInvCipher(box, Cipher(box, x, EncKeys(box, userKey, bits)), DecKeys(box, userKey, bits)) == x
    ensures Cipher(box, EqInvCipher(box, x, DecKeys(box, userKey, bits)), EncKeys(box, userKey, bits)) == x
  {
    hide Cipher, EqInvCipher, InvCipher, InvSchedule, EncKeys;
    var keys := EncKeys(box, userKey, bits);
    EqInvCipherIsInvCipher(box, Cipher(box, x, keys), keys);
    DecryptAfterEncrypt(box, x, keys);
    EqInvCipherIsInvCipher(box, x, keys);
    EncryptAfterDecrypt(box, x, keys);
  }

  lemma KeysAre(box: SBox, userKey: seq<bv8>, bits: int)
    requires bits in {128, 192, 256} && bits / 8 <= |userKey|
    ensures EncKeys(box, userKey, bits) == ExpandedKey(box, KeyWords(userKey, bits / 32), Rounds(bits))
    ensures DecKeys(box, userKey, bits) == InvSchedule(EncKeys(box, userKey, bits))
  {
  }

  /** The whole path through memory: set up both keys, encrypt a block in place, decrypt it in place. */
  method EncryptDecrypt(box: SBox, userKey: array<bv8>, bits: int, block: array<bv8>)
    requires Inverse(box) && bits in {128, 192, 256} && bits / 8 <= userKey.Length
    requires block.Length == 16 && block != userKey
    modifies block
    ensures block[..] == old(block[..])
  {
    hide Cipher, EqInvCipher, InvSchedule, ExpandedKey, StateBlock, BlockState, Expanded, RoundKey, EncKeys, DecKeys;
    var enc := new AesKey();
    var dec := new AesKey();
    var status := SetEncryptKey(box, userKey, bits, enc);
    ScheduleIsExpandedKey(enc.rdKey[..], box, KeyWords(userKey[..], bits / 32), enc.rounds);
    status := SetDecryptKey(box, userKey, bits, dec);
    assert DecKeys(box, userKey[..], bits) == dec.Keys() && EncKeys(box, userKey[..], bits) == enc.Keys() by {
      KeysAre(box, userKey[..], bits);
    }
    EncryptThenDecrypt(box, userKey[..], bits, enc, dec, block);
  }

  method EncryptThenDecrypt(box: SBox, ghost userKey: seq<bv8>, ghost bits: int, enc: AesKey, dec: AesKey,
      block: array<bv8>)
    requires Inverse(box) && bits in {128, 192, 256} && bits / 8 <= |userKey| && block.Length == 16
    requires enc.Valid() && enc.Keys() == EncKeys(box, userKey, bits)
    requires dec.Valid() && dec.Keys() == DecKeys(box, userKey, bits)
    modifies block
    ensures block[..] == old(block[..])
  {
    hide Cipher, EqInvCipher, StateBlock, BlockState, RoundKey, EncKeys, DecKeys;
    ghost var x := BlockState(block[..]);
    assert block[0..16] == block[..];
    ColumnsMakeBlock(block[..], x);
    Encrypt(box, block, 0, block, 0, enc);
    Decrypt(box, block, 0, block, 0, dec);
    DecryptInvertsEncrypt(box, userKey, bits, x);
    assert block[0..16] == block[..];
  }
}
