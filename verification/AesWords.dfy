/**
 The 32-bit word arithmetic of aes.c.  Its `u32` is `unsigned long`, so words are 64 bits wide
 here; every word the cipher handles stays below 2^32, which keeps `w >> 24` a table index.
 */
module AesWords {
  import opened AesSpec
  import opened AesTheory

  type Word = bv64

  const LIMIT: Word := 0x1_0000_0000

  // ---------------------------------------------------------------- packing

  /** GETU32: big-endian, row 0 in the most significant byte. */
  function Pack(c: Column): Word {
    ((c.b0 as Word) << 24) ^ ((c.b1 as Word) << 16) ^ ((c.b2 as Word) << 8) ^ (c.b3 as Word)
  }

  /** The four bytes that PUTU32 stores. */
  function Unpack(w: Word): Column {
    Column(((w >> 24) & 0xff) as bv8, ((w >> 16) & 0xff) as bv8, ((w >> 8) & 0xff) as bv8, (w & 0xff) as bv8)
  }

  function WXor(a: Word, b: Word): Word { a ^ b }

  lemma UnpackPack(c: Column)
    ensures Unpack(Pack(c)) == c && Pack(c) < LIMIT
  {
  }

  lemma PackUnpack(w: Word)
    requires w < LIMIT
    ensures Pack(Unpack(w)) == w
  {
  }

  lemma PackAdd(a: Column, b: Column)
    ensures WXor(Pack(a), Pack(b)) == Pack(Add(a, b))
  {
  }

  // ---------------------------------------------------------------- table indices

  function Index3(w: Word): Word { w >> 24 }
  function Index2(w: Word): Word { (w >> 16) & 0xff }
  function Index1(w: Word): Word { (w >> 8) & 0xff }
  function Index0(w: Word): Word { w & 0xff }

  lemma Indices(c: Column)
    ensures Index3(Pack(c)) == c.b0 as Word && Index2(Pack(c)) == c.b1 as Word
    ensures Index1(Pack(c)) == c.b2 as Word && Index0(Pack(c)) == c.b3 as Word
  {
  }

  /** The unmasked index `w >> 24` stays inside a 256-entry table exactly when the word fits 32 bits. */
  lemma IndexInTable(w: Word)
    ensures Index3(w) < 256 <==> w < LIMIT
    ensures Index2(w) < 256 && Index1(w) < 256 && Index0(w) < 256
  {
  }

  // ---------------------------------------------------------------- tables

  function Te0(box: SBox, i: Word): Word
    requires i < 256
  {
    var s := box.s(i as bv8);
    Pack(Column(XTime(s), s, s, Mul03(s)))
  }

  function Te1(box: SBox, i: Word): Word
    requires i < 256
  {
    var s := box.s(i as bv8);
    Pack(Column(Mul03(s), XTime(s), s, s))
  }

  function Te2(box: SBox, i: Word): Word
    requires i < 256
  {
    var s := box.s(i as bv8);
    Pack(Column(s, Mul03(s), XTime(s), s))
  }

  function Te3(box: SBox, i: Word): Word
    requires i < 256
  {
    var s := box.s(i as bv8);
    Pack(Column(s, s, Mul03(s), XTime(s)))
  }

  function Td0(box: SBox, i: Word): Word
    requires i < 256
  {
    var s := box.si(i as bv8);
    Pack(Column(Mul0E(s), Mul09(s), Mul0D(s), Mul0B(s)))
  }

  function Td1(box: SBox, i: Word): Word
    requires i < 256
  {
    var s := box.si(i as bv8);
    Pack(Column(Mul0B(s), Mul0E(s), Mul09(s), Mul0D(s)))
  }

  function Td2(box: SBox, i: Word): Word
    requires i < 256
  {
    var s := box.si(i as bv8);
    Pack(Column(Mul0D(s), Mul0B(s), Mul0E(s), Mul09(s)))
  }

  function Td3(box: SBox, i: Word): Word
    requires i < 256
  {
    var s := box.si(i as bv8);
    Pack(Column(Mul09(s), Mul0D(s), Mul0B(s), Mul0E(s)))
  }

  /** Te4 (with `f` the S-box) and Td4 (with its inverse): the byte in all four places. */
  function T4(f: bv8 -> bv8, i: Word): Word
    requires i < 256
  {
    Pack(Column(f(i as bv8), f(i as bv8), f(i as bv8), f(i as bv8)))
  }

  // ---------------------------------------------------------------- one word of a round

  /** An output word of an encryption round: four table lookups and a key word. */
  function EncWord(box: SBox, a: Word, b: Word, c: Word, d: Word, key: Word): Word
    requires a < LIMIT
  {
    IndexInTable(a); IndexInTable(b); IndexInTable(c); IndexInTable(d);
    WXor(WXor(WXor(WXor(Te0(box, Index3(a)), Te1(box, Index2(b))), Te2(box, Index1(c))), Te3(box, Index0(d))), key)
  }

  function DecWord(box: SBox, a: Word, b: Word, c: Word, d: Word, key: Word): Word
    requires a < LIMIT
  {
    IndexInTable(a); IndexInTable(b); IndexInTable(c); IndexInTable(d);
    WXor(WXor(WXor(WXor(Td0(box, Index3(a)), Td1(box, Index2(b))), Td2(box, Index1(c))), Td3(box, Index0(d))), key)
  }

  function Mask3(w: Word): Word { w & 0xff00_0000 }
  function Mask2(w: Word): Word { w & 0x00ff_0000 }
  function Mask1(w: Word): Word { w & 0x0000_ff00 }
  function Mask0(w: Word): Word { w & 0x0000_00ff }

  /** An output word of the last round: masked substitutions and a key word. */
  function LastWord(f: bv8 -> bv8, a: Word, b: Word, c: Word, d: Word, key: Word): Word
    requires a < LIMIT
  {
    IndexInTable(a); IndexInTable(b); IndexInTable(c); IndexInTable(d);
    WXor(WXor(WXor(WXor(Mask3(T4(f, Index3(a))), Mask2(T4(f, Index2(b)))), Mask1(T4(f, Index1(c)))),
        Mask0(T4(f, Index0(d)))), key)
  }

  lemma Masks(x: bv8)
    ensures Mask3(Pack(Column(x, x, x, x))) == Pack(Column(x, 0, 0, 0))
    ensures Mask2(Pack(Column(x, x, x, x))) == Pack(Column(0, x, 0, 0))
    ensures Mask1(Pack(Column(x, x, x, x))) == Pack(Column(0, 0, x, 0))
    ensures Mask0(Pack(Column(x, x, x, x))) == Pack(Column(0, 0, 0, x))
  {
  }

  /** Five packed columns added word-wise. */
  lemma PackSum(p: Column, q: Column, r: Column, s: Column, k: Column)
    ensures WXor(WXor(WXor(WXor(Pack(p), Pack(q)), Pack(r)), Pack(s)), Pack(k))
         == Pack(Add(Column(Xor4(p.b0, q.b0, r.b0, s.b0), Xor4(p.b1, q.b1, r.b1, s.b1),
                            Xor4(p.b2, q.b2, r.b2, s.b2), Xor4(p.b3, q.b3, r.b3, s.b3)), k))
  {
    hide WXor, Pack, Xor, Xor4;
    PackAdd(p, q);
    PackAdd(Add(p, q), r);
    PackAdd(Add(Add(p, q), r), s);
    PackAdd(Add(Add(Add(p, q), r), s), k);
    Pairwise(p.b0, q.b0, r.b0, s.b0);
    Pairwise(p.b1, q.b1, r.b1, s.b1);
    Pairwise(p.b2, q.b2, r.b2, s.b2);
    Pairwise(p.b3, q.b3, r.b3, s.b3);
  }

  lemma AllRotations(p: bv8, q: bv8, r: bv8, s: bv8)
    ensures Xor4(p, q, r, s) == Xor4(q, r, s, p) == Xor4(r, s, p, q) == Xor4(s, p, q, r)
  {
    hide Xor4;
    Rotation(p, q, r, s);
    Rotation(s, p, q, r);
    Rotation(r, s, p, q);
  }

  /** The column that goes into MixColumns: byte r comes from the word that ShiftRows selects. */
  function Diagonal(f: bv8 -> bv8, a: Column, b: Column, c: Column, d: Column): Column {
    Column(f(a.b0), f(b.b1), f(c.b2), f(d.b3))
  }

  lemma ByteOfWord(x: bv8)
    ensures (x as Word) < 256 && (x as Word) as bv8 == x
  {
  }

  /** One T-table word is SubBytes, ShiftRows, MixColumns and AddRoundKey on one column. */
  lemma EncWordIsRound(box: SBox, a: Column, b: Column, c: Column, d: Column, key: Column)
    ensures Pack(a) < LIMIT
    ensures EncWord(box, Pack(a), Pack(b), Pack(c), Pack(d), Pack(key))
         == Pack(Add(MixColumn(Diagonal(box.s, a, b, c, d)), key))
  {
    hide WXor, Pack, Xor, Xor4, XTime, Mul03, Index3, Index2, Index1, Index0;
    UnpackPack(a);
    Indices(a); Indices(b); Indices(c); Indices(d);
    ByteOfWord(a.b0); ByteOfWord(b.b1); ByteOfWord(c.b2); ByteOfWord(d.b3);
    var m := Diagonal(box.s, a, b, c, d);
    PackSum(Column(XTime(m.b0), m.b0, m.b0, Mul03(m.b0)), Column(Mul03(m.b1), XTime(m.b1), m.b1, m.b1),
            Column(m.b2, Mul03(m.b2), XTime(m.b2), m.b2), Column(m.b3, m.b3, Mul03(m.b3), XTime(m.b3)), key);
    AllRotations(m.b0, XTime(m.b1), Mul03(m.b2), m.b3);
    AllRotations(m.b0, m.b1, XTime(m.b2), Mul03(m.b3));
    AllRotations(Mul03(m.b0), m.b1, m.b2, XTime(m.b3));
  }

  /** The same for the decryption tables: InvSubBytes, InvShiftRows, InvMixColumns, AddRoundKey. */
  lemma DecWordIsRound(box: SBox, a: Column, b: Column, c: Column, d: Column, key: Column)
    ensures Pack(a) < LIMIT
    ensures DecWord(box, Pack(a), Pack(b), Pack(c), Pack(d), Pack(key))
         == Pack(Add(InvMixColumn(Diagonal(box.si, a, b, c, d)), key))
  {
    hide WXor, Pack, Xor, Xor4, Mul09, Mul0B, Mul0D, Mul0E, Index3, Index2, Index1, Index0;
    UnpackPack(a);
    Indices(a); Indices(b); Indices(c); Indices(d);
    ByteOfWord(a.b0); ByteOfWord(b.b1); ByteOfWord(c.b2); ByteOfWord(d.b3);
    var m := Diagonal(box.si, a, b, c, d);
    PackSum(Column(Mul0E(m.b0), Mul09(m.b0), Mul0D(m.b0), Mul0B(m.b0)),
            Column(Mul0B(m.b1), Mul0E(m.b1), Mul09(m.b1), Mul0D(m.b1)),
            Column(Mul0D(m.b2), Mul0B(m.b2), Mul0E(m.b2), Mul09(m.b2)),
            Column(Mul09(m.b3), Mul0D(m.b3), Mul0B(m.b3), Mul0E(m.b3)), key);
    AllRotations(Mul09(m.b0), Mul0E(m.b1), Mul0B(m.b2), Mul0D(m.b3));
    AllRotations(Mul0D(m.b0), Mul09(m.b1), Mul0E(m.b2), Mul0B(m.b3));
    AllRotations(Mul0B(m.b0), Mul0D(m.b1), Mul09(m.b2), Mul0E(m.b3));
  }

  lemma LoneTerm(x: bv8)
    ensures Xor4(x, 0, 0, 0) == x && Xor4(0, x, 0, 0) == x && Xor4(0, 0, x, 0) == x && Xor4(0, 0, 0, x) == x
  {
  }

  /** The last round has no column mixing. */
  lemma LastWordIsRound(f: bv8 -> bv8, a: Column, b: Column, c: Column, d: Column, key: Column)
    ensures Pack(a) < LIMIT
    ensures LastWord(f, Pack(a), Pack(b), Pack(c), Pack(d), Pack(key)) == Pack(Add(Diagonal(f, a, b, c, d), key))
  {
    hide WXor, Pack, Xor, Xor4, Index3, Index2, Index1, Index0, Mask3, Mask2, Mask1, Mask0;
    UnpackPack(a);
    Indices(a); Indices(b); Indices(c); Indices(d);
    ByteOfWord(a.b0); ByteOfWord(b.b1); ByteOfWord(c.b2); ByteOfWord(d.b3);
    var m := Diagonal(f, a, b, c, d);
    Masks(m.b0); Masks(m.b1); Masks(m.b2); Masks(m.b3);
    PackSum(Column(m.b0, 0, 0, 0), Column(0, m.b1, 0, 0), Column(0, 0, m.b2, 0), Column(0, 0, 0, m.b3), key);
    LoneTerm(m.b0); LoneTerm(m.b1); LoneTerm(m.b2); LoneTerm(m.b3);
  }

  // ---------------------------------------------------------------- one word of the key schedule

  const RCON: seq<Word> := [
    0x0100_0000, 0x0200_0000, 0x0400_0000, 0x0800_0000, 0x1000_0000,
    0x2000_0000, 0x4000_0000, 0x8000_0000, 0x1b00_0000, 0x3600_0000
  ]

  lemma RconTable(i: nat)
    requires i < |RCON|
    ensures RCON[i] == Pack(Rcon(i + 1))
  {
    assert RconByte(1) == 0x01;
    assert RconByte(2) == 0x02;
    assert RconByte(3) == 0x04;
    assert RconByte(4) == 0x08;
    assert RconByte(5) == 0x10;
    assert RconByte(6) == 0x20;
    assert RconByte(7) == 0x40;
    assert RconByte(8) == 0x80;
    assert RconByte(9) == 0x1b;
    assert RconByte(10) == 0x36;
  }

  /** `prev` xor the substituted, rotated `temp`. */
  function RotSubXor(f: bv8 -> bv8, prev: Word, temp: Word): Word
    requires temp < LIMIT
  {
    IndexInTable(temp);
    WXor(WXor(WXor(WXor(prev, Mask3(T4(f, Index2(temp)))), Mask2(T4(f, Index1(temp)))), Mask1(T4(f, Index0(temp)))),
        Mask0(T4(f, Index3(temp))))
  }

  /** `prev` xor the substituted `temp`. */
  function SubXor(f: bv8 -> bv8, prev: Word, temp: Word): Word
    requires temp < LIMIT
  {
    IndexInTable(temp);
    WXor(WXor(WXor(WXor(prev, Mask3(T4(f, Index3(temp)))), Mask2(T4(f, Index2(temp)))), Mask1(T4(f, Index1(temp)))),
        Mask0(T4(f, Index0(temp))))
  }

  lemma XorFour(k: bv8, p: bv8, q: bv8, r: bv8, s: bv8)
    ensures Xor(Xor(Xor(Xor(k, p), q), r), s) == Xor(k, Xor4(p, q, r, s))
  {
  }

  lemma PackSumAfter(k: Column, m: Column)
    ensures WXor(WXor(WXor(WXor(Pack(k), Pack(Column(m.b0, 0, 0, 0))), Pack(Column(0, m.b1, 0, 0))),
        Pack(Column(0, 0, m.b2, 0))), Pack(Column(0, 0, 0, m.b3)))
         == Pack(Add(k, m))
  {
    hide WXor, Pack, Xor, Xor4;
    var (p, q, r, s) := (Column(m.b0, 0, 0, 0), Column(0, m.b1, 0, 0), Column(0, 0, m.b2, 0), Column(0, 0, 0, m.b3));
    PackAdd(k, p);
    PackAdd(Add(k, p), q);
    PackAdd(Add(Add(k, p), q), r);
    PackAdd(Add(Add(Add(k, p), q), r), s);
    XorFour(k.b0, p.b0, q.b0, r.b0, s.b0);
    XorFour(k.b1, p.b1, q.b1, r.b1, s.b1);
    XorFour(k.b2, p.b2, q.b2, r.b2, s.b2);
    XorFour(k.b3, p.b3, q.b3, r.b3, s.b3);
    LoneTerm(m.b0); LoneTerm(m.b1); LoneTerm(m.b2); LoneTerm(m.b3);
  }

  lemma RotSubXorIsSubWord(f: bv8 -> bv8, prev: Column, temp: Column)
    ensures Pack(temp) < LIMIT
    ensures RotSubXor(f, Pack(prev), Pack(temp)) == Pack(Add(prev, Apply(f, RotWord(temp))))
    ensures SubXor(f, Pack(prev), Pack(temp)) == Pack(Add(prev, Apply(f, temp)))
  {
    hide WXor, Pack, Xor, Index3, Index2, Index1, Index0, Mask3, Mask2, Mask1, Mask0;
    UnpackPack(temp);
    Indices(temp);
    ByteOfWord(temp.b0); ByteOfWord(temp.b1); ByteOfWord(temp.b2); ByteOfWord(temp.b3);
    Masks(f(temp.b0)); Masks(f(temp.b1)); Masks(f(temp.b2)); Masks(f(temp.b3));
    PackSumAfter(prev, Apply(f, temp));
    PackSumAfter(prev, Apply(f, RotWord(temp)));
  }

  lemma AddAssoc(a: Column, b: Column, c: Column)
    ensures Add(Add(a, b), c) == Add(a, Add(b, c))
  {
  }

  /** The three ways a schedule word is computed, as the word arithmetic of AES_set_encrypt_key. */
  lemma ScheduleWord(box: SBox, key: seq<Column>, i: nat)
    requires 4 <= |key| <= i
    ensures var nk, prev, last := |key|, Pack(ExpandedWord(box, key, i - |key|)), Pack(ExpandedWord(box, key, i - 1));
            && last < LIMIT
            && Pack(ExpandedWord(box, key, i)) ==
                 if i % nk == 0 then WXor(RotSubXor(box.s, prev, last), Pack(Rcon(i / nk)))
                 else if nk > 6 && i % nk == 4 then SubXor(box.s, prev, last)
                 else WXor(prev, last)
  {
    hide WXor, Pack, Add, RotSubXor, SubXor, Apply;
    var prev, last := ExpandedWord(box, key, i - |key|), ExpandedWord(box, key, i - 1);
    UnpackPack(last);
    RotSubXorIsSubWord(box.s, prev, last);
    PackAdd(Add(prev, Apply(box.s, RotWord(last))), Rcon(i / |key|));
    AddAssoc(prev, Apply(box.s, RotWord(last)), Rcon(i / |key|));
    PackAdd(prev, last);
  }

  /** InvMixColumns on one key word, through Td and Te4. */
  function InvMixWord(box: SBox, w: Word): Word
    requires w < LIMIT
  {
    IndexInTable(w);
    IndexInTable(T4(box.s, Index3(w))); IndexInTable(T4(box.s, Index2(w)));
    IndexInTable(T4(box.s, Index1(w))); IndexInTable(T4(box.s, Index0(w)));
    WXor(WXor(WXor(Td0(box, Index0(T4(box.s, Index3(w)))), Td1(box, Index0(T4(box.s, Index2(w))))),
              Td2(box, Index0(T4(box.s, Index1(w))))), Td3(box, Index0(T4(box.s, Index0(w)))))
  }

  lemma PackSum4(p: Column, q: Column, r: Column, s: Column)
    ensures WXor(WXor(WXor(Pack(p), Pack(q)), Pack(r)), Pack(s))
         == Pack(Column(Xor4(p.b0, q.b0, r.b0, s.b0), Xor4(p.b1, q.b1, r.b1, s.b1),
                        Xor4(p.b2, q.b2, r.b2, s.b2), Xor4(p.b3, q.b3, r.b3, s.b3)))
  {
    hide WXor, Pack, Xor, Xor4;
    PackAdd(p, q);
    PackAdd(Add(p, q), r);
    PackAdd(Add(Add(p, q), r), s);
    Pairwise(p.b0, q.b0, r.b0, s.b0);
    Pairwise(p.b1, q.b1, r.b1, s.b1);
    Pairwise(p.b2, q.b2, r.b2, s.b2);
    Pairwise(p.b3, q.b3, r.b3, s.b3);
  }

  /** Te4 and Td undo each other's substitution. */
  lemma TdOfTe(box: SBox, x: bv8)
    requires Inverse(box)
    ensures (x as Word) < 256 && Index0(T4(box.s, x as Word)) < 256
    ensures Td0(box, Index0(T4(box.s, x as Word))) == Pack(Column(Mul0E(x), Mul09(x), Mul0D(x), Mul0B(x)))
    ensures Td1(box, Index0(T4(box.s, x as Word))) == Pack(Column(Mul0B(x), Mul0E(x), Mul09(x), Mul0D(x)))
    ensures Td2(box, Index0(T4(box.s, x as Word))) == Pack(Column(Mul0D(x), Mul0B(x), Mul0E(x), Mul09(x)))
    ensures Td3(box, Index0(T4(box.s, x as Word))) == Pack(Column(Mul09(x), Mul0D(x), Mul0B(x), Mul0E(x)))
  {
    hide Pack, Mul09, Mul0B, Mul0D, Mul0E, Index0;
    ByteOfWord(x);
    var s := box.s(x);
    Indices(Column(s, s, s, s));
    ByteOfWord(s);
  }

  lemma InvMixWordIsInvMixColumn(box: SBox, c: Column)
    requires Inverse(box)
    ensures Pack(c) < LIMIT && InvMixWord(box, Pack(c)) == Pack(InvMixColumn(c))
  {
    hide WXor, Pack, Xor4, Mul09, Mul0B, Mul0D, Mul0E, Index3, Index2, Index1, Index0, T4, Td0, Td1, Td2, Td3;
    UnpackPack(c);
    Indices(c);
    TdOfTe(box, c.b0); TdOfTe(box, c.b1); TdOfTe(box, c.b2); TdOfTe(box, c.b3);
    PackSum4(Column(Mul0E(c.b0), Mul09(c.b0), Mul0D(c.b0), Mul0B(c.b0)),
             Column(Mul0B(c.b1), Mul0E(c.b1), Mul09(c.b1), Mul0D(c.b1)),
             Column(Mul0D(c.b2), Mul0B(c.b2), Mul0E(c.b2), Mul09(c.b2)),
             Column(Mul09(c.b3), Mul0D(c.b3), Mul0B(c.b3), Mul0E(c.b3)));
    AllRotations(Mul09(c.b0), Mul0E(c.b1), Mul0B(c.b2), Mul0D(c.b3));
    AllRotations(Mul0D(c.b0), Mul09(c.b1), Mul0E(c.b2), Mul0B(c.b3));
    AllRotations(Mul0B(c.b0), Mul0D(c.b1), Mul09(c.b2), Mul0E(c.b3));
  }
}
