/** The algebra of the standard: MixColumns is linear and invertible, and the inverse cipher inverts. */
module AesTheory {
  import opened AesSpec

  // ---------------------------------------------------------------- multiplication distributes over Xor

  lemma XTimeAdd(x: bv8, y: bv8)
    ensures XTime(Xor(x, y)) == Xor(XTime(x), XTime(y))
  {
    if x & 0x80 == 0 {
      if y & 0x80 == 0 {} else {}
    } else {
      if y & 0x80 == 0 {} else {}
    }
  }

  lemma XTime2Add(x: bv8, y: bv8)
    ensures XTime(XTime(Xor(x, y))) == Xor(XTime(XTime(x)), XTime(XTime(y)))
  {
    hide XTime, Xor;
    XTimeAdd(x, y);
    XTimeAdd(XTime(x), XTime(y));
  }

  lemma XTime3Add(x: bv8, y: bv8)
    ensures XTime(XTime(XTime(Xor(x, y)))) == Xor(XTime(XTime(XTime(x))), XTime(XTime(XTime(y))))
  {
    hide XTime, Xor;
    XTime2Add(x, y);
    XTimeAdd(XTime(XTime(x)), XTime(XTime(y)));
  }

  lemma XorAssociates(a: bv8, b: bv8, c: bv8)
    ensures Xor(Xor(a, b), c) == Xor(a, Xor(b, c))
  {
  }

  lemma XorCommutes(a: bv8, b: bv8)
    ensures Xor(a, b) == Xor(b, a)
  {
  }

  lemma Exchange(a: bv8, b: bv8, c: bv8, d: bv8)
    ensures Xor(Xor(a, b), Xor(c, d)) == Xor(Xor(a, c), Xor(b, d))
  {
    hide Xor;
    XorAssociates(a, b, Xor(c, d));
    XorAssociates(b, c, d);
    XorCommutes(b, c);
    XorAssociates(c, b, d);
    XorAssociates(a, c, Xor(b, d));
  }

  lemma Mul03Add(x: bv8, y: bv8)
    ensures Mul03(Xor(x, y)) == Xor(Mul03(x), Mul03(y))
  {
    hide XTime, Xor;
    XTimeAdd(x, y);
    Exchange(XTime(x), XTime(y), x, y);
  }

  lemma Mul09Add(x: bv8, y: bv8)
    ensures Mul09(Xor(x, y)) == Xor(Mul09(x), Mul09(y))
  {
    hide XTime, Xor;
    XTime3Add(x, y);
    Exchange(XTime(XTime(XTime(x))), XTime(XTime(XTime(y))), x, y);
  }

  lemma Mul0BAdd(x: bv8, y: bv8)
    ensures Mul0B(Xor(x, y)) == Xor(Mul0B(x), Mul0B(y))
  {
    hide XTime, Xor;
    XTime3Add(x, y);
    XTimeAdd(x, y);
    Exchange(XTime(XTime(XTime(x))), XTime(XTime(XTime(y))), XTime(x), XTime(y));
    Exchange(Xor(XTime(XTime(XTime(x))), XTime(x)), Xor(XTime(XTime(XTime(y))), XTime(y)), x, y);
  }

  lemma Mul0DAdd(x: bv8, y: bv8)
    ensures Mul0D(Xor(x, y)) == Xor(Mul0D(x), Mul0D(y))
  {
    hide XTime, Xor;
    XTime3Add(x, y);
    XTime2Add(x, y);
    Exchange(XTime(XTime(XTime(x))), XTime(XTime(XTime(y))), XTime(XTime(x)), XTime(XTime(y)));
    Exchange(Xor(XTime(XTime(XTime(x))), XTime(XTime(x))), Xor(XTime(XTime(XTime(y))), XTime(XTime(y))), x, y);
  }

  lemma Mul0EAdd(x: bv8, y: bv8)
    ensures Mul0E(Xor(x, y)) == Xor(Mul0E(x), Mul0E(y))
  {
    hide XTime, Xor;
    XTime3Add(x, y);
    XTime2Add(x, y);
    XTimeAdd(x, y);
    Exchange(XTime(XTime(XTime(x))), XTime(XTime(XTime(y))), XTime(XTime(x)), XTime(XTime(y)));
    Exchange(Xor(XTime(XTime(XTime(x))), XTime(XTime(x))), Xor(XTime(XTime(XTime(y))), XTime(XTime(y))),
             XTime(x), XTime(y));
  }

  lemma Pairwise(p: bv8, q: bv8, r: bv8, s: bv8)
    ensures Xor4(p, q, r, s) == Xor(Xor(Xor(p, q), r), s)
  {
  }

  lemma Mul03Sum(p: bv8, q: bv8, r: bv8, s: bv8)
    ensures Mul03(Xor4(p, q, r, s)) == Xor4(Mul03(p), Mul03(q), Mul03(r), Mul03(s))
  {
    hide Mul03, Xor, Xor4;
    Pairwise(p, q, r, s);
    Pairwise(Mul03(p), Mul03(q), Mul03(r), Mul03(s));
    Mul03Add(p, q);
    Mul03Add(Xor(p, q), r);
    Mul03Add(Xor(Xor(p, q), r), s);
  }

  lemma XTimeSum(p: bv8, q: bv8, r: bv8, s: bv8)
    ensures XTime(Xor4(p, q, r, s)) == Xor4(XTime(p), XTime(q), XTime(r), XTime(s))
  {
    hide XTime, Xor, Xor4;
    Pairwise(p, q, r, s);
    Pairwise(XTime(p), XTime(q), XTime(r), XTime(s));
    XTimeAdd(p, q);
    XTimeAdd(Xor(p, q), r);
    XTimeAdd(Xor(Xor(p, q), r), s);
  }

  lemma Mul09Sum(p: bv8, q: bv8, r: bv8, s: bv8)
    ensures Mul09(Xor4(p, q, r, s)) == Xor4(Mul09(p), Mul09(q), Mul09(r), Mul09(s))
  {
    hide Mul09, Xor, Xor4;
    Pairwise(p, q, r, s);
    Pairwise(Mul09(p), Mul09(q), Mul09(r), Mul09(s));
    Mul09Add(p, q);
    Mul09Add(Xor(p, q), r);
    Mul09Add(Xor(Xor(p, q), r), s);
  }

  lemma Mul0BSum(p: bv8, q: bv8, r: bv8, s: bv8)
    ensures Mul0B(Xor4(p, q, r, s)) == Xor4(Mul0B(p), Mul0B(q), Mul0B(r), Mul0B(s))
  {
    hide Mul0B, Xor, Xor4;
    Pairwise(p, q, r, s);
    Pairwise(Mul0B(p), Mul0B(q), Mul0B(r), Mul0B(s));
    Mul0BAdd(p, q);
    Mul0BAdd(Xor(p, q), r);
    Mul0BAdd(Xor(Xor(p, q), r), s);
  }

  lemma Mul0DSum(p: bv8, q: bv8, r: bv8, s: bv8)
    ensures Mul0D(Xor4(p, q, r, s)) == Xor4(Mul0D(p), Mul0D(q), Mul0D(r), Mul0D(s))
  {
    hide Mul0D, Xor, Xor4;
    Pairwise(p, q, r, s);
    Pairwise(Mul0D(p), Mul0D(q), Mul0D(r), Mul0D(s));
    Mul0DAdd(p, q);
    Mul0DAdd(Xor(p, q), r);
    Mul0DAdd(Xor(Xor(p, q), r), s);
  }

  lemma Mul0ESum(p: bv8, q: bv8, r: bv8, s: bv8)
    ensures Mul0E(Xor4(p, q, r, s)) == Xor4(Mul0E(p), Mul0E(q), Mul0E(r), Mul0E(s))
  {
    hide Mul0E, Xor, Xor4;
    Pairwise(p, q, r, s);
    Pairwise(Mul0E(p), Mul0E(q), Mul0E(r), Mul0E(s));
    Mul0EAdd(p, q);
    Mul0EAdd(Xor(p, q), r);
    Mul0EAdd(Xor(Xor(p, q), r), s);
  }

  // ---------------------------------------------------------------- MixColumns

  /** The product of the two coefficient rows is 1 on the diagonal and 0 elsewhere. */
  lemma InvMixCoefficients(x: bv8)
    ensures Xor4(Mul0E(XTime(x)), Mul0B(x), Mul0D(x), Mul09(Mul03(x))) == x
    ensures Xor4(Mul0E(Mul03(x)), Mul0B(XTime(x)), Mul0D(x), Mul09(x)) == 0
  {
  }

  lemma InvMixCoefficients'(x: bv8)
    ensures Xor4(Mul0E(x), Mul0B(Mul03(x)), Mul0D(XTime(x)), Mul09(x)) == 0
    ensures Xor4(Mul0E(x), Mul0B(x), Mul0D(Mul03(x)), Mul09(XTime(x))) == 0
  {
  }

  lemma MixCoefficients(x: bv8)
    ensures Xor4(XTime(Mul0E(x)), Mul03(Mul09(x)), Mul0D(x), Mul0B(x)) == x
    ensures Xor4(XTime(Mul0B(x)), Mul03(Mul0E(x)), Mul09(x), Mul0D(x)) == 0
  {
  }

  lemma MixCoefficients'(x: bv8)
    ensures Xor4(XTime(Mul0D(x)), Mul03(Mul0B(x)), Mul0E(x), Mul09(x)) == 0
    ensures Xor4(XTime(Mul09(x)), Mul03(Mul0D(x)), Mul0B(x), Mul0E(x)) == 0
  {
  }

  function Sum(a: Column): bv8 {
    Xor4(a.b0, a.b1, a.b2, a.b3)
  }

  lemma Halves(a: bv8, b: bv8, c: bv8, d: bv8)
    ensures Xor4(a, b, c, d) == Xor(Xor(a, b), Xor(c, d))
  {
    assert Xor4(a, b, c, d) == Xor(Xor(Xor(a, b), c), d);
    hide Xor, Xor4;
    XorAssociates(Xor(a, b), c, d);
  }

  lemma FourSums(p0: bv8, p1: bv8, p2: bv8, p3: bv8, q0: bv8, q1: bv8, q2: bv8, q3: bv8)
    ensures Xor4(Xor(p0, q0), Xor(p1, q1), Xor(p2, q2), Xor(p3, q3)) == Xor(Xor4(p0, p1, p2, p3), Xor4(q0, q1, q2, q3))
  {
    hide Xor, Xor4;
    Halves(Xor(p0, q0), Xor(p1, q1), Xor(p2, q2), Xor(p3, q3));
    Exchange(p0, q0, p1, q1);
    Exchange(p2, q2, p3, q3);
    Exchange(Xor(p0, p1), Xor(q0, q1), Xor(p2, p3), Xor(q2, q3));
    Halves(p0, p1, p2, p3);
    Halves(q0, q1, q2, q3);
  }

  /** The sum of the row sums of a 4x4 table is the sum of its column sums. */
  lemma Transpose(p: Column, q: Column, r: Column, s: Column)
    ensures Xor4(Sum(p), Sum(q), Sum(r), Sum(s))
         == Xor4(Xor4(p.b0, q.b0, r.b0, s.b0), Xor4(p.b1, q.b1, r.b1, s.b1),
                 Xor4(p.b2, q.b2, r.b2, s.b2), Xor4(p.b3, q.b3, r.b3, s.b3))
  {
    hide Xor, Xor4;
    Halves(Sum(p), Sum(q), Sum(r), Sum(s));
    FourSums(p.b0, p.b1, p.b2, p.b3, q.b0, q.b1, q.b2, q.b3);
    FourSums(r.b0, r.b1, r.b2, r.b3, s.b0, s.b1, s.b2, s.b3);
    var (u, v) := (Add(p, q), Add(r, s));
    FourSums(u.b0, u.b1, u.b2, u.b3, v.b0, v.b1, v.b2, v.b3);
    Halves(p.b0, q.b0, r.b0, s.b0);
    Halves(p.b1, q.b1, r.b1, s.b1);
    Halves(p.b2, q.b2, r.b2, s.b2);
    Halves(p.b3, q.b3, r.b3, s.b3);
  }

  lemma InvMixRowAdd(a: Column, b: Column)
    ensures InvMixRow(Xor(a.b0, b.b0), Xor(a.b1, b.b1), Xor(a.b2, b.b2), Xor(a.b3, b.b3))
         == Xor(InvMixRow(a.b0, a.b1, a.b2, a.b3), InvMixRow(b.b0, b.b1, b.b2, b.b3))
  {
    hide Mul09, Mul0B, Mul0D, Mul0E, Xor, Xor4;
    Mul0EAdd(a.b0, b.b0);
    Mul0BAdd(a.b1, b.b1);
    Mul0DAdd(a.b2, b.b2);
    Mul09Add(a.b3, b.b3);
    FourSums(Mul0E(a.b0), Mul0B(a.b1), Mul0D(a.b2), Mul09(a.b3), Mul0E(b.b0), Mul0B(b.b1), Mul0D(b.b2), Mul09(b.b3));
  }

  /** InvMixColumns is linear. */
  lemma InvMixColumnAdd(a: Column, b: Column)
    ensures InvMixColumn(Add(a, b)) == Add(InvMixColumn(a), InvMixColumn(b))
  {
    hide InvMixRow, Xor;
    InvMixRowAdd(a, b);
    InvMixRowAdd(RotWord(a), RotWord(b));
    InvMixRowAdd(RotWord(RotWord(a)), RotWord(RotWord(b)));
    InvMixRowAdd(RotWord(RotWord(RotWord(a))), RotWord(RotWord(RotWord(b))));
  }

  lemma InvMixRowOfMix(a0: bv8, a1: bv8, a2: bv8, a3: bv8)
    ensures InvMixRow(MixRow(a0, a1, a2, a3), MixRow(a1, a2, a3, a0), MixRow(a2, a3, a0, a1), MixRow(a3, a0, a1, a2))
        == a0
  {
    hide XTime, Mul03, Mul09, Mul0B, Mul0D, Mul0E, Xor4;
    Mul0ESum(XTime(a0), Mul03(a1), a2, a3);
    Mul0BSum(XTime(a1), Mul03(a2), a3, a0);
    Mul0DSum(XTime(a2), Mul03(a3), a0, a1);
    Mul09Sum(XTime(a3), Mul03(a0), a1, a2);
    Rotation(Mul0B(XTime(a1)), Mul0B(Mul03(a2)), Mul0B(a3), Mul0B(a0));
    Rotation(Mul0D(XTime(a2)), Mul0D(Mul03(a3)), Mul0D(a0), Mul0D(a1));
    Rotation(Mul0D(a1), Mul0D(XTime(a2)), Mul0D(Mul03(a3)), Mul0D(a0));
    Rotation(Mul09(Mul03(a0)), Mul09(a1), Mul09(a2), Mul09(XTime(a3)));
    Transpose(Column(Mul0E(XTime(a0)), Mul0E(Mul03(a1)), Mul0E(a2), Mul0E(a3)),
              Column(Mul0B(a0), Mul0B(XTime(a1)), Mul0B(Mul03(a2)), Mul0B(a3)),
              Column(Mul0D(a0), Mul0D(a1), Mul0D(XTime(a2)), Mul0D(Mul03(a3))),
              Column(Mul09(Mul03(a0)), Mul09(a1), Mul09(a2), Mul09(XTime(a3))));
    InvMixCoefficients(a0);
    InvMixCoefficients(a1);
    InvMixCoefficients'(a2);
    InvMixCoefficients'(a3);
    OneTerm(a0);
  }

  lemma Rotation(p: bv8, q: bv8, r: bv8, s: bv8)
    ensures Xor4(p, q, r, s) == Xor4(s, p, q, r)
  {
  }

  lemma OneTerm(x: bv8)
    ensures Xor4(x, 0, 0, 0) == x
  {
  }

  /** InvMixColumns undoes MixColumns. */
  lemma InvMixOfMix(a: Column)
    ensures InvMixColumn(MixColumn(a)) == a
  {
    hide MixRow, InvMixRow;
    InvMixRowOfMix(a.b0, a.b1, a.b2, a.b3);
    InvMixRowOfMix(a.b1, a.b2, a.b3, a.b0);
    InvMixRowOfMix(a.b2, a.b3, a.b0, a.b1);
    InvMixRowOfMix(a.b3, a.b0, a.b1, a.b2);
  }

  lemma MixRowOfInvMix(a0: bv8, a1: bv8, a2: bv8, a3: bv8)
    ensures MixRow(InvMixRow(a0, a1, a2, a3), InvMixRow(a1, a2, a3, a0), InvMixRow(a2, a3, a0, a1),
        InvMixRow(a3, a0, a1, a2)) == a0
  {
    hide XTime, Mul03, Mul09, Mul0B, Mul0D, Mul0E, Xor4;
    XTimeSum(Mul0E(a0), Mul0B(a1), Mul0D(a2), Mul09(a3));
    Mul03Sum(Mul0E(a1), Mul0B(a2), Mul0D(a3), Mul09(a0));
    Rotation(Mul03(Mul0E(a1)), Mul03(Mul0B(a2)), Mul03(Mul0D(a3)), Mul03(Mul09(a0)));
    Rotation(Mul0E(a2), Mul0B(a3), Mul0D(a0), Mul09(a1));
    Rotation(Mul09(a1), Mul0E(a2), Mul0B(a3), Mul0D(a0));
    Rotation(Mul0B(a0), Mul0D(a1), Mul09(a2), Mul0E(a3));
    Transpose(Column(XTime(Mul0E(a0)), XTime(Mul0B(a1)), XTime(Mul0D(a2)), XTime(Mul09(a3))),
              Column(Mul03(Mul09(a0)), Mul03(Mul0E(a1)), Mul03(Mul0B(a2)), Mul03(Mul0D(a3))),
              Column(Mul0D(a0), Mul09(a1), Mul0E(a2), Mul0B(a3)),
              Column(Mul0B(a0), Mul0D(a1), Mul09(a2), Mul0E(a3)));
    MixCoefficients(a0);
    MixCoefficients(a1);
    MixCoefficients'(a2);
    MixCoefficients'(a3);
    OneTerm(a0);
  }

  /** MixColumns undoes InvMixColumns. */
  lemma MixOfInvMix(a: Column)
    ensures MixColumn(InvMixColumn(a)) == a
  {
    hide MixRow, InvMixRow;
    MixRowOfInvMix(a.b0, a.b1, a.b2, a.b3);
    MixRowOfInvMix(a.b1, a.b2, a.b3, a.b0);
    MixRowOfInvMix(a.b2, a.b3, a.b0, a.b1);
    MixRowOfInvMix(a.b3, a.b0, a.b1, a.b2);
  }

  // ---------------------------------------------------------------- the state transformations

  lemma AddTwice(a: Column, k: Column)
    ensures Add(Add(a, k), k) == a
  {
  }

  lemma AddRoundKeyTwice(a: State, k: State)
    ensures AddRoundKey(AddRoundKey(a, k), k) == a
  {
    hide Add;
    AddTwice(a.c0, k.c0);
    AddTwice(a.c1, k.c1);
    AddTwice(a.c2, k.c2);
    AddTwice(a.c3, k.c3);
  }

  lemma InvMixColumnsOfMix(a: State)
    ensures InvMixColumns(MixColumns(a)) == a
  {
    hide MixColumn, InvMixColumn;
    InvMixOfMix(a.c0);
    InvMixOfMix(a.c1);
    InvMixOfMix(a.c2);
    InvMixOfMix(a.c3);
  }

  lemma MixColumnsOfInvMix(a: State)
    ensures MixColumns(InvMixColumns(a)) == a
  {
    hide MixColumn, InvMixColumn;
    MixOfInvMix(a.c0);
    MixOfInvMix(a.c1);
    MixOfInvMix(a.c2);
    MixOfInvMix(a.c3);
  }

  lemma InvMixColumnsAdd(a: State, k: State)
    ensures InvMixColumns(AddRoundKey(a, k)) == AddRoundKey(InvMixColumns(a), InvMixColumns(k))
  {
    hide Add, InvMixColumn;
    InvMixColumnAdd(a.c0, k.c0);
    InvMixColumnAdd(a.c1, k.c1);
    InvMixColumnAdd(a.c2, k.c2);
    InvMixColumnAdd(a.c3, k.c3);
  }

  /** SubBytes works on single bytes, so it commutes with InvShiftRows. */
  lemma SubShiftCommute(f: bv8 -> bv8, a: State)
    ensures SubBytes(f, InvShiftRows(a)) == InvShiftRows(SubBytes(f, a))
  {
  }

  // ---------------------------------------------------------------- the equivalent inverse cipher

  lemma {:induction false} EqInvRoundsMatch(box: SBox, y: State, keys: Schedule, r: nat)
    requires r + 1 < |keys|
    ensures EqInvRounds(box, y, InvSchedule(keys), r) == InvRounds(box, y, keys, r)
  {
    hide AddRoundKey, SubBytes, InvShiftRows, InvMixColumns;
    if r > 0 {
      EqInvRoundsMatch(box, y, keys, r - 1);
      var z := InvRounds(box, y, keys, r - 1);
      SubShiftCommute(box.si, z);
      InvMixColumnsAdd(InvShiftRows(SubBytes(box.si, z)), keys[|keys| - 1 - r]);
    }
  }

  /** Section 5.3.5: the equivalent inverse cipher, run on the transformed schedule, is the inverse cipher. */
  lemma EqInvCipherIsInvCipher(box: SBox, y: State, keys: Schedule)
    ensures EqInvCipher(box, y, InvSchedule(keys)) == InvCipher(box, y, keys)
  {
    hide AddRoundKey, SubBytes, InvShiftRows, InvMixColumns;
    var nr := |keys| - 1;
    EqInvRoundsMatch(box, y, keys, nr - 1);
    SubShiftCommute(box.si, InvRounds(box, y, keys, nr - 1));
  }

  // ---------------------------------------------------------------- decryption inverts encryption

  /** Round r of the inverse cipher meets round Nr - 1 - r of the cipher. */
  lemma {:induction false} RoundsMeet(box: SBox, x: State, keys: Schedule, r: nat)
    requires Inverse(box) && r + 1 < |keys|
    ensures InvRounds(box, Cipher(box, x, keys), keys, r)
         == ShiftRows(SubBytes(box.s, CipherRounds(box, x, keys, |keys| - 2 - r)))
  {
    hide AddRoundKey, SubBytes, ShiftRows, InvShiftRows, MixColumns, InvMixColumns;
    var nr := |keys| - 1;
    var u := ShiftRows(SubBytes(box.s, CipherRounds(box, x, keys, nr - 1 - r)));
    if r == 0 {
      AddRoundKeyTwice(u, keys[nr]);
    } else {
      RoundsMeet(box, x, keys, r - 1);
      UndoSub(box, CipherRounds(box, x, keys, nr - r));
      AddRoundKeyTwice(MixColumns(u), keys[nr - r]);
      InvMixColumnsOfMix(u);
    }
  }

  lemma UndoSub(box: SBox, a: State)
    requires Inverse(box)
    ensures SubBytes(box.si, InvShiftRows(ShiftRows(SubBytes(box.s, a)))) == a
    ensures ShiftRows(SubBytes(box.s, SubBytes(box.si, InvShiftRows(a)))) == a
  {
  }

  lemma DecryptAfterEncrypt(box: SBox, x: State, keys: Schedule)
    requires Inverse(box)
    ensures InvCipher(box, Cipher(box, x, keys), keys) == x
  {
    hide AddRoundKey, SubBytes, ShiftRows, InvShiftRows, MixColumns, InvMixColumns;
    RoundsMeet(box, x, keys, |keys| - 2);
    UndoSub(box, CipherRounds(box, x, keys, 0));
    AddRoundKeyTwice(x, keys[0]);
  }

  /** Round r of the cipher meets round Nr - 1 - r of the inverse cipher. */
  lemma {:induction false} RoundsMeetBack(box: SBox, y: State, keys: Schedule, r: nat)
    requires Inverse(box) && r + 1 < |keys|
    ensures CipherRounds(box, InvCipher(box, y, keys), keys, r)
         == SubBytes(box.si, InvShiftRows(InvRounds(box, y, keys, |keys| - 2 - r)))
  {
    hide AddRoundKey, SubBytes, ShiftRows, InvShiftRows, MixColumns, InvMixColumns;
    var nr := |keys| - 1;
    var u := SubBytes(box.si, InvShiftRows(InvRounds(box, y, keys, nr - 1 - r)));
    if r == 0 {
      AddRoundKeyTwice(u, keys[0]);
    } else {
      RoundsMeetBack(box, y, keys, r - 1);
      UndoSub(box, InvRounds(box, y, keys, nr - r));
      MixColumnsOfInvMix(AddRoundKey(u, keys[r]));
      AddRoundKeyTwice(u, keys[r]);
    }
  }

  lemma EncryptAfterDecrypt(box: SBox, y: State, keys: Schedule)
    requires Inverse(box)
    ensures Cipher(box, InvCipher(box, y, keys), keys) == y
  {
    hide AddRoundKey, SubBytes, ShiftRows, InvShiftRows, MixColumns, InvMixColumns;
    var nr := |keys| - 1;
    RoundsMeetBack(box, y, keys, nr - 1);
    UndoSub(box, InvRounds(box, y, keys, 0));
    AddRoundKeyTwice(y, keys[nr]);
  }
}
