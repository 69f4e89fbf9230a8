/**
 The field, the matrices and the row shifts of FIPS 197 by their definitions, and entries of the tables
 in aes.c: what the formulas of `AesSpec` and `AesWords` have to agree with.
 */
module AesTables {
  import opened AesSpec
  import opened AesWords
  import opened AesCipher

  // ---------------------------------------------------------------- GF(2^8), section 4.2

  /** XTime multiplies by x modulo x^8 + x^4 + x^3 + x + 1. */
  lemma XTimeReduces(a: bv8)
    ensures var doubled := (a as bv16) << 1;
            XTime(a) as bv16 == if doubled & 0x100 == 0 then doubled else doubled ^ 0x11b
  {
  }

  function TermIf(term: bool, a: bv8): bv8 {
    if term then a else 0
  }

  /** The product in the field: the sum of a * x^k over the terms x^k of `b`. */
  function Product(a: bv8, b: bv8): bv8 {
    var a1 := XTime(a);
    var a2 := XTime(a1);
    var a3 := XTime(a2);
    var a4 := XTime(a3);
    var a5 := XTime(a4);
    var a6 := XTime(a5);
    var a7 := XTime(a6);
    Xor(Xor4(TermIf(b & 0x01 != 0, a), TermIf(b & 0x02 != 0, a1),
             TermIf(b & 0x04 != 0, a2), TermIf(b & 0x08 != 0, a3)),
        Xor4(TermIf(b & 0x10 != 0, a4), TermIf(b & 0x20 != 0, a5),
             TermIf(b & 0x40 != 0, a6), TermIf(b & 0x80 != 0, a7)))
  }

  lemma Zeros(x: bv8, y: bv8, z: bv8, w: bv8)
    ensures Xor(Xor4(x, y, 0, 0), Xor4(0, 0, 0, 0)) == Xor(x, y)
    ensures Xor(Xor4(x, y, z, w), Xor4(0, 0, 0, 0)) == Xor(Xor(x, y), Xor(z, w))
  {
  }

  lemma Arranged(x: bv8, y: bv8, z: bv8)
    ensures Xor(0, x) == x && Xor(x, 0) == x && Xor(x, y) == Xor(y, x) && Xor(Xor(x, y), z) == Xor(x, Xor(y, z))
  {
  }

  /** The multiples that the cipher uses are products in the field. */
  lemma ForwardMultiples(x: bv8)
    ensures XTime(x) == Product(x, 0x02) && Mul03(x) == Product(x, 0x03)
  {
    hide XTime, Xor, Xor4;
    Zeros(0, XTime(x), 0, 0);
    Zeros(x, XTime(x), 0, 0);
    Arranged(XTime(x), x, 0);
  }

  lemma Multiple09(x: bv8)
    ensures Mul09(x) == Product(x, 0x09)
  {
    hide XTime, Xor, Xor4;
    var x3 := XTime(XTime(XTime(x)));
    Zeros(x, 0, 0, x3);
    Arranged(x, x3, 0);
    Arranged(x3, x, 0);
  }

  lemma Multiple0B(x: bv8)
    ensures Mul0B(x) == Product(x, 0x0b)
  {
    hide XTime, Xor, Xor4;
    var x1, x3 := XTime(x), XTime(XTime(XTime(x)));
    Zeros(x, x1, 0, x3);
    Arranged(x3, x1, x);
    Arranged(x1, x, x3);
    Arranged(x3, Xor(x1, x), 0);
  }

  lemma Multiple0D(x: bv8)
    ensures Mul0D(x) == Product(x, 0x0d)
  {
    hide XTime, Xor, Xor4;
    var x2, x3 := XTime(XTime(x)), XTime(XTime(XTime(x)));
    Zeros(x, 0, x2, x3);
    Arranged(x, Xor(x2, x3), 0);
    Arranged(x2, x3, x);
  }

  lemma Multiple0E(x: bv8)
    ensures Mul0E(x) == Product(x, 0x0e)
  {
    hide XTime, Xor, Xor4;
    var x1, x2, x3 := XTime(x), XTime(XTime(x)), XTime(XTime(XTime(x)));
    Zeros(0, x1, x2, x3);
    Arranged(x1, Xor(x2, x3), 0);
    Arranged(x2, x3, x1);
  }

  // ---------------------------------------------------------------- sections 5.1.2, 5.1.3, 5.3.1 and 5.3.3

  function ByteAt(a: State, r: nat, c: nat): bv8
    requires r < 4 && c < 4
  {
    RowAt(ColumnAt(a, c), r)
  }

  /** Row r is shifted r places to the left, and back. */
  lemma ShiftRowsMoves(a: State, r: nat, c: nat)
    requires r < 4 && c < 4
    ensures ByteAt(ShiftRows(a), r, c) == ByteAt(a, r, (c + r) % 4)
    ensures ByteAt(InvShiftRows(a), r, (c + r) % 4) == ByteAt(a, r, c)
  {
    if r == 0 {
    } else if r == 1 {
    } else if r == 2 {
    } else {
    }
  }

  lemma RowOfMix(a0: bv8, a1: bv8, a2: bv8, a3: bv8)
    ensures MixRow(a0, a1, a2, a3) == Xor4(Product(a0, 0x02), Product(a1, 0x03), a2, a3)
  {
    hide XTime, Mul03, Product, Xor4;
    ForwardMultiples(a0);
    ForwardMultiples(a1);
  }

  lemma RowOfInvMix(a0: bv8, a1: bv8, a2: bv8, a3: bv8)
    ensures InvMixRow(a0, a1, a2, a3)
         == Xor4(Product(a0, 0x0e), Product(a1, 0x0b), Product(a2, 0x0d), Product(a3, 0x09))
  {
    hide Mul09, Mul0B, Mul0D, Mul0E, Product, Xor4;
    Multiple0E(a0);
    Multiple0B(a1);
    Multiple0D(a2);
    Multiple09(a3);
  }

  /** MixColumns is the circulant matrix with the row 02 03 01 01. */
  lemma MixIsMatrix(a: Column)
    ensures MixColumn(a) == Column(
              Xor4(Product(a.b0, 0x02), Product(a.b1, 0x03), a.b2, a.b3),
              Xor4(Product(a.b1, 0x02), Product(a.b2, 0x03), a.b3, a.b0),
              Xor4(Product(a.b2, 0x02), Product(a.b3, 0x03), a.b0, a.b1),
              Xor4(Product(a.b3, 0x02), Product(a.b0, 0x03), a.b1, a.b2))
  {
    hide MixRow, Product, Xor4;
    RowOfMix(a.b0, a.b1, a.b2, a.b3);
    RowOfMix(a.b1, a.b2, a.b3, a.b0);
    RowOfMix(a.b2, a.b3, a.b0, a.b1);
    RowOfMix(a.b3, a.b0, a.b1, a.b2);
  }

  /** InvMixColumns is the one with the row 0e 0b 0d 09. */
  lemma InvMixIsMatrix(a: Column)
    ensures InvMixColumn(a) == Column(
              Xor4(Product(a.b0, 0x0e), Product(a.b1, 0x0b), Product(a.b2, 0x0d), Product(a.b3, 0x09)),
              Xor4(Product(a.b1, 0x0e), Product(a.b2, 0x0b), Product(a.b3, 0x0d), Product(a.b0, 0x09)),
              Xor4(Product(a.b2, 0x0e), Product(a.b3, 0x0b), Product(a.b0, 0x0d), Product(a.b1, 0x09)),
              Xor4(Product(a.b3, 0x0e), Product(a.b0, 0x0b), Product(a.b1, 0x0d), Product(a.b2, 0x09)))
  {
    hide InvMixRow, Product, Xor4;
    RowOfInvMix(a.b0, a.b1, a.b2, a.b3);
    RowOfInvMix(a.b1, a.b2, a.b3, a.b0);
    RowOfInvMix(a.b2, a.b3, a.b0, a.b1);
    RowOfInvMix(a.b3, a.b0, a.b1, a.b2);
  }

  // ---------------------------------------------------------------- table entries

  /** With the first entries of the S-box, the formulas give the first entries of Te0 to Te4. */
  lemma EncryptionEntries(box: SBox)
    requires box.s(0) == 0x63 && box.s(1) == 0x7c && box.s(2) == 0x77 && box.s(3) == 0x7b
    ensures Te0(box, 0) == 0xc66363a5 && Te0(box, 1) == 0xf87c7c84 && Te0(box, 2) == 0xee777799
        && Te0(box, 3) == 0xf67b7b8d
    ensures Te1(box, 0) == 0xa5c66363 && Te1(box, 1) == 0x84f87c7c && Te1(box, 2) == 0x99ee7777
        && Te1(box, 3) == 0x8df67b7b
    ensures Te2(box, 0) == 0x63a5c663 && Te2(box, 1) == 0x7c84f87c && Te2(box, 2) == 0x7799ee77
        && Te2(box, 3) == 0x7b8df67b
    ensures Te3(box, 0) == 0x6363a5c6 && Te3(box, 1) == 0x7c7c84f8 && Te3(box, 2) == 0x777799ee
        && Te3(box, 3) == 0x7b7b8df6
    ensures T4(box.s, 0) == 0x63636363 && T4(box.s, 1) == 0x7c7c7c7c
  {
  }

  /** With those of its inverse, the first entries of Td0 to Td4. */
  lemma DecryptionEntries(box: SBox)
    requires box.si(0) == 0x52 && box.si(1) == 0x09 && box.si(2) == 0x6a && box.si(3) == 0xd5
    ensures Td0(box, 0) == 0x51f4a750 && Td0(box, 1) == 0x7e416553 && Td0(box, 2) == 0x1a17a4c3
        && Td0(box, 3) == 0x3a275e96
    ensures Td1(box, 0) == 0x5051f4a7 && Td1(box, 1) == 0x537e4165 && Td1(box, 2) == 0xc31a17a4
        && Td1(box, 3) == 0x963a275e
    ensures Td2(box, 0) == 0xa75051f4 && Td2(box, 1) == 0x65537e41 && Td2(box, 2) == 0xa4c31a17
        && Td2(box, 3) == 0x5e963a27
    ensures Td3(box, 0) == 0xf4a75051 && Td3(box, 1) == 0x4165537e && Td3(box, 2) == 0x17a4c31a
        && Td3(box, 3) == 0x275e963a
    ensures T4(box.si, 0) == 0x52525252 && T4(box.si, 1) == 0x09090909
  {
  }
}
