/**
 The cipher of FIPS 197: state transformations, key expansion, cipher and inverse cipher.
 The substitution tables are parameters; the theorems ask only that they invert each other.
 */
module AesSpec {

  /** A column of the state, or a word of the key schedule; `b0` is row 0. */
  datatype Column = Column(b0: bv8, b1: bv8, b2: bv8, b3: bv8)

  datatype State = State(c0: Column, c1: Column, c2: Column, c3: Column)

  /** The S-box and its inverse. */
  datatype SBox = SBox(s: bv8 -> bv8, si: bv8 -> bv8)

  ghost predicate Inverse(box: SBox) {
    forall x: bv8 :: box.si(box.s(x)) == x && box.s(box.si(x)) == x
  }

  // ---------------------------------------------------------------- GF(2^8), section 4

  /** Addition in GF(2^8). */
  function Xor(x: bv8, y: bv8): bv8 { x ^ y }
  function Xor4(x: bv8, y: bv8, z: bv8, w: bv8): bv8 { x ^ y ^ z ^ w }

  function XTime(x: bv8): bv8 {
    (x << 1) ^ (if x & 0x80 == 0 then 0 else 0x1b)
  }

  function Mul03(x: bv8): bv8 { Xor(XTime(x), x) }
  function Mul09(x: bv8): bv8 { Xor(XTime(XTime(XTime(x))), x) }
  function Mul0B(x: bv8): bv8 { Xor(Xor(XTime(XTime(XTime(x))), XTime(x)), x) }
  function Mul0D(x: bv8): bv8 { Xor(Xor(XTime(XTime(XTime(x))), XTime(XTime(x))), x) }
  function Mul0E(x: bv8): bv8 { Xor(Xor(XTime(XTime(XTime(x))), XTime(XTime(x))), XTime(x)) }

  // ---------------------------------------------------------------- columns

  function Add(a: Column, b: Column): Column {
    Column(Xor(a.b0, b.b0), Xor(a.b1, b.b1), Xor(a.b2, b.b2), Xor(a.b3, b.b3))
  }

  /** One row of MixColumns; the other rows apply it to the rotated column. */
  function MixRow(a0: bv8, a1: bv8, a2: bv8, a3: bv8): bv8 {
    Xor4(XTime(a0), Mul03(a1), a2, a3)
  }

  function InvMixRow(a0: bv8, a1: bv8, a2: bv8, a3: bv8): bv8 {
    Xor4(Mul0E(a0), Mul0B(a1), Mul0D(a2), Mul09(a3))
  }

  function MixColumn(a: Column): Column {
    Column(MixRow(a.b0, a.b1, a.b2, a.b3), MixRow(a.b1, a.b2, a.b3, a.b0),
           MixRow(a.b2, a.b3, a.b0, a.b1), MixRow(a.b3, a.b0, a.b1, a.b2))
  }

  function InvMixColumn(a: Column): Column {
    Column(InvMixRow(a.b0, a.b1, a.b2, a.b3), InvMixRow(a.b1, a.b2, a.b3, a.b0),
           InvMixRow(a.b2, a.b3, a.b0, a.b1), InvMixRow(a.b3, a.b0, a.b1, a.b2))
  }

  function Apply(f: bv8 -> bv8, a: Column): Column {
    Column(f(a.b0), f(a.b1), f(a.b2), f(a.b3))
  }

  function RotWord(a: Column): Column {
    Column(a.b1, a.b2, a.b3, a.b0)
  }

  // ---------------------------------------------------------------- the state, sections 5.1 and 5.3

  function AddRoundKey(a: State, k: State): State {
    State(Add(a.c0, k.c0), Add(a.c1, k.c1), Add(a.c2, k.c2), Add(a.c3, k.c3))
  }

  function SubBytes(f: bv8 -> bv8, a: State): State {
    State(Apply(f, a.c0), Apply(f, a.c1), Apply(f, a.c2), Apply(f, a.c3))
  }

  /** Row r moves r columns to the left. */
  function ShiftRows(a: State): State {
    State(Column(a.c0.b0, a.c1.b1, a.c2.b2, a.c3.b3),
          Column(a.c1.b0, a.c2.b1, a.c3.b2, a.c0.b3),
          Column(a.c2.b0, a.c3.b1, a.c0.b2, a.c1.b3),
          Column(a.c3.b0, a.c0.b1, a.c1.b2, a.c2.b3))
  }

  function InvShiftRows(a: State): State {
    State(Column(a.c0.b0, a.c3.b1, a.c2.b2, a.c1.b3),
          Column(a.c1.b0, a.c0.b1, a.c3.b2, a.c2.b3),
          Column(a.c2.b0, a.c1.b1, a.c0.b2, a.c3.b3),
          Column(a.c3.b0, a.c2.b1, a.c1.b2, a.c0.b3))
  }

  function MixColumns(a: State): State {
    State(MixColumn(a.c0), MixColumn(a.c1), MixColumn(a.c2), MixColumn(a.c3))
  }

  function InvMixColumns(a: State): State {
    State(InvMixColumn(a.c0), InvMixColumn(a.c1), InvMixColumn(a.c2), InvMixColumn(a.c3))
  }

  // ---------------------------------------------------------------- the cipher, section 5.1

  /** A key schedule: `keys[r]` is the round key of round r; there are Nr + 1 of them. */
  type Schedule = ks: seq<State> | |ks| > 1 witness [ZERO, ZERO]
  const ZERO_COLUMN := Column(0, 0, 0, 0)
  const ZERO := State(ZERO_COLUMN, ZERO_COLUMN, ZERO_COLUMN, ZERO_COLUMN)

  /** The state after the initial key addition and r full rounds. */
  function CipherRounds(box: SBox, x: State, keys: Schedule, r: nat): State
    requires r < |keys|
  {
    if r == 0 then AddRoundKey(x, keys[0])
    else AddRoundKey(MixColumns(ShiftRows(SubBytes(box.s, CipherRounds(box, x, keys, r - 1)))), keys[r])
  }

  function Cipher(box: SBox, x: State, keys: Schedule): State {
    var nr := |keys| - 1;
    AddRoundKey(ShiftRows(SubBytes(box.s, CipherRounds(box, x, keys, nr - 1))), keys[nr])
  }

  // ---------------------------------------------------------------- the inverse cipher, section 5.3

  /** The state after the key addition of round Nr and r inverse rounds. */
  function InvRounds(box: SBox, y: State, keys: Schedule, r: nat): State
    requires r < |keys|
  {
    var nr := |keys| - 1;
    if r == 0 then AddRoundKey(y, keys[nr])
    else InvMixColumns(AddRoundKey(SubBytes(box.si, InvShiftRows(InvRounds(box, y, keys, r - 1))), keys[nr - r]))
  }

  function InvCipher(box: SBox, y: State, keys: Schedule): State {
    var nr := |keys| - 1;
    AddRoundKey(SubBytes(box.si, InvShiftRows(InvRounds(box, y, keys, nr - 1))), keys[0])
  }

  // ---------------------------------------------------------------- the equivalent inverse cipher, section 5.3.5

  /** The decryption schedule: reversed, with InvMixColumns applied to the inner round keys. */
  function InvSchedule(keys: Schedule): (r: Schedule)
    ensures |r| == |keys|
  {
    var nr := |keys| - 1;
    seq(|keys|, r requires 0 <= r < |keys| =>
      if r == 0 || r == nr then keys[nr - r] else InvMixColumns(keys[nr - r]))
  }

  function EqInvRounds(box: SBox, y: State, dkeys: Schedule, r: nat): State
    requires r < |dkeys|
  {
    if r == 0 then AddRoundKey(y, dkeys[0])
    else AddRoundKey(InvMixColumns(InvShiftRows(SubBytes(box.si, EqInvRounds(box, y, dkeys, r - 1)))), dkeys[r])
  }

  function EqInvCipher(box: SBox, y: State, dkeys: Schedule): State {
    var nr := |dkeys| - 1;
    AddRoundKey(InvShiftRows(SubBytes(box.si, EqInvRounds(box, y, dkeys, nr - 1))), dkeys[nr])
  }

  // ---------------------------------------------------------------- key expansion, section 5.2

  /** The round constant word Rcon[j], j >= 1. */
  function Rcon(j: nat): Column {
    Column(RconByte(j), 0, 0, 0)
  }

  function RconByte(j: nat): bv8 {
    if j <= 1 then 1 else XTime(RconByte(j - 1))
  }

  /** Word i of the schedule expanded from a key of Nk words. */
  function ExpandedWord(box: SBox, key: seq<Column>, i: nat): Column
    requires key != []
  {
    var nk := |key|;
    if i < nk then key[i]
    else
      var temp := ExpandedWord(box, key, i - 1);
      var temp' :=
        if i % nk == 0 then Add(Apply(box.s, RotWord(temp)), Rcon(i / nk))
        else if nk > 6 && i % nk == 4 then Apply(box.s, temp)
        else temp;
      Add(ExpandedWord(box, key, i - nk), temp')
  }

  function ExpandedKey(box: SBox, key: seq<Column>, nr: nat): Schedule
    requires key != [] && nr > 0
  {
    seq(nr + 1, r requires 0 <= r < nr + 1 =>
      State(ExpandedWord(box, key, 4 * r), ExpandedWord(box, key, 4 * r + 1),
            ExpandedWord(box, key, 4 * r + 2), ExpandedWord(box, key, 4 * r + 3)))
  }
}

