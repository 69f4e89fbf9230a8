/** The key set-up routines of aes.c. */
module AesKeySchedule {
  import opened AesSpec
  import opened AesTheory
  import opened AesWords

  const AES_MAXNR := 14

  class AesKey {
    const rdKey: array<Word>
    var rounds: int

    constructor ()
      ensures rdKey.Length == 4 * (AES_MAXNR + 1) && fresh(rdKey)
    {
      rdKey := new Word[4 * (AES_MAXNR + 1)](_ => 0);
      rounds := 0;
    }

    /** A key that AES_set_encrypt_key or AES_set_decrypt_key has filled in. */
    ghost predicate Valid()
      reads this, rdKey
    {
      && rdKey.Length == 4 * (AES_MAXNR + 1)
      && rounds in {10, 12, 14}
      && forall k | 0 <= k < 4 * (rounds + 1) :: rdKey[k] < LIMIT
    }

    /** The round keys held in `rdKey`. */
    ghost function Keys(): Schedule
      reads this, rdKey
      requires Valid()
    {
      ScheduleOf(rdKey[..], rounds)
    }
  }

  ghost function RoundKey(words: seq<Word>, r: nat): State
    requires 4 * r + 4 <= |words|
  {
    State(Unpack(words[4 * r]), Unpack(words[4 * r + 1]), Unpack(words[4 * r + 2]), Unpack(words[4 * r + 3]))
  }

  ghost function ScheduleOf(words: seq<Word>, nr: nat): (keys: Schedule)
    requires nr > 0 && 4 * (nr + 1) <= |words|
    ensures |keys| == nr + 1
  {
    seq(nr + 1, r requires 0 <= r < nr + 1 => RoundKey(words, r))
  }

  function GetU32(p: array<bv8>, at: nat): Word
    requires at + 4 <= p.Length
    reads p
  {
    Pack(Column(p[at], p[at + 1], p[at + 2], p[at + 3]))
  }

  /** The cipher key as words. */
  ghost function KeyWords(userKey: seq<bv8>, nk: nat): seq<Column>
    requires 4 * nk <= |userKey|
  {
    seq(nk, i requires 0 <= i < nk =>
      Column(userKey[4 * i], userKey[4 * i + 1], userKey[4 * i + 2], userKey[4 * i + 3]))
  }

  /** The first `n` words are the FIPS 197 expansion of the key. */
  ghost predicate Expanded(words: seq<Word>, box: SBox, key: seq<Column>, n: nat)
    requires key != [] && n <= |words|
  {
    forall k: nat | k < n :: words[k] == Pack(ExpandedWord(box, key, k))
  }

  /** rk[at] = rk[at - nk] ^ rk[at - 1] */
  method PutXor(box: SBox, rd: array<Word>, at: nat, ghost key: seq<Column>, nk: nat)
    requires 4 <= |key| == nk <= at < rd.Length && at % nk != 0 && !(nk > 6 && at % nk == 4)
    requires Expanded(rd[..], box, key, at)
    modifies rd
    ensures Expanded(rd[..], box, key, at + 1)
    ensures forall k | 0 <= k < rd.Length && k != at :: rd[k] == old(rd[k])
  {
    hide Pack, WXor, ExpandedWord, RotSubXor, SubXor;
    ScheduleWord(box, key, at);
    rd[at] := WXor(rd[at - nk], rd[at - 1]);
  }

  /** The first word of a group: rotated, substituted, with a round constant. */
  method PutRotated(box: SBox, rd: array<Word>, at: nat, ghost key: seq<Column>, nk: nat, i: nat)
    requires 4 <= |key| == nk <= at < rd.Length && i < |RCON| && at == nk * (i + 1) && nk in {4, 6, 8}
    requires Expanded(rd[..], box, key, at)
    modifies rd
    ensures Expanded(rd[..], box, key, at + 1)
    ensures forall k | 0 <= k < rd.Length && k != at :: rd[k] == old(rd[k])
  {
    hide Pack, WXor, ExpandedWord, RotSubXor, SubXor;
    Multiple(at, nk, i + 1);
    ScheduleWord(box, key, at);
    RconTable(i);
    var temp := rd[at - 1];
    rd[at] := WXor(RotSubXor(box.s, rd[at - nk], temp), RCON[i]);
  }

  /** The middle word of a 256-bit group: substituted only. */
  method PutSubstituted(box: SBox, rd: array<Word>, at: nat, ghost key: seq<Column>)
    requires |key| == 8 <= at < rd.Length && at % 8 == 4
    requires Expanded(rd[..], box, key, at)
    modifies rd
    ensures Expanded(rd[..], box, key, at + 1)
    ensures forall k | 0 <= k < rd.Length && k != at :: rd[k] == old(rd[k])
  {
    hide Pack, WXor, ExpandedWord, RotSubXor, SubXor;
    ScheduleWord(box, key, at);
    var temp := rd[at - 1];
    rd[at] := SubXor(box.s, rd[at - 8], temp);
  }

  lemma Multiple(n: nat, d: nat, q: nat)
    requires d in {4, 6, 8} && n == d * q
    ensures n % d == 0 && n / d == q
  {
    if d == 4 {} else if d == 6 {} else {}
  }

  method Expand128(box: SBox, rd: array<Word>, ghost key: seq<Column>)
    requires rd.Length == 60 && |key| == 4 && Expanded(rd[..], box, key, 4)
    modifies rd
    ensures Expanded(rd[..], box, key, 44) && forall k | 44 <= k < 60 :: rd[k] == old(rd[k])
  {
    var i, rk := 0, 0;
    while true
      invariant 0 <= i < 10 && rk == 4 * i
      invariant Expanded(rd[..], box, key, rk + 4)
      invariant forall k | rk + 4 <= k < 60 :: rd[k] == old(rd[k])
      decreases 10 - i
    {
      PutRotated(box, rd, rk + 4, key, 4, i);
      PutXor(box, rd, rk + 5, key, 4);
      PutXor(box, rd, rk + 6, key, 4);
      PutXor(box, rd, rk + 7, key, 4);
      i := i + 1;
      if i == 10 { return; }
      rk := rk + 4;
    }
  }

  method Expand192(box: SBox, rd: array<Word>, ghost key: seq<Column>)
    requires rd.Length == 60 && |key| == 6 && Expanded(rd[..], box, key, 6)
    modifies rd
    ensures Expanded(rd[..], box, key, 52) && forall k | 52 <= k < 60 :: rd[k] == old(rd[k])
  {
    var i, rk := 0, 0;
    while true
      invariant 0 <= i < 8 && rk == 6 * i
      invariant Expanded(rd[..], box, key, rk + 6)
      invariant forall k | rk + 6 <= k < 60 :: rd[k] == old(rd[k])
      decreases 8 - i
    {
      PutRotated(box, rd, rk + 6, key, 6, i);
      PutXor(box, rd, rk + 7, key, 6);
      PutXor(box, rd, rk + 8, key, 6);
      PutXor(box, rd, rk + 9, key, 6);
      i := i + 1;
      if i == 8 { return; }
      PutXor(box, rd, rk + 10, key, 6);
      PutXor(box, rd, rk + 11, key, 6);
      rk := rk + 6;
    }
  }

  lemma InGroupOfEight(i: nat, rk: nat)
    requires rk == 8 * i
    ensures (rk + 8) % 8 == 0 && (rk + 9) % 8 == 1 && (rk + 10) % 8 == 2 && (rk + 11) % 8 == 3
    ensures (rk + 12) % 8 == 4 && (rk + 13) % 8 == 5 && (rk + 14) % 8 == 6 && (rk + 15) % 8 == 7
  {
  }

  method Expand256(box: SBox, rd: array<Word>, ghost key: seq<Column>)
    requires rd.Length == 60 && |key| == 8 && Expanded(rd[..], box, key, 8)
    modifies rd
    ensures Expanded(rd[..], box, key, 60)
  {
    var i, rk := 0, 0;
    while true
      invariant 0 <= i < 7 && rk == 8 * i
      invariant Expanded(rd[..], box, key, rk + 8)
      decreases 7 - i
    {
      InGroupOfEight(i, rk);
      hide Expanded;
      PutRotated(box, rd, rk + 8, key, 8, i);
      PutXor(box, rd, rk + 9, key, 8);
      PutXor(box, rd, rk + 10, key, 8);
      PutXor(box, rd, rk + 11, key, 8);
      i := i + 1;
      if i == 7 { return; }
      PutSubstituted(box, rd, rk + 12, key);
      PutXor(box, rd, rk + 13, key, 8);
      PutXor(box, rd, rk + 14, key, 8);
      PutXor(box, rd, rk + 15, key, 8);
      rk := rk + 8;
    }
  }

  /** rk[i] = GETU32(userKey + 4 * i) */
  method LoadWord(rd: array<Word>, userKey: array<bv8>, i: nat, ghost nk: nat, ghost box: SBox)
    requires i < nk && 4 * nk <= userKey.Length && nk <= rd.Length
    requires Expanded(rd[..], box, KeyWords(userKey[..], nk), i)
    modifies rd
    ensures Expanded(rd[..], box, KeyWords(userKey[..], nk), i + 1)
    ensures forall k | 0 <= k < rd.Length && k != i :: rd[k] == old(rd[k])
  {
    hide Pack;
    rd[i] := GetU32(userKey, 4 * i);
    assert KeyWords(userKey[..], nk)[i] == ExpandedWord(box, KeyWords(userKey[..], nk), i);
  }

  method LoadKey(rd: array<Word>, userKey: array<bv8>, nk: nat, ghost box: SBox)
    requires rd.Length == 60 && nk in {4, 6, 8} && 4 * nk <= userKey.Length
    modifies rd
    ensures Expanded(rd[..], box, KeyWords(userKey[..], nk), nk)
    ensures forall k | nk <= k < 60 :: rd[k] == old(rd[k])
  {
    hide Pack, ExpandedWord;
    LoadWord(rd, userKey, 0, nk, box);
    LoadWord(rd, userKey, 1, nk, box);
    LoadWord(rd, userKey, 2, nk, box);
    LoadWord(rd, userKey, 3, nk, box);
    if nk == 4 { return; }
    LoadWord(rd, userKey, 4, nk, box);
    LoadWord(rd, userKey, 5, nk, box);
    if nk == 6 { return; }
    LoadWord(rd, userKey, 6, nk, box);
    LoadWord(rd, userKey, 7, nk, box);
  }

  function Rounds(bits: int): nat {
    if bits == 128 then 10 else if bits == 192 then 12 else 14
  }

  /** AES_set_encrypt_key: the key expansion of FIPS 197 section 5.2 in the first 4 * (Nr + 1) words. */
  method SetEncryptKey(box: SBox, userKey: array?<bv8>, bits: int, key: AesKey?) returns (status: int)
    requires key != null ==> key.rdKey.Length == 60
    requires userKey != null && bits in {128, 192, 256} ==> bits / 8 <= userKey.Length
    modifies if key == null then {} else {key, key.rdKey}
    ensures status == if userKey == null || key == null then -1 else if bits !in {128, 192, 256} then -2 else 0
    ensures status != 0 && key != null ==> key.rounds == old(key.rounds) && key.rdKey[..] == old(key.rdKey[..])
    ensures status == 0 ==>
              && key.Valid() && key.rounds == Rounds(bits)
              && Expanded(key.rdKey[..], box, KeyWords(userKey[..], bits / 32), 4 * (key.rounds + 1))
              && forall k | 4 * (key.rounds + 1) <= k < 60 :: key.rdKey[k] == old(key.rdKey[k])
  {
    if userKey == null || key == null { return -1; }
    if bits != 128 && bits != 192 && bits != 256 { return -2; }
    if bits == 128 {
      key.rounds := 10;
    } else if bits == 192 {
      key.rounds := 12;
    } else {
      key.rounds := 14;
    }
    LoadKey(key.rdKey, userKey, bits / 32, box);
    if bits == 128 {
      Expand128(box, key.rdKey, KeyWords(userKey[..], 4));
    } else if bits == 192 {
      Expand192(box, key.rdKey, KeyWords(userKey[..], 6));
    } else {
      Expand256(box, key.rdKey, KeyWords(userKey[..], 8));
    }
    ExpandedBound(key.rdKey[..], box, KeyWords(userKey[..], bits / 32), 4 * (key.rounds + 1));
    return 0;
  }

  lemma ExpandedBound(words: seq<Word>, box: SBox, key: seq<Column>, n: nat)
    requires key != [] && n <= |words| && Expanded(words, box, key, n)
    ensures forall k | 0 <= k < n :: words[k] < LIMIT && Unpack(words[k]) == ExpandedWord(box, key, k)
  {
    hide Pack, Unpack, ExpandedWord;
    forall k: nat | k < n
      ensures words[k] < LIMIT && Unpack(words[k]) == ExpandedWord(box, key, k)
    {
      UnpackPack(ExpandedWord(box, key, k));
    }
  }

  /** The words of the key, read as round keys, are the expanded key. */
  lemma ScheduleIsExpandedKey(words: seq<Word>, box: SBox, key: seq<Column>, nr: nat)
    requires key != [] && nr > 0 && 4 * (nr + 1) <= |words| && Expanded(words, box, key, 4 * (nr + 1))
    ensures ScheduleOf(words, nr) == ExpandedKey(box, key, nr)
  {
    hide Pack, Unpack, ExpandedWord;
    ExpandedBound(words, box, key, 4 * (nr + 1));
  }

  // ---------------------------------------------------------------- the decryption schedule

  ghost predicate Small(words: seq<Word>, n: nat)
    requires n <= |words|
  {
    forall k | 0 <= k < n :: words[k] < LIMIT
  }

  method SwapWords(rd: array<Word>, i: nat, j: nat)
    requires i < rd.Length && j < rd.Length
    modifies rd
    ensures rd[i] == old(rd[j]) && rd[j] == old(rd[i])
    ensures forall k | 0 <= k < rd.Length && k != i && k != j :: rd[k] == old(rd[k])
  {
    var temp := rd[i];
    rd[i] := rd[j];
    rd[j] := temp;
  }

  /** Swaps round keys p and q, at word offsets i and j. */
  method SwapRounds(rd: array<Word>, i: nat, j: nat, ghost p: nat, ghost q: nat, ghost n: nat)
    requires i == 4 * p && j == 4 * q && p < q && 4 * q + 4 <= 4 * n <= rd.Length && Small(rd[..], 4 * n)
    modifies rd
    ensures Small(rd[..], 4 * n)
    ensures RoundKey(rd[..], p) == RoundKey(old(rd[..]), q) && RoundKey(rd[..], q) == RoundKey(old(rd[..]), p)
    ensures forall r | 0 <= r < n && r != p && r != q :: RoundKey(rd[..], r) == RoundKey(old(rd[..]), r)
  {
    ghost var was := rd[..];
    SwapWords(rd, i, j);
    SwapWords(rd, i + 1, j + 1);
    SwapWords(rd, i + 2, j + 2);
    SwapWords(rd, i + 3, j + 3);
    RoundsSwapped(was, rd[..], p, q, n);
  }

  lemma RoundsSwapped(was: seq<Word>, now: seq<Word>, p: nat, q: nat, n: nat)
    requires p < q < n && 4 * n <= |was| == |now| && Small(was, 4 * n)
    requires now[4 * p] == was[4 * q] && now[4 * p + 1] == was[4 * q + 1]
    requires now[4 * p + 2] == was[4 * q + 2] && now[4 * p + 3] == was[4 * q + 3]
    requires now[4 * q] == was[4 * p] && now[4 * q + 1] == was[4 * p + 1]
    requires now[4 * q + 2] == was[4 * p + 2] && now[4 * q + 3] == was[4 * p + 3]
    requires forall k | 0 <= k < |was| && !(4 * p <= k < 4 * p + 4) && !(4 * q <= k < 4 * q + 4) :: now[k] == was[k]
    ensures Small(now, 4 * n)
    ensures RoundKey(now, p) == RoundKey(was, q) && RoundKey(now, q) == RoundKey(was, p)
    ensures forall r | 0 <= r < n && r != p && r != q :: RoundKey(now, r) == RoundKey(was, r)
  {
    hide Unpack;
  }

  /** The outer `a` round keys on either side have changed places. */
  ghost predicate Mirrored(now: seq<Word>, was: seq<Word>, nr: nat, a: nat)
    requires 4 * (nr + 1) <= |now| == |was|
  {
    forall r | 0 <= r <= nr :: RoundKey(now, r) == RoundKey(was, if r < a || nr - a < r then nr - r else r)
  }

  lemma MirrorEnds(now: seq<Word>, was: seq<Word>, nr: nat, a: nat)
    requires 4 * (nr + 1) <= |now| == |was|
    ensures Mirrored(was, was, nr, 0)
    ensures Mirrored(now, was, nr, a) && nr <= 2 * a ==> forall r | 0 <= r <= nr ::
        RoundKey(now, r) == RoundKey(was, nr - r)
  {
    hide RoundKey;
  }

  lemma MirrorStep(now: seq<Word>, next: seq<Word>, was: seq<Word>, nr: nat, a: nat)
    requires 4 * (nr + 1) <= |now| == |next| == |was| && 2 * a < nr && Mirrored(now, was, nr, a)
    requires RoundKey(next, a) == RoundKey(now, nr - a) && RoundKey(next, nr - a) == RoundKey(now, a)
    requires forall r | 0 <= r < nr + 1 && r != a && r != nr - a :: RoundKey(next, r) == RoundKey(now, r)
    ensures Mirrored(next, was, nr, a + 1)
  {
    hide RoundKey;
  }

  /** Inverts the order of the round keys. */
  method ReverseRounds(rd: array<Word>, nr: nat)
    requires 4 * (nr + 1) <= rd.Length && Small(rd[..], 4 * (nr + 1))
    modifies rd
    ensures Small(rd[..], 4 * (nr + 1))
    ensures forall r | 0 <= r <= nr :: RoundKey(rd[..], r) == RoundKey(old(rd[..]), nr - r)
  {
    hide RoundKey, Small, Mirrored;
    var i, j: int := 0, 4 * nr;
    ghost var a, was := 0, rd[..];
    MirrorEnds(was, was, nr, 0);
    while i < j
      invariant 0 <= 2 * a <= nr + 1 && i == 4 * a && j == 4 * (nr - a)
      invariant Small(rd[..], 4 * (nr + 1)) && Mirrored(rd[..], was, nr, a)
    {
      ghost var now := rd[..];
      SwapRounds(rd, i, j, a, nr - a, nr + 1);
      MirrorStep(now, rd[..], was, nr, a);
      i, j, a := i + 4, j - 4, a + 1;
    }
    MirrorEnds(rd[..], was, nr, a);
  }

  method MixWord(box: SBox, rd: array<Word>, at: nat)
    requires Inverse(box) && at < rd.Length && rd[at] < LIMIT
    modifies rd
    ensures rd[at] < LIMIT && Unpack(rd[at]) == InvMixColumn(Unpack(old(rd[at])))
    ensures forall k | 0 <= k < rd.Length && k != at :: rd[k] == old(rd[k])
  {
    hide Unpack, Pack, InvMixWord, InvMixColumn;
    ghost var c := Unpack(rd[at]);
    PackUnpack(rd[at]);
    InvMixWordIsInvMixColumn(box, c);
    UnpackPack(InvMixColumn(c));
    rd[at] := InvMixWord(box, rd[at]);
  }

  /** Applies InvMixColumns to the four words at `rk`. */
  method MixRound(box: SBox, rd: array<Word>, ghost r: nat, rk: nat)
    requires Inverse(box) && rk == 4 * r && rk + 4 <= rd.Length && Small(rd[..], rk + 4)
    modifies rd
    ensures RoundKey(rd[..], r) == InvMixColumns(RoundKey(old(rd[..]), r))
    ensures Small(rd[..], rk + 4)
    ensures forall k | 0 <= k < rd.Length && !(rk <= k < rk + 4) :: rd[k] == old(rd[k])
  {
    hide Unpack, InvMixColumn;
    MixWord(box, rd, rk);
    MixWord(box, rd, rk + 1);
    MixWord(box, rd, rk + 2);
    MixWord(box, rd, rk + 3);
  }

  /** Applies InvMixColumns to all round keys but the first and the last. */
  method MixInnerRounds(box: SBox, rd: array<Word>, nr: nat)
    requires Inverse(box) && nr > 0 && 4 * (nr + 1) <= rd.Length && Small(rd[..], 4 * (nr + 1))
    modifies rd
    ensures Small(rd[..], 4 * (nr + 1))
    ensures forall r | 0 <= r <= nr ::
              RoundKey(rd[..], r) == if 0 < r < nr then InvMixColumns(RoundKey(old(rd[..]), r))
                  else RoundKey(old(rd[..]), r)
  {
    hide Unpack, InvMixColumns;
    var rk := 0;
    for i := 1 to nr
      invariant rk == 4 * (i - 1)
      invariant Small(rd[..], 4 * (nr + 1))
      invariant forall r | 0 <= r <= nr ::
                  RoundKey(rd[..], r) == if 0 < r < i then InvMixColumns(RoundKey(old(rd[..]), r))
                      else RoundKey(old(rd[..]), r)
    {
      rk := rk + 4;
      ghost var before := rd[..];
      MixRound(box, rd, i, rk);
      assert forall r | 0 <= r <= nr && r != i :: RoundKey(rd[..], r) == RoundKey(before, r);
    }
  }

  lemma ReversedAndMixed(enc: seq<Word>, reversed: seq<Word>, dec: seq<Word>, nr: nat)
    requires nr > 0 && 4 * (nr + 1) <= |enc| == |reversed| == |dec|
    requires forall r | 0 <= r <= nr :: RoundKey(reversed, r) == RoundKey(enc, nr - r)
    requires forall r | 0 <= r <= nr ::
               RoundKey(dec, r) == if 0 < r < nr then InvMixColumns(RoundKey(reversed, r)) else RoundKey(reversed, r)
    ensures ScheduleOf(dec, nr) == InvSchedule(ScheduleOf(enc, nr))
  {
    hide RoundKey, InvMixColumns;
  }

  /** AES_set_decrypt_key: the schedule of the equivalent inverse cipher, FIPS 197 section 5.3.5. */
  method SetDecryptKey(box: SBox, userKey: array?<bv8>, bits: int, key: AesKey?) returns (status: int)
    requires Inverse(box)
    requires key != null ==> key.rdKey.Length == 60
    requires userKey != null && bits in {128, 192, 256} ==> bits / 8 <= userKey.Length
    modifies if key == null then {} else {key, key.rdKey}
    ensures status == if userKey == null || key == null then -1 else if bits !in {128, 192, 256} then -2 else 0
    ensures status != 0 && key != null ==> key.rounds == old(key.rounds) && key.rdKey[..] == old(key.rdKey[..])
    ensures status == 0 ==>
              && key.Valid() && key.rounds == Rounds(bits)
              && key.Keys() == InvSchedule(ExpandedKey(box, KeyWords(userKey[..], bits / 32), key.rounds))
  {
    hide ExpandedKey, InvSchedule, RoundKey, Expanded;
    status := SetEncryptKey(box, userKey, bits, key);
    if status < 0 { return status; }
    ghost var encKeys := key.rdKey[..];
    ScheduleIsExpandedKey(key.rdKey[..], box, KeyWords(userKey[..], bits / 32), key.rounds);
    ReverseRounds(key.rdKey, key.rounds);
    ghost var reversed := key.rdKey[..];
    MixInnerRounds(box, key.rdKey, key.rounds);
    ReversedAndMixed(encKeys, reversed, key.rdKey[..], key.rounds);
    return 0;
  }
}
