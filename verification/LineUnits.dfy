/** Addresses in units of 128-byte lines, 32-byte chunks and bytes: all division is done here. */
module LineUnits {

  /** The first chunk of the aligned group of `m` chunks that holds chunk `c` of a line. */
  function FirstChunk(c: nat, m: nat): nat {
    if m == 1 then c else if m == 2 then (if c < 2 then 0 else 2) else 0
  }

  /** An aligned group of `m` chunks can start at chunk `k`. */
  predicate StartsGroup(k: nat, m: nat) {
    k < 4 && (m == 1 || (m == 2 && (k == 0 || k == 2)) || (m == 4 && k == 0))
  }

  lemma GroupOf(c: nat, m: nat)
    requires c < 4 && m in {1, 2, 4}
    ensures StartsGroup(FirstChunk(c, m), m) && FirstChunk(c, m) <= c < FirstChunk(c, m) + m <= 4
  {
  }

  lemma Over32(a: nat, q: nat, r: nat)
    requires a == 32 * q + r && r < 32
    ensures a / 32 == q && a % 32 == r
  {
  }

  lemma Over64(a: nat, q: nat, r: nat)
    requires a == 64 * q + r && r < 64
    ensures a % 64 == r
  {
  }

  lemma Over128(a: nat, q: nat, r: nat)
    requires a == 128 * q + r && r < 128
    ensures a / 128 == q && a % 128 == r
  {
  }

  /** Line, chunk and offset of an address. */
  lemma Split(addr: nat) returns (q: nat, c: nat, d: nat)
    ensures addr == 128 * q + 32 * c + d && c < 4 && d < 32
  {
    var r := addr % 128;
    q, c, d := addr / 128, r / 32, r % 32;
  }

  lemma Joined(addr: nat, q: nat, c: nat, d: nat)
    requires addr == 128 * q + 32 * c + d && c < 4 && d < 32
    ensures addr % 128 == 32 * c + d && addr % 128 / 32 == c && addr % 32 == d
  {
    Over128(addr, q, 32 * c + d);
    Over32(addr % 128, c, d);
    Over32(addr, 4 * q + c, d);
  }

  /** Where an address lies in its segment of 32, 64 or 128 bytes. */
  lemma InSegment(addr: nat, q: nat, c: nat, d: nat, seg: nat, m: nat)
    requires addr == 128 * q + 32 * c + d && c < 4 && d < 32 && m in {1, 2, 4} && seg == 32 * m
    ensures addr % seg == 32 * (c - FirstChunk(c, m)) + d
  {
    if m == 1 {
      Over32(addr, 4 * q + c, d);
    } else if m == 2 {
      Over64(addr, if c < 2 then 2 * q else 2 * q + 1, 32 * (c - FirstChunk(c, m)) + d);
    } else {
      Over128(addr, q, 32 * c + d);
    }
  }

  /** An address is aligned to 32, 64 or 128 bytes exactly if it starts a group of chunks. */
  lemma AlignedTo(addr: nat, q: nat, c: nat, d: nat, size: nat, m: nat)
    requires addr == 128 * q + 32 * c + d && c < 4 && d < 32 && m in {1, 2, 4} && size == 32 * m
    ensures addr % size == 0 <==> d == 0 && StartsGroup(c, m)
  {
    InSegment(addr, q, c, d, size, m);
  }

  /** A naturally aligned access of at most 16 bytes does not cross a 32-byte boundary. */
  lemma NaturallyAligned(addr: nat, s: nat)
    requires s in {1, 2, 4, 8, 16} && addr % s == 0
    ensures addr % 32 + s <= 32
  {
    var q, r := addr / 32, addr % 32;
    if s == 2 {
      var j := addr / 2;
      assert r == 2 * (j - 16 * q);
    } else if s == 4 {
      var j := addr / 4;
      assert r == 4 * (j - 8 * q);
    } else if s == 8 {
      var j := addr / 8;
      assert r == 8 * (j - 4 * q);
    } else if s == 16 {
      var j := addr / 16;
      assert r == 16 * (j - 2 * q);
    }
  }

  /** Two naturally aligned accesses of one size are the same or apart. */
  lemma DistinctMultiples(a: nat, b: nat, s: nat)
    requires s in {1, 2, 4, 8, 16} && a % s == 0 && b % s == 0 && a != b
    ensures a + s <= b || b + s <= a
  {
    if s == 2 {
      var i, j := a / 2, b / 2;
      assert a == 2 * i && b == 2 * j;
    } else if s == 4 {
      var i, j := a / 4, b / 4;
      assert a == 4 * i && b == 4 * j;
    } else if s == 8 {
      var i, j := a / 8, b / 8;
      assert a == 8 * i && b == 8 * j;
    } else if s == 16 {
      var i, j := a / 16, b / 16;
      assert a == 16 * i && b == 16 * j;
    }
  }

  /** Two aligned groups of one size are the same or apart. */
  lemma GroupsApart(n: nat, o: nat, q: nat, k: nat, m: nat)
    requires StartsGroup(o, m) && StartsGroup(k, m) && 128 * n + 32 * o != 128 * q + 32 * k
    ensures 128 * n + 32 * o + 32 * m <= 128 * q + 32 * k || 128 * q + 32 * k + 32 * m <= 128 * n + 32 * o
  {
    if n < q {
      assert n + 1 <= q;
    } else if q < n {
      assert q + 1 <= n;
    }
  }

  /** The group of `m` chunks that covers chunk `c` of line `n` is unique. */
  lemma GroupCovering(n: nat, c: nat, q: nat, k: nat, m: nat)
    requires c < 4 && StartsGroup(k, m)
    requires 128 * q + 32 * k <= 128 * n + 32 * c && 128 * n + 32 * c + 32 <= 128 * q + 32 * k + 32 * m
    ensures q == n && k == FirstChunk(c, m)
  {
    assert q == n;
  }
}
