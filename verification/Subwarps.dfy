/** How a warp is cut into equal parts, and the active lanes of a range. */
module Subwarps {

  function Size(warpSize: nat, parts: nat): nat
    requires parts > 0
  {
    warpSize / parts
  }

  /** The first lane of a part. */
  function First(warpSize: nat, parts: nat, part: nat): nat
    requires parts > 0
  {
    part * Size(warpSize, parts)
  }

  lemma Monotone(a: nat, b: nat, s: nat)
    requires a <= b
    ensures a * s <= b * s
  {
  }

  lemma Division(n: nat, d: nat)
    requires d > 0
    ensures n == d * (n / d) + n % d && n % d < d
  {
  }

  /** The parts cover the warp. */
  lemma Whole(warpSize: nat, parts: nat)
    requires parts > 0 && warpSize % parts == 0
    ensures First(warpSize, parts, 0) == 0 && First(warpSize, parts, parts) == warpSize
  {
    Division(warpSize, parts);
  }

  lemma Fits(warpSize: nat, parts: nat, part: nat)
    requires parts > 0 && warpSize % parts == 0 && part < parts
    ensures First(warpSize, parts, part) <= First(warpSize, parts, part + 1) <= warpSize
  {
    var s := Size(warpSize, parts);
    Whole(warpSize, parts);
    hide Size;
    Monotone(part, part + 1, s);
    Monotone(part + 1, parts, s);
  }

  lemma NextMultiple(q: nat, s: nat)
    ensures (q + 1) * s == q * s + s
  {
  }

  /** The only multiple of s below t by less than s. */
  lemma QuotientUnique(s: nat, q: nat, r: nat, part: nat)
    requires r < s
    ensures part * s <= q * s + r < (part + 1) * s <==> part == q
  {
    NextMultiple(part, s);
    NextMultiple(q, s);
    if part < q {
      Monotone(part + 1, q, s);
    } else if q < part {
      Monotone(q + 1, part, s);
    }
  }

  /** The part that lane t belongs to. */
  function PartOf(warpSize: nat, parts: nat, t: nat): nat
    requires parts > 0 && Size(warpSize, parts) > 0
  {
    t / Size(warpSize, parts)
  }

  lemma SizePositive(warpSize: nat, parts: nat)
    requires parts > 0 && warpSize % parts == 0 && warpSize > 0
    ensures Size(warpSize, parts) > 0
  {
    Division(warpSize, parts);
  }

  lemma PartBounds(warpSize: nat, parts: nat, t: nat, part: nat)
    requires parts > 0 && Size(warpSize, parts) > 0
    ensures First(warpSize, parts, part) <= t < First(warpSize, parts, part + 1) <==> PartOf(warpSize, parts, t) == part
  {
    var s := Size(warpSize, parts);
    var q, r := t / s, t % s;
    Division(t, s);
    hide Size;
    QuotientUnique(s, q, r, part);
  }

  lemma PartExists(warpSize: nat, parts: nat, t: nat)
    requires parts > 0 && warpSize % parts == 0 && t < warpSize
    ensures Size(warpSize, parts) > 0 && PartOf(warpSize, parts, t) < parts
  {
    SizePositive(warpSize, parts);
    Whole(warpSize, parts);
    var p := PartOf(warpSize, parts, t);
    PartBounds(warpSize, parts, t, p);
    hide PartOf, Size;
    if p >= parts {
      Monotone(parts, p, Size(warpSize, parts));
    }
  }

  // ---------------------------------------------------------------- active lanes

  function ActiveIn(active: set<nat>, lo: nat, hi: nat): set<nat> {
    set t | t in active && lo <= t < hi
  }

  lemma ActiveSplit(active: set<nat>, mid: nat, hi: nat)
    requires mid <= hi
    ensures |ActiveIn(active, 0, hi)| == |ActiveIn(active, 0, mid)| + |ActiveIn(active, mid, hi)|
  {
    assert ActiveIn(active, 0, hi) == ActiveIn(active, 0, mid) + ActiveIn(active, mid, hi);
  }

  lemma OneMoreLane(active: set<nat>, lo: nat, hi: nat)
    requires lo <= hi
    ensures |ActiveIn(active, lo, hi + 1)| == |ActiveIn(active, lo, hi)| + if hi in active then 1 else 0
  {
    if hi in active {
      assert ActiveIn(active, lo, hi + 1) == ActiveIn(active, lo, hi) + {hi};
    } else {
      assert ActiveIn(active, lo, hi + 1) == ActiveIn(active, lo, hi);
    }
  }

  lemma NoneActive(active: set<nat>, lo: nat)
    ensures |ActiveIn(active, lo, lo)| == 0
  {
    assert ActiveIn(active, lo, lo) == {};
  }
}
