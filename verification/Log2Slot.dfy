/** The histogram slot computed inside the kernel (`log2_slot` of the block I/O and scheduler
    plugins): a ladder of shifts that equals a capped ceiling of the binary logarithm. */
module Log2Slot {
  import opened Words

  const BLOCK_CAP: nat := 27
  const SCHED_CAP: nat := 21

  /** Bucket `r` holds the values in (2^(r-1), 2^r], bucket 0 those up to 1, and the last
      bucket everything above. */
  ghost predicate InBucket(v: nat, r: nat, cap: nat) {
    && r <= cap
    && (r < cap ==> v <= Pow2(r))
    && (r > 0 ==> Pow2(r - 1) < v)
  }

  /** The least power of two, as an exponent, that is not below `v`. */
  function CeilLog2(v: nat): (n: nat) {
    if v <= 1 then 0 else 1 + CeilLog2((v + 1) / 2)
  }

  /** The number of halvings that lead to 1. */
  function FloorLog2(v: nat): nat {
    if v <= 1 then 0 else 1 + FloorLog2(v / 2)
  }

  lemma {:induction false} FloorLog2Bounds(v: nat)
    requires v >= 1
    ensures Pow2(FloorLog2(v)) <= v < Pow2(FloorLog2(v) + 1)
  {
    if v > 1 {
      FloorLog2Bounds(v / 2);
    }
  }

  /** A rung of the ladder: what a shift takes off the logarithm, and off the value. */
  lemma {:induction false} Rung(v: nat, n: nat, m: nat)
    requires n <= m && Pow2(n) <= v < Pow2(m)
    ensures 1 <= Shr(v, n) < Pow2(m - n)
    ensures FloorLog2(v) == n + FloorLog2(Shr(v, n))
  {
    if n > 0 {
      Rung(v / 2, n - 1, m - 1);
    }
  }

  lemma LastRung(v: nat)
    requires 1 <= v < 4
    ensures FloorLog2(v) == if v >= 2 then 1 else 0
  {
    assert FloorLog2(1) == 0;
  }

  method Slot(value: U64, cap: nat) returns (r: nat)
    ensures InBucket(value, r, cap)
  {
    hide FloorLog2, Pow2, InBucket, Shr;
    if value <= 1 {
      ZeroBucket(value, cap);
      return 0;
    }
    ghost var log := FloorLog2(value - 1);
    var v: nat := value - 1;
    r := 0;
    Powers();
    if v >= TWO_TO_32 {
      Rung(v, 32, 64);
      v, r := Shr(v, 32), r + 32;
    }
    assert 1 <= v < Pow2(32) && r + FloorLog2(v) == log;
    if v >= 0x1_0000 {
      Rung(v, 16, 32);
      v, r := Shr(v, 16), r + 16;
    }
    assert 1 <= v < Pow2(16) && r + FloorLog2(v) == log;
    if v >= 0x100 {
      Rung(v, 8, 16);
      v, r := Shr(v, 8), r + 8;
    }
    assert 1 <= v < Pow2(8) && r + FloorLog2(v) == log;
    if v >= 0x10 {
      Rung(v, 4, 8);
      v, r := Shr(v, 4), r + 4;
    }
    assert 1 <= v < Pow2(4) && r + FloorLog2(v) == log;
    if v >= 4 {
      Rung(v, 2, 4);
      v, r := Shr(v, 2), r + 2;
    }
    assert 1 <= v < 4 && r + FloorLog2(v) == log;
    LastRung(v);
    if v >= 2 {
      r := r + 1;
    }
    Capped(value, r, cap);
    r := r + 1;
    if r > cap {
      r := cap;
    }
  }

  lemma Powers()
    ensures Pow2(2) == 4 && Pow2(4) == 0x10 && Pow2(8) == 0x100 && Pow2(16) == 0x1_0000
    ensures Pow2(32) == TWO_TO_32 && Pow2(64) == TWO_TO_64
  {
    Pow2Values();
    Pow2Step(0);
    Pow2Nibble(0);
  }

  lemma ZeroBucket(v: nat, cap: nat)
    requires v <= 1
    ensures InBucket(v, 0, cap)
  {
  }

  lemma Capped(v: nat, log: nat, cap: nat)
    requires v > 1 && log == FloorLog2(v - 1)
    ensures InBucket(v, if log + 1 > cap then cap else log + 1, cap)
  {
    FloorLog2Bounds(v - 1);
    if 0 < cap < log + 1 {
      Pow2Monotone(cap - 1, log);
    }
  }

  /** A value is in exactly one bucket. */
  lemma OneBucket(v: nat, r: nat, s: nat, cap: nat)
    requires InBucket(v, r, cap) && InBucket(v, s, cap)
    ensures r == s
  {
    if r < s {
      Pow2Monotone(r, s - 1);
    } else if s < r {
      Pow2Monotone(s, r - 1);
    }
  }

  lemma {:induction false} CeilLog2Bounds(v: nat)
    ensures v <= Pow2(CeilLog2(v))
    ensures CeilLog2(v) > 0 ==> Pow2(CeilLog2(v) - 1) < v
  {
    if v > 1 {
      CeilLog2Bounds((v + 1) / 2);
    }
  }

  /** The slot is the ceiling of the binary logarithm, capped. */
  lemma SlotIsCappedCeilLog2(v: nat, r: nat, cap: nat)
    ensures InBucket(v, r, cap) <==> r == if CeilLog2(v) < cap then CeilLog2(v) else cap
  {
    CeilLog2Bounds(v);
    var n := if CeilLog2(v) < cap then CeilLog2(v) else cap;
    if CeilLog2(v) >= cap > 0 {
      Pow2Monotone(cap - 1, CeilLog2(v) - 1);
    }
    assert InBucket(v, n, cap);
    if InBucket(v, r, cap) {
      OneBucket(v, r, n, cap);
    }
  }
}
