/** Fixed-width machine words as ranges of integers, powers of two, and the
    most-significant-bit-first expansion of a number into bits. */
module Words {
  const TWO_TO_63 := 0x8000_0000_0000_0000
  const TWO_TO_64 := 0x1_0000_0000_0000_0000
  const TWO_TO_32 := 0x1_0000_0000

  type Byte = x: int | 0 <= x < 256
  type U64 = x: int | 0 <= x < TWO_TO_64
  type I64 = x: int | -TWO_TO_63 <= x < TWO_TO_63

  /** Go strings and byte slices. */
  type Bytes = seq<Byte>
  type Bits = seq<bool>

  /** Either a value or a failure whose cause is not modelled. */
  datatype Result<+T> = Ok(value: T) | Err
  datatype Option<+T> = None | Some(value: T)

  /** The conversion to `uint64` of a mathematical integer: wrap-around. */
  function ToU64(x: int): (r: U64)
    ensures 0 <= x < TWO_TO_64 ==> r == x
  {
    x % TWO_TO_64
  }

  /** `uint64(v)` of a signed number: its two's complement pattern. */
  function Unsigned(v: I64): U64 {
    if v < 0 then v + TWO_TO_64 else v
  }

  /** `int64(v)` of an unsigned number. */
  function Signed(v: U64): I64 {
    if v < TWO_TO_63 then v else v - TWO_TO_64
  }

  /** The `int64` a sum or difference of two `int64`s wraps around to. */
  function Wrap(x: int): (r: I64)
    requires -TWO_TO_64 <= x < TWO_TO_64
    ensures (r - x) % TWO_TO_64 == 0
  {
    if x < -TWO_TO_63 then x + TWO_TO_64
    else if x < TWO_TO_63 then x
    else x - TWO_TO_64
  }

  function Add64(a: I64, b: I64): I64 {
    Wrap(a + b)
  }

  function Sub64(a: I64, b: I64): I64 {
    Wrap(a - b)
  }

  /** Wrap-around addition undoes wrap-around subtraction. */
  lemma AddAfterSub(a: I64, b: I64)
    ensures Add64(b, Sub64(a, b)) == a
    ensures Add64(Sub64(a, b), b) == a
  {
  }

  function Pow2(n: nat): (p: nat)
    ensures p > 0
  {
    if n == 0 then 1 else 2 * Pow2(n - 1)
  }

  lemma {:induction false} Pow2Monotone(m: nat, n: nat)
    requires m <= n
    ensures Pow2(m) <= Pow2(n)
  {
    if m < n {
      Pow2Monotone(m, n - 1);
    }
  }

  lemma Pow2Values()
    ensures Pow2(5) == 32 && Pow2(6) == 64 && Pow2(7) == 128 && Pow2(8) == 256
    ensures Pow2(9) == 512 && Pow2(12) == 4096
    ensures Pow2(32) == TWO_TO_32 && Pow2(63) == TWO_TO_63 && Pow2(64) == TWO_TO_64
  {
    Pow2Nibble(0);
    Pow2Nibble(4);
    Pow2Nibble(8);
    Pow2Step(0);
    Pow2Step(16);
    Pow2Step(32);
    Pow2Step(48);
    assert Pow2(6) == 2 * Pow2(5);
    assert Pow2(64) == 2 * Pow2(63);
  }

  lemma Pow2Step(n: nat)
    ensures Pow2(n + 16) == 0x1_0000 * Pow2(n)
  {
    Pow2Nibble(n);
    Pow2Nibble(n + 4);
    Pow2Nibble(n + 8);
    Pow2Nibble(n + 12);
  }

  lemma Pow2Nibble(n: nat)
    ensures Pow2(n + 4) == 16 * Pow2(n)
  {
    assert Pow2(n + 2) == 4 * Pow2(n);
    assert Pow2(n + 4) == 4 * Pow2(n + 2);
  }

  /** Shifting right: dividing by two, `n` times. */
  function Shr(v: nat, n: nat): nat {
    if n == 0 then v else Shr(v / 2, n - 1)
  }

  /** Shifting left in unbounded arithmetic: doubling, `n` times. */
  function Shl(v: nat, n: nat): nat {
    if n == 0 then v else 2 * Shl(v, n - 1)
  }

  /** The low `n` bits of `v`, most significant first. */
  function ToBits(v: nat, n: nat): (b: Bits)
    ensures |b| == n
  {
    if n == 0 then [] else ToBits(v / 2, n - 1) + [v % 2 == 1]
  }

  /** The number whose binary expansion, most significant bit first, is `b`. */
  function FromBits(b: Bits): (v: nat)
    ensures v < Pow2(|b|)
  {
    if b == [] then 0 else 2 * FromBits(b[..|b| - 1]) + (if b[|b| - 1] then 1 else 0)
  }

  lemma {:induction false} FromToBits(v: nat, n: nat)
    requires v < Pow2(n)
    ensures FromBits(ToBits(v, n)) == v
  {
    if n > 0 {
      FromToBits(v / 2, n - 1);
      assert ToBits(v, n)[..n - 1] == ToBits(v / 2, n - 1);
    }
  }

  lemma {:induction false} ToFromBits(b: Bits)
    ensures ToBits(FromBits(b), |b|) == b
  {
    if b != [] {
      var v, bit := FromBits(b[..|b| - 1]), b[|b| - 1];
      ToFromBits(b[..|b| - 1]);
      assert b == b[..|b| - 1] + [bit];
      assert FromBits(b) / 2 == v && (FromBits(b) % 2 == 1 <==> bit);
    }
  }

  lemma {:induction false} ShrLast(v: nat, n: nat)
    ensures Shr(v, n + 1) == Shr(v, n) / 2
  {
    if n > 0 {
      ShrLast(v / 2, n - 1);
    }
  }

  lemma {:induction false} ShrBound(v: nat, m: nat, n: nat)
    requires v < Pow2(m + n)
    ensures Shr(v, n) < Pow2(m)
  {
    if n > 0 {
      ShrBound(v / 2, m, n - 1);
    }
  }

  lemma {:induction false} ShlBound(v: nat, m: nat, n: nat)
    requires v < Pow2(m)
    ensures v <= Shl(v, n) < Pow2(m + n)
  {
    if n > 0 {
      ShlBound(v, m, n - 1);
    }
  }

  lemma {:induction false} ShlTimes(v: nat, n: nat)
    ensures Shl(v, n) == v * Pow2(n)
  {
    if n > 0 {
      ShlTimes(v, n - 1);
      assert 2 * (v * Pow2(n - 1)) == v * (2 * Pow2(n - 1));
    }
  }

  /** Bit `i` of an `n`-bit expansion is the shifted number's low bit. */
  lemma {:induction false} BitAt(v: nat, n: nat, i: nat)
    requires i < n
    ensures ToBits(v, n)[i] <==> Shr(v, n - 1 - i) % 2 == 1
  {
    if i < n - 1 {
      BitAt(v / 2, n - 1, i);
    }
  }

  /** Shifting left by `m` appends `m` zero bits. */
  lemma {:induction false} ShlBits(v: nat, n: nat, m: nat)
    ensures ToBits(Shl(v, m), n + m) == ToBits(v, n) + ToBits(0, m)
  {
    if m == 0 {
      assert ToBits(v, n) + [] == ToBits(v, n);
    } else {
      ShlBits(v, n, m - 1);
      assert ToBits(0, m) == ToBits(0, m - 1) + [false];
      ConcatAssoc(ToBits(v, n), ToBits(0, m - 1), [false]);
    }
  }

  /** Bitwise exclusive or. */
  function Xor(a: nat, b: nat): nat {
    if a == 0 && b == 0 then 0
    else 2 * Xor(a / 2, b / 2) + (if a % 2 == b % 2 then 0 else 1)
  }

  lemma {:induction false} XorInvolutive(a: nat, b: nat)
    ensures Xor(Xor(a, b), b) == a
  {
    if a != 0 || b != 0 {
      XorInvolutive(a / 2, b / 2);
      var x := Xor(a, b);
      assert x / 2 == Xor(a / 2, b / 2);
    }
  }

  lemma {:induction false} XorCommutes(a: nat, b: nat)
    ensures Xor(a, b) == Xor(b, a)
  {
    if a != 0 || b != 0 {
      XorCommutes(a / 2, b / 2);
    }
  }

  lemma {:induction false} XorBound(a: nat, b: nat, n: nat)
    requires a < Pow2(n) && b < Pow2(n)
    ensures Xor(a, b) < Pow2(n)
  {
    if n > 0 && (a != 0 || b != 0) {
      XorBound(a / 2, b / 2, n - 1);
    }
  }

  lemma {:induction false} XorZero(a: nat, b: nat)
    ensures Xor(a, b) == 0 <==> a == b
  {
    if a != 0 || b != 0 {
      XorZero(a / 2, b / 2);
    }
  }

  /** `a ^ b` of two `uint64`s. */
  function XorWord(a: U64, b: U64): U64 {
    Pow2Values();
    XorBound(a, b, 64);
    Xor(a, b)
  }

  lemma ConcatAssoc<T>(a: seq<T>, b: seq<T>, c: seq<T>)
    ensures a + b + c == a + (b + c)
  {
  }

  lemma Concat3<T>(x: seq<T>, a: seq<T>, b: seq<T>, c: seq<T>)
    ensures x + a + b + c == x + (a + (b + c))
  {
    ConcatAssoc(x + a, b, c);
    ConcatAssoc(x, a, b + c);
  }

  lemma Concat4<T>(x: seq<T>, a: seq<T>, b: seq<T>, c: seq<T>, d: seq<T>)
    ensures x + a + b + c + d == x + (a + (b + (c + d)))
  {
    Concat3(x + a, b, c, d);
    ConcatAssoc(x, a, b + (c + d));
  }

  lemma Concat5<T>(x: seq<T>, a: seq<T>, b: seq<T>, c: seq<T>, d: seq<T>, e: seq<T>)
    ensures x + a + b + c + d + e == x + (a + (b + (c + (d + e))))
  {
    Concat4(x + a, b, c, d, e);
    ConcatAssoc(x, a, b + (c + (d + e)));
  }

  lemma TakeStep<T>(s: seq<T>, i: nat)
    requires i < |s|
    ensures s[..i + 1][..i] == s[..i] && s[..i + 1][i] == s[i]
    ensures s[..i + 1] == s[..i] + [s[i]]
  {
  }

  lemma TakeAll<T>(s: seq<T>)
    ensures s[..|s|] == s
  {
  }

  lemma DropStep<T>(s: seq<T>, i: nat)
    requires i < |s|
    ensures s[i..] != [] && s[i..][0] == s[i] && s[i..][1..] == s[i + 1..]
  {
  }
}
