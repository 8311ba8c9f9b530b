/** The identities behind the peepholes, on every integer width and signedness
    (Passes/peepholes.cpp:33-112, 119-130). */
module PeepholeArith {
  import opened Ir
  import opened Semantics

  lemma ModOf(x: int, m: int) returns (q: int)
    requires m >= 1
    ensures x == q * m + x % m && 0 <= x % m < m
  {
    q := x / m;
  }

  lemma MulSign(d: int, m: int)
    requires m >= 1
    ensures d >= 1 ==> d * m >= m
    ensures d <= -1 ==> d * m <= -m
  {
  }

  lemma ModUnique(x: int, m: int, q: int, r: int)
    requires m >= 1 && x == q * m + r && 0 <= r < m
    ensures x % m == r
  {
    var q' := ModOf(x, m);
    var r' := x % m;
    assert (q - q') * m == r' - r;
    MulSign(q - q', m);
  }

  /** Adding a multiple of the modulus does not change the remainder. */
  lemma ModShift(x: int, m: int, k: int)
    requires m >= 1
    ensures (x + k * m) % m == x % m
  {
    var q := ModOf(x, m);
    assert x + k * m == (q + k) * m + x % m;
    ModUnique(x + k * m, m, q + k, x % m);
  }

  /** Wrapping gives the number back up to a multiple of two to the width. */
  lemma WrapIs(ty: TypeId, n: int) returns (k: int)
    requires IsInteger(ty)
    ensures Wrap(ty, n) == n + k * Pow2(TypeIdToSize(ty))
  {
    hide Pow2, Lowest;
    var m := Pow2(TypeIdToSize(ty));
    var q := ModOf(n - Lowest(ty), m);
    k := -q;
    assert k * m == -(q * m);
  }

  lemma WrapShift(ty: TypeId, n: int, k: int)
    requires IsInteger(ty)
    ensures Wrap(ty, n + k * Pow2(TypeIdToSize(ty))) == Wrap(ty, n)
  {
    hide Pow2, Lowest;
    var m := Pow2(TypeIdToSize(ty));
    ModShift(n - Lowest(ty), m, k);
    assert n + k * m - Lowest(ty) == n - Lowest(ty) + k * m;
  }

  /** `n` and `m` are the same modulo two to the width of the type. */
  ghost predicate Congruent(ty: TypeId, n: int, m: int) {
    (n - m) % Pow2(TypeIdToSize(ty)) == 0
  }

  /** Wrapping gives the number of the range that is congruent modulo two to the width. */
  lemma WrapExactly(ty: TypeId, n: int, m: int)
    requires IsInteger(ty) && InRange(ty, m)
    ensures Wrap(ty, n) == m <==> (n - m) % Pow2(TypeIdToSize(ty)) == 0
  {
    hide Pow2, Lowest, Wrap, InRange;
    var size := Pow2(TypeIdToSize(ty));
    var k := WrapIs(ty, n);
    if Wrap(ty, n) == m {
      assert n - m == (-k) * size + 0;
      ModUnique(n - m, size, -k, 0);
    }
    if (n - m) % size == 0 {
      var q := ModOf(n - m, size);
      WrapShift(ty, m, q);
      WrapInRange(ty, m);
      assert n == m + q * size;
    }
  }

  /** Numbers stand for the same value of a type exactly if they are congruent modulo two to the width. */
  lemma SameWrap(ty: TypeId, a: int, b: int)
    requires IsInteger(ty)
    ensures Wrap(ty, a) == Wrap(ty, b) <==> Congruent(ty, a, b)
  {
    hide Pow2, Lowest, Wrap, InRange, TypeIdToSize, IsInteger;
    var size := Pow2(TypeIdToSize(ty));
    WrapInRange(ty, b);
    WrapExactly(ty, a, Wrap(ty, b));
    var k := WrapIs(ty, b);
    assert a - Wrap(ty, b) + k * size == a - b;
    ModShift(a - Wrap(ty, b), size, k);
  }

  /** (s - a) + a, each step wrapped, is s. */
  lemma AddAfterSub(ty: TypeId, s: int, a: int)
    requires IsInteger(ty) && InRange(ty, s)
    ensures Wrap(ty, Wrap(ty, s - a) + a) == s && Wrap(ty, a + Wrap(ty, s - a)) == s
  {
    hide Pow2, Lowest, Wrap;
    var k := WrapIs(ty, s - a);
    WrapShift(ty, s, k);
    WrapInRange(ty, s);
    assert Wrap(ty, s - a) + a == s + k * Pow2(TypeIdToSize(ty));
  }

  /** The bits of a value, wrapped, are the value. */
  lemma WrapBits(ty: TypeId, n: int)
    requires IsInteger(ty) && InRange(ty, n)
    ensures Wrap(ty, Bits(ty, n)) == n
  {
    hide Pow2, Lowest, Wrap;
    var m := Pow2(TypeIdToSize(ty));
    var q := ModOf(n, m);
    assert Bits(ty, n) == n + (-q) * m by {
      assert (-q) * m == -(q * m);
    }
    WrapShift(ty, n, -q);
    WrapInRange(ty, n);
  }

  lemma {:induction false} OrSelf(bits: nat, a: nat)
    requires a < Pow2(bits)
    ensures Or(bits, a, a) == a
  {
    if bits > 0 {
      OrSelf(bits - 1, a / 2);
    }
  }

  lemma {:induction false} OrZero(bits: nat, a: nat)
    requires a < Pow2(bits)
    ensures Or(bits, a, 0) == a && Or(bits, 0, a) == a
  {
    if bits > 0 {
      OrZero(bits - 1, a / 2);
    }
  }

  lemma {:induction false} OrOnes(bits: nat, a: nat)
    requires a < Pow2(bits)
    ensures Or(bits, a, Pow2(bits) - 1) == Pow2(bits) - 1 && Or(bits, Pow2(bits) - 1, a) == Pow2(bits) - 1
  {
    if bits > 0 {
      OrOnes(bits - 1, a / 2);
      assert (Pow2(bits) - 1) / 2 == Pow2(bits - 1) - 1;
    }
  }

  /** The value whose bits are all ones: -1 or the largest unsigned number. */
  function AllOnes(ty: TypeId): int
    requires IsInteger(ty)
  {
    if IsSigned(ty) then -1 else Pow2(TypeIdToSize(ty)) - 1
  }

  lemma BitsBound(ty: TypeId, n: int)
    requires IsInteger(ty)
    ensures Bits(ty, n) < Pow2(TypeIdToSize(ty))
  {
    hide Pow2;
    var q := ModOf(n, Pow2(TypeIdToSize(ty)));
  }

  lemma BitsOfAllOnes(ty: TypeId)
    requires IsInteger(ty)
    ensures Bits(ty, AllOnes(ty)) == Pow2(TypeIdToSize(ty)) - 1 && InRange(ty, AllOnes(ty))
  {
    var m: int := Pow2(TypeIdToSize(ty));
    hide Pow2;
    if IsSigned(ty) {
      ModUnique(-1, m, -1, m - 1);
    } else {
      ModUnique(m - 1, m, 0, m - 1);
    }
    OnesInRange(ty);
  }

  lemma OnesInRange(ty: TypeId)
    requires IsInteger(ty)
    ensures InRange(ty, AllOnes(ty)) && InRange(ty, 0)
  {
    hide Pow2;
    Doubled(TypeIdToSize(ty));
  }

  lemma Doubled(n: nat)
    requires n > 0
    ensures Pow2(n) == 2 * Pow2(n - 1)
  {
  }

  lemma BitsOfZero(ty: TypeId)
    requires IsInteger(ty)
    ensures Bits(ty, 0) == 0
  {
    hide Pow2;
    ModUnique(0, Pow2(TypeIdToSize(ty)), 0, 0);
  }

  lemma OrLaws(ty: TypeId, a: int)
    requires IsInteger(ty) && InRange(ty, a)
    ensures Wrap(ty, Or(TypeIdToSize(ty), Bits(ty, a), Bits(ty, a))) == a
    ensures Wrap(ty, Or(TypeIdToSize(ty), Bits(ty, a), Bits(ty, 0))) == a
    ensures Wrap(ty, Or(TypeIdToSize(ty), Bits(ty, 0), Bits(ty, a))) == a
    ensures Wrap(ty, Or(TypeIdToSize(ty), Bits(ty, a), Bits(ty, AllOnes(ty)))) == AllOnes(ty)
    ensures Wrap(ty, Or(TypeIdToSize(ty), Bits(ty, AllOnes(ty)), Bits(ty, a))) == AllOnes(ty)
  {
    hide Pow2, Or, Bits, Wrap, AllOnes, InRange;
    var n := TypeIdToSize(ty);
    BitsBound(ty, a);
    BitsOfZero(ty);
    BitsOfAllOnes(ty);
    OrSelf(n, Bits(ty, a));
    OrZero(n, Bits(ty, a));
    OrOnes(n, Bits(ty, a));
    WrapBits(ty, a);
    WrapBits(ty, AllOnes(ty));
  }

  lemma SignedWraps(ty: TypeId, a: int)
    requires IsInteger(ty) && InRange(ty, a)
    ensures Wrap(ty, AsSigned(ty, a)) == a
  {
    hide Pow2, Lowest, Wrap, InRange;
    var m: int := Pow2(TypeIdToSize(ty));
    WrapShift(ty, a, -1);
    WrapInRange(ty, a);
    assert (-1) * m == -m;
  }

  lemma Pow2Zero()
    ensures Pow2(0) == 1
  {
  }

  lemma ShiftByZero(ty: TypeId, a: int)
    requires IsInteger(ty) && InRange(ty, a)
    ensures Wrap(ty, ShiftRight(ty, a, 0)) == a
  {
    hide Pow2, Lowest, Wrap, InRange, AsSigned;
    Pow2Zero();
    SignedWraps(ty, a);
    WrapInRange(ty, a);
    assert AsSigned(ty, a) / 1 == AsSigned(ty, a);
    assert ShiftRight(ty, a, 0) == a;
  }

  lemma ShiftTooFar(ty: TypeId, a: int, n: int)
    requires IsInteger(ty) && n >= TypeIdToSize(ty)
    ensures Wrap(ty, ShiftRight(ty, a, n)) == 0
  {
    hide Pow2, Wrap, AsSigned, InRange;
    OnesInRange(ty);
    WrapInRange(ty, 0);
  }
}
