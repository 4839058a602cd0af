// Stock datatypes and the 64-bit arithmetic the other modules share.

module Wrappers {
  datatype Option<+T> = None | Some(value: T)

  datatype Result<+T, +E> = Success(value: T) | Failure(error: E)
}

/** Go's int64: two's-complement addition wraps around silently. */
module Int64 {
  type int64 = x: int | -0x8000_0000_0000_0000 <= x < 0x8000_0000_0000_0000

  predicate InRange(x: int) {
    -0x8000_0000_0000_0000 <= x < 0x8000_0000_0000_0000
  }

  /** The int64 that Go computes for a mathematical result `x`. */
  function Wrap(x: int): int64 {
    (x + 0x8000_0000_0000_0000) % 0x1_0000_0000_0000_0000 - 0x8000_0000_0000_0000
  }

  ghost predicate Congruent(x: int, y: int) {
    (x - y) % 0x1_0000_0000_0000_0000 == 0
  }

  /** Wrapping is characterised by congruence modulo 2^64: it hits the one
      int64 congruent to its argument, so values in range are fixed points. */
  lemma {:induction false} WrapIsTheCongruentInt64(x: int, y: int64)
    ensures y == Wrap(x) <==> Congruent(x, y)
  {
    var q := (x + 0x8000_0000_0000_0000) / 0x1_0000_0000_0000_0000;
    var k := (x - y) / 0x1_0000_0000_0000_0000;
    assert x == Wrap(x) + q * 0x1_0000_0000_0000_0000;
    if Congruent(x, y) {
      assert x == y + k * 0x1_0000_0000_0000_0000;
      assert -1 < q - k < 1;
    }
  }

  /** Wrapping early or late makes no difference to a sum. */
  lemma {:induction false} WrapAbsorbs(x: int, y: int)
    ensures Wrap(Wrap(x) + y) == Wrap(x + y)
  {
  }

  /** Two sums wrap to the same value exactly when they differ by a multiple of
      2^64; among int64 differences only 0 is one. */
  lemma {:induction false} SameWrapIff(x: int, y: int)
    ensures Wrap(x) == Wrap(x + y) <==> Congruent(y, 0)
    ensures InRange(y) ==> (Congruent(y, 0) <==> y == 0)
  {
    WrapIsTheCongruentInt64(x, Wrap(x));
    WrapIsTheCongruentInt64(x + y, Wrap(x));
    var n := (x - Wrap(x)) / 0x1_0000_0000_0000_0000;
    assert x - Wrap(x) == n * 0x1_0000_0000_0000_0000;
  }
}
