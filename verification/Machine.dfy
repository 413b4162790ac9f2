/** Machine words of the target: the model keeps registers and counters as natural numbers
    and writes every wrap-around of the C source out. */
module Machine {

  const TWO16: int := 0x1_0000
  const TWO31: int := 0x8000_0000
  const TWO32: int := 0x1_0000_0000

  /** Conversion to uint16_t. */
  function Wrap16(x: int): nat {
    x % TWO16
  }

  /** Conversion to uint32_t. */
  function Wrap32(x: int): nat {
    x % TWO32
  }

  /** Adding to a wrapped word wraps like adding to the whole number. */
  lemma WrapAdd(x: int, y: int)
    ensures Wrap32(Wrap32(x) + y) == Wrap32(x + y)
  {
  }

  lemma WrapSub(x: int, y: int)
    ensures Wrap32(Wrap32(x) - Wrap32(y)) == Wrap32(x - y)
  {
  }

  /** Reinterpretation of a uint32_t as int32_t. */
  function Signed32(x: nat): int
    requires x < TWO32
  {
    if x < TWO31 then x else x - TWO32
  }

  type Byte = x: int | 0 <= x < 0x100

  function Min(a: int, b: int): int {
    if a <= b then a else b
  }

  datatype Option<+T> = None | Some(value: T)

  lemma MulMonotone(a: nat, b: nat, c: nat)
    requires a <= b
    ensures a * c <= b * c
  {
  }

  /** A quotient is determined by its remainder. */
  lemma QuotientIs(x: nat, c: nat, q: nat)
    requires 1 <= c
    requires q * c <= x < (q + 1) * c
    ensures x / c == q
  {
    var d := x / c;
    assert x == d * c + x % c;
    if d < q {
      MulMonotone(d + 1, q, c);
    } else if q < d {
      MulMonotone(q + 1, d, c);
    }
  }

  lemma QuotientStep(x: nat, c: nat)
    requires 1 <= c
    ensures (x + c) / c == x / c + 1
  {
    var q := x / c;
    var p := q * c;
    assert x == p + x % c;
    assert (q + 1) * c == p + c;
    assert (q + 2) * c == p + c + c;
    QuotientIs(x + c, c, q + 1);
  }

  /** Bitwise or of two nonnegative integers. */
  function BitOr(a: nat, b: nat): nat {
    if a == 0 then b
    else if b == 0 then a
    else 2 * BitOr(a / 2, b / 2) + if a % 2 == 1 || b % 2 == 1 then 1 else 0
  }

  /** All bits up to the highest are set. */
  predicate Ones(a: nat) {
    a == 0 || (a % 2 == 1 && Ones(a / 2))
  }

  lemma {:induction false} BitOrWithin(a: nat, b: nat, ones: nat)
    requires Ones(ones) && a <= ones && b <= ones
    ensures BitOr(a, b) <= ones
    ensures a == ones || b == ones ==> BitOr(a, b) == ones
  {
    if a != 0 && b != 0 {
      BitOrWithin(a / 2, b / 2, ones / 2);
    }
  }

  lemma ByteOnes()
    ensures Ones(0xFF)
  {
  }

  function OrByte(a: Byte, b: Byte): (r: Byte)
    ensures a == 0 ==> r == b
    ensures b == 0 ==> r == a
    ensures a == 0xFF || b == 0xFF ==> r == 0xFF
  {
    ByteOnes();
    BitOrWithin(a, b, 0xFF);
    BitOr(a, b)
  }
}
