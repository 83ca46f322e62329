/** The pieces of Java's value semantics that the Swarm models depend on:
    32-bit `int` arithmetic, `double` values with their infinities and NaN,
    the `(int)` narrowing cast, and a value-or-exception result. */
module JavaLang {

  const IntMin: int := -0x8000_0000
  const IntMax: int := 0x7FFF_FFFF

  /** A Java `int`. */
  type Int32 = x: int | -0x8000_0000 <= x <= 0x7FFF_FFFF

  /** The value an `int` expression takes in Java: two's-complement wrap-around. */
  function Wrap32(x: int): (r: Int32)
    ensures (x - r) % 0x1_0000_0000 == 0
    ensures IntMin <= x <= IntMax ==> r == x
  {
    var m := x % 0x1_0000_0000;
    if m <= IntMax then m else m - 0x1_0000_0000
  }

  /** Two integers that agree modulo 2^32 wrap to the same `int`. */
  lemma Wrap32Congruent(x: int, y: int)
    requires (x - y) % 0x1_0000_0000 == 0
    ensures Wrap32(x) == Wrap32(y)
  {
    var q := (x - y) / 0x1_0000_0000;
    assert x == y + q * 0x1_0000_0000;
    assert x % 0x1_0000_0000 == y % 0x1_0000_0000;
  }

  /** Wrapping an intermediate result does not change a wrapped sum with a multiple of it. */
  lemma Wrap32MulAdd(k: int, x: int, c: int)
    ensures Wrap32(k * Wrap32(x) + c) == Wrap32(k * x + c)
  {
    var w := Wrap32(x);
    var q := (x - w) / 0x1_0000_0000;
    assert x - w == q * 0x1_0000_0000;
    assert (k * x + c) - (k * w + c) == (k * q) * 0x1_0000_0000;
    Wrap32Congruent(k * w + c, k * x + c);
  }

  /** A Java `double`: a finite value, an infinity, or NaN.  Rounding of
      finite values to the nearest double is not modelled. */
  datatype Double = Finite(value: real) | PositiveInfinity | NegativeInfinity | NaN

  /** The integer part of `r`, rounding toward zero. */
  function TruncateTowardZero(r: real): (n: int)
    ensures 0.0 <= r ==> 0 <= n && n as real <= r < n as real + 1.0
    ensures r < 0.0 ==> n <= 0 && n as real - 1.0 < r <= n as real
  {
    if r >= 0.0 then r.Floor else -((-r).Floor)
  }

  /** `(int) d`, the narrowing conversion of section 5.1.3 of the Java
      Language Specification: NaN becomes 0, everything else rounds toward
      zero and saturates at the ends of the `int` range. */
  function IntCast(d: Double): (n: Int32)
    ensures d.NaN? ==> n == 0
    ensures d.Finite? && 0.0 <= d.value < IntMax as real ==> n as real <= d.value < n as real + 1.0
    ensures d.Finite? && d.value < 0.0 ==> n <= 0
    ensures d.PositiveInfinity? || (d.Finite? && d.value >= IntMax as real + 1.0) ==> n == IntMax
  {
    match d
    case NaN => 0
    case PositiveInfinity => IntMax
    case NegativeInfinity => IntMin
    case Finite(r) =>
      var t := TruncateTowardZero(r);
      if t < IntMin then IntMin else if t > IntMax then IntMax else t
  }

  /** `d < c` for a double `d` and a constant `c`: false whenever `d` is NaN. */
  predicate LessThan(d: Double, c: real) {
    match d
    case Finite(v) => v < c
    case NegativeInfinity => true
    case PositiveInfinity => false
    case NaN => false
  }

  /** `d / c` for a positive constant `c`. */
  function DivideBy(d: Double, c: real): (q: Double)
    requires c > 0.0
    ensures q.NaN? <==> d.NaN?
    ensures d.Finite? ==> q.Finite? && q.value * c == d.value
  {
    match d
    case Finite(v) => Finite(v / c)
    case _ => d
  }

  /** The exception a Java method throws, where the model keeps it. */
  datatype Exception = ArrayIndexOutOfBounds

  /** A Java method's outcome: a returned value or a thrown exception. */
  datatype Result<T> = Ok(value: T) | Err(error: Exception)

  /** A Java reference that may be null, for values. */
  datatype Option<T> = None | Some(value: T)
}
