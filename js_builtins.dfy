/** The few JavaScript built-ins the core relies on, over mathematical numbers:
    `Math.abs`, `Math.max`, `Math.min`, `Math.round`, the `%` operator and
    `Array.prototype.indexOf`. */
module JsBuiltins {

  function Abs(v: real): (r: real)
    ensures r >= 0.0 && (r == v || r == -v)
  {
    if v < 0.0 then -v else v
  }

  function Max(a: real, b: real): (r: real)
    ensures r >= a && r >= b && (r == a || r == b)
  {
    if a >= b then a else b
  }

  function Min(a: real, b: real): (r: real)
    ensures r <= a && r <= b && (r == a || r == b)
  {
    if a <= b then a else b
  }

  /** `Math.max` and `Math.min` again, on integers: the grid density and the canvas sizes
      are integers, and Dafny has no ordering shared by `int` and `real` that one
      definition could range over. */
  function MaxInt(a: int, b: int): (r: int)
    ensures r >= a && r >= b && (r == a || r == b)
  {
    if a >= b then a else b
  }

  function MinInt(a: int, b: int): (r: int)
    ensures r <= a && r <= b && (r == a || r == b)
  {
    if a <= b then a else b
  }

  /** `Math.round`: the nearest integer, halves rounded towards +infinity
      (so `Math.round(-2.5) == -2`). */
  function Round(v: real): (r: int)
    ensures v - 0.5 < r as real <= v + 0.5
  {
    (v + 0.5).Floor
  }

  /** JavaScript's `a % b` for a positive divisor: the remainder of division truncated
      towards zero, which takes the sign of the dividend (Dafny's `%` is Euclidean and
      never negative). */
  function Rem(a: int, b: int): (r: int)
    requires b > 0
    ensures a >= 0 ==> 0 <= r < b && r == a % b
    ensures a < 0 ==> -b < r <= 0 && (r == 0 || r == a % b - b)
  {
    if a >= 0 then a % b
    else
      var m := (-a) % b;
      assert -a == ((-a) / b) * b + m;
      if m != 0 then DivModUnique(a, b, -((-a) / b) - 1, b - m); -m else -m
  }

  /** `s.indexOf(x)`: the first index holding `x`, or -1. */
  function IndexOf<T(==)>(s: seq<T>, x: T): (r: int)
    ensures -1 <= r < |s|
    ensures r == -1 <==> x !in s
    ensures r >= 0 ==> s[r] == x && x !in s[..r]
  {
    if |s| == 0 then -1
    else if s[0] == x then 0
    else
      var k := IndexOf(s[1..], x);
      assert x in s[1..] ==> x in s;
      if k == -1 then -1
      else
        assert s[1..][..k] == s[1..k + 1];
        k + 1
  }

  /** `s.splice(i, 1)` on a list: the element at i taken out, the rest kept in order. */
  function SpliceOut<T>(s: seq<T>, i: nat): (r: seq<T>)
    requires i < |s|
    ensures |r| == |s| - 1
    ensures forall k {:trigger r[k]} :: 0 <= k < i ==> r[k] == s[k]
    ensures forall k {:trigger r[k]} :: i <= k < |r| ==> r[k] == s[k + 1]
  {
    s[..i] + s[i + 1..]
  }

  /** A non-negative JavaScript number: finite, `Infinity`, or `NaN`. Only the quotients and
      products of non-negative reals the core forms are needed. */
  datatype Extended = Finite(v: real) | PosInf | NaN

  /** `a / b` for a, b >= 0: a positive number over 0 is `Infinity`, 0 / 0 is `NaN`. */
  function Quotient(a: real, b: real): (q: Extended)
    requires a >= 0.0 && b >= 0.0
    ensures q.Finite? <==> b > 0.0
    ensures q.Finite? ==> q.v >= 0.0 && q.v * b == a
    ensures q == PosInf <==> b == 0.0 && a > 0.0
  {
    if b > 0.0 then Finite(a / b) else if a > 0.0 then PosInf else NaN
  }

  /** `x > y`: `Infinity` exceeds every finite number, and any comparison with `NaN` is
      false. */
  predicate Greater(x: Extended, y: Extended) {
    match (x, y)
    case (Finite(a), Finite(b)) => a > b
    case (PosInf, Finite(_)) => true
    case _ => false
  }

  /** `a / x` for a >= 0: a finite divisor as in `Quotient`, `a / Infinity` is 0. */
  function DivideBy(a: real, x: Extended): (q: Extended)
    requires a >= 0.0 && (x.Finite? ==> x.v >= 0.0)
  {
    match x
    case Finite(b) => Quotient(a, b)
    case PosInf => Finite(0.0)
    case NaN => NaN
  }

  /** `a * x` for a >= 0: `0 * Infinity` is `NaN`. */
  function MultiplyBy(a: real, x: Extended): (p: Extended)
    requires a >= 0.0 && (x.Finite? ==> x.v >= 0.0)
    ensures p.Finite? ==> p.v >= 0.0
  {
    match x
    case Finite(b) => Finite(a * b)
    case PosInf => if a > 0.0 then PosInf else NaN
    case NaN => NaN
  }

  /** Assigning a number to a canvas's `width` or `height` (a WebIDL `unsigned long`): a
      non-finite value becomes 0, a finite non-negative one is truncated. Values of 2^31 and
      more, which wrap around or fall back to the default size of 300, do not occur for
      image-sized canvases and are not modelled. */
  function CanvasDimension(x: Extended): (d: nat)
    requires x.Finite? ==> x.v >= 0.0
    ensures x.Finite? ==> d as real <= x.v < d as real + 1.0
    ensures !x.Finite? ==> d == 0
  {
    if x.Finite? then x.v.Floor else 0
  }

  /** Integer division facts used for flat pixel indices. */
  lemma DivModUnique(n: int, d: int, q: int, r: int)
    requires d > 0 && 0 <= r < d && n == q * d + r
    ensures n / d == q && n % d == r
  {
    var q0 := n / d;
    if q0 > q {
      MulAtLeast(q0 - q, d);
    } else if q0 < q {
      MulAtLeast(q - q0, d);
    }
  }

  lemma MulAtLeast(a: int, d: int)
    requires a >= 1 && d > 0
    ensures a * d >= d
  {
  }
}
