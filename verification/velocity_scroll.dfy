/** The scroll-driven marquee: a `wrap` helper that folds a position into
    a range with JavaScript's truncating `%`, and the per-frame update of
    the direction the text travels in.

    Positions are modelled as integers for `wrap` (the helper's arithmetic
    is exact there) and as reals for the frame update. */
module VelocityScroll {
  import opened Js

  /** `wrap(min, max, v)`: `(((v - min) % size) + size) % size + min` with
      `size = max - min`; a zero size divides by zero and gives NaN. */
  function Wrap(min: int, max: int, v: int): (r: Number)
    ensures r == NaN <==> min == max
  {
    var size := max - min;
    if size == 0 then NaN
    else Num(Rem(Rem(v - min, size) + size, size) + min)
  }

  /** The negation of a number; NaN stays NaN. */
  function Neg(x: Number): (r: Number)
    ensures r.Num? <==> x.Num?
    ensures x.Num? ==> r.n == -x.n
  {
    match x
    case NaN => NaN
    case Num(n) => Num(-n)
  }

  /** The truncating remainder is odd in both arguments. */
  lemma RemNegate(a: int, b: int)
    requires b != 0
    ensures Rem(-a, -b) == -Rem(a, b)
  {
  }

  /** Mirroring the range and the value mirrors the result. */
  lemma WrapMirror(min: int, max: int, v: int)
    ensures Wrap(min, max, v) == Neg(Wrap(-min, -max, -v))
  {
    var size := max - min;
    if size != 0 {
      var r1 := Rem(v - min, size);
      RemNegate(v - min, size);
      RemNegate(r1 + size, size);
      assert -(v - min) == -v - -min && -size == -max - -min;
    }
  }

  /** For an increasing range, `wrap` is the Euclidean remainder moved to
      start at `min`. */
  lemma WrapIsEuclidean(min: int, max: int, v: int)
    requires min < max
    ensures Wrap(min, max, v) == Num((v - min) % (max - min) + min)
  {
    var size := max - min;
    var a := v - min;
    var r1 := Rem(a, size);
    RemDivision(a, size);
    var q := Quot(a, size);
    var b := r1 + size;
    assert 0 < b < 2 * size;
    RemOfNatural(b, size);
    var e := b % size;
    assert b == size * (b / size) + e;
    assert a == size * (q + b / size - 1) + e;
    ModUnique(a, size, q + b / size - 1, e);
  }

  /** For min < max the result lies in [min, max). */
  lemma WrapInRange(min: int, max: int, v: int)
    requires min < max
    ensures Wrap(min, max, v).Num? && min <= Wrap(min, max, v).n < max
  {
    WrapIsEuclidean(min, max, v);
  }

  /** On [min, max) `wrap` changes nothing. */
  lemma WrapIdentity(min: int, max: int, v: int)
    requires min <= v < max
    ensures Wrap(min, max, v) == Num(v)
  {
    WrapIsEuclidean(min, max, v);
    SmallMod(v - min, max - min);
  }

  /** `wrap` has period `max - min`. */
  lemma WrapPeriodic(min: int, max: int, v: int)
    requires min < max
    ensures Wrap(min, max, v + (max - min)) == Wrap(min, max, v)
  {
    WrapIsEuclidean(min, max, v);
    WrapIsEuclidean(min, max, v + (max - min));
    ModAddSelf(v - min, max - min);
  }

  /** The marquee calls `wrap(-20, -45, v)`: the range is given backwards,
      its size is -25, and every position lands in (-45, -20] rather than
      in [-20, -45). The band has the intended width of 25, and a shift by
      25 still changes nothing. */
  lemma MarqueeCall(v: int)
    ensures Wrap(-20, -45, v).Num?
    ensures -45 < Wrap(-20, -45, v).n <= -20
    ensures Wrap(-20, -45, v + 25) == Wrap(-20, -45, v)
    ensures -45 < v <= -20 ==> Wrap(-20, -45, v) == Num(v)
  {
    WrapMirror(-20, -45, v);
    WrapInRange(20, 45, -v);
    WrapMirror(-20, -45, v + 25);
    WrapPeriodic(20, 45, -v - 25);
    assert -v - 25 + 25 == -v;
    if -45 < v <= -20 {
      WrapIdentity(20, 45, -v);
    }
  }

  // ----- direction -----

  /** The direction kept between frames: -1 after a negative velocity
      factor, +1 after a positive one, unchanged at 0. */
  function Direction(prev: int, factor: real): (d: int)
    ensures factor < 0.0 ==> d == -1
    ensures factor > 0.0 ==> d == 1
    ensures factor == 0.0 ==> d == prev
  {
    if factor < 0.0 then -1 else if factor > 0.0 then 1 else prev
  }

  /** One animation frame after `delta` ms: the position moves by the base
      speed in the old direction, scaled by `1 + dir * factor` with the new
      direction. */
  function Frame(x: real, dir: int, base: real, delta: real, factor: real): (r: (real, int))
  {
    var moveBy := dir as real * base * (delta / 1000.0);
    var d := Direction(dir, factor);
    (x + moveBy + d as real * moveBy * factor, d)
  }

  /** The absolute value of a real. */
  function AbsReal(x: real): (r: real)
    ensures r >= 0.0 && (r == x || r == -x)
  {
    if x < 0.0 then -x else x
  }

  /** The direction stays a unit from its initial 1 on. In a frame the text
      travels in the direction it had before the frame, by the base
      distance times `1 + |factor|`: scrolling only ever speeds it up, and a
      change of direction shows from the following frame on. */
  lemma FrameMoves(x: real, dir: int, base: real, delta: real, factor: real)
    requires dir == 1 || dir == -1
    requires base > 0.0 && delta > 0.0
    ensures var (x', d) := Frame(x, dir, base, delta, factor);
      (d == 1 || d == -1)
      && (dir == 1 ==> x' > x) && (dir == -1 ==> x' < x)
      && AbsReal(x' - x) == base * (delta / 1000.0) * (1.0 + AbsReal(factor))
  {
    var step := base * (delta / 1000.0);
    assert step > 0.0;
    var d := Direction(dir, factor);
    var moveBy := dir as real * step;
    assert d as real * factor == AbsReal(factor) || factor == 0.0;
    assert moveBy + d as real * moveBy * factor == moveBy * (1.0 + d as real * factor);
  }
}
