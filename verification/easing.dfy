/**
  The easing curves of `useAnimations` and their dispatch by tween type
  (`easeByTweenType`, numbered as the game's tween enumeration). The
  polynomial, back and bounce curves are plain arithmetic and are written out
  over exact reals; sine, square root and powers with a real exponent come
  from the host and stay uninterpreted.
*/
module Easing {

  /** The host's `Math.PI`, `Math.sin`, `Math.cos`, `Math.sqrt` and `Math.pow` with a real exponent. */
  datatype HostMath = HostMath(pi: real, sin: real -> real, cos: real -> real, sqrt: real -> real, pow: (real, real) -> real)

  /** `Math.pow(x, n)` for a whole exponent. */
  function Pow(x: real, n: nat): real {
    if n == 0 then 1.0 else x * Pow(x, n - 1)
  }

  /** `Easing.bounceOut`: four parabolic arcs. */
  function BounceOut(t: real): real {
    var n1 := 7.5625;
    var d1 := 2.75;
    if t < 1.0 / d1 then n1 * t * t
    else if t < 2.0 / d1 then
      var u := t - 1.5 / d1;
      n1 * u * u + 0.75
    else if t < 2.5 / d1 then
      var u := t - 2.25 / d1;
      n1 * u * u + 0.9375
    else
      var u := t - 2.625 / d1;
      n1 * u * u + 0.984375
  }

  /** The constants of the back curves. */
  const BackC1 := 1.70158
  const BackC3 := BackC1 + 1.0
  const BackC2 := BackC1 * 1.525

  /**
    `easeByTweenType(t, tweenType)`: 0 linear; 1-3 sine out/in/in-out; 4-6
    quad; 7-9 cubic; 10-12 quart; 13-15 quint; 16-18 expo; 19-21 circ; 22-24
    elastic; 25-27 back; 28-30 bounce in/out/in-out; any other id gives `t`.
  */
  function Ease(t: real, tweenType: int, m: HostMath): (r: real)
    ensures !(0 <= tweenType <= 30) ==> r == t
  {
    match tweenType
    case 0 => t
    case 1 => m.sin(t * m.pi / 2.0)
    case 2 => 1.0 - m.cos(t * m.pi / 2.0)
    case 3 => -(m.cos(m.pi * t) - 1.0) / 2.0
    case 4 => t * t
    case 5 => 1.0 - (1.0 - t) * (1.0 - t)
    case 6 => if t < 0.5 then 2.0 * t * t else 1.0 - Pow(-2.0 * t + 2.0, 2) / 2.0
    case 7 => t * t * t
    case 8 => 1.0 - Pow(1.0 - t, 3)
    case 9 => if t < 0.5 then 4.0 * t * t * t else 1.0 - Pow(-2.0 * t + 2.0, 3) / 2.0
    case 10 => t * t * t * t
    case 11 => 1.0 - Pow(1.0 - t, 4)
    case 12 => if t < 0.5 then 8.0 * Pow(t, 4) else 1.0 - Pow(-2.0 * t + 2.0, 4) / 2.0
    case 13 => t * t * t * t * t
    case 14 => 1.0 - Pow(1.0 - t, 5)
    case 15 => if t < 0.5 then 16.0 * Pow(t, 5) else 1.0 - Pow(-2.0 * t + 2.0, 5) / 2.0
    case 16 => if t == 0.0 then 0.0 else m.pow(2.0, 10.0 * (t - 1.0))
    case 17 => if t == 1.0 then 1.0 else 1.0 - m.pow(2.0, -10.0 * t)
    case 18 =>
      if t == 0.0 || t == 1.0 then t
      else if t < 0.5 then m.pow(2.0, 20.0 * t - 11.0)
      else 1.0 - m.pow(2.0, -20.0 * t + 11.0)
    case 19 => 1.0 - m.sqrt(1.0 - t * t)
    case 20 => m.sqrt(1.0 - (t - 1.0) * (t - 1.0))
    case 21 =>
      if t < 0.5 then (1.0 - m.sqrt(1.0 - 4.0 * t * t)) / 2.0
      else (m.sqrt(1.0 - Pow(-2.0 * t + 2.0, 2)) + 1.0) / 2.0
    case 22 =>
      if t == 0.0 || t == 1.0 then t
      else -m.pow(2.0, 10.0 * t - 10.0) * m.sin((t * 10.0 - 10.75) * (2.0 * m.pi / 3.0))
    case 23 =>
      if t == 0.0 || t == 1.0 then t
      else m.pow(2.0, -10.0 * t) * m.sin((t * 10.0 - 0.75) * (2.0 * m.pi / 3.0)) + 1.0
    case 24 =>
      if t == 0.0 || t == 1.0 then t
      else if t < 0.5 then -(m.pow(2.0, 20.0 * t - 10.0) * m.sin((20.0 * t - 11.125) * (2.0 * m.pi / 4.5))) / 2.0
      else m.pow(2.0, -20.0 * t + 10.0) * m.sin((20.0 * t - 11.125) * (2.0 * m.pi / 4.5)) / 2.0 + 1.0
    case 25 => BackC3 * t * t * t - BackC1 * t * t
    case 26 => 1.0 + BackC3 * Pow(t - 1.0, 3) + BackC1 * Pow(t - 1.0, 2)
    case 27 =>
      if t < 0.5 then (Pow(2.0 * t, 2) * ((BackC2 + 1.0) * 2.0 * t - BackC2)) / 2.0
      else (Pow(2.0 * t - 2.0, 2) * ((BackC2 + 1.0) * (t * 2.0 - 2.0) + BackC2) + 2.0) / 2.0
    case 28 => 1.0 - BounceOut(1.0 - t)
    case 29 => BounceOut(t)
    case 30 => if t < 0.5 then (1.0 - BounceOut(1.0 - 2.0 * t)) / 2.0 else (1.0 + BounceOut(2.0 * t - 1.0)) / 2.0
    case _ => t
  }

  /** The tween types whose curve is plain arithmetic: linear, quad, cubic, quart, quint, back and bounce. */
  predicate Algebraic(tweenType: int) {
    tweenType == 0 || 4 <= tweenType <= 15 || 25 <= tweenType <= 30
  }

  /** The bounce curve ends exactly on its endpoints. */
  lemma BounceEnds()
    ensures BounceOut(0.0) == 0.0 && BounceOut(1.0) == 1.0
  {
    var u := 1.0 - 2.625 / 2.75;
    assert u == 0.125 / 2.75;
    assert 7.5625 * u * u == 0.015625;
  }

  /** Every algebraic curve starts at 0 and ends at 1, whatever the host's transcendental functions are. */
  lemma AlgebraicEndpoints(tweenType: int, m: HostMath)
    requires Algebraic(tweenType)
    ensures Ease(0.0, tweenType, m) == 0.0
    ensures Ease(1.0, tweenType, m) == 1.0
  {
    assert Pow(0.0, 2) == 0.0 && Pow(0.0, 3) == 0.0;
    if tweenType == 6 || tweenType == 9 || tweenType == 12 || tweenType == 15 {
      assert Pow(2.0, 2) == 4.0 && Pow(2.0, 3) == 8.0 && Pow(2.0, 4) == 16.0 && Pow(2.0, 5) == 32.0;
    } else if tweenType == 26 {
      assert Pow(-1.0, 2) == 1.0 && Pow(-1.0, 3) == -1.0;
    } else if tweenType == 27 {
      assert Pow(-2.0, 2) == 4.0 && Pow(2.0, 2) == 4.0;
    } else if tweenType >= 28 {
      BounceEnds();
      var z := Ease(0.0, tweenType, m);
      var o := Ease(1.0, tweenType, m);
      if tweenType == 28 {
        assert z == 1.0 - BounceOut(1.0) && o == 1.0 - BounceOut(0.0);
      } else if tweenType == 29 {
        assert z == BounceOut(0.0) && o == BounceOut(1.0);
      } else {
        assert z == (1.0 - BounceOut(1.0)) / 2.0 && o == (1.0 + BounceOut(1.0)) / 2.0;
      }
    } else {
      assert Pow(1.0, 3) == 1.0 && Pow(1.0, 4) == 1.0 && Pow(1.0, 5) == 1.0;
      assert Pow(0.0, 4) == 0.0 && Pow(0.0, 5) == 0.0;
    }
  }

  /** The cubic in-out curve passes through its midpoint exactly. */
  lemma CubicInOutMidpoint(m: HostMath)
    ensures Ease(0.5, 9, m) == 0.5
  {
    assert Pow(1.0, 3) == 1.0;
  }

  /**
    The expo and elastic curves are pinned to `t` by explicit guards: expo-in
    at 0, expo-out at 1, and expo-in-out and the three elastic curves at both
    ends, whatever the host's `Math.pow` and `Math.sin` return.
  */
  lemma GuardedEndpoints(tweenType: int, m: HostMath)
    ensures tweenType == 16 ==> Ease(0.0, tweenType, m) == 0.0
    ensures tweenType == 17 ==> Ease(1.0, tweenType, m) == 1.0
    ensures tweenType == 18 || 22 <= tweenType <= 24 ==> Ease(0.0, tweenType, m) == 0.0 && Ease(1.0, tweenType, m) == 1.0
  {
  }

  /** Bounce-in is bounce-out mirrored through the centre: `1 - bounceOut(1 - t)`. */
  lemma BounceInMirrors(t: real, m: HostMath)
    ensures Ease(t, 28, m) == 1.0 - Ease(1.0 - t, 29, m)
  {
  }

  /** The algebraic curves do not consult the host at all. */
  lemma AlgebraicIgnoresHost(t: real, tweenType: int, m1: HostMath, m2: HostMath)
    requires Algebraic(tweenType)
    ensures Ease(t, tweenType, m1) == Ease(t, tweenType, m2)
  {
  }
}
