/** The angle schedule: `n` evenly spaced angles over one full turn, from 0 and
    stopping one step short of 360 degrees, as numpy's
    linspace(0, 360, n, endpoint=False) produces them, and the rotation
    direction that signs them. Angles are exact rationals; floating-point
    rounding is not modelled. */
module Angles {
  import opened Results

  /** Degrees in one full turn. */
  const FullTurn: int := 360

  type Positive = n: int | n > 0 witness 1

  /** The exact angle num/den degrees. */
  datatype Degrees = Degrees(num: int, den: Positive) {

    /** The angle as a real number of degrees. */
    function Value(): real {
      (num as real) / (den as real)
    }
  }

  /** An angle lies in [lo, hi) degrees exactly when its numerator lies in
      [lo * den, hi * den). */
  lemma ValueWithin(a: Degrees, lo: int, hi: int)
    requires lo * a.den <= a.num < hi * a.den
    ensures lo as real <= a.Value() < hi as real
  {
    var d := a.den as real;
    assert a.Value() * d == a.num as real;
    assert (lo as real) * d <= a.num as real < (hi as real) * d;
  }

  /** Two angles over the same denominator compare as their numerators. */
  lemma SameDenominatorOrder(a: Degrees, b: Degrees)
    requires a.den == b.den && a.num < b.num
    ensures a.Value() < b.Value()
  {
    var d := a.den as real;
    assert a.Value() * d == a.num as real;
    assert b.Value() * d == b.num as real;
  }

  /** Angle number k of an n-angle schedule: k * 360 / n degrees. */
  function Angle(k: nat, n: nat): Degrees
    requires n > 0
  {
    Degrees(FullTurn * k, n)
  }

  /** The values numpy's linspace(0, 360, n, endpoint=False) returns: an error
      for a negative count, otherwise n angles whose k-th is k * 360 / n. */
  function Schedule(n: int): (r: Result<seq<Degrees>>)
    ensures r.Err? <==> n < 0
    ensures r.Err? ==> r.error == NegativeFrameCount
    ensures r.Ok? ==> |r.value| == n
    ensures r.Ok? ==> forall k :: 0 <= k < n ==> r.value[k] == Angle(k, n)
  {
    if n < 0 then Err(NegativeFrameCount)
    else Ok(seq(n, k requires 0 <= k < n => Angle(k, n)))
  }

  /** A schedule of n >= 1 angles starts at 0, steps by exactly 360 / n,
      strictly increases, stays in [0, 360) and so never produces 360; one more
      step after the last angle would close the turn, so the animation loops
      without a repeated frame. */
  lemma ScheduleShape(n: nat)
    requires n > 0
    ensures Schedule(n).Ok?
    ensures Schedule(n).value[0].Value() == 0.0
    ensures forall k :: 0 <= k < n - 1 ==>
      Schedule(n).value[k + 1].num == Schedule(n).value[k].num + FullTurn
    ensures forall j, k :: 0 <= j < k < n ==> Schedule(n).value[j].Value() < Schedule(n).value[k].Value()
    ensures forall k :: 0 <= k < n ==> 0.0 <= Schedule(n).value[k].Value() < FullTurn as real
    ensures forall k :: 0 <= k < n ==> Schedule(n).value[k].Value() != FullTurn as real
    ensures Schedule(n).value[n - 1].num + FullTurn == FullTurn * n
  {
    var a := Schedule(n).value;
    forall j, k | 0 <= j < k < n
      ensures a[j].Value() < a[k].Value()
    {
      SameDenominatorOrder(a[j], a[k]);
    }
    forall k | 0 <= k < n
      ensures 0.0 <= a[k].Value() < FullTurn as real
    {
      ValueWithin(a[k], 0, FullTurn);
    }
  }

  /** Four frames are a quarter turn apart; one frame is a single unrotated one;
      no frames give an empty schedule. */
  lemma SmallSchedules()
    ensures Schedule(4).Ok? && |Schedule(4).value| == 4
    ensures forall k :: 0 <= k < 4 ==> Schedule(4).value[k].Value() == 90.0 * (k as real)
    ensures Schedule(1) == Ok([Degrees(0, 1)])
    ensures Schedule(0) == Ok([])
  {
    var a := Schedule(4).value;
    assert a[1].Value() == 90.0;
    assert a[2].Value() == 180.0;
    assert a[3].Value() == 270.0;
    assert Schedule(1).value == [Degrees(0, 1)];
  }

  /** The rotation direction chosen for a request. The image library turns
      positive angles counter-clockwise, so a clockwise animation negates them. */
  datatype Direction = Clockwise | CounterClockwise {

    /** The factor each scheduled angle is multiplied by. */
    function Sign(): int {
      if Clockwise? then -1 else 1
    }

    /** The angle actually applied for scheduled angle a: its value is Sign()
        times a's value. */
    function Apply(a: Degrees): (r: Degrees)
      ensures r.den == a.den
      ensures r.Value() == (Sign() as real) * a.Value()
    {
      Degrees(Sign() * a.num, a.den)
    }
  }

  /** Two representations of the same number of degrees. */
  predicate SameAngle(a: Degrees, b: Degrees) {
    a.num * b.den == b.num * a.den
  }

  /** With four frames, clockwise frame k is turned by -90k degrees. */
  lemma QuarterTurns(k: nat)
    requires k < 4
    ensures Clockwise.Apply(Angle(k, 4)).Value() == -90.0 * (k as real)
  {
  }

  /** The applied angle is the signed scheduled angle: opposite directions give
      opposite angles, and the zero angle stays zero in both. */
  lemma ApplySigned(a: Degrees)
    ensures Clockwise.Apply(a).Value() == -CounterClockwise.Apply(a).Value()
    ensures a.num == 0 ==> Clockwise.Apply(a).Value() == 0.0 && CounterClockwise.Apply(a).Value() == 0.0
  {
  }
}
