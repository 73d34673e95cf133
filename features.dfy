/**
 * The records the similarity algorithm works on (FeatureImpl and
 * CaseSimilarityImpl) and its default per-feature score
 * (DefaultFeatureComparator.similar).
 */
module Features {
  import opened Errors
  import opened Classes

  /** An IFeature as the similarity algorithm reads it. */
  datatype FeatureView = FeatureView(attribute: string, weight: real, range: real, selected: bool)

  /** FeatureImpl: a final attribute name and three settable fields. */
  class Feature {
    const attribute: string
    var weight: real
    var range: real
    var selected: bool

    /** The values the getters return. */
    function View(): FeatureView
      reads this
    {
      FeatureView(attribute, weight, range, selected)
    }

    /** FeatureImpl(attribute, weight, range): selected from the start. */
    constructor (attribute: string, weight: real, range: real)
      ensures View() == FeatureView(attribute, weight, range, true)
    {
      this.attribute := attribute;
      this.weight := weight;
      this.range := range;
      this.selected := true;
    }

    /** FeatureImpl(attribute, selected): weight and range keep Java's default 0. */
    constructor WithSelection(attribute: string, selected: bool)
      ensures View() == FeatureView(attribute, 0.0, 0.0, selected)
    {
      this.attribute := attribute;
      this.weight := 0.0;
      this.range := 0.0;
      this.selected := selected;
    }

    method SetWeight(weight: real)
      modifies this`weight
      ensures View() == old(View()).(weight := weight)
    {
      this.weight := weight;
    }

    method SetRange(range: real)
      modifies this`range
      ensures View() == old(View()).(range := range)
    {
      this.range := range;
    }

    method SetSelected(selected: bool)
      modifies this`selected
      ensures View() == old(View()).(selected := selected)
    {
      this.selected := selected;
    }
  }

  /** A Java double as far as the model needs one: a real, an infinity or NaN. */
  datatype Double = Finite(x: real) | PositiveInfinity | NegativeInfinity | NaN

  /** CaseSimilarityImpl: the score of similarCase against baseCase, stored as given. */
  datatype CaseSimilarity = CaseSimilarity(value: Double, baseCase: Record, similarCase: Record)

  function Abs(x: real): real {
    if x < 0.0 then -x else x
  }

  /**
   * DefaultFeatureComparator(f).similar(a, b): 0 when either value is null;
   * values of two different classes are refused; two numbers score 1 at
   * distance 0, 1 - d/range at a distance d within the range and 0 beyond
   * it; any other values score 1 when equal and 0 otherwise.
   */
  function Similar(f: FeatureView, a: Value, b: Value): (r: Result<real>)
    ensures r.Ok? ==> 0.0 <= r.value <= 1.0
    ensures a == Null || b == Null ==> r == Ok(0.0)
    ensures r.Err? <==> a != Null && b != Null && (ClassOf(a) != ClassOf(b) || (a.Num? && !b.Num?))
  {
    if a == Null || b == Null then Ok(0.0)
    else if ClassOf(a) != ClassOf(b) then Err(TypeMismatch)
    else if a.Num? then
      if !b.Num? then Err(ClassCast)
      else
        var d := Abs(a.x - b.x);
        if d == 0.0 then Ok(1.0)
        else if d <= f.range then
          DecayInUnit(d, f.range);
          Ok(1.0 - d / f.range)
        else Ok(0.0)
    else Ok(if a == b then 1.0 else 0.0)
  }

  /** A distance within a positive range decays the score to a value in [0, 1). */
  lemma DecayInUnit(d: real, range: real)
    requires 0.0 < d <= range
    ensures 0.0 <= 1.0 - d / range < 1.0
  {
    assert d / range <= 1.0 by {
      assert d / range * range == d;
    }
  }

  /** Numbers at distance 0 score 1, whatever the range (negative or zero included). */
  lemma EqualNumbersScoreOne(f: FeatureView, c: ClassName, x: real, y: real)
    requires x == y
    ensures Similar(f, Num(c, x), Num(c, y)) == Ok(1.0)
  {
  }

  /** Numbers at a distance d with 0 < d <= range score 1 - d/range; beyond the range they score 0. */
  lemma NumbersDecayWithDistance(f: FeatureView, c: ClassName, x: real, y: real)
    ensures 0.0 < Abs(x - y) <= f.range ==> Similar(f, Num(c, x), Num(c, y)) == Ok(1.0 - Abs(x - y) / f.range)
    ensures Abs(x - y) > f.range && x != y ==> Similar(f, Num(c, x), Num(c, y)) == Ok(0.0)
  {
  }

  /** With range 0 (and any smaller range) only exactly equal numbers score, and they score 1. */
  lemma ZeroRangeIsExactMatch(f: FeatureView, c: ClassName, x: real, y: real)
    requires f.range <= 0.0
    ensures Similar(f, Num(c, x), Num(c, y)) == (if x == y then Ok(1.0) else Ok(0.0))
  {
    if x != y {
      assert Abs(x - y) > 0.0;
    }
  }

  /** The worked example of range 10: 5 against 10 scores 0.5. */
  lemma HalfRangeExample(f: FeatureView, c: ClassName)
    requires f.range == 10.0
    ensures Similar(f, Num(c, 5.0), Num(c, 10.0)) == Ok(0.5)
  {
    assert Abs(5.0 - 10.0) == 5.0;
  }

  /**
   * The score does not depend on the order of the two values, errors
   * included, for values whose kinds agree (in Java a class is either a
   * Number subclass or not, so two values of one class always agree).
   */
  lemma SimilarSymmetric(f: FeatureView, a: Value, b: Value)
    requires a.Num? <==> b.Num?
    ensures Similar(f, a, b).Ok? <==> Similar(f, b, a).Ok?
    ensures Similar(f, a, b).Ok? ==> Similar(f, a, b) == Similar(f, b, a)
  {
    if a.Num? && b.Num? {
      assert Abs(a.x - b.x) == Abs(b.x - a.x);
    }
  }

  /** A non-null value compared with itself scores 1; null scores 0. */
  lemma SimilarReflexive(f: FeatureView, v: Value)
    ensures Similar(f, v, v) == (if v == Null then Ok(0.0) else Ok(1.0))
  {
  }

  /** Among numbers, a closer pair never scores lower than a farther one. */
  lemma CloserScoresHigher(f: FeatureView, c: ClassName, x: real, y: real, u: real, v: real)
    requires Abs(x - y) <= Abs(u - v)
    ensures Similar(f, Num(c, u), Num(c, v)).value <= Similar(f, Num(c, x), Num(c, y)).value
  {
    var d1, d2 := Abs(x - y), Abs(u - v);
    if 0.0 < d1 && d2 <= f.range {
      assert d2 / f.range - d1 / f.range == (d2 - d1) / f.range;
      assert 0.0 <= (d2 - d1) / f.range;
    }
  }

  /** Non-numeric values of one class score 1 exactly when equal. */
  lemma OtherValuesScoreByEquality(f: FeatureView, a: Value, b: Value)
    requires a != Null && b != Null && !a.Num? && ClassOf(a) == ClassOf(b)
    ensures Similar(f, a, b) == Ok(if a == b then 1.0 else 0.0)
  {
  }
}
