/** ObjectUtil: null-safe equality and null-first comparison. */
module ObjectUtil {
  import opened Errors

  /**
   * equals(a, b): `eq` (the objects' own equals) when both are non-null,
   * otherwise true exactly when both are null.
   */
  predicate NullSafeEquals<T>(eq: (T, T) -> bool, a: Option<T>, b: Option<T>) {
    if a.Some? && b.Some? then eq(a.value, b.value) else a.None? && b.None?
  }

  /** With a reflexive equals, equal references compare equal; null never equals non-null. */
  lemma NullSafeEqualsProperties<T>(eq: (T, T) -> bool, a: Option<T>, b: Option<T>)
    requires forall x :: eq(x, x)
    ensures a == b ==> NullSafeEquals(eq, a, b)
    ensures a.None? != b.None? ==> !NullSafeEquals(eq, a, b)
    ensures (forall x, y :: eq(x, y) == eq(y, x)) ==> NullSafeEquals(eq, a, b) == NullSafeEquals(eq, b, a)
  {
  }

  /** equals(Object[][] pairs): the `&=` loop that stops at the first unequal pair. */
  method EqualsAll<T>(eq: (T, T) -> bool, pairs: seq<(Option<T>, Option<T>)>) returns (result: bool)
    ensures result <==> forall i :: 0 <= i < |pairs| ==> NullSafeEquals(eq, pairs[i].0, pairs[i].1)
  {
    result := true;
    var i := 0;
    while result && i < |pairs|
      invariant 0 <= i <= |pairs|
      invariant result <==> forall j :: 0 <= j < i ==> NullSafeEquals(eq, pairs[j].0, pairs[j].1)
      invariant !result ==> i > 0 && !NullSafeEquals(eq, pairs[i - 1].0, pairs[i - 1].1)
    {
      result := result && NullSafeEquals(eq, pairs[i].0, pairs[i].1);
      i := i + 1;
    }
  }

  /** compare(Comparable a, Comparable b): null ranks below everything, two nulls are equal, otherwise compareTo. */
  function Compare<T>(compareTo: (T, T) -> int, a: Option<T>, b: Option<T>): (r: int)
    ensures a.None? && b.Some? ==> r == -1
    ensures a.Some? && b.None? ==> r == 1
    ensures a.None? && b.None? ==> r == 0
  {
    if a.Some? && b.Some? then compareTo(a.value, b.value)
    else if a.None? && b.Some? then -1
    else if b.None? && a.Some? then 1
    else 0
  }

  function Sign(x: int): int {
    if x < 0 then -1 else if x > 0 then 1 else 0
  }

  /** If compareTo is antisymmetric in sign, so is the null-first comparison. */
  lemma CompareAntisymmetric<T>(compareTo: (T, T) -> int, a: Option<T>, b: Option<T>)
    requires forall x, y :: Sign(compareTo(x, y)) == -Sign(compareTo(y, x))
    ensures Sign(Compare(compareTo, a, b)) == -Sign(Compare(compareTo, b, a))
  {
    if a.Some? && b.Some? {
      assert Sign(compareTo(a.value, b.value)) == -Sign(compareTo(b.value, a.value));
    }
  }

  const IntMin: int := -0x8000_0000
  const IntMax: int := 0x7FFF_FFFF

  predicate IsInt32(x: int) { IntMin <= x <= IntMax }

  /** Java int arithmetic: the two's-complement wrap-around of an exact result. */
  function Wrap32(x: int): (r: int)
    ensures IsInt32(r)
    ensures IsInt32(x) ==> r == x
  {
    (x - IntMin) % 0x1_0000_0000 + IntMin
  }

  /** compare(int a, int b), as written: `a - b` in 32-bit arithmetic. */
  function CompareInt(a: int, b: int): (r: int)
    requires IsInt32(a) && IsInt32(b)
    ensures IsInt32(r)
    ensures IsInt32(a - b) ==> Sign(r) == Sign(a - b)
  {
    Wrap32(a - b)
  }

  /** The subtraction overflows: Integer.MIN_VALUE compares as greater than 1. */
  lemma CompareIntOverflows()
    ensures CompareInt(IntMin, 1) > 0
  {
    assert Wrap32(IntMin - 1) == IntMax;
  }

  /** compare(int, int) as evidently intended: the sign of the comparison, without overflow. */
  function CompareIntSign(a: int, b: int): (r: int)
    requires IsInt32(a) && IsInt32(b)
    ensures r == Sign(a - b)
    ensures (r < 0 <==> a < b) && (r == 0 <==> a == b) && (r > 0 <==> a > b)
  {
    if a < b then -1 else if a > b then 1 else 0
  }

  /**
   * compare(Calendar a, Calendar b): the same null order; non-null calendars
   * compare their times (getTime() gives a Date, whose compareTo is the sign
   * of the difference of the millisecond instants).
   */
  function CompareCalendar(a: Option<int>, b: Option<int>): (r: int)
    ensures r == Compare((x: int, y: int) => Sign(x - y), a, b)
    ensures a.Some? && b.Some? ==> (r < 0 <==> a.value < b.value) && (r == 0 <==> a.value == b.value)
  {
    if a.Some? && b.Some? then Sign(a.value - b.value)
    else if a.None? && b.Some? then -1
    else if b.None? && a.Some? then 1
    else 0
  }
}
