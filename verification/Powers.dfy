/** Powers of two as exact reals, and products kept apart from their factors. */
module Powers {
  function Power(n: nat): (p: int)
    ensures p > 0
  {
    if n == 0 then 1 else 2 * Power(n - 1)
  }

  /** Two to the power `e`. */
  function Scale(e: int): (s: real)
    ensures s > 0.0
    decreases if e >= 0 then e else -e
  {
    if e == 0 then 1.0 else if e > 0 then 2.0 * Scale(e - 1) else Scale(e + 1) / 2.0
  }

  lemma ScaleDoubles(e: int)
    ensures Scale(e + 1) == 2.0 * Scale(e)
  {
  }

  lemma {:induction false} ScaleShift(e: int, n: nat)
    ensures Scale(e + n) == Scale(e) * (Power(n) as real)
  {
    if n > 0 {
      ScaleShift(e, n - 1);
      ScaleDoubles(e + n - 1);
      var s, p := Scale(e), Power(n - 1) as real;
      assert Power(n) as real == 2.0 * p;
      assert 2.0 * (s * p) == s * (2.0 * p);
    }
  }

  lemma {:induction false} ScaleMonotone(d: int, e: int)
    requires d <= e
    ensures Scale(d) <= Scale(e)
    decreases e - d
  {
    if d < e {
      ScaleMonotone(d, e - 1);
      ScaleDoubles(e - 1);
    }
  }

  lemma PowerStep(k: nat)
    ensures Power(k + 1) == 2 * Power(k)
  {
  }

  lemma PowerZero()
    ensures Power(0) == 1
  {
  }

  lemma {:induction false} PowerMonotone(a: nat, b: nat)
    requires a <= b
    ensures Power(a) <= Power(b)
    decreases b - a
  {
    if a < b {
      PowerMonotone(a, b - 1);
    }
  }

  lemma ProductMonotone(q: int, d: int, b: int)
    requires q <= d && b > 0
    ensures q * b <= d * b
  {
  }

  lemma {:induction false} PowerSum(m: nat, n: nat)
    ensures Power(m + n) == Power(m) * Power(n)
  {
    if n > 0 {
      PowerSum(m, n - 1);
      var p, q := Power(m), Power(n - 1);
      assert 2 * (p * q) == p * (2 * q);
    }
  }

  function Signed(negative: bool, magnitude: real): real {
    if negative then -magnitude else magnitude
  }

  function Abs(x: real): real {
    if x < 0.0 then -x else x
  }

  function Times(x: real, u: real): real {
    x * u
  }

  lemma MulOrder(x: real, y: real, u: real)
    requires u > 0.0
    ensures x <= y <==> Times(x, u) <= Times(y, u)
    ensures x < y <==> Times(x, u) < Times(y, u)
  {
  }

  lemma TimesHalf(u: real)
    ensures Times(0.5, u) == u / 2.0
  {
  }

  lemma TimesSign(x: real, u: real)
    requires u > 0.0
    ensures Abs(Times(x, u)) == Times(Abs(x), u)
  {
    MulOrder(x, 0.0, u);
  }

  lemma TimesDiff(x: real, y: real, u: real)
    ensures Times(x, u) - Times(y, u) == Times(x - y, u)
  {
  }

  lemma PowerValues()
    ensures Power(11) == 0x800 && Power(23) == 0x80_0000 && Power(40) == 0x100_0000_0000
    ensures Power(52) == 0x10_0000_0000_0000 && Power(63) == 0x8000_0000_0000_0000
  {
    assert Power(1) == 2 && Power(2) == 4 && Power(3) == 8 && Power(4) == 16;
    PowerSum(4, 4);
    PowerSum(8, 3);
    PowerSum(11, 8);
    PowerSum(19, 4);
    PowerSum(23, 11);
    PowerSum(34, 4);
    PowerSum(38, 2);
    PowerSum(40, 8);
    PowerSum(48, 4);
    PowerSum(52, 11);
    hide Power;
  }

  /** A normalised multiple of a higher power is at least twice the top of a lower one. */
  lemma HigherIsAbove(p: int, k: int, m: int, top: int)
    requires k > p && m >= top > 0
    ensures Times(m as real, Scale(k)) >= Times(2.0 * (top as real), Scale(p))
  {
    ScaleMonotone(p + 1, k);
    ScaleDoubles(p);
    hide Scale, Times;
    var t, u, v := top as real, Scale(p), Scale(k);
    MulOrder(t, m as real, v);
    MulOrder(2.0 * u, v, t);
    TimesTurns(t, u, v);
  }

  lemma TimesTurns(t: real, u: real, v: real)
    ensures Times(2.0 * t, u) == Times(2.0 * u, t) && Times(v, t) == Times(t, v)
  {
  }

  /** Of all values with significands below 2*top, normalised unless at the same or a lower
      power, the largest not above `a` is `a` with its fraction in units of 2^p dropped. */
  lemma GridBelow(a: real, p: int, q: real, top: int, m: int, k: int)
    requires top > 0 && Times(q, Scale(p)) == a && top as real <= q < 2.0 * (top as real)
    requires m < 2 * top && (m >= top || k <= p)
    ensures Times(q.Floor as real, Scale(p)) <= a
    ensures Times(m as real, Scale(k)) <= a ==> Times(m as real, Scale(k)) <= Times(q.Floor as real, Scale(p))
  {
    hide Scale, Times;
    var u := Scale(p);
    MulOrder(q.Floor as real, q, u);
    if k == p {
      MulOrder(m as real, q, u);
      MulOrder(m as real, q.Floor as real, u);
      assert m as real <= q ==> m <= q.Floor;
    } else if k < p {
      HigherIsAbove(k, p, q.Floor, top);
      MulOrder(m as real, 2.0 * (top as real), Scale(k));
    } else {
      HigherIsAbove(p, k, m, top);
      MulOrder(q, 2.0 * (top as real), u);
    }
  }
}
