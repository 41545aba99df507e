/** Exact arithmetic shared by the models: JavaScript's Math.min, Math.max, Math.floor, Math.ceil over the reals. */
module Numbers {

  function Min(a: real, b: real): (m: real)
    ensures m <= a && m <= b && (m == a || m == b)
  {
    if a <= b then a else b
  }

  function Max(a: real, b: real): (m: real)
    ensures m >= a && m >= b && (m == a || m == b)
  {
    if a >= b then a else b
  }

  function Clamp(x: real, lo: real, hi: real): real {
    Min(hi, Max(lo, x))
  }

  function PosPart(x: real): real {
    if x > 0.0 then x else 0.0
  }

  function Abs(x: real): real {
    if x >= 0.0 then x else -x
  }

  function Floor(x: real): (f: int)
    ensures f as real <= x < f as real + 1.0
  {
    x.Floor
  }

  function Ceil(x: real): (c: int)
    ensures c as real - 1.0 < x <= c as real
  {
    -((-x).Floor)
  }

  /** Redis drops the fraction of a number it returns. */
  function Trunc(x: real): real { if x >= 0.0 then Floor(x) as real else Ceil(x) as real }

  lemma TruncWhole(x: real, n: int)
    requires x == n as real
    ensures Trunc(x) == x
  {
    var f, c := Floor(x), Ceil(x);
    assert f <= n < f + 1 && c - 1 < n <= c;
  }

  lemma FloorIs(x: real, k: int)
    requires k as real <= x < k as real + 1.0
    ensures Floor(x) == k
  {
  }

  /** For a positive width, the epoch-aligned cell that holds x starts at Floor(x / w) * w. */
  lemma CellBounds(x: real, w: real)
    requires w > 0.0
    ensures var s := Floor(x / w) as real * w; s <= x < s + w
  {
    var q := x / w;
    assert q * w == x;
    CellArith(q, Floor(q) as real, w, x);
  }

  /** Any k whose cell holds x is that quotient's floor. */
  lemma CellIndex(x: real, w: real, k: int)
    requires w > 0.0 && k as real * w <= x < k as real * w + w
    ensures Floor(x / w) == k
  {
    var q := x / w;
    assert q * w == x;
    assert q < k as real ==> q * w < k as real * w;
    Distributes(k as real, 1.0, w);
    assert q >= (k + 1) as real ==> q * w >= (k + 1) as real * w;
  }

  lemma CellArith(q: real, k: real, w: real, x: real)
    requires w > 0.0 && k <= q < k + 1.0 && q * w == x
    ensures k * w <= x < k * w + w
  {
    MulMono(k, q, w);
    var e := k + 1.0 - q;
    assert e * w > 0.0;
    Distributes(q, e, w);
    Distributes(k, 1.0, w);
    assert (q + e) * w == (k + 1.0) * w;
    assert x + e * w == k * w + w;
  }

  lemma Distributes(a: real, b: real, w: real)
    ensures (a + b) * w == a * w + b * w
  {
  }

  lemma MulMono(a: real, b: real, w: real)
    requires a <= b && w >= 0.0
    ensures a * w <= b * w
  {
    assert (b - a) * w >= 0.0;
  }

  /** Sum of a finite list of reals. */
  function Sum(s: seq<real>): real {
    if s == [] then 0.0 else Sum(s[..|s| - 1]) + s[|s| - 1]
  }

  lemma {:induction false} SumLinear(s: seq<real>, t: seq<real>, a: real, b: real, u: seq<real>)
    requires |s| == |t| == |u|
    requires forall i :: 0 <= i < |u| ==> u[i] == a * s[i] + b * t[i]
    ensures Sum(u) == a * Sum(s) + b * Sum(t)
  {
    if u != [] {
      var n := |u| - 1;
      SumLinear(s[..n], t[..n], a, b, u[..n]);
    }
  }

  lemma {:induction false} SumNegated(s: seq<real>, u: seq<real>)
    requires |s| == |u| && forall i :: 0 <= i < |u| ==> u[i] == -s[i]
    ensures Sum(u) == -Sum(s)
  {
    if u != [] { SumNegated(s[..|u| - 1], u[..|u| - 1]); }
  }

  lemma {:induction false} SumLinear3(r: seq<real>, s: seq<real>, t: seq<real>, a: real, b: real, c: real, u: seq<real>)
    requires |r| == |s| == |t| == |u|
    requires forall i :: 0 <= i < |u| ==> u[i] == a * r[i] + b * s[i] + c * t[i]
    ensures Sum(u) == a * Sum(r) + b * Sum(s) + c * Sum(t)
  {
    if u != [] {
      var n := |u| - 1;
      SumLinear3(r[..n], s[..n], t[..n], a, b, c, u[..n]);
    }
  }

  lemma {:induction false} SumMonotone(s: seq<real>, t: seq<real>)
    requires |s| == |t|
    requires forall i :: 0 <= i < |s| ==> s[i] <= t[i]
    ensures Sum(s) <= Sum(t)
  {
    if s != [] {
      var n := |s| - 1;
      SumMonotone(s[..n], t[..n]);
    }
  }

  /** Two pointwise ordered lists with the same sum are equal. */
  lemma {:induction false} SumTight(s: seq<real>, t: seq<real>)
    requires |s| == |t|
    requires forall i :: 0 <= i < |s| ==> s[i] <= t[i]
    requires Sum(s) >= Sum(t)
    ensures forall i :: 0 <= i < |s| ==> s[i] == t[i]
  {
    if s != [] {
      var n := |s| - 1;
      SumMonotone(s[..n], t[..n]);
      SumTight(s[..n], t[..n]);
    }
  }

  lemma {:induction false} SumUpdate(s: seq<real>, i: nat, y: real)
    requires i < |s|
    ensures Sum(s[i := y]) == Sum(s) - s[i] + y
  {
    var n := |s| - 1;
    if i == n {
      assert s[i := y][..n] == s[..n];
    } else {
      assert s[i := y][..n] == s[..n][i := y];
      SumUpdate(s[..n], i, y);
    }
  }

  lemma SumPrefix(s: seq<real>, i: nat)
    requires i < |s|
    ensures Sum(s[..i + 1]) == Sum(s[..i]) + s[i]
  {
    assert s[..i + 1][..i] == s[..i];
  }

  lemma {:induction false} SumAppend(s: seq<real>, t: seq<real>)
    ensures Sum(s + t) == Sum(s) + Sum(t)
  {
    if t == [] {
      assert s + t == s;
    } else {
      var n := |t| - 1;
      SumAppend(s, t[..n]);
      assert (s + t)[..|s + t| - 1] == s + t[..n];
    }
  }

  lemma {:induction false} SumNonNeg(s: seq<real>)
    requires forall i :: 0 <= i < |s| ==> s[i] >= 0.0
    ensures Sum(s) >= 0.0
  {
    if s != [] { SumNonNeg(s[..|s| - 1]); }
  }

  lemma {:induction false} SumZero(s: seq<real>)
    requires forall i :: 0 <= i < |s| ==> s[i] == 0.0
    ensures Sum(s) == 0.0
  {
    if s != [] { SumZero(s[..|s| - 1]); }
  }
}
