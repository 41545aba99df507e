/**
 * The one-dimensional core of the dual solver. Along a line with parameter s every plane has a gap
 * rho[j] - s * sigma[j]; the objective is s * g plus the weighted positive parts of the gaps. The first
 * `axes` planes carry no weight: their gaps are minus the coordinates, so a point is dual-feasible when
 * they are all <= 0. The minimum over the feasible part of the line is attained on some plane it crosses.
 */
module LineSearch {
  import opened Numbers

  function Along(rho: seq<real>, sigma: seq<real>, s: real): (gaps: seq<real>)
    requires |rho| == |sigma|
    ensures |gaps| == |rho| && forall i :: 0 <= i < |rho| ==> gaps[i] == rho[i] - s * sigma[i]
  {
    seq(|rho|, i requires 0 <= i < |rho| => rho[i] - s * sigma[i])
  }

  lemma AlongIs(rho: seq<real>, sigma: seq<real>, s: real, moved: seq<real>)
    requires |rho| == |sigma| == |moved| && forall j :: 0 <= j < |rho| ==> moved[j] == rho[j] - s * sigma[j]
    ensures moved == Along(rho, sigma, s)
  {
  }

  /** weight * max(0, gap), per plane. */
  function Terms(w: seq<real>, gaps: seq<real>): (terms: seq<real>)
    requires |w| == |gaps|
    ensures |terms| == |w| && forall i :: 0 <= i < |w| ==> terms[i] == w[i] * PosPart(gaps[i])
  {
    seq(|w|, i requires 0 <= i < |w| => w[i] * PosPart(gaps[i]))
  }

  function Negated(sigma: seq<real>): (r: seq<real>)
    ensures |r| == |sigma| && forall i :: 0 <= i < |r| ==> r[i] == -sigma[i]
  {
    seq(|sigma|, i requires 0 <= i < |sigma| => -sigma[i])
  }

  /** The gap rho - t * sigma vanishes exactly at s. */
  ghost predicate HitAt(rho: real, sigma: real, s: real) {
    sigma != 0.0 && rho == s * sigma
  }

  /** No plane is crossed at a parameter in [0, s). */
  ghost predicate ClearUpTo(rho: seq<real>, sigma: seq<real>, s: real)
    requires |rho| == |sigma|
  {
    forall j, t :: 0 <= j < |rho| && HitAt(rho[j], sigma[j], t) && 0.0 <= t ==> s <= t
  }

  ghost predicate NeverHit(rho: seq<real>, sigma: seq<real>)
    requires |rho| == |sigma|
  {
    forall j, t :: 0 <= j < |rho| && HitAt(rho[j], sigma[j], t) ==> t < 0.0
  }

  /** The first plane met when walking forward, if any. */
  lemma {:induction false} FirstHit(rho: seq<real>, sigma: seq<real>) returns (found: bool, s: real, j: nat)
    requires |rho| == |sigma|
    ensures !found ==> NeverHit(rho, sigma)
    ensures found ==> s >= 0.0 && j < |rho| && HitAt(rho[j], sigma[j], s) && ClearUpTo(rho, sigma, s)
  {
    found, s, j := false, 0.0, 0;
    if rho != [] {
      var n := |rho| - 1;
      found, s, j := FirstHit(rho[..n], sigma[..n]);
      if sigma[n] != 0.0 {
        var t := rho[n] / sigma[n];
        assert HitAt(rho[n], sigma[n], t);
        HitUnique(rho[n], sigma[n], t);
        if t >= 0.0 && (!found || t < s) {
          found, s, j := true, t, n;
        }
      }
    }
  }

  lemma HitUnique(rho: real, sigma: real, t: real)
    requires HitAt(rho, sigma, t)
    ensures forall s :: HitAt(rho, sigma, s) ==> s == t
  {
    forall s | HitAt(rho, sigma, s) ensures s == t {
      assert (s - t) * sigma == 0.0;
    }
  }

  /** Two gaps on the same side of their plane. */
  ghost predicate OneSided(rho: real, a: real) {
    (rho >= 0.0 && a >= 0.0) || (rho <= 0.0 && a <= 0.0)
  }

  /** Walking forward to s without passing the plane keeps the side, and leaves it at once only if s = 0. */
  lemma KeepsSide(rho: real, sigma: real, s: real)
    requires s >= 0.0
    requires forall t :: HitAt(rho, sigma, t) && 0.0 <= t ==> s <= t
    ensures OneSided(rho, rho - s * sigma)
    ensures rho == 0.0 && s > 0.0 ==> sigma == 0.0
  {
    if sigma != 0.0 {
      var t := rho / sigma;
      assert t * sigma == rho;
      assert HitAt(rho, sigma, t);
      assert rho - s * sigma == (t - s) * sigma;
      SignOfProduct(t, t - s, sigma);
    }
  }

  lemma SignOfProduct(t: real, u: real, sigma: real)
    requires sigma != 0.0 && OneSided(t, u)
    ensures OneSided(t * sigma, u * sigma) && (t * sigma == 0.0 ==> t == 0.0)
  {
  }

  function SlopeOf(w: real, rho: real, sigma: real): real {
    if rho > 0.0 then -(w * sigma) else 0.0
  }

  function SlopesOf(w: seq<real>, rho: seq<real>, sigma: seq<real>): seq<real>
    requires |w| == |rho| == |sigma|
  {
    seq(|w|, i requires 0 <= i < |w| => SlopeOf(w[i], rho[i], sigma[i]))
  }

  ghost predicate KeepsSign(rho: real, sigma: real, s: real) {
    OneSided(rho, rho - s * sigma) && (rho == 0.0 ==> sigma == 0.0)
  }

  lemma TermMoves(w: real, rho: real, sigma: real, s: real)
    requires KeepsSign(rho, sigma, s)
    ensures w * PosPart(rho - s * sigma) == w * PosPart(rho) + s * SlopeOf(w, rho, sigma)
  {
    assert w * (rho - s * sigma) == w * rho - s * (w * sigma);
  }

  /** While no gap changes side, the weighted sum is affine in s. */
  lemma {:induction false} TermsMove(w: seq<real>, rho: seq<real>, sigma: seq<real>, s: real,
                                     at0: seq<real>, atS: seq<real>, m: seq<real>)
    requires |w| == |rho| == |sigma|
    requires forall i :: 0 <= i < |w| ==> KeepsSign(rho[i], sigma[i], s)
    requires at0 == Terms(w, rho) && atS == Terms(w, Along(rho, sigma, s)) && m == SlopesOf(w, rho, sigma)
    ensures Sum(atS) == Sum(at0) + s * Sum(m)
  {
    EachTermMoves(w, rho, sigma, s, at0, atS, m);
    SumLinear(at0, m, 1.0, s, atS);
  }

  lemma {:induction false} EachTermMoves(w: seq<real>, rho: seq<real>, sigma: seq<real>, s: real,
                                         at0: seq<real>, atS: seq<real>, m: seq<real>)
    requires |w| == |rho| == |sigma|
    requires forall i :: 0 <= i < |w| ==> KeepsSign(rho[i], sigma[i], s)
    requires at0 == Terms(w, rho) && atS == Terms(w, Along(rho, sigma, s)) && m == SlopesOf(w, rho, sigma)
    ensures forall i :: 0 <= i < |w| ==> atS[i] == 1.0 * at0[i] + s * m[i]
  {
    forall i | 0 <= i < |w| ensures atS[i] == 1.0 * at0[i] + s * m[i] {
      TermMoves(w[i], rho[i], sigma[i], s);
    }
  }

  lemma {:induction false} NearSideKept(rho: seq<real>, sigma: seq<real>, s: real)
    requires |rho| == |sigma| && s >= 0.0 && ClearUpTo(rho, sigma, s)
    ensures forall j :: 0 <= j < |rho| ==> OneSided(rho[j], rho[j] - s * sigma[j])
    ensures s > 0.0 ==> forall j :: 0 <= j < |rho| ==> KeepsSign(rho[j], sigma[j], s)
  {
    forall j | 0 <= j < |rho|
      ensures OneSided(rho[j], rho[j] - s * sigma[j])
      ensures s > 0.0 ==> KeepsSign(rho[j], sigma[j], s)
    {
      KeepsSide(rho[j], sigma[j], s);
    }
  }

  lemma {:induction false} AlongBack(rho: seq<real>, sigma: seq<real>, s: real)
    requires |rho| == |sigma|
    ensures Along(rho, Negated(sigma), s) == Along(rho, sigma, -s)
    ensures Along(rho, sigma, 0.0) == rho
  {
    forall i | 0 <= i < |rho| ensures Along(rho, Negated(sigma), s)[i] == Along(rho, sigma, -s)[i] {
      StepBack(rho[i], sigma[i], Negated(sigma)[i], s);
    }
  }

  lemma StepBack(rho: real, sigma: real, back: real, s: real)
    requires back == -sigma
    ensures rho - s * back == rho - -s * sigma
  {
  }

  /** Walking to the first plane ahead is affine with the slope at the start. */
  lemma {:induction false} WalkAhead(w: seq<real>, rho: seq<real>, sigma: seq<real>, s: real,
                                     v0: real, vS: real, slope: real)
    requires |w| == |rho| == |sigma| && s > 0.0 && ClearUpTo(rho, sigma, s)
    requires v0 == Sum(Terms(w, rho)) && vS == Sum(Terms(w, Along(rho, sigma, s))) && slope == Sum(SlopesOf(w, rho, sigma))
    ensures vS == v0 + s * slope
  {
    NearSideKept(rho, sigma, s);
    TermsMove(w, rho, sigma, s, Terms(w, rho), Terms(w, Along(rho, sigma, s)), SlopesOf(w, rho, sigma));
  }

  lemma {:induction false} SlopesBack(w: seq<real>, rho: seq<real>, sigma: seq<real>, m: seq<real>, back: seq<real>)
    requires |w| == |rho| == |sigma|
    requires m == SlopesOf(w, rho, sigma) && back == SlopesOf(w, rho, Negated(sigma))
    ensures Sum(back) == -Sum(m)
  {
    forall i | 0 <= i < |w| ensures back[i] == -1.0 * m[i] + 0.0 * m[i] {
      assert -(w[i] * -sigma[i]) == w[i] * sigma[i];
    }
    SumLinear(m, m, -1.0, 0.0, back);
  }

  /** With a plane on both sides, one of the two is no worse than the start. */
  lemma {:induction false} OneEndNoWorse(w: seq<real>, rho: seq<real>, sigma: seq<real>, g: real, l: real, r: real,
                                         v0: real, vL: real, vR: real, m: real, back: real)
    requires |w| == |rho| == |sigma| && l > 0.0 && r > 0.0
    requires ClearUpTo(rho, sigma, r) && ClearUpTo(rho, Negated(sigma), l)
    requires v0 == Sum(Terms(w, rho)) && vR == Sum(Terms(w, Along(rho, sigma, r)))
    requires vL == Sum(Terms(w, Along(rho, Negated(sigma), l)))
    requires m == Sum(SlopesOf(w, rho, sigma)) && back == Sum(SlopesOf(w, rho, Negated(sigma)))
    ensures -l * g + vL <= v0 || r * g + vR <= v0
  {
    WalkAhead(w, rho, sigma, r, v0, vR, m);
    WalkAhead(w, rho, Negated(sigma), l, v0, vL, back);
    SlopesBack(w, rho, sigma, SlopesOf(w, rho, sigma), SlopesOf(w, rho, Negated(sigma)));
    Descends(g, m, back, v0, vL, vR, l, r);
  }

  lemma Descends(g: real, m: real, back: real, v: real, lo: real, hi: real, l: real, r: real)
    requires l > 0.0 && r > 0.0 && lo == v + l * back && back == -m && hi == v + r * m
    ensures -l * g + lo <= v || r * g + hi <= v
  {
    assert -l * g + l * back == -l * (g + m);
    assert r * g + r * m == r * (g + m);
  }

  /** With no plane ahead and non-negative slopes, every positive gap is constant on the way back. */
  lemma {:induction false} Retreat(w: seq<real>, rho: seq<real>, sigma: seq<real>, l: real)
    requires |w| == |rho| == |sigma| && l >= 0.0
    requires NeverHit(rho, sigma) && ClearUpTo(rho, Negated(sigma), l)
    requires forall j :: 0 <= j < |sigma| ==> sigma[j] >= 0.0
    ensures Terms(w, Along(rho, sigma, -l)) == Terms(w, rho)
  {
    forall i | 0 <= i < |w| ensures Terms(w, Along(rho, sigma, -l))[i] == Terms(w, rho)[i] {
      RetreatGap(rho[i], sigma[i], l, Negated(sigma)[i]);
    }
  }

  lemma RetreatGap(rho: real, sigma: real, l: real, back: real)
    requires l >= 0.0 && sigma >= 0.0 && back == -sigma
    requires forall t :: HitAt(rho, sigma, t) ==> t < 0.0
    requires forall t :: HitAt(rho, back, t) && 0.0 <= t ==> l <= t
    ensures PosPart(rho - -l * sigma) == PosPart(rho)
  {
    if sigma != 0.0 {
      var t := rho / sigma;
      assert t * sigma == rho;
      assert HitAt(rho, sigma, t);
      assert HitAt(rho, back, -t);
      MulMono(l, -t, sigma);
    }
  }

  /** Axis gaps are minus coordinates, so they stay <= 0 up to the first plane. */
  lemma {:induction false} StaysFeasible(rho: seq<real>, sigma: seq<real>, s: real, axes: nat)
    requires |rho| == |sigma| && axes <= |rho| && s >= 0.0 && ClearUpTo(rho, sigma, s)
    requires Feasible(rho, axes)
    ensures Feasible(Along(rho, sigma, s), axes)
  {
    NearSideKept(rho, sigma, s);
    forall j | 0 <= j < axes ensures Along(rho, sigma, s)[j] <= 0.0 {
      if rho[j] == 0.0 && s > 0.0 { assert KeepsSign(rho[j], sigma[j], s); }
    }
  }

  /** If no axis is ever hit walking forward, the line leads into the orthant. */
  lemma {:induction false} LeadsUp(rho: seq<real>, sigma: seq<real>, j: nat)
    requires |rho| == |sigma| && j < |rho| && rho[j] <= 0.0 && NeverHit(rho, sigma)
    ensures sigma[j] >= 0.0
  {
    if sigma[j] < 0.0 {
      var t := rho[j] / sigma[j];
      assert t * sigma[j] == rho[j];
      assert HitAt(rho[j], sigma[j], t);
    }
  }

  /** The geometry of the orthant: a direction leading up along every axis raises every gap's slope and the cost. */
  ghost predicate Ascending(sigma: seq<real>, g: real, axes: nat)
    requires axes <= |sigma|
  {
    (forall j :: 0 <= j < axes ==> sigma[j] >= 0.0) ==> g >= 0.0 && forall j :: 0 <= j < |sigma| ==> sigma[j] >= 0.0
  }

  ghost predicate NoWorse(w: seq<real>, rho: seq<real>, sigma: seq<real>, g: real, s: real)
    requires |w| == |rho| == |sigma|
  {
    s * g + Sum(Terms(w, Along(rho, sigma, s))) <= Sum(Terms(w, rho))
  }

  ghost predicate Feasible(gaps: seq<real>, axes: nat)
    requires axes <= |gaps|
  {
    forall i :: 0 <= i < axes ==> gaps[i] <= 0.0
  }

  /**
   * From any feasible point of a line that is not constant on the axes, some plane crossing the line
   * carries a feasible point whose objective is no larger.
   */
  lemma {:induction false} LineDescent(w: seq<real>, rho: seq<real>, sigma: seq<real>, g: real, axes: nat)
    returns (s: real, j: nat)
    requires |w| == |rho| == |sigma| && axes <= |rho|
    requires Feasible(rho, axes)
    requires exists i :: 0 <= i < axes && sigma[i] != 0.0
    requires Ascending(sigma, g, axes) && Ascending(Negated(sigma), -g, axes)
    ensures Landed(w, rho, sigma, g, axes, s, j)
  {
    var ahead, r, jr := FirstHit(rho, sigma);
    var behind, l, jl := FirstHit(rho, Negated(sigma));
    if !ahead {
      BothWays(rho, sigma, axes, behind);
      LandBehind(w, rho, sigma, g, axes, l, jl);
      s, j := -l, jl;
    } else if !behind {
      NeverBack(rho, sigma, axes);
      LandAhead(w, rho, sigma, g, axes, r, jr);
      s, j := r, jr;
    } else {
      var forward := LandEither(w, rho, sigma, g, axes, l, jl, r, jr);
      s, j := if forward then r else -l, if forward then jr else jl;
    }
  }

  ghost predicate Landed(w: seq<real>, rho: seq<real>, sigma: seq<real>, g: real, axes: nat, s: real, j: nat)
    requires |w| == |rho| == |sigma| && axes <= |rho|
  {
    j < |rho| && HitAt(rho[j], sigma[j], s) && Feasible(Along(rho, sigma, s), axes) && NoWorse(w, rho, sigma, g, s)
  }

  lemma {:induction false} LandBehind(w: seq<real>, rho: seq<real>, sigma: seq<real>, g: real, axes: nat, l: real, j: nat)
    requires |w| == |rho| == |sigma| && axes <= |rho| && Feasible(rho, axes) && l >= 0.0 && g >= 0.0
    requires j < |rho| && HitAt(rho[j], Negated(sigma)[j], l) && ClearUpTo(rho, Negated(sigma), l) && NeverHit(rho, sigma)
    requires forall j :: 0 <= j < |sigma| ==> sigma[j] >= 0.0
    ensures Landed(w, rho, sigma, g, axes, -l, j)
  {
    StaysFeasible(rho, Negated(sigma), l, axes);
    AlongBack(rho, sigma, l);
    RetreatNoWorse(w, rho, sigma, g, l);
  }

  lemma {:induction false} LandAhead(w: seq<real>, rho: seq<real>, sigma: seq<real>, g: real, axes: nat, r: real, j: nat)
    requires |w| == |rho| == |sigma| && axes <= |rho| && Feasible(rho, axes) && r >= 0.0 && -g >= 0.0
    requires j < |rho| && HitAt(rho[j], sigma[j], r) && ClearUpTo(rho, sigma, r) && NeverHit(rho, Negated(sigma))
    requires forall j :: 0 <= j < |sigma| ==> Negated(sigma)[j] >= 0.0
    ensures Landed(w, rho, sigma, g, axes, r, j)
  {
    StaysFeasible(rho, sigma, r, axes);
    AdvanceNoWorse(w, rho, sigma, g, r);
  }

  lemma {:induction false} LandEither(w: seq<real>, rho: seq<real>, sigma: seq<real>, g: real, axes: nat,
                                      l: real, jl: nat, r: real, jr: nat) returns (forward: bool)
    requires |w| == |rho| == |sigma| && axes <= |rho| && Feasible(rho, axes) && l >= 0.0 && r >= 0.0
    requires jr < |rho| && HitAt(rho[jr], sigma[jr], r) && ClearUpTo(rho, sigma, r)
    requires jl < |rho| && HitAt(rho[jl], Negated(sigma)[jl], l) && ClearUpTo(rho, Negated(sigma), l)
    ensures if forward then Landed(w, rho, sigma, g, axes, r, jr) else Landed(w, rho, sigma, g, axes, -l, jl)
  {
    StaysFeasible(rho, sigma, r, axes);
    StaysFeasible(rho, Negated(sigma), l, axes);
    AlongBack(rho, sigma, l);
    forward := Choose(w, rho, sigma, g, l, r, Sum(Terms(w, rho)),
      Sum(Terms(w, Along(rho, Negated(sigma), l))), Sum(Terms(w, Along(rho, sigma, r))));
  }

  lemma {:induction false} RetreatNoWorse(w: seq<real>, rho: seq<real>, sigma: seq<real>, g: real, l: real)
    requires |w| == |rho| == |sigma| && l >= 0.0 && g >= 0.0
    requires NeverHit(rho, sigma) && ClearUpTo(rho, Negated(sigma), l)
    requires forall j :: 0 <= j < |sigma| ==> sigma[j] >= 0.0
    ensures NoWorse(w, rho, sigma, g, -l)
  {
    Retreat(w, rho, sigma, l);
    RetreatCheaper(g, l);
  }

  lemma {:induction false} AdvanceNoWorse(w: seq<real>, rho: seq<real>, sigma: seq<real>, g: real, r: real)
    requires |w| == |rho| == |sigma| && r >= 0.0 && -g >= 0.0
    requires NeverHit(rho, Negated(sigma)) && ClearUpTo(rho, sigma, r)
    requires forall j :: 0 <= j < |sigma| ==> Negated(sigma)[j] >= 0.0
    ensures NoWorse(w, rho, sigma, g, r)
  {
    assert Negated(Negated(sigma)) == sigma;
    Retreat(w, rho, Negated(sigma), r);
    AlongBack(rho, Negated(sigma), r);
    RetreatCheaper(-g, r);
  }

  lemma RetreatCheaper(g: real, l: real)
    requires g >= 0.0 && l >= 0.0
    ensures -l * g <= 0.0 && l * -g <= 0.0
  {
  }

  lemma {:induction false} Choose(w: seq<real>, rho: seq<real>, sigma: seq<real>, g: real, l: real, r: real,
                                  v0: real, vL: real, vR: real) returns (forward: bool)
    requires |w| == |rho| == |sigma| && l >= 0.0 && r >= 0.0
    requires ClearUpTo(rho, sigma, r) && ClearUpTo(rho, Negated(sigma), l)
    requires v0 == Sum(Terms(w, rho)) && vR == Sum(Terms(w, Along(rho, sigma, r)))
    requires vL == Sum(Terms(w, Along(rho, Negated(sigma), l)))
    ensures if forward then NoWorse(w, rho, sigma, g, r) else NoWorse(w, rho, sigma, g, -l)
  {
    if r == 0.0 {
      AlongBack(rho, sigma, r);
      forward := true;
    } else if l == 0.0 {
      AlongBack(rho, Negated(sigma), l);
      AlongBack(rho, sigma, l);
      forward := false;
    } else {
      AlongBack(rho, sigma, l);
      OneEndNoWorse(w, rho, sigma, g, l, r, v0, vL, vR, Sum(SlopesOf(w, rho, sigma)), Sum(SlopesOf(w, rho, Negated(sigma))));
      forward := r * g + vR <= v0;
    }
  }

  lemma {:induction false} BothWays(rho: seq<real>, sigma: seq<real>, axes: nat, behind: bool)
    requires |rho| == |sigma| && axes <= |rho|
    requires Feasible(rho, axes)
    requires exists i :: 0 <= i < axes && sigma[i] != 0.0
    requires NeverHit(rho, sigma)
    requires !behind ==> NeverHit(rho, Negated(sigma))
    ensures behind && forall i :: 0 <= i < axes ==> sigma[i] >= 0.0
  {
    forall i | 0 <= i < axes ensures sigma[i] >= 0.0 { LeadsUp(rho, sigma, i); }
    if !behind {
      forall i | 0 <= i < axes ensures sigma[i] <= 0.0 { LeadsUp(rho, Negated(sigma), i); }
    }
  }

  lemma {:induction false} NeverBack(rho: seq<real>, sigma: seq<real>, axes: nat)
    requires |rho| == |sigma| && axes <= |rho|
    requires Feasible(rho, axes)
    requires NeverHit(rho, Negated(sigma))
    ensures forall i :: 0 <= i < axes ==> Negated(sigma)[i] >= 0.0
  {
    forall i | 0 <= i < axes ensures Negated(sigma)[i] >= 0.0 { LeadsUp(rho, Negated(sigma), i); }
  }
}
