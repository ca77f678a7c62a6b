/**
 Exactly when the shares of a coalition determine the secret. The roster compares points as integers, the
 field sees only their residues; what counts is how many different residues a coalition has.
 */
module SharingLimits {
  import opened Basics
  import opened Arithmetic
  import opened SecretSharing
  import opened Ceremony
  import opened CeremonyShares

  /** The different residues of the points, which anyone can compute from the roster. */
  function Residues(q: int, xs: seq<int>): set<int>
    requires q > 0
  {
    set i | 0 <= i < |xs| :: xs[i] % q
  }

  /** Enough residues for `t` coefficients, or a point that is zero in the field. */
  predicate Sufficient(q: int, xs: seq<int>, t: nat)
    requires q > 0
  {
    0 in Residues(q, xs) || |Residues(q, xs)| >= t
  }

  ghost predicate AgreeOn(q: int, xs: seq<int>, p: seq<int>, p': seq<int>)
    requires q > 0
  {
    forall i :: 0 <= i < |xs| ==> Cong(q, Eval(p, xs[i]), Eval(p', xs[i]))
  }

  /** Polynomials of `t` coefficients that agree at the points have the same constant term. */
  ghost predicate Determined(q: int, xs: seq<int>, t: nat)
    requires q > 0
  {
    forall p, p' :: |p| == t && |p'| == t && AgreeOn(q, xs, p, p') ==> Cong(q, Eval(p, 0), Eval(p', 0))
  }

  // ----- residues

  lemma {:induction false} CongToResidue(q: int, x: int)
    requires q > 0
    ensures Cong(q, x, x % q)
  {
    assert x == x % q + (x / q) * q;
    CongBy(q, x, x % q, x / q);
  }

  lemma {:induction false} EvalCong(q: int, p: seq<int>, x: int, y: int)
    requires q > 0 && Cong(q, x, y)
    ensures Cong(q, Eval(p, x), Eval(p, y))
  {
    if p == [] {
      CongRefl(q, 0);
    } else {
      var e, f := Eval(p[1..], x), Eval(p[1..], y);
      EvalCong(q, p[1..], x, y);
      CongScale(q, e, f, x);
      CongScale(q, x, y, f);
      assert f * x == x * f && f * y == y * f;
      CongTrans(q, x * e, x * f, y * f);
      CongRefl(q, p[0]);
      CongAdd(q, p[0], p[0], x * e, y * f);
    }
  }

  lemma {:induction false} AgreeAtResidue(q: int, xs: seq<int>, p: seq<int>, p': seq<int>, i: nat)
    requires q > 0 && i < |xs| && AgreeOn(q, xs, p, p')
    ensures Cong(q, Eval(p, xs[i] % q), Eval(p', xs[i] % q))
  {
    var x, y := xs[i], xs[i] % q;
    CongToResidue(q, x);
    EvalCong(q, p, x, y);
    EvalCong(q, p', x, y);
    CongSym(q, Eval(p, x), Eval(p, y));
    CongTrans(q, Eval(p, y), Eval(p, x), Eval(p', x));
    CongTrans(q, Eval(p, y), Eval(p', x), Eval(p', y));
  }

  /** The elements of a set, each once. */
  lemma {:induction false} Listed(s: set<int>) returns (ys: seq<int>)
    ensures |ys| == |s| && (forall y :: y in ys <==> y in s)
    ensures forall i, j :: 0 <= i < j < |ys| ==> ys[i] != ys[j]
    decreases |s|
  {
    if s == {} {
      ys := [];
    } else {
      var y := AnyOf(s);
      var rest := Listed(s - {y});
      ys := [y] + rest;
    }
  }

  lemma {:induction false} AnyOf<T>(s: set<T>) returns (y: T)
    requires s != {}
    ensures y in s
  {
    y :| y in s;
  }

  lemma {:induction false} ResidueOf(q: int, xs: seq<int>, y: int)
    requires q > 0 && y in Residues(q, xs)
    ensures exists i :: 0 <= i < |xs| && xs[i] % q == y
    ensures 0 <= y < q
  {
  }

  /** Two polynomials that agree at points of `ys` have congruent weighted sums there. */
  lemma {:induction false} WeightedAgree(q: int, ys: seq<int>, p: seq<int>, p': seq<int>, n: nat)
    requires Prime(q) && Points(q, ys) && AgreeOn(q, ys, p, p') && n <= |ys|
    ensures Cong(q, Weighted(q, ys, p, n), Weighted(q, ys, p', n))
    decreases |ys| - n
  {
    if n == |ys| {
      CongRefl(q, 0);
    } else {
      WeightedAgree(q, ys, p, p', n + 1);
      OthersApart(q, ys, n);
      var w := Weight(q, Without(ys, n), ys[n]);
      CongScale(q, Eval(p, ys[n]), Eval(p', ys[n]), w);
      CongAdd(q, w * Eval(p, ys[n]), w * Eval(p', ys[n]), Weighted(q, ys, p, n + 1), Weighted(q, ys, p', n + 1));
    }
  }

  // ----- enough residues

  lemma {:induction false} ZeroPointDetermines(q: int, xs: seq<int>, p: seq<int>, p': seq<int>)
    requires q > 0 && 0 in Residues(q, xs) && AgreeOn(q, xs, p, p')
    ensures Cong(q, Eval(p, 0), Eval(p', 0))
  {
    ResidueOf(q, xs, 0);
    var i :| 0 <= i < |xs| && xs[i] % q == 0;
    AgreeAtResidue(q, xs, p, p', i);
  }

  lemma {:induction false} ManyResiduesDetermine(q: int, xs: seq<int>, t: nat, p: seq<int>, p': seq<int>)
    requires Prime(q) && 0 !in Residues(q, xs) && |Residues(q, xs)| >= t && |p| == |p'| == t && AgreeOn(q, xs, p, p')
    ensures Cong(q, Eval(p, 0), Eval(p', 0))
  {
    var ys := Listed(Residues(q, xs));
    forall k | 0 <= k < |ys|
      ensures 0 < ys[k] < q && Cong(q, Eval(p, ys[k]), Eval(p', ys[k]))
    {
      assert ys[k] in ys;
      ResidueOf(q, xs, ys[k]);
      var i :| 0 <= i < |xs| && xs[i] % q == ys[k];
      AgreeAtResidue(q, xs, p, p', i);
    }
    SmallPoints(q, ys);
    WeightedAgree(q, ys, p, p', 0);
    Reconstruction(q, ys, p);
    Reconstruction(q, ys, p');
    CongSym(q, Weighted(q, ys, p, 0), Eval(p, 0));
    CongTrans(q, Eval(p, 0), Weighted(q, ys, p, 0), Weighted(q, ys, p', 0));
    CongTrans(q, Eval(p, 0), Weighted(q, ys, p', 0), Eval(p', 0));
  }

  // ----- too few residues

  function Padded(p: seq<int>, t: nat): (r: seq<int>)
    requires |p| <= t
    ensures |r| == t
  {
    p + seq(t - |p|, i => 0)
  }

  lemma {:induction false} PaddedValue(p: seq<int>, t: nat, x: int)
    requires |p| <= t
    ensures Eval(Padded(p, t), x) == Eval(p, x)
  {
    if p == [] {
      EvalZeros(t, x);
      assert Padded(p, t) == seq(t, i => 0);
    } else {
      PaddedValue(p[1..], t - 1, x);
      assert Padded(p, t)[1..] == Padded(p[1..], t - 1);
    }
  }

  /** A polynomial of `t` coefficients that is zero at every point and not at zero. */
  lemma {:induction false} Blind(q: int, xs: seq<int>, t: nat) returns (v: seq<int>)
    requires Prime(q) && 0 !in Residues(q, xs) && |Residues(q, xs)| < t
    ensures |v| == t && !Cong(q, Eval(v, 0), 0)
    ensures forall i :: 0 <= i < |xs| ==> Cong(q, Eval(v, xs[i]), 0)
  {
    var ys := Listed(Residues(q, xs));
    v := Padded(Vanishing(ys), t);
    PaddedValue(Vanishing(ys), t, 0);
    VanishingValue(ys, 0);
    forall k | 0 <= k < |ys|
      ensures !Cong(q, Shifted(ys, 0)[k], 0)
    {
      assert ys[k] in ys;
      ResidueOf(q, xs, ys[k]);
      NotMultiple(q, 0 - ys[k]);
    }
    ProductNonzero(q, Shifted(ys, 0));
    forall i | 0 <= i < |xs|
      ensures Cong(q, Eval(v, xs[i]), 0)
    {
      var y := xs[i] % q;
      assert y in Residues(q, xs);
      assert y in ys;
      var k :| 0 <= k < |ys| && ys[k] == y;
      PaddedValue(Vanishing(ys), t, xs[i]);
      VanishesOn(ys, k);
      CongToResidue(q, xs[i]);
      EvalCong(q, Vanishing(ys), xs[i], y);
    }
  }

  /**
   The exact condition. The values of a polynomial of `t` coefficients at some points determine its constant term
   if and only if the points have at least `t` different residues or one of them is zero in the field.
   */
  lemma {:induction false} DeterminedExactly(q: int, xs: seq<int>, t: nat)
    requires Prime(q)
    ensures Determined(q, xs, t) <==> Sufficient(q, xs, t)
  {
    if Sufficient(q, xs, t) {
      forall p, p' | |p| == t && |p'| == t && AgreeOn(q, xs, p, p')
        ensures Cong(q, Eval(p, 0), Eval(p', 0))
      {
        if 0 in Residues(q, xs) {
          ZeroPointDetermines(q, xs, p, p');
        } else {
          ManyResiduesDetermine(q, xs, t, p, p');
        }
      }
    } else {
      var v := Blind(q, xs, t);
      var zero := seq(t, i => 0);
      EvalZeros(t, 0);
      forall i | 0 <= i < |xs|
        ensures Cong(q, Eval(v, xs[i]), Eval(zero, xs[i]))
      {
        EvalZeros(t, xs[i]);
      }
      assert AgreeOn(q, xs, v, zero);
    }
  }

  /** For exactly `t` nonzero points this is what the reconstruction asks for: pairwise different residues. */
  lemma {:induction false} SufficientIsPoints(q: int, xs: seq<int>)
    requires q > 0 && 0 !in Residues(q, xs)
    ensures Sufficient(q, xs, |xs|) <==> Points(q, xs)
  {
    forall i | 0 <= i < |xs|
      ensures !Cong(q, xs[i], 0)
    {
      assert xs[i] % q in Residues(q, xs);
      if Cong(q, xs[i], 0) {
        SameRemainder(q, xs[i], 0);
        assert false;
      }
    }
    if Points(q, xs) {
      forall i, j | 0 <= i < j < |xs|
        ensures xs[i] % q != xs[j] % q
      {
        if xs[i] % q == xs[j] % q {
          RemaindersCong(q, xs[i], xs[j]);
          assert false;
        }
      }
      AllDifferent(q, xs);
    } else {
      var i, j :| 0 <= i < j < |xs| && Cong(q, xs[i] - xs[j], 0);
      CongRefl(q, xs[j]);
      CongAdd(q, xs[i] - xs[j], 0, xs[j], xs[j]);
      SameRemainder(q, xs[i], xs[j]);
      OneRepeated(q, xs, i, j);
    }
  }

  lemma {:induction false} SameRemainder(q: int, a: int, b: int)
    requires q > 0 && Cong(q, a, b)
    ensures a % q == b % q
  {
    if q > 1 {
      SameResidue(q, a, b);
    }
  }

  lemma {:induction false} RemaindersCong(q: int, a: int, b: int)
    requires q > 0 && a % q == b % q
    ensures Cong(q, a - b, 0)
  {
    var k := a / q - b / q;
    assert a - b == 0 + k * q by {
      assert a == q * (a / q) + a % q && b == q * (b / q) + b % q;
      assert k * q == q * (a / q) - q * (b / q);
    }
    CongBy(q, a - b, 0, k);
  }

  lemma {:induction false} ResiduesStep(q: int, xs: seq<int>)
    requires q > 0 && xs != []
    ensures Residues(q, xs) == Residues(q, xs[1..]) + {xs[0] % q}
  {
    forall y | y in Residues(q, xs)
      ensures y in Residues(q, xs[1..]) + {xs[0] % q}
    {
      var i :| 0 <= i < |xs| && xs[i] % q == y;
      assert i > 0 ==> xs[1..][i - 1] % q == y;
    }
    forall y | y in Residues(q, xs[1..])
      ensures y in Residues(q, xs)
    {
      var i :| 0 <= i < |xs[1..]| && xs[1..][i] % q == y;
      assert xs[i + 1] % q == y;
    }
  }

  lemma {:induction false} ResiduesAtMost(q: int, xs: seq<int>)
    requires q > 0
    ensures |Residues(q, xs)| <= |xs|
  {
    if xs != [] {
      ResiduesAtMost(q, xs[1..]);
      ResiduesStep(q, xs);
    }
  }

  lemma {:induction false} AllDifferent(q: int, xs: seq<int>)
    requires q > 0 && forall i, j :: 0 <= i < j < |xs| ==> xs[i] % q != xs[j] % q
    ensures |Residues(q, xs)| == |xs|
  {
    if xs != [] {
      AllDifferent(q, xs[1..]);
      ResiduesStep(q, xs);
      assert xs[0] % q !in Residues(q, xs[1..]);
    }
  }

  lemma {:induction false} OneRepeated(q: int, xs: seq<int>, i: nat, j: nat)
    requires q > 0 && i < j < |xs| && xs[i] % q == xs[j] % q
    ensures |Residues(q, xs)| < |xs|
  {
    ResiduesStep(q, xs);
    if i == 0 {
      assert xs[1..][j - 1] % q in Residues(q, xs[1..]);
      assert Residues(q, xs) == Residues(q, xs[1..]);
      ResiduesAtMost(q, xs[1..]);
    } else {
      OneRepeated(q, xs[1..], i - 1, j - 1);
    }
  }

  // ----- members and runs

  /** Two member lists whose shares a coalition cannot tell apart. */
  ghost predicate LookAlike(q: int, r: Roster, ms: seq<Member>, ms': seq<Member>, xs: seq<int>)
    requires q > 0 && Members(r, ms) && Members(r, ms')
  {
    AgreeOn(q, xs, SumPolynomial(ms, r.threshold, |ms|), SumPolynomial(ms', r.threshold, |ms'|))
  }

  /** The same roster, points, keys and contributions; only polynomials may differ. */
  ghost predicate Rival(q: int, r: Roster, ms: seq<Member>, ms': seq<Member>, xs: seq<int>)
    requires q > 0 && Members(r, ms)
  {
    && Members(r, ms') && LookAlike(q, r, ms, ms', xs)
    && !Cong(q, SecretSum(ms, |ms|), SecretSum(ms', |ms'|))
  }

  /** Member 0 with `v` added to its polynomial. */
  function Shift(ms: seq<Member>, v: seq<int>): seq<Member>
    requires ms != [] && |v| == |ms[0].tail| + 1
  {
    ms[0 := ms[0].(secret := ms[0].secret + v[0],
                   tail := seq(|ms[0].tail|, i requires 0 <= i < |ms[0].tail| => ms[0].tail[i] + v[i + 1]))]
  }

  lemma {:induction false} ShiftedSum(r: Roster, ms: seq<Member>, v: seq<int>, n: nat, j: nat)
    requires Members(r, ms) && |v| == r.threshold && 0 < n <= |ms| && j < r.threshold
    ensures Members(r, Shift(ms, v))
    ensures SumPolynomial(Shift(ms, v), r.threshold, n)[j] == SumPolynomial(ms, r.threshold, n)[j] + v[j]
  {
    var ms' := Shift(ms, v);
    assert Members(r, ms');
    if n == 1 {
      assert SumPolynomial(ms', r.threshold, 0)[j] == 0 == SumPolynomial(ms, r.threshold, 0)[j];
      assert Polynomial(ms'[0])[j] == Polynomial(ms[0])[j] + v[j];
    } else {
      ShiftedSum(r, ms, v, n - 1, j);
      assert ms'[n - 1] == ms[n - 1];
    }
  }

  lemma {:induction false} ShiftedValue(r: Roster, ms: seq<Member>, v: seq<int>, x: int)
    requires Members(r, ms) && |v| == r.threshold
    ensures Members(r, Shift(ms, v))
    ensures Eval(SumPolynomial(Shift(ms, v), r.threshold, |ms|), x) == Eval(SumPolynomial(ms, r.threshold, |ms|), x) + Eval(v, x)
  {
    ShiftedSum(r, ms, v, |ms|, 0);
    var p, s := SumPolynomial(ms, r.threshold, |ms|), SumPolynomial(Shift(ms, v), r.threshold, |ms|);
    forall j | 0 <= j < r.threshold
      ensures s[j] == p[j] + v[j]
    {
      ShiftedSum(r, ms, v, |ms|, j);
    }
    EvalSum(p, v, s, x);
  }

  /**
   For any members, prime and coalition: some other members would leave the coalition with the same shares and a
   different secret if and only if the coalition's points have fewer residues than the threshold and none is zero.
   */
  lemma {:induction false} CoalitionExact(r: Roster, ms: seq<Member>, q: int, coalition: seq<nat>)
    requires Members(r, ms) && Prime(q) && forall i :: 0 <= i < |coalition| ==> coalition[i] < |ms|
    ensures var xs := CoalitionPoints(ms, coalition);
            (exists ms' :: Rival(q, r, ms, ms', xs)) <==> !Sufficient(q, xs, r.threshold)
  {
    var xs := CoalitionPoints(ms, coalition);
    var p := SumPolynomial(ms, r.threshold, |ms|);
    SumPolynomialValue(r, ms, 0, |ms|);
    if Sufficient(q, xs, r.threshold) {
      forall ms' | Members(r, ms') && LookAlike(q, r, ms, ms', xs)
        ensures Cong(q, SecretSum(ms, |ms|), SecretSum(ms', |ms'|))
      {
        SumPolynomialValue(r, ms', 0, |ms'|);
        DeterminedExactly(q, xs, r.threshold);
        assert AgreeOn(q, xs, p, SumPolynomial(ms', r.threshold, |ms'|));
      }
    } else {
      var v := Blind(q, xs, r.threshold);
      var ms' := Shift(ms, v);
      ShiftedValue(r, ms, v, 0);
      SumPolynomialValue(r, ms', 0, |ms'|);
      forall i | 0 <= i < |xs|
        ensures Cong(q, Eval(p, xs[i]), Eval(SumPolynomial(ms', r.threshold, |ms|), xs[i]))
      {
        ShiftedValue(r, ms, v, xs[i]);
        ShiftKeeps(q, Eval(p, xs[i]), Eval(v, xs[i]));
      }
      if Cong(q, SecretSum(ms, |ms|), SecretSum(ms', |ms'|)) {
        ShiftMoves(q, SecretSum(ms, |ms|), Eval(v, 0));
        assert false;
      }
      assert Rival(q, r, ms, ms', xs);
    }
  }

  lemma {:induction false} ShiftKeeps(q: int, a: int, d: int)
    requires q > 0 && Cong(q, d, 0)
    ensures Cong(q, a, a + d)
  {
    var k :| Differ(q, d, 0, k);
    CongBy(q, a, a + d, -k);
  }

  lemma {:induction false} ShiftMoves(q: int, a: int, d: int)
    requires q > 0 && Cong(q, a, a + d)
    ensures Cong(q, d, 0)
  {
    var k :| Differ(q, a, a + d, k);
    CongBy(q, d, 0, -k);
  }

  /** Whatever the schedules, look-alike members leave sealed coalitions with congruent shares. */
  lemma {:induction false} RunsLookAlike(x: Scheme, r: Roster, ms: seq<Member>, ms': seq<Member>, es: seq<Event>, es': seq<Event>, q: int, coalition: seq<nat>, i: nat)
    requires ValidScheme(x) && Members(r, ms) && q > 0 && i < |coalition|
    requires forall k :: 0 <= k < |coalition| ==> coalition[k] < |ms|
    requires Rival(q, r, ms, ms', CoalitionPoints(ms, coalition))
    requires var n := Run(x, Start(ms), es); |n.ops| == |ms| && Rank(n.ops[coalition[i]].round) >= 2
    requires var n := Run(x, Start(ms'), es'); |n.ops| == |ms'| && Rank(n.ops[coalition[i]].round) >= 2
    ensures Cong(q, Run(x, Start(ms), es).ops[coalition[i]].share, Run(x, Start(ms'), es').ops[coalition[i]].share)
  {
    var c := coalition[i];
    SealedShare(x, r, ms, es, c);
    SealedShare(x, r, ms', es', c);
    assert ms[c].point == r.operators[c].point == ms'[c].point;
    assert CoalitionPoints(ms, coalition)[i] == ms[c].point;
  }

  /** A roster the rules accept, with points 1 and q + 1: its two operators can never reconstruct. */
  lemma {:induction false} ValidRosterMayCollide(q: nat, ms: seq<Member>)
    requires Prime(q) && Members(Roster(2, 1, 1, 1, [Identity(1, 1), Identity(q + 1, 2)]), ms)
    ensures var r := Roster(2, 1, 1, 1, [Identity(1, 1), Identity(q + 1, 2)]);
            exists ms' :: Rival(q, r, ms, ms', CoalitionPoints(ms, [0, 1]))
  {
    var r := Roster(2, 1, 1, 1, [Identity(1, 1), Identity(q + 1, 2)]);
    var xs := CoalitionPoints(ms, [0, 1]);
    assert ms[0].point == r.operators[0].point && ms[1].point == r.operators[1].point;
    assert xs == [1, q + 1];
    assert (q + 1) % q == 1 % q by {
      CongBy(q, q + 1, 1, 1);
      SameRemainder(q, q + 1, 1);
    }
    assert 1 % q == 1;
    OneRepeated(q, xs, 0, 1);
    if 0 in Residues(q, xs) {
      ResidueOf(q, xs, 0);
      assert false;
    }
    CoalitionExact(r, ms, q, [0, 1]);
  }
}
