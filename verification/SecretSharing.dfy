/**
 Shamir sharing over a prime field. Field elements are integers read modulo the
 prime; polynomials are coefficient sequences, constant term first.
 */
module SecretSharing {
  import opened Arithmetic

  // ----- congruence

  ghost predicate Prime(q: int) {
    q > 1 && forall d :: 1 < d < q ==> q % d != 0
  }

  ghost predicate Cong(q: int, a: int, b: int)
    requires q > 0
  {
    exists k :: Differ(q, a, b, k)
  }

  /** `a` and `b` differ by `k` times `q`. */
  ghost predicate Differ(q: int, a: int, b: int, k: int) {
    a == b + k * q
  }

  lemma {:induction false} CongBy(q: int, a: int, b: int, k: int)
    requires q > 0 && a == b + k * q
    ensures Cong(q, a, b)
  {
    assert Differ(q, a, b, k);
  }

  lemma {:induction false} SameResidue(q: int, a: int, b: int)
    requires q > 1 && Cong(q, a, b)
    ensures a % q == b % q
  {
    var k :| Differ(q, a, b, k);
    DivUnique(a, q, b / q + k, b % q);
    assert a == q * (b / q + k) + b % q by {
      assert q * (b / q + k) == q * (b / q) + k * q;
    }
  }

  lemma {:induction false} CongRefl(q: int, a: int)
    requires q > 0
    ensures Cong(q, a, a)
  {
    CongBy(q, a, a, 0);
  }

  lemma {:induction false} CongAdd(q: int, a: int, b: int, c: int, d: int)
    requires q > 0 && Cong(q, a, b) && Cong(q, c, d)
    ensures Cong(q, a + c, b + d)
  {
    var k :| Differ(q, a, b, k);
    var l :| Differ(q, c, d, l);
    CongBy(q, a + c, b + d, k + l);
  }

  lemma {:induction false} CongScale(q: int, a: int, b: int, c: int)
    requires q > 0 && Cong(q, a, b)
    ensures Cong(q, c * a, c * b)
  {
    var k :| Differ(q, a, b, k);
    assert c * a == c * b + (c * k) * q;
    CongBy(q, c * a, c * b, c * k);
  }

  lemma {:induction false} CongSym(q: int, a: int, b: int)
    requires q > 0 && Cong(q, a, b)
    ensures Cong(q, b, a)
  {
    var k :| Differ(q, a, b, k);
    CongBy(q, b, a, -k);
  }

  lemma {:induction false} CongTrans(q: int, a: int, b: int, c: int)
    requires q > 0 && Cong(q, a, b) && Cong(q, b, c)
    ensures Cong(q, a, c)
  {
    var k :| Differ(q, a, b, k);
    var l :| Differ(q, b, c, l);
    CongBy(q, a, c, k + l);
  }

  // ----- inverses

  /** Extended Euclid. */
  lemma {:induction false} Bezout(a: nat, b: nat) returns (g: nat, u: int, v: int)
    requires a > 0
    ensures g > 0 && a % g == 0 && b % g == 0 && g == u * a + v * b
    decreases b
  {
    if b == 0 {
      g, u, v := a, 1, 0;
    } else {
      var x, y;
      g, x, y := Bezout(b, a % b);
      u, v := y, x - y * (a / b);
      EuclidStep(a, b, g);
      Recombine(a, b, x, y);
    }
  }

  lemma {:induction false} EuclidStep(a: nat, b: nat, g: nat)
    requires b > 0 && g > 0 && b % g == 0 && (a % b) % g == 0
    ensures a % g == 0
  {
    var m, n, t := b / g, (a % b) / g, a / b;
    assert b == g * m && a % b == g * n && a == b * t + a % b;
    assert b * t == g * (m * t);
    assert a == g * (m * t + n);
    MultipleMod(g, m * t + n);
  }

  lemma {:induction false} Recombine(a: nat, b: nat, x: int, y: int)
    requires b > 0
    ensures x * b + y * (a % b) == y * a + (x - y * (a / b)) * b
  {
    var t, r := a / b, a % b;
    assert a == b * t + r;
    assert y * a == y * (b * t) + y * r;
    assert (x - y * t) * b == x * b - (y * t) * b;
  }

  lemma {:induction false} ZeroRemainder(q: int, d: int)
    requires q > 0 && d % q == 0
    ensures Cong(q, d, 0)
  {
    CongBy(q, d, 0, d / q);
  }

  lemma {:induction false} CommonDivisorOfPrime(q: int, r: int, g: int)
    requires Prime(q) && 0 < r < q && g > 0 && q % g == 0 && r % g == 0
    ensures g == 1
  {
    DivisorBound(r, g);
  }

  lemma {:induction false} InverseExists(q: int, d: int)
    requires Prime(q) && !Cong(q, d, 0)
    ensures exists i :: Cong(q, d * i, 1)
  {
    var r := d % q;
    assert r != 0 by {
      if r == 0 {
        ZeroRemainder(q, d);
        assert false;
      }
    }
    var g, u, v := Bezout(q, r);
    CommonDivisorOfPrime(q, r, g);
    var t := d / q;
    assert d * v == r * v + (t * v) * q by {
      assert d == r + t * q;
      assert (r + t * q) * v == r * v + (t * q) * v;
    }
    CongBy(q, d * v, 1, t * v - u);
  }

  ghost function Inverse(q: int, d: int): int
    requires Prime(q) && !Cong(q, d, 0)
    ensures Cong(q, d * Inverse(q, d), 1)
  {
    InverseExists(q, d);
    var i :| Cong(q, d * i, 1);
    i
  }

  lemma {:induction false} CongFlip(q: int, a: int, b: int)
    requires q > 0
    ensures Cong(q, a - b, 0) <==> Cong(q, b - a, 0)
  {
    if Cong(q, a - b, 0) {
      var k :| Differ(q, a - b, 0, k);
      CongBy(q, b - a, 0, -k);
    }
    if Cong(q, b - a, 0) {
      var k :| Differ(q, b - a, 0, k);
      CongBy(q, a - b, 0, -k);
    }
  }

  lemma {:induction false} MulRotate(i: int, d: int, a: int)
    ensures i * (d * a) == a * (d * i)
  {
  }

  /** What is invertible cancels. */
  lemma {:induction false} CongCancel(q: int, d: int, a: int, b: int)
    requires Prime(q) && !Cong(q, d, 0) && Cong(q, d * a, d * b)
    ensures Cong(q, a, b)
  {
    var i := Inverse(q, d);
    var e := d * i;
    var ae, be := a * e, b * e;
    assert Cong(q, ae, be) by {
      CongScale(q, d * a, d * b, i);
      MulRotate(i, d, a);
      MulRotate(i, d, b);
    }
    assert Cong(q, ae, a) by { CongScale(q, e, 1, a); }
    assert Cong(q, be, b) by { CongScale(q, e, 1, b); }
    CongSym(q, ae, a);
    CongTrans(q, a, ae, be);
    CongTrans(q, a, be, b);
  }

  // ----- polynomials

  function Eval(p: seq<int>, x: int): int {
    if p == [] then 0 else p[0] + x * Eval(p[1..], x)
  }

  /** Synthetic division by `x - y`. */
  function Quotient(p: seq<int>, y: int): (g: seq<int>)
    ensures |g| == if |p| == 0 then 0 else |p| - 1
  {
    if |p| <= 1 then [] else [Eval(p[1..], y)] + Quotient(p[1..], y)
  }

  lemma {:induction false} QuotientProperty(p: seq<int>, y: int, x: int)
    ensures Eval(p, x) == Eval(p, y) + (x - y) * Eval(Quotient(p, y), x)
  {
    if |p| > 1 {
      var t := p[1..];
      QuotientProperty(t, y, x);
      var e, g := Eval(t, y), Eval(Quotient(t, y), x);
      assert Eval(Quotient(p, y), x) == e + x * g by {
        assert Quotient(p, y)[1..] == Quotient(t, y);
      }
      assert Eval(p, x) == p[0] + x * (e + (x - y) * g);
      Division(x, y, e, g);
    } else if |p| == 1 {
      assert p[1..] == [];
      assert Eval(p, x) == p[0] + x * 0 && Eval(p, y) == p[0] + y * 0;
    }
  }

  lemma {:induction false} Division(x: int, y: int, e: int, g: int)
    ensures x * (e + (x - y) * g) == y * e + (x - y) * (e + x * g)
  {
    assert x * (e + (x - y) * g) == x * e + x * ((x - y) * g);
    assert (x - y) * (e + x * g) == (x - y) * e + (x - y) * (x * g);
  }

  function PlusConstant(p: seq<int>, a: int): (r: seq<int>)
    ensures |r| == if p == [] then 1 else |p|
  {
    if p == [] then [a] else [p[0] + a] + p[1..]
  }

  /** Multiplication by `x - y`. */
  function TimesRoot(p: seq<int>, y: int): (r: seq<int>)
    ensures |r| == if p == [] then 0 else |p| + 1
  {
    if p == [] then [] else [-p[0] * y] + PlusConstant(TimesRoot(p[1..], y), p[0])
  }

  lemma {:induction false} TimesRootProperty(p: seq<int>, y: int, x: int)
    ensures Eval(TimesRoot(p, y), x) == (x - y) * Eval(p, x)
  {
    if p != [] {
      var t := TimesRoot(p[1..], y);
      TimesRootProperty(p[1..], y, x);
      var rest := PlusConstant(t, p[0]);
      assert Eval(rest, x) == Eval(t, x) + p[0] by {
        if t != [] {
          assert rest[1..] == t[1..];
        } else {
          assert rest[1..] == [];
        }
      }
      assert TimesRoot(p, y)[1..] == rest;
      Expansion(p[0], Eval(p[1..], x), x, y);
    }
  }

  lemma {:induction false} Expansion(a: int, e: int, x: int, y: int)
    ensures -a * y + x * ((x - y) * e + a) == (x - y) * (a + x * e)
  {
    assert x * ((x - y) * e + a) == x * ((x - y) * e) + x * a;
    assert (x - y) * (a + x * e) == (x - y) * a + (x - y) * (x * e);
  }

  /** The monic polynomial that vanishes on the given points. */
  function Vanishing(xs: seq<int>): (p: seq<int>)
    ensures |p| == |xs| + 1
  {
    if xs == [] then [1] else TimesRoot(Vanishing(xs[1..]), xs[0])
  }

  function Product(xs: seq<int>): int {
    if xs == [] then 1 else xs[0] * Product(xs[1..])
  }

  function Shifted(xs: seq<int>, x: int): (r: seq<int>)
    ensures |r| == |xs|
  {
    seq(|xs|, i requires 0 <= i < |xs| => x - xs[i])
  }

  lemma {:induction false} VanishingValue(xs: seq<int>, x: int)
    ensures Eval(Vanishing(xs), x) == Product(Shifted(xs, x))
  {
    if xs == [] {
      assert Eval([1], x) == 1 + x * Eval([], x);
    } else {
      VanishingValue(xs[1..], x);
      TimesRootProperty(Vanishing(xs[1..]), xs[0], x);
      assert Shifted(xs, x)[1..] == Shifted(xs[1..], x);
    }
  }

  lemma {:induction false} VanishesOn(xs: seq<int>, i: nat)
    requires i < |xs|
    ensures Eval(Vanishing(xs), xs[i]) == 0
  {
    TimesRootProperty(Vanishing(xs[1..]), xs[0], xs[i]);
    if i > 0 {
      VanishesOn(xs[1..], i - 1);
    }
  }

  // ----- Lagrange weights at zero

  /** The public points of a sharing: nonzero and pairwise distinct in the field. */
  ghost predicate Points(q: int, xs: seq<int>)
    requires q > 0
  {
    && (forall i :: 0 <= i < |xs| ==> !Cong(q, xs[i], 0))
    && (forall i, j :: 0 <= i < j < |xs| ==> !Cong(q, xs[i] - xs[j], 0))
  }

  /** `x` is none of the points, in the field. */
  ghost predicate Apart(q: int, xs: seq<int>, x: int)
    requires q > 0
  {
    forall i :: 0 <= i < |xs| ==> !Cong(q, xs[i] - x, 0)
  }

  /** The weight of a point `x` beside the other points `xs`: the product of `y / (y - x)`. */
  ghost function Weight(q: int, xs: seq<int>, x: int): int
    requires Prime(q) && Apart(q, xs, x)
  {
    if xs == [] then 1 else xs[0] * Inverse(q, xs[0] - x) * Weight(q, xs[1..], x)
  }

  function Without(xs: seq<int>, i: nat): (r: seq<int>)
    requires i < |xs|
    ensures |r| == |xs| - 1
  {
    xs[..i] + xs[i + 1..]
  }

  lemma {:induction false} OthersApart(q: int, xs: seq<int>, i: nat)
    requires q > 0 && Points(q, xs) && i < |xs|
    ensures Apart(q, Without(xs, i), xs[i])
  {
    var ys := Without(xs, i);
    forall j | 0 <= j < |ys|
      ensures !Cong(q, ys[j] - xs[i], 0)
    {
      var k := if j < i then j else j + 1;
      assert ys[j] == xs[k];
      CongFlip(q, xs[i], xs[k]);
    }
  }

  /** The weighted sum of the values `p` takes at the points `xs[n..]`. */
  ghost function Weighted(q: int, xs: seq<int>, p: seq<int>, n: nat): int
    requires Prime(q) && Points(q, xs) && n <= |xs|
    decreases |xs| - n
  {
    if n == |xs| then 0
    else
      OthersApart(q, xs, n);
      Weight(q, Without(xs, n), xs[n]) * Eval(p, xs[n]) + Weighted(q, xs, p, n + 1)
  }

  lemma {:induction false} WithoutFirst(xs: seq<int>)
    requires xs != []
    ensures Without(xs, 0) == xs[1..]
  {
  }

  lemma {:induction false} RestPoints(q: int, xs: seq<int>)
    requires q > 0 && Points(q, xs) && xs != []
    ensures Points(q, xs[1..]) && Apart(q, xs[1..], xs[0])
  {
    var rest := xs[1..];
    forall i | 0 <= i < |rest|
      ensures !Cong(q, rest[i], 0) && !Cong(q, rest[i] - xs[0], 0)
    {
      assert rest[i] == xs[i + 1];
      CongFlip(q, xs[0], xs[i + 1]);
    }
    forall i, j | 0 <= i < j < |rest|
      ensures !Cong(q, rest[i] - rest[j], 0)
    {
      assert rest[i] == xs[i + 1] && rest[j] == xs[j + 1];
    }
  }

  ghost function FirstWeight(q: int, xs: seq<int>): int
    requires Prime(q) && Points(q, xs) && xs != []
  {
    RestPoints(q, xs);
    Weight(q, xs[1..], xs[0])
  }

  /** The first term and the rest of a weighted sum. */
  lemma {:induction false} WeightedFirst(q: int, xs: seq<int>, p: seq<int>)
    requires Prime(q) && Points(q, xs) && xs != []
    ensures Weighted(q, xs, p, 0) == FirstWeight(q, xs) * Eval(p, xs[0]) + Weighted(q, xs, p, 1)
  {
    RestPoints(q, xs);
    WithoutFirst(xs);
  }

  lemma {:induction false} SumFirst(q: int, xs: seq<int>)
    requires Prime(q) && Points(q, xs) && xs != []
    ensures Weighted(q, xs, [1], 0) == FirstWeight(q, xs) + Weighted(q, xs, [1], 1)
  {
    var w, e := FirstWeight(q, xs), Eval([1], xs[0]);
    WeightedFirst(q, xs, [1]);
    ConstantOne(xs[0]);
    assert w * e == w;
  }

  /** Taking the first point away divides every other weight by `y / (y - x)`. */
  lemma {:induction false} WeightStep(q: int, xs: seq<int>, n: nat)
    requires Prime(q) && Points(q, xs) && 0 < n < |xs|
    ensures Points(q, xs[1..]) && Apart(q, Without(xs, n), xs[n]) && Apart(q, Without(xs[1..], n - 1), xs[n])
    ensures Cong(q, Weight(q, Without(xs, n), xs[n]) * (xs[n] - xs[0]),
                 -xs[0] * Weight(q, Without(xs[1..], n - 1), xs[n]))
  {
    var y, x, rest := xs[0], xs[n], xs[1..];
    RestPoints(q, xs);
    OthersApart(q, xs, n);
    OthersApart(q, rest, n - 1);
    var ys := Without(xs, n);
    assert ys[0] == y && ys[1..] == Without(rest, n - 1);
    var i, w := Inverse(q, y - x), Weight(q, Without(rest, n - 1), x);
    CongScale(q, (y - x) * i, 1, -y * w);
    WeightProduct(y, x, i, w);
  }

  lemma {:induction false} WeightProduct(y: int, x: int, i: int, w: int)
    ensures y * i * w * (x - y) == (-y * w) * ((y - x) * i)
  {
    var a := y * i * w;
    assert (-y * w) * ((y - x) * i) == -(a * (y - x)) by {
      assert (-y * w) * i == -a;
    }
  }

  lemma {:induction false} TermStep(q: int, big: int, small: int, y: int, x: int, py: int, g: int)
    requires q > 0 && Cong(q, big * (x - y), -y * small)
    ensures Cong(q, big * (py + (x - y) * g), py * big - y * (small * g))
  {
    CongScale(q, big * (x - y), -y * small, g);
    CongRefl(q, py * big);
    CongAdd(q, py * big, py * big, g * (big * (x - y)), g * (-y * small));
    assert big * (py + (x - y) * g) == py * big + g * (big * (x - y));
    assert g * (-y * small) == -(y * (small * g));
  }

  /** Dividing out the first point, summed over the others. */
  lemma {:induction false} TailRelation(q: int, xs: seq<int>, p: seq<int>, n: nat, m: nat)
    requires Prime(q) && Points(q, xs) && n == m + 1 <= |xs|
    ensures Points(q, xs[1..])
    ensures Cong(q, Weighted(q, xs, p, n),
                 Eval(p, xs[0]) * Weighted(q, xs, [1], n) - xs[0] * Weighted(q, xs[1..], Quotient(p, xs[0]), m))
    decreases |xs| - n
  {
    var y, rest, g := xs[0], xs[1..], Quotient(p, xs[0]);
    RestPoints(q, xs);
    if n == |xs| {
      CongRefl(q, 0);
    } else {
      var x := xs[n];
      TailRelation(q, xs, p, n + 1, n);
      WeightStep(q, xs, n);
      var big, small := Weight(q, Without(xs, n), x), Weight(q, Without(rest, n - 1), x);
      var py, gx := Eval(p, y), Eval(g, x);
      QuotientProperty(p, y, x);
      TermStep(q, big, small, y, x, py, gx);
      var t, t1, tr := Weighted(q, xs, p, n + 1), Weighted(q, xs, [1], n + 1), Weighted(q, rest, g, n);
      CongAdd(q, big * Eval(p, x), py * big - y * (small * gx), t, py * t1 - y * tr);
      ConstantOne(x);
      assert rest[n - 1] == x;
      Distribute(py, big, t1, y, small * gx, tr);
    }
  }

  lemma {:induction false} ConstantOne(x: int)
    ensures Eval([1], x) == 1
  {
    assert Eval([1], x) == 1 + x * Eval([1][1..], x);
  }

  lemma {:induction false} Distribute(py: int, big: int, t1: int, y: int, s: int, tr: int)
    ensures (py * big - y * s) + (py * t1 - y * tr) == py * (big * 1 + t1) - y * (s + tr)
  {
  }

  /** The same with the first point's own term: only the sum of all weights is left to determine. */
  lemma {:induction false} HeadRelation(q: int, xs: seq<int>, p: seq<int>)
    requires Prime(q) && Points(q, xs) && xs != []
    ensures Points(q, xs[1..])
    ensures Cong(q, Weighted(q, xs, p, 0),
                 Eval(p, xs[0]) * Weighted(q, xs, [1], 0) - xs[0] * Weighted(q, xs[1..], Quotient(p, xs[0]), 0))
  {
    var w, py, y := FirstWeight(q, xs), Eval(p, xs[0]), xs[0];
    var whole, sum := Weighted(q, xs, p, 0), Weighted(q, xs, [1], 0);
    var t, t1 := Weighted(q, xs, p, 1), Weighted(q, xs, [1], 1);
    assert Points(q, xs[1..]) by { RestPoints(q, xs); }
    var r := Weighted(q, xs[1..], Quotient(p, y), 0);
    assert Cong(q, t, py * t1 - y * r) by { TailRelation(q, xs, p, 1, 0); }
    assert whole == w * py + t by { WeightedFirst(q, xs, p); }
    assert sum == w + t1 by { SumFirst(q, xs); }
    AddHead(q, whole, sum, w, py, t, t1, y * r);
  }

  lemma {:induction false} AddHead(q: int, whole: int, sum: int, w: int, py: int, t: int, t1: int, r: int)
    requires q > 0 && Cong(q, t, py * t1 - r) && whole == w * py + t && sum == w + t1
    ensures Cong(q, whole, py * sum - r)
  {
    CongRefl(q, w * py);
    CongAdd(q, w * py, w * py, t, py * t1 - r);
    assert py * sum == w * py + py * t1;
  }

  lemma {:induction false} VanishingTail(q: int, xs: seq<int>, n: nat)
    requires Prime(q) && Points(q, xs) && 0 < n <= |xs|
    ensures Weighted(q, xs, Vanishing(xs[1..]), n) == 0
    decreases |xs| - n
  {
    if n < |xs| {
      VanishingTail(q, xs, n + 1);
      VanishesOn(xs[1..], n - 1);
      OthersApart(q, xs, n);
    }
  }

  /** A point's weight turns the vanishing polynomial's value there into its value at zero. */
  lemma {:induction false} WeightOfVanishing(q: int, ys: seq<int>, y: int)
    requires Prime(q) && Apart(q, ys, y)
    ensures Cong(q, Weight(q, ys, y) * Product(Shifted(ys, y)), Product(Shifted(ys, 0)))
  {
    if ys == [] {
      CongRefl(q, 1);
    } else {
      var h, t := ys[0], ys[1..];
      WeightOfVanishing(q, t, y);
      assert Shifted(ys, y)[1..] == Shifted(t, y) && Shifted(ys, 0)[1..] == Shifted(t, 0);
      var i, w, a, b := Inverse(q, h - y), Weight(q, t, y), Product(Shifted(t, y)), Product(Shifted(t, 0));
      CongScale(q, (h - y) * i, 1, -h * (w * a));
      CongScale(q, w * a, b, -h);
      RootProduct(h, y, i, w, a);
      CongTrans(q, (h * i * w) * ((y - h) * a), -h * (w * a), -h * b);
      assert (0 - h) * b == -h * b;
    }
  }

  lemma {:induction false} RootProduct(h: int, y: int, i: int, w: int, a: int)
    ensures (h * i * w) * ((y - h) * a) == (-h * (w * a)) * ((h - y) * i)
  {
    var m := h * (w * a);
    assert (h * i * w) * ((y - h) * a) == (m * i) * (y - h) by {
      assert (h * i * w) * a == m * i;
    }
    assert (-h * (w * a)) * ((h - y) * i) == (m * i) * (y - h) by {
      assert -h * (w * a) == -m;
    }
  }

  lemma {:induction false} ProductNonzero(q: int, xs: seq<int>)
    requires Prime(q) && forall i :: 0 <= i < |xs| ==> !Cong(q, xs[i], 0)
    ensures !Cong(q, Product(xs), 0)
  {
    if xs == [] {
      if Cong(q, 1, 0) {
        var k :| Differ(q, 1, 0, k);
        MulSpreadOne(q, k);
        assert false;
      }
    } else {
      ProductNonzero(q, xs[1..]);
      if Cong(q, Product(xs), 0) {
        CongCancel(q, xs[0], Product(xs[1..]), 0);
        assert false;
      }
    }
  }

  lemma {:induction false} MulSpreadOne(q: int, k: int)
    requires q > 1
    ensures k * q != 1
  {
    if k >= 1 {
      MulMono(1, k, q);
    } else {
      MulMono(k, 0, q);
    }
  }

  /** The vanishing polynomial of the other points is reconstructed by the first point alone. */
  lemma {:induction false} VanishingReconstructs(q: int, xs: seq<int>)
    requires Prime(q) && Points(q, xs) && xs != []
    ensures Cong(q, Weighted(q, xs, Vanishing(xs[1..]), 0), Eval(Vanishing(xs[1..]), 0))
  {
    var y, rest := xs[0], xs[1..];
    RestPoints(q, xs);
    WeightedFirst(q, xs, Vanishing(rest));
    VanishingTail(q, xs, 1);
    VanishingValue(rest, y);
    VanishingValue(rest, 0);
    WeightOfVanishing(q, rest, y);
  }

  /** The weights add up to one, once the remaining points reconstruct the quotient of their vanishing polynomial. */
  lemma {:induction false} WeightsSumByQuotient(q: int, xs: seq<int>)
    requires Prime(q) && Points(q, xs) && xs != []
    requires Points(q, xs[1..])
    requires var g := Quotient(Vanishing(xs[1..]), xs[0]); Cong(q, Weighted(q, xs[1..], g, 0), Eval(g, 0))
    ensures Cong(q, Weighted(q, xs, [1], 0), 1)
  {
    var y, rest := xs[0], xs[1..];
    var v := Vanishing(rest);
    var g := Quotient(v, y);
    var whole, v0, vy, sum := Weighted(q, xs, v, 0), Eval(v, 0), Eval(v, y), Weighted(q, xs, [1], 0);
    var wr, g0 := Weighted(q, rest, g, 0), Eval(g, 0);
    assert Cong(q, whole, vy * sum - y * wr) by { HeadRelation(q, xs, v); }
    assert Cong(q, whole, v0) by { VanishingReconstructs(q, xs); }
    assert v0 == vy - y * g0 by { QuotientProperty(v, y, 0); }
    assert !Cong(q, vy, 0) by {
      RestPoints(q, xs);
      NonzeroShift(q, rest, y);
    }
    CompareSums(q, whole, v0, vy, sum, y, wr, g0);
    CongCancel(q, vy, sum, 1);
  }

  lemma {:induction false} NonzeroShift(q: int, ys: seq<int>, y: int)
    requires Prime(q) && Apart(q, ys, y)
    ensures !Cong(q, Eval(Vanishing(ys), y), 0)
  {
    VanishingValue(ys, y);
    forall i | 0 <= i < |ys|
      ensures !Cong(q, Shifted(ys, y)[i], 0)
    {
      CongFlip(q, y, ys[i]);
    }
    ProductNonzero(q, Shifted(ys, y));
  }

  lemma {:induction false} CompareSums(q: int, whole: int, v0: int, vy: int, sum: int, y: int, wr: int, g0: int)
    requires q > 0 && Cong(q, whole, v0) && Cong(q, whole, vy * sum - y * wr) && Cong(q, wr, g0) && v0 == vy - y * g0
    ensures Cong(q, vy * sum, vy * 1)
  {
    CongScale(q, wr, g0, y);
    CongSym(q, whole, vy * sum - y * wr);
    CongTrans(q, vy * sum - y * wr, whole, v0);
    CongAdd(q, vy * sum - y * wr, v0, y * wr, y * g0);
  }

  lemma {:induction false} Reassemble(q: int, whole: int, p0: int, py: int, sum: int, y: int, wr: int, g0: int)
    requires q > 0 && Cong(q, whole, py * sum - y * wr) && Cong(q, sum, 1) && Cong(q, wr, g0) && p0 == py - y * g0
    ensures Cong(q, whole, p0)
  {
    CongScale(q, sum, 1, py);
    CongScale(q, wr, g0, -y);
    CongAdd(q, py * sum, py * 1, -y * wr, -y * g0);
    CongTrans(q, whole, py * sum - y * wr, p0);
  }

  /**
   Lagrange at zero, for any number of distinct nonzero points: the weighted values of a polynomial
   with at most that many coefficients add up to its constant term.
   */
  lemma {:induction false} Reconstruction(q: int, xs: seq<int>, p: seq<int>)
    requires Prime(q) && Points(q, xs) && |p| <= |xs|
    ensures Cong(q, Weighted(q, xs, p, 0), Eval(p, 0))
    decreases |xs|
  {
    if xs == [] {
      CongRefl(q, 0);
    } else {
      var y, rest := xs[0], xs[1..];
      RestPoints(q, xs);
      Reconstruction(q, rest, Quotient(Vanishing(rest), y));
      WeightsSumByQuotient(q, xs);
      var g := Quotient(p, y);
      Reconstruction(q, rest, g);
      HeadRelation(q, xs, p);
      QuotientProperty(p, y, 0);
      Reassemble(q, Weighted(q, xs, p, 0), Eval(p, 0), Eval(p, y), Weighted(q, xs, [1], 0), y,
                 Weighted(q, rest, g, 0), Eval(g, 0));
    }
  }

  /** The weights of any coalition add up to one. */
  lemma {:induction false} WeightsSumToOne(q: int, xs: seq<int>)
    requires Prime(q) && Points(q, xs) && xs != []
    ensures Cong(q, Weighted(q, xs, [1], 0), 1)
  {
    Reconstruction(q, xs, [1]);
    assert Eval([1], 0) == 1 + 0 * Eval([1][1..], 0);
  }
}
