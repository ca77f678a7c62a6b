/**
 Many operators on a network that may delay, reorder, drop and repeat messages.
 However the ceremony is scheduled, the shares that come out are points of one
 polynomial, and every coalition of threshold size reconstructs one secret.
 */
module CeremonyShares {
  import opened Basics
  import opened Arithmetic
  import opened SecretSharing
  import opened Ceremony

  /** The members of one ceremony: one per roster entry, with its point, key and polynomial. */
  ghost predicate Members(r: Roster, ms: seq<Member>) {
    && ValidRoster(r) && |ms| == |r.operators|
    && forall i :: 0 <= i < |ms| ==>
         ms[i].roster == r && ms[i].point == r.operators[i].point && ms[i].key == r.operators[i].key &&
         |ms[i].tail| == r.threshold - 1
  }

  /** `sent` holds every private share an operator signed; a signature verifies exactly on those. */
  datatype Net = Net(ops: seq<Operator>, sent: set<PrivateShare>)

  datatype Event = Event(who: nat, call: Call)

  /** Delivery of an arbitrary share is a call; whether its signature verifies is decided here. */
  function Signed(n: Net, c: Call): Call {
    if c.CallAcceptShare? then c.(authentic := c.share in n.sent) else c
  }

  function Apply(x: Scheme, n: Net, e: Event): Net
    requires ValidScheme(x)
  {
    if e.who >= |n.ops| then n
    else
      var o := n.ops[e.who];
      var outgoing := if e.call.CallShareFor? then PrivateShareFor(o, e.call.recipient) else None;
      Net(n.ops[e.who := Handle(x, o, Signed(n, e.call))],
          if outgoing.Some? then n.sent + {outgoing.value.1} else n.sent)
  }

  function Run(x: Scheme, n: Net, es: seq<Event>): Net
    requires ValidScheme(x)
  {
    if es == [] then n else Apply(x, Run(x, n, es[..|es| - 1]), es[|es| - 1])
  }

  function Start(ms: seq<Member>): Net {
    Net(seq(|ms|, i requires 0 <= i < |ms| => NewOperator(ms[i])), {})
  }

  /** The polynomials at `x` of those of the first `n` members whose share was received. */
  function PartialSum(ms: seq<Member>, x: int, received: set<int>, n: nat): int
    requires n <= |ms|
  {
    if n == 0 then 0
    else PartialSum(ms, x, received, n - 1) + (if ms[n - 1].point in received then Eval(Polynomial(ms[n - 1]), x) else 0)
  }

  ghost predicate ShareInv(r: Roster, ms: seq<Member>, o: Operator) {
    && OperatorInv(o) && o.received <= PointSet(r)
    && (o.round.Contributing? ==> o.received == {} && o.share == 0)
    && o.share == PartialSum(ms, o.me.point, o.received, |ms|)
    && (Rank(o.round) >= 2 ==> |o.received| == |r.operators|)
  }

  ghost predicate NetInv(r: Roster, ms: seq<Member>, n: Net) {
    && |n.ops| == |ms|
    && (forall i :: 0 <= i < |ms| ==> n.ops[i].me == ms[i] && ShareInv(r, ms, n.ops[i]))
    && (forall s :: s in n.sent ==>
          exists i :: 0 <= i < |ms| && s.sender == ms[i].point && s.value == Eval(Polynomial(ms[i]), s.recipient))
  }

  lemma {:induction false} PartialSumEmpty(ms: seq<Member>, x: int, n: nat)
    requires n <= |ms|
    ensures PartialSum(ms, x, {}, n) == 0
  {
    if n > 0 {
      PartialSumEmpty(ms, x, n - 1);
    }
  }

  /** Receiving one more share adds exactly its sender's term. */
  lemma {:induction false} PartialSumInsert(r: Roster, ms: seq<Member>, x: int, received: set<int>, i: nat, n: nat)
    requires Members(r, ms) && i < |ms| && n <= |ms| && ms[i].point !in received
    ensures PartialSum(ms, x, received + {ms[i].point}, n) ==
            PartialSum(ms, x, received, n) + (if i < n then Eval(Polynomial(ms[i]), x) else 0)
  {
    if n > 0 {
      PartialSumInsert(r, ms, x, received, i, n - 1);
      assert n - 1 != i ==> ms[n - 1].point != ms[i].point;
    }
  }

  lemma {:induction false} AcceptKeeps(r: Roster, ms: seq<Member>, o: Operator, s: PrivateShare, i: nat)
    requires Members(r, ms) && ShareInv(r, ms, o) && o.me.roster == r
    requires i < |ms| && s.sender == ms[i].point && s.value == Eval(Polynomial(ms[i]), s.recipient)
    ensures var o' := AcceptPrivateShare(o, s, true); o'.Some? ==> ShareInv(r, ms, o'.value)
  {
    var o' := AcceptPrivateShare(o, s, true);
    if o'.Some? {
      PartialSumInsert(r, ms, o.me.point, o.received, i, |ms|);
      assert ms[i].point == r.operators[i].point;
      assert ms[i].point in PointSet(r);
    }
  }

  lemma {:induction false} OperatorKeeps(r: Roster, ms: seq<Member>, n: Net, k: nat, c: Call, x: Scheme)
    requires ValidScheme(x) && Members(r, ms) && NetInv(r, ms, n) && k < |ms|
    ensures ShareInv(r, ms, Handle(x, n.ops[k], Signed(n, c))) && Handle(x, n.ops[k], Signed(n, c)).me == ms[k]
  {
    var o := n.ops[k];
    assert ms[k].roster == r;
    HandleKeeps(x, o, Signed(n, c));
    if c.CallAcceptShare? {
      if c.share in n.sent {
        var i :| 0 <= i < |ms| && c.share.sender == ms[i].point && c.share.value == Eval(Polynomial(ms[i]), c.share.recipient);
        AcceptKeeps(r, ms, o, c.share, i);
      }
    } else if c.CallSealCrs? {
      PartialSumEmpty(ms, o.me.point, |ms|);
    }
  }

  lemma {:induction false} SentKeeps(r: Roster, ms: seq<Member>, n: Net, k: nat, recipient: int)
    requires Members(r, ms) && NetInv(r, ms, n) && k < |ms|
    ensures var out := PrivateShareFor(n.ops[k], recipient);
            out.Some? ==> out.value.1.sender == ms[k].point && out.value.1.value == Eval(Polynomial(ms[k]), out.value.1.recipient)
  {
    assert n.ops[k].me == ms[k] && ShareInv(r, ms, n.ops[k]);
  }

  lemma {:induction false} ApplyKeeps(x: Scheme, r: Roster, ms: seq<Member>, n: Net, e: Event)
    requires ValidScheme(x) && Members(r, ms) && NetInv(r, ms, n)
    ensures NetInv(r, ms, Apply(x, n, e))
  {
    if e.who < |n.ops| {
      OperatorKeeps(r, ms, n, e.who, e.call, x);
      if e.call.CallShareFor? {
        SentKeeps(r, ms, n, e.who, e.call.recipient);
      }
    }
  }

  lemma {:induction false} RunKeeps(x: Scheme, r: Roster, ms: seq<Member>, es: seq<Event>)
    requires ValidScheme(x) && Members(r, ms)
    ensures NetInv(r, ms, Run(x, Start(ms), es))
  {
    if es == [] {
      forall i | 0 <= i < |ms|
        ensures ShareInv(r, ms, NewOperator(ms[i]))
      {
        PartialSumEmpty(ms, ms[i].point, |ms|);
      }
    } else {
      RunKeeps(x, r, ms, es[..|es| - 1]);
      ApplyKeeps(x, r, ms, Run(x, Start(ms), es[..|es| - 1]), es[|es| - 1]);
    }
  }

  // ----- everything received

  function PointsIn(ops: seq<Identity>): set<int> {
    set i | 0 <= i < |ops| :: ops[i].point
  }

  lemma {:induction false} PointsStep(ops: seq<Identity>, p: int)
    requires ops != []
    ensures p in PointsIn(ops) <==> p in PointsIn(ops[..|ops| - 1]) || p == ops[|ops| - 1].point
  {
    var n := |ops| - 1;
    if p in PointsIn(ops) {
      var i :| 0 <= i < |ops| && ops[i].point == p;
      assert i < n ==> ops[..n][i].point == p;
    }
    if p in PointsIn(ops[..n]) {
      var i :| 0 <= i < n && ops[..n][i].point == p;
      assert ops[i].point == p;
    }
  }

  lemma {:induction false} PointCount(ops: seq<Identity>)
    requires forall i, j :: 0 <= i < j < |ops| ==> ops[i].point < ops[j].point
    ensures |PointsIn(ops)| == |ops|
  {
    if ops != [] {
      var n := |ops| - 1;
      PointCount(ops[..n]);
      forall p
        ensures p in PointsIn(ops) <==> p in PointsIn(ops[..n]) || p == ops[n].point
      {
        PointsStep(ops, p);
      }
      assert PointsIn(ops) == PointsIn(ops[..n]) + {ops[n].point};
      assert ops[n].point !in PointsIn(ops[..n]);
    }
  }

  lemma {:induction false} SubsetOfSameSize<T>(a: set<T>, b: set<T>)
    requires a <= b && |a| == |b|
    ensures a == b
  {
    assert b == a + (b - a);
    assert |b| == |a| + |b - a|;
    assert b - a == {};
  }

  lemma {:induction false} AllReceived(r: Roster, received: set<int>)
    requires ValidRoster(r) && received <= PointSet(r) && |received| == |r.operators|
    ensures received == PointSet(r)
  {
    PointCount(r.operators);
    assert PointsIn(r.operators) == PointSet(r);
    SubsetOfSameSize(received, PointSet(r));
  }

  /** Coefficient-wise sum of the first `n` polynomials, `t` coefficients long. */
  function SumPolynomial(ms: seq<Member>, t: nat, n: nat): (p: seq<int>)
    requires n <= |ms| && forall i :: 0 <= i < |ms| ==> |ms[i].tail| + 1 == t
    ensures |p| == t
  {
    if n == 0 then seq(t, i => 0)
    else
      var before, here := SumPolynomial(ms, t, n - 1), Polynomial(ms[n - 1]);
      seq(t, i requires 0 <= i < t => before[i] + here[i])
  }

  lemma {:induction false} EvalZeros(t: nat, x: int)
    ensures Eval(seq(t, i => 0), x) == 0
  {
    if t > 0 {
      EvalZeros(t - 1, x);
      assert seq(t, i => 0)[1..] == seq(t - 1, i => 0);
    }
  }

  lemma {:induction false} EvalSum(p: seq<int>, g: seq<int>, s: seq<int>, x: int)
    requires |p| == |g| == |s| && forall i :: 0 <= i < |s| ==> s[i] == p[i] + g[i]
    ensures Eval(s, x) == Eval(p, x) + Eval(g, x)
  {
    if s != [] {
      EvalSum(p[1..], g[1..], s[1..], x);
      assert x * Eval(s[1..], x) == x * Eval(p[1..], x) + x * Eval(g[1..], x);
    }
  }

  function SecretSum(ms: seq<Member>, n: nat): int
    requires n <= |ms|
  {
    if n == 0 then 0 else SecretSum(ms, n - 1) + ms[n - 1].secret
  }

  lemma {:induction false} SumPolynomialValue(r: Roster, ms: seq<Member>, x: int, n: nat)
    requires Members(r, ms) && n <= |ms|
    ensures Eval(SumPolynomial(ms, r.threshold, n), x) == PartialSum(ms, x, PointSet(r), n)
    ensures Eval(SumPolynomial(ms, r.threshold, n), 0) == SecretSum(ms, n)
  {
    if n == 0 {
      EvalZeros(r.threshold, x);
      EvalZeros(r.threshold, 0);
    } else {
      SumPolynomialValue(r, ms, x, n - 1);
      var before, here := SumPolynomial(ms, r.threshold, n - 1), Polynomial(ms[n - 1]);
      var s := SumPolynomial(ms, r.threshold, n);
      EvalSum(before, here, s, x);
      EvalSum(before, here, s, 0);
      assert r.operators[n - 1].point in PointSet(r);
      assert Eval(here, 0) == here[0] + 0 * Eval(here[1..], 0);
    }
  }

  /**
   In every run, an operator that sealed its share holds the sum of all members' polynomials at its
   own point, each counted exactly once, whatever the delivery order and however often shares were replayed.
   */
  lemma {:induction false} SealedShare(x: Scheme, r: Roster, ms: seq<Member>, es: seq<Event>, k: nat)
    requires ValidScheme(x) && Members(r, ms) && k < |ms|
    requires var n := Run(x, Start(ms), es); |n.ops| == |ms| && Rank(n.ops[k].round) >= 2
    ensures Run(x, Start(ms), es).ops[k].share == Eval(SumPolynomial(ms, r.threshold, |ms|), ms[k].point)
  {
    RunKeeps(x, r, ms, es);
    var o := Run(x, Start(ms), es).ops[k];
    assert o.me == ms[k] && ShareInv(r, ms, o);
    AllReceived(r, o.received);
    SumPolynomialValue(r, ms, ms[k].point, |ms|);
  }

  // ----- coalitions

  /** The weighted sum of the shares of a coalition: what its members' additive shares add up to. */
  ghost function Combined(q: int, xs: seq<int>, shares: seq<int>, n: nat): int
    requires Prime(q) && Points(q, xs) && |shares| == |xs| && n <= |xs|
    decreases |xs| - n
  {
    if n == |xs| then 0
    else
      OthersApart(q, xs, n);
      Weight(q, Without(xs, n), xs[n]) * shares[n] + Combined(q, xs, shares, n + 1)
  }

  lemma {:induction false} CombinedIsWeighted(q: int, xs: seq<int>, shares: seq<int>, p: seq<int>, n: nat)
    requires Prime(q) && Points(q, xs) && |shares| == |xs| && n <= |xs|
    requires forall i :: 0 <= i < |xs| ==> shares[i] == Eval(p, xs[i])
    ensures Combined(q, xs, shares, n) == Weighted(q, xs, p, n)
    decreases |xs| - n
  {
    if n < |xs| {
      CombinedIsWeighted(q, xs, shares, p, n + 1);
      OthersApart(q, xs, n);
    }
  }

  /** Points below the prime are distinct and nonzero in the field, as the roster demands of them as integers. */
  lemma {:induction false} SmallPoints(q: int, xs: seq<int>)
    requires q > 0
    requires forall i :: 0 <= i < |xs| ==> 0 < xs[i] < q
    requires forall i, j :: 0 <= i < j < |xs| ==> xs[i] != xs[j]
    ensures Points(q, xs)
  {
    forall i | 0 <= i < |xs|
      ensures !Cong(q, xs[i], 0)
    {
      NotMultiple(q, xs[i]);
    }
    forall i, j | 0 <= i < j < |xs|
      ensures !Cong(q, xs[i] - xs[j], 0)
    {
      NotMultiple(q, xs[i] - xs[j]);
    }
  }

  lemma {:induction false} NotMultiple(q: int, d: int)
    requires q > 0 && -q < d < q && d != 0
    ensures !Cong(q, d, 0)
  {
    if Cong(q, d, 0) {
      var k :| Differ(q, d, 0, k);
      assert q * k == k * q;
      MulSpread(q, k);
      assert false;
    }
  }

  /** The points of a coalition of members. */
  function CoalitionPoints(ms: seq<Member>, coalition: seq<nat>): (xs: seq<int>)
    requires forall i :: 0 <= i < |coalition| ==> coalition[i] < |ms|
    ensures |xs| == |coalition|
  {
    seq(|coalition|, i requires 0 <= i < |coalition| => ms[coalition[i]].point)
  }

  /**
   Every coalition of at least threshold many operators whose points are nonzero and distinct modulo the prime,
   from any completed run, reconstructs the same secret: the sum of all members' secrets, the one the collective
   keys are built from.
   */
  lemma {:induction false} CoalitionReconstructs(x: Scheme, r: Roster, ms: seq<Member>, es: seq<Event>, q: int, coalition: seq<nat>)
    requires ValidScheme(x) && Members(r, ms) && Prime(q) && r.threshold <= |coalition|
    requires forall i :: 0 <= i < |coalition| ==> coalition[i] < |ms|
    requires Points(q, CoalitionPoints(ms, coalition))
    requires var n := Run(x, Start(ms), es);
             |n.ops| == |ms| && forall i :: 0 <= i < |coalition| ==> Rank(n.ops[coalition[i]].round) >= 2
    ensures var n := Run(x, Start(ms), es);
            var shares := seq(|coalition|, i requires 0 <= i < |coalition| => n.ops[coalition[i]].share);
            Cong(q, Combined(q, CoalitionPoints(ms, coalition), shares, 0), SecretSum(ms, |ms|))
  {
    var n := Run(x, Start(ms), es);
    var xs := CoalitionPoints(ms, coalition);
    var shares := seq(|coalition|, i requires 0 <= i < |coalition| => n.ops[coalition[i]].share);
    var p := SumPolynomial(ms, r.threshold, |ms|);
    forall i | 0 <= i < |xs|
      ensures shares[i] == Eval(p, xs[i])
    {
      SealedShare(x, r, ms, es, coalition[i]);
    }
    CombinedIsWeighted(q, xs, shares, p, 0);
    Reconstruction(q, xs, p);
    SumPolynomialValue(r, ms, 0, |ms|);
  }

  /** A coalition of different operators at points below the prime qualifies, because the roster keeps points apart. */
  lemma {:induction false} SmallCoalition(r: Roster, ms: seq<Member>, q: int, coalition: seq<nat>)
    requires Members(r, ms) && q > 0
    requires forall i :: 0 <= i < |coalition| ==> coalition[i] < |ms| && ms[coalition[i]].point < q
    requires forall i, j :: 0 <= i < j < |coalition| ==> coalition[i] != coalition[j]
    ensures Points(q, CoalitionPoints(ms, coalition))
  {
    var xs := CoalitionPoints(ms, coalition);
    forall i, j | 0 <= i < j < |xs|
      ensures xs[i] != xs[j]
    {
      assert ms[coalition[i]].point == r.operators[coalition[i]].point;
      assert ms[coalition[j]].point == r.operators[coalition[j]].point;
    }
    forall i | 0 <= i < |xs|
      ensures 0 < xs[i] < q
    {
      assert ms[coalition[i]].point == r.operators[coalition[i]].point;
    }
    SmallPoints(q, xs);
  }
}
