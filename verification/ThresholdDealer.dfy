/**
 The co-located dealer of the reference runtime: every party's secret is shared by
 its own polynomial, and a party's threshold key is the sum of what all polynomials
 give at its point.
 */
module ThresholdDealer {
  import opened Basics
  import opened SecretSharing
  import opened CeremonyShares

  /** What the key generator and the polynomial sampler draw for party `i`. */
  datatype Sampler = Sampler(secret: nat -> int, coefficient: (nat, nat) -> int)

  function PolynomialOf(z: Sampler, threshold: nat, i: nat): (p: seq<int>)
    ensures |p| == if threshold == 0 then 1 else threshold
  {
    [z.secret(i)] + (if threshold == 0 then [] else seq(threshold - 1, k requires 0 <= k => z.coefficient(i, k)))
  }

  datatype Party = Party(point: int, sk: int, tsk: int)

  /** The first `k` parties' polynomials at `x`. */
  function SumAt(z: Sampler, threshold: nat, x: int, k: nat): int {
    if k == 0 then 0 else SumAt(z, threshold, x, k - 1) + Eval(PolynomialOf(z, threshold, k - 1), x)
  }

  function SecretTotal(z: Sampler, k: nat): int {
    if k == 0 then 0 else SecretTotal(z, k - 1) + z.secret(k - 1)
  }

  method GenerateThresholdParties(z: Sampler, n: int, threshold: int) returns (r: Result<seq<Party>>)
    ensures r.Ok? <==> 2 <= threshold <= n
    ensures r.Ok? ==> |r.value| == n && forall i :: 0 <= i < n ==>
      r.value[i] == Party(i + 1, z.secret(i), SumAt(z, threshold, i + 1, n))
  {
    if n < 2 || threshold < 2 || threshold > n {
      return Err;
    }
    var shares := new int[n, n];
    for i := 0 to n
      invariant forall a, b :: 0 <= a < i && 0 <= b < n ==> shares[a, b] == Eval(PolynomialOf(z, threshold, a), b + 1)
    {
      var polynomial := PolynomialOf(z, threshold, i);
      for j := 0 to n
        invariant forall a, b :: 0 <= a < i && 0 <= b < n ==> shares[a, b] == Eval(PolynomialOf(z, threshold, a), b + 1)
        invariant forall b :: 0 <= b < j ==> shares[i, b] == Eval(polynomial, b + 1)
      {
        shares[i, j] := Eval(polynomial, j + 1);
      }
    }
    var parties: seq<Party> := [];
    for i := 0 to n
      invariant |parties| == i
      invariant forall a :: 0 <= a < i ==> parties[a] == Party(a + 1, z.secret(a), SumAt(z, threshold, a + 1, n))
    {
      var tsk := 0;
      for j := 0 to n
        invariant tsk == SumAt(z, threshold, i + 1, j)
      {
        tsk := tsk + shares[j, i];
      }
      parties := parties + [Party(i + 1, z.secret(i), tsk)];
    }
    return Ok(parties);
  }

  /** Coefficient-wise sum of the first `k` polynomials. */
  function TotalPolynomial(z: Sampler, threshold: nat, k: nat): (p: seq<int>)
    requires threshold > 0
    ensures |p| == threshold
  {
    if k == 0 then seq(threshold, i => 0)
    else
      var before, here := TotalPolynomial(z, threshold, k - 1), PolynomialOf(z, threshold, k - 1);
      seq(threshold, i requires 0 <= i < threshold => before[i] + here[i])
  }

  lemma {:induction false} TotalPolynomialValue(z: Sampler, threshold: nat, x: int, k: nat)
    requires threshold > 0
    ensures Eval(TotalPolynomial(z, threshold, k), x) == SumAt(z, threshold, x, k)
    ensures Eval(TotalPolynomial(z, threshold, k), 0) == SecretTotal(z, k)
  {
    if k == 0 {
      EvalZeros(threshold, x);
      EvalZeros(threshold, 0);
    } else {
      TotalPolynomialValue(z, threshold, x, k - 1);
      var before, here, s := TotalPolynomial(z, threshold, k - 1), PolynomialOf(z, threshold, k - 1), TotalPolynomial(z, threshold, k);
      EvalSum(before, here, s, x);
      EvalSum(before, here, s, 0);
      assert Eval(here, 0) == here[0] + 0 * Eval(here[1..], 0);
    }
  }

  /** The additive shares of any group of at least threshold many parties add up to the sum of all parties' secrets. */
  lemma {:induction false} DealtCoalition(z: Sampler, n: nat, threshold: nat, parties: seq<Party>, q: int, group: seq<nat>)
    requires 2 <= threshold <= n < q && Prime(q) && |parties| == n && threshold <= |group|
    requires forall i :: 0 <= i < n ==> parties[i] == Party(i + 1, z.secret(i), SumAt(z, threshold, i + 1, n))
    requires forall k :: 0 <= k < |group| ==> group[k] < n
    requires forall k, l :: 0 <= k < l < |group| ==> group[k] != group[l]
    ensures var xs := seq(|group|, k requires 0 <= k < |group| => parties[group[k]].point);
            var shares := seq(|group|, k requires 0 <= k < |group| => parties[group[k]].tsk);
            Points(q, xs) && Cong(q, Combined(q, xs, shares, 0), SecretTotal(z, n))
  {
    var xs := seq(|group|, k requires 0 <= k < |group| => parties[group[k]].point);
    var shares := seq(|group|, k requires 0 <= k < |group| => parties[group[k]].tsk);
    var p := TotalPolynomial(z, threshold, n);
    forall k | 0 <= k < |group|
      ensures shares[k] == Eval(p, xs[k])
    {
      TotalPolynomialValue(z, threshold, xs[k], n);
    }
    SmallPoints(q, xs);
    CombinedIsWeighted(q, xs, shares, p, 0);
    Reconstruction(q, xs, p);
    TotalPolynomialValue(z, threshold, 0, n);
  }

  // ----- one-shot decryption by two of the parties

  /** The parties, and the c1 components a decryption was already begun for. */
  datatype Runtime = Runtime(parties: seq<Party>, used: set<int>)

  /** `committed`: the result carries the commitment of its own ciphertext. */
  datatype Decision = Decision(c0: int, c1: int, committed: bool)

  datatype Call = Call(decision: Decision, receiver: int, helper: int)

  predicate Preflight(rt: Runtime, c: Call) {
    c.decision.committed && 0 <= c.receiver < |rt.parties| && 0 <= c.helper < |rt.parties| && c.receiver != c.helper
  }

  /** The helper's share is switched into the ciphertext, the receiver's decrypts what remains. */
  ghost function Switched(q: int, rt: Runtime, c: Call): Option<int>
    requires Prime(q) && Preflight(rt, c)
  {
    var receiver, helper := rt.parties[c.receiver], rt.parties[c.helper];
    var xs := [receiver.point, helper.point];
    if !Points(q, xs) then None
    else
      OthersApart(q, xs, 0);
      OthersApart(q, xs, 1);
      var switched := c.decision.c0 + Weight(q, Without(xs, 1), xs[1]) * helper.tsk * c.decision.c1;
      Some((switched + Weight(q, Without(xs, 0), xs[0]) * receiver.tsk * c.decision.c1) % q)
  }

  /** DecryptThresholdWithCoalition: preflight failures consume nothing; once begun, a c1 is spent whatever the outcome. */
  ghost function Decrypt(q: int, rt: Runtime, c: Call): (Runtime, Option<int>)
    requires Prime(q)
  {
    if !Preflight(rt, c) || c.decision.c1 in rt.used then (rt, None)
    else (rt.(used := rt.used + {c.decision.c1}), Switched(q, rt, c))
  }

  ghost function DecryptAll(q: int, rt: Runtime, cs: seq<Call>): Runtime
    requires Prime(q)
  {
    if cs == [] then rt else Decrypt(q, DecryptAll(q, rt, cs[..|cs| - 1]), cs[|cs| - 1]).0
  }

  lemma {:induction false} UsedGrows(q: int, rt: Runtime, cs: seq<Call>)
    requires Prime(q)
    ensures rt.used <= DecryptAll(q, rt, cs).used && DecryptAll(q, rt, cs).parties == rt.parties
  {
    if cs != [] {
      UsedGrows(q, rt, cs[..|cs| - 1]);
    }
  }

  /** After one decryption of a c1 was begun, no later call on it by any pair, in any run, decrypts anything. */
  lemma {:induction false} DecryptsOnce(q: int, rt: Runtime, first: Call, between: seq<Call>, again: Call)
    requires Prime(q) && Preflight(rt, first) && again.decision.c1 == first.decision.c1
    ensures var rt' := DecryptAll(q, Decrypt(q, rt, first).0, between); Decrypt(q, rt', again) == (rt', None)
  {
    UsedGrows(q, Decrypt(q, rt, first).0, between);
  }

  /** Any two dealt parties open a fresh ciphertext to c0 + S*c1, S being the sum of all parties' secrets. */
  lemma {:induction false} PairDecrypts(q: int, z: Sampler, n: nat, threshold: nat, rt: Runtime, c: Call)
    requires threshold == 2 <= n < q && Prime(q) && |rt.parties| == n && Preflight(rt, c) && c.decision.c1 !in rt.used
    requires forall i :: 0 <= i < n ==> rt.parties[i] == Party(i + 1, z.secret(i), SumAt(z, threshold, i + 1, n))
    ensures Decrypt(q, rt, c).1 == Some((c.decision.c0 + SecretTotal(z, n) * c.decision.c1) % q)
  {
    var group: seq<nat> := [c.receiver, c.helper];
    DealtCoalition(z, n, threshold, rt.parties, q, group);
    var xs := seq(|group|, k requires 0 <= k < |group| => rt.parties[group[k]].point);
    var shares := seq(|group|, k requires 0 <= k < |group| => rt.parties[group[k]].tsk);
    var receiver, helper := rt.parties[c.receiver], rt.parties[c.helper];
    assert xs == [receiver.point, helper.point] && shares == [receiver.tsk, helper.tsk];
    OthersApart(q, xs, 0);
    OthersApart(q, xs, 1);
    var u, v := Weight(q, Without(xs, 0), xs[0]) * receiver.tsk, Weight(q, Without(xs, 1), xs[1]) * helper.tsk;
    assert Combined(q, xs, shares, 2) == 0;
    assert Combined(q, xs, shares, 1) == v;
    assert Combined(q, xs, shares, 0) == u + v;
    OpensLike(q, u + v, SecretTotal(z, n), c.decision.c0, c.decision.c1);
    assert c.decision.c0 + v * c.decision.c1 + u * c.decision.c1 == c.decision.c0 + (u + v) * c.decision.c1;
  }

  /**
   Exactly when the dealt runtime decrypts, what comes out, and what it remembers: a committed result, two different
   parties of the runtime, and a c1 no decryption was begun for. A refused call consumes nothing.
   */
  lemma {:induction false} DecryptsExactly(q: int, z: Sampler, n: nat, rt: Runtime, c: Call)
    requires 2 <= n < q && Prime(q) && |rt.parties| == n
    requires forall i :: 0 <= i < n ==> rt.parties[i] == Party(i + 1, z.secret(i), SumAt(z, 2, i + 1, n))
    ensures var d := c.decision;
            var ok := d.committed && 0 <= c.receiver < n && 0 <= c.helper < n && c.receiver != c.helper && d.c1 !in rt.used;
            && Decrypt(q, rt, c).1 == (if ok then Some((d.c0 + SecretTotal(z, n) * d.c1) % q) else None)
            && Decrypt(q, rt, c).0.parties == rt.parties
            && Decrypt(q, rt, c).0.used == if ok then rt.used + {d.c1} else rt.used
  {
    if Preflight(rt, c) && c.decision.c1 !in rt.used {
      PairDecrypts(q, z, n, 2, rt, c);
    }
  }

  lemma {:induction false} OpensLike(q: int, s: int, s': int, a: int, b: int)
    requires q > 1 && Cong(q, s, s')
    ensures (a + s * b) % q == (a + s' * b) % q
  {
    CongScale(q, s, s', b);
    CongRefl(q, a);
    CongAdd(q, a, a, b * s, b * s');
    assert b * s == s * b && b * s' == s' * b;
    SameResidue(q, a + s * b, a + s' * b);
  }
}
