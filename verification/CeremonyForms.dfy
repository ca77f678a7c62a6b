/**
 Where every operator and the aggregator stand at each point of an undisturbed
 ceremony whose operators sit at points 1, 2, 3, ... in roster order.
 */
module CeremonyForms {
  import opened Basics
  import opened SecretSharing
  import opened Ceremony
  import opened CeremonyShares

  /** Members at consecutive points. */
  ghost predicate Seated(r: Roster, ms: seq<Member>) {
    && Members(r, ms)
    && forall i :: 0 <= i < |ms| ==> ms[i].point == i + 1
  }

  /** Seated members none of whose contributions is zero. */
  ghost predicate Driven(r: Roster, ms: seq<Member>) {
    Seated(r, ms) && forall i :: 0 <= i < |ms| ==> ms[i].contribution != 0
  }

  function UpTo(k: nat): set<int> {
    if k == 0 then {} else UpTo(k - 1) + {k}
  }

  lemma {:induction false} UpToProperty(k: nat)
    ensures |UpTo(k)| == k && forall p :: p in UpTo(k) <==> 1 <= p <= k
  {
    if k > 0 {
      UpToProperty(k - 1);
    }
  }

  lemma {:induction false} ContainsPoint(r: Roster, ms: seq<Member>, i: nat)
    requires Seated(r, ms) && i < |ms|
    ensures Contains(r, i + 1) && KeyOf(r, i + 1, ms[i].key)
  {
    assert ms[i].point == r.operators[i].point && ms[i].key == r.operators[i].key;
  }

  // ----- contributions

  function FirstContributions(ms: seq<Member>, k: nat): map<int, int>
    requires k <= |ms|
  {
    if k == 0 then map[] else FirstContributions(ms, k - 1)[k := ms[k - 1].contribution]
  }

  lemma {:induction false} FirstContributionsKeys(ms: seq<Member>, k: nat)
    requires k <= |ms|
    ensures forall p :: p in FirstContributions(ms, k) <==> 1 <= p <= k
    ensures |FirstContributions(ms, k)| == k
  {
    if k > 0 {
      FirstContributionsKeys(ms, k - 1);
      assert FirstContributions(ms, k).Keys == FirstContributions(ms, k - 1).Keys + {k};
    }
  }

  /** Operator `t` after hearing from the first `k`: theirs and its own. */
  function Heard(ms: seq<Member>, t: nat, k: nat): map<int, int>
    requires t < |ms| && k <= |ms|
  {
    if t < k then FirstContributions(ms, k) else FirstContributions(ms, k)[t + 1 := ms[t].contribution]
  }

  function Contributed(ms: seq<Member>, t: nat, k: nat): Operator
    requires t < |ms| && k <= |ms|
  {
    NewOperator(ms[t]).(contributions := Heard(ms, t, k))
  }

  lemma {:induction false} ContributionStep(r: Roster, ms: seq<Member>, t: nat, i: nat)
    requires Seated(r, ms) && t < |ms| && i < |ms| && ms[i].contribution != 0
    ensures OperatorAcceptContribution(Contributed(ms, t, i), i + 1, ms[i].contribution) == Some(Contributed(ms, t, i + 1))
  {
    ContainsPoint(r, ms, i);
    FirstContributionsKeys(ms, i);
    assert ms[t].roster == r;
    if t > i {
      var c := FirstContributions(ms, i);
      assert c[t + 1 := ms[t].contribution][i + 1 := ms[i].contribution] == c[i + 1 := ms[i].contribution][t + 1 := ms[t].contribution];
    }
  }

  lemma {:induction false} ContributionStart(r: Roster, ms: seq<Member>, t: nat)
    requires Seated(r, ms) && t < |ms|
    ensures NewOperator(ms[t]) == Contributed(ms, t, 0)
  {
    assert ms[t].point == t + 1;
  }

  lemma {:induction false} AggregatorContributionStep(r: Roster, ms: seq<Member>, i: nat)
    requires Seated(r, ms) && i < |ms| && ms[i].contribution != 0
    ensures AggregatorAcceptContribution(NewAggregator(r).(contributions := FirstContributions(ms, i)), i + 1, ms[i].contribution)
         == Some(NewAggregator(r).(contributions := FirstContributions(ms, i + 1)))
  {
    ContainsPoint(r, ms, i);
    FirstContributionsKeys(ms, i);
  }

  function SeedOf(r: Roster, ms: seq<Member>): Seed {
    Seed(r, FirstContributions(ms, |ms|))
  }

  // ----- private shares

  function EvalSumTo(ms: seq<Member>, x: int, k: nat): int
    requires k <= |ms|
  {
    if k == 0 then 0 else EvalSumTo(ms, x, k - 1) + Eval(Polynomial(ms[k - 1]), x)
  }

  /** Operator `t` after emitting to the first `e` and hearing from the first `k`. */
  function Sharing(r: Roster, ms: seq<Member>, t: nat, e: nat, k: nat): Operator
    requires t < |ms| && k <= |ms|
  {
    Operator(ms[t], PrivateShares, FirstContributions(ms, |ms|), Some(Stream(SeedOf(r, ms), 0)), Some(Polynomial(ms[t])),
             EvalSumTo(ms, t + 1, k), UpTo(k), UpTo(e), true, None, 0)
  }

  lemma {:induction false} SealCrsStep(r: Roster, ms: seq<Member>, t: nat)
    requires Driven(r, ms) && t < |ms|
    ensures OperatorSealCrs(Contributed(ms, t, |ms|)) == Some(Sharing(r, ms, t, 0, 0))
  {
    FirstContributionsKeys(ms, |ms|);
    assert ms[t].roster == r;
  }

  function ShareFromTo(r: Roster, ms: seq<Member>, i: nat, j: nat): PrivateShare
    requires i < |ms|
  {
    PrivateShare(r, i + 1, j + 1, Eval(Polynomial(ms[i]), j + 1), ms[i].key)
  }

  lemma {:induction false} EmitStep(r: Roster, ms: seq<Member>, i: nat, j: nat, k: nat)
    requires Driven(r, ms) && i < |ms| && j < |ms| && k <= |ms|
    ensures PrivateShareFor(Sharing(r, ms, i, j, k), j + 1) == Some((Sharing(r, ms, i, j + 1, k), ShareFromTo(r, ms, i, j)))
  {
    ContainsPoint(r, ms, j);
    UpToProperty(j);
    assert ms[i].roster == r && ms[i].point == i + 1;
  }

  lemma {:induction false} AcceptStep(r: Roster, ms: seq<Member>, i: nat, j: nat, e: nat)
    requires Driven(r, ms) && i < |ms| && j < |ms|
    ensures AcceptPrivateShare(Sharing(r, ms, j, e, i), ShareFromTo(r, ms, i, j), true) == Some(Sharing(r, ms, j, e, i + 1))
  {
    ContainsPoint(r, ms, i);
    UpToProperty(i);
    assert ms[j].roster == r && ms[j].point == j + 1;
  }

  /** Operator `t` once its share is sealed, at stream position `d` and in round `round`. */
  function Holding(r: Roster, ms: seq<Member>, t: nat, round: Round, d: nat, ephemeral: Option<int>, galois: nat): Operator
    requires t < |ms|
  {
    Operator(ms[t], round, FirstContributions(ms, |ms|), Some(Stream(SeedOf(r, ms), d)), None,
             EvalSumTo(ms, t + 1, |ms|), UpTo(|ms|), UpTo(|ms|), true, ephemeral, galois)
  }

  lemma {:induction false} SealShareStep(r: Roster, ms: seq<Member>, t: nat)
    requires Driven(r, ms) && t < |ms|
    ensures SealThresholdShare(Sharing(r, ms, t, |ms|, |ms|)) == Some(Holding(r, ms, t, PublicKeyRound, 0, None, 0))
  {
    UpToProperty(|ms|);
    assert ms[t].roster == r;
  }

  /** What the operators' shares are: points of the sum of all polynomials. */
  lemma {:induction false} ShareIsSumPolynomial(r: Roster, ms: seq<Member>, x: int, k: nat)
    requires Members(r, ms) && k <= |ms|
    ensures EvalSumTo(ms, x, k) == Eval(SumPolynomial(ms, r.threshold, k), x)
  {
    if k == 0 {
      EvalZeros(r.threshold, x);
    } else {
      ShareIsSumPolynomial(r, ms, x, k - 1);
      EvalSum(SumPolynomial(ms, r.threshold, k - 1), Polynomial(ms[k - 1]), SumPolynomial(ms, r.threshold, k), x);
    }
  }

  // ----- keys

  /** Where an operator stands between two stages, its share sealed. */
  datatype Phase = AtPublicKey | AtRelinOne | AtRelinTwo | AtGalois(done: nat) | AtEnd

  function InPhase(r: Roster, ms: seq<Member>, t: nat, p: Phase): Operator
    requires t < |ms|
  {
    match p
    case AtPublicKey => Holding(r, ms, t, PublicKeyRound, 0, None, 0)
    case AtRelinOne => Holding(r, ms, t, RelinOneRound, 1, None, 0)
    case AtRelinTwo => Holding(r, ms, t, RelinTwoRound, 2, Some(ms[t].mask), 0)
    case AtGalois(d) => Holding(r, ms, t, GaloisRound, 2 + d, Some(ms[t].mask), d)
    case AtEnd => Holding(r, ms, t, SealedRound, 0, None, ROTATIONS).(stream := None, holdsSecret := false)
  }

  function MaskSum(ms: seq<Member>, k: nat): int
    requires k <= |ms|
  {
    if k == 0 then 0 else MaskSum(ms, k - 1) + ms[k - 1].mask
  }

  function Draw(x: Scheme, r: Roster, ms: seq<Member>, d: nat): int {
    x.draw(SeedOf(r, ms), d)
  }

  function SumTo(wires: seq<int>, k: nat): int
    requires k <= |wires|
  {
    if k == 0 then 0 else SumTo(wires, k - 1) + wires[k - 1]
  }

  function PairSumTo(wires: seq<(int, int)>, k: nat): (int, int)
    requires k <= |wires|
  {
    if k == 0 then (0, 0) else AddPair(PairSumTo(wires, k - 1), wires[k - 1])
  }

  function PublicWires(x: Scheme, r: Roster, ms: seq<Member>): seq<int> {
    seq(|ms|, t requires 0 <= t < |ms| => -Draw(x, r, ms, 0) * ms[t].secret)
  }

  function RelinOneWires(x: Scheme, r: Roster, ms: seq<Member>): seq<(int, int)> {
    seq(|ms|, t requires 0 <= t < |ms| =>
      (-ms[t].mask * Draw(x, r, ms, 1) + ms[t].secret * x.gadget, ms[t].secret * Draw(x, r, ms, 1)))
  }

  function CombinedOne(x: Scheme, r: Roster, ms: seq<Member>): (int, int) {
    PairSumTo(RelinOneWires(x, r, ms), |ms|)
  }

  function RelinTwoWires(x: Scheme, r: Roster, ms: seq<Member>): seq<(int, int)> {
    var h := CombinedOne(x, r, ms);
    seq(|ms|, t requires 0 <= t < |ms| => (ms[t].secret * h.0, (ms[t].mask - ms[t].secret) * h.1))
  }

  function GaloisWires(x: Scheme, r: Roster, ms: seq<Member>, d: nat): seq<int>
    requires ValidScheme(x) && d < ROTATIONS
  {
    seq(|ms|, t requires 0 <= t < |ms| =>
      -Draw(x, r, ms, 2 + d) * ms[t].secret + x.action(x.elements[d]) * ms[t].secret * x.gadget)
  }

  function PublicKeyFrom(x: Scheme, r: Roster, ms: seq<Member>): KeyPair {
    (SumTo(PublicWires(x, r, ms), |ms|), Draw(x, r, ms, 0))
  }

  function RelinKeyFrom(x: Scheme, r: Roster, ms: seq<Member>): KeyPair {
    var two := PairSumTo(RelinTwoWires(x, r, ms), |ms|);
    (two.0 + two.1, CombinedOne(x, r, ms).1)
  }

  function GaloisKeyFrom(x: Scheme, r: Roster, ms: seq<Member>, d: nat): KeyPair
    requires ValidScheme(x) && d < ROTATIONS
  {
    (SumTo(GaloisWires(x, r, ms, d), |ms|), Draw(x, r, ms, 2 + d))
  }

  lemma {:induction false} PublicEmit(x: Scheme, r: Roster, ms: seq<Member>, t: nat)
    requires Driven(r, ms) && t < |ms|
    ensures PublicKeyShare(x, InPhase(r, ms, t, AtPublicKey)) == Some((InPhase(r, ms, t, AtRelinOne), PublicWires(x, r, ms)[t]))
  {
  }

  lemma {:induction false} RelinOneEmit(x: Scheme, r: Roster, ms: seq<Member>, t: nat)
    requires Driven(r, ms) && t < |ms|
    ensures RelinShareOne(x, InPhase(r, ms, t, AtRelinOne)) == Some((InPhase(r, ms, t, AtRelinTwo), RelinOneWires(x, r, ms)[t]))
  {
  }

  lemma {:induction false} RelinTwoEmit(x: Scheme, r: Roster, ms: seq<Member>, t: nat)
    requires Driven(r, ms) && t < |ms|
    ensures RelinShareTwo(InPhase(r, ms, t, AtRelinTwo), CombinedOne(x, r, ms))
         == Some((InPhase(r, ms, t, AtGalois(0)), RelinTwoWires(x, r, ms)[t]))
  {
  }

  lemma {:induction false} GaloisEmit(x: Scheme, r: Roster, ms: seq<Member>, d: nat, t: nat)
    requires ValidScheme(x) && Driven(r, ms) && d < ROTATIONS && t < |ms|
    ensures GaloisShare(x, InPhase(r, ms, t, AtGalois(d)), x.elements[d])
         == Some((InPhase(r, ms, t, AtGalois(d + 1)), GaloisWires(x, r, ms, d)[t]))
  {
  }

  lemma {:induction false} SealStep(r: Roster, ms: seq<Member>, d: Digests, t: nat)
    requires Driven(r, ms) && t < |ms|
    requires d.seed == Some(SeedOf(r, ms)) && d.publicKey.Some? && d.relinearization.Some? && d.galois.Some? && d.policy.Some?
    ensures SealOperator(InPhase(r, ms, t, AtGalois(ROTATIONS)), d) == Some((InPhase(r, ms, t, AtEnd), Attestation(t + 1, d, ms[t].key)))
  {
    assert ms[t].point == t + 1;
  }

  // ----- the aggregator through a stage

  /** Operators at points 1, 2, 3, ... */
  ghost predicate Seats(r: Roster, n: nat) {
    |r.operators| == n && forall t :: 0 <= t < n ==> r.operators[t].point == t + 1
  }

  lemma {:induction false} NextSeat(r: Roster, n: nat, k: nat)
    requires Seats(r, n) && k < n
    ensures Fresh(r, k + 1, UpTo(k)) && UpTo(k + 1) == UpTo(k) + {k + 1} && |UpTo(k + 1)| == k + 1
  {
    UpToProperty(k);
    UpToProperty(k + 1);
    assert r.operators[k].point == k + 1;
  }

  function PublicAt(x: Scheme, g: Aggregator, wires: seq<int>, k: nat): Aggregator
    requires k <= |wires| && g.stream.Some?
  {
    var g1 := g.(publicShares := Gathered(UpTo(k), SumTo(wires, k)));
    if k < |wires| then g1 else StartRelinearization(x, g1)
  }

  lemma {:induction false} PublicStep(x: Scheme, g: Aggregator, wires: seq<int>, k: nat)
    requires Seats(g.roster, |wires|) && k < |wires| && g.stage.PublicKeyRound? && g.stream.Some?
    ensures AcceptPublicKeyShare(x, PublicAt(x, g, wires, k), k + 1, wires[k]) == Some(PublicAt(x, g, wires, k + 1))
  {
    NextSeat(g.roster, |wires|, k);
  }

  lemma {:induction false} PublicAccepted(x: Scheme, g: Aggregator, wires: seq<int>) returns (stages: seq<Aggregator>)
    requires Seats(g.roster, |wires|) && wires != [] && g.stage.PublicKeyRound? && g.stream.Some? && g.publicShares == NONE_YET
    ensures |stages| == |wires| + 1 && stages[0] == g && stages[|wires|] == PublicAt(x, g, wires, |wires|)
    ensures forall t :: 0 <= t < |wires| ==> AcceptPublicKeyShare(x, stages[t], t + 1, wires[t]) == Some(stages[t + 1])
  {
    stages := seq(|wires| + 1, k requires 0 <= k <= |wires| => PublicAt(x, g, wires, k));
    forall t | 0 <= t < |wires|
      ensures AcceptPublicKeyShare(x, stages[t], t + 1, wires[t]) == Some(stages[t + 1])
    {
      PublicStep(x, g, wires, t);
    }
  }

  function RelinOneAt(g: Aggregator, wires: seq<(int, int)>, k: nat): Aggregator
    requires k <= |wires|
  {
    g.(relinOne := GatheredPair(UpTo(k), PairSumTo(wires, k)), stage := if k < |wires| then RelinOneRound else RelinTwoRound)
  }

  lemma {:induction false} RelinOneStep(g: Aggregator, wires: seq<(int, int)>, k: nat)
    requires Seats(g.roster, |wires|) && k < |wires|
    ensures AcceptRelinOne(RelinOneAt(g, wires, k), k + 1, wires[k]) == Some(RelinOneAt(g, wires, k + 1))
  {
    NextSeat(g.roster, |wires|, k);
  }

  lemma {:induction false} RelinOneAccepted(g: Aggregator, wires: seq<(int, int)>) returns (stages: seq<Aggregator>)
    requires Seats(g.roster, |wires|) && wires != [] && g.stage.RelinOneRound? && g.relinOne == NO_PAIRS_YET
    ensures |stages| == |wires| + 1 && stages[0] == g && stages[|wires|] == RelinOneAt(g, wires, |wires|)
    ensures forall t :: 0 <= t < |wires| ==> AcceptRelinOne(stages[t], t + 1, wires[t]) == Some(stages[t + 1])
  {
    stages := seq(|wires| + 1, k requires 0 <= k <= |wires| => RelinOneAt(g, wires, k));
    forall t | 0 <= t < |wires|
      ensures AcceptRelinOne(stages[t], t + 1, wires[t]) == Some(stages[t + 1])
    {
      RelinOneStep(g, wires, t);
    }
  }

  function RelinTwoAt(x: Scheme, g: Aggregator, wires: seq<(int, int)>, k: nat): Aggregator
    requires k <= |wires| && g.stream.Some?
  {
    var sum := PairSumTo(wires, k);
    var g1 := g.(relinTwo := GatheredPair(UpTo(k), sum));
    if k < |wires| then g1 else StartGalois(x, g1.(relinKey := Some((sum.0 + sum.1, g.relinOne.sum.1)), stage := GaloisRound))
  }

  lemma {:induction false} RelinTwoStep(x: Scheme, g: Aggregator, wires: seq<(int, int)>, k: nat)
    requires Seats(g.roster, |wires|) && k < |wires| && g.stage.RelinTwoRound? && g.stream.Some?
    ensures AcceptRelinTwo(x, RelinTwoAt(x, g, wires, k), k + 1, wires[k]) == Some(RelinTwoAt(x, g, wires, k + 1))
  {
    NextSeat(g.roster, |wires|, k);
  }

  lemma {:induction false} RelinTwoAccepted(x: Scheme, g: Aggregator, wires: seq<(int, int)>) returns (stages: seq<Aggregator>)
    requires Seats(g.roster, |wires|) && wires != [] && g.stage.RelinTwoRound? && g.stream.Some? && g.relinTwo == NO_PAIRS_YET
    ensures |stages| == |wires| + 1 && stages[0] == g && stages[|wires|] == RelinTwoAt(x, g, wires, |wires|)
    ensures forall t :: 0 <= t < |wires| ==> AcceptRelinTwo(x, stages[t], t + 1, wires[t]) == Some(stages[t + 1])
  {
    stages := seq(|wires| + 1, k requires 0 <= k <= |wires| => RelinTwoAt(x, g, wires, k));
    forall t | 0 <= t < |wires|
      ensures AcceptRelinTwo(x, stages[t], t + 1, wires[t]) == Some(stages[t + 1])
    {
      RelinTwoStep(x, g, wires, t);
    }
  }

  /** The current element's key is finished: the next element starts, or all is done. */
  function ElementDone(x: Scheme, g: Aggregator): Aggregator
    requires g.stream.Some?
  {
    var g1 := g.(galoisKeys := g.galoisKeys + [(g.galoisShares.sum, g.crp)], galoisIndex := g.galoisIndex + 1);
    if g1.galoisIndex == ROTATIONS then g1.(complete := true) else StartGalois(x, g1)
  }

  function GaloisAt(x: Scheme, g: Aggregator, wires: seq<int>, k: nat): Aggregator
    requires k <= |wires| && g.stream.Some?
  {
    var g1 := g.(galoisShares := Gathered(UpTo(k), SumTo(wires, k)));
    if k < |wires| then g1 else ElementDone(x, g1)
  }

  lemma {:induction false} GaloisStep(x: Scheme, g: Aggregator, wires: seq<int>, k: nat)
    requires ValidScheme(x) && Seats(g.roster, |wires|) && k < |wires| && g.stream.Some?
    requires g.stage.GaloisRound? && !g.complete && g.galoisIndex < ROTATIONS
    ensures AcceptGaloisShare(x, GaloisAt(x, g, wires, k), k + 1, x.elements[g.galoisIndex], wires[k]) == Some(GaloisAt(x, g, wires, k + 1))
  {
    NextSeat(g.roster, |wires|, k);
  }

  lemma {:induction false} GaloisAccepted(x: Scheme, g: Aggregator, wires: seq<int>) returns (stages: seq<Aggregator>)
    requires ValidScheme(x) && Seats(g.roster, |wires|) && wires != [] && g.stream.Some? && g.galoisShares == NONE_YET
    requires g.stage.GaloisRound? && !g.complete && g.galoisIndex < ROTATIONS
    ensures |stages| == |wires| + 1 && stages[0] == g && stages[|wires|] == GaloisAt(x, g, wires, |wires|)
    ensures forall t :: 0 <= t < |wires| ==> AcceptGaloisShare(x, stages[t], t + 1, x.elements[g.galoisIndex], wires[t]) == Some(stages[t + 1])
  {
    stages := seq(|wires| + 1, k requires 0 <= k <= |wires| => GaloisAt(x, g, wires, k));
    forall t | 0 <= t < |wires|
      ensures AcceptGaloisShare(x, stages[t], t + 1, x.elements[g.galoisIndex], wires[t]) == Some(stages[t + 1])
    {
      GaloisStep(x, g, wires, t);
    }
  }

  // ----- what the keys are

  lemma {:induction false} PublicSumValue(x: Scheme, r: Roster, ms: seq<Member>, k: nat)
    requires k <= |ms|
    ensures SumTo(PublicWires(x, r, ms), k) == -Draw(x, r, ms, 0) * SecretSum(ms, k)
  {
    if k > 0 {
      PublicSumValue(x, r, ms, k - 1);
      var a, s, t := Draw(x, r, ms, 0), SecretSum(ms, k - 1), ms[k - 1].secret;
      assert -a * (s + t) == -a * s + -a * t;
    }
  }

  lemma {:induction false} OneMore(a: int, gadget: int, u: int, v: int, s: int, t: int)
    ensures -(u + v) * a + (s + t) * gadget == (-u * a + s * gadget) + (-v * a + t * gadget)
    ensures (s + t) * a == s * a + t * a
  {
  }

  lemma {:induction false} OneSumValue(x: Scheme, r: Roster, ms: seq<Member>, k: nat)
    requires k <= |ms|
    ensures var sum := PairSumTo(RelinOneWires(x, r, ms), k);
            && sum.0 == -MaskSum(ms, k) * Draw(x, r, ms, 1) + SecretSum(ms, k) * x.gadget
            && sum.1 == SecretSum(ms, k) * Draw(x, r, ms, 1)
  {
    if k > 0 {
      OneSumValue(x, r, ms, k - 1);
      OneMore(Draw(x, r, ms, 1), x.gadget, MaskSum(ms, k - 1), ms[k - 1].mask, SecretSum(ms, k - 1), ms[k - 1].secret);
    }
  }

  lemma {:induction false} TwoSumValue(x: Scheme, r: Roster, ms: seq<Member>, k: nat)
    requires k <= |ms|
    ensures var sum, h := PairSumTo(RelinTwoWires(x, r, ms), k), CombinedOne(x, r, ms);
            sum.0 == SecretSum(ms, k) * h.0 && sum.1 == (MaskSum(ms, k) - SecretSum(ms, k)) * h.1
  {
    if k > 0 {
      TwoSumValue(x, r, ms, k - 1);
      var h0, h1 := CombinedOne(x, r, ms).0, CombinedOne(x, r, ms).1;
      var u, v, s, t := MaskSum(ms, k - 1), ms[k - 1].mask, SecretSum(ms, k - 1), ms[k - 1].secret;
      assert (s + t) * h0 == s * h0 + t * h0;
      assert ((u + v) - (s + t)) * h1 == (u - s) * h1 + (v - t) * h1;
    }
  }

  lemma {:induction false} GaloisSumValue(x: Scheme, r: Roster, ms: seq<Member>, d: nat, k: nat)
    requires ValidScheme(x) && d < ROTATIONS && k <= |ms|
    ensures SumTo(GaloisWires(x, r, ms, d), k)
         == -Draw(x, r, ms, 2 + d) * SecretSum(ms, k) + x.action(x.elements[d]) * SecretSum(ms, k) * x.gadget
  {
    if k > 0 {
      GaloisSumValue(x, r, ms, d, k - 1);
      GaloisLinear(Draw(x, r, ms, 2 + d), x.action(x.elements[d]), x.gadget, SecretSum(ms, k - 1), ms[k - 1].secret);
    }
  }

  lemma {:induction false} GaloisLinear(a: int, c: int, w: int, s: int, t: int)
    ensures (-a * s + c * s * w) + (-a * t + c * t * w) == -a * (s + t) + c * (s + t) * w
  {
    assert c * s * w == (c * w) * s && c * t * w == (c * w) * t && c * (s + t) * w == (c * w) * (s + t);
  }

  lemma {:induction false} RelinAlgebra(s: int, u: int, a: int, w: int)
    ensures s * (-u * a + s * w) + (u - s) * (s * a) + s * (s * a) == s * s * w
  {
    var sa := s * a;
    assert s * (-u * a + s * w) == -(u * sa) + s * (s * w) by {
      assert s * (-u * a) == -(u * sa);
    }
    assert (u - s) * sa == u * sa - s * sa;
    assert s * (s * w) == s * s * w;
  }

  /**
   The keys of a finished ceremony are keys of one secret S, the sum of all members' secrets:
   the public key satisfies b + S*a = 0, the relinearization key b + S*a = S^2*w, and the Galois key of
   element k satisfies b + S*a = action(S)*w, with a = draw 0, S * draw 1, and draw 2+k of the one stream.
   */
  ghost predicate KeysOf(x: Scheme, seed: Seed, s: int, public: KeyPair, relin: KeyPair, galois: seq<KeyPair>)
    requires ValidScheme(x)
  {
    && public.1 == x.draw(seed, 0) && public.0 + s * public.1 == 0
    && relin.1 == s * x.draw(seed, 1) && relin.0 + s * relin.1 == s * s * x.gadget
    && |galois| == ROTATIONS && forall d :: 0 <= d < ROTATIONS ==> GaloisKeyIs(x, seed, s, d, galois[d])
  }

  predicate GaloisKeyIs(x: Scheme, seed: Seed, s: int, d: nat, key: KeyPair)
    requires ValidScheme(x) && d < ROTATIONS
  {
    key.1 == x.draw(seed, 2 + d) && key.0 + s * key.1 == x.action(x.elements[d]) * s * x.gadget
  }

  lemma {:induction false} PublicOfSecret(x: Scheme, r: Roster, ms: seq<Member>)
    ensures var k, s := PublicKeyFrom(x, r, ms), SecretSum(ms, |ms|); k.0 + s * k.1 == 0
  {
    PublicSumValue(x, r, ms, |ms|);
    CancelDraw(Draw(x, r, ms, 0), SecretSum(ms, |ms|));
  }

  lemma {:induction false} RelinOfSecret(x: Scheme, r: Roster, ms: seq<Member>)
    ensures var k, s := RelinKeyFrom(x, r, ms), SecretSum(ms, |ms|); k.1 == s * Draw(x, r, ms, 1) && k.0 + s * k.1 == s * s * x.gadget
  {
    OneSumValue(x, r, ms, |ms|);
    TwoSumValue(x, r, ms, |ms|);
    RelinAlgebra(SecretSum(ms, |ms|), MaskSum(ms, |ms|), Draw(x, r, ms, 1), x.gadget);
  }

  lemma {:induction false} GaloisOfSecret(x: Scheme, r: Roster, ms: seq<Member>, d: nat)
    requires ValidScheme(x) && d < ROTATIONS
    ensures GaloisKeyIs(x, SeedOf(r, ms), SecretSum(ms, |ms|), d, GaloisKeyFrom(x, r, ms, d))
  {
    GaloisSumValue(x, r, ms, d, |ms|);
    CancelDraw(Draw(x, r, ms, 2 + d), SecretSum(ms, |ms|));
  }

  lemma {:induction false} GaloisAllOfSecret(x: Scheme, r: Roster, ms: seq<Member>, galois: seq<KeyPair>)
    requires ValidScheme(x) && |galois| == ROTATIONS
    requires forall d :: 0 <= d < ROTATIONS ==> galois[d] == GaloisKeyFrom(x, r, ms, d)
    ensures forall d :: 0 <= d < ROTATIONS ==> GaloisKeyIs(x, SeedOf(r, ms), SecretSum(ms, |ms|), d, galois[d])
  {
    forall d | 0 <= d < ROTATIONS
      ensures GaloisKeyIs(x, SeedOf(r, ms), SecretSum(ms, |ms|), d, galois[d])
    {
      GaloisOfSecret(x, r, ms, d);
    }
  }

  lemma {:induction false} KeysOfOneSecret(x: Scheme, r: Roster, ms: seq<Member>, galois: seq<KeyPair>)
    requires ValidScheme(x) && |galois| == ROTATIONS
    requires forall d :: 0 <= d < ROTATIONS ==> galois[d] == GaloisKeyFrom(x, r, ms, d)
    ensures KeysOf(x, SeedOf(r, ms), SecretSum(ms, |ms|), PublicKeyFrom(x, r, ms), RelinKeyFrom(x, r, ms), galois)
  {
    PublicOfSecret(x, r, ms);
    RelinOfSecret(x, r, ms);
    GaloisAllOfSecret(x, r, ms, galois);
  }

  lemma {:induction false} CancelDraw(a: int, s: int)
    ensures -a * s + s * a == 0
  {
  }
}
