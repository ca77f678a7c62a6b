/**
 The co-located ceremony driver: it seats operators at points 1, 2, 3, ..., carries
 every message between them and the aggregator, and seals everyone. Each stage is
 proved never to meet a refusal, so the driver fails exactly on inputs it should
 refuse: a roster that does not validate, a zero contribution or a zero policy id.
 */
module CeremonyDriver {
  import opened Basics
  import opened SecretSharing
  import opened Ceremony
  import opened CeremonyShares
  import opened CeremonyForms
  import opened CeremonyNodes
  import opened CeremonyStages

  // ----- contributions

  /** Everyone has heard the first `k` contributions. */
  function ContributedLine(ms: seq<Member>, k: nat): (ops: seq<Operator>)
    requires k <= |ms|
    ensures |ops| == |ms| && forall t :: 0 <= t < |ms| ==> ops[t] == Contributed(ms, t, k)
  {
    seq(|ms|, t requires 0 <= t < |ms| => Contributed(ms, t, k))
  }

  lemma {:induction false} ContributionScript(r: Roster, ms: seq<Member>, i: nat)
    requires Seated(r, ms) && i < |ms| && ms[i].contribution != 0
    ensures forall t :: 0 <= t < |ms| ==>
      OperatorAcceptContribution(ContributedLine(ms, i)[t], i + 1, ms[i].contribution) == Some(ContributedLine(ms, i + 1)[t])
  {
    forall t | 0 <= t < |ms|
      ensures OperatorAcceptContribution(ContributedLine(ms, i)[t], i + 1, ms[i].contribution) == Some(ContributedLine(ms, i + 1)[t])
    {
      ContributionStep(r, ms, t, i);
    }
  }

  function ContributedAggregator(r: Roster, ms: seq<Member>, k: nat): Aggregator
    requires k <= |ms|
  {
    NewAggregator(r).(contributions := FirstContributions(ms, k))
  }

  /** One operator's contribution goes to all operators and to the aggregator. */
  method Contribute(nodes: seq<OperatorNode>, g: AggregatorNode, i: nat, ghost r: Roster, ghost ms: seq<Member>) returns (ok: bool)
    requires Seated(r, ms) && Distinct(nodes) && i < |ms|
    requires Stand(nodes, ContributedLine(ms, i)) && g.View() == ContributedAggregator(r, ms, i)
    modifies nodes, g
    ensures ok <==> ms[i].contribution != 0
    ensures ok ==> Stand(nodes, ContributedLine(ms, i + 1)) && g.View() == ContributedAggregator(r, ms, i + 1)
  {
    var source := nodes[i].me;
    assert nodes[i].View() == ContributedLine(ms, i)[i] && ms[i].point == i + 1;
    assert source == ms[i];
    if source.contribution != 0 {
      ContributionScript(r, ms, i);
      AggregatorContributionStep(r, ms, i);
    }
    ok := Spread(nodes, source.point, source.contribution, ContributedLine(ms, i), ContributedLine(ms, i + 1));
    if !ok {
      return false;
    }
    ok := g.AcceptCrsContribution(source.point, source.contribution);
    assert ok;
  }

  method ContributionRound(nodes: seq<OperatorNode>, g: AggregatorNode, ghost r: Roster, ghost ms: seq<Member>) returns (ok: bool)
    requires Seated(r, ms) && Distinct(nodes)
    requires Stand(nodes, ContributedLine(ms, 0)) && g.View() == ContributedAggregator(r, ms, 0)
    modifies nodes, g
    ensures ok <==> Driven(r, ms)
    ensures ok ==> Stand(nodes, ContributedLine(ms, |ms|)) && g.View() == ContributedAggregator(r, ms, |ms|)
  {
    for i := 0 to |nodes|
      invariant forall t :: 0 <= t < i ==> ms[t].contribution != 0
      invariant Stand(nodes, ContributedLine(ms, i)) && g.View() == ContributedAggregator(r, ms, i)
    {
      ok := Contribute(nodes, g, i, r, ms);
      if !ok {
        return false;
      }
    }
    return true;
  }

  // ----- private shares

  /** Sources before `i` have sent to all; source `i` has sent to the first `j` targets. */
  function SharingLine(r: Roster, ms: seq<Member>, i: nat, j: nat): (ops: seq<Operator>)
    requires i <= |ms| && (j > 0 ==> i < |ms|)
    ensures |ops| == |ms|
    ensures forall t :: 0 <= t < |ms| ==>
      ops[t] == Sharing(r, ms, t, if t < i then |ms| else if t == i then j else 0, if t < j then i + 1 else i)
  {
    seq(|ms|, t requires 0 <= t < |ms| =>
      Sharing(r, ms, t, if t < i then |ms| else if t == i then j else 0, if t < j then i + 1 else i))
  }

  function Line(r: Roster, ms: seq<Member>, p: Phase): (ops: seq<Operator>)
    ensures |ops| == |ms| && forall t :: 0 <= t < |ms| ==> ops[t] == InPhase(r, ms, t, p)
  {
    seq(|ms|, t requires 0 <= t < |ms| => InPhase(r, ms, t, p))
  }

  /** One message: what it does to the line of operators. */
  lemma {:induction false} ExchangeStep(r: Roster, ms: seq<Member>, i: nat, j: nat)
    requires Driven(r, ms) && i < |ms| && j < |ms|
    ensures Exchanges(SharingLine(r, ms, i, j), SharingLine(r, ms, i, j + 1), i, j)
  {
    var ops, next := SharingLine(r, ms, i, j), SharingLine(r, ms, i, j + 1);
    var sender := Sharing(r, ms, i, j + 1, if i < j then i + 1 else i);
    assert ms[j].point == j + 1;
    EmitStep(r, ms, i, j, if i < j then i + 1 else i);
    AcceptStep(r, ms, i, j, if j < i then |ms| else if j == i then j + 1 else 0);
    assert next == ops[i := sender][j := next[j]];
  }

  lemma {:induction false} ExchangeScript(r: Roster, ms: seq<Member>, i: nat)
    requires Driven(r, ms) && i < |ms|
    ensures Relayed(SharingLine(r, ms, i, 0), SharingLine(r, ms, i + 1, 0), i)
  {
    var lines := seq(|ms| + 1, j requires 0 <= j <= |ms| => SharingLine(r, ms, i, j));
    assert SharingLine(r, ms, i, |ms|) == SharingLine(r, ms, i + 1, 0);
    forall j | 0 <= j < |ms|
      ensures Exchanges(lines[j], lines[j + 1], i, j)
    {
      ExchangeStep(r, ms, i, j);
    }
    assert Relays(SharingLine(r, ms, i, 0), SharingLine(r, ms, i + 1, 0), i, lines);
  }

  /** Everything the private-share stages do, step by accepted step. */
  lemma {:induction false} SharesScript(r: Roster, ms: seq<Member>) returns (turns: seq<seq<Operator>>)
    requires Driven(r, ms)
    ensures |turns| == |ms| + 1 && |turns[0]| == |turns[|ms|]| == |ms|
    ensures forall t :: 0 <= t < |ms| ==> OperatorSealCrs(ContributedLine(ms, |ms|)[t]) == Some(turns[0][t])
    ensures forall i :: 0 <= i < |ms| ==> Relayed(turns[i], turns[i + 1], i)
    ensures forall t :: 0 <= t < |ms| ==> SealThresholdShare(turns[|ms|][t]) == Some(Line(r, ms, AtPublicKey)[t])
  {
    turns := seq(|ms| + 1, i requires 0 <= i <= |ms| => SharingLine(r, ms, i, 0));
    forall i | 0 <= i < |ms|
      ensures Relayed(turns[i], turns[i + 1], i)
    {
      ExchangeScript(r, ms, i);
    }
    forall t | 0 <= t < |ms|
      ensures OperatorSealCrs(ContributedLine(ms, |ms|)[t]) == Some(turns[0][t])
      ensures SealThresholdShare(turns[|ms|][t]) == Some(Line(r, ms, AtPublicKey)[t])
    {
      SealCrsStep(r, ms, t);
      SealShareStep(r, ms, t);
    }
  }

  function SealedAggregator(x: Scheme, r: Roster, ms: seq<Member>): Aggregator {
    ContributedAggregator(r, ms, |ms|).(
      stream := Some(Stream(SeedOf(r, ms), 1)), crp := Draw(x, r, ms, 0), publicShares := NONE_YET, stage := PublicKeyRound)
  }

  lemma {:induction false} AggregatorSealStep(x: Scheme, r: Roster, ms: seq<Member>)
    requires Driven(r, ms)
    ensures AggregatorSealCrs(x, ContributedAggregator(r, ms, |ms|)) == Some(SealedAggregator(x, r, ms))
  {
    FirstContributionsKeys(ms, |ms|);
  }

  method SharesRound(x: Scheme, nodes: seq<OperatorNode>, g: AggregatorNode, ghost r: Roster, ghost ms: seq<Member>)
    requires Driven(r, ms) && Distinct(nodes)
    requires Stand(nodes, ContributedLine(ms, |ms|)) && g.View() == ContributedAggregator(r, ms, |ms|)
    modifies nodes, g
    ensures Stand(nodes, Line(r, ms, AtPublicKey)) && g.View() == SealedAggregator(x, r, ms)
  {
    ghost var turns := SharesScript(r, ms);
    SealStreams(nodes, ContributedLine(ms, |ms|), turns[0]);
    AggregatorSealStep(x, r, ms);
    var accepted := g.SealCrs(x);
    assert accepted;
    PrivateStage(nodes, turns);
    SealShares(nodes, turns[|ms|], Line(r, ms, AtPublicKey));
  }

  // ----- keys

  /** The aggregator has taken `drawn` draws of the shared stream, and holds the last of them. */
  ghost predicate Drawing(x: Scheme, r: Roster, ms: seq<Member>, g: Aggregator, stage: Round, drawn: nat) {
    && g.roster == r && g.contributions == FirstContributions(ms, |ms|)
    && g.stage == stage && g.stream == Some(Stream(SeedOf(r, ms), drawn))
    && drawn > 0 && g.crp == Draw(x, r, ms, drawn - 1) && !g.complete
  }

  lemma {:induction false} SeatsOf(r: Roster, ms: seq<Member>)
    requires Driven(r, ms)
    ensures Seats(r, |ms|) && forall p, t :: 0 <= t < |ms| ==> Line(r, ms, p)[t].me.point == t + 1
  {
    forall t | 0 <= t < |ms|
      ensures r.operators[t].point == t + 1
    {
      assert ms[t].point == r.operators[t].point;
    }
  }

  lemma {:induction false} PublicEmitted(x: Scheme, r: Roster, ms: seq<Member>)
    requires Driven(r, ms)
    ensures |PublicWires(x, r, ms)| == |ms|
    ensures forall t :: 0 <= t < |ms| ==> PublicKeyShare(x, Line(r, ms, AtPublicKey)[t]) == Some((Line(r, ms, AtRelinOne)[t], PublicWires(x, r, ms)[t]))
  {
    forall t | 0 <= t < |ms|
      ensures PublicKeyShare(x, Line(r, ms, AtPublicKey)[t]) == Some((Line(r, ms, AtRelinOne)[t], PublicWires(x, r, ms)[t]))
    {
      PublicEmit(x, r, ms, t);
    }
  }

  method PublicRound(x: Scheme, nodes: seq<OperatorNode>, g: AggregatorNode, ghost r: Roster, ghost ms: seq<Member>)
    requires Driven(r, ms) && Distinct(nodes) && Stand(nodes, Line(r, ms, AtPublicKey))
    requires Drawing(x, r, ms, g.View(), PublicKeyRound, 1) && g.publicShares == NONE_YET
    modifies nodes, g
    ensures Stand(nodes, Line(r, ms, AtRelinOne))
    ensures g.View() == PublicAt(x, old(g.View()), PublicWires(x, r, ms), |ms|)
  {
    SeatsOf(r, ms);
    PublicEmitted(x, r, ms);
    ghost var stages := PublicAccepted(x, g.View(), PublicWires(x, r, ms));
    PublicKeyStage(x, nodes, g, Line(r, ms, AtPublicKey), Line(r, ms, AtRelinOne), PublicWires(x, r, ms), stages);
  }

  lemma {:induction false} RelinOneEmitted(x: Scheme, r: Roster, ms: seq<Member>)
    requires Driven(r, ms)
    ensures |RelinOneWires(x, r, ms)| == |ms|
    ensures forall t :: 0 <= t < |ms| ==> RelinShareOne(x, Line(r, ms, AtRelinOne)[t]) == Some((Line(r, ms, AtRelinTwo)[t], RelinOneWires(x, r, ms)[t]))
  {
    forall t | 0 <= t < |ms|
      ensures RelinShareOne(x, Line(r, ms, AtRelinOne)[t]) == Some((Line(r, ms, AtRelinTwo)[t], RelinOneWires(x, r, ms)[t]))
    {
      RelinOneEmit(x, r, ms, t);
    }
  }

  method RelinOneRoundOf(x: Scheme, nodes: seq<OperatorNode>, g: AggregatorNode, ghost r: Roster, ghost ms: seq<Member>)
    requires Driven(r, ms) && Distinct(nodes) && Stand(nodes, Line(r, ms, AtRelinOne))
    requires Drawing(x, r, ms, g.View(), RelinOneRound, 2) && g.relinOne == NO_PAIRS_YET
    modifies nodes, g
    ensures Stand(nodes, Line(r, ms, AtRelinTwo))
    ensures g.View() == RelinOneAt(old(g.View()), RelinOneWires(x, r, ms), |ms|)
  {
    SeatsOf(r, ms);
    RelinOneEmitted(x, r, ms);
    ghost var stages := RelinOneAccepted(g.View(), RelinOneWires(x, r, ms));
    RelinOneStage(x, nodes, g, Line(r, ms, AtRelinOne), Line(r, ms, AtRelinTwo), RelinOneWires(x, r, ms), stages);
  }

  lemma {:induction false} RelinTwoEmitted(x: Scheme, r: Roster, ms: seq<Member>)
    requires Driven(r, ms)
    ensures |RelinTwoWires(x, r, ms)| == |ms|
    ensures forall t :: 0 <= t < |ms| ==> RelinShareTwo(Line(r, ms, AtRelinTwo)[t], CombinedOne(x, r, ms)) == Some((Line(r, ms, AtGalois(0))[t], RelinTwoWires(x, r, ms)[t]))
  {
    forall t | 0 <= t < |ms|
      ensures RelinShareTwo(Line(r, ms, AtRelinTwo)[t], CombinedOne(x, r, ms)) == Some((Line(r, ms, AtGalois(0))[t], RelinTwoWires(x, r, ms)[t]))
    {
      RelinTwoEmit(x, r, ms, t);
    }
  }

  method RelinTwoRoundOf(x: Scheme, nodes: seq<OperatorNode>, g: AggregatorNode, ghost r: Roster, ghost ms: seq<Member>)
    requires Driven(r, ms) && Distinct(nodes) && Stand(nodes, Line(r, ms, AtRelinTwo))
    requires Drawing(x, r, ms, g.View(), RelinTwoRound, 2) && g.relinTwo == NO_PAIRS_YET && g.relinOne.sum == CombinedOne(x, r, ms)
    modifies nodes, g
    ensures Stand(nodes, Line(r, ms, AtGalois(0)))
    ensures g.View() == RelinTwoAt(x, old(g.View()), RelinTwoWires(x, r, ms), |ms|)
  {
    var combined := AggregatedRelinOne(g.View());
    SeatsOf(r, ms);
    RelinTwoEmitted(x, r, ms);
    ghost var stages := RelinTwoAccepted(x, g.View(), RelinTwoWires(x, r, ms));
    RelinTwoStage(x, nodes, g, combined.value, Line(r, ms, AtRelinTwo), Line(r, ms, AtGalois(0)), RelinTwoWires(x, r, ms), stages);
  }

  lemma {:induction false} GaloisEmitted(x: Scheme, r: Roster, ms: seq<Member>, d: nat)
    requires ValidScheme(x) && Driven(r, ms) && d < ROTATIONS
    ensures |GaloisWires(x, r, ms, d)| == |ms|
    ensures forall t :: 0 <= t < |ms| ==> GaloisShare(x, Line(r, ms, AtGalois(d))[t], x.elements[d]) == Some((Line(r, ms, AtGalois(d + 1))[t], GaloisWires(x, r, ms, d)[t]))
  {
    forall t | 0 <= t < |ms|
      ensures GaloisShare(x, Line(r, ms, AtGalois(d))[t], x.elements[d]) == Some((Line(r, ms, AtGalois(d + 1))[t], GaloisWires(x, r, ms, d)[t]))
    {
      GaloisEmit(x, r, ms, d, t);
    }
  }

  /** `d` Galois keys are finished, and the aggregator waits for the next element's shares or is done. */
  ghost predicate Rotating(x: Scheme, r: Roster, ms: seq<Member>, g: Aggregator, d: nat)
    requires ValidScheme(x)
  {
    && d <= ROTATIONS && g.galoisIndex == d == |g.galoisKeys|
    && g.publicKey == Some(PublicKeyFrom(x, r, ms)) && g.relinKey == Some(RelinKeyFrom(x, r, ms))
    && (forall k :: 0 <= k < d ==> g.galoisKeys[k] == GaloisKeyFrom(x, r, ms, k))
    && g.roster == r && g.contributions == FirstContributions(ms, |ms|)
    && (if d < ROTATIONS then Drawing(x, r, ms, g, GaloisRound, 3 + d) && g.galoisShares == NONE_YET else g.complete)
  }

  lemma {:induction false} RotatingStep(x: Scheme, r: Roster, ms: seq<Member>, g: Aggregator, d: nat)
    requires ValidScheme(x) && d < ROTATIONS && Rotating(x, r, ms, g, d)
    ensures Rotating(x, r, ms, GaloisAt(x, g, GaloisWires(x, r, ms, d), |ms|), d + 1)
  {
  }

  lemma {:induction false} RotatingCurrent(x: Scheme, r: Roster, ms: seq<Member>, g: Aggregator, d: nat)
    requires ValidScheme(x) && Rotating(x, r, ms, g, d)
    ensures CurrentGalois(x, g) == if d < ROTATIONS then Some(x.elements[d]) else None
  {
  }

  method ElementRound(x: Scheme, nodes: seq<OperatorNode>, g: AggregatorNode, element: int, ghost r: Roster, ghost ms: seq<Member>, ghost d: nat)
    requires ValidScheme(x) && Driven(r, ms) && Distinct(nodes) && d < ROTATIONS && element == x.elements[d]
    requires Stand(nodes, Line(r, ms, AtGalois(d))) && Rotating(x, r, ms, g.View(), d)
    modifies nodes, g
    ensures Stand(nodes, Line(r, ms, AtGalois(d + 1))) && Rotating(x, r, ms, g.View(), d + 1)
  {
    RotatingStep(x, r, ms, g.View(), d);
    SeatsOf(r, ms);
    GaloisEmitted(x, r, ms, d);
    ghost var stages := GaloisAccepted(x, g.View(), GaloisWires(x, r, ms, d));
    GaloisStage(x, nodes, g, element, Line(r, ms, AtGalois(d)), Line(r, ms, AtGalois(d + 1)), GaloisWires(x, r, ms, d), stages);
  }

  /** The open-ended loop over Galois elements: it ends after exactly one pass per rotation. */
  method GaloisRounds(x: Scheme, nodes: seq<OperatorNode>, g: AggregatorNode, ghost r: Roster, ghost ms: seq<Member>)
    requires ValidScheme(x) && Driven(r, ms) && Distinct(nodes)
    requires Stand(nodes, Line(r, ms, AtGalois(0))) && Rotating(x, r, ms, g.View(), 0)
    modifies nodes, g
    ensures Stand(nodes, Line(r, ms, AtGalois(ROTATIONS))) && Rotating(x, r, ms, g.View(), ROTATIONS)
  {
    ghost var d := 0;
    while true
      invariant Stand(nodes, Line(r, ms, AtGalois(d))) && d <= ROTATIONS && Rotating(x, r, ms, g.View(), d)
      decreases ROTATIONS - d
    {
      RotatingCurrent(x, r, ms, g.View(), d);
      var element := CurrentGalois(x, g.View());
      if element.None? {
        break;
      }
      ElementRound(x, nodes, g, element.value, r, ms, d);
      d := d + 1;
    }
  }

  /** What the aggregator holds after each key stage. */
  lemma {:induction false} KeyChain(x: Scheme, r: Roster, ms: seq<Member>)
    requires ValidScheme(x) && Driven(r, ms)
    ensures var g0 := SealedAggregator(x, r, ms);
            Drawing(x, r, ms, g0, PublicKeyRound, 1) &&
            var g1 := PublicAt(x, g0, PublicWires(x, r, ms), |ms|);
            Drawing(x, r, ms, g1, RelinOneRound, 2) && g1.relinOne == g1.relinTwo == NO_PAIRS_YET &&
            var g2 := RelinOneAt(g1, RelinOneWires(x, r, ms), |ms|);
            Drawing(x, r, ms, g2, RelinTwoRound, 2) && g2.relinOne.sum == CombinedOne(x, r, ms) && g2.relinTwo == NO_PAIRS_YET &&
            Rotating(x, r, ms, RelinTwoAt(x, g2, RelinTwoWires(x, r, ms), |ms|), 0)
  {
  }

  method KeyRounds(x: Scheme, nodes: seq<OperatorNode>, g: AggregatorNode, ghost r: Roster, ghost ms: seq<Member>)
    requires ValidScheme(x) && Driven(r, ms) && Distinct(nodes)
    requires Stand(nodes, Line(r, ms, AtPublicKey)) && g.View() == SealedAggregator(x, r, ms)
    modifies nodes, g
    ensures Stand(nodes, Line(r, ms, AtGalois(ROTATIONS))) && Rotating(x, r, ms, g.View(), ROTATIONS)
  {
    KeyChain(x, r, ms);
    PublicRound(x, nodes, g, r, ms);
    RelinOneRoundOf(x, nodes, g, r, ms);
    RelinTwoRoundOf(x, nodes, g, r, ms);
    GaloisRounds(x, nodes, g, r, ms);
  }

  // ----- the driver

  /** What the driver draws for one operator. */
  datatype Sample = Sample(key: int, secret: int, coefficient: nat -> int, mask: int, contribution: int)

  datatype Material = Material(
    publicKey: KeyPair, relinearization: KeyPair, galois: seq<KeyPair>, digests: Digests,
    shares: seq<int>, attestations: seq<Attestation>)

  function RosterFor(threshold: nat, ceremony: int, fingerprint: int, samples: seq<Sample>): Roster {
    Roster(threshold, ceremony, 1, fingerprint,
           seq(|samples|, i requires 0 <= i < |samples| => Identity(i + 1, samples[i].key)))
  }

  function MemberFor(r: Roster, point: nat, s: Sample): Member {
    Member(r, point, s.key, s.secret,
           if r.threshold < 1 then [] else seq(r.threshold - 1, s.coefficient), s.mask, s.contribution)
  }

  function MembersFor(r: Roster, samples: seq<Sample>): seq<Member> {
    seq(|samples|, i requires 0 <= i < |samples| => MemberFor(r, i + 1, samples[i]))
  }

  /** The inputs on which the driver succeeds, said without the ceremony. */
  ghost predicate Acceptable(threshold: nat, ceremony: int, fingerprint: int, policyId: int, samples: seq<Sample>) {
    && 2 <= threshold <= |samples| <= MAX_OPERATORS
    && ceremony != 0 && fingerprint != 0 && policyId != 0
    && (forall i :: 0 <= i < |samples| ==> samples[i].key != 0 && samples[i].contribution != 0)
    && (forall i, j :: 0 <= i < j < |samples| ==> samples[i].key != samples[j].key)
  }

  lemma {:induction false} RosterAccepted(threshold: nat, ceremony: int, fingerprint: int, samples: seq<Sample>)
    ensures var r := RosterFor(threshold, ceremony, fingerprint, samples);
            && (ValidRoster(r) <==>
                  && 2 <= threshold <= |samples| <= MAX_OPERATORS && ceremony != 0 && fingerprint != 0
                  && (forall i :: 0 <= i < |samples| ==> samples[i].key != 0)
                  && (forall i, j :: 0 <= i < j < |samples| ==> samples[i].key != samples[j].key))
            && (ValidRoster(r) ==> Seated(r, MembersFor(r, samples)))
  {
    var r := RosterFor(threshold, ceremony, fingerprint, samples);
    forall i | 0 <= i < |samples|
      ensures r.operators[i] == Identity(i + 1, samples[i].key)
    {
    }
    if ValidRoster(r) {
      forall i | 0 <= i < |samples|
        ensures samples[i].key != 0
      {
        assert r.operators[i].key != 0;
      }
      forall i, j | 0 <= i < j < |samples|
        ensures samples[i].key != samples[j].key
      {
        assert r.operators[i].key != r.operators[j].key;
      }
    }
  }

  /** NewCeremonyOperatorState for every operator, and NewCeremonyAggregator: the roster is validated each time. */
  method Seat(r: Roster, samples: seq<Sample>) returns (nodes: seq<OperatorNode>)
    ensures |nodes| == |samples| && Distinct(nodes)
    ensures forall t :: 0 <= t < |nodes| ==> fresh(nodes[t]) && nodes[t].View() == NewOperator(MembersFor(r, samples)[t])
  {
    nodes := [];
    for i := 0 to |samples|
      invariant |nodes| == i && Distinct(nodes)
      invariant forall t :: 0 <= t < i ==> fresh(nodes[t]) && nodes[t].View() == NewOperator(MembersFor(r, samples)[t])
    {
      var node := new OperatorNode(MemberFor(r, i + 1, samples[i]));
      nodes := nodes + [node];
    }
  }

  method CollectShares(nodes: seq<OperatorNode>, ghost ops: seq<Operator>) returns (shares: seq<int>)
    requires Stand(nodes, ops)
    ensures |shares| == |ops| && forall t :: 0 <= t < |ops| ==> shares[t] == ops[t].share
  {
    shares := [];
    for i := 0 to |nodes|
      invariant |shares| == i && forall t :: 0 <= t < i ==> shares[t] == ops[t].share
    {
      assert nodes[i].View() == ops[i];
      shares := shares + [nodes[i].share];
    }
  }

  lemma {:induction false} SealScript(r: Roster, ms: seq<Member>, d: Digests)
    requires Driven(r, ms)
    requires d.seed == Some(SeedOf(r, ms)) && d.publicKey.Some? && d.relinearization.Some? && d.galois.Some? && d.policy.Some?
    ensures forall t :: 0 <= t < |ms| ==>
      && Line(r, ms, AtGalois(ROTATIONS))[t].me == ms[t] && ms[t].point == t + 1
      && SealOperator(Line(r, ms, AtGalois(ROTATIONS))[t], d) == Some((Line(r, ms, AtEnd)[t], Attestation(ms[t].point, d, ms[t].key)))
  {
    forall t | 0 <= t < |ms|
      ensures SealOperator(Line(r, ms, AtGalois(ROTATIONS))[t], d) == Some((Line(r, ms, AtEnd)[t], Attestation(ms[t].point, d, ms[t].key)))
    {
      SealStep(r, ms, d, t);
    }
  }

  /** Everyone signed the same digests, once each: what VerifyAttestations looks for. */
  lemma {:induction false} AllAttested(r: Roster, ms: seq<Member>, d: Digests, attestations: seq<Attestation>)
    requires Driven(r, ms) && |attestations| == |ms|
    requires forall t :: 0 <= t < |ms| ==> attestations[t] == Attestation(ms[t].point, d, ms[t].key)
    ensures forall i :: 0 <= i < |attestations| ==> AttestationVerifies(r, d, attestations[i])
    ensures forall i, j :: 0 <= i < j < |attestations| ==> attestations[i].point != attestations[j].point
  {
    forall i | 0 <= i < |attestations|
      ensures AttestationVerifies(r, d, attestations[i])
    {
      ContainsPoint(r, ms, i);
      assert ms[i].point == i + 1;
    }
    forall i, j | 0 <= i < j < |attestations|
      ensures attestations[i].point != attestations[j].point
    {
      assert ms[i].point == i + 1 && ms[j].point == j + 1;
    }
  }

  /** Seals every operator and checks the attestations against the roster. */
  method Finish(r: Roster, nodes: seq<OperatorNode>, d: Digests, ghost ms: seq<Member>) returns (attestations: seq<Attestation>)
    requires Driven(r, ms) && Distinct(nodes) && Stand(nodes, Line(r, ms, AtGalois(ROTATIONS)))
    requires d.seed == Some(SeedOf(r, ms)) && d.publicKey.Some? && d.relinearization.Some? && d.galois.Some? && d.policy.Some?
    modifies nodes
    ensures Stand(nodes, Line(r, ms, AtEnd)) && |attestations| == |ms|
    ensures forall t :: 0 <= t < |ms| ==> attestations[t] == Attestation(ms[t].point, d, ms[t].key)
  {
    SealScript(r, ms, d);
    attestations := SealStage(nodes, d, Line(r, ms, AtGalois(ROTATIONS)), Line(r, ms, AtEnd));
    AllAttested(r, ms, d, attestations);
    var verified := VerifyAttestations(r, d, attestations);
    assert verified;
  }

  /** What a completed ceremony leaves behind, in terms of what its operators drew. */
  ghost predicate Completed(x: Scheme, r: Roster, ms: seq<Member>, policyId: int, m: Material)
    requires ValidScheme(x) && Driven(r, ms)
  {
    && KeysOf(x, SeedOf(r, ms), SecretSum(ms, |ms|), m.publicKey, m.relinearization, m.galois)
    && m.digests == Digests(Some(SeedOf(r, ms)), Some(m.publicKey), Some(m.relinearization), Some(m.galois), Some(policyId))
    && |m.shares| == |m.attestations| == |ms|
    && (forall t :: 0 <= t < |ms| ==> m.shares[t] == Eval(SumPolynomial(ms, r.threshold, |ms|), t + 1))
    && (forall t :: 0 <= t < |ms| ==> m.attestations[t] == Attestation(t + 1, m.digests, ms[t].key))
  }

  /** From the contributions on: succeeds exactly when no contribution and not the policy id is zero. */
  method Conduct(x: Scheme, r: Roster, policyId: int, nodes: seq<OperatorNode>, g: AggregatorNode, ghost ms: seq<Member>)
    returns (result: Result<Material>)
    requires ValidScheme(x) && Seated(r, ms) && Distinct(nodes)
    requires Stand(nodes, ContributedLine(ms, 0)) && g.View() == ContributedAggregator(r, ms, 0)
    modifies nodes, g
    ensures result.Ok? <==> Driven(r, ms) && policyId != 0
    ensures result.Ok? ==> Stand(nodes, Line(r, ms, AtEnd)) && Completed(x, r, ms, policyId, result.value)
  {
    var ok := ContributionRound(nodes, g, r, ms);
    if !ok {
      return Err;
    }
    SharesRound(x, nodes, g, r, ms);
    KeyRounds(x, nodes, g, r, ms);
    var d := KeyDigests(g.View(), policyId);
    if d.None? {
      return Err;
    }
    var attestations := Finish(r, nodes, d.value, ms);
    var shares := CollectShares(nodes, Line(r, ms, AtEnd));
    result := Ok(Material(g.publicKey.value, g.relinKey.value, g.galoisKeys, d.value, shares, attestations));
    KeysOfOneSecret(x, r, ms, g.galoisKeys);
    EndShares(r, ms, shares);
  }

  lemma {:induction false} EndShares(r: Roster, ms: seq<Member>, shares: seq<int>)
    requires Driven(r, ms) && |shares| == |ms|
    requires forall t :: 0 <= t < |ms| ==> shares[t] == Line(r, ms, AtEnd)[t].share
    ensures forall t :: 0 <= t < |ms| ==> shares[t] == Eval(SumPolynomial(ms, r.threshold, |ms|), t + 1)
    ensures forall t :: 0 <= t < |ms| ==> ms[t].point == t + 1
  {
    forall t | 0 <= t < |ms|
      ensures shares[t] == Eval(SumPolynomial(ms, r.threshold, |ms|), t + 1)
    {
      ShareIsSumPolynomial(r, ms, t + 1, |ms|);
    }
  }

  /** Sealed, and nothing left that could decrypt but the share. */
  predicate Erased(o: Operator) {
    o.round.SealedRound? && !o.holdsSecret && o.ephemeral.None? && o.polynomial.None? && o.stream.None?
  }

  /** Seats everyone and conducts the ceremony, the roster being valid. */
  method ConductSeated(x: Scheme, r: Roster, policyId: int, samples: seq<Sample>)
    returns (result: Result<Material>, nodes: seq<OperatorNode>)
    requires ValidScheme(x) && Seated(r, MembersFor(r, samples))
    ensures result.Ok? <==> Driven(r, MembersFor(r, samples)) && policyId != 0
    ensures result.Ok? ==> Completed(x, r, MembersFor(r, samples), policyId, result.value)
    ensures result.Ok? ==> Stand(nodes, Line(r, MembersFor(r, samples), AtEnd))
  {
    ghost var ms := MembersFor(r, samples);
    nodes := Seat(r, samples);
    var g := new AggregatorNode(r);
    SeatedStart(r, ms);
    result := Conduct(x, r, policyId, nodes, g, ms);
  }

  lemma {:induction false} ErasedAtEnd(r: Roster, ms: seq<Member>)
    ensures forall t :: 0 <= t < |ms| ==> Erased(Line(r, ms, AtEnd)[t]) && Line(r, ms, AtEnd)[t].me == ms[t]
  {
  }

  /**
   RunColocatedCeremony. It succeeds exactly on acceptable inputs. Then every operator is sealed and holds no
   secret but its share, the shares are points of the sum of all polynomials, and the keys are keys of the sum
   of all secrets.
   */
  method RunColocatedCeremony(x: Scheme, threshold: nat, ceremony: int, fingerprint: int, policyId: int, samples: seq<Sample>)
    returns (result: Result<Material>, nodes: seq<OperatorNode>)
    requires ValidScheme(x)
    ensures result.Ok? <==> Acceptable(threshold, ceremony, fingerprint, policyId, samples)
    ensures result.Ok? ==>
      var r := RosterFor(threshold, ceremony, fingerprint, samples);
      var ms := MembersFor(r, samples);
      && Driven(r, ms) && Completed(x, r, ms, policyId, result.value)
      && |nodes| == |ms| && forall t :: 0 <= t < |ms| ==> Erased(nodes[t].View()) && nodes[t].View().me == ms[t]
  {
    var r := RosterFor(threshold, ceremony, fingerprint, samples);
    RosterAccepted(threshold, ceremony, fingerprint, samples);
    var valid := Validate(r);
    if !valid {
      return Err, [];
    }
    DrivenExactly(r, samples);
    ErasedAtEnd(r, MembersFor(r, samples));
    result, nodes := ConductSeated(x, r, policyId, samples);
  }

  lemma {:induction false} SeatedStart(r: Roster, ms: seq<Member>)
    requires Seated(r, ms)
    ensures forall t :: 0 <= t < |ms| ==> NewOperator(ms[t]) == ContributedLine(ms, 0)[t]
  {
    forall t | 0 <= t < |ms|
      ensures NewOperator(ms[t]) == ContributedLine(ms, 0)[t]
    {
      ContributionStart(r, ms, t);
    }
  }

  lemma {:induction false} DrivenExactly(r: Roster, samples: seq<Sample>)
    requires Seated(r, MembersFor(r, samples))
    ensures Driven(r, MembersFor(r, samples)) <==> forall i :: 0 <= i < |samples| ==> samples[i].contribution != 0
  {
    var ms := MembersFor(r, samples);
    assert forall i :: 0 <= i < |samples| ==> ms[i].contribution == samples[i].contribution;
  }

  /** Every coalition of at least threshold many operators of a completed ceremony reconstructs the sum of all secrets. */
  lemma {:induction false} CompletedReconstructs(x: Scheme, r: Roster, ms: seq<Member>, policyId: int, m: Material, q: int, coalition: seq<nat>)
    requires ValidScheme(x) && Driven(r, ms) && Completed(x, r, ms, policyId, m) && Prime(q) && |ms| < q
    requires r.threshold <= |coalition|
    requires forall i :: 0 <= i < |coalition| ==> coalition[i] < |ms|
    requires forall i, j :: 0 <= i < j < |coalition| ==> coalition[i] != coalition[j]
    ensures var xs := seq(|coalition|, i requires 0 <= i < |coalition| => coalition[i] + 1);
            var shares := seq(|coalition|, i requires 0 <= i < |coalition| => m.shares[coalition[i]]);
            Points(q, xs) && Cong(q, Combined(q, xs, shares, 0), SecretSum(ms, |ms|))
  {
    var xs := seq(|coalition|, i requires 0 <= i < |coalition| => coalition[i] + 1);
    var shares := seq(|coalition|, i requires 0 <= i < |coalition| => m.shares[coalition[i]]);
    var p := SumPolynomial(ms, r.threshold, |ms|);
    SmallPoints(q, xs);
    CombinedIsWeighted(q, xs, shares, p, 0);
    Reconstruction(q, xs, p);
    SumPolynomialValue(r, ms, 0, |ms|);
  }

  /** That secret opens the collective public key. */
  lemma {:induction false} CompletedCoalition(x: Scheme, r: Roster, ms: seq<Member>, policyId: int, m: Material, q: int, coalition: seq<nat>)
    requires ValidScheme(x) && Driven(r, ms) && Completed(x, r, ms, policyId, m) && Prime(q) && |ms| < q
    requires r.threshold <= |coalition|
    requires forall i :: 0 <= i < |coalition| ==> coalition[i] < |ms|
    requires forall i, j :: 0 <= i < j < |coalition| ==> coalition[i] != coalition[j]
    ensures var xs := seq(|coalition|, i requires 0 <= i < |coalition| => coalition[i] + 1);
            var shares := seq(|coalition|, i requires 0 <= i < |coalition| => m.shares[coalition[i]]);
            Points(q, xs) && Cong(q, m.publicKey.0 + Combined(q, xs, shares, 0) * m.publicKey.1, 0)
  {
    var xs := seq(|coalition|, i requires 0 <= i < |coalition| => coalition[i] + 1);
    var shares := seq(|coalition|, i requires 0 <= i < |coalition| => m.shares[coalition[i]]);
    CompletedReconstructs(x, r, ms, policyId, m, q, coalition);
    CongOpens(q, m.publicKey, SecretSum(ms, |ms|), Combined(q, xs, shares, 0));
  }

  lemma {:induction false} CongOpens(q: int, key: KeyPair, s: int, s': int)
    requires q > 0 && key.0 + s * key.1 == 0 && Cong(q, s', s)
    ensures Cong(q, key.0 + s' * key.1, 0)
  {
    var k :| Differ(q, s', s, k);
    assert (s' - s) * key.1 == q * (k * key.1) by {
      assert s' - s == q * k || s' - s == k * q;
    }
    assert s' * key.1 - s * key.1 == (s' - s) * key.1;
    assert Differ(q, key.0 + s' * key.1, 0, k * key.1);
  }

  // ----- what was sampled, and what came out

  /** The sum of the first `n` sampled secrets. */
  function SampledSecret(samples: seq<Sample>, n: nat): int
    requires n <= |samples|
  {
    if n == 0 then 0 else SampledSecret(samples, n - 1) + samples[n - 1].secret
  }

  /** The sum of the first `n` sampled polynomials of `threshold` coefficients at `point`. */
  function SampledShare(samples: seq<Sample>, threshold: nat, point: int, n: nat): int
    requires n <= |samples| && threshold > 0
  {
    if n == 0 then 0
    else SampledShare(samples, threshold, point, n - 1) + Eval([samples[n - 1].secret] + seq(threshold - 1, samples[n - 1].coefficient), point)
  }

  lemma {:induction false} SampledSums(r: Roster, samples: seq<Sample>, point: int, n: nat)
    requires Seated(r, MembersFor(r, samples)) && n <= |samples|
    ensures SecretSum(MembersFor(r, samples), n) == SampledSecret(samples, n)
    ensures PartialSum(MembersFor(r, samples), point, PointSet(r), n) == SampledShare(samples, r.threshold, point, n)
  {
    if n > 0 {
      SampledSums(r, samples, point, n - 1);
      assert r.operators[n - 1].point in PointSet(r);
    }
  }

  /**
   A completed ceremony in terms of what was sampled: the public, relinearization and rotation keys are keys of the sum
   of all sampled secrets, operator `t` holds the sum of all sampled polynomials at its point, and has signed the digests
   of exactly these keys with its own sampled key.
   */
  lemma {:induction false} CompletedFromSamples(
      x: Scheme, threshold: nat, ceremony: int, fingerprint: int, policyId: int, samples: seq<Sample>, m: Material, t: nat, d: nat)
    requires ValidScheme(x) && Acceptable(threshold, ceremony, fingerprint, policyId, samples) && t < |samples| && d < ROTATIONS
    requires var r := RosterFor(threshold, ceremony, fingerprint, samples);
             Driven(r, MembersFor(r, samples)) && Completed(x, r, MembersFor(r, samples), policyId, m)
    ensures var s := SampledSecret(samples, |samples|);
            && m.publicKey.0 + s * m.publicKey.1 == 0
            && m.relinearization.0 + s * m.relinearization.1 == s * s * x.gadget
            && |m.galois| == 9 && m.galois[d].0 + s * m.galois[d].1 == x.action(x.elements[d]) * s * x.gadget
    ensures |m.shares| == |samples| && m.shares[t] == SampledShare(samples, threshold, t + 1, |samples|)
    ensures |m.attestations| == |samples| && m.attestations[t].point == t + 1 && m.attestations[t].signer == samples[t].key
    ensures var g := m.attestations[t].digests;
            g.publicKey == Some(m.publicKey) && g.relinearization == Some(m.relinearization) && g.galois == Some(m.galois) && g.policy == Some(policyId)
  {
    var r := RosterFor(threshold, ceremony, fingerprint, samples);
    var ms := MembersFor(r, samples);
    SampledSums(r, samples, t + 1, |samples|);
    SumPolynomialValue(r, ms, t + 1, |ms|);
    assert GaloisKeyIs(x, SeedOf(r, ms), SecretSum(ms, |ms|), d, m.galois[d]);
    assert ms[t].key == samples[t].key;
  }
}
