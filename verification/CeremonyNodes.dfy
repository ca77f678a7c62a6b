/**
 Operators and aggregator as the objects they are. Every method is proved to move
 its object exactly as the corresponding call of Ceremony does, or to refuse and
 change nothing.
 */
module CeremonyNodes {
  import opened Basics
  import opened SecretSharing
  import opened Ceremony

  class OperatorNode {
    const me: Member
    var round: Round
    var contributions: map<int, int>
    var stream: Option<Stream>
    var polynomial: Option<seq<int>>
    var share: int
    var received: set<int>
    var emitted: set<int>
    var holdsSecret: bool
    var ephemeral: Option<int>
    var galoisDone: nat

    function View(): Operator
      reads this
    {
      Operator(me, round, contributions, stream, polynomial, share, received, emitted, holdsSecret, ephemeral, galoisDone)
    }

    constructor (m: Member)
      ensures View() == NewOperator(m)
    {
      me := m;
      round, contributions, stream, polynomial := Contributing, map[m.point := m.contribution], None, None;
      share, received, emitted, holdsSecret, ephemeral, galoisDone := 0, {}, {}, true, None, 0;
    }

    method AcceptCrsContribution(point: int, value: int) returns (ok: bool)
      modifies this
      ensures var next := OperatorAcceptContribution(old(View()), point, value);
              ok == next.Some? && View() == Or(next, old(View()))
    {
      if round != Contributing || !Contains(me.roster, point) || value == 0 {
        return false;
      }
      if point in contributions {
        return contributions[point] == value;
      }
      contributions := contributions[point := value];
      return true;
    }

    method SealCrs() returns (ok: bool)
      modifies this
      ensures var next := OperatorSealCrs(old(View())); ok == next.Some? && View() == Or(next, old(View()))
    {
      if round != Contributing || |contributions| != |me.roster.operators| {
        return false;
      }
      stream := Some(Stream(Seed(me.roster, contributions), 0));
      polynomial := Some(Polynomial(me));
      share := 0;
      round := PrivateShares;
      return true;
    }

    method SharePrivately(recipient: int) returns (r: Result<PrivateShare>)
      modifies this
      ensures var next := PrivateShareFor(old(View()), recipient);
              && View() == FirstOr(next, old(View()))
              && r == if next.Some? then Ok(next.value.1) else Err
    {
      if round != PrivateShares || !Contains(me.roster, recipient) || recipient in emitted || polynomial.None? {
        return Err;
      }
      var outgoing := Eval(polynomial.value, recipient);
      emitted := emitted + {recipient};
      return Ok(PrivateShare(me.roster, me.point, recipient, outgoing, me.key));
    }

    method AcceptShare(s: PrivateShare, authentic: bool) returns (ok: bool)
      modifies this
      ensures var next := AcceptPrivateShare(old(View()), s, authentic); ok == next.Some? && View() == Or(next, old(View()))
    {
      if round != PrivateShares || s.roster != me.roster || s.recipient != me.point {
        return false;
      }
      if !KeyOf(me.roster, s.sender, s.signer) || !authentic {
        return false;
      }
      if s.sender in received {
        return false;
      }
      share := share + s.value;
      received := received + {s.sender};
      return true;
    }

    method SealShare() returns (ok: bool)
      modifies this
      ensures var next := SealThresholdShare(old(View())); ok == next.Some? && View() == Or(next, old(View()))
    {
      if round != PrivateShares || |received| != |me.roster.operators| {
        return false;
      }
      polynomial := None;
      round := PublicKeyRound;
      return true;
    }

    method EmitPublicKeyShare(x: Scheme) returns (r: Result<int>)
      modifies this
      ensures var next := PublicKeyShare(x, old(View()));
              View() == FirstOr(next, old(View())) && r == if next.Some? then Ok(next.value.1) else Err
    {
      if round != PublicKeyRound || stream.None? {
        return Err;
      }
      var crp := DrawNow(x, stream.value);
      stream := Some(Advance(stream.value));
      round := RelinOneRound;
      return Ok(-crp * me.secret);
    }

    method EmitRelinOne(x: Scheme) returns (r: Result<(int, int)>)
      modifies this
      ensures var next := RelinShareOne(x, old(View()));
              View() == FirstOr(next, old(View())) && r == if next.Some? then Ok(next.value.1) else Err
    {
      if round != RelinOneRound || stream.None? {
        return Err;
      }
      var crp := DrawNow(x, stream.value);
      stream := Some(Advance(stream.value));
      ephemeral := Some(me.mask);
      round := RelinTwoRound;
      return Ok((-me.mask * crp + me.secret * x.gadget, me.secret * crp));
    }

    method EmitRelinTwo(combined: (int, int)) returns (r: Result<(int, int)>)
      modifies this
      ensures var next := RelinShareTwo(old(View()), combined);
              View() == FirstOr(next, old(View())) && r == if next.Some? then Ok(next.value.1) else Err
    {
      if round != RelinTwoRound || ephemeral.None? {
        return Err;
      }
      round := GaloisRound;
      return Ok((me.secret * combined.0, (ephemeral.value - me.secret) * combined.1));
    }

    method EmitGalois(x: Scheme, element: int) returns (r: Result<int>)
      requires ValidScheme(x)
      modifies this
      ensures var next := GaloisShare(x, old(View()), element);
              View() == FirstOr(next, old(View())) && r == if next.Some? then Ok(next.value.1) else Err
    {
      if round != GaloisRound || galoisDone >= ROTATIONS || stream.None? {
        return Err;
      }
      if element != x.elements[galoisDone] {
        return Err;
      }
      var crp := DrawNow(x, stream.value);
      stream := Some(Advance(stream.value));
      galoisDone := galoisDone + 1;
      return Ok(-crp * me.secret + x.action(element) * me.secret * x.gadget);
    }

    method Seal(d: Digests) returns (r: Result<Attestation>)
      modifies this
      ensures var next := SealOperator(old(View()), d);
              View() == FirstOr(next, old(View())) && r == if next.Some? then Ok(next.value.1) else Err
    {
      if round != GaloisRound || galoisDone != ROTATIONS || stream.None? {
        return Err;
      }
      if d.seed != Some(stream.value.seed) || d.publicKey.None? || d.relinearization.None? || d.galois.None? || d.policy.None? {
        return Err;
      }
      holdsSecret, ephemeral, stream, round := false, None, None, SealedRound;
      return Ok(Attestation(me.point, d, me.key));
    }

    /** Any call on the object moves it exactly as the call machine moves; in particular a refused call changes nothing. */
    method Dispatch(x: Scheme, c: Call)
      requires ValidScheme(x)
      modifies this
      ensures View() == Handle(x, old(View()), c)
    {
      match c
      case CallContribution(point, value) => var _ := AcceptCrsContribution(point, value);
      case CallSealCrs => var _ := SealCrs();
      case CallShareFor(recipient) => var _ := SharePrivately(recipient);
      case CallAcceptShare(s, authentic) => var _ := AcceptShare(s, authentic);
      case CallSealShare => var _ := SealShare();
      case CallPublicKey => var _ := EmitPublicKeyShare(x);
      case CallRelinOne => var _ := EmitRelinOne(x);
      case CallRelinTwo(combined) => var _ := EmitRelinTwo(combined);
      case CallGalois(element) => var _ := EmitGalois(x, element);
      case CallSeal(digests) => var _ := Seal(digests);
    }
  }

  class AggregatorNode {
    const roster: Roster
    var stage: Round
    var contributions: map<int, int>
    var stream: Option<Stream>
    var crp: int
    var publicShares: Gathered
    var publicKey: Option<KeyPair>
    var relinOne: GatheredPair
    var relinTwo: GatheredPair
    var relinKey: Option<KeyPair>
    var galoisIndex: nat
    var galoisShares: Gathered
    var galoisKeys: seq<KeyPair>
    var complete: bool

    function View(): Aggregator
      reads this
    {
      Aggregator(roster, stage, contributions, stream, crp, publicShares, publicKey, relinOne, relinTwo, relinKey,
                 galoisIndex, galoisShares, galoisKeys, complete)
    }

    constructor (r: Roster)
      ensures View() == NewAggregator(r)
    {
      roster := r;
      stage, contributions, stream, crp := Contributing, map[], None, 0;
      publicShares, publicKey, relinOne, relinTwo, relinKey := NONE_YET, None, NO_PAIRS_YET, NO_PAIRS_YET, None;
      galoisIndex, galoisShares, galoisKeys, complete := 0, NONE_YET, [], false;
    }

    method AcceptCrsContribution(point: int, value: int) returns (ok: bool)
      modifies this
      ensures var next := AggregatorAcceptContribution(old(View()), point, value);
              ok == next.Some? && View() == Or(next, old(View()))
    {
      if stage != Contributing || !Contains(roster, point) || value == 0 || point in contributions {
        return false;
      }
      contributions := contributions[point := value];
      return true;
    }

    method SealCrs(x: Scheme) returns (ok: bool)
      modifies this
      ensures var next := AggregatorSealCrs(x, old(View())); ok == next.Some? && View() == Or(next, old(View()))
    {
      if stage != Contributing || |contributions| != |roster.operators| {
        return false;
      }
      var s := Stream(Seed(roster, contributions), 0);
      crp, stream := DrawNow(x, s), Some(Advance(s));
      publicShares := NONE_YET;
      stage := PublicKeyRound;
      return true;
    }

    /** Takes the next draw of the shared stream. */
    method DrawNext(x: Scheme)
      requires stream.Some?
      modifies this`crp, this`stream
      ensures crp == DrawNow(x, old(stream.value)) && stream == Some(Advance(old(stream.value)))
    {
      crp, stream := DrawNow(x, stream.value), Some(Advance(stream.value));
    }

    method StartGaloisElement(x: Scheme)
      requires stream.Some?
      modifies this`crp, this`stream, this`galoisShares
      ensures View() == StartGalois(x, old(View()))
    {
      DrawNext(x);
      galoisShares := NONE_YET;
    }

    method FinishPublicKey(x: Scheme)
      requires stream.Some?
      modifies this
      ensures View() == StartRelinearization(x, old(View()))
    {
      publicKey := Some((publicShares.sum, crp));
      DrawNext(x);
      relinOne, relinTwo, stage := NO_PAIRS_YET, NO_PAIRS_YET, RelinOneRound;
    }

    method AcceptPublicKey(x: Scheme, point: int, wire: int) returns (ok: bool)
      modifies this
      ensures var next := AcceptPublicKeyShare(x, old(View()), point, wire); ok == next.Some? && View() == Or(next, old(View()))
    {
      if stage != PublicKeyRound || !Fresh(roster, point, publicShares.seen) || stream.None? {
        return false;
      }
      var got := Gathered(publicShares.seen + {point}, publicShares.sum + wire);
      publicShares := got;
      if |got.seen| != |roster.operators| {
        return true;
      }
      FinishPublicKey(x);
      return true;
    }

    method AcceptRelinShareOne(point: int, wire: (int, int)) returns (ok: bool)
      modifies this
      ensures var next := AcceptRelinOne(old(View()), point, wire); ok == next.Some? && View() == Or(next, old(View()))
    {
      if stage != RelinOneRound || !Fresh(roster, point, relinOne.seen) {
        return false;
      }
      relinOne := GatheredPair(relinOne.seen + {point}, AddPair(relinOne.sum, wire));
      if |relinOne.seen| == |roster.operators| {
        stage := RelinTwoRound;
      }
      return true;
    }

    method AcceptRelinShareTwo(x: Scheme, point: int, wire: (int, int)) returns (ok: bool)
      modifies this
      ensures var next := AcceptRelinTwo(x, old(View()), point, wire); ok == next.Some? && View() == Or(next, old(View()))
    {
      if stage != RelinTwoRound || !Fresh(roster, point, relinTwo.seen) || stream.None? {
        return false;
      }
      var got := GatheredPair(relinTwo.seen + {point}, AddPair(relinTwo.sum, wire));
      relinTwo := got;
      if |got.seen| != |roster.operators| {
        return true;
      }
      relinKey, stage := Some((got.sum.0 + got.sum.1, relinOne.sum.1)), GaloisRound;
      StartGaloisElement(x);
      return true;
    }

    method AcceptGalois(x: Scheme, point: int, element: int, wire: int) returns (ok: bool)
      requires ValidScheme(x)
      modifies this
      ensures var next := AcceptGaloisShare(x, old(View()), point, element, wire); ok == next.Some? && View() == Or(next, old(View()))
    {
      if CurrentGalois(x, View()).None? || !Fresh(roster, point, galoisShares.seen) || stream.None? {
        return false;
      }
      if element != x.elements[galoisIndex] {
        return false;
      }
      var got := Gathered(galoisShares.seen + {point}, galoisShares.sum + wire);
      galoisShares := got;
      if |got.seen| != |roster.operators| {
        return true;
      }
      galoisKeys, galoisIndex := galoisKeys + [(got.sum, crp)], galoisIndex + 1;
      if galoisIndex == ROTATIONS {
        complete := true;
        return true;
      }
      StartGaloisElement(x);
      return true;
    }

    /** Any delivery moves the object exactly as the stage machine moves; in particular a refused one changes nothing. */
    method Dispatch(x: Scheme, d: Delivery)
      requires ValidScheme(x)
      modifies this
      ensures View() == Gather(x, old(View()), d)
    {
      match d
      case DeliverContribution(point, value) => var _ := AcceptCrsContribution(point, value);
      case DeliverSealCrs => var _ := SealCrs(x);
      case DeliverPublicKey(point, wire) => var _ := AcceptPublicKey(x, point, wire);
      case DeliverRelinOne(point, pair) => var _ := AcceptRelinShareOne(point, pair);
      case DeliverRelinTwo(point, pair) => var _ := AcceptRelinShareTwo(x, point, pair);
      case DeliverGalois(point, element, wire) => var _ := AcceptGalois(x, point, element, wire);
    }
  }

  // ----- attestations

  /** The signature of an attestation verifies against the roster key of its point, for these digests. */
  predicate AttestationVerifies(r: Roster, d: Digests, a: Attestation) {
    KeyOf(r, a.point, a.signer) && a.digests == d
  }

  /** VerifyCeremonyAttestations: every roster member signed the same digests, once. */
  method VerifyAttestations(r: Roster, d: Digests, attestations: seq<Attestation>) returns (ok: bool)
    ensures ok <==>
      && ValidRoster(r)
      && (forall i :: 0 <= i < |attestations| ==> AttestationVerifies(r, d, attestations[i]))
      && (forall i, j :: 0 <= i < j < |attestations| ==> attestations[i].point != attestations[j].point)
      && |attestations| == |r.operators|
  {
    var valid := Validate(r);
    if !valid {
      return false;
    }
    var seen: set<int> := {};
    for k := 0 to |attestations|
      invariant forall i :: 0 <= i < k ==> AttestationVerifies(r, d, attestations[i])
      invariant forall i, j :: 0 <= i < j < k ==> attestations[i].point != attestations[j].point
      invariant forall i :: 0 <= i < k ==> attestations[i].point in seen
      invariant forall p <- seen :: exists i :: 0 <= i < k && attestations[i].point == p
      invariant |seen| == k
    {
      var a := attestations[k];
      if !Contains(r, a.point) {
        assert !AttestationVerifies(r, d, attestations[k]);
        return false;
      }
      if a.point in seen {
        return false;
      }
      if !AttestationVerifies(r, d, a) {
        return false;
      }
      seen := seen + {a.point};
    }
    return |seen| == |r.operators|;
  }
}
