/** What the release gate guarantees: for any coordinator, for one honest operator, and for a whole honest coalition. */
module ReleaseGateGuarantees {
  import opened Basics
  import opened SlotVectors
  import opened PolicyCircuit
  import opened Enrollments
  import opened SecretSharing
  import opened ReleaseGate
  import opened CeremonyShares
  import opened CeremonyForms
  import opened CeremonyDriver
  import Ceremony
  import SessionLedger
  import BitEncoding

  // ----- any coordinator, any responses

  /** What an index by id finds: the last operator listed under the id, and nothing when there is none. */
  lemma {:induction false} LookupFindsLast(ops: seq<Public>, id: Digest)
    ensures Lookup(ops, id).None? <==> forall k :: 0 <= k < |ops| ==> ops[k].operatorId != id
    ensures Lookup(ops, id).Some? ==>
      exists k :: 0 <= k < |ops| && ops[k] == Lookup(ops, id).value && ops[k].operatorId == id &&
                  forall j :: k < j < |ops| ==> ops[j].operatorId != id
  {
    if ops != [] && ops[|ops| - 1].operatorId != id {
      var n := |ops| - 1;
      LookupFindsLast(ops[..n], id);
      if Lookup(ops[..n], id).Some? {
        var k :| 0 <= k < n && ops[..n][k] == Lookup(ops[..n], id).value && ops[..n][k].operatorId == id &&
                 forall j :: k < j < n ==> ops[..n][j].operatorId != id;
        assert ops[k] == Lookup(ops, id).value;
        forall j | k < j < |ops|
          ensures ops[j].operatorId != id
        {
          if j < n {
            assert ops[..n][j].operatorId != id;
          }
        }
      } else {
        forall k | 0 <= k < |ops|
          ensures ops[k].operatorId != id
        {
          if k < n {
            assert ops[..n][k].operatorId != id;
          }
        }
      }
    }
  }

  /**
   Whose word a combination is: every response comes under an id the manifest lists, from that operator's point, which
   the descriptor names, and its signature is by that operator's listed key over this very descriptor, id, point and share.
   */
  lemma {:induction false} QuorumIsSigned(x: Scheme, d: SlotDescriptor, m: Manifest, c: Cipher, responses: seq<Response>, i: nat)
    requires Quorum(x, d, m, c, responses) && i < 2
    ensures m.threshold == 2 && |responses| == 2 && responses[0].point != responses[1].point
    ensures d.keyId == m.keyId && d.fingerprint == m.fingerprint && d.commitment == OfCiphertext(c) && d.binding == ProtocolOf(m.keyId, x.c1(c))
    ensures d.session != Zero && d.policyId != Zero && d.policyVersion == 1 && d.inputA != Zero && d.inputB != Zero
    ensures d.nonce != 0 && d.validUntil != 0 && d.coalition.0 != 0 && d.coalition.1 != 0 && d.coalition.0 != d.coalition.1
    ensures exists k :: 0 <= k < |m.operators| && SignedBy(m.operators[k], d, responses[i])
  {
    var r := responses[i];
    assert GoodResponse(m, d, r);
    LookupFindsLast(m.operators, r.operatorId);
    var k :| 0 <= k < |m.operators| && m.operators[k] == Lookup(m.operators, r.operatorId).value && m.operators[k].operatorId == r.operatorId;
    assert SignedBy(m.operators[k], d, r);
  }

  /** The listed operator `p` signed the response `r` for `d`. */
  predicate SignedBy(p: Public, d: SlotDescriptor, r: Response) {
    && r.operatorId == p.operatorId && r.point == p.point && (p.point == d.coalition.0 || p.point == d.coalition.1)
    && r.session == d.session && r.binding == d.binding && r.share.Some? && r.shareDigest == r.share
    && r.signature.key == p.key && r.signature.message == r.statement == Statement(d, p.operatorId, p.point, r.share)
  }

  /** A combination that goes through used exactly the two named coalition members, each once, as the manifest lists them. */
  lemma {:induction false} CombinesTheNamedPair(x: Scheme, d: SlotDescriptor, m: Manifest, c: Cipher, responses: seq<Response>)
    requires Quorum(x, d, m, c, responses)
    ensures {responses[0].point, responses[1].point} == {d.coalition.0, d.coalition.1} && d.coalition.0 != d.coalition.1
    ensures forall i :: 0 <= i < 2 ==>
      var o := Lookup(m.operators, responses[i].operatorId); o.Some? && o.value.point == responses[i].point
  {
    assert GoodResponse(m, d, responses[0]) && GoodResponse(m, d, responses[1]);
    assert responses[0].point != responses[1].point;
  }

  /**
   One signature serves one bit of one session: whatever two slot descriptors a signature is accepted under,
   by whichever manifests, they are for the same slot, session, ciphertext and coalition.
   */
  lemma {:induction false} BitsNeverMix(
      x: Scheme, d: Descriptor, c: Cipher, coalition: (int, int), slot: nat, keyId: Digest, m: Manifest, r: Response,
      x': Scheme, d': Descriptor, c': Cipher, coalition': (int, int), slot': nat, keyId': Digest, m': Manifest, r': Response)
    requires GoodResponse(m, DescriptorForSlot(x, d, c, coalition, slot, keyId), r)
    requires GoodResponse(m', DescriptorForSlot(x', d', c', coalition', slot', keyId'), r')
    requires r.signature == r'.signature
    ensures slot == slot' && d.session == d'.session && c == c' && coalition == coalition'
    ensures d.enrollmentA == d'.enrollmentA && d.enrollmentB == d'.enrollmentB && r.share == r'.share
  {
  }

  // ----- one honest operator

  /** A request an operator was shown, what its ledger said and when. */
  datatype Served = Served(request: Request, state: Option<SessionLedger.State>, now: int)

  predicate Accepts(o: Operator, s: Served) {
    Authorized(o, s.request, s.state, s.now)
  }

  function Recomputed(r: Request): Outputs
    requires r.inputs.WellShaped()
  {
    CircuitV5(r.inputs.SideA(), r.inputs.SideB())
  }

  /** The statements an honest operator signs for one request: none unless it accepts. */
  ghost function StatementsFor(x: ReleaseGate.Scheme, o: Operator, s: Served): set<Statement>
    requires Prime(x.q)
  {
    if !Accepts(o, s) then {} else StatementsAbout(x, o, s.request, Recomputed(s.request))
  }

  ghost function StatementsAbout(x: ReleaseGate.Scheme, o: Operator, r: Request, out: Outputs): set<Statement>
    requires Prime(x.q)
  {
    var shares := ReleaseShares(x, o, r, Ok(out));
    if shares.Err? then {} else {shares.value.0.statement, shares.value.1.statement}
  }

  /** `c` is the output for `slot`, and `d` describes it for the request `r` under `keyId`. */
  ghost predicate Describes(x: ReleaseGate.Scheme, keyId: Digest, r: Request, out: Outputs, slot: nat, d: SlotDescriptor, c: Cipher) {
    slot <= 1 && c == OutputFor(out, slot) && d == DescriptorForSlot(x, r.descriptor, c, r.coalition, slot, keyId)
  }

  /** The honest operator accepted `s`, and `c` and `d` are its own output and descriptor for `slot`. */
  ghost predicate OwnOutput(x: ReleaseGate.Scheme, o: Operator, s: Served, slot: nat, d: SlotDescriptor, c: Cipher) {
    Accepts(o, s) && Describes(x, o.keyId, s.request, Recomputed(s.request), slot, d, c)
  }

  /** `st` is the operator's statement for `d`: its id and point, and its own additive share of `c`. */
  ghost predicate OwnShare(x: ReleaseGate.Scheme, o: Operator, d: SlotDescriptor, c: Cipher, st: Statement) {
    && Prime(x.q) && Points(x.q, [d.coalition.0, d.coalition.1]) && InCoalition(d.coalition, o.point)
    && st.descriptor == d && st.operatorId == OfKey(o.signingKey) && st.point == o.point
    && st.share == Some(AdditiveShare(x.q, d.coalition, o.point, o.share) * x.c1(c))
  }

  /**
   When an operator shares and what it then sends: a complete descriptor for its key and parameters, of this very
   ciphertext, naming it in a coalition of two points fit for the field; its additive share of the ciphertext, under its
   own id and point, in a statement of the whole descriptor signed with its own key.
   */
  lemma {:induction false} GeneratesExactly(x: ReleaseGate.Scheme, o: Operator, d: SlotDescriptor, c: Cipher)
    requires Prime(x.q)
    ensures GenerateShare(x, o, d, c).Ok? <==>
              && d.session != Zero && d.policyId != Zero && d.policyVersion == 1 && d.inputA != Zero && d.inputB != Zero
              && d.nonce > 0 && d.validUntil > 0 && Zero != o.keyId == d.keyId && Zero != o.fingerprint == d.fingerprint
              && d.commitment == OfCiphertext(c) && d.binding == ProtocolOf(o.keyId, x.c1(c))
              && d.coalition.0 != 0 && d.coalition.1 != 0 && d.coalition.0 != d.coalition.1
              && (d.coalition.0 == o.point || d.coalition.1 == o.point) && Points(x.q, [d.coalition.0, d.coalition.1])
    ensures GenerateShare(x, o, d, c).Ok? ==>
      var r := GenerateShare(x, o, d, c).value;
      && r.operatorId == OfKey(o.signingKey) && r.point == o.point && r.session == d.session && r.binding == d.binding
      && r.share == r.shareDigest == Some(AdditiveShare(x.q, d.coalition, o.point, o.share) * x.c1(c))
      && r.statement == Statement(d, OfKey(o.signingKey), o.point, r.share) && r.signature == Signature(o.signingKey, r.statement)
  {
  }

  lemma {:induction false} GeneratedIsOwn(x: ReleaseGate.Scheme, o: Operator, d: SlotDescriptor, c: Cipher)
    requires Prime(x.q) && GenerateShare(x, o, d, c).Ok?
    ensures OwnShare(x, o, d, c, GenerateShare(x, o, d, c).value.statement)
  {
  }

  lemma {:induction false} ShareForIsOwn(x: ReleaseGate.Scheme, o: Operator, r: Request, out: Outputs, slot: nat)
    requires Prime(x.q) && ShareFor(x, o, r, out, slot).Ok?
    ensures var c := OutputFor(out, slot);
            OwnShare(x, o, DescriptorForSlot(x, r.descriptor, c, r.coalition, slot, o.keyId), c, ShareFor(x, o, r, out, slot).value.statement)
  {
    var c := OutputFor(out, slot);
    GeneratedIsOwn(x, o, DescriptorForSlot(x, r.descriptor, c, r.coalition, slot, o.keyId), c);
  }

  lemma {:induction false} SharesAreOwn(x: ReleaseGate.Scheme, o: Operator, r: Request, out: Outputs, st: Statement) returns (slot: nat, c: Cipher)
    requires Prime(x.q) && st in StatementsAbout(x, o, r, out)
    ensures Describes(x, o.keyId, r, out, slot, st.descriptor, c) && OwnShare(x, o, st.descriptor, c, st)
  {
    slot := if st == ReleaseShares(x, o, r, Ok(out)).value.0.statement then 0 else 1;
    c := OutputFor(out, slot);
    ShareForIsOwn(x, o, r, out, slot);
  }

  /** Every statement an honest operator signs is for a request it accepted, one slot of it, its own output there and its own share. */
  lemma {:induction false} StatementIsOwn(x: ReleaseGate.Scheme, o: Operator, s: Served, st: Statement) returns (slot: nat, c: Cipher)
    requires Prime(x.q) && st in StatementsFor(x, o, s)
    ensures OwnOutput(x, o, s, slot, st.descriptor, c) && OwnShare(x, o, st.descriptor, c, st)
  {
    slot, c := SharesAreOwn(x, o, s.request, Recomputed(s.request), st);
  }

  /**
   Whatever a coordinator shows an honest operator and however it combines: if a combination that goes through
   carries that operator's signature, and the operator's key signed nothing else, then the ciphertext that was
   opened is the output the operator itself recomputed, for a request it accepted.
   */
  lemma {:induction false} OnlyOwnOutputsAreReleased(
      x: ReleaseGate.Scheme, o: Operator, history: seq<Served>, d: SlotDescriptor, m: Manifest, c: Cipher, responses: seq<Response>, i: nat)
    requires Prime(x.q) && Quorum(x, d, m, c, responses) && i < |responses|
    requires exists k :: 0 <= k < |history| && responses[i].signature.message in StatementsFor(x, o, history[k])
    ensures exists k, slot :: 0 <= k < |history| && OwnOutput(x, o, history[k], slot, d, c)
  {
    var k :| 0 <= k < |history| && responses[i].signature.message in StatementsFor(x, o, history[k]);
    var st := responses[i].signature.message;
    assert GoodResponse(m, d, responses[i]) && st.descriptor == d;
    var slot, own := StatementIsOwn(x, o, history[k], st);
    assert d.commitment == OfCiphertext(c) == OfCiphertext(own);
    assert OwnOutput(x, o, history[k], slot, d, c);
  }

  // ----- what an accepted request is

  /** The three ciphertexts a participant submits for a pledge. */
  function PledgeSide(p: Pledge): Digest {
    OfSide(Polynomials(2, SLOTS, Encode(p).policyBits), Polynomials(2, SLOTS, Encode(p).currencyBits), Polynomials(2, SLOTS, Encode(p).receivableBits))
  }

  /**
   What an operator must be shown, condition by condition: its own key, parameters and runtime, a live descriptor, two
   enrollments it verifies itself and that pair, both named by the descriptor together with their session, the received
   ciphertexts being the enrolled ones, its own recomputation of the outputs, a coalition it is in, and a session it has
   not settled.
   */
  predicate Acceptable(o: Operator, s: Served) {
    AcceptableOffer(o, s) && AcceptableWork(o, s)
  }

  /** The descriptor and the two enrollments it names. */
  predicate AcceptableOffer(o: Operator, s: Served) {
    var r, d := s.request, s.request.descriptor;
    && d.circuitVersion == 5 && d.policyVersion == 1 && d.policyId != Zero
    && Zero != o.keyId == d.keyId && Zero != o.fingerprint == d.fingerprint && Zero != o.identity == d.runtime
    && 0 <= s.now <= d.expiresAt && 0 < d.expiresAt
    && r.enrollmentA.Some? && r.enrollmentB.Some?
    && VerifyEnrollment(o.evaluator, r.enrollmentA, s.now).Ok? && VerifyEnrollment(o.evaluator, r.enrollmentB, s.now).Ok?
    && PairEnrollments(r.enrollmentA, r.enrollmentB).Ok?
    && (var a, b := r.enrollmentA.value.enrollment, r.enrollmentB.value.enrollment;
        && d.session == a.binding.session && d.nullifier == a.binding.nullifier
        && d.enrollmentA == OfEnrollment(a) && d.enrollmentB == OfEnrollment(b))
  }

  /** The received ciphertexts, their recomputation, and whose turn it is. */
  predicate AcceptableWork(o: Operator, s: Served) {
    var r, d := s.request, s.request.descriptor;
    && r.enrollmentA.Some? && r.enrollmentB.Some?
    && r.enrollmentA.value.enrollment.ciphertexts == OfSide(r.inputs.policyA, r.inputs.currencyA, r.inputs.receivableA)
    && r.enrollmentB.value.enrollment.ciphertexts == OfSide(r.inputs.policyB, r.inputs.currencyB, r.inputs.receivableB)
    && r.inputs.WellShaped() && d.inputs == OfInputs(r.inputs) && d.outputs == OfOutputs(Recomputed(r))
    && (r.coalition.0 == o.point || r.coalition.1 == o.point)
    && (s.state.None? || s.state.value == SessionLedger.Reserved)
  }

  lemma {:induction false} AcceptedOffer(o: Operator, s: Served)
    requires Accepts(o, s)
    ensures AcceptableOffer(o, s)
  {
    PairedMeans(s.request.enrollmentA.value, s.request.enrollmentB.value);
  }

  lemma {:induction false} AcceptedWork(o: Operator, s: Served)
    requires Accepts(o, s)
    ensures AcceptableWork(o, s)
  {
  }

  lemma {:induction false} AcceptableFits(o: Operator, s: Served)
    requires Acceptable(o, s)
    ensures EnrollmentsFit(o, s.request, s.now) && RecomputationFits(o, s.request, s.state)
    ensures DescriptorFits(o, s.request.descriptor, s.now)
  {
    PairedMeans(s.request.enrollmentA.value, s.request.enrollmentB.value);
    VerifyEnrollmentExactly(o.evaluator, s.request.enrollmentA.value, s.now);
  }

  lemma {:induction false} AcceptableInputs(o: Operator, s: Served)
    requires Acceptable(o, s)
    ensures var r := s.request;
            InputsFit(r.descriptor, r.inputs, r.enrollmentA.value.enrollment.ciphertexts, r.enrollmentB.value.enrollment.ciphertexts)
  {
    PairedMeans(s.request.enrollmentA.value, s.request.enrollmentB.value);
    ShapedIsPresent(s.request.inputs);
  }

  /** An operator accepts exactly the acceptable requests. */
  lemma {:induction false} AcceptsExactly(o: Operator, s: Served)
    ensures Accepts(o, s) <==> Acceptable(o, s)
  {
    if Acceptable(o, s) {
      AcceptableFits(o, s);
      AcceptableInputs(o, s);
    } else if Accepts(o, s) {
      AcceptedOffer(o, s);
      AcceptedWork(o, s);
    }
  }

  lemma {:induction false} ShapedIsPresent(i: CircuitInputs)
    requires i.WellShaped()
    ensures i.Present()
  {
    var xs := i.Ordered();
    assert xs[0] in xs && xs[1] in xs && xs[2] in xs && xs[3] in xs && xs[4] in xs && xs[5] in xs;
  }

  /** One side of an accepted request: issued, in time, for this operator's key, by an issuer it trusts, who signed this enrollment. */
  predicate Vouched(o: Operator, now: int, side: SignedEnrollment) {
    var e := side.enrollment;
    && e.issuer in o.evaluator.issuers && !o.evaluator.issuers[e.issuer].revoked
    && side.signature == Signature(o.evaluator.issuers[e.issuer].key, OfEnrollment(e))
    && e.issuedAt <= now <= e.validUntil && e.keyId == o.evaluator.keyId && e.fingerprint == o.evaluator.fingerprint
    && e.authorization == AuthorizationOf(e.claim, e.keyId) && e.claim.policyId == e.policyId && e.validUntil <= e.claim.validUntil
  }

  /**
   An accepted request is for one session, both of its enrollments carry the signature of an issuer this operator
   trusts, its inputs are the ones they authorize, and its outputs are in no case (not same, but conflicting). If the
   participants enrolled encodings of their pledges, the outputs are the policy's two answers.
   */
  lemma {:induction false} AcceptedRequest(o: Operator, s: Served)
    requires Accepts(o, s)
    ensures s.request.enrollmentA.Some? && s.request.enrollmentB.Some?
    ensures Vouched(o, s.now, s.request.enrollmentA.value) && Vouched(o, s.now, s.request.enrollmentB.value)
    ensures var r, a, b := s.request, s.request.enrollmentA.value.enrollment, s.request.enrollmentB.value.enrollment;
            var out := Recomputed(r);
            && a.binding.session == b.binding.session == r.descriptor.session && a.binding.slot == 0 && b.binding.slot == 1
            && a.binding.own == b.binding.counterparty && b.binding.own == a.binding.counterparty && a.policyId == b.policyId
            && r.descriptor.enrollmentA == OfEnrollment(a) && r.descriptor.enrollmentB == OfEnrollment(b)
            && a.ciphertexts == OfSide(r.inputs.policyA, r.inputs.currencyA, r.inputs.receivableA)
            && b.ciphertexts == OfSide(r.inputs.policyB, r.inputs.currencyB, r.inputs.receivableB)
            && r.descriptor.outputs == OfOutputs(out)
            && OnlySlotZero(out.sameAsset) && OnlySlotZero(out.conflict)
            && (out.sameAsset.slots[0] == 0 ==> out.conflict.slots[0] == 0)
  {
    var r := s.request;
    AcceptsExactly(o, s);
    VerifyEnrollmentExactly(o.evaluator, r.enrollmentA.value, s.now);
    VerifyEnrollmentExactly(o.evaluator, r.enrollmentB.value, s.now);
    PairedMeans(r.enrollmentA.value, r.enrollmentB.value);
    ArbitraryInputs(r.inputs.SideA(), r.inputs.SideB());
  }

  lemma {:induction false} AcceptedPledges(o: Operator, s: Served, a: Pledge, b: Pledge)
    requires Accepts(o, s)
    requires s.request.enrollmentA.value.enrollment.ciphertexts == PledgeSide(a)
    requires s.request.enrollmentB.value.enrollment.ciphertexts == PledgeSide(b)
    ensures Recomputed(s.request).sameAsset.slots == [BitEncoding.Bit(PlainSameAsset(a, b))] + Zeros(SLOTS - 1)
    ensures Recomputed(s.request).conflict.slots == [BitEncoding.Bit(PlainConflict(a, b))] + Zeros(SLOTS - 1)
  {
    AcceptedRequest(o, s);
    assert s.request.inputs.SideA() == Encode(a) && s.request.inputs.SideB() == Encode(b);
    CircuitDecidesPolicy(a, b);
  }

  // ----- an honest coalition

  /** Shares whose weights recombine to the secret open what the secret opens. */
  lemma {:induction false} RecombinedOpens(x: ReleaseGate.Scheme, secret: int, u: int, v: int, c: Cipher)
    requires Opens(x, secret, c) && Cong(x.q, u + v, secret)
    ensures x.decode((x.c0(c) + (u * x.c1(c) + v * x.c1(c))) % x.q) == c.slots
  {
    var a, b := x.c0(c), x.c1(c);
    CongScale(x.q, u + v, secret, b);
    CongRefl(x.q, a);
    CongAdd(x.q, a, a, b * (u + v), b * secret);
    assert b * (u + v) == u * b + v * b && b * secret == secret * b;
    SameResidue(x.q, a + b * (u + v), a + b * secret);
  }

  /** The two additive shares of a coalition add up to what its members' shares combine to. */
  lemma {:induction false} AdditivePair(q: int, p: int, p': int, share: int, share': int)
    requires Prime(q) && Points(q, [p, p']) && p != p'
    ensures AdditiveShare(q, (p, p'), p, share) + AdditiveShare(q, (p, p'), p', share') == Combined(q, [p, p'], [share, share'], 0)
  {
    var xs := [p, p'];
    OthersApart(q, xs, 0);
    OthersApart(q, xs, 1);
    assert Combined(q, xs, [share, share'], 2) == 0;
    assert Combined(q, xs, [share, share'], 1) == Weight(q, Without(xs, 1), xs[1]) * share';
  }

  /** Operator `t` of a completed ceremony, as the manifest lists it. */
  ghost predicate Sealed(ms: seq<Ceremony.Member>, shares: seq<int>, man: Manifest, t: nat, o: Operator) {
    && t < |ms| == |shares| && o.point == t + 1 && o.share == shares[t] && o.signingKey == ms[t].key
    && o.keyId == man.keyId && o.fingerprint == man.fingerprint
    && Lookup(man.operators, OfKey(o.signingKey)) == Some(Public(OfKey(o.signingKey), o.point, o.signingKey))
  }

  /** Two responses for one descriptor, generated by two listed operators of the coalition, are a quorum. */
  lemma {:induction false} GeneratedAreQuorum(
      x: ReleaseGate.Scheme, d: SlotDescriptor, man: Manifest, c: Cipher, ms: seq<Ceremony.Member>, shares: seq<int>,
      i: nat, o: Operator, j: nat, o': Operator)
    requires Prime(x.q) && Sealed(ms, shares, man, i, o) && Sealed(ms, shares, man, j, o') && i != j && man.threshold == 2
    requires GenerateShare(x, o, d, c).Ok? && GenerateShare(x, o', d, c).Ok?
    ensures Quorum(x, d, man, c, [GenerateShare(x, o, d, c).value, GenerateShare(x, o', d, c).value])
  {
    var r, r' := GenerateShare(x, o, d, c).value, GenerateShare(x, o', d, c).value;
    assert GoodResponse(man, d, r) && GoodResponse(man, d, r');
  }

  /** Their shares recombine: the quorum decodes to the slots of the ciphertext. */
  lemma {:induction false} QuorumDecodes(
      x: ReleaseGate.Scheme, d: SlotDescriptor, c: Cipher, o: Operator, o': Operator, secret: int)
    requires Prime(x.q) && Opens(x, secret, c) && d.coalition == (o.point, o'.point) && o.point != o'.point
    requires Points(x.q, [o.point, o'.point]) && Cong(x.q, Combined(x.q, [o.point, o'.point], [o.share, o'.share], 0), secret)
    requires GenerateShare(x, o, d, c).Ok? && GenerateShare(x, o', d, c).Ok?
    ensures Decoded(x, c, [GenerateShare(x, o, d, c).value, GenerateShare(x, o', d, c).value]) == c.slots
  {
    var u, v := AdditiveShare(x.q, d.coalition, o.point, o.share), AdditiveShare(x.q, d.coalition, o'.point, o'.share);
    AdditivePair(x.q, o.point, o'.point, o.share, o'.share);
    RecombinedOpens(x, secret, u, v, c);
    var rs := [GenerateShare(x, o, d, c).value, GenerateShare(x, o', d, c).value];
    assert rs[0].share == Some(u * x.c1(c)) && rs[1].share == Some(v * x.c1(c));
    assert SharesTo(rs, 1) == rs[0].share.value;
    assert SharesTo(rs, 2) == u * x.c1(c) + v * x.c1(c);
  }

  /** An operator that accepts a request with a proper coalition shares any output for either slot. */
  lemma {:induction false} AcceptedIsShared(x: ReleaseGate.Scheme, o: Operator, s: Served, c: Cipher, slot: nat)
    requires Prime(x.q) && Accepts(o, s)
    requires var (p, p') := s.request.coalition; p != 0 && p' != 0 && p != p' && Points(x.q, [p, p'])
    ensures GenerateShare(x, o, DescriptorForSlot(x, s.request.descriptor, c, s.request.coalition, slot, o.keyId), c).Ok?
  {
  }

  /** The two members' points are fit for the field, and their shares recombine to the collective secret. */
  lemma {:induction false} PairReconstructs(
      cx: Ceremony.Scheme, r: Ceremony.Roster, ms: seq<Ceremony.Member>, policyId: int, mat: Material, q: int, i: nat, j: nat)
    requires Ceremony.ValidScheme(cx) && Driven(r, ms) && Completed(cx, r, ms, policyId, mat) && r.threshold == 2
    requires Prime(q) && |ms| < q && i < |ms| && j < |ms| && i != j
    ensures Points(q, [i + 1, j + 1])
    ensures Cong(q, Combined(q, [i + 1, j + 1], [mat.shares[i], mat.shares[j]], 0), SecretSum(ms, |ms|))
  {
    var coalition: seq<nat> := [i, j];
    CompletedReconstructs(cx, r, ms, policyId, mat, q, coalition);
    var xs := seq(|coalition|, k requires 0 <= k < |coalition| => coalition[k] + 1);
    var shares := seq(|coalition|, k requires 0 <= k < |coalition| => mat.shares[coalition[k]]);
    assert xs == [i + 1, j + 1] && shares == [mat.shares[i], mat.shares[j]];
  }

  /** Both operators share for `d`, and their two responses are a quorum that decodes to `slots`. */
  ghost predicate PairOpens(x: ReleaseGate.Scheme, man: Manifest, o: Operator, o': Operator, d: SlotDescriptor, c: Cipher, slots: seq<nat>) {
    Prime(x.q) &&
    var g, g' := GenerateShare(x, o, d, c), GenerateShare(x, o', d, c);
    g.Ok? && g'.Ok? && Quorum(x, d, man, c, [g.value, g'.value]) && Decoded(x, c, [g.value, g'.value]) == slots
  }

  /** What the two operators release for one slot: their responses form a quorum that decodes to the output's slots. */
  lemma {:induction false} SlotReleases(
      x: ReleaseGate.Scheme, ms: seq<Ceremony.Member>, shares: seq<int>, man: Manifest, secret: int,
      i: nat, o: Operator, s: Served, j: nat, o': Operator, s': Served, c: Cipher, slot: nat)
    requires Prime(x.q) && Opens(x, secret, c) && Sealed(ms, shares, man, i, o) && Sealed(ms, shares, man, j, o') && i != j && man.threshold == 2
    requires Points(x.q, [i + 1, j + 1]) && Cong(x.q, Combined(x.q, [i + 1, j + 1], [shares[i], shares[j]], 0), secret)
    requires Accepts(o, s) && Accepts(o', s') && s.request == s'.request && s.request.coalition == (i + 1, j + 1)
    ensures PairOpens(x, man, o, o', DescriptorForSlot(x, s.request.descriptor, c, s.request.coalition, slot, man.keyId), c, c.slots)
  {
    var d := DescriptorForSlot(x, s.request.descriptor, c, s.request.coalition, slot, man.keyId);
    AcceptedIsShared(x, o, s, c, slot);
    AcceptedIsShared(x, o', s', c, slot);
    GeneratedAreQuorum(x, d, man, c, ms, shares, i, o, j, o');
    QuorumDecodes(x, d, c, o, o', secret);
  }

  /** Both operators share for `d`, their responses combine, and the combination says `bit`. */
  ghost predicate Releases(x: ReleaseGate.Scheme, man: Manifest, o: Operator, o': Operator, d: SlotDescriptor, c: Cipher, bit: bool) {
    exists slots :: PairOpens(x, man, o, o', d, c, slots) && Canonical(slots) && (slots[0] == 1 <==> bit)
  }

  lemma {:induction false} BitIsCanonical(slots: seq<nat>, bit: bool)
    requires slots == [BitEncoding.Bit(bit)] + Zeros(SLOTS - 1)
    ensures Canonical(slots) && (slots[0] == 1 <==> bit)
  {
  }

  /**
   From ceremony to released bits. Any two operators of any completed 2-of-n ceremony that both accept one request,
   in which the participants enrolled encodings of their pledges, release shares that combine, and the two bits
   that come out are the plain policy's: same asset, and conflict.
   */
  lemma {:induction false} CoalitionReleasesThePolicy(
      x: ReleaseGate.Scheme, cx: Ceremony.Scheme, r: Ceremony.Roster, ms: seq<Ceremony.Member>, policyId: int, mat: Material, man: Manifest,
      i: nat, o: Operator, s: Served, j: nat, o': Operator, s': Served, a: Pledge, b: Pledge)
    requires Ceremony.ValidScheme(cx) && Driven(r, ms) && Completed(cx, r, ms, policyId, mat) && r.threshold == 2
    requires Prime(x.q) && |ms| < x.q
    requires Sealed(ms, mat.shares, man, i, o) && Sealed(ms, mat.shares, man, j, o') && i != j && man.threshold == 2
    requires Accepts(o, s) && Accepts(o', s') && s.request == s'.request && s.request.coalition == (i + 1, j + 1)
    requires s.request.enrollmentA.value.enrollment.ciphertexts == PledgeSide(a)
    requires s.request.enrollmentB.value.enrollment.ciphertexts == PledgeSide(b)
    requires Opens(x, SecretSum(ms, |ms|), Recomputed(s.request).sameAsset) && Opens(x, SecretSum(ms, |ms|), Recomputed(s.request).conflict)
    ensures var out, q := Recomputed(s.request), s.request;
            && Releases(x, man, o, o', DescriptorForSlot(x, q.descriptor, out.sameAsset, q.coalition, 0, man.keyId), out.sameAsset, PlainSameAsset(a, b))
            && Releases(x, man, o, o', DescriptorForSlot(x, q.descriptor, out.conflict, q.coalition, 1, man.keyId), out.conflict, PlainConflict(a, b))
  {
    var out := Recomputed(s.request);
    PairReconstructs(cx, r, ms, policyId, mat, x.q, i, j);
    AcceptedPledges(o, s, a, b);
    SlotReleases(x, ms, mat.shares, man, SecretSum(ms, |ms|), i, o, s, j, o', s', out.sameAsset, 0);
    SlotReleases(x, ms, mat.shares, man, SecretSum(ms, |ms|), i, o, s, j, o', s', out.conflict, 1);
    BitIsCanonical(out.sameAsset.slots, PlainSameAsset(a, b));
    BitIsCanonical(out.conflict.slots, PlainConflict(a, b));
  }
}
