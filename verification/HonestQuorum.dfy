/**
 Honest parties at the release gate: the request a case's coordinator builds is accepted by the operators it names, and
 whatever combination goes through over honest operators' signatures opens their own recomputed output.
 */
module HonestQuorum {
  import opened Basics
  import opened SlotVectors
  import opened PolicyCircuit
  import opened Enrollments
  import opened SecretSharing
  import opened ReleaseGate
  import opened CeremonyShares
  import opened CeremonyForms
  import opened CeremonyDriver
  import opened ReleaseGateGuarantees
  import Ceremony
  import SessionLedger
  import BitEncoding

  // ----- an honest coordinator

  /** The release request of a case: its descriptor names the verified pair, the inputs and the recomputed outputs. */
  function CaseRequest(
      f: Facts, paired: Paired, a: SignedEnrollment, b: SignedEnrollment, inputs: CircuitInputs, runtime: Digest, keyId: Digest,
      fingerprint: Digest, coalition: (int, int)): Request
    requires inputs.WellShaped() && f.expires >= 0
  {
    Request(Descriptor(paired.session, paired.nullifier, paired.enrollmentA, paired.enrollmentB, OfInputs(inputs),
                       OfOutputs(CircuitV5(inputs.SideA(), inputs.SideB())), CIRCUIT_VERSION, runtime, keyId, fingerprint,
                       f.policyId, POLICY_VERSION, f.expires),
            Some(a), Some(b), inputs, coalition)
  }

  /** Both enrollments of an open gate verify before an evaluator that registered the case's issuers. */
  lemma {:induction false} OpenGateVerifies(
      adapters: Adapters, v: Evaluator, f: Facts, ta: Artifact, da: Digest, ia: Digest, tb: Artifact, db: Digest, ib: Digest,
      storedA: Record, storedB: Record, now: int)
    requires VerifyCaseEnrollments(adapters, v, f, ta, da, ia, tb, db, ib, storedA, storedB, now).Ok?
    ensures Reconstruct(adapters, f, ta, da, RoleA, ia, storedA).Ok? && Reconstruct(adapters, f, tb, db, RoleB, ib, storedB).Ok?
    ensures RegisterIssuers(v, f).Ok? && RegisterIssuers(v, f).value.keyId == v.keyId && RegisterIssuers(v, f).value.fingerprint == v.fingerprint
    ensures VerifyEnrollment(RegisterIssuers(v, f).value, Some(Reconstruct(adapters, f, ta, da, RoleA, ia, storedA).value), now).Ok?
    ensures VerifyEnrollment(RegisterIssuers(v, f).value, Some(Reconstruct(adapters, f, tb, db, RoleB, ib, storedB).value), now).Ok?
    ensures f.policyId != Zero && 0 < f.created <= now <= f.expires && f.publicKey == v.keyId && f.fingerprint == v.fingerprint
  {
    CaseGateExact(adapters, v, f, ta, da, ia, tb, db, ib, storedA, storedB, now);
    IssuersExact(v, f);
    WindowsExact(adapters, v, f, ta, da, ia, tb, db, ib, storedA, storedB, now);
    RecordExactly(adapters, f, ta, da, RoleA, ia, storedA);
    BuildsExactly(adapters, f, ta, da, RoleA, ia);
  }

  /** The request built from two verified enrollments that pair. */
  lemma {:induction false} PairedRequestIsAccepted(
      f: Facts, paired: Paired, a: SignedEnrollment, b: SignedEnrollment, inputs: CircuitInputs, coalition: (int, int),
      o: Operator, state: Option<SessionLedger.State>, now: int)
    requires inputs.WellShaped() && f.policyId != Zero && 0 < now <= f.expires
    requires VerifyEnrollment(o.evaluator, Some(a), now).Ok? && VerifyEnrollment(o.evaluator, Some(b), now).Ok?
    requires PairEnrollments(Some(a), Some(b)) == Ok(paired)
    requires a.enrollment.ciphertexts == OfSide(inputs.policyA, inputs.currencyA, inputs.receivableA)
    requires b.enrollment.ciphertexts == OfSide(inputs.policyB, inputs.currencyB, inputs.receivableB)
    requires o.keyId != Zero && o.fingerprint != Zero && o.identity != Zero && (coalition.0 == o.point || coalition.1 == o.point)
    requires state.None? || state == Some(SessionLedger.Reserved)
    ensures Accepts(o, Served(CaseRequest(f, paired, a, b, inputs, o.identity, o.keyId, o.fingerprint, coalition), state, now))
  {
    var s := Served(CaseRequest(f, paired, a, b, inputs, o.identity, o.keyId, o.fingerprint, coalition), state, now);
    PairedMeans(a, b);
    assert ReleaseGateGuarantees.Acceptable(o, s);
    AcceptsExactly(o, s);
  }

  /**
   The gate is not shut to honest parties: once a case's enrollments verify, the request built from them is accepted by
   every operator of the coalition that runs the named build, serves the case's key, trusts the case's issuers and has not
   settled the session.
   */
  lemma {:induction false} CaseRequestIsAccepted(
      adapters: Adapters, v: Evaluator, f: Facts, ta: Artifact, da: Digest, ia: Digest, tb: Artifact, db: Digest, ib: Digest,
      storedA: Record, storedB: Record, now: int, inputs: CircuitInputs, coalition: (int, int), o: Operator, state: Option<SessionLedger.State>)
    requires VerifyCaseEnrollments(adapters, v, f, ta, da, ia, tb, db, ib, storedA, storedB, now).Ok?
    requires inputs.WellShaped() && ia == OfSide(inputs.policyA, inputs.currencyA, inputs.receivableA)
    requires ib == OfSide(inputs.policyB, inputs.currencyB, inputs.receivableB)
    requires RegisterIssuers(v, f) == Ok(o.evaluator) && o.keyId == v.keyId && o.fingerprint == v.fingerprint && o.identity != Zero
    requires coalition.0 == o.point || coalition.1 == o.point
    requires state.None? || state == Some(SessionLedger.Reserved)
    ensures var paired := VerifyCaseEnrollments(adapters, v, f, ta, da, ia, tb, db, ib, storedA, storedB, now).value;
            var a := Reconstruct(adapters, f, ta, da, RoleA, ia, storedA);
            var b := Reconstruct(adapters, f, tb, db, RoleB, ib, storedB);
            && a.Ok? && b.Ok? && f.expires >= 0
            && Accepts(o, Served(CaseRequest(f, paired, a.value, b.value, inputs, o.identity, v.keyId, v.fingerprint, coalition), state, now))
  {
    var paired := VerifyCaseEnrollments(adapters, v, f, ta, da, ia, tb, db, ib, storedA, storedB, now).value;
    GateAdmits(adapters, v, f, ta, da, ia, tb, db, ib, storedA, storedB, now);
    OpenGateVerifies(adapters, v, f, ta, da, ia, tb, db, ib, storedA, storedB, now);
    var a := Reconstruct(adapters, f, ta, da, RoleA, ia, storedA).value;
    var b := Reconstruct(adapters, f, tb, db, RoleB, ib, storedB).value;
    VerifyEnrollmentExactly(o.evaluator, a, now);
    PairedRequestIsAccepted(f, paired, a, b, inputs, coalition, o, state, now);
  }

  // ----- honest operators, any coordinator

  /** The manifest lists exactly the members of the ceremony, each under its key's id, at its own point. */
  predicate Lists(man: Manifest, ms: seq<Ceremony.Member>) {
    |man.operators| == |ms| && forall t :: 0 <= t < |ms| ==> man.operators[t] == Public(OfKey(ms[t].key), t + 1, ms[t].key)
  }

  /** An operator of the ceremony together with everything it was ever shown. */
  datatype Seat = Seat(o: Operator, history: seq<Served>)

  /** Seat `t` holds the share and the key of member `t`. */
  predicate Seated(ms: seq<Ceremony.Member>, shares: seq<int>, keyId: Digest, seats: seq<Seat>) {
    |seats| == |ms| == |shares| &&
    forall t :: 0 <= t < |seats| ==>
      var o := seats[t].o; o.point == t + 1 && o.share == shares[t] && o.signingKey == ms[t].key && o.keyId == keyId
  }

  /** No one else signs with the key of seat `t`: what carries it is a statement the operator signed for something it was shown. */
  ghost predicate Unforged(x: ReleaseGate.Scheme, seat: Seat, signature: Signature<Statement>)
    requires Prime(x.q)
  {
    signature.key == seat.o.signingKey ==> exists k :: 0 <= k < |seat.history| && signature.message in StatementsFor(x, seat.o, seat.history[k])
  }

  ghost predicate NoneForged(x: ReleaseGate.Scheme, seats: seq<Seat>, responses: seq<Response>)
    requires Prime(x.q)
  {
    forall t, i :: 0 <= t < |seats| && 0 <= i < |responses| ==> Unforged(x, seats[t], responses[i].signature)
  }

  /** Response `i` of a quorum is the own share, of this very ciphertext, of the seat at its point, for a request it accepted. */
  lemma {:induction false} ResponseIsOwn(
      x: ReleaseGate.Scheme, ms: seq<Ceremony.Member>, shares: seq<int>, man: Manifest, seats: seq<Seat>,
      d: SlotDescriptor, c: Cipher, responses: seq<Response>, i: nat) returns (t: nat, k: nat, slot: nat)
    requires Prime(x.q) && Quorum(x, d, man, c, responses) && i < 2
    requires Lists(man, ms) && Seated(ms, shares, man.keyId, seats) && NoneForged(x, seats, responses)
    ensures t < |seats| && k < |seats[t].history| && responses[i].point == t + 1 && responses[i].share.Some?
    ensures OwnOutput(x, seats[t].o, seats[t].history[k], slot, d, c)
    ensures OwnShare(x, seats[t].o, d, c, responses[i].statement) && responses[i].statement.share == responses[i].share
  {
    QuorumIsSigned(x, d, man, c, responses, i);
    t :| 0 <= t < |man.operators| && SignedBy(man.operators[t], d, responses[i]);
    assert man.operators[t] == Public(OfKey(ms[t].key), t + 1, ms[t].key);
    assert seats[t].o.signingKey == ms[t].key;
    assert Unforged(x, seats[t], responses[i].signature);
    k :| 0 <= k < |seats[t].history| && responses[i].signature.message in StatementsFor(x, seats[t].o, seats[t].history[k]);
    var own;
    slot, own := StatementIsOwn(x, seats[t].o, seats[t].history[k], responses[i].statement);
    assert OfCiphertext(own) == d.commitment == OfCiphertext(c);
  }

  /** The two additive shares of a coalition, whichever response came first. */
  lemma {:induction false} AdditiveEitherWay(q: int, coalition: (int, int), p: int, p': int, share: int, share': int)
    requires Prime(q) && Points(q, [coalition.0, coalition.1]) && p != p'
    requires InCoalition(coalition, p) && InCoalition(coalition, p')
    ensures AdditiveShare(q, coalition, p, share) + AdditiveShare(q, coalition, p', share') ==
            Combined(q, [coalition.0, coalition.1], if coalition.0 == p then [share, share'] else [share', share], 0)
  {
    if coalition.0 == p {
      assert coalition == (p, p');
      AdditivePair(q, p, p', share, share');
    } else {
      assert coalition == (p', p);
      AdditivePair(q, p', p, share', share);
    }
  }

  /** Two own shares of one ciphertext decode to what the secret opens. */
  lemma {:induction false} OwnSharesDecode(
      x: ReleaseGate.Scheme, d: SlotDescriptor, c: Cipher, responses: seq<Response>, o: Operator, o': Operator, secret: int)
    requires Prime(x.q) && Opens(x, secret, c) && |responses| == 2 && o.point != o'.point
    requires responses[0].share.Some? && responses[1].share.Some?
    requires OwnShare(x, o, d, c, responses[0].statement) && responses[0].statement.share == responses[0].share
    requires OwnShare(x, o', d, c, responses[1].statement) && responses[1].statement.share == responses[1].share
    requires Cong(x.q, Combined(x.q, [d.coalition.0, d.coalition.1],
                                if d.coalition.0 == o.point then [o.share, o'.share] else [o'.share, o.share], 0), secret)
    ensures Decoded(x, c, responses) == c.slots
  {
    var u, v := AdditiveShare(x.q, d.coalition, o.point, o.share), AdditiveShare(x.q, d.coalition, o'.point, o'.share);
    AdditiveEitherWay(x.q, d.coalition, o.point, o'.point, o.share, o'.share);
    RecombinedOpens(x, secret, u, v, c);
    assert SharesTo(responses, 1) == responses[0].share.value;
    assert SharesTo(responses, 2) == u * x.c1(c) + v * x.c1(c);
  }

  /** The two responses are the own shares of `c` of two operators, each of which recomputed `c` for the same slot of a request it accepted. */
  ghost predicate BothOwn(
      x: ReleaseGate.Scheme, o: Operator, s: Served, o': Operator, s': Served, slot: nat, d: SlotDescriptor, c: Cipher, responses: seq<Response>) {
    && |responses| == 2 && OwnOutput(x, o, s, slot, d, c) && OwnOutput(x, o', s', slot, d, c)
    && OwnShare(x, o, d, c, responses[0].statement) && OwnShare(x, o', d, c, responses[1].statement)
    && responses[0].share == responses[0].statement.share && responses[1].share == responses[1].statement.share
  }

  lemma {:induction false} OneSlot(
      x: ReleaseGate.Scheme, o: Operator, s: Served, slot: nat, o': Operator, s': Served, slot': nat, d: SlotDescriptor, c: Cipher)
    requires OwnOutput(x, o, s, slot, d, c) && OwnOutput(x, o', s', slot', d, c)
    ensures slot == slot'
  {
    assert d.nonce == slot + 1 && d.nonce == slot' + 1;
  }

  /** Both responses of a quorum are own shares of the opened ciphertext, from two different seats, for one slot. */
  lemma {:induction false} QuorumIsOwn(
      x: ReleaseGate.Scheme, ms: seq<Ceremony.Member>, shares: seq<int>, man: Manifest, seats: seq<Seat>,
      d: SlotDescriptor, c: Cipher, responses: seq<Response>) returns (t: nat, k: nat, t': nat, k': nat, slot: nat)
    requires Prime(x.q) && Quorum(x, d, man, c, responses)
    requires Lists(man, ms) && Seated(ms, shares, man.keyId, seats) && NoneForged(x, seats, responses)
    ensures t < |seats| && k < |seats[t].history| && t' < |seats| && k' < |seats[t'].history| && t != t'
    ensures BothOwn(x, seats[t].o, seats[t].history[k], seats[t'].o, seats[t'].history[k'], slot, d, c, responses)
    ensures responses[0].share.Some? && responses[1].share.Some?
  {
    QuorumIsSigned(x, d, man, c, responses, 0);
    var slot';
    t, k, slot := ResponseIsOwn(x, ms, shares, man, seats, d, c, responses, 0);
    t', k', slot' := ResponseIsOwn(x, ms, shares, man, seats, d, c, responses, 1);
    OneSlot(x, seats[t].o, seats[t].history[k], slot, seats[t'].o, seats[t'].history[k'], slot', d, c);
  }

  /** Own shares of members `t` and `t'` of a completed ceremony decode to what the collective secret opens. */
  lemma {:induction false} MembersDecode(
      x: ReleaseGate.Scheme, cx: Ceremony.Scheme, r: Ceremony.Roster, ms: seq<Ceremony.Member>, policyId: int, mat: Material,
      t: nat, o: Operator, t': nat, o': Operator, d: SlotDescriptor, c: Cipher, responses: seq<Response>)
    requires Ceremony.ValidScheme(cx) && Driven(r, ms) && Completed(cx, r, ms, policyId, mat) && r.threshold == 2
    requires Prime(x.q) && |ms| < x.q && Opens(x, SecretSum(ms, |ms|), c)
    requires t < |ms| && o.point == t + 1 && o.share == mat.shares[t] && t' < |ms| && o'.point == t' + 1 && o'.share == mat.shares[t'] && t != t'
    requires |responses| == 2 && responses[0].share.Some? && responses[1].share.Some?
    requires OwnShare(x, o, d, c, responses[0].statement) && responses[0].statement.share == responses[0].share
    requires OwnShare(x, o', d, c, responses[1].statement) && responses[1].statement.share == responses[1].share
    ensures Decoded(x, c, responses) == c.slots
  {
    if d.coalition.0 == t + 1 {
      PairReconstructs(cx, r, ms, policyId, mat, x.q, t, t');
      assert [d.coalition.0, d.coalition.1] == [t + 1, t' + 1];
    } else {
      PairReconstructs(cx, r, ms, policyId, mat, x.q, t', t);
      assert [d.coalition.0, d.coalition.1] == [t' + 1, t + 1];
    }
    OwnSharesDecode(x, d, c, responses, o, o', SecretSum(ms, |ms|));
  }

  /**
   Whoever coordinates, and whatever it shows the operators of a completed 2-of-n ceremony: if they are honest and their
   keys sign nothing else, every combination that goes through consists of two different operators' own shares of the very
   output both of them recomputed, for requests they accepted; and it decodes to that output's slots.
   */
  lemma {:induction false} HonestQuorumOpens(
      x: ReleaseGate.Scheme, cx: Ceremony.Scheme, r: Ceremony.Roster, ms: seq<Ceremony.Member>, policyId: int, mat: Material, man: Manifest,
      seats: seq<Seat>, d: SlotDescriptor, c: Cipher, responses: seq<Response>) returns (t: nat, k: nat, t': nat, k': nat, slot: nat)
    requires Ceremony.ValidScheme(cx) && Driven(r, ms) && Completed(cx, r, ms, policyId, mat) && r.threshold == 2
    requires Prime(x.q) && |ms| < x.q && Opens(x, SecretSum(ms, |ms|), c)
    requires Lists(man, ms) && Seated(ms, mat.shares, man.keyId, seats) && NoneForged(x, seats, responses)
    requires Quorum(x, d, man, c, responses)
    ensures t < |seats| && k < |seats[t].history| && t' < |seats| && k' < |seats[t'].history| && t != t'
    ensures BothOwn(x, seats[t].o, seats[t].history[k], seats[t'].o, seats[t'].history[k'], slot, d, c, responses)
    ensures (forall i :: 0 <= i < |responses| ==> responses[i].share.Some?) && Decoded(x, c, responses) == c.slots
  {
    t, k, t', k', slot := QuorumIsOwn(x, ms, mat.shares, man, seats, d, c, responses);
    MembersDecode(x, cx, r, ms, policyId, mat, t, seats[t].o, t', seats[t'].o, d, c, responses);
  }

  /** What the descriptor of an operator's own output names: the two enrollments it accepted, one slot of their session, the coalition. */
  lemma {:induction false} OwnDescriptorNames(x: ReleaseGate.Scheme, o: Operator, s: Served, slot: nat, d: SlotDescriptor, c: Cipher)
    requires OwnOutput(x, o, s, slot, d, c)
    ensures s.request.enrollmentA.Some? && d.inputA == OfEnrollment(s.request.enrollmentA.value.enrollment)
    ensures s.request.enrollmentB.Some? && d.inputB == OfEnrollment(s.request.enrollmentB.value.enrollment)
    ensures d.session == SlotSession(s.request.enrollmentA.value.enrollment.binding.session, slot)
    ensures d.nonce == slot + 1 && d.coalition == s.request.coalition && InCoalition(d.coalition, o.point)
    ensures d.keyId == o.keyId && d.fingerprint == o.fingerprint && d.policyVersion == 1
    ensures d.policyId == s.request.descriptor.policyId && s.now <= d.validUntil == s.request.descriptor.expiresAt
    ensures d.commitment == OfCiphertext(c) && d.binding == ProtocolOf(o.keyId, x.c1(c))
  {
    AcceptsExactly(o, s);
    AcceptedRequest(o, s);
  }

  /** The output an operator recomputed for encodings of two pledges is one bit: the same asset for slot 0, a conflict for slot 1. */
  lemma {:induction false} OwnOutputDecides(x: ReleaseGate.Scheme, o: Operator, s: Served, slot: nat, d: SlotDescriptor, c: Cipher, a: Pledge, b: Pledge)
    requires OwnOutput(x, o, s, slot, d, c)
    requires s.request.enrollmentA.value.enrollment.ciphertexts == PledgeSide(a)
    requires s.request.enrollmentB.value.enrollment.ciphertexts == PledgeSide(b)
    ensures Canonical(c.slots) && (c.slots[0] == 1 <==> if slot == 0 then PlainSameAsset(a, b) else PlainConflict(a, b))
  {
    AcceptedPledges(o, s, a, b);
    BitIsCanonical(c.slots, if slot == 0 then PlainSameAsset(a, b) else PlainConflict(a, b));
  }

  /** The same for the enrollments a descriptor names, since a digest determines its enrollment. */
  lemma {:induction false} NamedOutputDecides(
      x: ReleaseGate.Scheme, o: Operator, s: Served, slot: nat, d: SlotDescriptor, c: Cipher,
      enrolledA: Enrollment, enrolledB: Enrollment, a: Pledge, b: Pledge)
    requires OwnOutput(x, o, s, slot, d, c)
    requires d.inputA == OfEnrollment(enrolledA) && enrolledA.ciphertexts == PledgeSide(a)
    requires d.inputB == OfEnrollment(enrolledB) && enrolledB.ciphertexts == PledgeSide(b)
    ensures Canonical(c.slots) && (c.slots[0] == 1 <==> if d.nonce == 1 then PlainSameAsset(a, b) else PlainConflict(a, b))
  {
    OwnDescriptorNames(x, o, s, slot, d, c);
    OwnOutputDecides(x, o, s, slot, d, c, a, b);
  }

  /**
   So the bit is the policy's: over honest operators, a combination for a descriptor that names enrollments of
   encodings of the pledges `a` and `b` always decodes to one bit, and it says whether they are the same asset, for the
   first slot, or conflict, for the second. No coordinator can make it say anything else.
   */
  lemma {:induction false} HonestCombinationIsThePolicy(
      x: ReleaseGate.Scheme, cx: Ceremony.Scheme, r: Ceremony.Roster, ms: seq<Ceremony.Member>, policyId: int, mat: Material, man: Manifest,
      seats: seq<Seat>, d: SlotDescriptor, c: Cipher, responses: seq<Response>, enrolledA: Enrollment, enrolledB: Enrollment, a: Pledge, b: Pledge)
    requires Ceremony.ValidScheme(cx) && Driven(r, ms) && Completed(cx, r, ms, policyId, mat) && r.threshold == 2
    requires Prime(x.q) && |ms| < x.q && Opens(x, SecretSum(ms, |ms|), c)
    requires Lists(man, ms) && Seated(ms, mat.shares, man.keyId, seats) && NoneForged(x, seats, responses)
    requires Quorum(x, d, man, c, responses)
    requires d.inputA == OfEnrollment(enrolledA) && enrolledA.ciphertexts == PledgeSide(a)
    requires d.inputB == OfEnrollment(enrolledB) && enrolledB.ciphertexts == PledgeSide(b)
    ensures forall i :: 0 <= i < |responses| ==> responses[i].share.Some?
    ensures Canonical(Decoded(x, c, responses))
    ensures Decoded(x, c, responses)[0] == 1 <==> if d.nonce == 1 then PlainSameAsset(a, b) else PlainConflict(a, b)
  {
    var t, k, t', k', slot := HonestQuorumOpens(x, cx, r, ms, policyId, mat, man, seats, d, c, responses);
    NamedOutputDecides(x, seats[t].o, seats[t].history[k], slot, d, c, enrolledA, enrolledB, a, b);
  }
}
