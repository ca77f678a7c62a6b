/**
 The release gate: what one operator checks before it shares a decryption, what it
 then signs, and how a coordinator combines two operators' shares into one bit.

 A ring element is an integer read modulo a prime; a ciphertext has two of them, and
 decrypting c with secret s decodes c0 + s*c1.
 */
module ReleaseGate {
  import opened Basics
  import opened SlotVectors
  import opened PolicyCircuit
  import opened Enrollments
  import opened SecretSharing
  import SessionLedger

  datatype Descriptor = Descriptor(
    session: Digest, nullifier: Digest, enrollmentA: Digest, enrollmentB: Digest, inputs: Digest, outputs: Digest,
    circuitVersion: nat, runtime: Digest, keyId: Digest, fingerprint: Digest, policyId: Digest, policyVersion: nat, expiresAt: nat)

  datatype Request = Request(
    descriptor: Descriptor, enrollmentA: Option<SignedEnrollment>, enrollmentB: Option<SignedEnrollment>,
    inputs: CircuitInputs, coalition: (int, int))

  /** One operator: its evaluator and trust store, its sealed share and key, and the identity of its build. */
  datatype Operator = Operator(
    evaluator: Evaluator, keyId: Digest, fingerprint: Digest, point: int, share: int, signingKey: int, identity: Digest)

  predicate ValidDescriptor(d: Descriptor) {
    && d.session != Zero && d.nullifier != Zero && d.enrollmentA != Zero && d.enrollmentB != Zero && d.enrollmentA != d.enrollmentB
    && d.inputs != Zero && d.outputs != Zero && d.circuitVersion == CIRCUIT_VERSION && d.runtime != Zero && d.keyId != Zero
    && d.fingerprint != Zero && d.policyId != Zero && d.policyVersion == POLICY_VERSION && d.expiresAt != 0
  }

  predicate InCoalition(coalition: (int, int), point: int) {
    coalition.0 == point || coalition.1 == point
  }

  function SideDigest(policy: Received, currency: Received, receivable: Received): Result<Digest> {
    if policy.Nil? || currency.Nil? || receivable.Nil? then Err else Ok(OfSide(policy, currency, receivable))
  }

  function InputsDigest(inputs: CircuitInputs): Result<Digest> {
    if inputs.Present() then Ok(OfInputs(inputs)) else Err
  }

  /** Checks 1 to 5: the descriptor is complete, fresh, and for this operator's key and parameters. */
  predicate DescriptorFits(o: Operator, d: Descriptor, now: int) {
    ValidDescriptor(d) && d.keyId == o.keyId && d.fingerprint == o.fingerprint && 0 <= now <= d.expiresAt
  }

  /** Checks 6 to 8: both enrollments verify here, pair, and are the ones the descriptor names. */
  predicate EnrollmentsFit(o: Operator, r: Request, now: int) {
    var d, paired := r.descriptor, PairEnrollments(r.enrollmentA, r.enrollmentB);
    && VerifyEnrollment(o.evaluator, r.enrollmentA, now).Ok? && VerifyEnrollment(o.evaluator, r.enrollmentB, now).Ok?
    && paired.Ok? && d.session == paired.value.session && d.nullifier == paired.value.nullifier
    && d.enrollmentA == paired.value.enrollmentA && d.enrollmentB == paired.value.enrollmentB
  }

  /** Checks 9 and 10: the received inputs are those the two enrollments, and the descriptor, name. */
  predicate InputsFit(d: Descriptor, i: CircuitInputs, enrolledA: Digest, enrolledB: Digest) {
    && i.Present() && enrolledA != enrolledB
    && OfSide(i.policyA, i.currencyA, i.receivableA) == enrolledA && OfSide(i.policyB, i.currencyB, i.receivableB) == enrolledB
    && d.inputs == OfInputs(i)
  }

  /** Checks 11 to 14: this operator's turn, its runtime, and its own recomputation. */
  predicate RecomputationFits(o: Operator, r: Request, served: Option<SessionLedger.State>) {
    && InCoalition(r.coalition, o.point) && (served.None? || served == Some(SessionLedger.Reserved))
    && r.descriptor.runtime == o.identity && r.inputs.WellShaped()
    && r.descriptor.outputs == OfOutputs(CircuitV5(r.inputs.SideA(), r.inputs.SideB()))
  }

  /** What an operator must find before it accepts, `served` being the state its own ledger has for the session. */
  predicate Authorized(o: Operator, r: Request, served: Option<SessionLedger.State>, now: int) {
    && DescriptorFits(o, r.descriptor, now) && EnrollmentsFit(o, r, now)
    && InputsFit(r.descriptor, r.inputs, r.enrollmentA.value.enrollment.ciphertexts, r.enrollmentB.value.enrollment.ciphertexts)
    && RecomputationFits(o, r, served)
  }

  method CheckDescriptor(o: Operator, d: Descriptor, now: int) returns (ok: bool)
    ensures ok <==> DescriptorFits(o, d, now)
  {
    if !ValidDescriptor(d) || d.circuitVersion != CIRCUIT_VERSION {
      return false;
    }
    if d.keyId != o.keyId || d.fingerprint != o.fingerprint {
      return false;
    }
    return 0 <= now && now <= d.expiresAt;
  }

  method CheckEnrollments(o: Operator, r: Request, now: int) returns (ok: bool)
    ensures ok <==> EnrollmentsFit(o, r, now)
  {
    var d := r.descriptor;
    var digestA := VerifyEnrollment(o.evaluator, r.enrollmentA, now);
    if digestA.Err? {
      return false;
    }
    var digestB := VerifyEnrollment(o.evaluator, r.enrollmentB, now);
    if digestB.Err? {
      return false;
    }
    var paired := PairEnrollments(r.enrollmentA, r.enrollmentB);
    if paired.Err? {
      return false;
    }
    return d.session == paired.value.session && d.nullifier == paired.value.nullifier &&
           d.enrollmentA == digestA.value && d.enrollmentB == digestB.value &&
           digestA.value == paired.value.enrollmentA && digestB.value == paired.value.enrollmentB;
  }

  method CheckInputs(d: Descriptor, i: CircuitInputs, enrolledA: Digest, enrolledB: Digest) returns (ok: bool)
    ensures ok <==> InputsFit(d, i, enrolledA, enrolledB)
  {
    var boundA := SideDigest(i.policyA, i.currencyA, i.receivableA);
    if boundA.Err? {
      return false;
    }
    var boundB := SideDigest(i.policyB, i.currencyB, i.receivableB);
    if boundB.Err? {
      return false;
    }
    if boundA.value != enrolledA || boundB.value != enrolledB {
      return false;
    }
    if boundA == boundB {
      return false;
    }
    var inputsDigest := InputsDigest(i);
    return inputsDigest.Ok? && inputsDigest.value == d.inputs;
  }

  method CheckRecomputation(o: Operator, r: Request, served: Option<SessionLedger.State>) returns (verdict: Result<Outputs>)
    ensures verdict.Ok? <==> RecomputationFits(o, r, served)
    ensures verdict.Ok? ==> verdict.value == CircuitV5(r.inputs.SideA(), r.inputs.SideB())
  {
    if !InCoalition(r.coalition, o.point) {
      return Err;
    }
    if served.Some? && served.value != SessionLedger.Reserved {
      return Err;
    }
    if r.descriptor.runtime != o.identity {
      return Err;
    }
    var outputs := RecomputeCircuitV5(r.inputs);
    if outputs.Err? {
      return Err;
    }
    if OfOutputs(outputs.value) != r.descriptor.outputs {
      return Err;
    }
    return outputs;
  }

  /** The checks in their order; the verdict carries the outputs this operator computed itself. */
  method VerifyAndRecompute(o: Operator, r: Request, served: Option<SessionLedger.State>, now: int) returns (verdict: Result<Outputs>)
    ensures verdict.Ok? <==> Authorized(o, r, served, now)
    ensures verdict.Ok? ==> verdict.value == CircuitV5(r.inputs.SideA(), r.inputs.SideB()) && r.descriptor.outputs == OfOutputs(verdict.value)
  {
    var ok := CheckDescriptor(o, r.descriptor, now);
    if !ok {
      return Err;
    }
    ok := CheckEnrollments(o, r, now);
    if !ok {
      return Err;
    }
    ok := CheckInputs(r.descriptor, r.inputs, r.enrollmentA.value.enrollment.ciphertexts, r.enrollmentB.value.enrollment.ciphertexts);
    if !ok {
      return Err;
    }
    verdict := CheckRecomputation(o, r, served);
  }

  // ----- a quorum of verdicts

  const QUORUM := 2

  /** The positions of the accepting verdicts among the first `k`; a verdict is the digest of its outputs, None if refused. */
  function Accepting(verdicts: seq<Option<Digest>>, k: nat): (accepted: seq<nat>)
    requires k <= |verdicts|
    ensures forall i :: 0 <= i < |accepted| ==> accepted[i] < k && verdicts[accepted[i]].Some?
    ensures forall i :: 0 <= i < k && verdicts[i].Some? ==> i in accepted
  {
    if k == 0 then [] else Accepting(verdicts, k - 1) + (if verdicts[k - 1].Some? then [k - 1] else [])
  }

  /** In order, so no operator is listed twice. */
  lemma {:induction false} AcceptingAscends(verdicts: seq<Option<Digest>>, k: nat, i: nat, j: nat)
    requires k <= |verdicts| && i < j < |Accepting(verdicts, k)|
    ensures Accepting(verdicts, k)[i] < Accepting(verdicts, k)[j]
  {
    if j < |Accepting(verdicts, k - 1)| {
      AcceptingAscends(verdicts, k - 1, i, j);
    }
  }

  /** verifyQuorum, given the operators' verdicts: those that accepted are collected, and any disagreement ends the release. */
  method CollectQuorum(verdicts: seq<Option<Digest>>, proposed: Digest) returns (quorum: Result<seq<nat>>)
    ensures quorum.Ok? <==>
      |Accepting(verdicts, |verdicts|)| >= QUORUM && forall i :: 0 <= i < |verdicts| ==> verdicts[i].None? || verdicts[i].value == proposed
    ensures quorum.Ok? ==> quorum.value == Accepting(verdicts, |verdicts|)[..QUORUM]
    ensures quorum.Ok? ==> |quorum.value| == 2 && quorum.value[0] < quorum.value[1] < |verdicts|
    ensures quorum.Ok? ==> forall i <- quorum.value :: verdicts[i] == Some(proposed)
  {
    var accepted: seq<nat> := [];
    for k := 0 to |verdicts|
      invariant accepted == Accepting(verdicts, k)
    {
      if verdicts[k].Some? {
        accepted := accepted + [k];
      }
    }
    if |accepted| < QUORUM {
      return Err;
    }
    for i := 0 to |accepted|
      invariant forall k :: 0 <= k < i ==> verdicts[accepted[k]].value == proposed
    {
      if verdicts[accepted[i]] != verdicts[accepted[0]] {
        return Err;
      }
      if verdicts[accepted[i]].value != proposed {
        return Err;
      }
    }
    AcceptingAscends(verdicts, |verdicts|, 0, 1);
    return Ok(accepted[..QUORUM]);
  }

  // ----- shares

  /** The ciphertext algebra: a prime modulus, the two components of a ciphertext, and how a plaintext decodes. */
  datatype Scheme = Scheme(q: int, c0: Cipher -> int, c1: Cipher -> int, decode: int -> seq<nat>)

  /** Decrypting `c` with `secret` returns its slots. */
  predicate Opens(x: Scheme, secret: int, c: Cipher) {
    x.q > 1 && x.decode((x.c0(c) + secret * x.c1(c)) % x.q) == c.slots
  }

  datatype SlotDescriptor = SlotDescriptor(
    session: Digest, keyId: Digest, fingerprint: Digest, policyId: Digest, policyVersion: nat, inputA: Digest, inputB: Digest,
    nonce: nat, validUntil: nat, commitment: Digest, binding: Digest, coalition: (int, int))

  predicate ValidSlotDescriptor(d: SlotDescriptor) {
    && d.session != Zero && d.keyId != Zero && d.fingerprint != Zero && d.policyId != Zero && d.policyVersion == POLICY_VERSION
    && d.inputA != Zero && d.inputB != Zero && d.nonce != 0 && d.validUntil != 0 && d.commitment != Zero && d.binding != Zero
    && d.coalition.0 != 0 && d.coalition.1 != 0 && d.coalition.0 != d.coalition.1
  }

  function DescriptorForSlot(x: Scheme, d: Descriptor, c: Cipher, coalition: (int, int), slot: nat, keyId: Digest): SlotDescriptor {
    SlotDescriptor(SlotSession(d.session, slot), d.keyId, d.fingerprint, d.policyId, d.policyVersion, d.enrollmentA, d.enrollmentB,
                   slot + 1, d.expiresAt, OfCiphertext(c), ProtocolOf(keyId, x.c1(c)), coalition)
  }

  datatype Statement = Statement(descriptor: SlotDescriptor, operatorId: Digest, point: int, share: Option<int>)

  /** A share that cannot be read back is None. */
  datatype Response = Response(
    operatorId: Digest, point: int, session: Digest, binding: Digest, shareDigest: Option<int>, share: Option<int>,
    statement: Statement, signature: Signature<Statement>)

  /** The operator's part of the secret for this coalition: its share times its Lagrange weight. */
  ghost function AdditiveShare(q: int, coalition: (int, int), own: int, share: int): int
    requires Prime(q) && Points(q, [coalition.0, coalition.1]) && InCoalition(coalition, own)
  {
    var xs := [coalition.0, coalition.1];
    var n := if coalition.0 == own then 0 else 1;
    OthersApart(q, xs, n);
    Weight(q, Without(xs, n), xs[n]) * share
  }

  /** GenerateReleaseShare: one key-switch share toward the zero key, signed together with its descriptor. */
  ghost function GenerateShare(x: Scheme, o: Operator, d: SlotDescriptor, c: Cipher): Result<Response>
    requires Prime(x.q)
  {
    if !ValidSlotDescriptor(d) || d.keyId != o.keyId || d.fingerprint != o.fingerprint || d.commitment != OfCiphertext(c) ||
       d.binding != ProtocolOf(o.keyId, x.c1(c)) || !InCoalition(d.coalition, o.point) ||
       !Points(x.q, [d.coalition.0, d.coalition.1]) then Err
    else
      var share := Some(AdditiveShare(x.q, d.coalition, o.point, o.share) * x.c1(c));
      var statement := Statement(d, OfKey(o.signingKey), o.point, share);
      Ok(Response(OfKey(o.signingKey), o.point, d.session, d.binding, share, share, statement, Signature(o.signingKey, statement)))
  }

  function OutputFor(outputs: Outputs, slot: nat): Cipher {
    if slot == 0 then outputs.sameAsset else outputs.conflict
  }

  ghost function ShareFor(x: Scheme, o: Operator, r: Request, outputs: Outputs, slot: nat): Result<Response>
    requires Prime(x.q)
  {
    var c := OutputFor(outputs, slot);
    GenerateShare(x, o, DescriptorForSlot(x, r.descriptor, c, r.coalition, slot, o.keyId), c)
  }

  /** ReleaseShares: one share for each of the two released bits, of the outputs in the operator's own verdict. */
  ghost function ReleaseShares(x: Scheme, o: Operator, r: Request, verdict: Result<Outputs>): Result<(Response, Response)>
    requires Prime(x.q)
  {
    if verdict.Err? then Err
    else
      var same := ShareFor(x, o, r, verdict.value, 0);
      if same.Err? then Err
      else
        var conflict := ShareFor(x, o, r, verdict.value, 1);
        if conflict.Err? then Err else Ok((same.value, conflict.value))
  }

  // ----- combining

  datatype Public = Public(operatorId: Digest, point: int, key: int)

  datatype Manifest = Manifest(keyId: Digest, fingerprint: Digest, threshold: int, operators: seq<Public>)

  /** The last operator listed under an id. */
  function Lookup(ops: seq<Public>, id: Digest): Option<Public> {
    if ops == [] then None
    else if ops[|ops| - 1].operatorId == id then Some(ops[|ops| - 1])
    else Lookup(ops[..|ops| - 1], id)
  }

  predicate GoodResponse(m: Manifest, d: SlotDescriptor, r: Response) {
    var o := Lookup(m.operators, r.operatorId);
    && o.Some? && o.value.point == r.point && InCoalition(d.coalition, r.point)
    && r.session == d.session && r.binding == d.binding && r.shareDigest == r.share && r.share.Some?
    && r.statement == Statement(d, r.operatorId, r.point, r.shareDigest) && r.signature == Signature(o.value.key, r.statement)
  }

  function SharesTo(responses: seq<Response>, k: nat): int
    requires k <= |responses| && forall i :: 0 <= i < |responses| ==> responses[i].share.Some?
  {
    if k == 0 then 0 else SharesTo(responses, k - 1) + responses[k - 1].share.value
  }

  ghost predicate Canonical(decoded: seq<nat>) {
    |decoded| > 0 && decoded[0] <= 1 && forall i :: 1 <= i < |decoded| ==> decoded[i] == 0
  }

  /** Canonical vectors are the two that spell a Boolean. */
  lemma {:induction false} CanonicalIsOneBit(decoded: seq<nat>)
    ensures Canonical(decoded) <==> decoded != [] && (decoded == [0] + Nothing(|decoded| - 1) || decoded == [1] + Nothing(|decoded| - 1))
  {
    if Canonical(decoded) {
      assert decoded == [decoded[0]] + Nothing(|decoded| - 1);
    }
  }

  function Nothing(n: nat): seq<nat> {
    seq(n, _ => 0)
  }

  method RequireCanonical(decoded: seq<nat>) returns (ok: bool)
    ensures ok <==> Canonical(decoded)
  {
    if |decoded| == 0 || decoded[0] > 1 {
      return false;
    }
    var i := 1;
    while i < |decoded|
      invariant 1 <= i <= |decoded| && forall k :: 1 <= k < i ==> decoded[k] == 0
    {
      if decoded[i] != 0 {
        return false;
      }
      i := i + 1;
    }
    return true;
  }

  /** What the responses must be for a combination to go through. */
  ghost predicate Quorum(x: Scheme, d: SlotDescriptor, m: Manifest, c: Cipher, responses: seq<Response>) {
    && ValidSlotDescriptor(d) && |responses| == m.threshold == 2
    && d.keyId == m.keyId && d.fingerprint == m.fingerprint
    && d.commitment == OfCiphertext(c) && d.binding == ProtocolOf(m.keyId, x.c1(c))
    && (forall i :: 0 <= i < |responses| ==> GoodResponse(m, d, responses[i]))
    && (forall i, j :: 0 <= i < j < |responses| ==> responses[i].point != responses[j].point)
  }

  function Decoded(x: Scheme, c: Cipher, responses: seq<Response>): seq<nat>
    requires x.q > 1 && forall i :: 0 <= i < |responses| ==> responses[i].share.Some?
  {
    x.decode((x.c0(c) + SharesTo(responses, |responses|)) % x.q)
  }

  method IndexById(ops: seq<Public>) returns (byId: map<Digest, Public>)
    ensures forall id :: id in byId <==> Lookup(ops, id).Some?
    ensures forall id :: id in byId ==> Lookup(ops, id) == Some(byId[id])
  {
    byId := map[];
    for k := 0 to |ops|
      invariant forall id :: id in byId <==> Lookup(ops[..k], id).Some?
      invariant forall id :: id in byId ==> Lookup(ops[..k], id) == Some(byId[id])
    {
      assert ops[..k + 1][..k] == ops[..k];
      byId := byId[ops[k].operatorId := ops[k]];
    }
    assert ops[..|ops|] == ops;
  }

  /** Checks one response against the index; `seen` holds the points already used. */
  method CheckResponse(byId: map<Digest, Public>, m: Manifest, d: SlotDescriptor, r: Response, seen: set<int>) returns (ok: bool)
    requires forall id :: id in byId <==> Lookup(m.operators, id).Some?
    requires forall id :: id in byId ==> Lookup(m.operators, id) == Some(byId[id])
    ensures ok <==> GoodResponse(m, d, r) && r.point !in seen
  {
    if r.operatorId !in byId || byId[r.operatorId].point != r.point || !InCoalition(d.coalition, r.point) {
      return false;
    }
    if r.point in seen {
      return false;
    }
    if r.session != d.session || r.binding != d.binding || r.shareDigest != r.share {
      return false;
    }
    var expected := Statement(d, r.operatorId, r.point, r.shareDigest);
    if r.statement != expected || r.signature != Signature(byId[r.operatorId].key, expected) {
      return false;
    }
    return r.share.Some?;
  }

  /** CombineReleaseBitV5. */
  method CombineReleaseBit(x: Scheme, d: SlotDescriptor, m: Manifest, c: Cipher, responses: seq<Response>) returns (r: Result<bool>)
    requires x.q > 1
    ensures r.Ok? <==> Quorum(x, d, m, c, responses) && Canonical(Decoded(x, c, responses))
    ensures r.Ok? ==> r.value == (Decoded(x, c, responses)[0] == 1)
  {
    if !ValidSlotDescriptor(d) || |responses| != m.threshold || m.threshold != 2 {
      return Err;
    }
    if d.keyId != m.keyId || d.fingerprint != m.fingerprint {
      return Err;
    }
    if d.commitment != OfCiphertext(c) || d.binding != ProtocolOf(m.keyId, x.c1(c)) {
      return Err;
    }
    var byId := IndexById(m.operators);
    var combined, seen: set<int> := 0, {};
    for k := 0 to |responses|
      invariant forall i :: 0 <= i < k ==> GoodResponse(m, d, responses[i])
      invariant forall i, j :: 0 <= i < j < k ==> responses[i].point != responses[j].point
      invariant forall p :: p in seen <==> exists i :: 0 <= i < k && responses[i].point == p
      invariant combined == SharesTo(responses[..k], k)
    {
      var good := CheckResponse(byId, m, d, responses[k], seen);
      if !good {
        return Err;
      }
      seen := seen + {responses[k].point};
      combined := combined + responses[k].share.value;
      SharesPrefix(responses, k);
    }
    assert responses[..|responses|] == responses;
    var decoded := x.decode((x.c0(c) + combined) % x.q);
    var canonical := RequireCanonical(decoded);
    if !canonical {
      return Err;
    }
    return Ok(decoded[0] == 1);
  }

  lemma {:induction false} SharesPrefix(responses: seq<Response>, k: nat)
    requires k < |responses| && forall i :: 0 <= i <= k ==> responses[i].share.Some?
    ensures SharesTo(responses[..k + 1], k + 1) == SharesTo(responses[..k], k) + responses[k].share.value
  {
    SharesOfPrefix(responses[..k + 1], k, k);
    assert responses[..k + 1][..k] == responses[..k];
  }

  lemma {:induction false} SharesOfPrefix(responses: seq<Response>, n: nat, k: nat)
    requires k <= n <= |responses| && forall i :: 0 <= i < |responses| ==> responses[i].share.Some?
    ensures SharesTo(responses[..n], k) == SharesTo(responses, k)
  {
    if k > 0 {
      SharesOfPrefix(responses, n, k - 1);
    }
  }
}
