/**
 Participant enrollments: what one side of a bilateral session signs, how two of
 them pair, and how a case derives them. A 32-byte digest is modelled as the value
 it digests, so equal digests mean equal contents; a signature is its key and the
 message it covers.
 */
module Enrollments {
  import opened Basics
  import opened SlotVectors
  import opened PolicyCircuit

  const ENROLLMENT_VERSION := 5
  const CIRCUIT_VERSION := 5
  const POLICY_VERSION := 1

  datatype Role = RoleA | RoleB | OtherRole(name: string)

  datatype Digest =
    | Zero
    | Word(value: int)
    | OfSide(policy: Received, currency: Received, receivable: Received)
    | OfInputs(all: CircuitInputs)
    | OfOutputs(outputs: Outputs)
    | OfEnrollment(enrollment: Enrollment)
    | OfArtifact(artifact: Artifact)
    | OfRole(role: Role)
    | OfKey(key: int)
    | NullifierOf(session: Digest)
    | InputOf(caseId: Digest, role: Role, upload: Digest, nonce: Digest, inputs: Digest)
    | GovernanceOf(session: Digest, owner: Digest, key: int)
    | AuthorizationOf(claim: Claim, keyId: Digest)
    | SlotSession(session: Digest, slot: nat)
    | OfCiphertext(ciphertext: Cipher)
    | ProtocolOf(keyId: Digest, c1: int)

  datatype Binding = Binding(
    session: Digest, nullifier: Digest, own: Digest, counterparty: Digest, governance: Digest, source: Digest,
    authorizationEpoch: nat, budgetEpoch: nat, slot: nat)

  datatype Claim = Claim(subject: Digest, role: Digest, vault: int, policyId: Digest, policyVersion: nat, validUntil: nat, nonce: Digest)

  datatype Enrollment = Enrollment(
    version: nat, binding: Binding, circuitVersion: nat, ciphertexts: Digest, input: Digest,
    keyId: Digest, fingerprint: Digest, policyId: Digest, policyVersion: nat, mode: IdentityMode,
    claim: Claim, authorization: Digest, issuer: Digest, issuedAt: nat, validUntil: nat, nonce: Digest)

  datatype Signature<T> = Signature(key: int, message: T)

  datatype SignedEnrollment = SignedEnrollment(enrollment: Enrollment, signature: Signature<Digest>)

  predicate ValidBinding(b: Binding) {
    && b.session != Zero && b.nullifier != Zero && b.own != Zero && b.counterparty != Zero
    && b.governance != Zero && b.source != Zero && b.authorizationEpoch != 0 && b.budgetEpoch != 0 && b.slot <= 1
    && b.own != b.counterparty
  }

  predicate ValidEnrollment(e: Enrollment) {
    && e.version == ENROLLMENT_VERSION && ValidBinding(e.binding) && e.circuitVersion == CIRCUIT_VERSION
    && e.ciphertexts != Zero && e.input != Zero && e.keyId != Zero && e.fingerprint != Zero
    && e.policyId != Zero && e.policyVersion == POLICY_VERSION && e.authorization != Zero && e.issuer != Zero
    && e.issuedAt != 0 && e.validUntil != 0 && e.issuedAt <= e.validUntil && e.nonce != Zero
    && e.mode == FullFhe256
    && e.claim.subject != Zero && e.claim.role != Zero && e.claim.vault != 0
    && e.claim.policyId == e.policyId && e.claim.policyVersion == e.policyVersion
    && e.claim.validUntil != 0 && e.validUntil <= e.claim.validUntil
  }

  // ----- pairing

  datatype Paired = Paired(
    session: Digest, nullifier: Digest, enrollmentA: Digest, enrollmentB: Digest,
    scopeA: Digest, scopeB: Digest, inputA: Digest, inputB: Digest, ciphertextsA: Digest, ciphertextsB: Digest)

  function PairEnrollments(a: Option<SignedEnrollment>, b: Option<SignedEnrollment>): Result<Paired> {
    if a.None? || b.None? then Err
    else
      var l, r := a.value.enrollment, b.value.enrollment;
      var lb, rb := l.binding, r.binding;
      if !ValidEnrollment(l) || !ValidEnrollment(r) then Err
      else if lb.session != rb.session || lb.nullifier != rb.nullifier then Err
      else if lb.own != rb.counterparty || rb.own != lb.counterparty then Err
      else if lb.own == rb.own || lb.governance == rb.governance || lb.source == rb.source then Err
      else if lb.slot != 0 || rb.slot != 1 then Err
      else if lb.authorizationEpoch != rb.authorizationEpoch || lb.budgetEpoch != rb.budgetEpoch then Err
      else if l.keyId != r.keyId || l.fingerprint != r.fingerprint || l.circuitVersion != r.circuitVersion ||
              l.policyId != r.policyId || l.policyVersion != r.policyVersion || l.mode != r.mode then Err
      else if l.ciphertexts == r.ciphertexts || l.nonce == r.nonce || l.input == r.input then Err
      else if OfEnrollment(l) == OfEnrollment(r) then Err
      else Ok(Paired(lb.session, lb.nullifier, OfEnrollment(l), OfEnrollment(r), lb.own, rb.own,
                     l.input, r.input, l.ciphertexts, r.ciphertexts))
  }

  /**
   Cross-certification leaves no choice of partner scope or order: whatever a given enrollment pairs with,
   on either side, belongs to its session, sits in the other slot and is the counterparty it named;
   nothing pairs in both orders, or with itself; and the two digests of a pair identify both enrollments.
   */
  lemma {:induction false} PairingIsForced(a: SignedEnrollment, b: SignedEnrollment, c: SignedEnrollment)
    requires PairEnrollments(Some(a), Some(b)).Ok? && PairEnrollments(Some(a), Some(c)).Ok?
    ensures b.enrollment.binding.own == c.enrollment.binding.own == a.enrollment.binding.counterparty
    ensures b.enrollment.binding.session == c.enrollment.binding.session && b.enrollment.binding.slot == c.enrollment.binding.slot == 1
    ensures PairEnrollments(Some(b), Some(a)).Err? && PairEnrollments(Some(b), Some(c)).Err? && PairEnrollments(Some(a), Some(a)).Err?
    ensures PairEnrollments(Some(a), Some(b)).value.enrollmentA != PairEnrollments(Some(a), Some(b)).value.enrollmentB
    ensures PairEnrollments(Some(a), Some(b)) == PairEnrollments(Some(a), Some(c)) ==> b.enrollment == c.enrollment
  {
  }

  /**
   What two enrollments that pair are: halves of one session, cross-certified, in slots 0 and 1, of one epoch, key,
   parameter set and policy, from different records and inputs; and what the pair then names.
   */
  lemma {:induction false} PairedMeans(a: SignedEnrollment, b: SignedEnrollment)
    requires PairEnrollments(Some(a), Some(b)).Ok?
    ensures var l, r, p := a.enrollment, b.enrollment, PairEnrollments(Some(a), Some(b)).value;
            && l.binding.session == r.binding.session == p.session && l.binding.nullifier == r.binding.nullifier == p.nullifier
            && l.binding.own == r.binding.counterparty == p.scopeA && r.binding.own == l.binding.counterparty == p.scopeB
            && p.scopeA != p.scopeB && l.binding.governance != r.binding.governance && l.binding.source != r.binding.source
            && l.binding.slot == 0 && r.binding.slot == 1
            && l.binding.authorizationEpoch == r.binding.authorizationEpoch && l.binding.budgetEpoch == r.binding.budgetEpoch
            && l.keyId == r.keyId && l.fingerprint == r.fingerprint && l.policyId == r.policyId
            && l.circuitVersion == r.circuitVersion == 5 && l.policyVersion == r.policyVersion == 1 && l.mode == r.mode == FullFhe256
            && p.ciphertextsA == l.ciphertexts != r.ciphertexts == p.ciphertextsB && p.inputA == l.input != r.input == p.inputB
            && l.nonce != r.nonce && p.enrollmentA == OfEnrollment(l) != OfEnrollment(r) == p.enrollmentB
  {
  }

  /** And nothing else is asked of two valid enrollments: these conditions suffice. */
  lemma {:induction false} PairsWhen(a: SignedEnrollment, b: SignedEnrollment)
    requires ValidEnrollment(a.enrollment) && ValidEnrollment(b.enrollment)
    requires var l, r := a.enrollment.binding, b.enrollment.binding;
             && l.session == r.session && l.nullifier == r.nullifier && l.own == r.counterparty && r.own == l.counterparty
             && l.governance != r.governance && l.source != r.source && l.slot == 0 && r.slot == 1
             && l.authorizationEpoch == r.authorizationEpoch && l.budgetEpoch == r.budgetEpoch
    requires var l, r := a.enrollment, b.enrollment;
             && l.keyId == r.keyId && l.fingerprint == r.fingerprint && l.policyId == r.policyId
             && l.ciphertexts != r.ciphertexts && l.nonce != r.nonce && l.input != r.input
    ensures PairEnrollments(Some(a), Some(b)).Ok?
  {
  }

  // ----- verification against a trust store

  datatype Issuer = Issuer(key: int, validFrom: nat, validUntil: nat, revoked: bool)

  datatype Evaluator = Evaluator(keyId: Digest, fingerprint: Digest, issuers: map<Digest, Issuer>)

  function AuthorizationCommitment(c: Claim, keyId: Digest): Result<Digest> {
    if keyId == Zero || c.subject == Zero || c.role == Zero || c.vault == 0 || c.policyId == Zero ||
       c.policyVersion != POLICY_VERSION || c.validUntil == 0 then Err
    else Ok(AuthorizationOf(c, keyId))
  }

  function VerifyEnrollment(v: Evaluator, s: Option<SignedEnrollment>, now: int): Result<Digest> {
    if s.None? then Err
    else
      var e := s.value.enrollment;
      if !ValidEnrollment(e) then Err
      else if e.keyId != v.keyId || e.fingerprint != v.fingerprint then Err
      else if now < 0 || now < e.issuedAt || now > e.validUntil then Err
      else if AuthorizationCommitment(e.claim, v.keyId) != Ok(e.authorization) then Err
      else if e.issuer !in v.issuers then Err
      else
        var i := v.issuers[e.issuer];
        if i.revoked || e.issuedAt < i.validFrom || e.validUntil > i.validUntil || now < i.validFrom || now > i.validUntil then Err
        else if s.value.signature != Signature(i.key, OfEnrollment(e)) then Err
        else Ok(OfEnrollment(e))
  }

  /**
   Which signed enrollments an evaluator accepts, whoever made them: exactly those of the current versions that are
   complete, name two different sides, are for its key and parameters, cover the present time with a window inside their
   issuer's, carry the commitment of their own claim, which is for the same policy and lives as long, and are signed, over
   all of this, with the key of a listed issuer that is not revoked.
   */
  lemma {:induction false} VerifyEnrollmentExactly(v: Evaluator, s: SignedEnrollment, now: int)
    ensures var e, b, k := s.enrollment, s.enrollment.binding, s.enrollment.claim;
            VerifyEnrollment(v, Some(s), now).Ok? <==>
              && e.version == 5 && e.circuitVersion == 5 && e.policyVersion == 1 && e.mode == FullFhe256
              && b.session != Zero && b.nullifier != Zero && b.own != Zero && b.counterparty != Zero && b.own != b.counterparty
              && b.governance != Zero && b.source != Zero && b.authorizationEpoch > 0 && b.budgetEpoch > 0 && (b.slot == 0 || b.slot == 1)
              && e.ciphertexts != Zero && e.input != Zero && e.policyId != Zero && e.issuer != Zero && e.nonce != Zero
              && k.subject != Zero && k.role != Zero && k.vault != 0 && k.policyId == e.policyId && k.policyVersion == 1
              && Zero != v.keyId == e.keyId && Zero != v.fingerprint == e.fingerprint
              && 0 < e.issuedAt <= now <= e.validUntil <= k.validUntil
              && e.authorization == AuthorizationOf(k, v.keyId)
              && e.issuer in v.issuers && !v.issuers[e.issuer].revoked
              && v.issuers[e.issuer].validFrom <= e.issuedAt && e.validUntil <= v.issuers[e.issuer].validUntil
              && s.signature.key == v.issuers[e.issuer].key && s.signature.message == OfEnrollment(e)
    ensures VerifyEnrollment(v, Some(s), now).Ok? ==> VerifyEnrollment(v, Some(s), now).value == OfEnrollment(s.enrollment)
    ensures VerifyEnrollment(v, None, now).Err?
  {
  }

  // ----- the derivation from a case

  datatype Identity = Identity(id: Digest, role: Role, key: int)

  datatype Facts = Facts(
    caseId: Digest, asset: Digest, policyId: Digest, policyVersion: nat, circuitVersion: nat, circuit: Digest,
    fingerprint: Digest, publicKey: Digest, session: Digest, a: Identity, b: Identity, created: int, expires: int)

  datatype Artifact = Artifact(
    session: Digest, caseId: Digest, participant: Digest, role: Role, publicKey: Digest, fingerprint: Digest,
    circuit: Digest, upload: Digest, nonce: Digest, expires: int)

  predicate ValidFacts(f: Facts) {
    && f.caseId != Zero && f.asset != Zero && f.policyId != Zero && f.circuit != Zero && f.fingerprint != Zero
    && f.publicKey != Zero && f.session != Zero
    && f.policyVersion == POLICY_VERSION && f.circuitVersion == CIRCUIT_VERSION
    && f.a.id != Zero && f.a.role == RoleA && f.b.id != Zero && f.b.role == RoleB && f.a.id != f.b.id
    && 0 < f.created < f.expires
  }

  /** The side a role owns; anything but RoleB is treated as A until the slot is looked up. */
  function Own(f: Facts, role: Role): Identity {
    if role == RoleB then f.b else f.a
  }

  function Other(f: Facts, role: Role): Identity {
    if role == RoleB then f.a else f.b
  }

  function SlotOf(role: Role): Option<nat> {
    match role
    case RoleA => Some(0)
    case RoleB => Some(1)
    case OtherRole(_) => None
  }

  /** The adapter a case's asset settles on, if one is deployed. */
  type Adapters = map<Digest, int>

  predicate ArtifactBinds(f: Facts, t: Artifact, role: Role, artifactDigest: Digest, inputs: Digest) {
    && t.caseId == f.caseId && t.session == f.session && t.role == role && t.participant == Own(f, role).id
    && t.publicKey == f.publicKey && t.fingerprint == f.fingerprint && t.circuit == f.circuit
    && artifactDigest != Zero && t.nonce != Zero && t.upload != Zero && inputs != Zero
  }

  function BuildEnrollment(v: Adapters, f: Facts, t: Artifact, artifactDigest: Digest, role: Role, inputs: Digest): Result<Enrollment> {
    if !ValidFacts(f) || SlotOf(role).None? || f.asset !in v then Err
    else if !ArtifactBinds(f, t, role, artifactDigest, inputs) then Err
    else if t.expires <= 0 || t.expires > f.expires || t.expires <= f.created then Err
    else
      var own, other := Own(f, role), Other(f, role);
      var claim := Claim(own.id, OfRole(role), v[f.asset], f.policyId, f.policyVersion, f.expires, t.nonce);
      var authorization := AuthorizationCommitment(claim, f.publicKey);
      if authorization.Err? then Err
      else Ok(Enrollment(
                ENROLLMENT_VERSION,
                Binding(f.session, NullifierOf(f.session), own.id, other.id, GovernanceOf(f.session, own.id, own.key),
                        artifactDigest, 1, 1, SlotOf(role).value),
                f.circuitVersion, inputs, InputOf(f.caseId, role, t.upload, t.nonce, inputs),
                f.publicKey, f.fingerprint, f.policyId, f.policyVersion, FullFhe256,
                claim, authorization.value, OfKey(own.key), f.created, t.expires, t.nonce))
  }

  /** When a case derives an enrollment: complete facts, a deployed adapter, an artifact of this case, side and role that expires within it. */
  lemma {:induction false} BuildsExactly(v: Adapters, f: Facts, t: Artifact, d: Digest, role: Role, inputs: Digest)
    ensures BuildEnrollment(v, f, t, d, role, inputs).Ok? <==>
              && f.caseId != Zero && f.asset != Zero && f.policyId != Zero && f.circuit != Zero && f.fingerprint != Zero
              && f.publicKey != Zero && f.session != Zero && f.policyVersion == 1 && f.circuitVersion == 5
              && f.a.id != Zero && f.b.id != Zero && f.a.id != f.b.id && f.a.role == RoleA && f.b.role == RoleB
              && (role == RoleA || role == RoleB) && f.asset in v && v[f.asset] != 0
              && t.caseId == f.caseId && t.session == f.session && t.role == role
              && t.participant == (if role == RoleA then f.a.id else f.b.id)
              && t.publicKey == f.publicKey && t.fingerprint == f.fingerprint && t.circuit == f.circuit
              && d != Zero && t.nonce != Zero && t.upload != Zero && inputs != Zero
              && 0 < f.created < t.expires <= f.expires
  {
    BuildsInSteps(v, f, t, d, role, inputs);
    FactsSpelled(f);
    if role == RoleA || role == RoleB {
      BindingSpelled(f, t, role, d, inputs);
    }
  }

  lemma {:induction false} FactsSpelled(f: Facts)
    ensures ValidFacts(f) <==>
              && f.caseId != Zero && f.asset != Zero && f.policyId != Zero && f.circuit != Zero && f.fingerprint != Zero
              && f.publicKey != Zero && f.session != Zero && f.policyVersion == 1 && f.circuitVersion == 5
              && f.a.id != Zero && f.b.id != Zero && f.a.id != f.b.id && f.a.role == RoleA && f.b.role == RoleB
              && 0 < f.created < f.expires
  {
  }

  lemma {:induction false} BindingSpelled(f: Facts, t: Artifact, role: Role, d: Digest, inputs: Digest)
    requires role == RoleA || role == RoleB
    ensures ArtifactBinds(f, t, role, d, inputs) <==>
              && t.caseId == f.caseId && t.session == f.session && t.role == role
              && t.participant == (if role == RoleA then f.a.id else f.b.id)
              && t.publicKey == f.publicKey && t.fingerprint == f.fingerprint && t.circuit == f.circuit
              && d != Zero && t.nonce != Zero && t.upload != Zero && inputs != Zero
  {
  }

  /** With complete facts the claim can be committed to exactly when the adapter is not the zero address. */
  lemma {:induction false} ClaimCommits(f: Facts, id: Digest, role: Role, vault: int, nonce: Digest)
    requires ValidFacts(f) && id != Zero
    ensures AuthorizationCommitment(Claim(id, OfRole(role), vault, f.policyId, f.policyVersion, f.expires, nonce), f.publicKey).Ok? <==> vault != 0
  {
  }

  lemma {:induction false} BuildsInSteps(v: Adapters, f: Facts, t: Artifact, d: Digest, role: Role, inputs: Digest)
    ensures BuildEnrollment(v, f, t, d, role, inputs).Ok? <==>
              && ValidFacts(f) && (role == RoleA || role == RoleB) && f.asset in v && v[f.asset] != 0
              && ArtifactBinds(f, t, role, d, inputs) && f.created < t.expires <= f.expires
  {
    if ValidFacts(f) && f.asset in v {
      ClaimCommits(f, Own(f, role).id, role, v[f.asset], t.nonce);
    }
  }

  /**
   What a derived enrollment says, against the case: `id` and `key` are the role's own, `peer` the other side's id.
   Every field is pinned, so two derivations agree in nothing they should not.
   */
  predicate Says(v: Adapters, f: Facts, t: Artifact, d: Digest, role: Role, inputs: Digest, e: Enrollment, id: Digest, key: int, peer: Digest)
    requires f.asset in v
  {
    // whose it is, and of which session
    && e.claim.subject == id && e.binding.own == id && e.binding.counterparty == peer && e.claim.role == OfRole(role)
    && e.binding.slot == (if role == RoleA then 0 else 1)
    && e.binding.session == f.session && e.binding.nullifier == NullifierOf(f.session)
    && e.binding.governance == GovernanceOf(f.session, id, key) && e.binding.source == d
    && e.binding.authorizationEpoch == 1 && e.binding.budgetEpoch == 1
    // what it authorizes
    && e.ciphertexts == inputs && e.input == InputOf(f.caseId, role, t.upload, t.nonce, inputs)
    && e.keyId == f.publicKey && e.fingerprint == f.fingerprint && e.policyId == f.policyId && e.claim.policyId == f.policyId
    && e.version == 5 && e.circuitVersion == 5 && e.policyVersion == 1 && e.claim.policyVersion == 1 && e.mode == FullFhe256
    && e.claim.vault == v[f.asset] && e.authorization == AuthorizationOf(e.claim, f.publicKey)
    // who signs it, and how long it lives
    && e.issuer == OfKey(key) && e.issuedAt == f.created && e.validUntil == t.expires && e.claim.validUntil == f.expires
    && e.nonce == t.nonce && e.claim.nonce == t.nonce
  }

  lemma {:induction false} BuiltSays(v: Adapters, f: Facts, t: Artifact, d: Digest, role: Role, inputs: Digest)
    requires BuildEnrollment(v, f, t, d, role, inputs).Ok?
    ensures var e := BuildEnrollment(v, f, t, d, role, inputs).value;
            && f.asset in v
            && (role == RoleA ==> Says(v, f, t, d, role, inputs, e, f.a.id, f.a.key, f.b.id))
            && (role == RoleB ==> Says(v, f, t, d, role, inputs, e, f.b.id, f.b.key, f.a.id))
            && (role == RoleA || role == RoleB)
  {
  }

  /** A derived enrollment is always valid and names its own issuer. */
  lemma {:induction false} BuiltIsValid(v: Adapters, f: Facts, t: Artifact, d: Digest, role: Role, inputs: Digest)
    requires BuildEnrollment(v, f, t, d, role, inputs).Ok?
    ensures ValidEnrollment(BuildEnrollment(v, f, t, d, role, inputs).value)
  {
  }

  /**
   The two enrollments of one case pair exactly when their artifacts, their submission nonces and their
   circuit inputs all differ. Being derived from two different artifacts is not enough.
   */
  lemma {:induction false} OneCasePairsExactly(
      v: Adapters, f: Facts, ta: Artifact, da: Digest, ia: Digest, tb: Artifact, db: Digest, ib: Digest,
      sa: Signature<Digest>, sb: Signature<Digest>)
    requires BuildEnrollment(v, f, ta, da, RoleA, ia).Ok? && BuildEnrollment(v, f, tb, db, RoleB, ib).Ok?
    ensures var a := SignedEnrollment(BuildEnrollment(v, f, ta, da, RoleA, ia).value, sa);
            var b := SignedEnrollment(BuildEnrollment(v, f, tb, db, RoleB, ib).value, sb);
            && (PairEnrollments(Some(a), Some(b)).Ok? <==> da != db && ta.nonce != tb.nonce && ia != ib)
            && PairEnrollments(Some(b), Some(a)).Err?
  {
    BuiltIsValid(v, f, ta, da, RoleA, ia);
    BuiltIsValid(v, f, tb, db, RoleB, ib);
  }

  /** With digests taken of the artifacts themselves, the roles already keep the artifacts apart. */
  lemma {:induction false} OneCasePairsForOwnArtifacts(
      v: Adapters, f: Facts, ta: Artifact, ia: Digest, tb: Artifact, ib: Digest, sa: Signature<Digest>, sb: Signature<Digest>)
    requires BuildEnrollment(v, f, ta, OfArtifact(ta), RoleA, ia).Ok? && BuildEnrollment(v, f, tb, OfArtifact(tb), RoleB, ib).Ok?
    ensures var a := SignedEnrollment(BuildEnrollment(v, f, ta, OfArtifact(ta), RoleA, ia).value, sa);
            var b := SignedEnrollment(BuildEnrollment(v, f, tb, OfArtifact(tb), RoleB, ib).value, sb);
            PairEnrollments(Some(a), Some(b)).Ok? <==> ta.nonce != tb.nonce && ia != ib
  {
    OneCasePairsExactly(v, f, ta, OfArtifact(ta), ia, tb, OfArtifact(tb), ib, sa, sb);
    assert ta.role != tb.role;
  }

  /** Enrollments of two different case bindings never pair, in any roles. */
  lemma {:induction false} DifferentCasesNeverPair(
      v: Adapters, f: Facts, ta: Artifact, da: Digest, ra: Role, ia: Digest,
      v': Adapters, f': Facts, tb: Artifact, db: Digest, rb: Role, ib: Digest, sa: Signature<Digest>, sb: Signature<Digest>)
    requires BuildEnrollment(v, f, ta, da, ra, ia).Ok? && BuildEnrollment(v', f', tb, db, rb, ib).Ok? && f.session != f'.session
    ensures PairEnrollments(Some(SignedEnrollment(BuildEnrollment(v, f, ta, da, ra, ia).value, sa)),
                            Some(SignedEnrollment(BuildEnrollment(v', f', tb, db, rb, ib).value, sb))).Err?
  {
  }

  // ----- stored records

  datatype Record = Record(
    schema: string, role: Role, caseId: Digest, session: Digest, participant: Digest, artifact: Digest, upload: Digest,
    inputs: Digest, vault: int, issuedAt: int, validUntil: int, signingDigest: Digest, signature: Signature<Digest>)

  const SCHEMA := "mordant.fhe-participant-enrollment-v5/1"

  function AssembleRecord(v: Adapters, f: Facts, t: Artifact, d: Digest, role: Role, inputs: Digest, s: Signature<Digest>): Result<Record> {
    var e := BuildEnrollment(v, f, t, d, role, inputs);
    if e.Err? then Err
    else if s != Signature(Own(f, role).key, OfEnrollment(e.value)) then Err
    else Ok(Record(SCHEMA, role, f.caseId, f.session, Own(f, role).id, d, t.upload, inputs, v[f.asset], f.created, t.expires,
                   OfEnrollment(e.value), s))
  }

  function Reconstruct(v: Adapters, f: Facts, t: Artifact, d: Digest, role: Role, inputs: Digest, stored: Record): Result<SignedEnrollment> {
    if stored.schema != SCHEMA || stored.role != role then Err
    else
      var rebuilt := AssembleRecord(v, f, t, d, role, inputs, stored.signature);
      if rebuilt.Err? then Err
      else if rebuilt.value.issuedAt != stored.issuedAt || rebuilt.value.caseId != stored.caseId || rebuilt.value.session != stored.session ||
              rebuilt.value.participant != stored.participant || rebuilt.value.artifact != stored.artifact ||
              rebuilt.value.upload != stored.upload || rebuilt.value.inputs != stored.inputs || rebuilt.value.vault != stored.vault ||
              rebuilt.value.validUntil != stored.validUntil || rebuilt.value.signingDigest != stored.signingDigest then Err
      else
        var e := BuildEnrollment(v, f, t, d, role, inputs);
        if e.Err? then Err else Ok(SignedEnrollment(e.value, stored.signature))
  }

  /** A stored record is accepted exactly when it is the one the case itself derives, so there is only one. */
  lemma {:induction false} ReconstructExact(v: Adapters, f: Facts, t: Artifact, d: Digest, role: Role, inputs: Digest, stored: Record)
    ensures var e := BuildEnrollment(v, f, t, d, role, inputs);
            var out := Reconstruct(v, f, t, d, role, inputs, stored);
            && (out.Ok? <==> e.Ok? && Ok(stored) == AssembleRecord(v, f, t, d, role, inputs, Signature(Own(f, role).key, OfEnrollment(e.value))))
            && (out.Ok? ==> out.value.enrollment == e.value && out.value.signature == Signature(Own(f, role).key, OfEnrollment(e.value)))
  {
  }

  /** Which stored record is accepted, field by field: the one of this case, side and artifact, signed with the role's own key. */
  lemma {:induction false} RecordExactly(v: Adapters, f: Facts, t: Artifact, d: Digest, role: Role, inputs: Digest, stored: Record)
    ensures var e, me := BuildEnrollment(v, f, t, d, role, inputs), if role == RoleA then f.a else f.b;
            var out := Reconstruct(v, f, t, d, role, inputs, stored);
            && (out.Ok? <==>
                  e.Ok? && stored == Record("mordant.fhe-participant-enrollment-v5/1", role, f.caseId, f.session, me.id, d, t.upload, inputs,
                                            v[f.asset], f.created, t.expires, OfEnrollment(e.value), Signature(me.key, OfEnrollment(e.value))))
            && (out.Ok? ==> out.value == SignedEnrollment(e.value, Signature(me.key, OfEnrollment(e.value))))
  {
    ReconstructExact(v, f, t, d, role, inputs, stored);
    BuildsExactly(v, f, t, d, role, inputs);
  }

  // ----- the release-side gate of one case

  /** RegisterCaseEnrollmentIssuers: each participant may issue for the case window; a revoked key is refused. */
  function RegisterIssuer(v: Evaluator, i: Identity, f: Facts): Result<Evaluator> {
    if Revoked(v, i.key) || f.created < 0 || f.expires <= f.created then Err
    else Ok(v.(issuers := v.issuers[OfKey(i.key) := Issuer(i.key, f.created, f.expires, false)]))
  }

  function RegisterIssuers(v: Evaluator, f: Facts): Result<Evaluator> {
    if !ValidFacts(f) then Err
    else
      var one := RegisterIssuer(v, f.a, f);
      if one.Err? then Err else RegisterIssuer(one.value, f.b, f)
  }

  /** The checks on the two re-derived enrollments: trust store, issuers, signatures, pairing, vaults, authorization. */
  function AdmitPair(v: Evaluator, f: Facts, ia: Digest, ib: Digest, a: SignedEnrollment, b: SignedEnrollment, now: int): Result<Paired> {
    var trusted := RegisterIssuers(v, f);
    if trusted.Err? then Err
    else if a.enrollment.issuer != OfKey(f.a.key) || b.enrollment.issuer != OfKey(f.b.key) then Err
    else if VerifyEnrollment(trusted.value, Some(a), now).Err? || VerifyEnrollment(trusted.value, Some(b), now).Err? then Err
    else
      var paired := PairEnrollments(Some(a), Some(b));
      if paired.Err? then Err
      else if a.enrollment.claim.vault != b.enrollment.claim.vault then Err
      else if paired.value.session != f.session || paired.value.ciphertextsA != ia || paired.value.ciphertextsB != ib ||
              paired.value.scopeA != f.a.id || paired.value.scopeB != f.b.id then Err
      else Ok(paired.value)
  }

  function VerifyCaseEnrollments(
      adapters: Adapters, v: Evaluator, f: Facts, ta: Artifact, da: Digest, ia: Digest, tb: Artifact, db: Digest, ib: Digest,
      storedA: Record, storedB: Record, now: int): Result<Paired> {
    var a := Reconstruct(adapters, f, ta, da, RoleA, ia, storedA);
    var b := Reconstruct(adapters, f, tb, db, RoleB, ib, storedB);
    if !ValidFacts(f) || a.Err? || b.Err? then Err else AdmitPair(v, f, ia, ib, a.value, b.value, now)
  }

  lemma {:induction false} IssuersExact(v: Evaluator, f: Facts)
    requires ValidFacts(f)
    ensures RegisterIssuers(v, f).Ok? <==> !Revoked(v, f.a.key) && !Revoked(v, f.b.key)
    ensures RegisterIssuers(v, f).Ok? ==>
      var t := RegisterIssuers(v, f).value;
      && t.keyId == v.keyId && t.fingerprint == v.fingerprint
      && OfKey(f.a.key) in t.issuers && t.issuers[OfKey(f.a.key)] == Issuer(f.a.key, f.created, f.expires, false)
      && OfKey(f.b.key) in t.issuers && t.issuers[OfKey(f.b.key)] == Issuer(f.b.key, f.created, f.expires, false)
  {
  }

  /** A reconstructed enrollment verifies, before an evaluator trusting its issuer, exactly in its window and for its key. */
  lemma {:induction false} VerifyExact(
      adapters: Adapters, t: Evaluator, f: Facts, artifact: Artifact, d: Digest, role: Role, inputs: Digest, stored: Record, now: int)
    requires Reconstruct(adapters, f, artifact, d, role, inputs, stored).Ok?
    requires var key := Own(f, role).key; OfKey(key) in t.issuers && t.issuers[OfKey(key)] == Issuer(key, f.created, f.expires, false)
    ensures VerifyEnrollment(t, Some(Reconstruct(adapters, f, artifact, d, role, inputs, stored).value), now).Ok? <==>
              f.publicKey == t.keyId && f.fingerprint == t.fingerprint && f.created <= now <= artifact.expires
  {
    ReconstructExact(adapters, f, artifact, d, role, inputs, stored);
    BuiltIsValid(adapters, f, artifact, d, role, inputs);
  }

  /** What two reconstructed enrollments of a case pair to, when they do. */
  lemma {:induction false} PairedFields(
      adapters: Adapters, f: Facts, ta: Artifact, da: Digest, ia: Digest, tb: Artifact, db: Digest, ib: Digest, storedA: Record, storedB: Record)
    requires Reconstruct(adapters, f, ta, da, RoleA, ia, storedA).Ok? && Reconstruct(adapters, f, tb, db, RoleB, ib, storedB).Ok?
    ensures var a := Reconstruct(adapters, f, ta, da, RoleA, ia, storedA).value;
            var b := Reconstruct(adapters, f, tb, db, RoleB, ib, storedB).value;
            var paired := PairEnrollments(Some(a), Some(b));
            && (paired.Ok? <==> da != db && ta.nonce != tb.nonce && ia != ib)
            && a.enrollment.claim.vault == b.enrollment.claim.vault
            && (paired.Ok? ==>
                  && paired.value.session == f.session && paired.value.ciphertextsA == ia && paired.value.ciphertextsB == ib
                  && paired.value.scopeA == f.a.id && paired.value.scopeB == f.b.id)
  {
    var a, b := Reconstruct(adapters, f, ta, da, RoleA, ia, storedA).value, Reconstruct(adapters, f, tb, db, RoleB, ib, storedB).value;
    ReconstructExact(adapters, f, ta, da, RoleA, ia, storedA);
    ReconstructExact(adapters, f, tb, db, RoleB, ib, storedB);
    OneCasePairsExactly(adapters, f, ta, da, ia, tb, db, ib, a.signature, b.signature);
  }

  predicate Revoked(v: Evaluator, key: int) {
    OfKey(key) in v.issuers && v.issuers[OfKey(key)].revoked
  }

  /** The gate for enrollments about which the three lemmas above are known. */
  lemma {:induction false} AdmitExact(v: Evaluator, f: Facts, ia: Digest, ib: Digest, a: SignedEnrollment, b: SignedEnrollment, now: int,
                                      window: bool, apart: bool)
    requires ValidFacts(f) && a.enrollment.issuer == OfKey(f.a.key) && b.enrollment.issuer == OfKey(f.b.key)
    requires a.enrollment.claim.vault == b.enrollment.claim.vault
    requires RegisterIssuers(v, f).Ok? ==>
      (VerifyEnrollment(RegisterIssuers(v, f).value, Some(a), now).Ok? && VerifyEnrollment(RegisterIssuers(v, f).value, Some(b), now).Ok? <==> window)
    requires var paired := PairEnrollments(Some(a), Some(b));
             && (paired.Ok? <==> apart)
             && (paired.Ok? ==>
                   && paired.value.session == f.session && paired.value.ciphertextsA == ia && paired.value.ciphertextsB == ib
                   && paired.value.scopeA == f.a.id && paired.value.scopeB == f.b.id)
    ensures AdmitPair(v, f, ia, ib, a, b, now).Ok? <==> RegisterIssuers(v, f).Ok? && window && apart
  {
  }

  lemma {:induction false} WindowsExact(
      adapters: Adapters, v: Evaluator, f: Facts, ta: Artifact, da: Digest, ia: Digest, tb: Artifact, db: Digest, ib: Digest,
      storedA: Record, storedB: Record, now: int)
    requires Reconstruct(adapters, f, ta, da, RoleA, ia, storedA).Ok? && Reconstruct(adapters, f, tb, db, RoleB, ib, storedB).Ok?
    requires ValidFacts(f) && RegisterIssuers(v, f).Ok?
    ensures var a := Reconstruct(adapters, f, ta, da, RoleA, ia, storedA).value;
            var b := Reconstruct(adapters, f, tb, db, RoleB, ib, storedB).value;
            var trusted := RegisterIssuers(v, f).value;
            VerifyEnrollment(trusted, Some(a), now).Ok? && VerifyEnrollment(trusted, Some(b), now).Ok? <==>
            f.publicKey == v.keyId && f.fingerprint == v.fingerprint && f.created <= now <= ta.expires && now <= tb.expires
  {
    IssuersExact(v, f);
    VerifyExact(adapters, RegisterIssuers(v, f).value, f, ta, da, RoleA, ia, storedA, now);
    VerifyExact(adapters, RegisterIssuers(v, f).value, f, tb, db, RoleB, ib, storedB, now);
  }

  lemma {:induction false} IssuerOfReconstructed(v: Adapters, f: Facts, t: Artifact, d: Digest, role: Role, inputs: Digest, stored: Record)
    requires Reconstruct(v, f, t, d, role, inputs, stored).Ok?
    ensures ValidFacts(f) && Reconstruct(v, f, t, d, role, inputs, stored).value.enrollment.issuer == OfKey(Own(f, role).key)
  {
  }

  lemma {:induction false} AdmittedWhenReconstructed(
      adapters: Adapters, v: Evaluator, f: Facts, ta: Artifact, da: Digest, ia: Digest, tb: Artifact, db: Digest, ib: Digest,
      storedA: Record, storedB: Record, now: int, a: SignedEnrollment, b: SignedEnrollment)
    requires Reconstruct(adapters, f, ta, da, RoleA, ia, storedA) == Ok(a) && Reconstruct(adapters, f, tb, db, RoleB, ib, storedB) == Ok(b)
    ensures ValidFacts(f)
    ensures AdmitPair(v, f, ia, ib, a, b, now).Ok? <==>
      && da != db && ta.nonce != tb.nonce && ia != ib
      && f.publicKey == v.keyId && f.fingerprint == v.fingerprint
      && !Revoked(v, f.a.key) && !Revoked(v, f.b.key)
      && f.created <= now <= ta.expires && now <= tb.expires
  {
    IssuerOfReconstructed(adapters, f, ta, da, RoleA, ia, storedA);
    IssuerOfReconstructed(adapters, f, tb, db, RoleB, ib, storedB);
    IssuersExact(v, f);
    PairedFields(adapters, f, ta, da, ia, tb, db, ib, storedA, storedB);
    if RegisterIssuers(v, f).Ok? {
      WindowsExact(adapters, v, f, ta, da, ia, tb, db, ib, storedA, storedB, now);
    }
    AdmitExact(v, f, ia, ib, a, b, now,
               f.publicKey == v.keyId && f.fingerprint == v.fingerprint && f.created <= now <= ta.expires && now <= tb.expires,
               da != db && ta.nonce != tb.nonce && ia != ib);
  }

  /**
   The gate of a case, decided by conditions on the case alone: it opens exactly when both stored records are
   the derived ones, the sides' artifacts, nonces and inputs differ, the evaluator serves this key and these
   parameters and has revoked neither participant, and the time lies in the case window and both artifact windows.
   Everything else it looks at (the issuer, the vaults, the paired fields) then agrees of itself.
   */
  lemma {:induction false} CaseGateExact(
      adapters: Adapters, v: Evaluator, f: Facts, ta: Artifact, da: Digest, ia: Digest, tb: Artifact, db: Digest, ib: Digest,
      storedA: Record, storedB: Record, now: int)
    ensures VerifyCaseEnrollments(adapters, v, f, ta, da, ia, tb, db, ib, storedA, storedB, now).Ok? <==>
      && Reconstruct(adapters, f, ta, da, RoleA, ia, storedA).Ok? && Reconstruct(adapters, f, tb, db, RoleB, ib, storedB).Ok?
      && da != db && ta.nonce != tb.nonce && ia != ib
      && f.publicKey == v.keyId && f.fingerprint == v.fingerprint
      && !Revoked(v, f.a.key) && !Revoked(v, f.b.key)
      && f.created <= now <= ta.expires && now <= tb.expires
  {
    var a := Reconstruct(adapters, f, ta, da, RoleA, ia, storedA);
    var b := Reconstruct(adapters, f, tb, db, RoleB, ib, storedB);
    if a.Ok? && b.Ok? {
      AdmittedWhenReconstructed(adapters, v, f, ta, da, ia, tb, db, ib, storedA, storedB, now, a.value, b.value);
    }
  }

  /**
   What the gate of a case lets through: two enrollments that each name, as the subject of their claim and as their own
   side, the participant the case admitted for that role, and are signed with that participant's key; everything else
   they say is the case's too. The pair it returns is of the case's session, sides and circuit inputs.
   */
  lemma {:induction false} GateAdmits(
      adapters: Adapters, v: Evaluator, f: Facts, ta: Artifact, da: Digest, ia: Digest, tb: Artifact, db: Digest, ib: Digest,
      storedA: Record, storedB: Record, now: int)
    requires VerifyCaseEnrollments(adapters, v, f, ta, da, ia, tb, db, ib, storedA, storedB, now).Ok?
    ensures Reconstruct(adapters, f, ta, da, RoleA, ia, storedA).Ok? && Reconstruct(adapters, f, tb, db, RoleB, ib, storedB).Ok?
    ensures var a := Reconstruct(adapters, f, ta, da, RoleA, ia, storedA).value;
            var b := Reconstruct(adapters, f, tb, db, RoleB, ib, storedB).value;
            var paired := VerifyCaseEnrollments(adapters, v, f, ta, da, ia, tb, db, ib, storedA, storedB, now).value;
            && a.enrollment.claim.subject == f.a.id && b.enrollment.claim.subject == f.b.id && f.a.id != f.b.id
            && a.signature == Signature(f.a.key, OfEnrollment(a.enrollment)) && b.signature == Signature(f.b.key, OfEnrollment(b.enrollment))
            && (OfKey(f.a.key) in v.issuers ==> !v.issuers[OfKey(f.a.key)].revoked)
            && (OfKey(f.b.key) in v.issuers ==> !v.issuers[OfKey(f.b.key)].revoked)
            && f.publicKey == v.keyId && f.fingerprint == v.fingerprint && f.created <= now <= ta.expires && now <= tb.expires
            && f.asset in adapters
            && Says(adapters, f, ta, da, RoleA, ia, a.enrollment, f.a.id, f.a.key, f.b.id)
            && Says(adapters, f, tb, db, RoleB, ib, b.enrollment, f.b.id, f.b.key, f.a.id)
            && PairEnrollments(Some(a), Some(b)) == Ok(paired)
            && paired == Paired(f.session, NullifierOf(f.session), OfEnrollment(a.enrollment), OfEnrollment(b.enrollment), f.a.id, f.b.id,
                                InputOf(f.caseId, RoleA, ta.upload, ta.nonce, ia), InputOf(f.caseId, RoleB, tb.upload, tb.nonce, ib), ia, ib)
  {
    var a := Reconstruct(adapters, f, ta, da, RoleA, ia, storedA);
    var b := Reconstruct(adapters, f, tb, db, RoleB, ib, storedB);
    RecordExactly(adapters, f, ta, da, RoleA, ia, storedA);
    RecordExactly(adapters, f, tb, db, RoleB, ib, storedB);
    BuiltSays(adapters, f, ta, da, RoleA, ia);
    BuiltSays(adapters, f, tb, db, RoleB, ib);
    PairedMeans(a.value, b.value);
    CaseGateExact(adapters, v, f, ta, da, ia, tb, db, ib, storedA, storedB, now);
  }
}
