/**
 Evaluation and governed release of one case, as interleaved processes over two
 create-only stores. Every process is a program counter; one step is one store
 access, one decryption or one signature. A process may stop for ever between
 any two steps (a crash, or any failed read), and any number of them may run at
 once. Digests are modelled as the values they digest.
 */
module GovernedRelease {
  import opened Basics
  import opened SlotVectors
  import opened PolicyCircuit

  // ----- the case and its records

  /**
   One case: its validity window, its signing authority, what verifies as a submission of side A (true) or B (false),
   the circuit everybody recomputes, and the gate of its enrollments, which are public before the submissions they
   belong to.
   */
  datatype Case = Case(created: int, expires: int, authority: int,
                       genuine: (Submission, bool) -> bool,
                       recompute: (CipherPledge, CipherPledge) -> Cipher,
                       enrolled: (Submission, Submission, int) -> bool)

  predicate ValidCase(c: Case) {
    0 < c.created < c.expires
  }

  predicate InWindow(c: Case, now: int) {
    c.created <= now <= c.expires
  }

  /** A participant's published input: the signed manifest together with the ciphertexts it digests. */
  datatype Submission = Submission(pledge: CipherPledge, nonce: int, expiresAt: int)

  /** loadAndValidateFreshParticipants: two live submissions that verify, within the case, under two different nonces. */
  predicate FreshPair(c: Case, a: Submission, b: Submission, now: int) {
    && c.genuine(a, true) && c.genuine(b, false)
    && a.nonce != 0 && b.nonce != 0 && a.nonce != b.nonce
    && now < a.expiresAt <= c.expires && now < b.expiresAt <= c.expires
  }

  datatype Artifact = Artifact(subA: Submission, subB: Submission, ciphertext: Cipher, provenance: int, evaluatedAt: int)

  datatype EvaluationAdmission = EvaluationAdmission(subA: Submission, subB: Submission, provenance: int, admittedAt: int)

  datatype EvaluationCompleted = EvaluationCompleted(artifact: Artifact, completedAt: int)

  datatype RecomputeAdmission = RecomputeAdmission(artifact: Artifact, subA: Submission, subB: Submission, admittedAt: int)

  datatype Mismatch = Mismatch(artifact: Artifact, recomputed: Cipher, detectedAt: int)

  datatype Verified = Verified(artifact: Artifact, recomputed: Cipher, verifiedAt: int)

  datatype ReleaseAdmission = ReleaseAdmission(artifact: Artifact, admittedAt: int)

  datatype GovernedResult = GovernedResult(
    artifact: Artifact, ciphertext: Cipher, conflict: bool, releasedAt: int, provenance: int, signer: int)

  datatype Consumed = Consumed(artifact: Artifact, result: GovernedResult, consumedAt: int)

  /** Public objects an evaluation reads and writes; `owner` and `executions` record history. */
  datatype Inputs = Inputs(
    submissionA: Option<Submission>,
    submissionB: Option<Submission>,
    admission: Option<EvaluationAdmission>,
    ciphertext: Option<Cipher>,
    evaluated: Option<Artifact>,
    completed: Option<EvaluationCompleted>,
    owner: Option<nat>,
    executions: nat)

  /** Private objects of the recomputation; `owner` is the process that won the admission. */
  datatype Recomputation = Recomputation(
    admission: Option<RecomputeAdmission>,
    mismatch: Option<Mismatch>,
    ciphertext: Option<Cipher>,
    verified: Option<Verified>,
    owner: Option<nat>,
    executions: nat)

  /** Objects of the release: all private but `published`; `owner` is the process that won the admission. */
  datatype ReleaseRecords = ReleaseRecords(
    admission: Option<ReleaseAdmission>,
    retained: Option<GovernedResult>,
    published: Option<GovernedResult>,
    consumed: Option<Consumed>,
    owner: Option<nat>,
    decryptions: nat,
    signatures: nat)

  datatype World = World(inputs: Inputs, recomputation: Recomputation, release: ReleaseRecords)

  const EMPTY: World := World(Inputs(None, None, None, None, None, None, None, 0),
                              Recomputation(None, None, None, None, None, 0),
                              ReleaseRecords(None, None, None, None, None, 0, 0))

  // ----- what the readers check

  /** The recomputed ciphertext of an artifact. */
  function Recomputed(c: Case, a: Artifact): Cipher {
    c.recompute(a.subA.pledge, a.subB.pledge)
  }

  /** validateEvaluatedArtifact: the artifact, its ciphertext and both evaluation records agree in the public store. */
  predicate ArtifactValid(i: Inputs, a: Artifact) {
    && a.evaluatedAt > 0 && a.provenance != 0
    && i.submissionA == Some(a.subA) && i.submissionB == Some(a.subB)
    && i.ciphertext == Some(a.ciphertext)
    && i.admission.Some?
    && (var e := i.admission.value;
        e.subA == a.subA && e.subB == a.subB && e.provenance == a.provenance && e.admittedAt > 0)
    && i.completed.Some? && i.completed.value.artifact == a && i.completed.value.completedAt > 0
  }

  /** loadVerifiedRecomputation */
  predicate VerifiedLoads(r: Recomputation, a: Artifact) {
    && r.admission.Some?
    && (var d := r.admission.value;
        d.artifact == a && d.subA == a.subA && d.subB == a.subB && d.admittedAt > 0)
    && r.verified.Some?
    && r.verified.value.artifact == a && r.verified.value.verifiedAt > 0
    && r.ciphertext == Some(r.verified.value.recomputed)
  }

  /** verifyGovernedResult */
  predicate ResultVerifies(c: Case, r: GovernedResult, a: Artifact) {
    r.artifact == a && r.ciphertext == a.ciphertext && r.releasedAt > 0 && r.provenance != 0 && r.signer == c.authority
  }

  predicate AdmissionLoads(l: ReleaseRecords, a: Artifact) {
    l.admission.Some? && l.admission.value.artifact == a && l.admission.value.admittedAt > 0
  }

  /** The decoded vector must be one Boolean followed by zeros. */
  ghost predicate Canonical(ct: Cipher) {
    ct.slots[0] <= 1 && OnlySlotZero(ct)
  }

  // ----- a release attempt

  /** exactRetry: finish an earlier release from its retained result. */
  datatype RetryPc =
    | RetryTest
    | RetryLoad
    | RetryPublicTest(res: GovernedResult)
    | RetryPublish(res: GovernedResult)
    | RetryConsumedTest(res: GovernedResult)
    | RetryConsume(res: GovernedResult)

  /** prepareVerifiedRecomputation: recompute the circuit once, or reuse the verified recomputation. */
  datatype PreparePc =
    | Participants
    | MismatchTest
    | VerifiedTest
    | RecomputeTest
    | MismatchRetest
    | VerifiedRetest
    | RecomputeRetest
    | AdmitRecompute
    | Recompute
    | RecordMismatch(ct: Cipher)
    | StoreRecomputed(ct: Cipher)
    | StoreVerified(ct: Cipher)

  /** release: the one-shot decryption and signature. */
  datatype ReleasePc =
    | AdmissionTest
    | ConsumedTest
    | AdmitRelease(ct: Cipher)
    | Decrypt(ct: Cipher)
    | Sign(ct: Cipher, bit: bool)
    | Retain(res: GovernedResult)
    | Publish(res: GovernedResult)
    | Consume(res: GovernedResult)

  datatype Pc =
    | Start(expected: Artifact)
    | Retry(art: Artifact, at: RetryPc)
    | Prepare(art: Artifact, inside: PreparePc)
    | Release(art: Artifact, on: ReleasePc)
    | Returned(res: GovernedResult)
    | Halted

  datatype Process = Process(now: int, provenance: int, pc: Pc)

  function RetryStep(c: Case, w: World, now: int, art: Artifact, pc: RetryPc): (World, Pc) {
    var l := w.release;
    match pc
    case RetryTest =>
      (w, if l.retained.Some? then Retry(art, RetryLoad) else Release(art, AdmissionTest))
    case RetryLoad =>
      if l.retained.Some? && VerifiedLoads(w.recomputation, art) && ResultVerifies(c, l.retained.value, art) &&
         l.retained.value.ciphertext == w.recomputation.verified.value.recomputed && AdmissionLoads(l, art)
      then (w, Retry(art, RetryPublicTest(l.retained.value))) else (w, Halted)
    case RetryPublicTest(res) =>
      if l.published.None? then (w, Retry(art, RetryPublish(res)))
      else if l.published == Some(res) then (w, Retry(art, RetryConsumedTest(res))) else (w, Halted)
    case RetryPublish(res) =>
      if l.published.None? then (w.(release := l.(published := Some(res))), Retry(art, RetryConsumedTest(res)))
      else (w, Halted)
    case RetryConsumedTest(res) =>
      if l.consumed.None? then (w, Retry(art, RetryConsume(res)))
      else if l.consumed.value.artifact == art && l.consumed.value.result == res && l.consumed.value.consumedAt > 0
      then (w, Returned(res)) else (w, Halted)
    case RetryConsume(res) =>
      if l.consumed.None? then (w.(release := l.(consumed := Some(Consumed(art, res, now)))), Returned(res))
      else (w, Halted)
  }

  function PrepareStep(c: Case, w: World, now: int, me: nat, art: Artifact, pc: PreparePc): (World, Pc) {
    var r := w.recomputation;
    match pc
    case Participants =>
      if w.inputs.submissionA == Some(art.subA) && w.inputs.submissionB == Some(art.subB) && FreshPair(c, art.subA, art.subB, now)
      then (w, Prepare(art, MismatchTest)) else (w, Halted)
    case MismatchTest =>
      (w, if r.mismatch.Some? then Halted else Prepare(art, VerifiedTest))
    case VerifiedTest =>
      if r.verified.None? then (w, Prepare(art, RecomputeTest))
      else if VerifiedLoads(r, art) then (w, Release(art, AdmitRelease(r.verified.value.recomputed))) else (w, Halted)
    case RecomputeTest =>
      (w, if r.admission.Some? then Halted else Prepare(art, MismatchRetest))
    case MismatchRetest =>
      (w, if r.mismatch.Some? then Halted else Prepare(art, VerifiedRetest))
    case VerifiedRetest =>
      (w, if r.verified.Some? then Halted else Prepare(art, RecomputeRetest))
    case RecomputeRetest =>
      (w, if r.admission.Some? then Halted else Prepare(art, AdmitRecompute))
    case AdmitRecompute =>
      if r.admission.None?
      then (w.(recomputation := r.(admission := Some(RecomputeAdmission(art, art.subA, art.subB, now)), owner := Some(me))),
            Prepare(art, Recompute))
      else (w, Halted)
    case Recompute =>
      var ct := Recomputed(c, art);
      if !c.enrolled(art.subA, art.subB, now) then (w, Halted)
      else (w.(recomputation := r.(executions := r.executions + 1)),
            Prepare(art, if ct == art.ciphertext then StoreRecomputed(ct) else RecordMismatch(ct)))
    case RecordMismatch(ct) =>
      (w.(recomputation := r.(mismatch := Create(r.mismatch, Mismatch(art, ct, now)))), Halted)
    case StoreRecomputed(ct) =>
      if r.ciphertext.None? then (w.(recomputation := r.(ciphertext := Some(ct))), Prepare(art, StoreVerified(ct)))
      else (w, Halted)
    case StoreVerified(ct) =>
      if r.verified.None?
      then (w.(recomputation := r.(verified := Some(Verified(art, ct, now)))), Release(art, AdmitRelease(ct)))
      else (w, Halted)
  }

  ghost function ReleaseStep(c: Case, w: World, now: int, provenance: int, me: nat, art: Artifact, pc: ReleasePc): (World, Pc) {
    var l := w.release;
    match pc
    case AdmissionTest =>
      (w, if l.admission.Some? then Halted else Release(art, ConsumedTest))
    case ConsumedTest =>
      (w, if l.consumed.Some? then Halted else Prepare(art, Participants))
    case AdmitRelease(ct) =>
      if l.admission.None?
      then (w.(release := l.(admission := Some(ReleaseAdmission(art, now)), owner := Some(me))), Release(art, Decrypt(ct)))
      else (w, Halted)
    case Decrypt(ct) =>
      (w.(release := l.(decryptions := l.decryptions + 1)),
       if Canonical(ct) then Release(art, Sign(ct, ct.slots[0] == 1)) else Halted)
    case Sign(ct, bit) =>
      (w.(release := l.(signatures := l.signatures + 1)),
       Release(art, Retain(GovernedResult(art, ct, bit, now, provenance, c.authority))))
    case Retain(res) =>
      if l.retained.None? then (w.(release := l.(retained := Some(res))), Release(art, Publish(res))) else (w, Halted)
    case Publish(res) =>
      if l.published.None? then (w.(release := l.(published := Some(res))), Release(art, Consume(res))) else (w, Halted)
    case Consume(res) =>
      if l.consumed.None? then (w.(release := l.(consumed := Some(Consumed(art, res, now)))), Returned(res))
      else (w, Halted)
  }

  /** One step of process `me`: the new stores and the next program counter. Every refusal halts the process. */
  ghost function Step(c: Case, w: World, p: Process, me: nat): (World, Pc) {
    match p.pc
    case Start(expected) =>
      var e := w.inputs.evaluated;
      if p.provenance != 0 && InWindow(c, p.now) && e.Some? && ArtifactValid(w.inputs, e.value) && expected == e.value
      then (w, Retry(e.value, RetryTest)) else (w, Halted)
    case Retry(art, pc) => RetryStep(c, w, p.now, art, pc)
    case Prepare(art, pc) => PrepareStep(c, w, p.now, me, art, pc)
    case Release(art, pc) => ReleaseStep(c, w, p.now, p.provenance, me, art, pc)
    case Returned(_) => (w, p.pc)
    case Halted => (w, p.pc)
  }

  // ----- an evaluation attempt

  datatype EvalPc =
    | EvalStart
    | EvalTest(subA: Submission, subB: Submission)
    | EvalRetest(subA: Submission, subB: Submission)
    | EvalAdmit(subA: Submission, subB: Submission)
    | EvalCompute(subA: Submission, subB: Submission)
    | EvalStoreResult(subA: Submission, subB: Submission, ct: Cipher)
    | EvalStoreArtifact(subA: Submission, subB: Submission, ct: Cipher)
    | EvalComplete(art: Artifact)
    | EvalReturned(art: Artifact)
    | EvalHalted

  datatype Evaluation = Evaluation(now: int, provenance: int, pc: EvalPc)

  predicate EvaluationUntouched(i: Inputs) {
    i.admission.None? && i.completed.None? && i.ciphertext.None? && i.evaluated.None?
  }

  function EvalStep(c: Case, i: Inputs, p: Evaluation, me: nat): (Inputs, EvalPc) {
    match p.pc
    case EvalStart =>
      if p.provenance != 0 && InWindow(c, p.now) && i.submissionA.Some? && i.submissionB.Some? &&
         FreshPair(c, i.submissionA.value, i.submissionB.value, p.now)
      then (i, EvalTest(i.submissionA.value, i.submissionB.value)) else (i, EvalHalted)
    case EvalTest(subA, subB) =>
      (i, if EvaluationUntouched(i) then EvalRetest(subA, subB) else EvalHalted)
    case EvalRetest(subA, subB) =>
      (i, if EvaluationUntouched(i) then EvalAdmit(subA, subB) else EvalHalted)
    case EvalAdmit(subA, subB) =>
      if i.admission.None?
      then (i.(admission := Some(EvaluationAdmission(subA, subB, p.provenance, p.now)), owner := Some(me)),
            EvalCompute(subA, subB))
      else (i, EvalHalted)
    case EvalCompute(subA, subB) =>
      (i.(executions := i.executions + 1), EvalStoreResult(subA, subB, c.recompute(subA.pledge, subB.pledge)))
    case EvalStoreResult(subA, subB, ct) =>
      if i.ciphertext.None? then (i.(ciphertext := Some(ct)), EvalStoreArtifact(subA, subB, ct)) else (i, EvalHalted)
    case EvalStoreArtifact(subA, subB, ct) =>
      var art := Artifact(subA, subB, ct, p.provenance, p.now);
      if i.evaluated.None? then (i.(evaluated := Some(art)), EvalComplete(art)) else (i, EvalHalted)
    case EvalComplete(art) =>
      if i.completed.None? then (i.(completed := Some(EvaluationCompleted(art, p.now))), EvalReturned(art))
      else (i, EvalHalted)
    case EvalReturned(_) => (i, p.pc)
    case EvalHalted => (i, p.pc)
  }

  // ----- runs

  datatype State = State(world: World, releases: seq<Process>, evaluations: seq<Evaluation>)

  /**
   Anything the schedule can do next. The Forge actions are a dishonest evaluator: they put
   arbitrary objects under the evaluation's public names, wherever those are still free.
   */
  datatype Action =
    | Submit(sideA: bool, submission: Submission)
    | StartRelease(now: int, provenance: int, expected: Artifact)
    | RunRelease(who: nat)
    | CrashRelease(who: nat)
    | StartEvaluation(now: int, provenance: int)
    | RunEvaluation(who: nat)
    | CrashEvaluation(who: nat)
    | ForgeAdmission(admission: EvaluationAdmission)
    | ForgeCiphertext(ciphertext: Cipher)
    | ForgeArtifact(artifact: Artifact)
    | ForgeCompleted(completed: EvaluationCompleted)

  function WithInputs(s: State, i: Inputs): State {
    s.(world := s.world.(inputs := i))
  }

  ghost function Apply(c: Case, s: State, a: Action): State {
    var i := s.world.inputs;
    match a
    case Submit(sideA, sub) =>
      WithInputs(s, if sideA then i.(submissionA := Create(i.submissionA, sub))
                    else i.(submissionB := Create(i.submissionB, sub)))
    case StartRelease(now, provenance, expected) =>
      s.(releases := s.releases + [Process(now, provenance, Start(expected))])
    case RunRelease(k) =>
      if k < |s.releases| then
        var (w', pc') := Step(c, s.world, s.releases[k], k);
        s.(world := w', releases := s.releases[k := s.releases[k].(pc := pc')])
      else s
    case CrashRelease(k) =>
      if k < |s.releases| then s.(releases := s.releases[k := s.releases[k].(pc := Halted)]) else s
    case StartEvaluation(now, provenance) =>
      s.(evaluations := s.evaluations + [Evaluation(now, provenance, EvalStart)])
    case RunEvaluation(k) =>
      if k < |s.evaluations| then
        var (i', pc') := EvalStep(c, i, s.evaluations[k], k);
        WithInputs(s.(evaluations := s.evaluations[k := s.evaluations[k].(pc := pc')]), i')
      else s
    case CrashEvaluation(k) =>
      if k < |s.evaluations| then s.(evaluations := s.evaluations[k := s.evaluations[k].(pc := EvalHalted)]) else s
    case ForgeAdmission(x) => WithInputs(s, i.(admission := Create(i.admission, x)))
    case ForgeCiphertext(x) => WithInputs(s, i.(ciphertext := Create(i.ciphertext, x)))
    case ForgeArtifact(x) => WithInputs(s, i.(evaluated := Create(i.evaluated, x)))
    case ForgeCompleted(x) => WithInputs(s, i.(completed := Create(i.completed, x)))
  }

  ghost function Run(c: Case, s: State, actions: seq<Action>): State {
    if actions == [] then s else Apply(c, Run(c, s, actions[..|actions| - 1]), actions[|actions| - 1])
  }

  const INITIAL: State := State(EMPTY, [], [])

  // ----- invariants

  /** `a` is the evaluated artifact that the readers accepted. */
  predicate Accepted(i: Inputs, a: Artifact) {
    i.evaluated == Some(a) && ArtifactValid(i, a)
  }

  ghost predicate GoodResult(c: Case, i: Inputs, r: GovernedResult) {
    && Accepted(i, r.artifact) && ResultVerifies(c, r, r.artifact)
    && r.ciphertext == Recomputed(c, r.artifact) && Canonical(r.ciphertext)
    && r.conflict == (r.ciphertext.slots[0] == 1)
    && InWindow(c, r.releasedAt) && FreshPair(c, r.artifact.subA, r.artifact.subB, r.releasedAt)
  }

  /** The participants were fresh and enrolled at time `at`, inside the case window. */
  predicate Authorized(c: Case, a: Artifact, at: int) {
    InWindow(c, at) && FreshPair(c, a.subA, a.subB, at) && c.enrolled(a.subA, a.subB, at)
  }

  /** The recomputation records: one admission, then a mismatch or a verified ciphertext, never both. */
  ghost predicate RecomputationInv(c: Case, i: Inputs, r: Recomputation) {
    && (r.admission.Some? <==> r.owner.Some?)
    && (r.admission.Some? ==>
          var d := r.admission.value;
          Accepted(i, d.artifact) && d.subA == d.artifact.subA && d.subB == d.artifact.subB && d.admittedAt > 0)
    && (r.mismatch.Some? || r.ciphertext.Some? || r.verified.Some? || r.executions > 0 ==> r.admission.Some?)
    && r.executions <= 1
    && (r.mismatch.Some? ==>
          && r.ciphertext.None? && r.verified.None?
          && Accepted(i, r.mismatch.value.artifact)
          && r.mismatch.value.recomputed == Recomputed(c, r.mismatch.value.artifact) != r.mismatch.value.artifact.ciphertext)
    && (r.verified.Some? ==>
          var v := r.verified.value;
          VerifiedLoads(r, v.artifact) && v.recomputed == Recomputed(c, v.artifact) == v.artifact.ciphertext &&
          Authorized(c, v.artifact, v.verifiedAt))
  }

  /** The release records: admission, retained result, public result, consumed marker, in this order. */
  ghost predicate ReleaseInv(c: Case, i: Inputs, r: Recomputation, l: ReleaseRecords) {
    && (l.admission.Some? <==> l.owner.Some?)
    && (l.admission.Some? ==> r.verified.Some? && AdmissionLoads(l, r.verified.value.artifact))
    && (l.retained.Some? || l.decryptions > 0 || l.signatures > 0 ==> l.admission.Some?)
    && l.decryptions <= 1 && l.signatures <= l.decryptions
    && (l.retained.Some? ==> l.signatures == 1 && GoodResult(c, i, l.retained.value))
    && (l.published.Some? ==> l.published == l.retained)
    && (l.consumed.Some? ==>
          && l.published.Some? && l.consumed.value.result == l.published.value
          && l.consumed.value.artifact == l.published.value.artifact && l.consumed.value.consumedAt > 0)
  }

  ghost predicate EvaluationInv(i: Inputs) {
    && (i.executions > 0 ==> i.owner.Some?)
    && (i.owner.Some? ==> i.admission.Some?)
    && i.executions <= 1
  }

  ghost predicate WorldInv(c: Case, w: World) {
    && RecomputationInv(c, w.inputs, w.recomputation)
    && ReleaseInv(c, w.inputs, w.recomputation, w.release)
    && EvaluationInv(w.inputs)
  }

  /** Process `me` owns the recomputation, and its verdict is still open. */
  ghost predicate Recomputing(r: Recomputation, me: nat) {
    r.owner == Some(me) && r.mismatch.None? && r.verified.None?
  }

  /** Process `me` owns the release and has decrypted and signed this often. */
  ghost predicate Releasing(l: ReleaseRecords, me: nat, decryptions: nat, signatures: nat) {
    l.owner == Some(me) && l.decryptions == decryptions && l.signatures == signatures && l.retained.None?
  }

  ghost predicate RetryInv(l: ReleaseRecords, pc: RetryPc) {
    match pc
    case RetryTest => true
    case RetryLoad => l.retained.Some?
    case RetryPublicTest(res) => l.retained == Some(res)
    case RetryPublish(res) => l.retained == Some(res)
    case RetryConsumedTest(res) => l.retained == Some(res) && l.published == Some(res)
    case RetryConsume(res) => l.retained == Some(res) && l.published == Some(res)
  }

  ghost predicate PrepareInv(c: Case, r: Recomputation, me: nat, art: Artifact, now: int, pc: PreparePc) {
    (pc.Participants? || FreshPair(c, art.subA, art.subB, now)) &&
    match pc
    case Recompute => Recomputing(r, me) && r.ciphertext.None? && r.executions == 0
    case RecordMismatch(ct) => Recomputing(r, me) && r.ciphertext.None? && ct == Recomputed(c, art) != art.ciphertext
    case StoreRecomputed(ct) =>
      Recomputing(r, me) && r.ciphertext.None? && ct == Recomputed(c, art) == art.ciphertext && c.enrolled(art.subA, art.subB, now)
    case StoreVerified(ct) =>
      Recomputing(r, me) && r.ciphertext == Some(ct) && ct == Recomputed(c, art) == art.ciphertext && c.enrolled(art.subA, art.subB, now)
    case _ => true
  }

  ghost predicate ReleasingInv(c: Case, w: World, me: nat, art: Artifact, now: int, pc: ReleasePc) {
    var l := w.release;
    (pc.AdmitRelease? || pc.Decrypt? || pc.Sign? ==> FreshPair(c, art.subA, art.subB, now)) &&
    match pc
    case AdmissionTest => true
    case ConsumedTest => true
    case AdmitRelease(ct) => w.recomputation.verified.Some? && ct == Recomputed(c, art) == art.ciphertext
    case Decrypt(ct) => ct == Recomputed(c, art) == art.ciphertext && Releasing(l, me, 0, 0)
    case Sign(ct, bit) =>
      && ct == Recomputed(c, art) == art.ciphertext && Releasing(l, me, 1, 0)
      && Canonical(ct) && bit == (ct.slots[0] == 1)
    case Retain(res) => res.artifact == art && Releasing(l, me, 1, 1) && GoodResult(c, w.inputs, res)
    case Publish(res) => res.artifact == art && l.retained == Some(res)
    case Consume(res) => res.artifact == art && l.retained == Some(res) && l.published == Some(res)
  }

  /** What a release attempt may rely on at each program counter. */
  ghost predicate ProcessInv(c: Case, w: World, p: Process, me: nat) {
    match p.pc
    case Start(_) => true
    case Retry(art, pc) => p.provenance != 0 && InWindow(c, p.now) && Accepted(w.inputs, art) && RetryInv(w.release, pc)
    case Prepare(art, pc) => p.provenance != 0 && InWindow(c, p.now) && Accepted(w.inputs, art) && PrepareInv(c, w.recomputation, me, art, p.now, pc)
    case Release(art, pc) => p.provenance != 0 && InWindow(c, p.now) && Accepted(w.inputs, art) && ReleasingInv(c, w, me, art, p.now, pc)
    case Returned(res) => w.release.retained == Some(res) && w.release.published == Some(res) && w.release.consumed.Some?
    case Halted => true
  }

  ghost predicate EvalInv(i: Inputs, p: Evaluation, me: nat) {
    p.pc.EvalCompute? ==> i.owner == Some(me) && i.executions == 0
  }

  ghost predicate Inv(c: Case, s: State) {
    && WorldInv(c, s.world)
    && (forall k :: 0 <= k < |s.releases| ==> ProcessInv(c, s.world, s.releases[k], k))
    && (forall k :: 0 <= k < |s.evaluations| ==> EvalInv(s.world.inputs, s.evaluations[k], k))
  }

  // ----- stores only grow

  ghost predicate InputsGrow(i: Inputs, i': Inputs) {
    && Persists(i.submissionA, i'.submissionA) && Persists(i.submissionB, i'.submissionB)
    && Persists(i.admission, i'.admission) && Persists(i.ciphertext, i'.ciphertext)
    && Persists(i.evaluated, i'.evaluated) && Persists(i.completed, i'.completed)
  }

  ghost predicate RecomputationGrows(r: Recomputation, r': Recomputation) {
    && Persists(r.admission, r'.admission) && Persists(r.mismatch, r'.mismatch)
    && Persists(r.ciphertext, r'.ciphertext) && Persists(r.verified, r'.verified)
  }

  ghost predicate ReleaseGrows(l: ReleaseRecords, l': ReleaseRecords) {
    && Persists(l.admission, l'.admission) && Persists(l.retained, l'.retained)
    && Persists(l.published, l'.published) && Persists(l.consumed, l'.consumed)
    && Persists(l.owner, l'.owner)
  }

  ghost predicate Grows(w: World, w': World) {
    InputsGrow(w.inputs, w'.inputs) && RecomputationGrows(w.recomputation, w'.recomputation) && ReleaseGrows(w.release, w'.release)
  }

  /** Only the process that won the release decrypts, signs or retains. */
  ghost predicate ReleaseUntouched(l: ReleaseRecords, l': ReleaseRecords) {
    && l'.owner == l.owner && l'.admission == l.admission && l'.retained == l.retained
    && l'.decryptions == l.decryptions && l'.signatures == l.signatures
  }

  /** What one step of process `me` may change, and what holds afterwards. */
  ghost predicate GoodStep(c: Case, w: World, p: Process, me: nat, w': World, pc': Pc) {
    && WorldInv(c, w')
    && ProcessInv(c, w', p.(pc := pc'), me)
    && w'.inputs == w.inputs
    && RecomputationGrows(w.recomputation, w'.recomputation) && ReleaseGrows(w.release, w'.release)
    && (w.recomputation.owner.Some? && w.recomputation.owner != Some(me) ==> w'.recomputation == w.recomputation)
    && (w.release.owner.Some? && w.release.owner != Some(me) ==> ReleaseUntouched(w.release, w'.release))
  }

  predicate RetryWrites(pc: RetryPc) {
    pc.RetryPublish? || pc.RetryConsume?
  }

  lemma {:induction false} RetryReadGood(c: Case, w: World, p: Process, me: nat)
    requires ValidCase(c) && WorldInv(c, w) && ProcessInv(c, w, p, me) && p.pc.Retry? && !RetryWrites(p.pc.at)
    ensures var (w', pc') := Step(c, w, p, me); GoodStep(c, w, p, me, w', pc')
  {
  }

  lemma {:induction false} RetryWriteGood(c: Case, w: World, p: Process, me: nat)
    requires ValidCase(c) && WorldInv(c, w) && ProcessInv(c, w, p, me) && p.pc.Retry? && RetryWrites(p.pc.at)
    ensures var (w', pc') := Step(c, w, p, me); GoodStep(c, w, p, me, w', pc')
  {
  }

  predicate TestsOnly(pc: PreparePc) {
    !(pc.AdmitRecompute? || pc.Recompute? || pc.RecordMismatch? || pc.StoreRecomputed? || pc.StoreVerified?)
  }

  lemma {:induction false} PrepareTestGood(c: Case, w: World, p: Process, me: nat)
    requires ValidCase(c) && WorldInv(c, w) && ProcessInv(c, w, p, me) && p.pc.Prepare? && TestsOnly(p.pc.inside)
    ensures var (w', pc') := Step(c, w, p, me); GoodStep(c, w, p, me, w', pc')
  {
  }

  lemma {:induction false} PrepareComputeGood(c: Case, w: World, p: Process, me: nat)
    requires ValidCase(c) && WorldInv(c, w) && ProcessInv(c, w, p, me) && p.pc.Prepare? && (p.pc.inside.AdmitRecompute? || p.pc.inside.Recompute?)
    ensures var (w', pc') := Step(c, w, p, me); GoodStep(c, w, p, me, w', pc')
  {
  }

  lemma {:induction false} PrepareStoreGood(c: Case, w: World, p: Process, me: nat)
    requires ValidCase(c) && WorldInv(c, w) && ProcessInv(c, w, p, me) && p.pc.Prepare?
    requires p.pc.inside.RecordMismatch? || p.pc.inside.StoreRecomputed? || p.pc.inside.StoreVerified?
    ensures var (w', pc') := Step(c, w, p, me); GoodStep(c, w, p, me, w', pc')
  {
  }

  lemma {:induction false} PrepareWriteGood(c: Case, w: World, p: Process, me: nat)
    requires ValidCase(c) && WorldInv(c, w) && ProcessInv(c, w, p, me) && p.pc.Prepare? && !TestsOnly(p.pc.inside)
    ensures var (w', pc') := Step(c, w, p, me); GoodStep(c, w, p, me, w', pc')
  {
    if p.pc.inside.AdmitRecompute? || p.pc.inside.Recompute? {
      PrepareComputeGood(c, w, p, me);
    } else {
      PrepareStoreGood(c, w, p, me);
    }
  }

  lemma {:induction false} AdmitStepGood(c: Case, w: World, p: Process, me: nat)
    requires ValidCase(c) && WorldInv(c, w) && ProcessInv(c, w, p, me)
    requires p.pc.Release? && (p.pc.on.AdmissionTest? || p.pc.on.ConsumedTest? || p.pc.on.AdmitRelease? || p.pc.on.Decrypt?)
    ensures var (w', pc') := Step(c, w, p, me); GoodStep(c, w, p, me, w', pc')
  {
  }

  lemma {:induction false} FinishStepGood(c: Case, w: World, p: Process, me: nat)
    requires ValidCase(c) && WorldInv(c, w) && ProcessInv(c, w, p, me)
    requires p.pc.Release? && (p.pc.on.Sign? || p.pc.on.Retain? || p.pc.on.Publish? || p.pc.on.Consume?)
    ensures var (w', pc') := Step(c, w, p, me); GoodStep(c, w, p, me, w', pc')
  {
  }

  lemma {:induction false} StepGood(c: Case, w: World, p: Process, me: nat)
    requires ValidCase(c) && WorldInv(c, w) && ProcessInv(c, w, p, me)
    ensures var (w', pc') := Step(c, w, p, me); GoodStep(c, w, p, me, w', pc')
  {
    match p.pc
    case Retry(_, pc) =>
      if RetryWrites(pc) {
        RetryWriteGood(c, w, p, me);
      } else {
        RetryReadGood(c, w, p, me);
      }
    case Prepare(_, pc) =>
      if TestsOnly(pc) {
        PrepareTestGood(c, w, p, me);
      } else {
        PrepareWriteGood(c, w, p, me);
      }
    case Release(_, pc) =>
      if pc.Sign? || pc.Retain? || pc.Publish? || pc.Consume? {
        FinishStepGood(c, w, p, me);
      } else {
        AdmitStepGood(c, w, p, me);
      }
    case _ =>
  }

  /** A step of one process leaves what every other process relies on. */
  lemma {:induction false} OthersKeep(c: Case, w: World, p: Process, me: nat, w': World, pc': Pc, q: Process, other: nat)
    requires GoodStep(c, w, p, me, w', pc') && other != me && ProcessInv(c, w, q, other)
    ensures ProcessInv(c, w', q, other)
  {
  }

  /** New public inputs never disturb a process or a record. */
  lemma {:induction false} InputsKeep(c: Case, w: World, i': Inputs)
    requires WorldInv(c, w) && InputsGrow(w.inputs, i') && EvaluationInv(i')
    ensures WorldInv(c, w.(inputs := i'))
  {
    AcceptedPersists(w.inputs, i');
  }

  lemma {:induction false} AcceptedPersists(i: Inputs, i': Inputs)
    requires InputsGrow(i, i')
    ensures forall a :: Accepted(i, a) ==> Accepted(i', a)
  {
  }

  lemma {:induction false} ProcessKeepsInputs(c: Case, w: World, i': Inputs, q: Process, other: nat)
    requires InputsGrow(w.inputs, i') && ProcessInv(c, w, q, other)
    ensures ProcessInv(c, w.(inputs := i'), q, other)
  {
    AcceptedPersists(w.inputs, i');
  }

  ghost predicate GoodEvalStep(i: Inputs, p: Evaluation, me: nat, i': Inputs, pc': EvalPc) {
    && InputsGrow(i, i') && EvaluationInv(i') && EvalInv(i', p.(pc := pc'), me)
    && (i.owner.Some? && i.owner != Some(me) ==> i'.owner == i.owner && i'.executions == i.executions)
  }

  lemma {:induction false} EvalStepGood(c: Case, i: Inputs, p: Evaluation, me: nat)
    requires EvaluationInv(i) && EvalInv(i, p, me)
    ensures var (i', pc') := EvalStep(c, i, p, me); GoodEvalStep(i, p, me, i', pc')
  {
  }

  // ----- every action keeps the invariant

  lemma {:induction false} SteppedKeeps(c: Case, s: State, k: nat, w': World, pc': Pc)
    requires Inv(c, s) && k < |s.releases| && GoodStep(c, s.world, s.releases[k], k, w', pc')
    ensures Inv(c, s.(world := w', releases := s.releases[k := s.releases[k].(pc := pc')])) && Grows(s.world, w')
  {
    forall j | 0 <= j < |s.releases| && j != k
      ensures ProcessInv(c, w', s.releases[j], j)
    {
      OthersKeep(c, s.world, s.releases[k], k, w', pc', s.releases[j], j);
    }
  }

  lemma {:induction false} RunReleaseKeeps(c: Case, s: State, k: nat)
    requires ValidCase(c) && Inv(c, s) && k < |s.releases|
    ensures Inv(c, Apply(c, s, RunRelease(k))) && Grows(s.world, Apply(c, s, RunRelease(k)).world)
  {
    StepGood(c, s.world, s.releases[k], k);
    var (w', pc') := Step(c, s.world, s.releases[k], k);
    SteppedKeeps(c, s, k, w', pc');
    assert Apply(c, s, RunRelease(k)) == s.(world := w', releases := s.releases[k := s.releases[k].(pc := pc')]);
  }

  lemma {:induction false} InputsChangeKeeps(c: Case, s: State, i': Inputs)
    requires ValidCase(c) && Inv(c, s) && InputsGrow(s.world.inputs, i') && EvaluationInv(i')
    requires forall k :: 0 <= k < |s.evaluations| ==> EvalInv(i', s.evaluations[k], k)
    ensures Inv(c, WithInputs(s, i')) && Grows(s.world, WithInputs(s, i').world)
  {
    InputsKeep(c, s.world, i');
    forall k | 0 <= k < |s.releases|
      ensures ProcessInv(c, s.world.(inputs := i'), s.releases[k], k)
    {
      ProcessKeepsInputs(c, s.world, i', s.releases[k], k);
    }
  }

  lemma {:induction false} EvaluatedKeeps(c: Case, s: State, k: nat, i': Inputs, pc': EvalPc)
    requires ValidCase(c) && Inv(c, s) && k < |s.evaluations| && GoodEvalStep(s.world.inputs, s.evaluations[k], k, i', pc')
    ensures var s' := WithInputs(s.(evaluations := s.evaluations[k := s.evaluations[k].(pc := pc')]), i');
            Inv(c, s') && Grows(s.world, s'.world)
  {
    InputsKeep(c, s.world, i');
    forall j | 0 <= j < |s.releases|
      ensures ProcessInv(c, s.world.(inputs := i'), s.releases[j], j)
    {
      ProcessKeepsInputs(c, s.world, i', s.releases[j], j);
    }
  }

  lemma {:induction false} RunEvaluationKeeps(c: Case, s: State, k: nat)
    requires ValidCase(c) && Inv(c, s) && k < |s.evaluations|
    ensures Inv(c, Apply(c, s, RunEvaluation(k))) && Grows(s.world, Apply(c, s, RunEvaluation(k)).world)
  {
    EvalStepGood(c, s.world.inputs, s.evaluations[k], k);
    var (i', pc') := EvalStep(c, s.world.inputs, s.evaluations[k], k);
    EvaluatedKeeps(c, s, k, i', pc');
  }

  lemma {:induction false} EnvironmentKeeps(c: Case, s: State, a: Action)
    requires ValidCase(c) && Inv(c, s)
    requires a.Submit? || a.ForgeAdmission? || a.ForgeCiphertext? || a.ForgeArtifact? || a.ForgeCompleted?
    ensures Inv(c, Apply(c, s, a)) && Grows(s.world, Apply(c, s, a).world)
  {
    InputsChangeKeeps(c, s, Apply(c, s, a).world.inputs);
  }

  lemma {:induction false} ScheduleKeeps(c: Case, s: State, a: Action)
    requires Inv(c, s)
    requires a.StartRelease? || a.CrashRelease? || a.StartEvaluation? || a.CrashEvaluation?
    ensures Inv(c, Apply(c, s, a)) && Apply(c, s, a).world == s.world
  {
  }

  lemma {:induction false} ApplyKeeps(c: Case, s: State, a: Action)
    requires ValidCase(c) && Inv(c, s)
    ensures Inv(c, Apply(c, s, a)) && Grows(s.world, Apply(c, s, a).world)
  {
    if a.RunRelease? {
      if a.who < |s.releases| {
        RunReleaseKeeps(c, s, a.who);
      }
    } else if a.RunEvaluation? {
      if a.who < |s.evaluations| {
        RunEvaluationKeeps(c, s, a.who);
      }
    } else if a.StartRelease? || a.CrashRelease? || a.StartEvaluation? || a.CrashEvaluation? {
      ScheduleKeeps(c, s, a);
    } else {
      EnvironmentKeeps(c, s, a);
    }
  }

  /** Every run keeps the invariant, and what was stored stays stored. */
  lemma {:induction false} RunKeeps(c: Case, s: State, actions: seq<Action>)
    requires ValidCase(c) && Inv(c, s)
    ensures Inv(c, Run(c, s, actions)) && Grows(s.world, Run(c, s, actions).world)
  {
    if actions != [] {
      var n := |actions| - 1;
      RunKeeps(c, s, actions[..n]);
      ApplyKeeps(c, Run(c, s, actions[..n]), actions[n]);
    }
  }

  lemma {:induction false} InitialInv(c: Case)
    ensures Inv(c, INITIAL)
  {
  }
}
