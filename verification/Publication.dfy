/**
 Publication of participant inputs: interleaved, crashing attempts for both roles
 over a private journal and the public store, both create-only. The nonce claim is
 a case-wide lock, the role admission a per-role one, and the manifest is written
 last. Digests are modelled as the values they digest.
 */
module Publication {
  import opened Basics

  datatype Role = RoleA | RoleB

  function Other(r: Role): Role {
    if r.RoleA? then RoleB else RoleA
  }

  /** The signed manifest of a staged pair; `ciphertext` is the object it digests. */
  datatype Manifest = Manifest(nonce: int, ciphertext: int, expiresAt: int, content: int)

  /** One verified request. It is its own verification digest: verification time is not part of it. */
  datatype Request = Request(role: Role, manifest: Manifest, authorization: int)

  /** The case window, and the time-independent checks of the staged pair. */
  datatype Case = Case(created: int, expires: int, genuine: Request -> bool)

  predicate ValidCase(c: Case) {
    0 < c.created < c.expires
  }

  /** VerifyStagedParticipantOriginatedArtifact */
  predicate Verifies(c: Case, q: Request, now: int) {
    c.genuine(q) && c.created <= now < c.expires && now < q.manifest.expiresAt <= c.expires
  }

  datatype Admission = Admission(request: Request, admittedAt: int)

  /** The enrollment re-derived from the case, the role and the artifact. */
  datatype Enrollment = Enrollment(role: Role, manifest: Manifest)

  datatype Completion = Completion(request: Request, manifest: Manifest, ciphertext: int, importedAt: int)

  /** Journal and public objects of one role; `author` records which attempt completed it. */
  datatype Records = Records(
    admission: Option<Admission>,
    ciphertext: Option<int>,
    enrollment: Option<Enrollment>,
    manifest: Option<Manifest>,
    completion: Option<Completion>,
    author: Option<nat>)

  datatype World = World(claims: map<int, Request>, a: Records, b: Records)

  function Of(w: World, r: Role): Records {
    if r.RoleA? then w.a else w.b
  }

  function With(w: World, r: Role, rec: Records): World {
    if r.RoleA? then w.(a := rec) else w.(b := rec)
  }

  const NOTHING := Records(None, None, None, None, None, None)
  const EMPTY := World(map[], NOTHING, NOTHING)

  // ----- one attempt

  datatype Report = Report(request: Request, manifest: Manifest, ciphertext: int, importedAt: int)

  datatype Refusal = NotVerified | Replay | RoleOccupied | ImportMismatch | StoreFailed | BadEnrollment | Crashed

  datatype Pc =
    | Start
    | CompletionTest
    | ClaimNonce
    | AdmissionTest(reconciled: bool)
    | AdmissionCreate(reconciled: bool)
    | OtherRoleTest(reconciled: bool)
    | CiphertextFree(reconciled: bool)
    | ManifestFree(reconciled: bool)
    | CiphertextTest(reconciled: bool)
    | CiphertextCreate(reconciled: bool)
    | EnrollmentTest(reconciled: bool)
    | EnrollmentCreate(reconciled: bool)
    | ManifestTest(reconciled: bool)
    | ManifestCreate(reconciled: bool)
    | Complete(reconciled: bool)
    | Published(report: Report)
    | Refused(why: Refusal)

  /** `signed`: whether the enrollment signature handed in verifies; it is not part of the request's digest. */
  datatype Process = Process(request: Request, signed: bool, now: int, pc: Pc)

  function Step(c: Case, w: World, p: Process, me: nat): (World, Pc) {
    var q := p.request;
    var rec := Of(w, q.role);
    match p.pc
    case Start =>
      (w, if Verifies(c, q, p.now) then CompletionTest else Refused(NotVerified))
    case CompletionTest =>
      (w, if rec.completion.Some? then Refused(Replay) else ClaimNonce)
    case ClaimNonce =>
      if q.manifest.nonce !in w.claims then (w.(claims := w.claims[q.manifest.nonce := q]), AdmissionTest(false))
      else (w, if w.claims[q.manifest.nonce] == q then AdmissionTest(true) else Refused(Replay))
    case AdmissionTest(reconciled) =>
      (w, if rec.admission.None? then AdmissionCreate(reconciled)
          else if rec.admission.value.request == q then OtherRoleTest(true) else Refused(RoleOccupied))
    case AdmissionCreate(reconciled) =>
      if rec.admission.None?
      then (With(w, q.role, rec.(admission := Some(Admission(q, p.now)))), OtherRoleTest(reconciled))
      else (w, Refused(StoreFailed))
    case OtherRoleTest(reconciled) =>
      var other := Of(w, Other(q.role)).manifest;
      (w, if other.Some? && other.value.nonce == q.manifest.nonce then Refused(Replay) else CiphertextFree(reconciled))
    case CiphertextFree(reconciled) =>
      (w, if !reconciled && rec.ciphertext.Some? then Refused(RoleOccupied) else ManifestFree(reconciled))
    case ManifestFree(reconciled) =>
      (w, if !reconciled && rec.manifest.Some? then Refused(RoleOccupied) else CiphertextTest(reconciled))
    case CiphertextTest(reconciled) =>
      (w, if rec.ciphertext.None? then CiphertextCreate(reconciled)
          else if !reconciled then Refused(RoleOccupied)
          else if rec.ciphertext.value == q.manifest.ciphertext then EnrollmentTest(reconciled) else Refused(ImportMismatch))
    case CiphertextCreate(reconciled) =>
      if rec.ciphertext.None?
      then (With(w, q.role, rec.(ciphertext := Some(q.manifest.ciphertext))), EnrollmentTest(reconciled))
      else (w, Refused(ImportMismatch))
    case EnrollmentTest(reconciled) =>
      (w, if !p.signed then Refused(BadEnrollment)
          else if rec.enrollment.None? then EnrollmentCreate(reconciled)
          else if rec.enrollment.value == Enrollment(q.role, q.manifest) then ManifestTest(reconciled) else Refused(RoleOccupied))
    case EnrollmentCreate(reconciled) =>
      if rec.enrollment.None?
      then (With(w, q.role, rec.(enrollment := Some(Enrollment(q.role, q.manifest)))), ManifestTest(reconciled))
      else (w, Refused(StoreFailed))
    case ManifestTest(reconciled) =>
      (w, if rec.manifest.None? then ManifestCreate(reconciled)
          else if !reconciled then Refused(RoleOccupied)
          else if rec.manifest.value == q.manifest then Complete(reconciled) else Refused(ImportMismatch))
    case ManifestCreate(reconciled) =>
      if rec.manifest.None?
      then (With(w, q.role, rec.(manifest := Some(q.manifest))), Complete(reconciled))
      else (w, Refused(ImportMismatch))
    case Complete(reconciled) =>
      if rec.completion.None?
      then (With(w, q.role, rec.(completion := Some(Completion(q, q.manifest, q.manifest.ciphertext, p.now)), author := Some(me))),
            Published(Report(q, q.manifest, q.manifest.ciphertext, p.now)))
      else (w, Refused(StoreFailed))
    case Published(_) => (w, p.pc)
    case Refused(_) => (w, p.pc)
  }

  // ----- runs

  datatype State = State(world: World, attempts: seq<Process>)

  datatype Action = Begin(request: Request, signed: bool, now: int) | Advance(who: nat) | Crash(who: nat)

  function Apply(c: Case, s: State, a: Action): State {
    match a
    case Begin(q, signed, now) => s.(attempts := s.attempts + [Process(q, signed, now, Start)])
    case Advance(k) =>
      if k < |s.attempts| then
        var (w', pc') := Step(c, s.world, s.attempts[k], k);
        State(w', s.attempts[k := s.attempts[k].(pc := pc')])
      else s
    case Crash(k) =>
      if k < |s.attempts| then s.(attempts := s.attempts[k := s.attempts[k].(pc := Refused(Crashed))]) else s
  }

  function Run(c: Case, s: State, actions: seq<Action>): State {
    if actions == [] then s else Apply(c, Run(c, s, actions[..|actions| - 1]), actions[|actions| - 1])
  }

  const INITIAL := State(EMPTY, [])

  // ----- invariant

  /** The records of one role exist in write order and all belong to the admitted request. */
  ghost predicate RoleInv(c: Case, claims: map<int, Request>, r: Role, rec: Records) {
    && (rec.admission.Some? ==>
          var adm := rec.admission.value;
          && adm.request.role == r && Verifies(c, adm.request, adm.admittedAt)
          && adm.request.manifest.nonce in claims && claims[adm.request.manifest.nonce] == adm.request)
    && (rec.ciphertext.Some? ==>
          rec.admission.Some? && rec.ciphertext.value == rec.admission.value.request.manifest.ciphertext)
    && (rec.enrollment.Some? ==>
          rec.ciphertext.Some? && rec.enrollment.value == Enrollment(r, rec.admission.value.request.manifest))
    && (rec.manifest.Some? ==>
          rec.enrollment.Some? && rec.manifest.value == rec.admission.value.request.manifest)
    && (rec.completion.Some? ==>
          var k := rec.completion.value;
          && rec.manifest.Some? && k.request == rec.admission.value.request && Verifies(c, k.request, k.importedAt)
          && k.manifest == rec.manifest.value && k.ciphertext == rec.ciphertext.value)
    && (rec.completion.Some? <==> rec.author.Some?)
  }

  ghost predicate ClaimsInv(claims: map<int, Request>) {
    forall n :: n in claims ==> claims[n].manifest.nonce == n
  }

  ghost predicate WorldInv(c: Case, w: World) {
    && RoleInv(c, w.claims, RoleA, w.a) && RoleInv(c, w.claims, RoleB, w.b)
    && ClaimsInv(w.claims)
  }

  function Stage(pc: Pc): int {
    match pc
    case Start => 0
    case CompletionTest => 1
    case ClaimNonce => 1
    case AdmissionTest(_) => 2
    case AdmissionCreate(_) => 2
    case OtherRoleTest(_) => 3
    case CiphertextFree(_) => 3
    case ManifestFree(_) => 3
    case CiphertextTest(_) => 3
    case CiphertextCreate(_) => 3
    case EnrollmentTest(_) => 4
    case EnrollmentCreate(_) => 5
    case ManifestTest(_) => 6
    case ManifestCreate(_) => 6
    case Complete(_) => 7
    case Published(_) => 8
    case Refused(_) => 0
  }

  /** What an attempt has established, by how far it got. */
  ghost predicate ProcessInv(c: Case, w: World, p: Process, me: nat) {
    var q, rec, at := p.request, Of(w, p.request.role), Stage(p.pc);
    && (at >= 1 ==> Verifies(c, q, p.now))
    && (at >= 2 ==> q.manifest.nonce in w.claims && w.claims[q.manifest.nonce] == q)
    && (at >= 3 ==> rec.admission.Some? && rec.admission.value.request == q)
    && (at >= 4 ==> rec.ciphertext == Some(q.manifest.ciphertext))
    && (at >= 5 ==> p.signed)
    && (at >= 6 ==> rec.enrollment == Some(Enrollment(q.role, q.manifest)))
    && (at >= 7 ==> rec.manifest == Some(q.manifest))
    && (at >= 8 ==> rec.author == Some(me) && rec.completion == Some(Completion(q, q.manifest, q.manifest.ciphertext, p.now)))
    && (p.pc.Published? ==> p.pc.report == Report(q, q.manifest, q.manifest.ciphertext, p.now))
  }

  ghost predicate Inv(c: Case, s: State) {
    WorldInv(c, s.world) && forall k :: 0 <= k < |s.attempts| ==> ProcessInv(c, s.world, s.attempts[k], k)
  }

  ghost predicate RecordsGrow(x: Records, y: Records) {
    && Persists(x.admission, y.admission) && Persists(x.ciphertext, y.ciphertext)
    && Persists(x.enrollment, y.enrollment) && Persists(x.manifest, y.manifest)
    && Persists(x.completion, y.completion) && Persists(x.author, y.author)
  }

  ghost predicate Grows(w: World, w': World) {
    && (forall n :: n in w.claims ==> n in w'.claims && w'.claims[n] == w.claims[n])
    && RecordsGrow(w.a, w'.a) && RecordsGrow(w.b, w'.b)
  }

  lemma {:induction false} StepGrows(c: Case, w: World, p: Process, me: nat)
    requires WorldInv(c, w)
    ensures Grows(w, Step(c, w, p, me).0)
  {
  }

  /** A step touches the claims, or one record of its own role, or nothing. */
  lemma {:induction false} StepKeepsRecords(c: Case, w: World, p: Process, me: nat)
    requires WorldInv(c, w) && ProcessInv(c, w, p, me) && !p.pc.ClaimNonce?
    ensures var w' := Step(c, w, p, me).0;
            && w'.claims == w.claims
            && RoleInv(c, w.claims, p.request.role, Of(w', p.request.role))
            && Of(w', Other(p.request.role)) == Of(w, Other(p.request.role))
  {
    var r, rec := p.request.role, Of(w, p.request.role);
    assert RoleInv(c, w.claims, r, rec);
  }

  lemma {:induction false} ClaimKeepsRecords(c: Case, w: World, p: Process, me: nat)
    requires WorldInv(c, w) && p.pc.ClaimNonce?
    ensures WorldInv(c, Step(c, w, p, me).0)
  {
  }

  lemma {:induction false} StepKeepsRoles(c: Case, w: World, p: Process, me: nat)
    requires WorldInv(c, w) && ProcessInv(c, w, p, me)
    ensures WorldInv(c, Step(c, w, p, me).0)
  {
    if p.pc.ClaimNonce? {
      ClaimKeepsRecords(c, w, p, me);
    } else {
      StepKeepsRecords(c, w, p, me);
    }
  }

  lemma {:induction false} EarlyAdvances(c: Case, w: World, p: Process, me: nat)
    requires WorldInv(c, w) && ProcessInv(c, w, p, me) && Stage(p.pc) <= 3
    ensures ProcessInv(c, Step(c, w, p, me).0, p.(pc := Step(c, w, p, me).1), me)
  {
  }

  lemma {:induction false} LateAdvances(c: Case, w: World, p: Process, me: nat)
    requires WorldInv(c, w) && ProcessInv(c, w, p, me) && Stage(p.pc) > 3
    ensures ProcessInv(c, Step(c, w, p, me).0, p.(pc := Step(c, w, p, me).1), me)
  {
  }

  lemma {:induction false} StepAdvances(c: Case, w: World, p: Process, me: nat)
    requires WorldInv(c, w) && ProcessInv(c, w, p, me)
    ensures ProcessInv(c, Step(c, w, p, me).0, p.(pc := Step(c, w, p, me).1), me)
  {
    if Stage(p.pc) <= 3 {
      EarlyAdvances(c, w, p, me);
    } else {
      LateAdvances(c, w, p, me);
    }
  }

  lemma {:induction false} OthersKeep(c: Case, w: World, w': World, q: Process, k: nat)
    requires Grows(w, w') && ProcessInv(c, w, q, k)
    ensures ProcessInv(c, w', q, k)
  {
  }

  lemma {:induction false} ApplyKeeps(c: Case, s: State, a: Action)
    requires Inv(c, s)
    ensures Inv(c, Apply(c, s, a)) && Grows(s.world, Apply(c, s, a).world)
  {
    if a.Advance? && a.who < |s.attempts| {
      var p := s.attempts[a.who];
      StepGrows(c, s.world, p, a.who);
      StepKeepsRoles(c, s.world, p, a.who);
      StepAdvances(c, s.world, p, a.who);
      var w' := Step(c, s.world, p, a.who).0;
      forall j | 0 <= j < |s.attempts| && j != a.who
        ensures ProcessInv(c, w', s.attempts[j], j)
      {
        OthersKeep(c, s.world, w', s.attempts[j], j);
      }
    }
  }

  lemma {:induction false} RunKeeps(c: Case, s: State, actions: seq<Action>)
    requires Inv(c, s)
    ensures Inv(c, Run(c, s, actions)) && Grows(s.world, Run(c, s, actions).world)
  {
    if actions != [] {
      var n := |actions| - 1;
      RunKeeps(c, s, actions[..n]);
      ApplyKeeps(c, Run(c, s, actions[..n]), actions[n]);
    }
  }

  function Reached(c: Case, actions: seq<Action>): State {
    Run(c, INITIAL, actions)
  }

  lemma {:induction false} ReachedInv(c: Case, actions: seq<Action>)
    ensures Inv(c, Reached(c, actions))
  {
    RunKeeps(c, INITIAL, actions);
  }
}
