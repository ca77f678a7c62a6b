/** What publication promises over every run, exactly how a lone attempt ends, and what reconciliation returns. */
module PublicationGuarantees {
  import opened Basics
  import opened Publication

  // ----- safety over every run

  /** A public manifest never stands alone: its own ciphertext and its own enrollment are already public. */
  lemma {:induction false} ManifestIsLast(c: Case, actions: seq<Action>, r: Role)
    requires Of(Reached(c, actions).world, r).manifest.Some?
    ensures var rec := Of(Reached(c, actions).world, r);
            && rec.ciphertext == Some(rec.manifest.value.ciphertext)
            && rec.enrollment == Some(Enrollment(r, rec.manifest.value))
            && rec.admission.Some? && rec.admission.value.request.manifest == rec.manifest.value
  {
    ReachedInv(c, actions);
  }

  /**
   Nothing expired is ever admitted or published: the admission behind every public object and the completion of
   every import carry a time inside the case window and before the artifact's own expiry, which lies within the case;
   and whoever reports success, reports such a time.
   */
  lemma {:induction false} NothingExpiredIsPublished(c: Case, actions: seq<Action>, r: Role, k: nat)
    ensures var rec := Of(Reached(c, actions).world, r);
            && (rec.ciphertext.Some? || rec.enrollment.Some? || rec.manifest.Some? || rec.completion.Some? ==> rec.admission.Some?)
            && (rec.admission.Some? ==>
                  var q, at := rec.admission.value.request, rec.admission.value.admittedAt;
                  c.genuine(q) && q.role == r && c.created <= at < q.manifest.expiresAt <= c.expires)
            && (rec.completion.Some? ==>
                  var q, at := rec.completion.value.request, rec.completion.value.importedAt;
                  rec.admission.value.request == q && c.created <= at < q.manifest.expiresAt <= c.expires)
    ensures var s := Reached(c, actions);
            k < |s.attempts| && s.attempts[k].pc.Published? ==>
              var rep := s.attempts[k].pc.report;
              s.attempts[k].signed && c.genuine(rep.request) && rep.manifest == rep.request.manifest && c.created <= rep.importedAt < rep.manifest.expiresAt <= c.expires
  {
    ReachedInv(c, actions);
    var s := Reached(c, actions);
    assert RoleInv(c, s.world.claims, r, Of(s.world, r));
    if k < |s.attempts| {
      assert ProcessInv(c, s.world, s.attempts[k], k);
    }
  }

  /** A role is bound to one verification for ever, and a nonce is never admitted for two. */
  lemma {:induction false} OneVerificationEach(c: Case, before: seq<Action>, after: seq<Action>, r: Role, t: Role)
    requires var s := Reached(c, before);
             Of(s.world, r).admission.Some? && Of(Run(c, s, after).world, t).admission.Some?
    ensures var s := Reached(c, before);
            var x, y := Of(s.world, r).admission.value, Of(Run(c, s, after).world, t).admission.value;
            && (r == t ==> x == y)
            && (x.request.manifest.nonce == y.request.manifest.nonce ==> x.request == y.request && r == t)
  {
    ReachedInv(c, before);
    RunKeeps(c, Reached(c, before), after);
  }

  /** At most one attempt per role ever reports success, and it reports what is public. */
  lemma {:induction false} OneSuccessPerRole(c: Case, actions: seq<Action>, j: nat, k: nat)
    requires var s := Reached(c, actions);
             && j < |s.attempts| && s.attempts[j].pc.Published?
             && k < |s.attempts| && s.attempts[k].pc.Published?
             && s.attempts[j].request.role == s.attempts[k].request.role
    ensures j == k
    ensures var s := Reached(c, actions);
            var rep, rec := s.attempts[j].pc.report, Of(s.world, s.attempts[j].request.role);
            rec.manifest == Some(rep.manifest) && rec.ciphertext == Some(rep.ciphertext)
  {
    ReachedInv(c, actions);
    var s := Reached(c, actions);
    assert ProcessInv(c, s.world, s.attempts[j], j) && ProcessInv(c, s.world, s.attempts[k], k);
  }

  /** The test against the other role's manifest can never refuse: the nonce claim has already done its work. */
  lemma {:induction false} CrossRoleTestIsRedundant(c: Case, actions: seq<Action>, k: nat)
    requires var s := Reached(c, actions); k < |s.attempts| && s.attempts[k].pc.OtherRoleTest?
    ensures var s := Reached(c, actions);
            Step(c, s.world, s.attempts[k], k) == (s.world, CiphertextFree(s.attempts[k].pc.reconciled))
  {
    ReachedInv(c, actions);
    var s := Reached(c, actions);
    assert ProcessInv(c, s.world, s.attempts[k], k);
  }

  // ----- a lone attempt

  function Alone(c: Case, w: World, p: Process, me: nat, n: nat): (World, Process)
    decreases n
  {
    if n == 0 then (w, p)
    else var (w', pc') := Step(c, w, p, me); Alone(c, w', p.(pc := pc'), me, n - 1)
  }

  lemma {:induction false} One(c: Case, w: World, p: Process, me: nat, n: nat, w': World, pc': Pc)
    requires n > 0 && Step(c, w, p, me) == (w', pc')
    ensures Alone(c, w, p, me, n) == Alone(c, w', p.(pc := pc'), me, n - 1)
  {
  }

  lemma {:induction false} Settled(c: Case, w: World, p: Process, me: nat, n: nat)
    requires p.pc.Published? || p.pc.Refused?
    ensures Alone(c, w, p, me, n) == (w, p)
  {
    if n > 0 {
      Settled(c, w, p, me, n - 1);
    }
  }

  lemma {:induction false} Stop(c: Case, w: World, p: Process, me: nat, n: nat, why: Refusal)
    requires n > 0 && Step(c, w, p, me) == (w, Refused(why))
    ensures Alone(c, w, p, me, n) == (w, p.(pc := Refused(why)))
  {
    One(c, w, p, me, n, w, Refused(why));
    Settled(c, w, p.(pc := Refused(why)), me, n - 1);
  }

  const LONGEST := 15

  function ReportOf(q: Request, now: int): Report {
    Report(q, q.manifest, q.manifest.ciphertext, now)
  }

  /** How a lone attempt ends, read off the stores before it starts. */
  function LoneOutcome(c: Case, w: World, q: Request, signed: bool, now: int): Pc {
    var rec, n := Of(w, q.role), q.manifest.nonce;
    if !Verifies(c, q, now) then Refused(NotVerified)
    else if rec.completion.Some? then Refused(Replay)
    else if n in w.claims && w.claims[n] != q then Refused(Replay)
    else if rec.admission.Some? && rec.admission.value.request != q then Refused(RoleOccupied)
    else if !signed then Refused(BadEnrollment)
    else Published(ReportOf(q, now))
  }

  /** Everything the role's records say is consistent with an attempt for `q` that may still finish. */
  ghost predicate Open(c: Case, w: World, q: Request, reconciled: bool) {
    var rec := Of(w, q.role);
    && WorldInv(c, w) && rec.admission.Some? && rec.admission.value.request == q && rec.completion.None?
    && (!reconciled ==> rec.ciphertext.None? && rec.enrollment.None? && rec.manifest.None?)
  }

  /** The nonce, the role and the ciphertext of `q` are durably taken, and the import is unfinished. */
  ghost predicate Committed(w: World, q: Request) {
    var rec := Of(w, q.role);
    && q.manifest.nonce in w.claims && w.claims[q.manifest.nonce] == q
    && rec.admission.Some? && rec.admission.value.request == q
    && rec.ciphertext == Some(q.manifest.ciphertext) && rec.completion.None?
  }

  ghost predicate Ends(c: Case, w: World, p: Process, me: nat, n: nat, pc: Pc) {
    var (w', p') := Alone(c, w, p, me, n);
    && p'.pc == pc
    && (pc == Refused(BadEnrollment) ==> Committed(w', p.request))
    && (pc.Published? ==> Of(w', p.request.role).completion == Some(Completion(p.request, p.request.manifest, p.request.manifest.ciphertext, p.now)))
  }

  lemma {:induction false} CompleteEnds(c: Case, w: World, p: Process, me: nat, n: nat)
    requires p.pc.Complete? && Of(w, p.request.role).completion.None? && n >= 1
    ensures Ends(c, w, p, me, n, Published(ReportOf(p.request, p.now)))
  {
    var q := p.request;
    var rec := Of(w, q.role);
    var w' := With(w, q.role, rec.(completion := Some(Completion(q, q.manifest, q.manifest.ciphertext, p.now)), author := Some(me)));
    One(c, w, p, me, n, w', Published(ReportOf(q, p.now)));
    Settled(c, w', p.(pc := Published(ReportOf(q, p.now))), me, n - 1);
  }

  lemma {:induction false} ManifestEnds(c: Case, w: World, p: Process, me: nat, n: nat)
    requires p.pc.ManifestTest? && Of(w, p.request.role).completion.None? && n >= 3
    requires var m := Of(w, p.request.role).manifest; m.Some? ==> p.pc.reconciled && m.value == p.request.manifest
    ensures Ends(c, w, p, me, n, Published(ReportOf(p.request, p.now)))
  {
    var q, b := p.request, p.pc.reconciled;
    var rec := Of(w, q.role);
    if rec.manifest.None? {
      var w' := With(w, q.role, rec.(manifest := Some(q.manifest)));
      One(c, w, p, me, n, w, ManifestCreate(b));
      One(c, w, p.(pc := ManifestCreate(b)), me, n - 1, w', Complete(b));
      CompleteEnds(c, w', p.(pc := Complete(b)), me, n - 2);
    } else {
      One(c, w, p, me, n, w, Complete(b));
      CompleteEnds(c, w, p.(pc := Complete(b)), me, n - 1);
    }
  }

  lemma {:induction false} EnrollmentEnds(c: Case, w: World, p: Process, me: nat, n: nat)
    requires p.pc.EnrollmentTest? && Committed(w, p.request) && n >= 5
    requires var m := Of(w, p.request.role).manifest; m.Some? ==> p.pc.reconciled && m.value == p.request.manifest
    requires var e := Of(w, p.request.role).enrollment; e.Some? ==> e.value == Enrollment(p.request.role, p.request.manifest)
    ensures Ends(c, w, p, me, n, if p.signed then Published(ReportOf(p.request, p.now)) else Refused(BadEnrollment))
  {
    var q, b := p.request, p.pc.reconciled;
    var rec := Of(w, q.role);
    if !p.signed {
      Stop(c, w, p, me, n, BadEnrollment);
    } else if rec.enrollment.None? {
      var w' := With(w, q.role, rec.(enrollment := Some(Enrollment(q.role, q.manifest))));
      One(c, w, p, me, n, w, EnrollmentCreate(b));
      One(c, w, p.(pc := EnrollmentCreate(b)), me, n - 1, w', ManifestTest(b));
      ManifestEnds(c, w', p.(pc := ManifestTest(b)), me, n - 2);
    } else {
      One(c, w, p, me, n, w, ManifestTest(b));
      ManifestEnds(c, w, p.(pc := ManifestTest(b)), me, n - 1);
    }
  }

  lemma {:induction false} CiphertextEnds(c: Case, w: World, p: Process, me: nat, n: nat)
    requires p.pc.CiphertextTest? && Open(c, w, p.request, p.pc.reconciled) && n >= 7
    ensures Ends(c, w, p, me, n, if p.signed then Published(ReportOf(p.request, p.now)) else Refused(BadEnrollment))
  {
    var q, b := p.request, p.pc.reconciled;
    var rec := Of(w, q.role);
    assert RoleInv(c, w.claims, q.role, rec);
    if rec.ciphertext.None? {
      var w' := With(w, q.role, rec.(ciphertext := Some(q.manifest.ciphertext)));
      One(c, w, p, me, n, w, CiphertextCreate(b));
      One(c, w, p.(pc := CiphertextCreate(b)), me, n - 1, w', EnrollmentTest(b));
      EnrollmentEnds(c, w', p.(pc := EnrollmentTest(b)), me, n - 2);
    } else {
      One(c, w, p, me, n, w, EnrollmentTest(b));
      EnrollmentEnds(c, w, p.(pc := EnrollmentTest(b)), me, n - 1);
    }
  }

  lemma {:induction false} AdmittedEnds(c: Case, w: World, p: Process, me: nat, n: nat)
    requires p.pc.OtherRoleTest? && Open(c, w, p.request, p.pc.reconciled) && n >= 10
    ensures Ends(c, w, p, me, n, if p.signed then Published(ReportOf(p.request, p.now)) else Refused(BadEnrollment))
  {
    var q, b := p.request, p.pc.reconciled;
    assert RoleInv(c, w.claims, q.role, Of(w, q.role)) && RoleInv(c, w.claims, Other(q.role), Of(w, Other(q.role)));
    One(c, w, p, me, n, w, CiphertextFree(b));
    One(c, w, p.(pc := CiphertextFree(b)), me, n - 1, w, ManifestFree(b));
    One(c, w, p.(pc := ManifestFree(b)), me, n - 2, w, CiphertextTest(b));
    CiphertextEnds(c, w, p.(pc := CiphertextTest(b)), me, n - 3);
  }

  lemma {:induction false} ClaimedEnds(c: Case, w: World, p: Process, me: nat, n: nat)
    requires p.pc.AdmissionTest? && WorldInv(c, w) && Verifies(c, p.request, p.now) && n >= 12
    requires p.request.manifest.nonce in w.claims && w.claims[p.request.manifest.nonce] == p.request
    requires Of(w, p.request.role).completion.None?
    requires !p.pc.reconciled ==> Of(w, p.request.role).admission.None? || Of(w, p.request.role).admission.value.request != p.request
    ensures Ends(c, w, p, me, n,
                 var adm := Of(w, p.request.role).admission;
                 if adm.Some? && adm.value.request != p.request then Refused(RoleOccupied)
                 else if p.signed then Published(ReportOf(p.request, p.now)) else Refused(BadEnrollment))
  {
    var q, b := p.request, p.pc.reconciled;
    var rec := Of(w, q.role);
    assert RoleInv(c, w.claims, q.role, rec);
    if rec.admission.None? {
      var w' := With(w, q.role, rec.(admission := Some(Admission(q, p.now))));
      One(c, w, p, me, n, w, AdmissionCreate(b));
      One(c, w, p.(pc := AdmissionCreate(b)), me, n - 1, w', OtherRoleTest(b));
      assert RoleInv(c, w'.claims, q.role, Of(w', q.role));
      AdmittedEnds(c, w', p.(pc := OtherRoleTest(b)), me, n - 2);
    } else if rec.admission.value.request == q {
      One(c, w, p, me, n, w, OtherRoleTest(true));
      AdmittedEnds(c, w, p.(pc := OtherRoleTest(true)), me, n - 1);
    } else {
      Stop(c, w, p, me, n, RoleOccupied);
    }
  }

  /**
   From any reachable state, whatever crashed before: a lone attempt ends exactly as LoneOutcome says.
   In particular re-running the admitted request before expiry always completes, and after completion
   every attempt for the role is refused as a replay.
   */
  lemma {:induction false} LoneAttemptExact(c: Case, before: seq<Action>, q: Request, signed: bool, now: int)
    ensures var s := Reached(c, before);
            Ends(c, s.world, Process(q, signed, now, Start), |s.attempts|, LONGEST, LoneOutcome(c, s.world, q, signed, now))
  {
    ReachedInv(c, before);
    var s := Reached(c, before);
    var w, me, p := s.world, |s.attempts|, Process(q, signed, now, Start);
    var rec, nonce := Of(w, q.role), q.manifest.nonce;
    assert RoleInv(c, w.claims, q.role, rec);
    if !Verifies(c, q, now) {
      Stop(c, w, p, me, LONGEST, NotVerified);
      return;
    }
    One(c, w, p, me, LONGEST, w, CompletionTest);
    if rec.completion.Some? {
      Stop(c, w, p.(pc := CompletionTest), me, LONGEST - 1, Replay);
      return;
    }
    One(c, w, p.(pc := CompletionTest), me, LONGEST - 1, w, ClaimNonce);
    if nonce !in w.claims {
      var w' := w.(claims := w.claims[nonce := q]);
      ClaimKeepsRecords(c, w, p.(pc := ClaimNonce), me);
      One(c, w, p.(pc := ClaimNonce), me, LONGEST - 2, w', AdmissionTest(false));
      ClaimedEnds(c, w', p.(pc := AdmissionTest(false)), me, LONGEST - 3);
    } else if w.claims[nonce] == q {
      One(c, w, p.(pc := ClaimNonce), me, LONGEST - 2, w, AdmissionTest(true));
      ClaimedEnds(c, w, p.(pc := AdmissionTest(true)), me, LONGEST - 3);
    } else {
      Stop(c, w, p.(pc := ClaimNonce), me, LONGEST - 2, Replay);
    }
  }

  /** An attempt that is not genuine, not in the case window or at or after the artifact's expiry is refused and leaves no trace, in any world. */
  lemma {:induction false} UnverifiedChangesNothing(c: Case, w: World, q: Request, signed: bool, now: int, me: nat)
    ensures var verified := c.genuine(q) && c.created <= now < q.manifest.expiresAt <= c.expires;
            var (w', p') := Alone(c, w, Process(q, signed, now, Start), me, LONGEST);
            && (!verified ==> w' == w && p'.pc == Refused(NotVerified))
            && (verified ==> p'.pc != Refused(NotVerified))
  {
    var p := Process(q, signed, now, Start);
    if !(c.genuine(q) && c.created <= now < q.manifest.expiresAt <= c.expires) {
      Stop(c, w, p, me, LONGEST, NotVerified);
    } else {
      One(c, w, p, me, LONGEST, w, CompletionTest);
      NeverUnverified(c, w, p.(pc := CompletionTest), me, LONGEST - 1);
    }
  }

  lemma {:induction false} NeverUnverified(c: Case, w: World, p: Process, me: nat, n: nat)
    requires p.pc != Start && p.pc != Refused(NotVerified)
    ensures Alone(c, w, p, me, n).1.pc != Refused(NotVerified)
    decreases n
  {
    if n > 0 {
      var (w', pc') := Step(c, w, p, me);
      NeverUnverified(c, w', p.(pc := pc'), me, n - 1);
    }
  }

  /**
   A bad enrollment signature is found only after nonce, role and ciphertext are durably taken; since the
   signature is not part of the request's digest, a later attempt with a good one completes the import.
   */
  lemma {:induction false} BadSignatureCommitsAndRecovers(c: Case, before: seq<Action>, q: Request, now: int, later: int)
    requires LoneOutcome(c, Reached(c, before).world, q, false, now) == Refused(BadEnrollment) && Verifies(c, q, later)
    ensures var s := Reached(c, before);
            var s1 := Run(c, s, Attempt(c, s, q, false, now, LONGEST));
            && Of(s1.world, q.role).ciphertext == Some(q.manifest.ciphertext)
            && Of(s1.world, q.role).admission.Some? && Of(s1.world, q.role).admission.value.request == q
            && LoneOutcome(c, s1.world, q, true, later) == Published(ReportOf(q, later))
  {
    LoneAttemptExact(c, before, q, false, now);
    AttemptRuns(c, Reached(c, before), q, false, now, LONGEST);
  }

  /** A refused attempt can still consume its nonce: a role conflict is found only after the claim. */
  lemma {:induction false} RefusalBurnsNonce(c: Case, before: seq<Action>, q: Request, signed: bool, now: int)
    requires var w := Reached(c, before).world;
             LoneOutcome(c, w, q, signed, now) == Refused(RoleOccupied) && q.manifest.nonce !in w.claims
    ensures var s := Reached(c, before);
            var w' := Alone(c, s.world, Process(q, signed, now, Start), |s.attempts|, LONGEST).0;
            w' == s.world.(claims := s.world.claims[q.manifest.nonce := q])
  {
    var s := Reached(c, before);
    var w, me, p := s.world, |s.attempts|, Process(q, signed, now, Start);
    var w' := w.(claims := w.claims[q.manifest.nonce := q]);
    One(c, w, p, me, LONGEST, w, CompletionTest);
    One(c, w, p.(pc := CompletionTest), me, LONGEST - 1, w, ClaimNonce);
    One(c, w, p.(pc := ClaimNonce), me, LONGEST - 2, w', AdmissionTest(false));
    Stop(c, w', p.(pc := AdmissionTest(false)), me, LONGEST - 3, RoleOccupied);
  }

  // ----- reconciliation

  /** ReconcileParticipantOriginatedImport: reads journal, staged pair and public store; writes nothing. */
  function Reconcile(c: Case, w: World, q: Request, now: int): Result<Report> {
    var rec := Of(w, q.role);
    if rec.admission.None? || rec.admission.value.request.manifest.nonce != q.manifest.nonce ||
       rec.admission.value.request.manifest != q.manifest ||
       rec.admission.value.admittedAt <= 0 || rec.admission.value.admittedAt > now then Err
    else if rec.completion.None? || rec.completion.value.request != rec.admission.value.request ||
            rec.completion.value.importedAt < rec.admission.value.admittedAt || rec.completion.value.importedAt > now then Err
    else if !Verifies(c, q, rec.admission.value.admittedAt) then Err
    else if q != rec.admission.value.request || rec.completion.value.manifest != q.manifest ||
            rec.completion.value.ciphertext != q.manifest.ciphertext then Err
    else if rec.manifest != Some(rec.completion.value.manifest) || rec.ciphertext != Some(rec.completion.value.ciphertext) then Err
    else Ok(Report(q, rec.completion.value.manifest, rec.completion.value.ciphertext, rec.completion.value.importedAt))
  }

  /**
   Reconciliation never asks whether the artifact has expired. It answers exactly for the admitted
   request of a completed import, provided the clock that completed it was not behind the clock that
   admitted it and the reader's clock is not behind either; the answer is what the journal recorded.
   */
  lemma {:induction false} ReconcileExact(c: Case, actions: seq<Action>, q: Request, now: int)
    requires ValidCase(c)
    ensures var rec := Of(Reached(c, actions).world, q.role);
            var r := Reconcile(c, Reached(c, actions).world, q, now);
            && (r.Ok? <==>
                  && rec.completion.Some? && rec.completion.value.request == q && rec.admission.Some?
                  && rec.admission.value.admittedAt <= rec.completion.value.importedAt <= now)
            && (r.Ok? ==>
                  r.value == Report(q, rec.manifest.value, rec.ciphertext.value, rec.completion.value.importedAt))
  {
    ReachedInv(c, actions);
    var w := Reached(c, actions).world;
    assert RoleInv(c, w.claims, q.role, Of(w, q.role));
  }

  /** Running alone is one of the runs. */
  lemma {:induction false} AloneIsARun(c: Case, s: State, k: nat, n: nat)
    requires k < |s.attempts|
    ensures var (w, p) := Alone(c, s.world, s.attempts[k], k, n);
            Run(c, s, seq(n, i => Advance(k))) == State(w, s.attempts[k := p])
    decreases n
  {
    if n > 0 {
      AloneIsARun(c, Apply(c, s, Advance(k)), k, n - 1);
      RunFromFront(c, s, Advance(k), n - 1);
    }
  }

  lemma {:induction false} RunFromFront(c: Case, s: State, a: Action, n: nat)
    ensures Run(c, Apply(c, s, a), seq(n, i => a)) == Run(c, s, seq(n + 1, i => a))
  {
    var whole := seq(n + 1, i => a);
    if n == 0 {
      assert whole == [a];
      assert whole[..0] == [];
    } else {
      RunFromFront(c, s, a, n - 1);
      assert whole[..n] == seq(n, i => a);
      assert seq(n, i => a)[..n - 1] == seq(n - 1, i => a);
    }
  }

  lemma {:induction false} RunConcat(c: Case, s: State, x: seq<Action>, y: seq<Action>)
    ensures Run(c, s, x + y) == Run(c, Run(c, s, x), y)
  {
    if y == [] {
      assert x + y == x;
    } else {
      var n := |y| - 1;
      assert (x + y)[..|x| + n] == x + y[..n];
      RunConcat(c, s, x, y[..n]);
    }
  }

  /** A fresh attempt that gets the next `n` steps to itself. */
  function Attempt(c: Case, s: State, q: Request, signed: bool, now: int, n: nat): seq<Action> {
    [Begin(q, signed, now)] + seq(n, i => Advance(|s.attempts|))
  }

  lemma {:induction false} AttemptRuns(c: Case, s: State, q: Request, signed: bool, now: int, n: nat)
    ensures Run(c, s, Attempt(c, s, q, signed, now, n)).world
         == Alone(c, s.world, Process(q, signed, now, Start), |s.attempts|, n).0
  {
    var first := [Begin(q, signed, now)];
    var k := |s.attempts|;
    var s1 := Apply(c, s, first[0]);
    assert first[..0] == [] && Run(c, s, first) == s1;
    RunConcat(c, s, first, seq(n, i => Advance(k)));
    AloneIsARun(c, s1, k, n);
  }

  /** Five steps into an empty world an attempt has claimed its nonce and its role, and nothing more. */
  lemma {:induction false} FiveSteps(c: Case, q: Request, now: int)
    requires Verifies(c, q, now)
    ensures Alone(c, EMPTY, Process(q, true, now, Start), 0, 5).0
         == With(EMPTY.(claims := map[q.manifest.nonce := q]), q.role, NOTHING.(admission := Some(Admission(q, now))))
  {
    var w1 := EMPTY.(claims := EMPTY.claims[q.manifest.nonce := q]);
    var w2 := With(w1, q.role, NOTHING.(admission := Some(Admission(q, now))));
    var p0 := Process(q, true, now, Start);
    One(c, EMPTY, p0, 0, 5, EMPTY, CompletionTest);
    One(c, EMPTY, p0.(pc := CompletionTest), 0, 4, EMPTY, ClaimNonce);
    One(c, EMPTY, p0.(pc := ClaimNonce), 0, 3, w1, AdmissionTest(false));
    One(c, w1, p0.(pc := AdmissionTest(false)), 0, 2, w1, AdmissionCreate(false));
    One(c, w1, p0.(pc := AdmissionCreate(false)), 0, 1, w2, OtherRoleTest(false));
  }

  /**
   The clock condition is not vacuous: an attempt admitted at time `late` that stops there, completed by
   a second attempt whose clock reads `early`, is complete and public, yet no reader ever reconciles it.
   */
  lemma {:induction false} SkewedClocksNeverReconcile(c: Case, q: Request, early: int, late: int) returns (actions: seq<Action>)
    requires ValidCase(c) && early < late && Verifies(c, q, early) && Verifies(c, q, late)
    ensures Of(Reached(c, actions).world, q.role).completion.Some?
    ensures forall now :: Reconcile(c, Reached(c, actions).world, q, now).Err?
  {
    var first := Attempt(c, INITIAL, q, true, late, 5);
    AttemptRuns(c, INITIAL, q, true, late, 5);
    FiveSteps(c, q, late);
    var s1 := Reached(c, first);
    LoneAttemptExact(c, first, q, true, early);
    var again := Attempt(c, s1, q, true, early, LONGEST);
    AttemptRuns(c, s1, q, true, early, LONGEST);
    actions := first + again;
    RunConcat(c, INITIAL, first, again);
    ReachedInv(c, first);
    RunKeeps(c, s1, again);
    forall now
      ensures Reconcile(c, Reached(c, actions).world, q, now).Err?
    {
      ReconcileExact(c, actions, q, now);
    }
  }
}
