/**
 Publication as the sequential program it is, over the journal and the public
 store. Each method is proved to do what the step machine of Publication does
 when one attempt runs without interruption.
 */
module Publisher {
  import opened Basics
  import opened Publication
  import opened PublicationGuarantees

  class Coordinator {
    var claims: map<int, Request>
    var a: Records
    var b: Records
    const now: int
    const me: nat

    constructor (world: World, now: int, me: nat)
      ensures Stores() == world && this.now == now && this.me == me
    {
      claims, a, b := world.claims, world.a, world.b;
      this.now, this.me := now, me;
    }

    function Stores(): World
      reads this
    {
      World(claims, a, b)
    }

    function Mine(r: Role): Records
      reads this
    {
      Of(Stores(), r)
    }

    /** Rewrites the records of one role. */
    method Put(r: Role, rec: Records)
      modifies this`a, this`b
      ensures Stores() == With(old(Stores()), r, rec)
    {
      if r.RoleA? {
        a := rec;
      } else {
        b := rec;
      }
    }

    ghost function At(q: Request, signed: bool, pc: Pc): Process {
      Process(q, signed, now, pc)
    }

    /** The stores now, and the answer, are what `n` undisturbed steps from `w` and `p` lead to. */
    ghost predicate Outcome(c: Case, w: World, p: Process, n: nat, r: Pc)
      reads this
    {
      Alone(c, w, p, me, n) == (Stores(), p.(pc := r))
    }

    /** claimParticipantOriginatedNonce: create the claim, or recognise our own. */
    method ClaimNonce(q: Request) returns (r: Result<bool>)
      modifies this`claims
      ensures old(q.manifest.nonce !in claims) ==> r == Ok(false) && claims == old(claims)[q.manifest.nonce := q]
      ensures old(q.manifest.nonce in claims) ==> claims == old(claims) && r == (if claims[q.manifest.nonce] == q then Ok(true) else Err)
    {
      if q.manifest.nonce !in claims {
        claims := claims[q.manifest.nonce := q];
        return Ok(false);
      }
      return if claims[q.manifest.nonce] == q then Ok(true) else Err;
    }

    /** Manifest and completion, the last two writes. */
    method PublishManifest(c: Case, q: Request, signed: bool, reconciled: bool, ghost n: nat) returns (r: Pc)
      requires n >= 3
      modifies this`a, this`b
      ensures Outcome(c, old(Stores()), At(q, signed, ManifestTest(reconciled)), n, r)
    {
      ghost var w := Stores();
      ghost var p := At(q, signed, ManifestTest(reconciled));
      var rec := Mine(q.role);
      ghost var left := n - 1;
      if rec.manifest.Some? {
        if !reconciled {
          Stop(c, w, p, me, n, RoleOccupied);
          return Refused(RoleOccupied);
        } else if rec.manifest.value != q.manifest {
          Stop(c, w, p, me, n, ImportMismatch);
          return Refused(ImportMismatch);
        }
        One(c, w, p, me, n, w, Complete(reconciled));
      } else {
        One(c, w, p, me, n, w, ManifestCreate(reconciled));
        Put(q.role, rec.(manifest := Some(q.manifest)));
        One(c, w, p.(pc := ManifestCreate(reconciled)), me, n - 1, Stores(), Complete(reconciled));
        left := n - 2;
      }
      ghost var w1 := Stores();
      rec := Mine(q.role);
      if rec.completion.Some? {
        Stop(c, w1, p.(pc := Complete(reconciled)), me, left, StoreFailed);
        return Refused(StoreFailed);
      }
      Put(q.role, rec.(completion := Some(Completion(q, q.manifest, q.manifest.ciphertext, now)), author := Some(me)));
      var report := ReportOf(q, now);
      One(c, w1, p.(pc := Complete(reconciled)), me, left, Stores(), Published(report));
      Settled(c, Stores(), p.(pc := Published(report)), me, left - 1);
      return Published(report);
    }

    /** Enrollment, after the ciphertext and before the manifest. */
    method PublishEnrollment(c: Case, q: Request, signed: bool, reconciled: bool, ghost n: nat) returns (r: Pc)
      requires n >= 5
      modifies this`a, this`b
      ensures Outcome(c, old(Stores()), At(q, signed, EnrollmentTest(reconciled)), n, r)
    {
      ghost var w := Stores();
      ghost var p := At(q, signed, EnrollmentTest(reconciled));
      var rec := Mine(q.role);
      if !signed {
        Stop(c, w, p, me, n, BadEnrollment);
        return Refused(BadEnrollment);
      }
      if rec.enrollment.Some? {
        if rec.enrollment.value != Enrollment(q.role, q.manifest) {
          Stop(c, w, p, me, n, RoleOccupied);
          return Refused(RoleOccupied);
        }
        One(c, w, p, me, n, w, ManifestTest(reconciled));
        r := PublishManifest(c, q, signed, reconciled, n - 1);
      } else {
        One(c, w, p, me, n, w, EnrollmentCreate(reconciled));
        Put(q.role, rec.(enrollment := Some(Enrollment(q.role, q.manifest))));
        One(c, w, p.(pc := EnrollmentCreate(reconciled)), me, n - 1, Stores(), ManifestTest(reconciled));
        r := PublishManifest(c, q, signed, reconciled, n - 2);
      }
    }

    /** Everything after the admission: ciphertext first, manifest last. */
    method PublishObjects(c: Case, q: Request, signed: bool, reconciled: bool, ghost n: nat) returns (r: Pc)
      requires n >= 10
      modifies this`a, this`b
      ensures Outcome(c, old(Stores()), At(q, signed, OtherRoleTest(reconciled)), n, r)
    {
      ghost var w := Stores();
      ghost var p := At(q, signed, OtherRoleTest(reconciled));
      var other := Mine(Other(q.role)).manifest;
      if other.Some? && other.value.nonce == q.manifest.nonce {
        Stop(c, w, p, me, n, Replay);
        return Refused(Replay);
      }
      One(c, w, p, me, n, w, CiphertextFree(reconciled));
      var rec := Mine(q.role);
      if !reconciled && rec.ciphertext.Some? {
        Stop(c, w, p.(pc := CiphertextFree(reconciled)), me, n - 1, RoleOccupied);
        return Refused(RoleOccupied);
      }
      One(c, w, p.(pc := CiphertextFree(reconciled)), me, n - 1, w, ManifestFree(reconciled));
      if !reconciled && rec.manifest.Some? {
        Stop(c, w, p.(pc := ManifestFree(reconciled)), me, n - 2, RoleOccupied);
        return Refused(RoleOccupied);
      }
      One(c, w, p.(pc := ManifestFree(reconciled)), me, n - 2, w, CiphertextTest(reconciled));
      ghost var p1 := p.(pc := CiphertextTest(reconciled));
      if rec.ciphertext.Some? {
        if rec.ciphertext.value != q.manifest.ciphertext {
          Stop(c, w, p1, me, n - 3, ImportMismatch);
          return Refused(ImportMismatch);
        }
        One(c, w, p1, me, n - 3, w, EnrollmentTest(reconciled));
        r := PublishEnrollment(c, q, signed, reconciled, n - 4);
      } else {
        One(c, w, p1, me, n - 3, w, CiphertextCreate(reconciled));
        Put(q.role, rec.(ciphertext := Some(q.manifest.ciphertext)));
        One(c, w, p.(pc := CiphertextCreate(reconciled)), me, n - 4, Stores(), EnrollmentTest(reconciled));
        r := PublishEnrollment(c, q, signed, reconciled, n - 5);
      }
    }

    /** The role admission: create it, or recognise our own. */
    method Admit(c: Case, q: Request, signed: bool, claimed: bool, ghost n: nat) returns (r: Pc)
      requires n >= 12
      modifies this`a, this`b
      ensures Outcome(c, old(Stores()), At(q, signed, AdmissionTest(claimed)), n, r)
    {
      ghost var w := Stores();
      ghost var p := At(q, signed, AdmissionTest(claimed));
      var rec := Mine(q.role);
      if rec.admission.Some? {
        if rec.admission.value.request != q {
          Stop(c, w, p, me, n, RoleOccupied);
          return Refused(RoleOccupied);
        }
        One(c, w, p, me, n, w, OtherRoleTest(true));
        r := PublishObjects(c, q, signed, true, n - 1);
      } else {
        One(c, w, p, me, n, w, AdmissionCreate(claimed));
        Put(q.role, rec.(admission := Some(Admission(q, now))));
        One(c, w, p.(pc := AdmissionCreate(claimed)), me, n - 1, Stores(), OtherRoleTest(claimed));
        r := PublishObjects(c, q, signed, claimed, n - 2);
      }
    }

    /** PublishParticipantOriginatedArtifact: the stores and the answer are those of the step machine run alone. */
    method Publish(c: Case, q: Request, signed: bool) returns (r: Pc)
      modifies this
      ensures Outcome(c, old(Stores()), At(q, signed, Start), LONGEST, r)
    {
      ghost var w := Stores();
      ghost var p := At(q, signed, Start);
      if !Verifies(c, q, now) {
        Stop(c, w, p, me, LONGEST, NotVerified);
        return Refused(NotVerified);
      }
      One(c, w, p, me, LONGEST, w, CompletionTest);
      if Mine(q.role).completion.Some? {
        Stop(c, w, p.(pc := CompletionTest), me, LONGEST - 1, Replay);
        return Refused(Replay);
      }
      One(c, w, p.(pc := CompletionTest), me, LONGEST - 1, w, Pc.ClaimNonce);
      var claimed := ClaimNonce(q);
      if claimed.Err? {
        Stop(c, w, p.(pc := Pc.ClaimNonce), me, LONGEST - 2, Replay);
        return Refused(Replay);
      }
      One(c, w, p.(pc := Pc.ClaimNonce), me, LONGEST - 2, Stores(), AdmissionTest(claimed.value));
      r := Admit(c, q, signed, claimed.value, LONGEST - 3);
    }
  }
}
