/**
 The decryptor as the sequential program it is: named objects in two create-only
 stores, written in order, with a branch on which of them exist. Each method is
 proved to do what the step machine of GovernedRelease does when one process runs
 without interruption, so the guarantees over interleavings are about this code.
 */
module GovernedDecryptor {
  import opened Basics
  import opened SlotVectors
  import opened PolicyCircuit
  import opened GovernedRelease
  import opened ReleaseGuarantees

  class Decryptor {
    // the stores this decryptor works on
    var inputs: Inputs
    var recomputation: Recomputation
    var release: ReleaseRecords
    // its clock reading, its provenance, and which attempt it is
    const now: int
    const provenance: int
    const me: nat

    constructor (world: World, now: int, provenance: int, me: nat)
      ensures Stores() == world && this.now == now && this.provenance == provenance && this.me == me
    {
      inputs, recomputation, release := world.inputs, world.recomputation, world.release;
      this.now, this.provenance, this.me := now, provenance, me;
    }

    function Stores(): World
      reads this
    {
      World(inputs, recomputation, release)
    }

    ghost function At(pc: Pc): Process {
      Process(now, provenance, pc)
    }

    /** Looks at every slot of the decoded plaintext. */
    method Decode(ct: Cipher) returns (bit: Option<bool>)
      ensures bit.Some? <==> Canonical(ct)
      ensures bit.Some? ==> bit.value == (ct.slots[0] == 1)
    {
      if ct.slots[0] > 1 {
        return None;
      }
      for i := 1 to SLOTS
        invariant forall k :: 0 < k < i ==> ct.slots[k] == 0
      {
        if ct.slots[i] != 0 {
          return None;
        }
      }
      return Some(ct.slots[0] == 1);
    }

    /** exactRetry */
    method ExactRetry(c: Case, art: Artifact, ghost n: nat) returns (found: bool, r: Result<GovernedResult>)
      requires n >= 6
      modifies this`release
      ensures found <==> old(release).retained.Some?
      ensures !found ==> Stores() == old(Stores())
      ensures found ==> Outcome(c, old(Stores()), At(Retry(art, RetryTest)), n, r)
    {
      if release.retained.None? {
        return false, Err;
      }
      found := true;
      ghost var w0 := Stores();
      One(c, w0, At(Retry(art, RetryTest)), me, n, w0, Retry(art, RetryLoad));
      var result := release.retained.value;
      if !VerifiedLoads(recomputation, art) || !ResultVerifies(c, result, art) ||
         result.ciphertext != recomputation.verified.value.recomputed || !AdmissionLoads(release, art) {
        Stop(c, w0, Retry(art, RetryLoad), n - 1);
        return true, Err;
      }
      One(c, w0, At(Retry(art, RetryLoad)), me, n - 1, w0, Retry(art, RetryPublicTest(result)));
      ghost var m := n - 3;
      if release.published.Some? {
        if release.published != Some(result) {
          Stop(c, w0, Retry(art, RetryPublicTest(result)), n - 2);
          return true, Err;
        }
        One(c, w0, At(Retry(art, RetryPublicTest(result))), me, n - 2, w0, Retry(art, RetryConsumedTest(result)));
      } else {
        One(c, w0, At(Retry(art, RetryPublicTest(result))), me, n - 2, w0, Retry(art, RetryPublish(result)));
        release := release.(published := Some(result));
        One(c, w0, At(Retry(art, RetryPublish(result))), me, n - 3, Stores(), Retry(art, RetryConsumedTest(result)));
        m := n - 4;
      }
      ghost var w1 := Stores();
      if release.consumed.None? {
        One(c, w1, At(Retry(art, RetryConsumedTest(result))), me, m, w1, Retry(art, RetryConsume(result)));
        release := release.(consumed := Some(Consumed(art, result, now)));
        Finish(c, w1, Retry(art, RetryConsume(result)), m - 1, Stores(), result);
      } else {
        var consumed := release.consumed.value;
        if consumed.artifact != art || consumed.result != result || consumed.consumedAt <= 0 {
          Stop(c, w1, Retry(art, RetryConsumedTest(result)), m);
          return true, Err;
        }
        Finish(c, w1, Retry(art, RetryConsumedTest(result)), m, w1, result);
      }
      r := Ok(result);
    }

    /** prepareVerifiedRecomputation: `left` steps remain when it succeeds. */
    method PrepareVerifiedRecomputation(c: Case, art: Artifact, ghost n: nat) returns (r: Result<Cipher>, ghost left: nat)
      requires n >= 17
      modifies this`recomputation
      ensures r.Err? ==> Outcome(c, old(Stores()), At(Prepare(art, Participants)), n, Err)
      ensures r.Ok? ==> left >= 6
      ensures r.Ok? ==>
                Alone(c, old(Stores()), At(Prepare(art, Participants)), me, n) ==
                Alone(c, Stores(), At(Release(art, AdmitRelease(r.value))), me, left)
    {
      ghost var w := Stores();
      left := 0;
      if inputs.submissionA != Some(art.subA) || inputs.submissionB != Some(art.subB) || !FreshPair(c, art.subA, art.subB, now) {
        Stop(c, w, Prepare(art, Participants), n);
        return Err, 0;
      }
      One(c, w, At(Prepare(art, Participants)), me, n, w, Prepare(art, MismatchTest));
      if recomputation.mismatch.Some? {
        Stop(c, w, Prepare(art, MismatchTest), n - 1);
        return Err, 0;
      }
      One(c, w, At(Prepare(art, MismatchTest)), me, n - 1, w, Prepare(art, VerifiedTest));
      if recomputation.verified.Some? {
        if !VerifiedLoads(recomputation, art) {
          Stop(c, w, Prepare(art, VerifiedTest), n - 2);
          return Err, 0;
        }
        One(c, w, At(Prepare(art, VerifiedTest)), me, n - 2, w, Release(art, AdmitRelease(recomputation.verified.value.recomputed)));
        return Ok(recomputation.verified.value.recomputed), n - 3;
      }
      One(c, w, At(Prepare(art, VerifiedTest)), me, n - 2, w, Prepare(art, RecomputeTest));
      if recomputation.admission.Some? {
        Stop(c, w, Prepare(art, RecomputeTest), n - 3);
        return Err, 0;
      }
      One(c, w, At(Prepare(art, RecomputeTest)), me, n - 3, w, Prepare(art, MismatchRetest));
      // the second test of the three records passes when nobody else is running
      assert recomputation.mismatch.None? && recomputation.verified.None? && recomputation.admission.None?;
      One(c, w, At(Prepare(art, MismatchRetest)), me, n - 4, w, Prepare(art, VerifiedRetest));
      One(c, w, At(Prepare(art, VerifiedRetest)), me, n - 5, w, Prepare(art, RecomputeRetest));
      One(c, w, At(Prepare(art, RecomputeRetest)), me, n - 6, w, Prepare(art, AdmitRecompute));
      r, left := RunRecomputation(c, art, n - 7);
    }

    /** The admitted part: compute, compare byte for byte, and record the verdict. */
    method RunRecomputation(c: Case, art: Artifact, ghost n: nat) returns (r: Result<Cipher>, ghost left: nat)
      requires n >= 10 && recomputation.admission.None?
      modifies this`recomputation
      ensures r.Err? ==> Outcome(c, old(Stores()), At(Prepare(art, AdmitRecompute)), n, Err)
      ensures r.Ok? ==> left >= 6
      ensures r.Ok? ==>
                Alone(c, old(Stores()), At(Prepare(art, AdmitRecompute)), me, n) ==
                Alone(c, Stores(), At(Release(art, AdmitRelease(r.value))), me, left)
    {
      ghost var w0 := Stores();
      left := 0;
      recomputation := recomputation.(admission := Some(RecomputeAdmission(art, art.subA, art.subB, now)), owner := Some(me));
      ghost var w1 := Stores();
      One(c, w0, At(Prepare(art, AdmitRecompute)), me, n, w1, Prepare(art, Recompute));
      if !c.enrolled(art.subA, art.subB, now) {
        Stop(c, w1, Prepare(art, Recompute), n - 1);
        return Err, 0;
      }
      var recomputed := Recomputed(c, art);
      recomputation := recomputation.(executions := recomputation.executions + 1);
      ghost var w2 := Stores();
      if recomputed != art.ciphertext {
        One(c, w1, At(Prepare(art, Recompute)), me, n - 1, w2, Prepare(art, RecordMismatch(recomputed)));
        recomputation := recomputation.(mismatch := Create(recomputation.mismatch, Mismatch(art, recomputed, now)));
        One(c, w2, At(Prepare(art, RecordMismatch(recomputed))), me, n - 2, Stores(), Halted);
        Settled(c, Stores(), At(Halted), me, n - 3);
        return Err, 0;
      }
      One(c, w1, At(Prepare(art, Recompute)), me, n - 1, w2, Prepare(art, StoreRecomputed(recomputed)));
      if recomputation.ciphertext.Some? {
        Stop(c, w2, Prepare(art, StoreRecomputed(recomputed)), n - 2);
        return Err, 0;
      }
      recomputation := recomputation.(ciphertext := Some(recomputed));
      ghost var w3 := Stores();
      One(c, w2, At(Prepare(art, StoreRecomputed(recomputed))), me, n - 2, w3, Prepare(art, StoreVerified(recomputed)));
      if recomputation.verified.Some? {
        Stop(c, w3, Prepare(art, StoreVerified(recomputed)), n - 3);
        return Err, 0;
      }
      recomputation := recomputation.(verified := Some(Verified(art, recomputed, now)));
      One(c, w3, At(Prepare(art, StoreVerified(recomputed))), me, n - 3, Stores(), Release(art, AdmitRelease(recomputed)));
      return Ok(recomputed), n - 4;
    }

    /** The one-shot part of release: admission, decryption, signature, retained, public, consumed. */
    method ReleaseOnce(c: Case, art: Artifact, ct: Cipher, ghost n: nat) returns (r: Result<GovernedResult>)
      requires n >= 6
      modifies this`release
      ensures Outcome(c, old(Stores()), At(Release(art, AdmitRelease(ct))), n, r)
    {
      ghost var w0 := Stores();
      if release.admission.Some? {
        Stop(c, w0, Release(art, AdmitRelease(ct)), n);
        return Err;
      }
      release := release.(admission := Some(ReleaseAdmission(art, now)), owner := Some(me));
      ghost var w1 := Stores();
      One(c, w0, At(Release(art, AdmitRelease(ct))), me, n, w1, Release(art, Decrypt(ct)));
      release := release.(decryptions := release.decryptions + 1);
      ghost var w2 := Stores();
      var bit := Decode(ct);
      if bit.None? {
        One(c, w1, At(Release(art, Decrypt(ct))), me, n - 1, w2, Halted);
        Settled(c, w2, At(Halted), me, n - 2);
        return Err;
      }
      One(c, w1, At(Release(art, Decrypt(ct))), me, n - 1, w2, Release(art, Sign(ct, bit.value)));
      var result := GovernedResult(art, ct, bit.value, now, provenance, c.authority);
      release := release.(signatures := release.signatures + 1);
      ghost var w3 := Stores();
      One(c, w2, At(Release(art, Sign(ct, bit.value))), me, n - 2, w3, Release(art, Retain(result)));
      if release.retained.Some? {
        Stop(c, w3, Release(art, Retain(result)), n - 3);
        return Err;
      }
      release := release.(retained := Some(result));
      ghost var w4 := Stores();
      One(c, w3, At(Release(art, Retain(result))), me, n - 3, w4, Release(art, Publish(result)));
      if release.published.Some? {
        Stop(c, w4, Release(art, Publish(result)), n - 4);
        return Err;
      }
      release := release.(published := Some(result));
      ghost var w5 := Stores();
      One(c, w4, At(Release(art, Publish(result))), me, n - 4, w5, Release(art, Consume(result)));
      if release.consumed.Some? {
        Stop(c, w5, Release(art, Consume(result)), n - 5);
        return Err;
      }
      release := release.(consumed := Some(Consumed(art, result, now)));
      Finish(c, w5, Release(art, Consume(result)), n - 5, Stores(), result);
      r := Ok(result);
    }

    /** A whole attempt: the stores and the return are those of the step machine run alone. */
    method ReleaseFixedConflict(c: Case, expected: Artifact) returns (r: Result<GovernedResult>)
      modifies this
      ensures inputs == old(inputs)
      ensures Outcome(c, old(Stores()), At(Start(expected)), LONGEST, r)
    {
      ghost var w := Stores();
      if provenance == 0 || !InWindow(c, now) || inputs.evaluated.None? || !ArtifactValid(inputs, inputs.evaluated.value) ||
         expected != inputs.evaluated.value {
        Stop(c, w, Start(expected), LONGEST);
        return Err;
      }
      var art := inputs.evaluated.value;
      One(c, w, At(Start(expected)), me, LONGEST, w, Retry(art, RetryTest));
      var found;
      found, r := ExactRetry(c, art, LONGEST - 1);
      if found {
        return;
      }
      One(c, w, At(Retry(art, RetryTest)), me, LONGEST - 1, w, Release(art, AdmissionTest));
      if release.admission.Some? {
        Stop(c, w, Release(art, AdmissionTest), LONGEST - 2);
        return Err;
      }
      One(c, w, At(Release(art, AdmissionTest)), me, LONGEST - 2, w, Release(art, ConsumedTest));
      if release.consumed.Some? {
        Stop(c, w, Release(art, ConsumedTest), LONGEST - 3);
        return Err;
      }
      One(c, w, At(Release(art, ConsumedTest)), me, LONGEST - 3, w, Prepare(art, Participants));
      var prepared;
      ghost var left;
      prepared, left := PrepareVerifiedRecomputation(c, art, LONGEST - 4);
      if prepared.Err? {
        return Err;
      }
      r := ReleaseOnce(c, art, prepared.value, left);
    }

    /** The stores now, and the return `r`, are what `n` undisturbed steps from `w` and `p` lead to. */
    ghost predicate Outcome(c: Case, w: World, p: Process, n: nat, r: Result<GovernedResult>)
      reads this
    {
      Alone(c, w, p, me, n) == (Stores(), p.(pc := if r.Ok? then Returned(r.value) else Halted))
    }

    lemma {:induction false} Stop(c: Case, w: World, pc: Pc, n: nat)
      requires n > 0 && Step(c, w, At(pc), me) == (w, Halted)
      ensures Alone(c, w, At(pc), me, n) == (w, At(Halted))
    {
      One(c, w, At(pc), me, n, w, Halted);
      Settled(c, w, At(Halted), me, n - 1);
    }

    lemma {:induction false} Finish(c: Case, w: World, pc: Pc, n: nat, w': World, res: GovernedResult)
      requires n > 0 && Step(c, w, At(pc), me) == (w', Returned(res))
      ensures Alone(c, w, At(pc), me, n) == (w', At(Returned(res)))
    {
      One(c, w, At(pc), me, n, w', Returned(res));
      Settled(c, w', At(Returned(res)), me, n - 1);
    }
  }
}
