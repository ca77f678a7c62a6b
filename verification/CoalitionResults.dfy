/**
 The write order of a coalition release: any number of attempts, interleaved and
 crashing anywhere, over three create-only public objects (admission, result,
 consumed mark). The checks before the consumed test and the work between admission
 and result are left open: an attempt may refuse there, or arrive at some result.
 */
module CoalitionResults {
  import opened Basics

  datatype ReleaseResult = ReleaseResult(sameAsset: bool, conflict: bool, coalition: (int, int), releasedAt: int)

  datatype Pc =
    | Begin | Admitting | CreatingAdmission | Working | Recording(result: ReleaseResult) | Consuming(result: ReleaseResult)
    | Returned(result: ReleaseResult) | Stopped

  datatype World = World(admitted: bool, result: Option<ReleaseResult>, consumed: Option<ReleaseResult>, attempts: map<nat, Pc>)

  datatype Event = Start(who: nat) | Step(who: nat) | Arrive(who: nat, found: ReleaseResult) | Refuse(who: nat) | Crash(who: nat)

  function Move(w: World, who: nat, pc: Pc): World {
    w.(attempts := w.attempts[who := pc])
  }

  /** One atomic step of one attempt. */
  function Advance(w: World, who: nat): World
    requires who in w.attempts
  {
    match w.attempts[who]
    case Begin => Move(w, who, if w.consumed.Some? then Stopped else Admitting)
    case Admitting => Move(w, who, if w.admitted then Working else CreatingAdmission)
    case CreatingAdmission => if w.admitted then Move(w, who, Stopped) else Move(w.(admitted := true), who, Working)
    case Recording(v) => if w.result.Some? then Move(w, who, Stopped) else Move(w.(result := Some(v)), who, Consuming(v))
    case Consuming(v) => if w.consumed.Some? then Move(w, who, Stopped) else Move(w.(consumed := Some(v)), who, Returned(v))
    case _ => w
  }

  function Apply(w: World, e: Event): World {
    match e
    case Start(who) => if who in w.attempts then w else Move(w, who, Begin)
    case Step(who) => if who in w.attempts then Advance(w, who) else w
    case Arrive(who, v) => if who in w.attempts && w.attempts[who] == Working then Move(w, who, Recording(v)) else w
    case Refuse(who) => if who in w.attempts && w.attempts[who] in {Begin, Working} then Move(w, who, Stopped) else w
    case Crash(who) => if who in w.attempts && !w.attempts[who].Returned? then Move(w, who, Stopped) else w
  }

  function Run(w: World, es: seq<Event>): World {
    if es == [] then w else Apply(Run(w, es[..|es| - 1]), es[|es| - 1])
  }

  function Fresh(): World {
    World(false, None, None, map[])
  }

  /** The attempt wrote the public result. */
  predicate Wrote(pc: Pc) {
    pc.Consuming? || pc.Returned?
  }

  ghost predicate Inv(w: World) {
    && (w.consumed.Some? ==> w.consumed == w.result)
    && (forall p :: p in w.attempts && Wrote(w.attempts[p]) ==> w.result == Some(w.attempts[p].result))
    && (forall p :: p in w.attempts && w.attempts[p].Consuming? ==> w.consumed.None?)
    && (forall p :: p in w.attempts && w.attempts[p].Returned? ==> w.consumed == w.result)
    && (forall p, q :: p in w.attempts && q in w.attempts && Wrote(w.attempts[p]) && Wrote(w.attempts[q]) ==> p == q)
  }

  lemma {:induction false} ApplyKeeps(w: World, e: Event)
    requires Inv(w)
    ensures var w' := Apply(w, e); Inv(w') && Persists(w.result, w'.result) && Persists(w.consumed, w'.consumed) && (w.admitted ==> w'.admitted)
  {
  }

  lemma {:induction false} RunKeeps(w: World, es: seq<Event>)
    requires Inv(w)
    ensures var w' := Run(w, es); Inv(w') && Persists(w.result, w'.result) && Persists(w.consumed, w'.consumed) && (w.admitted ==> w'.admitted)
  {
    if es != [] {
      RunKeeps(w, es[..|es| - 1]);
      ApplyKeeps(Run(w, es[..|es| - 1]), es[|es| - 1]);
    }
  }

  /**
   Over every run: at most one attempt ever returns, what it returned is the public result, and the consumed
   mark names that result for good.
   */
  lemma {:induction false} OneResult(es: seq<Event>, more: seq<Event>, p: nat)
    requires var w := Run(Fresh(), es); p in w.attempts && w.attempts[p].Returned?
    ensures var w, w' := Run(Fresh(), es), Run(Run(Fresh(), es), more);
            && w.result == w.consumed == Some(w.attempts[p].result) && w'.result == w.result && w'.consumed == w.consumed
            && p in w'.attempts && w'.attempts[p] == w.attempts[p]
            && forall q :: q in w'.attempts && w'.attempts[q].Returned? ==> q == p
  {
    var w := Run(Fresh(), es);
    RunKeeps(Fresh(), es);
    RunKeeps(w, more);
    Remains(w, more, p);
  }

  lemma {:induction false} Remains(w: World, more: seq<Event>, p: nat)
    requires p in w.attempts && w.attempts[p].Returned?
    ensures p in Run(w, more).attempts && Run(w, more).attempts[p] == w.attempts[p]
  {
    if more != [] {
      Remains(w, more[..|more| - 1], p);
    }
  }

  /** A result was published and whoever published it is gone before marking it consumed. */
  ghost predicate Stranded(w: World) {
    w.result.Some? && w.consumed.None? && forall p :: p in w.attempts ==> !Wrote(w.attempts[p])
  }

  /**
   A crash between the result and the consumed mark cannot be completed: from then on, whatever runs, the mark
   never appears and no attempt ever returns, although the result stays public.
   */
  lemma {:induction false} StrandedForGood(w: World, es: seq<Event>)
    requires Stranded(w)
    ensures Stranded(Run(w, es)) && Run(w, es).result == w.result
  {
    if es != [] {
      StrandedForGood(w, es[..|es| - 1]);
    }
  }

  /** That crash is reachable: one attempt publishes `v` and dies. */
  lemma {:induction false} StrandedIsReachable(v: ReleaseResult)
    ensures Stranded(Run(Fresh(), [Start(0), Step(0), Step(0), Step(0), Arrive(0, v), Step(0), Crash(0)]))
  {
    var es := [Start(0), Step(0), Step(0), Step(0), Arrive(0, v), Step(0), Crash(0)];
    var w := Fresh();
    assert es[..6][..5] == es[..5] && es[..5][..4] == es[..4] && es[..4][..3] == es[..3] && es[..3][..2] == es[..2] && es[..2][..1] == es[..1] && es[..1][..0] == [];
    assert es[..7] == es;
    var w1 := Move(w, 0, Begin);
    assert Run(w, es[..1]) == w1;
    var w2 := Move(w1, 0, Admitting);
    assert Run(w, es[..2]) == w2;
    var w3 := Move(w2, 0, CreatingAdmission);
    assert Run(w, es[..3]) == w3;
    var w4 := Move(w3.(admitted := true), 0, Working);
    assert Run(w, es[..4]) == w4;
    var w5 := Move(w4, 0, Recording(v));
    assert Run(w, es[..5]) == w5;
    assert Run(w, es[..6]) == Move(w5.(result := Some(v)), 0, Consuming(v));
  }

  // ----- one attempt on its own, as it runs

  /** How the checks and the work of an attempt end: refused before the consumed test, refused after the admission, or a result. */
  datatype Outcome = RefusedEarly | RefusedLate | Found(result: ReleaseResult)

  /** Everything a lone attempt does to the store. */
  function Alone(w: World, outcome: Outcome): (World, Result<ReleaseResult>) {
    if outcome.RefusedEarly? || w.consumed.Some? then (w, Err)
    else
      var admitted := w.(admitted := true);
      if outcome.RefusedLate? || w.result.Some? then (admitted, Err)
      else (admitted.(result := Some(outcome.result), consumed := Some(outcome.result)), Ok(outcome.result))
  }

  function LoneEvents(w: World, who: nat, outcome: Outcome): seq<Event> {
    if outcome.RefusedEarly? then [Start(who), Refuse(who)]
    else if w.consumed.Some? then [Start(who), Step(who)]
    else
      [Start(who), Step(who), Step(who)] + (if w.admitted then [] else [Step(who)])
      + (if outcome.Found? then [Arrive(who, outcome.result), Step(who), Step(who)] else [Refuse(who)])
  }

  lemma {:induction false} RunAppend(w: World, es: seq<Event>, e: Event)
    ensures Run(w, es + [e]) == Apply(Run(w, es), e)
  {
    assert (es + [e])[..|es + [e]| - 1] == es;
  }

  /** Up to the admission. */
  lemma {:induction false} LoneAdmission(w: World, who: nat)
    requires who !in w.attempts && w.consumed.None?
    ensures var es := [Start(who), Step(who), Step(who)] + (if w.admitted then [] else [Step(who)]);
            Run(w, es) == Move(w.(admitted := true), who, Working)
  {
    var start: seq<Event> := [];
    RunAppend(w, start, Start(who));
    assert start + [Start(who)] == [Start(who)];
    RunAppend(w, [Start(who)], Step(who));
    assert [Start(who)] + [Step(who)] == [Start(who), Step(who)];
    RunAppend(w, [Start(who), Step(who)], Step(who));
    assert [Start(who), Step(who)] + [Step(who)] == [Start(who), Step(who), Step(who)];
    assert Run(w, [Start(who), Step(who)]) == Move(w, who, Admitting);
    if w.admitted {
      assert [Start(who), Step(who), Step(who)] + [] == [Start(who), Step(who), Step(who)];
      assert w.(admitted := true) == w;
    } else {
      RunAppend(w, [Start(who), Step(who), Step(who)], Step(who));
    }
  }

  lemma {:induction false} TwoEvents(w: World, e: Event, f: Event)
    ensures Run(w, [e, f]) == Apply(Apply(w, e), f)
  {
    RunAppend(w, [], e);
    RunAppend(w, [e], f);
    assert [] + [e] == [e] && [e] + [f] == [e, f];
  }

  /** A lone attempt is one of the runs: same stored objects, and it returns exactly when the run does. */
  lemma {:induction false} AloneIsARun(w: World, who: nat, outcome: Outcome)
    requires who !in w.attempts
    ensures var w', r := Run(w, LoneEvents(w, who, outcome)), Alone(w, outcome);
            && w'.admitted == r.0.admitted && w'.result == r.0.result && w'.consumed == r.0.consumed
            && w'.attempts == w.attempts[who := if r.1.Ok? then Returned(r.1.value) else Stopped]
  {
    if outcome.RefusedEarly? {
      TwoEvents(w, Start(who), Refuse(who));
    } else if w.consumed.Some? {
      TwoEvents(w, Start(who), Step(who));
    } else {
      AdmittedIsARun(w, who, outcome);
    }
  }

  lemma {:induction false} AdmittedIsARun(w: World, who: nat, outcome: Outcome)
    requires who !in w.attempts && w.consumed.None? && !outcome.RefusedEarly?
    ensures var w', r := Run(w, LoneEvents(w, who, outcome)), Alone(w, outcome);
            && w'.admitted == r.0.admitted && w'.result == r.0.result && w'.consumed == r.0.consumed
            && w'.attempts == w.attempts[who := if r.1.Ok? then Returned(r.1.value) else Stopped]
  {
    var es := [Start(who), Step(who), Step(who)] + (if w.admitted then [] else [Step(who)]);
    LoneAdmission(w, who);
    if outcome.RefusedLate? {
      RunAppend(w, es, Refuse(who));
    } else {
      var v := outcome.result;
      RunAppend(w, es, Arrive(who, v));
      RunAppend(w, es + [Arrive(who, v)], Step(who));
      RunAppend(w, es + [Arrive(who, v)] + [Step(who)], Step(who));
      assert es + [Arrive(who, v), Step(who), Step(who)] == es + [Arrive(who, v)] + [Step(who)] + [Step(who)];
    }
  }

  /**
   In every reachable store, an undisturbed attempt that arrives at a result returns if and only if no result is
   public yet; the consumed mark adds nothing to that, and a stranded result is one more case of it.
   */
  lemma {:induction false} LoneReturnsExactly(es: seq<Event>, outcome: Outcome)
    ensures var w := Run(Fresh(), es);
            && (Alone(w, outcome).1.Ok? <==> outcome.Found? && w.result.None?)
            && (w.result.None? ==> w.consumed.None?)
            && (Alone(w, outcome).1.Ok? ==>
                  Alone(w, outcome) == (w.(admitted := true, result := Some(outcome.result), consumed := Some(outcome.result)), Ok(outcome.result)))
            && (Alone(w, outcome).1.Err? ==> Alone(w, outcome).0.result == w.result && Alone(w, outcome).0.consumed == w.consumed)
  {
    RunKeeps(Fresh(), es);
  }

  // ----- where results come from

  /** The result an attempt carries, if any. */
  function Carried(pc: Pc): Option<ReleaseResult> {
    if pc.Recording? || pc.Consuming? || pc.Returned? then Some(pc.result) else None
  }

  ghost predicate AllGood(good: ReleaseResult -> bool, w: World) {
    && (w.result.Some? ==> good(w.result.value)) && (w.consumed.Some? ==> good(w.consumed.value))
    && forall p :: p in w.attempts && Carried(w.attempts[p]).Some? ==> good(Carried(w.attempts[p]).value)
  }

  /** Whatever holds of every result an attempt arrives at holds of everything stored and returned. */
  lemma {:induction false} ResultsComeFromArrivals(good: ReleaseResult -> bool, es: seq<Event>)
    requires forall k :: 0 <= k < |es| && es[k].Arrive? ==> good(es[k].found)
    ensures AllGood(good, Run(Fresh(), es))
  {
    if es != [] {
      ResultsComeFromArrivals(good, es[..|es| - 1]);
      GoodStep(good, Run(Fresh(), es[..|es| - 1]), es[|es| - 1]);
    }
  }

  lemma {:induction false} GoodStep(good: ReleaseResult -> bool, w: World, e: Event)
    requires AllGood(good, w) && (e.Arrive? ==> good(e.found))
    ensures AllGood(good, Apply(w, e))
  {
  }

  class CoalitionStore {
    var admitted: bool
    var result: Option<ReleaseResult>
    var consumed: Option<ReleaseResult>

    function View(): World
      reads this
    {
      World(admitted, result, consumed, map[])
    }

    constructor ()
      ensures View() == Fresh()
    {
      admitted, result, consumed := false, None, None;
    }

    /** The stores a release attempt makes, in order. */
    method Release(outcome: Outcome) returns (r: Result<ReleaseResult>)
      modifies this
      ensures (View(), r) == Alone(old(View()), outcome)
    {
      if outcome.RefusedEarly? {
        return Err;
      }
      if consumed.Some? {
        return Err;
      }
      if !admitted {
        admitted := true;
      }
      if outcome.RefusedLate? {
        return Err;
      }
      if result.Some? {
        return Err;
      }
      result := Some(outcome.result);
      consumed := Some(outcome.result);
      return Ok(outcome.result);
    }
  }
}
