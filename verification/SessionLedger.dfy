/**
 The durable one-shot ledger of bilateral sessions: three buckets, each call one
 atomic transaction. Digests are integers, zero standing for the all-zero digest.
 */
module SessionLedger {
  import opened Basics

  datatype State = Reserved | Released | Failed

  datatype Pairing = Pairing(session: int, nullifier: int, enrollmentA: int, enrollmentB: int)

  datatype Record = Record(state: State, pairing: Pairing, outputs: int, reservedAt: nat, settledAt: nat)

  const TIME_MODULUS := 0x1_0000_0000_0000_0000

  /** A Unix time as an unsigned 64-bit number. */
  function Stamp(now: int): nat {
    now % TIME_MODULUS
  }

  datatype Ledger = Ledger(sessions: map<int, Record>, nullifiers: map<int, int>, enrollments: map<int, int>)

  const EMPTY := Ledger(map[], map[], map[])

  predicate WellFormed(p: Pairing) {
    p.session != 0 && p.nullifier != 0 && p.enrollmentA != 0 && p.enrollmentB != 0 && p.enrollmentA != p.enrollmentB
  }

  predicate Admissible(l: Ledger, p: Pairing) {
    && WellFormed(p) && p.session !in l.sessions && p.nullifier !in l.nullifiers
    && p.enrollmentA !in l.enrollments && p.enrollmentB !in l.enrollments
  }

  function ReserveIn(l: Ledger, p: Pairing, now: int): Ledger {
    Ledger(l.sessions[p.session := Record(Reserved, p, 0, Stamp(now), 0)],
           l.nullifiers[p.nullifier := p.session],
           l.enrollments[p.enrollmentA := p.session][p.enrollmentB := p.session])
  }

  predicate Settleable(l: Ledger, session: int) {
    session in l.sessions && l.sessions[session].state == Reserved
  }

  function SettleIn(l: Ledger, session: int, to: State, outputs: Option<int>, now: int): Ledger
    requires Settleable(l, session)
  {
    var r := l.sessions[session].(state := to, settledAt := Stamp(now));
    l.(sessions := l.sessions[session := if outputs.Some? then r.(outputs := outputs.value) else r])
  }

  /** The ledger as the object it is: refused calls leave every bucket as it was. */
  class SessionStore {
    var sessions: map<int, Record>
    var nullifiers: map<int, int>
    var enrollments: map<int, int>

    function View(): Ledger
      reads this
    {
      Ledger(sessions, nullifiers, enrollments)
    }

    constructor ()
      ensures View() == EMPTY
    {
      sessions, nullifiers, enrollments := map[], map[], map[];
    }

    method Reserve(p: Pairing, now: int) returns (r: Result<Record>)
      modifies this
      ensures r.Ok? <==> Admissible(old(View()), p)
      ensures View() == Apply(old(View()), ReserveCall(p, now))
      ensures r.Ok? ==> r.value == Record(Reserved, p, 0, Stamp(now), 0) && sessions == old(sessions)[p.session := r.value]
    {
      if p.session == 0 || p.nullifier == 0 || p.enrollmentA == 0 || p.enrollmentB == 0 || p.enrollmentA == p.enrollmentB {
        return Err;
      }
      if p.session in sessions || p.nullifier in nullifiers {
        return Err;
      }
      var digests := [p.enrollmentA, p.enrollmentB];
      for i := 0 to 2
        invariant forall k :: 0 <= k < i ==> digests[k] !in enrollments
      {
        if digests[i] in enrollments {
          return Err;
        }
      }
      nullifiers := nullifiers[p.nullifier := p.session];
      ghost var before := enrollments;
      for i := 0 to 2
        invariant enrollments == if i == 0 then before
                                 else if i == 1 then before[p.enrollmentA := p.session]
                                 else before[p.enrollmentA := p.session][p.enrollmentB := p.session]
        invariant sessions == old(sessions) && nullifiers == old(nullifiers)[p.nullifier := p.session]
      {
        enrollments := enrollments[digests[i] := p.session];
      }
      var record := Record(Reserved, p, 0, Stamp(now), 0);
      sessions := sessions[p.session := record];
      assert digests[0] == p.enrollmentA && digests[1] == p.enrollmentB;
      return Ok(record);
    }

    method Transition(session: int, to: State, outputs: Option<int>, now: int) returns (r: Result<Record>)
      modifies this
      ensures r.Ok? <==> Settleable(old(View()), session)
      ensures View() == Apply(old(View()), SettleCall(session, to, outputs, now))
      ensures r.Ok? ==> session in old(sessions) && sessions == old(sessions)[session := r.value]
      ensures r.Ok? ==>
        var was := old(sessions)[session];
        r.value == Record(to, was.pairing, if outputs.Some? then outputs.value else was.outputs, was.reservedAt, Stamp(now))
    {
      if session !in sessions {
        return Err;
      }
      var record := sessions[session];
      if record.state != Reserved {
        return Err;
      }
      record := record.(state := to, settledAt := Stamp(now));
      if outputs.Some? {
        record := record.(outputs := outputs.value);
      }
      sessions := sessions[session := record];
      return Ok(record);
    }

    method MarkReleased(session: int, outputs: int, now: int) returns (r: Result<Record>)
      modifies this
      ensures r.Ok? <==> Settleable(old(View()), session)
      ensures View() == Apply(old(View()), SettleCall(session, Released, Some(outputs), now))
      ensures r.Ok? ==> session in old(sessions) && sessions == old(sessions)[session := r.value]
      ensures r.Ok? ==> r.value == Record(Released, old(sessions)[session].pairing, outputs, old(sessions)[session].reservedAt, Stamp(now))
    {
      r := Transition(session, Released, Some(outputs), now);
    }

    method MarkFailed(session: int, now: int) returns (r: Result<Record>)
      modifies this
      ensures r.Ok? <==> Settleable(old(View()), session)
      ensures View() == Apply(old(View()), SettleCall(session, Failed, None, now))
      ensures r.Ok? ==> session in old(sessions) && sessions == old(sessions)[session := r.value]
      ensures r.Ok? ==>
        var was := old(sessions)[session]; r.value == Record(Failed, was.pairing, was.outputs, was.reservedAt, Stamp(now))
    {
      r := Transition(session, Failed, None, now);
    }

    method Get(session: int) returns (r: Result<Record>)
      ensures r == if session in sessions then Ok(sessions[session]) else Err
    {
      if session !in sessions {
        return Err;
      }
      return Ok(sessions[session]);
    }
  }

  // ----- every run

  datatype Call =
    | ReserveCall(pairing: Pairing, now: int)
    | SettleCall(session: int, to: State, outputs: Option<int>, now: int)

  /** The two calls settle only to Released or Failed. */
  predicate Legal(c: Call) {
    c.SettleCall? ==> c.to != Reserved
  }

  function Apply(l: Ledger, c: Call): Ledger {
    match c
    case ReserveCall(p, now) => if Admissible(l, p) then ReserveIn(l, p, now) else l
    case SettleCall(s, to, outputs, now) => if Settleable(l, s) then SettleIn(l, s, to, outputs, now) else l
  }

  function Run(l: Ledger, cs: seq<Call>): Ledger {
    if cs == [] then l else Apply(Run(l, cs[..|cs| - 1]), cs[|cs| - 1])
  }

  /** The two indexes are exactly the inverse of the session records. */
  ghost predicate Inv(l: Ledger) {
    && (forall s :: s in l.sessions ==> l.sessions[s].pairing.session == s && WellFormed(l.sessions[s].pairing))
    && (forall n :: n in l.nullifiers ==> Holds(l, l.nullifiers[n]) && l.sessions[l.nullifiers[n]].pairing.nullifier == n)
    && (forall s :: s in l.sessions ==> l.sessions[s].pairing.nullifier in l.nullifiers && l.nullifiers[l.sessions[s].pairing.nullifier] == s)
    && (forall e :: e in l.enrollments ==> Holds(l, l.enrollments[e]) && e in Enrolled(l.sessions[l.enrollments[e]]))
    && (forall s, e :: s in l.sessions && e in Enrolled(l.sessions[s]) ==> e in l.enrollments && l.enrollments[e] == s)
  }

  predicate Holds(l: Ledger, session: int) {
    session in l.sessions
  }

  function Enrolled(r: Record): set<int> {
    {r.pairing.enrollmentA, r.pairing.enrollmentB}
  }

  lemma {:induction false} ReserveKeeps(l: Ledger, p: Pairing, now: int)
    requires Inv(l) && Admissible(l, p)
    ensures Inv(ReserveIn(l, p, now))
  {
    var l' := ReserveIn(l, p, now);
    forall s, e | s in l'.sessions && e in Enrolled(l'.sessions[s])
      ensures e in l'.enrollments && l'.enrollments[e] == s
    {
      if s != p.session {
        assert e in l.enrollments && l.enrollments[e] == s;
      }
    }
    forall e | e in l'.enrollments
      ensures Holds(l', l'.enrollments[e]) && e in Enrolled(l'.sessions[l'.enrollments[e]])
    {
      if e != p.enrollmentA && e != p.enrollmentB {
        assert Holds(l, l.enrollments[e]);
      }
    }
    forall n | n in l'.nullifiers
      ensures Holds(l', l'.nullifiers[n]) && l'.sessions[l'.nullifiers[n]].pairing.nullifier == n
    {
      if n != p.nullifier {
        assert Holds(l, l.nullifiers[n]);
      }
    }
  }

  lemma {:induction false} SettleKeeps(l: Ledger, session: int, to: State, outputs: Option<int>, now: int)
    requires Inv(l) && Settleable(l, session)
    ensures Inv(SettleIn(l, session, to, outputs, now))
  {
    var l' := SettleIn(l, session, to, outputs, now);
    assert l'.sessions.Keys == l.sessions.Keys;
    forall s | s in l'.sessions
      ensures l'.sessions[s].pairing == l.sessions[s].pairing
    {
    }
    SamePairings(l, l');
  }

  lemma {:induction false} SamePairings(l: Ledger, l': Ledger)
    requires Inv(l) && l'.nullifiers == l.nullifiers && l'.enrollments == l.enrollments && l'.sessions.Keys == l.sessions.Keys
    requires forall s :: s in l'.sessions ==> l'.sessions[s].pairing == l.sessions[s].pairing
    ensures Inv(l')
  {
    forall n | n in l'.nullifiers
      ensures Holds(l', l'.nullifiers[n]) && l'.sessions[l'.nullifiers[n]].pairing.nullifier == n
    {
      assert Holds(l, l.nullifiers[n]);
    }
    forall e | e in l'.enrollments
      ensures Holds(l', l'.enrollments[e]) && e in Enrolled(l'.sessions[l'.enrollments[e]])
    {
      assert Holds(l, l.enrollments[e]);
    }
    forall s, e | s in l'.sessions && e in Enrolled(l'.sessions[s])
      ensures e in l'.enrollments && l'.enrollments[e] == s
    {
      assert e in Enrolled(l.sessions[s]);
    }
    forall s | s in l'.sessions
      ensures l'.sessions[s].pairing.nullifier in l'.nullifiers && l'.nullifiers[l'.sessions[s].pairing.nullifier] == s
    {
    }
  }

  lemma {:induction false} RunKeeps(cs: seq<Call>)
    ensures Inv(Run(EMPTY, cs))
  {
    if cs != [] {
      RunKeeps(cs[..|cs| - 1]);
      var l, c := Run(EMPTY, cs[..|cs| - 1]), cs[|cs| - 1];
      match c
      case ReserveCall(p, now) => if Admissible(l, p) { ReserveKeeps(l, p, now); }
      case SettleCall(s, to, outputs, now) => if Settleable(l, s) { SettleKeeps(l, s, to, outputs, now); }
    }
  }

  /** The record shares its session, its nullifier or an enrollment with the pairing. */
  predicate Collides(r: Record, p: Pairing) {
    || r.pairing.session == p.session || r.pairing.nullifier == p.nullifier
    || r.pairing.enrollmentA == p.enrollmentA || r.pairing.enrollmentA == p.enrollmentB
    || r.pairing.enrollmentB == p.enrollmentA || r.pairing.enrollmentB == p.enrollmentB
  }

  /** Exactly when a reachable ledger admits a pairing: its digests are there, its enrollments differ, and no session ever reserved collides with it. */
  lemma {:induction false} AdmittedExactly(cs: seq<Call>, p: Pairing)
    ensures var l := Run(EMPTY, cs);
            Admissible(l, p) <==>
              && p.session != 0 && p.nullifier != 0 && p.enrollmentA != 0 && p.enrollmentB != 0 && p.enrollmentA != p.enrollmentB
              && forall s :: s in l.sessions ==> !Collides(l.sessions[s], p)
  {
    RunKeeps(cs);
    var l := Run(EMPTY, cs);
    if p.session in l.sessions {
      assert Collides(l.sessions[p.session], p);
    }
    if p.nullifier in l.nullifiers {
      assert Holds(l, l.nullifiers[p.nullifier]) && Collides(l.sessions[l.nullifiers[p.nullifier]], p);
    }
    forall e | e in {p.enrollmentA, p.enrollmentB} && e in l.enrollments
      ensures Holds(l, l.enrollments[e]) && Collides(l.sessions[l.enrollments[e]], p)
    {
      assert Holds(l, l.enrollments[e]) && e in Enrolled(l.sessions[l.enrollments[e]]);
    }
    forall s | s in l.sessions && Collides(l.sessions[s], p)
      ensures !Admissible(l, p)
    {
      var r := l.sessions[s];
      assert r.pairing.enrollmentA in Enrolled(r) && r.pairing.enrollmentB in Enrolled(r);
    }
  }

  /** In every reachable ledger no nullifier and no enrollment belongs to two sessions. */
  lemma {:induction false} ConsumedOnce(cs: seq<Call>, s: int, s': int)
    requires var l := Run(EMPTY, cs); s in l.sessions && s' in l.sessions && s != s'
    ensures var l := Run(EMPTY, cs);
            && l.sessions[s].pairing.nullifier != l.sessions[s'].pairing.nullifier
            && Enrolled(l.sessions[s]) !! Enrolled(l.sessions[s'])
  {
    RunKeeps(cs);
    var l := Run(EMPTY, cs);
    forall e | e in Enrolled(l.sessions[s])
      ensures e !in Enrolled(l.sessions[s'])
    {
      assert l.enrollments[e] == s;
    }
  }

  /** What any further legal calls leave of a session: it stays, keeps its pairing, and once settled keeps everything. */
  lemma {:induction false} SettledIsFinal(l: Ledger, cs: seq<Call>, s: int)
    requires s in l.sessions && forall i :: 0 <= i < |cs| ==> Legal(cs[i])
    ensures var l' := Run(l, cs);
            && s in l'.sessions && l'.sessions[s].pairing == l.sessions[s].pairing
            && l'.sessions[s].reservedAt == l.sessions[s].reservedAt
            && (l.sessions[s].state != Reserved ==> l'.sessions[s] == l.sessions[s])
            && (l'.sessions[s].state == Reserved ==> l'.sessions[s] == l.sessions[s])
  {
    if cs != [] {
      SettledIsFinal(l, cs[..|cs| - 1], s);
      assert Legal(cs[|cs| - 1]);
    }
  }

  /** Once reserved, a session is never admitted again, nor is any pairing that shares its nullifier or an enrollment. */
  lemma {:induction false} NeverAgain(cs: seq<Call>, more: seq<Call>, s: int, p: Pairing)
    requires s in Run(EMPTY, cs).sessions && forall i :: 0 <= i < |more| ==> Legal(more[i])
    requires var q := Run(EMPTY, cs).sessions[s].pairing;
             p.session == s || p.nullifier == q.nullifier || p.enrollmentA in {q.enrollmentA, q.enrollmentB} || p.enrollmentB in {q.enrollmentA, q.enrollmentB}
    ensures !Admissible(Run(EMPTY, cs + more), p)
  {
    RunConcat(EMPTY, cs, more);
    SettledIsFinal(Run(EMPTY, cs), more, s);
    RunKeeps(cs + more);
    var l := Run(EMPTY, cs + more);
    assert l.sessions[s].pairing == Run(EMPTY, cs).sessions[s].pairing;
    var r := l.sessions[s];
    assert r.pairing.enrollmentA in Enrolled(r) && r.pairing.enrollmentB in Enrolled(r);
    assert r.pairing.enrollmentA in l.enrollments && r.pairing.enrollmentB in l.enrollments;
  }

  lemma {:induction false} RunConcat(l: Ledger, cs: seq<Call>, more: seq<Call>)
    ensures Run(l, cs + more) == Run(Run(l, cs), more)
  {
    if more == [] {
      assert cs + more == cs;
    } else {
      var n := |more| - 1;
      RunConcat(l, cs, more[..n]);
      assert (cs + more)[..|cs + more| - 1] == cs + more[..n];
    }
  }
}
