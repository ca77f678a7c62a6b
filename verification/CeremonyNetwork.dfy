/**
 Operators and aggregator on one network. The aggregator is sent whatever the network likes, in any order and any
 number of times, except that a public-key share reaches it only as its operator emitted it. However such a ceremony
 is scheduled, the secret that coalitions reconstruct is the one the collective public key belongs to.
 */
module CeremonyNetwork {
  import opened Basics
  import opened SecretSharing
  import opened Ceremony
  import opened CeremonyShares
  import opened CeremonyDriver

  /** `wires` holds the public-key shares emitted so far, each with the point of its operator. */
  datatype Grid = Grid(net: Net, aggregator: Aggregator, wires: set<(int, int)>)

  datatype Happening = AtOperator(event: Event) | AtAggregator(delivery: Delivery)

  /** The public-key share an event emits. */
  function Emission(x: Scheme, n: Net, e: Event): Option<(int, int)> {
    if e.who < |n.ops| && e.call.CallPublicKey? && PublicKeyShare(x, n.ops[e.who]).Some?
    then Some((n.ops[e.who].me.point, PublicKeyShare(x, n.ops[e.who]).value.1)) else None
  }

  function Occur(x: Scheme, g: Grid, h: Happening): Grid
    requires ValidScheme(x)
  {
    match h
    case AtOperator(e) =>
      var out := Emission(x, g.net, e);
      g.(net := Apply(x, g.net, e), wires := if out.Some? then g.wires + {out.value} else g.wires)
    case AtAggregator(d) =>
      if d.DeliverPublicKey? && (d.point, d.wire) !in g.wires then g else g.(aggregator := Gather(x, g.aggregator, d))
  }

  function History(x: Scheme, g: Grid, hs: seq<Happening>): Grid
    requires ValidScheme(x)
  {
    if hs == [] then g else Occur(x, History(x, g, hs[..|hs| - 1]), hs[|hs| - 1])
  }

  function Begin(r: Roster, ms: seq<Member>): Grid {
    Grid(Start(ms), NewAggregator(r), {})
  }

  /** What the operators alone saw of a history. */
  function OperatorEvents(hs: seq<Happening>): seq<Event> {
    if hs == [] then []
    else OperatorEvents(hs[..|hs| - 1]) + (if hs[|hs| - 1].AtOperator? then [hs[|hs| - 1].event] else [])
  }

  // ----- invariant

  /** The public-key share of operator `o`, from its own secret and its own contributions. */
  function OwnWire(x: Scheme, r: Roster, o: Operator): int {
    -x.draw(Seed(r, o.contributions), 0) * o.me.secret
  }

  /** The shares of those of the first `n` operators whose points were seen. */
  function WireSum(x: Scheme, r: Roster, ops: seq<Operator>, seen: set<int>, n: nat): int
    requires n <= |ops|
  {
    if n == 0 then 0
    else WireSum(x, r, ops, seen, n - 1) + (if ops[n - 1].me.point in seen then OwnWire(x, r, ops[n - 1]) else 0)
  }

  /** Operator `i` emitted its public-key share, so its contributions are fixed. */
  ghost predicate Emitted(ops: seq<Operator>, p: int) {
    exists i :: 0 <= i < |ops| && ops[i].me.point == p && Rank(ops[i].round) >= 3
  }

  /** `w` is the share of operator `i`, which has emitted it. */
  ghost predicate WireOf(x: Scheme, r: Roster, ops: seq<Operator>, w: (int, int), i: int) {
    0 <= i < |ops| && ops[i].me.point == w.0 && Rank(ops[i].round) >= 3 && w.1 == OwnWire(x, r, ops[i])
  }

  ghost predicate WiresInv(x: Scheme, r: Roster, ops: seq<Operator>, wires: set<(int, int)>) {
    forall w :: w in wires ==> exists i :: WireOf(x, r, ops, w, i)
  }

  ghost predicate SumInv(x: Scheme, r: Roster, ops: seq<Operator>, a: Aggregator) {
    && a.publicShares.seen <= PointSet(r)
    && (forall p :: p in a.publicShares.seen ==> Emitted(ops, p))
    && a.publicShares.sum == WireSum(x, r, ops, a.publicShares.seen, |ops|)
    && (a.publicKey.Some? ==> a.publicKey.value.0 == a.publicShares.sum && |a.publicShares.seen| == |r.operators|)
    && (a.stage.Contributing? ==> a.publicShares == NONE_YET)
  }

  ghost predicate GridInv(x: Scheme, r: Roster, ms: seq<Member>, g: Grid) {
    && NetInv(r, ms, g.net) && WiresInv(x, r, g.net.ops, g.wires)
    && AggregatorInv(x, g.aggregator) && g.aggregator.roster == r && SumInv(x, r, g.net.ops, g.aggregator)
  }

  lemma {:induction false} WireSumEmpty(x: Scheme, r: Roster, ops: seq<Operator>, n: nat)
    requires n <= |ops|
    ensures WireSum(x, r, ops, {}, n) == 0
  {
    if n > 0 {
      WireSumEmpty(x, r, ops, n - 1);
    }
  }

  lemma {:induction false} WireSumSame(x: Scheme, r: Roster, ops: seq<Operator>, ops': seq<Operator>, seen: set<int>, n: nat)
    requires n <= |ops| == |ops'|
    requires forall i :: 0 <= i < |ops| ==> ops'[i].me == ops[i].me && (ops[i].me.point in seen ==> ops'[i].contributions == ops[i].contributions)
    ensures WireSum(x, r, ops', seen, n) == WireSum(x, r, ops, seen, n)
  {
    if n > 0 {
      WireSumSame(x, r, ops, ops', seen, n - 1);
    }
  }

  lemma {:induction false} WireSumInsert(x: Scheme, r: Roster, ms: seq<Member>, ops: seq<Operator>, seen: set<int>, i: nat, n: nat)
    requires Members(r, ms) && |ops| == |ms| && (forall k :: 0 <= k < |ms| ==> ops[k].me == ms[k])
    requires i < |ops| && n <= |ops| && ops[i].me.point !in seen
    ensures WireSum(x, r, ops, seen + {ops[i].me.point}, n) == WireSum(x, r, ops, seen, n) + (if i < n then OwnWire(x, r, ops[i]) else 0)
  {
    if n > 0 {
      WireSumInsert(x, r, ms, ops, seen, i, n - 1);
      assert n - 1 != i ==> ms[n - 1].point != ms[i].point by {
        assert ms[n - 1].point == r.operators[n - 1].point && ms[i].point == r.operators[i].point;
      }
    }
  }

  // ----- an operator moves

  /** How any event moves any operator: forward, with contributions fixed once sealed. */
  lemma {:induction false} OperatorsMove(x: Scheme, r: Roster, ms: seq<Member>, n: Net, e: Event, i: nat)
    requires ValidScheme(x) && Members(r, ms) && NetInv(r, ms, n) && i < |ms|
    ensures |Apply(x, n, e).ops| == |ms|
    ensures var o, o' := n.ops[i], Apply(x, n, e).ops[i];
            o'.me == o.me && Rank(o.round) <= Rank(o'.round) && (Rank(o.round) >= 1 ==> o'.contributions == o.contributions)
  {
    assert ShareInv(r, ms, n.ops[i]);
    if e.who == i {
      HandleKeeps(x, n.ops[i], Signed(n, e.call));
    }
  }

  lemma {:induction false} SumKeeps(x: Scheme, r: Roster, ms: seq<Member>, n: Net, e: Event, a: Aggregator)
    requires ValidScheme(x) && Members(r, ms) && NetInv(r, ms, n) && SumInv(x, r, n.ops, a)
    ensures SumInv(x, r, Apply(x, n, e).ops, a)
  {
    var ops, ops' := n.ops, Apply(x, n, e).ops;
    OperatorsMove(x, r, ms, n, e, 0);
    forall i | 0 <= i < |ops|
      ensures ops'[i].me == ops[i].me && (ops[i].me.point in a.publicShares.seen ==> ops'[i].contributions == ops[i].contributions)
    {
      OperatorsMove(x, r, ms, n, e, i);
      if ops[i].me.point in a.publicShares.seen {
        assert Emitted(ops, ops[i].me.point);
        var k :| 0 <= k < |ops| && ops[k].me.point == ops[i].me.point && Rank(ops[k].round) >= 3;
        SamePoint(r, ms, i, k);
      }
    }
    WireSumSame(x, r, ops, ops', a.publicShares.seen, |ops|);
    forall p | p in a.publicShares.seen
      ensures Emitted(ops', p)
    {
      var k :| 0 <= k < |ops| && ops[k].me.point == p && Rank(ops[k].round) >= 3;
      OperatorsMove(x, r, ms, n, e, k);
    }
  }

  lemma {:induction false} SamePoint(r: Roster, ms: seq<Member>, i: nat, k: nat)
    requires Members(r, ms) && i < |ms| && k < |ms| && ms[i].point == ms[k].point
    ensures i == k
  {
    assert ms[i].point == r.operators[i].point && ms[k].point == r.operators[k].point;
  }

  lemma {:induction false} WireKeeps(x: Scheme, r: Roster, ms: seq<Member>, n: Net, e: Event, w: (int, int), i: nat)
    requires ValidScheme(x) && Members(r, ms) && NetInv(r, ms, n) && WireOf(x, r, n.ops, w, i)
    ensures WireOf(x, r, Apply(x, n, e).ops, w, i)
  {
    OperatorsMove(x, r, ms, n, e, i);
  }

  lemma {:induction false} WiresKeep(x: Scheme, r: Roster, ms: seq<Member>, g: Grid, e: Event)
    requires ValidScheme(x) && Members(r, ms) && NetInv(r, ms, g.net) && WiresInv(x, r, g.net.ops, g.wires)
    ensures WiresInv(x, r, Apply(x, g.net, e).ops, Occur(x, g, AtOperator(e)).wires)
  {
    var ops' := Apply(x, g.net, e).ops;
    forall w | w in Occur(x, g, AtOperator(e)).wires
      ensures exists i :: WireOf(x, r, ops', w, i)
    {
      if w in g.wires {
        var i :| WireOf(x, r, g.net.ops, w, i);
        WireKeeps(x, r, ms, g.net, e, w, i);
      } else {
        EmissionIsOwn(x, r, ms, g.net, e);
      }
    }
  }

  lemma {:induction false} EmissionIsOwn(x: Scheme, r: Roster, ms: seq<Member>, n: Net, e: Event)
    requires ValidScheme(x) && Members(r, ms) && NetInv(r, ms, n) && Emission(x, n, e).Some?
    ensures WireOf(x, r, Apply(x, n, e).ops, Emission(x, n, e).value, e.who)
  {
    var o := n.ops[e.who];
    assert ShareInv(r, ms, o) && o.me == ms[e.who] && ms[e.who].roster == r;
  }

  // ----- the aggregator moves

  /** Anything but a public-key share leaves the gathered public-key shares and a finished key alone. */
  lemma {:induction false} OtherDelivery(x: Scheme, r: Roster, ops: seq<Operator>, a: Aggregator, d: Delivery)
    requires ValidScheme(x) && AggregatorInv(x, a) && a.roster == r && SumInv(x, r, ops, a) && !d.DeliverPublicKey?
    ensures SumInv(x, r, ops, Gather(x, a, d)) && Gather(x, a, d).roster == r
  {
  }

  /** One more operator's share joins the sum. */
  lemma {:induction false} JoinSum(x: Scheme, r: Roster, ms: seq<Member>, ops: seq<Operator>, a: Aggregator, i: nat)
    requires Members(r, ms) && Lined(ms, ops) && i < |ms|
    requires SumInv(x, r, ops, a) && a.publicKey.None? && !a.stage.Contributing?
    requires ops[i].me.point !in a.publicShares.seen && Rank(ops[i].round) >= 3
    ensures SumInv(x, r, ops, a.(publicShares := Gathered(a.publicShares.seen + {ops[i].me.point}, a.publicShares.sum + OwnWire(x, r, ops[i]))))
  {
    WireSumInsert(x, r, ms, ops, a.publicShares.seen, i, |ops|);
    assert ms[i].point == r.operators[i].point;
    assert ms[i].point in PointSet(r);
    assert Emitted(ops, ops[i].me.point);
  }

  /** The operators are the members, in order. */
  ghost predicate Lined(ms: seq<Member>, ops: seq<Operator>) {
    |ops| == |ms| && forall k :: 0 <= k < |ms| ==> ops[k].me == ms[k]
  }

  lemma {:induction false} PublicDelivery(x: Scheme, r: Roster, ms: seq<Member>, ops: seq<Operator>, a: Aggregator, point: int, wire: int, i: nat)
    requires Members(r, ms) && Lined(ms, ops) && AggregatorInv(x, a) && a.roster == r && SumInv(x, r, ops, a) && WireOf(x, r, ops, (point, wire), i)
    requires AcceptPublicKeyShare(x, a, point, wire).Some?
    ensures SumInv(x, r, ops, AcceptPublicKeyShare(x, a, point, wire).value)
    ensures AcceptPublicKeyShare(x, a, point, wire).value.roster == r
  {
    var a1 := a.(publicShares := Gathered(a.publicShares.seen + {point}, a.publicShares.sum + wire));
    JoinSum(x, r, ms, ops, a, i);
    AcceptedShare(x, a, point, wire);
    FinishSum(x, r, ops, a1);
  }

  lemma {:induction false} AcceptedShare(x: Scheme, a: Aggregator, point: int, wire: int)
    requires AcceptPublicKeyShare(x, a, point, wire).Some?
    ensures var a1 := a.(publicShares := Gathered(a.publicShares.seen + {point}, a.publicShares.sum + wire));
            a1.stream.Some? && AcceptPublicKeyShare(x, a, point, wire).value
                            == if |a1.publicShares.seen| != |a.roster.operators| then a1 else StartRelinearization(x, a1)
  {
  }

  lemma {:induction false} FinishSum(x: Scheme, r: Roster, ops: seq<Operator>, a: Aggregator)
    requires SumInv(x, r, ops, a) && a.stream.Some?
    ensures |a.publicShares.seen| == |r.operators| ==> SumInv(x, r, ops, StartRelinearization(x, a))
  {
  }

  lemma {:induction false} DeliveredWire(x: Scheme, r: Roster, ms: seq<Member>, g: Grid, point: int, wire: int)
    requires ValidScheme(x) && Members(r, ms) && GridInv(x, r, ms, g) && (point, wire) in g.wires
    ensures var a := AcceptPublicKeyShare(x, g.aggregator, point, wire);
            a.Some? ==> SumInv(x, r, g.net.ops, a.value) && a.value.roster == r
  {
    var i :| WireOf(x, r, g.net.ops, (point, wire), i);
    if AcceptPublicKeyShare(x, g.aggregator, point, wire).Some? {
      PublicDelivery(x, r, ms, g.net.ops, g.aggregator, point, wire, i);
    }
  }

  lemma {:induction false} OccurKeeps(x: Scheme, r: Roster, ms: seq<Member>, g: Grid, h: Happening)
    requires ValidScheme(x) && Members(r, ms) && GridInv(x, r, ms, g)
    ensures GridInv(x, r, ms, Occur(x, g, h))
  {
    match h
    case AtOperator(e) =>
      ApplyKeeps(x, r, ms, g.net, e);
      WiresKeep(x, r, ms, g, e);
      SumKeeps(x, r, ms, g.net, e, g.aggregator);
    case AtAggregator(d) =>
      if !d.DeliverPublicKey? {
        OtherDelivery(x, r, g.net.ops, g.aggregator, d);
        GatherKeeps(x, g.aggregator, d);
      } else if (d.point, d.wire) in g.wires {
        GatherKeeps(x, g.aggregator, d);
        DeliveredWire(x, r, ms, g, d.point, d.wire);
      }
  }

  lemma {:induction false} HistoryKeeps(x: Scheme, r: Roster, ms: seq<Member>, hs: seq<Happening>)
    requires ValidScheme(x) && Members(r, ms)
    ensures GridInv(x, r, ms, History(x, Begin(r, ms), hs))
  {
    if hs == [] {
      CeremonyShares.RunKeeps(x, r, ms, []);
      WireSumEmpty(x, r, Start(ms).ops, |ms|);
    } else {
      HistoryKeeps(x, r, ms, hs[..|hs| - 1]);
      OccurKeeps(x, r, ms, History(x, Begin(r, ms), hs[..|hs| - 1]), hs[|hs| - 1]);
    }
  }

  /** The operators of a history are a run of the operators alone. */
  lemma {:induction false} OperatorsRun(x: Scheme, r: Roster, ms: seq<Member>, hs: seq<Happening>)
    requires ValidScheme(x)
    ensures History(x, Begin(r, ms), hs).net == Run(x, Start(ms), OperatorEvents(hs))
  {
    if hs != [] {
      var before, last := hs[..|hs| - 1], hs[|hs| - 1];
      OperatorsRun(x, r, ms, before);
      if last.AtOperator? {
        var es := OperatorEvents(before);
        assert (es + [last.event])[..|es + [last.event]| - 1] == es;
      } else {
        assert OperatorEvents(before) + [] == OperatorEvents(before);
      }
    }
  }

  // ----- the key

  lemma {:induction false} WireSumValue(x: Scheme, r: Roster, ms: seq<Member>, ops: seq<Operator>, contributions: map<int, int>, n: nat)
    requires Members(r, ms) && |ops| == |ms| && n <= |ms|
    requires forall i :: 0 <= i < |ms| ==> ops[i].me == ms[i] && ops[i].contributions == contributions
    ensures WireSum(x, r, ops, PointSet(r), n) == -x.draw(Seed(r, contributions), 0) * SecretSum(ms, n)
  {
    if n > 0 {
      WireSumValue(x, r, ms, ops, contributions, n - 1);
      assert ms[n - 1].point == r.operators[n - 1].point;
      assert ms[n - 1].point in PointSet(r);
      var a, s, t := x.draw(Seed(r, contributions), 0), SecretSum(ms, n - 1), ms[n - 1].secret;
      assert -a * (s + t) == -a * s + -a * t;
    }
  }

  /**
   In every history: once the aggregator has finished the public key and holds the same contributions as every
   operator, the key belongs to the sum of all members' secrets.
   */
  lemma {:induction false} NetworkKeyIsTheSum(x: Scheme, r: Roster, ms: seq<Member>, hs: seq<Happening>)
    requires ValidScheme(x) && Members(r, ms)
    requires var g := History(x, Begin(r, ms), hs);
             g.aggregator.publicKey.Some? && forall i :: 0 <= i < |g.net.ops| ==> g.net.ops[i].contributions == g.aggregator.contributions
    ensures var key := History(x, Begin(r, ms), hs).aggregator.publicKey.value;
            key.0 + SecretSum(ms, |ms|) * key.1 == 0
  {
    HistoryKeeps(x, r, ms, hs);
    var g := History(x, Begin(r, ms), hs);
    KeyOfShares(x, r, ms, g.net.ops, g.aggregator);
  }

  lemma {:induction false} KeyOfShares(x: Scheme, r: Roster, ms: seq<Member>, ops: seq<Operator>, a: Aggregator)
    requires Members(r, ms) && Lined(ms, ops) && AggregatorInv(x, a) && a.roster == r && a.publicKey.Some?
    requires a.publicShares.seen <= PointSet(r) && |a.publicShares.seen| == |r.operators|
    requires a.publicKey.value.0 == WireSum(x, r, ops, a.publicShares.seen, |ops|)
    requires forall i :: 0 <= i < |ops| ==> ops[i].contributions == a.contributions
    ensures a.publicKey.value.0 + SecretSum(ms, |ms|) * a.publicKey.value.1 == 0
  {
    var s, d := SecretSum(ms, |ms|), x.draw(Seed(r, a.contributions), 0);
    AllReceived(r, a.publicShares.seen);
    WireSumValue(x, r, ms, ops, a.contributions, |ms|);
    Cancels(d, s);
  }

  lemma {:induction false} Cancels(d: int, s: int)
    ensures -d * s + s * d == 0
  {
  }

  /** So what any coalition with distinct nonzero points reconstructs, in any such history, opens the collective public key. */
  lemma {:induction false} NetworkCoalitionOpensKey(x: Scheme, r: Roster, ms: seq<Member>, hs: seq<Happening>, q: int, coalition: seq<nat>)
    requires ValidScheme(x) && Members(r, ms) && Prime(q) && r.threshold <= |coalition|
    requires forall i :: 0 <= i < |coalition| ==> coalition[i] < |ms|
    requires Points(q, CoalitionPoints(ms, coalition))
    requires var g := History(x, Begin(r, ms), hs);
             && |g.net.ops| == |ms| && (forall i :: 0 <= i < |coalition| ==> Rank(g.net.ops[coalition[i]].round) >= 2)
             && g.aggregator.publicKey.Some? && forall i :: 0 <= i < |ms| ==> g.net.ops[i].contributions == g.aggregator.contributions
    ensures var g := History(x, Begin(r, ms), hs);
            var shares := seq(|coalition|, i requires 0 <= i < |coalition| => g.net.ops[coalition[i]].share);
            var key := g.aggregator.publicKey.value;
            Cong(q, key.0 + Combined(q, CoalitionPoints(ms, coalition), shares, 0) * key.1, 0)
  {
    var g := History(x, Begin(r, ms), hs);
    var shares := seq(|coalition|, i requires 0 <= i < |coalition| => g.net.ops[coalition[i]].share);
    OperatorsRun(x, r, ms, hs);
    NetworkKeyIsTheSum(x, r, ms, hs);
    CoalitionReconstructs(x, r, ms, OperatorEvents(hs), q, coalition);
    CongOpens(q, g.aggregator.publicKey.value, SecretSum(ms, |ms|), Combined(q, CoalitionPoints(ms, coalition), shares, 0));
  }
}
