/**
 The stages of the co-located ceremony driver, as it performs them: every operator
 in turn, each message handed on at once. A stage is described by where every
 operator stands before and after and by what each one emits; given that each of
 those single steps is accepted, the whole stage is, and nothing else moves.
 */
module CeremonyStages {
  import opened Basics
  import opened Ceremony
  import opened CeremonyForms
  import opened CeremonyNodes

  ghost predicate Distinct(nodes: seq<OperatorNode>) {
    forall i, j :: 0 <= i < j < |nodes| ==> nodes[i] != nodes[j]
  }

  /** Operator `t` is in state `ops[t]`. */
  ghost predicate Stand(nodes: seq<OperatorNode>, ops: seq<Operator>)
    reads nodes
  {
    |nodes| == |ops| && forall t :: 0 <= t < |ops| ==> nodes[t].View() == ops[t]
  }

  /** The first `k` operators are in `after`, the others still in `before`. */
  ghost predicate Midway(nodes: seq<OperatorNode>, before: seq<Operator>, after: seq<Operator>, k: nat)
    reads nodes
  {
    && |nodes| == |before| == |after|
    && (forall t :: 0 <= t < k <= |nodes| ==> nodes[t].View() == after[t])
    && (forall t :: k <= t < |nodes| ==> nodes[t].View() == before[t])
  }

  method SealStreams(nodes: seq<OperatorNode>, ghost before: seq<Operator>, ghost after: seq<Operator>)
    requires Distinct(nodes) && Stand(nodes, before) && |after| == |before|
    requires forall t :: 0 <= t < |before| ==> OperatorSealCrs(before[t]) == Some(after[t])
    modifies nodes
    ensures Stand(nodes, after)
  {
    for i := 0 to |nodes|
      invariant Midway(nodes, before, after, i)
    {
      var accepted := nodes[i].SealCrs();
      assert accepted;
    }
  }

  method SealShares(nodes: seq<OperatorNode>, ghost before: seq<Operator>, ghost after: seq<Operator>)
    requires Distinct(nodes) && Stand(nodes, before) && |after| == |before|
    requires forall t :: 0 <= t < |before| ==> SealThresholdShare(before[t]) == Some(after[t])
    modifies nodes
    ensures Stand(nodes, after)
  {
    for i := 0 to |nodes|
      invariant Midway(nodes, before, after, i)
    {
      var accepted := nodes[i].SealShare();
      assert accepted;
    }
  }

  /** Hands one contribution to every operator, until one refuses it: the first does exactly when it is zero. */
  method Spread(nodes: seq<OperatorNode>, point: int, value: int, ghost before: seq<Operator>, ghost after: seq<Operator>)
    returns (ok: bool)
    requires Distinct(nodes) && Stand(nodes, before) && |after| == |before| > 0
    requires value != 0 ==> forall t :: 0 <= t < |before| ==> OperatorAcceptContribution(before[t], point, value) == Some(after[t])
    modifies nodes
    ensures ok <==> value != 0
    ensures ok ==> Stand(nodes, after)
  {
    for i := 0 to |nodes|
      invariant i > 0 ==> value != 0
      invariant Midway(nodes, before, after, i)
    {
      ok := nodes[i].AcceptCrsContribution(point, value);
      if !ok {
        return false;
      }
    }
    return true;
  }

  /** Source `i` sends target `j` its share, and the target accepts it; they may be the same operator. */
  ghost predicate Exchanges(ops: seq<Operator>, next: seq<Operator>, i: nat, j: nat)
    requires i < |ops| && j < |ops|
  {
    var out := PrivateShareFor(ops[i], ops[j].me.point);
    out.Some? &&
      var accepted := AcceptPrivateShare(ops[i := out.value.0][j], out.value.1, true);
      accepted.Some? && next == ops[i := out.value.0][j := accepted.value]
  }

  method Exchange(nodes: seq<OperatorNode>, i: nat, j: nat, ghost ops: seq<Operator>, ghost next: seq<Operator>)
    requires Distinct(nodes) && Stand(nodes, ops) && i < |ops| && j < |ops| && Exchanges(ops, next, i, j)
    modifies nodes
    ensures Stand(nodes, next)
  {
    assert nodes[j].View() == ops[j];
    var share := nodes[i].SharePrivately(nodes[j].me.point);
    assert share.Ok? && Stand(nodes, ops[i := PrivateShareFor(ops[i], ops[j].me.point).value.0]);
    var accepted := nodes[j].AcceptShare(share.value, true);
    assert accepted;
  }

  /** Source `i` sends every target its share, one after the other: `ops` becomes `next` through `lines`. */
  ghost predicate Relays(ops: seq<Operator>, next: seq<Operator>, i: nat, lines: seq<seq<Operator>>) {
    && i < |ops| && |lines| == |ops| + 1 && lines[0] == ops && lines[|ops|] == next
    && (forall j :: 0 <= j <= |ops| ==> |lines[j]| == |ops|)
    && forall j :: 0 <= j < |ops| ==> Exchanges(lines[j], lines[j + 1], i, j)
  }

  ghost predicate Relayed(ops: seq<Operator>, next: seq<Operator>, i: nat) {
    exists lines :: Relays(ops, next, i, lines)
  }

  method SendToAll(nodes: seq<OperatorNode>, i: nat, ghost ops: seq<Operator>, ghost next: seq<Operator>)
    requires Distinct(nodes) && Stand(nodes, ops) && Relayed(ops, next, i)
    modifies nodes
    ensures Stand(nodes, next)
  {
    ghost var lines :| Relays(ops, next, i, lines);
    for j := 0 to |nodes|
      invariant Stand(nodes, lines[j])
    {
      Exchange(nodes, i, j, lines[j], lines[j + 1]);
    }
  }

  method PrivateStage(nodes: seq<OperatorNode>, ghost turns: seq<seq<Operator>>)
    requires Distinct(nodes) && |turns| == |nodes| + 1 && Stand(nodes, turns[0])
    requires forall i :: 0 <= i < |nodes| ==> Relayed(turns[i], turns[i + 1], i)
    modifies nodes
    ensures Stand(nodes, turns[|nodes|])
  {
    for i := 0 to |nodes|
      invariant Stand(nodes, turns[i])
    {
      SendToAll(nodes, i, turns[i], turns[i + 1]);
    }
  }

  /** One operator's public-key share goes to the aggregator. */
  method PassPublicKey(x: Scheme, node: OperatorNode, g: AggregatorNode,
                 ghost o: Operator, ghost o': Operator, ghost wire: int, ghost s: Aggregator, ghost s': Aggregator)
    requires node.View() == o && g.View() == s
    requires PublicKeyShare(x, o) == Some((o', wire)) && AcceptPublicKeyShare(x, s, o.me.point, wire) == Some(s')
    modifies node, g
    ensures node.View() == o' && g.View() == s'
  {
    var message := node.EmitPublicKeyShare(x);
    assert message == Ok(wire) && g.View() == s;
    var accepted := g.AcceptPublicKey(x, node.me.point, message.value);
    assert accepted;
  }

  method DeliverPublicKey(x: Scheme, nodes: seq<OperatorNode>, i: nat, g: AggregatorNode,
                 ghost before: seq<Operator>, ghost after: seq<Operator>, ghost wire: int, ghost s: Aggregator, ghost s': Aggregator)
    requires Distinct(nodes) && Midway(nodes, before, after, i) && i < |nodes| && g.View() == s
    requires PublicKeyShare(x, before[i]) == Some((after[i], wire)) && AcceptPublicKeyShare(x, s, before[i].me.point, wire) == Some(s')
    modifies nodes, g
    ensures Midway(nodes, before, after, i + 1) && g.View() == s'
  {
    PassPublicKey(x, nodes[i], g, before[i], after[i], wire, s, s');
  }

  method PublicKeyStage(x: Scheme, nodes: seq<OperatorNode>, g: AggregatorNode,
                     ghost before: seq<Operator>, ghost after: seq<Operator>, ghost wires: seq<int>, ghost stages: seq<Aggregator>)
    requires Distinct(nodes) && Stand(nodes, before) && |after| == |wires| == |before| == |stages| - 1 && g.View() == stages[0]
    requires forall t :: 0 <= t < |before| ==> PublicKeyShare(x, before[t]) == Some((after[t], wires[t]))
    requires forall t :: 0 <= t < |before| ==> before[t].me.point == t + 1
    requires forall t :: 0 <= t < |before| ==> AcceptPublicKeyShare(x, stages[t], t + 1, wires[t]) == Some(stages[t + 1])
    modifies nodes, g
    ensures Stand(nodes, after) && g.View() == stages[|before|]
  {
    for i := 0 to |nodes|
      invariant Midway(nodes, before, after, i) && g.View() == stages[i]
    {
      DeliverPublicKey(x, nodes, i, g, before, after, wires[i], stages[i], stages[i + 1]);
    }
  }

  /** One operator's first relinearization share goes to the aggregator. */
  method PassRelinOne(x: Scheme, node: OperatorNode, g: AggregatorNode,
                 ghost o: Operator, ghost o': Operator, ghost wire: (int, int), ghost s: Aggregator, ghost s': Aggregator)
    requires node.View() == o && g.View() == s
    requires RelinShareOne(x, o) == Some((o', wire)) && AcceptRelinOne(s, o.me.point, wire) == Some(s')
    modifies node, g
    ensures node.View() == o' && g.View() == s'
  {
    var message := node.EmitRelinOne(x);
    assert message == Ok(wire) && g.View() == s;
    var accepted := g.AcceptRelinShareOne(node.me.point, message.value);
    assert accepted;
  }

  method DeliverRelinOne(x: Scheme, nodes: seq<OperatorNode>, i: nat, g: AggregatorNode,
                 ghost before: seq<Operator>, ghost after: seq<Operator>, ghost wire: (int, int), ghost s: Aggregator, ghost s': Aggregator)
    requires Distinct(nodes) && Midway(nodes, before, after, i) && i < |nodes| && g.View() == s
    requires RelinShareOne(x, before[i]) == Some((after[i], wire)) && AcceptRelinOne(s, before[i].me.point, wire) == Some(s')
    modifies nodes, g
    ensures Midway(nodes, before, after, i + 1) && g.View() == s'
  {
    PassRelinOne(x, nodes[i], g, before[i], after[i], wire, s, s');
  }

  method RelinOneStage(x: Scheme, nodes: seq<OperatorNode>, g: AggregatorNode,
                     ghost before: seq<Operator>, ghost after: seq<Operator>, ghost wires: seq<(int, int)>, ghost stages: seq<Aggregator>)
    requires Distinct(nodes) && Stand(nodes, before) && |after| == |wires| == |before| == |stages| - 1 && g.View() == stages[0]
    requires forall t :: 0 <= t < |before| ==> RelinShareOne(x, before[t]) == Some((after[t], wires[t]))
    requires forall t :: 0 <= t < |before| ==> before[t].me.point == t + 1
    requires forall t :: 0 <= t < |before| ==> AcceptRelinOne(stages[t], t + 1, wires[t]) == Some(stages[t + 1])
    modifies nodes, g
    ensures Stand(nodes, after) && g.View() == stages[|before|]
  {
    for i := 0 to |nodes|
      invariant Midway(nodes, before, after, i) && g.View() == stages[i]
    {
      DeliverRelinOne(x, nodes, i, g, before, after, wires[i], stages[i], stages[i + 1]);
    }
  }

  /** One operator's second relinearization share goes to the aggregator. */
  method PassRelinTwo(x: Scheme, node: OperatorNode, g: AggregatorNode, combined: (int, int),
                 ghost o: Operator, ghost o': Operator, ghost wire: (int, int), ghost s: Aggregator, ghost s': Aggregator)
    requires node.View() == o && g.View() == s
    requires RelinShareTwo(o, combined) == Some((o', wire)) && AcceptRelinTwo(x, s, o.me.point, wire) == Some(s')
    modifies node, g
    ensures node.View() == o' && g.View() == s'
  {
    var message := node.EmitRelinTwo(combined);
    assert message == Ok(wire) && g.View() == s;
    var accepted := g.AcceptRelinShareTwo(x, node.me.point, message.value);
    assert accepted;
  }

  method DeliverRelinTwo(x: Scheme, nodes: seq<OperatorNode>, i: nat, g: AggregatorNode, combined: (int, int),
                 ghost before: seq<Operator>, ghost after: seq<Operator>, ghost wire: (int, int), ghost s: Aggregator, ghost s': Aggregator)
    requires Distinct(nodes) && Midway(nodes, before, after, i) && i < |nodes| && g.View() == s
    requires RelinShareTwo(before[i], combined) == Some((after[i], wire)) && AcceptRelinTwo(x, s, before[i].me.point, wire) == Some(s')
    modifies nodes, g
    ensures Midway(nodes, before, after, i + 1) && g.View() == s'
  {
    PassRelinTwo(x, nodes[i], g, combined, before[i], after[i], wire, s, s');
  }

  method RelinTwoStage(x: Scheme, nodes: seq<OperatorNode>, g: AggregatorNode, combined: (int, int),
                     ghost before: seq<Operator>, ghost after: seq<Operator>, ghost wires: seq<(int, int)>, ghost stages: seq<Aggregator>)
    requires Distinct(nodes) && Stand(nodes, before) && |after| == |wires| == |before| == |stages| - 1 && g.View() == stages[0]
    requires forall t :: 0 <= t < |before| ==> RelinShareTwo(before[t], combined) == Some((after[t], wires[t]))
    requires forall t :: 0 <= t < |before| ==> before[t].me.point == t + 1
    requires forall t :: 0 <= t < |before| ==> AcceptRelinTwo(x, stages[t], t + 1, wires[t]) == Some(stages[t + 1])
    modifies nodes, g
    ensures Stand(nodes, after) && g.View() == stages[|before|]
  {
    for i := 0 to |nodes|
      invariant Midway(nodes, before, after, i) && g.View() == stages[i]
    {
      DeliverRelinTwo(x, nodes, i, g, combined, before, after, wires[i], stages[i], stages[i + 1]);
    }
  }

  /** One operator's share of the current Galois element goes to the aggregator. */
  method PassGalois(x: Scheme, node: OperatorNode, g: AggregatorNode, element: int,
                 ghost o: Operator, ghost o': Operator, ghost wire: int, ghost s: Aggregator, ghost s': Aggregator)
    requires ValidScheme(x) && node.View() == o && g.View() == s
    requires GaloisShare(x, o, element) == Some((o', wire)) && AcceptGaloisShare(x, s, o.me.point, element, wire) == Some(s')
    modifies node, g
    ensures node.View() == o' && g.View() == s'
  {
    var message := node.EmitGalois(x, element);
    assert message == Ok(wire) && g.View() == s;
    var accepted := g.AcceptGalois(x, node.me.point, element, message.value);
    assert accepted;
  }

  method DeliverGalois(x: Scheme, nodes: seq<OperatorNode>, i: nat, g: AggregatorNode, element: int,
                 ghost before: seq<Operator>, ghost after: seq<Operator>, ghost wire: int, ghost s: Aggregator, ghost s': Aggregator)
    requires ValidScheme(x) && Distinct(nodes) && Midway(nodes, before, after, i) && i < |nodes| && g.View() == s
    requires GaloisShare(x, before[i], element) == Some((after[i], wire)) && AcceptGaloisShare(x, s, before[i].me.point, element, wire) == Some(s')
    modifies nodes, g
    ensures Midway(nodes, before, after, i + 1) && g.View() == s'
  {
    PassGalois(x, nodes[i], g, element, before[i], after[i], wire, s, s');
  }

  method GaloisStage(x: Scheme, nodes: seq<OperatorNode>, g: AggregatorNode, element: int,
                     ghost before: seq<Operator>, ghost after: seq<Operator>, ghost wires: seq<int>, ghost stages: seq<Aggregator>)
    requires ValidScheme(x) && Distinct(nodes) && Stand(nodes, before) && |after| == |wires| == |before| == |stages| - 1 && g.View() == stages[0]
    requires forall t :: 0 <= t < |before| ==> GaloisShare(x, before[t], element) == Some((after[t], wires[t]))
    requires forall t :: 0 <= t < |before| ==> before[t].me.point == t + 1
    requires forall t :: 0 <= t < |before| ==> AcceptGaloisShare(x, stages[t], t + 1, element, wires[t]) == Some(stages[t + 1])
    modifies nodes, g
    ensures Stand(nodes, after) && g.View() == stages[|before|]
  {
    for i := 0 to |nodes|
      invariant Midway(nodes, before, after, i) && g.View() == stages[i]
    {
      DeliverGalois(x, nodes, i, g, element, before, after, wires[i], stages[i], stages[i + 1]);
    }
  }

  method SealOne(node: OperatorNode, d: Digests, ghost o: Operator, ghost o': Operator) returns (a: Attestation)
    requires node.View() == o && SealOperator(o, d) == Some((o', Attestation(o.me.point, d, o.me.key)))
    modifies node
    ensures node.View() == o' && a == Attestation(o.me.point, d, o.me.key)
  {
    var sealed := node.Seal(d);
    assert sealed == Ok(Attestation(o.me.point, d, o.me.key));
    return sealed.value;
  }

  method SealStage(nodes: seq<OperatorNode>, d: Digests, ghost before: seq<Operator>, ghost after: seq<Operator>)
    returns (attestations: seq<Attestation>)
    requires Distinct(nodes) && Stand(nodes, before) && |after| == |before|
    requires forall t :: 0 <= t < |before| ==> SealOperator(before[t], d) == Some((after[t], Attestation(before[t].me.point, d, before[t].me.key)))
    modifies nodes
    ensures Stand(nodes, after) && |attestations| == |before|
    ensures forall t :: 0 <= t < |before| ==> attestations[t] == Attestation(before[t].me.point, d, before[t].me.key)
  {
    attestations := [];
    for i := 0 to |nodes|
      invariant Midway(nodes, before, after, i)
      invariant |attestations| == i
      invariant forall t :: 0 <= t < i ==> attestations[t] == Attestation(before[t].me.point, d, before[t].me.key)
    {
      var attestation := SealOne(nodes[i], d, before[i], after[i]);
      attestations := attestations + [attestation];
    }
  }
}
