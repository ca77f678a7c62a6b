/**
 What the ceremony's parties never do, over every history of calls: go on before everyone was heard, take two
 contributions or two shares from one operator, share twice with one, or take what was meant for another.
 */
module CeremonyGuards {
  import opened Basics
  import opened SecretSharing
  import opened Ceremony
  import opened CeremonyShares
  import CeremonyNodes

  function Fresh(m: Member): Traced {
    Traced(NewOperator(m), map[])
  }

  /** What an operator holds is from members of the roster, its own contribution is its own, and others' are not zero. */
  ghost predicate HeardInv(o: Operator) {
    && o.contributions.Keys <= PointSet(o.me.roster) && o.received <= PointSet(o.me.roster) && o.emitted <= PointSet(o.me.roster)
    && o.me.point in o.contributions && o.contributions[o.me.point] == o.me.contribution
    && (forall p :: p in o.contributions && p != o.me.point ==> o.contributions[p] != 0)
    && (Rank(o.round) >= 1 ==> |o.contributions| == |o.me.roster.operators|)
    && (Rank(o.round) >= 2 ==> |o.received| == |o.me.roster.operators|)
  }

  lemma {:induction false} ContainsIsPoint(r: Roster, p: int)
    ensures Contains(r, p) <==> p in PointSet(r)
  {
  }

  lemma {:induction false} KeyOfIsPoint(r: Roster, p: int, key: int)
    requires KeyOf(r, p, key)
    ensures p in PointSet(r)
  {
  }

  lemma {:induction false} HeardKeeps(x: Scheme, o: Operator, c: Call)
    requires ValidScheme(x) && OperatorInv(o) && HeardInv(o)
    ensures HeardInv(Handle(x, o, c))
  {
    match c
    case CallContribution(point, _) => ContainsIsPoint(o.me.roster, point);
    case CallShareFor(recipient) => ContainsIsPoint(o.me.roster, recipient);
    case CallAcceptShare(s, _) =>
      if KeyOf(o.me.roster, s.sender, s.signer) {
        KeyOfIsPoint(o.me.roster, s.sender, s.signer);
      }
    case _ =>
  }

  lemma {:induction false} HeardRun(x: Scheme, m: Member, cs: seq<Call>)
    requires ValidScheme(x) && Contains(m.roster, m.point)
    ensures HeardInv(Calls(x, Fresh(m), cs).op)
  {
    if cs == [] {
      ContainsIsPoint(m.roster, m.point);
    } else {
      var n := |cs| - 1;
      HeardRun(x, m, cs[..n]);
      OperatorRun(x, m, cs[..n]);
      HeardKeeps(x, Calls(x, Fresh(m), cs[..n]).op, cs[n]);
    }
  }

  /**
   Whatever calls an operator receives: it has a reference string only after it heard a contribution of every roster
   member, its own among them, and it leaves the sharing round only after it took a share from every member.
   */
  lemma {:induction false} NobodyIsSkipped(x: Scheme, m: Member, cs: seq<Call>)
    requires ValidScheme(x) && ValidRoster(m.roster) && Contains(m.roster, m.point)
    ensures var o := Calls(x, Fresh(m), cs).op;
            && (o.stream.Some? ==> o.contributions.Keys == PointSet(m.roster) && o.stream.value.seed == Seed(m.roster, o.contributions))
            && (Rank(o.round) >= 1 ==> o.contributions.Keys == PointSet(m.roster))
            && (Rank(o.round) >= 2 ==> o.received == PointSet(m.roster))
            && m.point in o.contributions && o.contributions[m.point] == m.contribution
  {
    HeardRun(x, m, cs);
    OperatorRun(x, m, cs);
    var o := Calls(x, Fresh(m), cs).op;
    if Rank(o.round) >= 1 {
      assert |o.contributions.Keys| == |o.contributions|;
      AllReceived(m.roster, o.contributions.Keys);
    }
    if Rank(o.round) >= 2 {
      AllReceived(m.roster, o.received);
    }
  }

  /** Over every continuation: no recipient gets a second share, and no sender's second share counts. */
  lemma {:induction false} NothingTwice(x: Scheme, m: Member, cs: seq<Call>, more: seq<Call>, s: PrivateShare, recipient: int)
    requires ValidScheme(x)
    ensures var o, o' := Calls(x, Fresh(m), cs).op, Calls(x, Fresh(m), cs + more).op;
            && (recipient in o.emitted ==> PrivateShareFor(o', recipient).None?)
            && (PrivateShareFor(o, recipient).Some? ==> recipient in PrivateShareFor(o, recipient).value.0.emitted)
            && (s.sender in o.received ==> forall b :: AcceptPrivateShare(o', s, b).None?)
            && (forall b :: AcceptPrivateShare(o, s, b).Some? ==> s.sender in AcceptPrivateShare(o, s, b).value.received)
  {
    RunsOnlyAdvance(x, m, cs, more);
  }

  lemma {:induction false} ContributionStays(x: Scheme, o: Operator, c: Call, point: int)
    requires ValidScheme(x) && point in o.contributions
    ensures point in Handle(x, o, c).contributions && Handle(x, o, c).contributions[point] == o.contributions[point]
  {
  }

  /** Over every continuation: a contribution that was heard is never replaced. */
  lemma {:induction false} ContributionsStay(x: Scheme, m: Member, cs: seq<Call>, more: seq<Call>, point: int)
    requires ValidScheme(x) && point in Calls(x, Fresh(m), cs).op.contributions
    ensures var o, o' := Calls(x, Fresh(m), cs).op, Calls(x, Fresh(m), cs + more).op;
            point in o'.contributions && o'.contributions[point] == o.contributions[point]
  {
    if more == [] {
      assert cs + more == cs;
    } else {
      var n := |more| - 1;
      ContributionsStay(x, m, cs, more[..n], point);
      assert (cs + more)[..|cs + more| - 1] == cs + more[..n];
      ContributionStays(x, Calls(x, Fresh(m), cs + more[..n]).op, more[n], point);
    }
  }

  /** What an operator takes as a share: signed by the roster's key of its sender, in this ceremony, for this operator, once; it adds exactly its value. */
  lemma {:induction false} AcceptsOwnSharesOnly(o: Operator, s: PrivateShare, authentic: bool)
    ensures AcceptPrivateShare(o, s, authentic).Some? <==>
              && o.round == PrivateShares && authentic && s.roster == o.me.roster && s.recipient == o.me.point && s.sender !in o.received
              && exists i :: 0 <= i < |o.me.roster.operators| && o.me.roster.operators[i].point == s.sender && o.me.roster.operators[i].key == s.signer
    ensures AcceptPrivateShare(o, s, authentic).Some? ==>
      var o' := AcceptPrivateShare(o, s, authentic).value;
      o'.share == o.share + s.value && o'.received == o.received + {s.sender} && o' == o.(share := o'.share, received := o'.received)
  {
  }

  /** What an operator shares: with a roster member it has not shared with, its own polynomial at that member's point, signed with its own key. */
  lemma {:induction false} SharesOwnPolynomial(x: Scheme, m: Member, cs: seq<Call>, recipient: int)
    requires ValidScheme(x)
    ensures var o := Calls(x, Fresh(m), cs).op;
            && (PrivateShareFor(o, recipient).Some? <==> o.round == PrivateShares && recipient in PointSet(m.roster) && recipient !in o.emitted)
            && (PrivateShareFor(o, recipient).Some? ==>
                  PrivateShareFor(o, recipient).value.1 == PrivateShare(m.roster, m.point, recipient, Eval([m.secret] + m.tail, recipient), m.key))
  {
    OperatorRun(x, m, cs);
    ContainsIsPoint(m.roster, recipient);
  }

  /** What an operator attests, and when: after all nine rotations, digests of its own reference string and of every key, under its own key. */
  lemma {:induction false} AttestsItsOwn(x: Scheme, m: Member, cs: seq<Call>, d: Digests)
    requires ValidScheme(x)
    ensures var o := Calls(x, Fresh(m), cs).op;
            && (SealOperator(o, d).Some? <==>
                  && o.round == GaloisRound && o.galoisDone == 9 && d.seed == Some(Seed(m.roster, o.contributions))
                  && d.publicKey.Some? && d.relinearization.Some? && d.galois.Some? && d.policy.Some?)
            && (SealOperator(o, d).Some? ==> SealOperator(o, d).value.1 == Attestation(m.point, d, m.key))
  {
    OperatorRun(x, m, cs);
  }

  /** What an operator contributes to the public key, and when: in its round, its own secret under the first draw of its own reference string. */
  lemma {:induction false} PublicShareExactly(x: Scheme, m: Member, cs: seq<Call>)
    requires ValidScheme(x)
    ensures var o := Calls(x, Fresh(m), cs).op;
            && PublicKeyShare(x, o).Some? == (o.round == PublicKeyRound)
            && (PublicKeyShare(x, o).Some? ==> PublicKeyShare(x, o).value.1 == -x.draw(Seed(m.roster, o.contributions), 0) * m.secret)
  {
    OperatorRun(x, m, cs);
  }

  /** To the relinearization key, first: its own secret and mask, under the second draw. */
  lemma {:induction false} RelinOneExactly(x: Scheme, m: Member, cs: seq<Call>)
    requires ValidScheme(x)
    ensures var o := Calls(x, Fresh(m), cs).op;
            var a := x.draw(Seed(m.roster, o.contributions), 1);
            && RelinShareOne(x, o).Some? == (o.round == RelinOneRound)
            && (RelinShareOne(x, o).Some? ==> RelinShareOne(x, o).value.1 == (-m.mask * a + m.secret * x.gadget, m.secret * a))
  {
    OperatorRun(x, m, cs);
  }

  /** And second: over the combined first round, its own secret, and its mask less its secret. */
  lemma {:induction false} RelinTwoExactly(x: Scheme, m: Member, cs: seq<Call>, combined: (int, int))
    requires ValidScheme(x)
    ensures var o := Calls(x, Fresh(m), cs).op;
            && RelinShareTwo(o, combined).Some? == (o.round == RelinTwoRound)
            && (RelinShareTwo(o, combined).Some? ==>
                  RelinShareTwo(o, combined).value.1 == (m.secret * combined.0, (m.mask - m.secret) * combined.1))
  {
    OperatorRun(x, m, cs);
  }

  /** To the rotation keys: one after the other in the circuit's order, each under its own draw. */
  lemma {:induction false} GaloisShareExactly(x: Scheme, m: Member, cs: seq<Call>, element: int)
    requires ValidScheme(x)
    ensures var o := Calls(x, Fresh(m), cs).op;
            var a := x.draw(Seed(m.roster, o.contributions), 2 + o.galoisDone);
            && GaloisShare(x, o, element).Some? == (o.round == GaloisRound && o.galoisDone < 9 && element == x.elements[o.galoisDone])
            && (GaloisShare(x, o, element).Some? ==> GaloisShare(x, o, element).value.1 == -a * m.secret + x.action(element) * m.secret * x.gadget)
  {
    OperatorRun(x, m, cs);
  }

  // ----- the aggregator

  /** Shares gathered so far come from members, each stage was left only when all of them were in. */
  ghost predicate GatheredInv(g: Aggregator) {
    var all, n := PointSet(g.roster), |g.roster.operators|;
    && g.contributions.Keys <= all && g.publicShares.seen <= all && g.relinOne.seen <= all && g.relinTwo.seen <= all && g.galoisShares.seen <= all
    && (forall p :: p in g.contributions ==> g.contributions[p] != 0)
    && (g.stream.Some? ==> |g.contributions| == n)
    && (Rank(g.stage) >= 3 ==> |g.publicShares.seen| == n)
    && (Rank(g.stage) >= 4 ==> |g.relinOne.seen| == n)
    && (Rank(g.stage) >= 5 ==> |g.relinTwo.seen| == n)
    && (g.complete ==> |g.galoisShares.seen| == n)
  }

  lemma {:induction false} EarlyGathered(x: Scheme, g: Aggregator, d: Delivery)
    requires ValidScheme(x) && AggregatorInv(x, g) && GatheredInv(g) && (d.DeliverContribution? || d.DeliverSealCrs? || d.DeliverPublicKey?)
    ensures GatheredInv(Gather(x, g, d))
  {
    if !d.DeliverSealCrs? {
      ContainsIsPoint(g.roster, d.point);
    }
  }

  lemma {:induction false} RelinGathered(x: Scheme, g: Aggregator, d: Delivery)
    requires ValidScheme(x) && AggregatorInv(x, g) && GatheredInv(g) && (d.DeliverRelinOne? || d.DeliverRelinTwo?)
    ensures GatheredInv(Gather(x, g, d))
  {
    ContainsIsPoint(g.roster, d.point);
  }

  lemma {:induction false} GaloisGathered(x: Scheme, g: Aggregator, d: Delivery)
    requires ValidScheme(x) && AggregatorInv(x, g) && GatheredInv(g) && d.DeliverGalois?
    ensures GatheredInv(Gather(x, g, d))
  {
    ContainsIsPoint(g.roster, d.point);
  }

  lemma {:induction false} GatheredKeeps(x: Scheme, g: Aggregator, d: Delivery)
    requires ValidScheme(x) && AggregatorInv(x, g) && GatheredInv(g)
    ensures GatheredInv(Gather(x, g, d))
  {
    if d.DeliverGalois? {
      GaloisGathered(x, g, d);
    } else if d.DeliverRelinOne? || d.DeliverRelinTwo? {
      RelinGathered(x, g, d);
    } else {
      EarlyGathered(x, g, d);
    }
  }

  lemma {:induction false} GatheredRun(x: Scheme, r: Roster, ds: seq<Delivery>)
    requires ValidScheme(x)
    ensures GatheredInv(Deliveries(x, NewAggregator(r), ds)) && Deliveries(x, NewAggregator(r), ds).roster == r
  {
    AggregatorRun(x, r, ds);
    if ds != [] {
      var n := |ds| - 1;
      GatheredRun(x, r, ds[..n]);
      AggregatorRun(x, r, ds[..n]);
      GatheredKeeps(x, Deliveries(x, NewAggregator(r), ds[..n]), ds[n]);
    }
  }

  /** Whatever is delivered to it: the aggregator finishes no key before every roster member's share of it is in. */
  lemma {:induction false} KeysNeedAllReceived(x: Scheme, r: Roster, ds: seq<Delivery>)
    requires ValidScheme(x) && ValidRoster(r)
    ensures var g, all := Deliveries(x, NewAggregator(r), ds), PointSet(r);
            && (g.stream.Some? ==> g.contributions.Keys == all)
            && (g.publicKey.Some? ==> g.publicShares.seen == all)
            && (AggregatedRelinOne(g).Some? ==> g.relinOne.seen == all)
            && (g.relinKey.Some? ==> g.relinOne.seen == all && g.relinTwo.seen == all)
            && (g.complete ==> g.galoisShares.seen == all && |g.galoisKeys| == 9)
  {
    AggregatorRun(x, r, ds);
    GatheredRun(x, r, ds);
    var g := Deliveries(x, NewAggregator(r), ds);
    if g.stream.Some? {
      assert |g.contributions.Keys| == |g.contributions|;
      AllReceived(r, g.contributions.Keys);
    }
    if Rank(g.stage) >= 3 {
      AllReceived(r, g.publicShares.seen);
    }
    if Rank(g.stage) >= 4 {
      AllReceived(r, g.relinOne.seen);
    }
    if Rank(g.stage) >= 5 {
      AllReceived(r, g.relinTwo.seen);
    }
    if g.complete {
      AllReceived(r, g.galoisShares.seen);
    }
  }

  /** What the aggregator takes: one share per roster member in each stage, and rotations only in the circuit's order. */
  lemma {:induction false} GathersExactly(x: Scheme, r: Roster, ds: seq<Delivery>, point: int, wire: int, pair: (int, int), element: int)
    requires ValidScheme(x)
    ensures var g, member := Deliveries(x, NewAggregator(r), ds), point in PointSet(r);
            && AcceptPublicKeyShare(x, g, point, wire).Some? == (g.stage == PublicKeyRound && member && point !in g.publicShares.seen)
            && AcceptRelinOne(g, point, pair).Some? == (g.stage == RelinOneRound && member && point !in g.relinOne.seen)
            && AcceptRelinTwo(x, g, point, pair).Some? == (g.stage == RelinTwoRound && member && point !in g.relinTwo.seen)
            && AcceptGaloisShare(x, g, point, element, wire).Some? ==
               (g.stage == GaloisRound && !g.complete && g.galoisIndex < 9 && element == x.elements[g.galoisIndex] && member && point !in g.galoisShares.seen)
  {
    AggregatorRun(x, r, ds);
    ContainsIsPoint(r, point);
  }

  // ----- attestations

  /** Attestations that verify are one per roster member: each signed these very digests with the key the roster has for it. */
  lemma {:induction false} AttestedByAll(r: Roster, d: Digests, attestations: seq<Attestation>, t: nat)
    requires ValidRoster(r) && |attestations| == |r.operators| && t < |r.operators|
    requires forall i :: 0 <= i < |attestations| ==> CeremonyNodes.AttestationVerifies(r, d, attestations[i])
    requires forall i, j :: 0 <= i < j < |attestations| ==> attestations[i].point != attestations[j].point
    ensures exists i :: 0 <= i < |attestations| && attestations[i] == Attestation(r.operators[t].point, d, r.operators[t].key)
  {
    var points := AttestedPoints(attestations);
    forall p | p in points
      ensures p in PointSet(r)
    {
      var i :| 0 <= i < |attestations| && attestations[i].point == p;
      KeyOfIsPoint(r, p, attestations[i].signer);
    }
    AttestedCount(attestations);
    AllReceived(r, points);
    assert r.operators[t].point in PointSet(r);
    var i :| 0 <= i < |attestations| && attestations[i].point == r.operators[t].point;
    OneKeyEach(r, t, attestations[i].signer);
    assert attestations[i] == Attestation(r.operators[t].point, d, r.operators[t].key);
  }

  function AttestedPoints(attestations: seq<Attestation>): set<int> {
    set i | 0 <= i < |attestations| :: attestations[i].point
  }

  lemma {:induction false} AttestedCount(attestations: seq<Attestation>)
    requires forall i, j :: 0 <= i < j < |attestations| ==> attestations[i].point != attestations[j].point
    ensures |AttestedPoints(attestations)| == |attestations|
  {
    if attestations != [] {
      var n := |attestations| - 1;
      var before := attestations[..n];
      AttestedCount(before);
      assert AttestedPoints(attestations) == AttestedPoints(before) + {attestations[n].point} by {
        forall p
          ensures p in AttestedPoints(attestations) <==> p in AttestedPoints(before) || p == attestations[n].point
        {
          AttestedStep(attestations, p);
        }
      }
    }
  }

  lemma {:induction false} AttestedStep(attestations: seq<Attestation>, p: int)
    requires attestations != []
    ensures var n := |attestations| - 1;
            p in AttestedPoints(attestations) <==> p in AttestedPoints(attestations[..n]) || p == attestations[n].point
  {
    var n := |attestations| - 1;
    if p in AttestedPoints(attestations) {
      var i :| 0 <= i < |attestations| && attestations[i].point == p;
      assert i < n ==> attestations[..n][i].point == p;
    }
    if p in AttestedPoints(attestations[..n]) {
      var i :| 0 <= i < n && attestations[..n][i].point == p;
      assert attestations[i].point == p;
    }
  }

  lemma {:induction false} OneKeyEach(r: Roster, t: nat, key: int)
    requires ValidRoster(r) && t < |r.operators| && KeyOf(r, r.operators[t].point, key)
    ensures key == r.operators[t].key
  {
  }
}
