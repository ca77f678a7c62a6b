/**
 The dealerless key ceremony: one operator's round machine and the aggregator's
 stage machine, call by call. A call either is refused and changes nothing, or
 yields the next state and a message.

 Ring elements are integers (read modulo the ciphertext primes), encryption noise
 is left out, and the common reference string is a stream of draws determined by
 its seed. Hashes are modelled as the values they digest, signatures as ideal.
 */
module Ceremony {
  import opened Basics
  import opened SecretSharing

  const MAX_OPERATORS := 16
  const ROTATIONS := 9

  // ----- roster

  datatype Identity = Identity(point: nat, key: int)

  datatype Roster = Roster(threshold: int, ceremony: int, epoch: int, fingerprint: int, operators: seq<Identity>)

  /** What CeremonyRoster.validate accepts: bounds, no zero field, points ascending, keys distinct. */
  ghost predicate ValidRoster(r: Roster) {
    && 2 <= r.threshold <= |r.operators| <= MAX_OPERATORS
    && r.ceremony != 0 && r.fingerprint != 0 && r.epoch != 0
    && (forall i :: 0 <= i < |r.operators| ==> r.operators[i].point > 0 && r.operators[i].key != 0)
    && (forall i, j :: 0 <= i < j < |r.operators| ==>
          r.operators[i].point < r.operators[j].point && r.operators[i].key != r.operators[j].key)
  }

  /** Entry `k` is in order after the entries before it. */
  ghost predicate InOrder(ops: seq<Identity>, k: nat)
    requires k < |ops|
  {
    && ops[k].point > 0 && ops[k].key != 0
    && (forall i :: 0 <= i < k ==> ops[i].point < ops[k].point && ops[i].key != ops[k].key)
  }

  function PointsBefore(ops: seq<Identity>, k: nat): set<int>
    requires k <= |ops|
  {
    if k == 0 then {} else PointsBefore(ops, k - 1) + {ops[k - 1].point}
  }

  function KeysBefore(ops: seq<Identity>, k: nat): set<int>
    requires k <= |ops|
  {
    if k == 0 then {} else KeysBefore(ops, k - 1) + {ops[k - 1].key}
  }

  lemma {:induction false} PointBefore(ops: seq<Identity>, k: nat, p: int)
    requires k <= |ops|
    ensures p in PointsBefore(ops, k) <==> exists i :: 0 <= i < k && ops[i].point == p
  {
    if k > 0 {
      PointBefore(ops, k - 1, p);
    }
  }

  lemma {:induction false} KeyBefore(ops: seq<Identity>, k: nat, y: int)
    requires k <= |ops|
    ensures y in KeysBefore(ops, k) <==> exists i :: 0 <= i < k && ops[i].key == y
  {
    if k > 0 {
      KeyBefore(ops, k - 1, y);
    }
  }

  /** The tests on one entry, given the points and keys of the entries before it. */
  method CheckEntry(ops: seq<Identity>, k: nat, points: set<int>, keys: set<int>) returns (ok: bool)
    requires k < |ops| && points == PointsBefore(ops, k) && keys == KeysBefore(ops, k)
    requires forall i :: 0 <= i < k ==> InOrder(ops, i)
    ensures ok <==> InOrder(ops, k)
  {
    PointBefore(ops, k, ops[k].point);
    KeyBefore(ops, k, ops[k].key);
    if ops[k].point == 0 || ops[k].key == 0 {
      return false;
    }
    if k > 0 && ops[k - 1].point >= ops[k].point {
      return false;
    }
    if ops[k].point in points {
      return false;
    }
    if ops[k].key in keys {
      return false;
    }
    assert k > 0 ==> InOrder(ops, k - 1);
    return true;
  }

  method Validate(r: Roster) returns (ok: bool)
    ensures ok <==> ValidRoster(r)
  {
    if r.threshold < 2 || r.threshold > |r.operators| || |r.operators| < 2 || |r.operators| > MAX_OPERATORS ||
       r.ceremony == 0 || r.fingerprint == 0 || r.epoch == 0 {
      return false;
    }
    var seenPoint: set<int>, seenKey: set<int> := {}, {};
    for k := 0 to |r.operators|
      invariant seenPoint == PointsBefore(r.operators, k) && seenKey == KeysBefore(r.operators, k)
      invariant forall i :: 0 <= i < k ==> InOrder(r.operators, i)
    {
      ok := CheckEntry(r.operators, k, seenPoint, seenKey);
      if !ok {
        OrderedEntry(r, k);
        return false;
      }
      seenPoint := seenPoint + {r.operators[k].point};
      seenKey := seenKey + {r.operators[k].key};
    }
    AllOrdered(r);
    return true;
  }

  lemma {:induction false} OrderedEntry(r: Roster, k: nat)
    requires k < |r.operators|
    ensures ValidRoster(r) ==> InOrder(r.operators, k)
  {
  }

  lemma {:induction false} AllOrdered(r: Roster)
    requires 2 <= r.threshold <= |r.operators| <= MAX_OPERATORS && r.ceremony != 0 && r.fingerprint != 0 && r.epoch != 0
    requires forall i :: 0 <= i < |r.operators| ==> InOrder(r.operators, i)
    ensures ValidRoster(r)
  {
    var ops := r.operators;
    forall i | 0 <= i < |ops|
      ensures ops[i].point > 0 && ops[i].key != 0
    {
      assert InOrder(ops, i);
    }
    forall i, j | 0 <= i < j < |ops|
      ensures ops[i].point < ops[j].point && ops[i].key != ops[j].key
    {
      assert InOrder(ops, j);
    }
  }

  predicate Contains(r: Roster, point: int) {
    exists i :: 0 <= i < |r.operators| && r.operators[i].point == point
  }

  ghost function PointSet(r: Roster): set<int> {
    set i | 0 <= i < |r.operators| :: r.operators[i].point
  }

  // ----- the common reference string

  /** A seed is determined by the roster and the contribution map it hashes. */
  datatype Seed = Seed(roster: Roster, contributions: map<int, int>)

  datatype Stream = Stream(seed: Seed, position: nat)

  /** The public parameters: the stream's draws, the Galois elements in circuit order, how each acts, and the gadget. */
  datatype Scheme = Scheme(draw: (Seed, nat) -> int, elements: seq<int>, action: int -> int, gadget: int)

  predicate ValidScheme(x: Scheme) {
    |x.elements| == ROTATIONS
  }

  datatype Key = PublicKeyOf | RelinearizationKeyOf | GaloisKeyOf(index: nat)

  /** The draw every party must use for a key. */
  function DrawOf(k: Key): nat {
    match k
    case PublicKeyOf => 0
    case RelinearizationKeyOf => 1
    case GaloisKeyOf(i) => 2 + i
  }

  // ----- one operator

  datatype Round = Contributing | PrivateShares | PublicKeyRound | RelinOneRound | RelinTwoRound | GaloisRound | SealedRound

  function Rank(r: Round): nat {
    match r
    case Contributing => 0
    case PrivateShares => 1
    case PublicKeyRound => 2
    case RelinOneRound => 3
    case RelinTwoRound => 4
    case GaloisRound => 5
    case SealedRound => 6
  }

  /** What an operator samples or is given once: its secret, the rest of its polynomial, its relinearization mask. */
  datatype Member = Member(roster: Roster, point: int, key: int, secret: int, tail: seq<int>, mask: int, contribution: int)

  function Polynomial(m: Member): seq<int> {
    [m.secret] + m.tail
  }

  datatype PrivateShare = PrivateShare(roster: Roster, sender: int, recipient: int, value: int, signer: int)

  datatype Operator = Operator(
    me: Member,
    round: Round,
    contributions: map<int, int>,
    stream: Option<Stream>,
    polynomial: Option<seq<int>>,
    share: int,
    received: set<int>,
    emitted: set<int>,
    holdsSecret: bool,
    ephemeral: Option<int>,
    galoisDone: nat)

  function NewOperator(m: Member): Operator {
    Operator(m, Contributing, map[m.point := m.contribution], None, None, 0, {}, {}, true, None, 0)
  }

  function OperatorAcceptContribution(o: Operator, point: int, value: int): Option<Operator> {
    if !o.round.Contributing? || !Contains(o.me.roster, point) || value == 0 then None
    else if point in o.contributions then (if o.contributions[point] == value then Some(o) else None)
    else Some(o.(contributions := o.contributions[point := value]))
  }

  function OperatorSealCrs(o: Operator): Option<Operator> {
    if !o.round.Contributing? || |o.contributions| != |o.me.roster.operators| then None
    else Some(o.(stream := Some(Stream(Seed(o.me.roster, o.contributions), 0)),
                 polynomial := Some(Polynomial(o.me)), share := 0, round := PrivateShares))
  }

  function PrivateShareFor(o: Operator, recipient: int): Option<(Operator, PrivateShare)> {
    if !o.round.PrivateShares? || !Contains(o.me.roster, recipient) || recipient in o.emitted || o.polynomial.None? then None
    else Some((o.(emitted := o.emitted + {recipient}),
               PrivateShare(o.me.roster, o.me.point, recipient, Eval(o.polynomial.value, recipient), o.me.key)))
  }

  predicate KeyOf(r: Roster, point: int, key: int) {
    exists i :: 0 <= i < |r.operators| && r.operators[i].point == point && r.operators[i].key == key
  }

  /** `authentic`: the signature verifies, that is, the signer produced exactly this share. */
  function AcceptPrivateShare(o: Operator, s: PrivateShare, authentic: bool): Option<Operator> {
    if !o.round.PrivateShares? || s.roster != o.me.roster || s.recipient != o.me.point ||
       !KeyOf(o.me.roster, s.sender, s.signer) || !authentic || s.sender in o.received then None
    else Some(o.(share := o.share + s.value, received := o.received + {s.sender}))
  }

  function SealThresholdShare(o: Operator): Option<Operator> {
    if !o.round.PrivateShares? || |o.received| != |o.me.roster.operators| then None
    else Some(o.(polynomial := None, round := PublicKeyRound))
  }

  function Advance(s: Stream): Stream {
    s.(position := s.position + 1)
  }

  function PublicKeyShare(x: Scheme, o: Operator): Option<(Operator, int)> {
    if !o.round.PublicKeyRound? || o.stream.None? then None
    else
      var s := o.stream.value;
      Some((o.(stream := Some(Advance(s)), round := RelinOneRound),
            -x.draw(s.seed, s.position) * o.me.secret))
  }

  function RelinShareOne(x: Scheme, o: Operator): Option<(Operator, (int, int))> {
    if !o.round.RelinOneRound? || o.stream.None? then None
    else
      var s := o.stream.value;
      var a := x.draw(s.seed, s.position);
      Some((o.(stream := Some(Advance(s)), ephemeral := Some(o.me.mask), round := RelinTwoRound),
            (-o.me.mask * a + o.me.secret * x.gadget, o.me.secret * a)))
  }

  function RelinShareTwo(o: Operator, combined: (int, int)): Option<(Operator, (int, int))> {
    if !o.round.RelinTwoRound? || o.ephemeral.None? then None
    else Some((o.(round := GaloisRound),
               (o.me.secret * combined.0, (o.ephemeral.value - o.me.secret) * combined.1)))
  }

  function GaloisShare(x: Scheme, o: Operator, element: int): Option<(Operator, int)>
    requires ValidScheme(x)
  {
    if !o.round.GaloisRound? || o.galoisDone >= ROTATIONS || o.stream.None? then None
    else if element != x.elements[o.galoisDone] then None
    else
      var s := o.stream.value;
      Some((o.(stream := Some(Advance(s)), galoisDone := o.galoisDone + 1),
            -x.draw(s.seed, s.position) * o.me.secret + x.action(element) * o.me.secret * x.gadget))
  }

  /** A public or Galois key is a pair (b, a); a relinearization key likewise. */
  type KeyPair = (int, int)

  /** The digests every operator countersigns, as the values they digest; None stands for the all-zero digest. */
  datatype Digests = Digests(
    seed: Option<Seed>, publicKey: Option<KeyPair>, relinearization: Option<KeyPair>, galois: Option<seq<KeyPair>>, policy: Option<int>)

  datatype Attestation = Attestation(point: int, digests: Digests, signer: int)

  function SealOperator(o: Operator, d: Digests): Option<(Operator, Attestation)> {
    if !o.round.GaloisRound? || o.galoisDone != ROTATIONS || o.stream.None? then None
    else if d.seed != Some(o.stream.value.seed) ||
            d.publicKey.None? || d.relinearization.None? || d.galois.None? || d.policy.None? then None
    else Some((o.(holdsSecret := false, ephemeral := None, stream := None, round := SealedRound),
               Attestation(o.me.point, d, o.me.key)))
  }

  // ----- every call sequence of one operator

  datatype Call =
    | CallContribution(point: int, value: int)
    | CallSealCrs
    | CallShareFor(recipient: int)
    | CallAcceptShare(share: PrivateShare, authentic: bool)
    | CallSealShare
    | CallPublicKey
    | CallRelinOne
    | CallRelinTwo(combined: (int, int))
    | CallGalois(element: int)
    | CallSeal(digests: Digests)

  function Or<T>(x: Option<T>, y: T): T {
    if x.Some? then x.value else y
  }

  function FirstOr<T, U>(x: Option<(T, U)>, y: T): T {
    if x.Some? then x.value.0 else y
  }

  function Handle(x: Scheme, o: Operator, c: Call): Operator
    requires ValidScheme(x)
  {
    match c
    case CallContribution(point, value) => Or(OperatorAcceptContribution(o, point, value), o)
    case CallSealCrs => Or(OperatorSealCrs(o), o)
    case CallShareFor(recipient) => FirstOr(PrivateShareFor(o, recipient), o)
    case CallAcceptShare(share, authentic) => Or(AcceptPrivateShare(o, share, authentic), o)
    case CallSealShare => Or(SealThresholdShare(o), o)
    case CallPublicKey => FirstOr(PublicKeyShare(x, o), o)
    case CallRelinOne => FirstOr(RelinShareOne(x, o), o)
    case CallRelinTwo(combined) => FirstOr(RelinShareTwo(o, combined), o)
    case CallGalois(element) => FirstOr(GaloisShare(x, o, element), o)
    case CallSeal(digests) => FirstOr(SealOperator(o, digests), o)
  }

  /** An operator together with the history of which draw went into which key. */
  datatype Traced = Traced(op: Operator, log: map<Key, Stream>)

  /** The key a call draws for, when it is accepted. */
  function DrawnKey(x: Scheme, o: Operator, c: Call): Option<Key>
    requires ValidScheme(x)
  {
    if c.CallPublicKey? && PublicKeyShare(x, o).Some? then Some(PublicKeyOf)
    else if c.CallRelinOne? && RelinShareOne(x, o).Some? then Some(RelinearizationKeyOf)
    else if c.CallGalois? && GaloisShare(x, o, c.element).Some? then Some(GaloisKeyOf(o.galoisDone))
    else None
  }

  function HandleTraced(x: Scheme, t: Traced, c: Call): Traced
    requires ValidScheme(x)
  {
    var k := DrawnKey(x, t.op, c);
    Traced(Handle(x, t.op, c), if k.Some? then t.log[k.value := t.op.stream.value] else t.log)
  }

  function Calls(x: Scheme, t: Traced, cs: seq<Call>): Traced
    requires ValidScheme(x)
  {
    if cs == [] then t else HandleTraced(x, Calls(x, t, cs[..|cs| - 1]), cs[|cs| - 1])
  }

  /** The stream position that belongs to a round. */
  function Position(o: Operator): nat {
    match o.round
    case RelinOneRound => 1
    case RelinTwoRound => 2
    case GaloisRound => 2 + o.galoisDone
    case _ => 0
  }

  ghost predicate OperatorInv(o: Operator) {
    && (o.stream.Some? <==> 1 <= Rank(o.round) <= 5)
    && (o.stream.Some? ==> o.stream.value.position == Position(o) && o.stream.value.seed == Seed(o.me.roster, o.contributions))
    && (o.polynomial.Some? <==> o.round.PrivateShares?)
    && (o.polynomial.Some? ==> o.polynomial.value == Polynomial(o.me))
    && (o.holdsSecret <==> !o.round.SealedRound?)
    && (o.ephemeral.Some? <==> 4 <= Rank(o.round) <= 5)
    && (o.ephemeral.Some? ==> o.ephemeral.value == o.me.mask)
    && o.galoisDone <= ROTATIONS && (Rank(o.round) < 5 ==> o.galoisDone == 0)
    && (o.round.SealedRound? ==> o.galoisDone == ROTATIONS)
  }

  /** The history: which keys were drawn for, and that each used its own draw of this operator's stream. */
  ghost predicate LogInv(t: Traced) {
    && (PublicKeyOf in t.log <==> Rank(t.op.round) >= 3)
    && (RelinearizationKeyOf in t.log <==> Rank(t.op.round) >= 4)
    && (forall i: nat :: GaloisKeyOf(i) in t.log <==> i < t.op.galoisDone)
    && (forall k :: k in t.log ==> t.log[k] == Stream(Seed(t.op.me.roster, t.op.contributions), DrawOf(k)))
  }

  ghost predicate Kept(o: Operator, o': Operator) {
    && OperatorInv(o') && o'.me == o.me
    && Rank(o.round) <= Rank(o'.round) && o.received <= o'.received && o.emitted <= o'.emitted
    && (Rank(o.round) >= 1 ==> o'.contributions == o.contributions)
  }

  lemma {:induction false} SharingCallKeeps(x: Scheme, o: Operator, c: Call)
    requires ValidScheme(x) && OperatorInv(o)
    requires c.CallContribution? || c.CallSealCrs? || c.CallShareFor? || c.CallAcceptShare? || c.CallSealShare?
    ensures Kept(o, Handle(x, o, c))
  {
  }

  lemma {:induction false} KeyCallKeeps(x: Scheme, o: Operator, c: Call)
    requires ValidScheme(x) && OperatorInv(o)
    requires c.CallPublicKey? || c.CallRelinOne? || c.CallRelinTwo? || c.CallGalois? || c.CallSeal?
    ensures Kept(o, Handle(x, o, c))
  {
  }

  lemma {:induction false} HandleKeeps(x: Scheme, o: Operator, c: Call)
    requires ValidScheme(x) && OperatorInv(o)
    ensures Kept(o, Handle(x, o, c))
  {
    if c.CallPublicKey? || c.CallRelinOne? || c.CallRelinTwo? || c.CallGalois? || c.CallSeal? {
      KeyCallKeeps(x, o, c);
    } else {
      SharingCallKeeps(x, o, c);
    }
  }

  lemma {:induction false} LogKeeps(x: Scheme, t: Traced, c: Call)
    requires ValidScheme(x) && OperatorInv(t.op) && LogInv(t)
    ensures LogInv(HandleTraced(x, t, c))
  {
    HandleKeeps(x, t.op, c);
  }

  /** Whether a call is accepted. */
  function Accepted(x: Scheme, o: Operator, c: Call): bool
    requires ValidScheme(x)
  {
    match c
    case CallContribution(point, value) => OperatorAcceptContribution(o, point, value).Some?
    case CallSealCrs => OperatorSealCrs(o).Some?
    case CallShareFor(recipient) => PrivateShareFor(o, recipient).Some?
    case CallAcceptShare(share, authentic) => AcceptPrivateShare(o, share, authentic).Some?
    case CallSealShare => SealThresholdShare(o).Some?
    case CallPublicKey => PublicKeyShare(x, o).Some?
    case CallRelinOne => RelinShareOne(x, o).Some?
    case CallRelinTwo(combined) => RelinShareTwo(o, combined).Some?
    case CallGalois(element) => GaloisShare(x, o, element).Some?
    case CallSeal(digests) => SealOperator(o, digests).Some?
  }

  /** A refused call changes nothing. */
  lemma {:induction false} RefusedChangesNothing(x: Scheme, t: Traced, c: Call)
    requires ValidScheme(x)
    ensures !Accepted(x, t.op, c) ==> HandleTraced(x, t, c) == t
  {
  }

  /** `t'` is `t` or later: a later round, nothing forgotten, contributions fixed once sealed, logged draws unchanged. */
  ghost predicate Later(t: Traced, t': Traced) {
    Kept(t.op, t'.op) && forall k :: k in t.log ==> k in t'.log && t'.log[k] == t.log[k]
  }

  lemma {:induction false} LaterStep(x: Scheme, t: Traced, t': Traced, c: Call)
    requires ValidScheme(x) && Later(t, t') && LogInv(t')
    ensures Later(t, HandleTraced(x, t', c))
  {
    HandleKeeps(x, t'.op, c);
    LogPersists(x, t', c);
    KeptTrans(t.op, t'.op, HandleTraced(x, t', c).op);
  }

  lemma {:induction false} KeptTrans(o: Operator, o': Operator, o'': Operator)
    requires Kept(o, o') && Kept(o', o'')
    ensures Kept(o, o'')
  {
  }

  /** Over every run and every continuation of it, an operator only moves forward. */
  lemma {:induction false} RunsOnlyAdvance(x: Scheme, m: Member, cs: seq<Call>, more: seq<Call>)
    requires ValidScheme(x)
    ensures Later(Calls(x, Traced(NewOperator(m), map[]), cs), Calls(x, Traced(NewOperator(m), map[]), cs + more))
  {
    if more == [] {
      OperatorRun(x, m, cs);
      assert cs + more == cs;
    } else {
      var n := |more| - 1;
      RunsOnlyAdvance(x, m, cs, more[..n]);
      OperatorRun(x, m, cs + more[..n]);
      assert (cs + more)[..|cs + more| - 1] == cs + more[..n];
      LaterStep(x, Calls(x, Traced(NewOperator(m), map[]), cs), Calls(x, Traced(NewOperator(m), map[]), cs + more[..n]), more[n]);
    }
  }

  lemma {:induction false} LogPersists(x: Scheme, t: Traced, c: Call)
    requires ValidScheme(x) && OperatorInv(t.op) && LogInv(t)
    ensures forall k :: k in t.log ==> k in HandleTraced(x, t, c).log && HandleTraced(x, t, c).log[k] == t.log[k]
  {
  }

  /**
   Whatever calls an operator receives, in whatever order: secrets are gone once it is sealed, and every key
   it ever contributed to used exactly the draw of the shared stream that belongs to that key.
   */
  lemma {:induction false} OperatorRun(x: Scheme, m: Member, cs: seq<Call>)
    requires ValidScheme(x)
    ensures var t := Calls(x, Traced(NewOperator(m), map[]), cs);
            && OperatorInv(t.op) && LogInv(t) && t.op.me == m
            && (t.op.round.SealedRound? ==>
                  !t.op.holdsSecret && t.op.ephemeral.None? && t.op.polynomial.None? && t.op.stream.None?)
  {
    if cs != [] {
      var t := Calls(x, Traced(NewOperator(m), map[]), cs[..|cs| - 1]);
      OperatorRun(x, m, cs[..|cs| - 1]);
      HandleKeeps(x, t.op, cs[|cs| - 1]);
      LogKeeps(x, t, cs[|cs| - 1]);
    }
  }

  // ----- the aggregator

  /** Who contributed to a sum so far, and the sum. */
  datatype Gathered = Gathered(seen: set<int>, sum: int)
  datatype GatheredPair = GatheredPair(seen: set<int>, sum: (int, int))

  const NONE_YET := Gathered({}, 0)
  const NO_PAIRS_YET := GatheredPair({}, (0, 0))

  datatype Aggregator = Aggregator(
    roster: Roster,
    stage: Round,
    contributions: map<int, int>,
    stream: Option<Stream>,
    crp: int,
    publicShares: Gathered,
    publicKey: Option<KeyPair>,
    relinOne: GatheredPair,
    relinTwo: GatheredPair,
    relinKey: Option<KeyPair>,
    galoisIndex: nat,
    galoisShares: Gathered,
    galoisKeys: seq<KeyPair>,
    complete: bool)

  function NewAggregator(r: Roster): Aggregator {
    Aggregator(r, Contributing, map[], None, 0, NONE_YET, None, NO_PAIRS_YET, NO_PAIRS_YET, None, 0, NONE_YET, [], false)
  }

  function AggregatorAcceptContribution(g: Aggregator, point: int, value: int): Option<Aggregator> {
    if !g.stage.Contributing? || !Contains(g.roster, point) || value == 0 || point in g.contributions then None
    else Some(g.(contributions := g.contributions[point := value]))
  }

  function DrawNow(x: Scheme, s: Stream): int {
    x.draw(s.seed, s.position)
  }

  function AggregatorSealCrs(x: Scheme, g: Aggregator): Option<Aggregator> {
    if !g.stage.Contributing? || |g.contributions| != |g.roster.operators| then None
    else
      var s := Stream(Seed(g.roster, g.contributions), 0);
      Some(g.(stream := Some(Advance(s)), crp := DrawNow(x, s), publicShares := NONE_YET, stage := PublicKeyRound))
  }

  predicate Fresh(r: Roster, point: int, seen: set<int>) {
    Contains(r, point) && point !in seen
  }

  function AcceptPublicKeyShare(x: Scheme, g: Aggregator, point: int, wire: int): Option<Aggregator> {
    if !g.stage.PublicKeyRound? || !Fresh(g.roster, point, g.publicShares.seen) || g.stream.None? then None
    else
      var got := Gathered(g.publicShares.seen + {point}, g.publicShares.sum + wire);
      var g1 := g.(publicShares := got);
      Some(if |got.seen| != |g.roster.operators| then g1 else StartRelinearization(x, g1))
  }

  /** Finishes the public key, draws the relinearization randomness and starts gathering its shares. */
  function StartRelinearization(x: Scheme, g: Aggregator): Aggregator
    requires g.stream.Some?
  {
    var s := g.stream.value;
    g.(publicKey := Some((g.publicShares.sum, g.crp)), crp := DrawNow(x, s), stream := Some(Advance(s)),
       relinOne := NO_PAIRS_YET, relinTwo := NO_PAIRS_YET, stage := RelinOneRound)
  }

  function AddPair(a: (int, int), b: (int, int)): (int, int) {
    (a.0 + b.0, a.1 + b.1)
  }

  function AcceptRelinOne(g: Aggregator, point: int, wire: (int, int)): Option<Aggregator> {
    if !g.stage.RelinOneRound? || !Fresh(g.roster, point, g.relinOne.seen) then None
    else
      var got := GatheredPair(g.relinOne.seen + {point}, AddPair(g.relinOne.sum, wire));
      Some(g.(relinOne := got, stage := if |got.seen| == |g.roster.operators| then RelinTwoRound else g.stage))
  }

  function AggregatedRelinOne(g: Aggregator): Option<(int, int)> {
    if !g.stage.RelinTwoRound? then None else Some(g.relinOne.sum)
  }

  /** Draws the randomness of Galois element `galoisIndex` and starts gathering its shares. */
  function StartGalois(x: Scheme, g: Aggregator): Aggregator
    requires g.stream.Some?
  {
    g.(crp := DrawNow(x, g.stream.value), stream := Some(Advance(g.stream.value)), galoisShares := NONE_YET)
  }

  function AcceptRelinTwo(x: Scheme, g: Aggregator, point: int, wire: (int, int)): Option<Aggregator> {
    if !g.stage.RelinTwoRound? || !Fresh(g.roster, point, g.relinTwo.seen) || g.stream.None? then None
    else
      var got := GatheredPair(g.relinTwo.seen + {point}, AddPair(g.relinTwo.sum, wire));
      if |got.seen| != |g.roster.operators| then Some(g.(relinTwo := got))
      else Some(StartGalois(x, g.(relinTwo := got, relinKey := Some((got.sum.0 + got.sum.1, g.relinOne.sum.1)), stage := GaloisRound)))
  }

  function CurrentGalois(x: Scheme, g: Aggregator): Option<int>
    requires ValidScheme(x)
  {
    if !g.stage.GaloisRound? || g.complete || g.galoisIndex >= ROTATIONS then None else Some(x.elements[g.galoisIndex])
  }

  function AcceptGaloisShare(x: Scheme, g: Aggregator, point: int, element: int, wire: int): Option<Aggregator>
    requires ValidScheme(x)
  {
    if CurrentGalois(x, g).None? || !Fresh(g.roster, point, g.galoisShares.seen) || g.stream.None? ||
       element != x.elements[g.galoisIndex] then None
    else
      var got := Gathered(g.galoisShares.seen + {point}, g.galoisShares.sum + wire);
      if |got.seen| != |g.roster.operators| then Some(g.(galoisShares := got))
      else
        var g1 := g.(galoisShares := got, galoisKeys := g.galoisKeys + [(got.sum, g.crp)], galoisIndex := g.galoisIndex + 1);
        Some(if g1.galoisIndex == ROTATIONS then g1.(complete := true) else StartGalois(x, g1))
  }

  function Complete(g: Aggregator): bool {
    g.complete && g.publicKey.Some? && g.relinKey.Some?
  }

  function KeyDigests(g: Aggregator, policyId: int): Option<Digests> {
    if !Complete(g) || g.roster.fingerprint == 0 || policyId == 0 then None
    else Some(Digests(Some(Seed(g.roster, g.contributions)), g.publicKey, g.relinKey, Some(g.galoisKeys), Some(policyId)))
  }

  datatype Delivery =
    | DeliverContribution(point: int, value: int)
    | DeliverSealCrs
    | DeliverPublicKey(point: int, wire: int)
    | DeliverRelinOne(point: int, pair: (int, int))
    | DeliverRelinTwo(point: int, pair: (int, int))
    | DeliverGalois(point: int, element: int, wire: int)

  function Gather(x: Scheme, g: Aggregator, d: Delivery): Aggregator
    requires ValidScheme(x)
  {
    match d
    case DeliverContribution(point, value) => Or(AggregatorAcceptContribution(g, point, value), g)
    case DeliverSealCrs => Or(AggregatorSealCrs(x, g), g)
    case DeliverPublicKey(point, wire) => Or(AcceptPublicKeyShare(x, g, point, wire), g)
    case DeliverRelinOne(point, pair) => Or(AcceptRelinOne(g, point, pair), g)
    case DeliverRelinTwo(point, pair) => Or(AcceptRelinTwo(x, g, point, pair), g)
    case DeliverGalois(point, element, wire) => Or(AcceptGaloisShare(x, g, point, element, wire), g)
  }

  function Deliveries(x: Scheme, g: Aggregator, ds: seq<Delivery>): Aggregator
    requires ValidScheme(x)
  {
    if ds == [] then g else Gather(x, Deliveries(x, g, ds[..|ds| - 1]), ds[|ds| - 1])
  }

  /** How many draws the aggregator has taken, by stage. */
  function DrawnByAggregator(g: Aggregator): nat {
    match g.stage
    case PublicKeyRound => 1
    case RelinOneRound => 2
    case RelinTwoRound => 2
    case GaloisRound => if g.complete then 2 + g.galoisIndex else 3 + g.galoisIndex
    case _ => 0
  }

  /** The key whose shares are being gathered. */
  function Gathering(g: Aggregator): Key {
    match g.stage
    case RelinOneRound => RelinearizationKeyOf
    case RelinTwoRound => RelinearizationKeyOf
    case GaloisRound => GaloisKeyOf(g.galoisIndex)
    case _ => PublicKeyOf
  }

  /** The randomness in hand, and in every finished key, is the draw that belongs to that key. */
  ghost predicate AggregatorInv(x: Scheme, g: Aggregator) {
    var seed := Seed(g.roster, g.contributions);
    && (g.stage.Contributing? || g.stage.PublicKeyRound? || g.stage.RelinOneRound? || g.stage.RelinTwoRound? || g.stage.GaloisRound?)
    && (g.stream.Some? <==> !g.stage.Contributing?)
    && (g.stream.Some? ==> g.stream.value == Stream(seed, DrawnByAggregator(g)))
    && (g.stream.Some? && !g.complete ==> g.crp == x.draw(seed, DrawOf(Gathering(g))))
    && (g.complete ==> g.stage.GaloisRound?) && (g.complete <==> g.galoisIndex == ROTATIONS) && g.galoisIndex <= ROTATIONS
    && (Rank(g.stage) < 5 ==> g.galoisIndex == 0)
    && |g.galoisKeys| == g.galoisIndex
    && (g.publicKey.Some? <==> Rank(g.stage) >= 3)
    && (g.publicKey.Some? ==> g.publicKey.value.1 == x.draw(seed, DrawOf(PublicKeyOf)))
    && (forall i :: 0 <= i < g.galoisIndex ==> g.galoisKeys[i].1 == x.draw(seed, DrawOf(GaloisKeyOf(i))))
    && (g.relinKey.Some? <==> g.stage.GaloisRound?)
  }

  lemma {:induction false} GatherEarlyKeeps(x: Scheme, g: Aggregator, d: Delivery)
    requires ValidScheme(x) && AggregatorInv(x, g)
    requires d.DeliverContribution? || d.DeliverSealCrs? || d.DeliverPublicKey?
    ensures AggregatorInv(x, Gather(x, g, d)) && Rank(g.stage) <= Rank(Gather(x, g, d).stage)
  {
  }

  lemma {:induction false} GatherRelinKeeps(x: Scheme, g: Aggregator, d: Delivery)
    requires ValidScheme(x) && AggregatorInv(x, g) && (d.DeliverRelinOne? || d.DeliverRelinTwo?)
    ensures AggregatorInv(x, Gather(x, g, d)) && Rank(g.stage) <= Rank(Gather(x, g, d).stage)
  {
  }

  lemma {:induction false} GatherGaloisKeeps(x: Scheme, g: Aggregator, d: Delivery)
    requires ValidScheme(x) && AggregatorInv(x, g) && d.DeliverGalois?
    ensures AggregatorInv(x, Gather(x, g, d)) && Rank(g.stage) <= Rank(Gather(x, g, d).stage)
  {
  }

  lemma {:induction false} GatherKeeps(x: Scheme, g: Aggregator, d: Delivery)
    requires ValidScheme(x) && AggregatorInv(x, g)
    ensures AggregatorInv(x, Gather(x, g, d)) && Rank(g.stage) <= Rank(Gather(x, g, d).stage)
  {
    if d.DeliverGalois? {
      GatherGaloisKeeps(x, g, d);
    } else if d.DeliverRelinOne? || d.DeliverRelinTwo? {
      GatherRelinKeeps(x, g, d);
    } else {
      GatherEarlyKeeps(x, g, d);
    }
  }

  /** The aggregator, whatever is delivered to it: the randomness of every key is the draw that belongs to it. */
  lemma {:induction false} AggregatorRun(x: Scheme, r: Roster, ds: seq<Delivery>)
    requires ValidScheme(x)
    ensures AggregatorInv(x, Deliveries(x, NewAggregator(r), ds)) && Deliveries(x, NewAggregator(r), ds).roster == r
  {
    if ds != [] {
      AggregatorRun(x, r, ds[..|ds| - 1]);
      GatherKeeps(x, Deliveries(x, NewAggregator(r), ds[..|ds| - 1]), ds[|ds| - 1]);
    }
  }

  /** Over every run and every continuation: stages only advance, and finished keys never change. */
  lemma {:induction false} StagesOnlyAdvance(x: Scheme, r: Roster, ds: seq<Delivery>, more: seq<Delivery>)
    requires ValidScheme(x)
    ensures var g, g' := Deliveries(x, NewAggregator(r), ds), Deliveries(x, NewAggregator(r), ds + more);
            && Rank(g.stage) <= Rank(g'.stage) && g.galoisIndex <= g'.galoisIndex && (g.complete ==> g'.complete)
            && Persists(g.publicKey, g'.publicKey) && Persists(g.relinKey, g'.relinKey) && g.galoisKeys <= g'.galoisKeys
            && (g.stream.Some? ==> g'.contributions == g.contributions)
  {
    if more == [] {
      assert ds + more == ds;
    } else {
      var n := |more| - 1;
      StagesOnlyAdvance(x, r, ds, more[..n]);
      AggregatorRun(x, r, ds);
      AggregatorRun(x, r, ds + more[..n]);
      assert (ds + more)[..|ds + more| - 1] == ds + more[..n];
      GatherAdvances(x, Deliveries(x, NewAggregator(r), ds + more[..n]), more[n]);
    }
  }

  lemma {:induction false} GatherAdvances(x: Scheme, g: Aggregator, d: Delivery)
    requires ValidScheme(x) && AggregatorInv(x, g)
    ensures var g' := Gather(x, g, d);
            && Rank(g.stage) <= Rank(g'.stage) && g.galoisIndex <= g'.galoisIndex && (g.complete ==> g'.complete)
            && Persists(g.publicKey, g'.publicKey) && Persists(g.relinKey, g'.relinKey) && g.galoisKeys <= g'.galoisKeys
            && (g.stream.Some? ==> g'.contributions == g.contributions && g'.stream.Some?)
  {
    GatherKeeps(x, g, d);
  }

  /**
   Lockstep. Any operator and the aggregator, under any two histories of calls: once both hold the same
   contributions, the randomness the operator used for a key is the randomness the aggregator put into it.
   */
  lemma {:induction false} LockstepDraws(x: Scheme, m: Member, cs: seq<Call>, ds: seq<Delivery>)
    requires ValidScheme(x)
    requires var t, g := Calls(x, Traced(NewOperator(m), map[]), cs), Deliveries(x, NewAggregator(m.roster), ds);
             t.op.contributions == g.contributions
    ensures var t, g := Calls(x, Traced(NewOperator(m), map[]), cs), Deliveries(x, NewAggregator(m.roster), ds);
            && (PublicKeyOf in t.log && g.publicKey.Some? ==> DrawNow(x, t.log[PublicKeyOf]) == g.publicKey.value.1)
            && (forall i: nat :: GaloisKeyOf(i) in t.log && i < |g.galoisKeys| ==>
                  DrawNow(x, t.log[GaloisKeyOf(i)]) == g.galoisKeys[i].1)
            && (Gathering(g) in t.log && g.stream.Some? && !g.complete ==> DrawNow(x, t.log[Gathering(g)]) == g.crp)
  {
    OperatorRun(x, m, cs);
    AggregatorRun(x, m.roster, ds);
  }

  /** Two operators that were sealed with the same digests had the same contributions, hence the same stream. */
  lemma {:induction false} SealedTogether(o: Operator, p: Operator, d: Digests)
    requires OperatorInv(o) && OperatorInv(p)
    requires SealOperator(o, d).Some? && SealOperator(p, d).Some?
    ensures o.contributions == p.contributions && o.me.roster == p.me.roster
  {
  }
}
