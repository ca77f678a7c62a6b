/**
 The V5 policy circuit and what it decides. The circuit sees six ciphertexts and
 returns two: whether both pledges name one receivable, and whether they conflict.
 */
module PolicyCircuit {
  import opened Basics
  import opened SlotVectors
  import opened BitEncoding
  import opened ComparisonTree

  // ----- pledges and the policy in the clear

  type Id = s: seq<Byte> | |s| == ID_BYTES witness seq(ID_BYTES, i => 0)

  type Uint64 = x: int | 0 <= x < 0x1_0000_0000_0000_0000

  datatype Pledge = Pledge(activeFrom: Uint64, activeUntil: Uint64, exclusive: bool, currency: Id, receivable: Id)

  predicate PlainSameAsset(a: Pledge, b: Pledge) {
    a.receivable == b.receivable
  }

  predicate PlainConflict(a: Pledge, b: Pledge) {
    && a.receivable == b.receivable
    && a.currency == b.currency
    && a.activeFrom < b.activeUntil && b.activeFrom < a.activeUntil
    && a.exclusive && b.exclusive
  }

  // ----- encoding

  datatype CipherPledge = CipherPledge(policyBits: Cipher, currencyBits: Cipher, receivableBits: Cipher)

  function Zeros(n: nat): (s: seq<Residue>)
    ensures |s| == n
  {
    seq(n, i => 0)
  }

  function PolicyVector(p: Pledge): (s: seq<Residue>)
    ensures |s| == SLOTS
  {
    BitsOf(p.activeFrom, UINT64_BITS) + BitsOf(p.activeUntil, UINT64_BITS) + [Bit(p.exclusive)]
    + Zeros(SLOTS - EXCLUSIVE_SLOT - 1)
  }

  function IdVector(id: Id): (s: seq<Residue>)
    ensures |s| == SLOTS
  {
    BytesBits(id) + Zeros(SLOTS - ID_BITS)
  }

  function Encode(p: Pledge): CipherPledge {
    CipherPledge(Fresh(PolicyVector(p)), Fresh(IdVector(p.currency)), Fresh(IdVector(p.receivable)))
  }

  lemma {:induction false} Pow2Of64()
    ensures Pow2(UINT64_BITS) == 0x1_0000_0000_0000_0000
  {
    assert Pow2(8) == 256;
    assert Pow2(16) == 65536 by { Pow2Add(8, 8); }
    assert Pow2(32) == 0x1_0000_0000 by { Pow2Add(16, 16); }
    Pow2Add(32, 32);
  }

  lemma {:induction false} PolicyBufferLayout(f: seq<Residue>, u: seq<Residue>, flag: Residue)
    requires |f| == |u| == UINT64_BITS
    ensures Spliced(Spliced(Constant(0), FROM_START, f), UNTIL_START, u)[EXCLUSIVE_SLOT := flag]
         == f + u + [flag] + Zeros(SLOTS - EXCLUSIVE_SLOT - 1)
  {
  }

  method EncodePolicyBits(p: Pledge) returns (s: seq<Residue>)
    ensures s == PolicyVector(p)
  {
    Pow2Of64();
    var policy: array<Residue> := new Residue[SLOTS](i => 0);
    assert policy[..] == Constant(0);
    WriteUint64Bits(policy, FROM_START, p.activeFrom);
    WriteUint64Bits(policy, UNTIL_START, p.activeUntil);
    ghost var written := policy[..];
    policy[EXCLUSIVE_SLOT] := Bit(p.exclusive);
    s := policy[..];
    assert s == written[EXCLUSIVE_SLOT := Bit(p.exclusive)];
    PolicyBufferLayout(BitsOf(p.activeFrom, UINT64_BITS), BitsOf(p.activeUntil, UINT64_BITS), Bit(p.exclusive));
  }

  method EncodeIdBits(id: Id) returns (s: seq<Residue>)
    ensures s == IdVector(id)
  {
    var buffer: array<Residue> := new Residue[SLOTS](i => 0);
    WriteBytesBits(buffer, 0, id);
    s := buffer[..];
  }

  /** A submission in the clear: the terms the policy reads, and what travels with them. */
  datatype PlainPledge = PlainPledge(
    terms: Pledge, amount: Uint256, obligation: Id, receivableCommitment: Id, authorization: Id, metadata: Id)

  type Uint256 = s: seq<Uint64> | |s| == 4 witness [0, 0, 0, 0]

  /** The five ciphertexts of a submission and its public commitments; the identifier travels encrypted in one mode only. */
  datatype EncryptedPledge = EncryptedPledge(
    policyBits: Cipher, currencyBits: Cipher, amountBits: Cipher, obligationBits: Cipher, receivableBits: Option<Cipher>,
    receivableCommitment: Id, authorization: Id, metadata: Id)

  function ZeroId(): Id {
    seq(ID_BYTES, i => 0)
  }

  /** validatePlainPledge */
  predicate ValidPlainPledge(p: PlainPledge, mode: IdentityMode) {
    && p.terms.activeFrom < p.terms.activeUntil && p.amount != [0, 0, 0, 0]
    && p.terms.currency != ZeroId() && p.obligation != ZeroId() && p.terms.receivable != ZeroId()
    && p.authorization != ZeroId() && p.metadata != ZeroId()
    && (mode == PublicCommitment <==> p.receivableCommitment != ZeroId())
  }

  /** Some byte of the identifier is not zero. */
  predicate Names(id: Id) {
    exists k :: 0 <= k < ID_BYTES && id[k] != 0
  }

  lemma {:induction false} NonzeroNames(id: Id)
    ensures id != ZeroId() <==> Names(id)
  {
    if !Names(id) {
      assert id == ZeroId();
    }
  }

  lemma {:induction false} NonzeroAmount(amount: Uint256)
    ensures amount != [0, 0, 0, 0] <==> LimbNumber(amount) > 0
  {
    var s := amount;
    assert s[..3][..2] == s[..2] && s[..2][..1] == s[..1] && s[..1][..0] == [];
    assert LimbNumber(s[..1]) == s[0];
    assert LimbNumber(s[..2]) == LimbNumber(s[..1]) * 0x1_0000_0000_0000_0000 + s[1];
    assert LimbNumber(s[..3]) == LimbNumber(s[..2]) * 0x1_0000_0000_0000_0000 + s[2];
    if LimbNumber(s) == 0 {
      assert s == [s[0], s[1], s[2], s[3]];
    }
  }

  /**
   Which submissions are encrypted: a window that is not empty, a positive amount, and identifiers, authorization and
   metadata that are not all zero bytes; the receivable's commitment is there in the public mode and absent in the other.
   */
  lemma {:induction false} ValidPlainExactly(p: PlainPledge, mode: IdentityMode)
    ensures ValidPlainPledge(p, mode) <==>
              && p.terms.activeFrom < p.terms.activeUntil && LimbNumber(p.amount) > 0
              && Names(p.terms.currency) && Names(p.obligation) && Names(p.terms.receivable) && Names(p.authorization) && Names(p.metadata)
              && (Names(p.receivableCommitment) <==> mode == PublicCommitment)
  {
    NonzeroAmount(p.amount);
    NonzeroNames(p.terms.currency);
    NonzeroNames(p.obligation);
    NonzeroNames(p.terms.receivable);
    NonzeroNames(p.authorization);
    NonzeroNames(p.metadata);
    NonzeroNames(p.receivableCommitment);
  }

  function AmountVector(amount: Uint256): (s: seq<Residue>)
    ensures |s| == SLOTS
  {
    LimbBits(amount) + Zeros(SLOTS - 4 * UINT64_BITS)
  }

  method EncodeAmountBits(amount: Uint256) returns (s: seq<Residue>)
    ensures s == AmountVector(amount)
  {
    Pow2Of64();
    var buffer: array<Residue> := new Residue[SLOTS](i => 0);
    WriteUint256Bits(buffer, 0, amount);
    s := buffer[..];
  }

  /** What a valid submission encrypts to. */
  function Encrypted(p: PlainPledge, mode: IdentityMode): EncryptedPledge {
    var c := Encode(p.terms);
    EncryptedPledge(c.policyBits, c.currencyBits, Fresh(AmountVector(p.amount)), Fresh(IdVector(p.obligation)),
                    if mode == FullFhe256 then Some(c.receivableBits) else None,
                    p.receivableCommitment, p.authorization, p.metadata)
  }

  /** Validates, fills one zeroed buffer per ciphertext with the bit writers, then encrypts. */
  method EncryptPledge(p: PlainPledge, mode: IdentityMode) returns (r: Result<EncryptedPledge>)
    ensures r.Ok? <==> ValidPlainPledge(p, mode)
    ensures r.Ok? ==> r.value == Encrypted(p, mode)
    ensures r.Ok? ==>
      r.value.receivableCommitment == p.receivableCommitment && r.value.authorization == p.authorization && r.value.metadata == p.metadata
  {
    if p.terms.activeFrom >= p.terms.activeUntil || p.amount == [0, 0, 0, 0] || p.terms.currency == ZeroId() ||
       p.obligation == ZeroId() || p.terms.receivable == ZeroId() || p.authorization == ZeroId() || p.metadata == ZeroId() {
      return Err;
    }
    if mode == PublicCommitment && p.receivableCommitment == ZeroId() {
      return Err;
    }
    if mode == FullFhe256 && p.receivableCommitment != ZeroId() {
      return Err;
    }
    var policy := EncodePolicyBits(p.terms);
    var currency := EncodeIdBits(p.terms.currency);
    var amount := EncodeAmountBits(p.amount);
    var obligation := EncodeIdBits(p.obligation);
    var receivable := EncodeIdBits(p.terms.receivable);
    r := Ok(EncryptedPledge(Fresh(policy), Fresh(currency), Fresh(amount), Fresh(obligation),
                            if mode == FullFhe256 then Some(Fresh(receivable)) else None,
                            p.receivableCommitment, p.authorization, p.metadata));
  }

  // ----- the circuit

  datatype Outputs = Outputs(sameAsset: Cipher, conflict: Cipher)

  /** Block 0 compares A.from with B.until, block 1 compares B.from with A.until. */
  function LeftOperand(a: Cipher, b: Cipher): Cipher {
    AddNew(KeepSpan(a, FROM_START, UINT64_BITS), RotateColumns(KeepSpan(b, FROM_START, UINT64_BITS), -64))
  }

  function RightOperand(a: Cipher, b: Cipher): Cipher {
    AddNew(RotateColumns(KeepSpan(b, UNTIL_START, UINT64_BITS), 64), KeepSpan(a, UNTIL_START, UINT64_BITS))
  }

  function Overlap(a: Cipher, b: Cipher): Cipher {
    BothVerdicts(LessTree(LeftOperand(a, b), RightOperand(a, b), BLOCKS * UINT64_BITS, 6))
  }

  function BothVerdicts(less: Cipher): Cipher {
    MulBoolean(KeepFirst(less), KeepFirst(RotateColumns(less, 64)))
  }

  function AllFlags(a: Cipher, b: Cipher): Cipher {
    KeepFirst(RotateColumns(KeepSpan(MulBoolean(a, b), EXCLUSIVE_SLOT, 1), EXCLUSIVE_SLOT))
  }

  function FinalAnd(overlap: Cipher, flags: Cipher, currency: Cipher, identity: Cipher): Cipher {
    MulBoolean(MulBoolean(overlap, flags), MulBoolean(currency, identity))
  }

  function CircuitV5(a: CipherPledge, b: CipherPledge): Outputs {
    var currencyEqual := Equal256Of(a.currencyBits, b.currencyBits);
    var identityEqual := Equal256Of(a.receivableBits, b.receivableBits);
    Outputs(identityEqual,
            FinalAnd(Overlap(a.policyBits, b.policyBits), AllFlags(a.policyBits, b.policyBits),
                     currencyEqual, identityEqual))
  }

  // ----- what the circuit computes on arbitrary vectors

  function WindowProduct(a: Cipher, b: Cipher): Residue {
    Mul(LessOf(Segment(a, FROM_START, UINT64_BITS), Segment(b, UNTIL_START, UINT64_BITS)),
        LessOf(Segment(b, FROM_START, UINT64_BITS), Segment(a, UNTIL_START, UINT64_BITS)))
  }

  function IdProduct(a: Cipher, b: Cipher): Residue {
    EqualOf(Segment(a, 0, ID_BITS), Segment(b, 0, ID_BITS))
  }

  ghost predicate OnlySlotZero(c: Cipher) {
    forall i :: 0 < i < SLOTS ==> c.slots[i] == 0
  }

  /** The layout moves the four 64-bit fields to their blocks, whatever the slots hold. */
  lemma {:induction false} LayoutSegments(a: Cipher, b: Cipher)
    ensures Segment(LeftOperand(a, b), 0, 64) == Segment(a, FROM_START, 64)
    ensures Segment(LeftOperand(a, b), 64, 64) == Segment(b, FROM_START, 64)
    ensures Segment(RightOperand(a, b), 0, 64) == Segment(b, UNTIL_START, 64)
    ensures Segment(RightOperand(a, b), 64, 64) == Segment(a, UNTIL_START, 64)
  {
  }

  lemma {:induction false} OverlapValue(a: Cipher, b: Cipher)
    ensures Overlap(a, b).slots[0] == WindowProduct(a, b)
  {
    var l, r := LeftOperand(a, b), RightOperand(a, b);
    assert Pow2(6) == 64;
    TreeHolds(l, r, BLOCKS * UINT64_BITS, 6);
    LayoutSegments(a, b);
    var less := LessTree(l, r, BLOCKS * UINT64_BITS, 6);
    assert Starts(0, 64, 128) && Starts(64, 64, 128);
    assert less.slots[0] == LessOf(Segment(l, 0, 64), Segment(r, 0, 64));
    assert less.slots[64] == LessOf(Segment(l, 64, 64), Segment(r, 64, 64));
    assert Source(0, 64) == 64;
  }

  lemma {:induction false} FlagsValue(a: Cipher, b: Cipher)
    ensures AllFlags(a, b).slots[0] == Mul(a.slots[EXCLUSIVE_SLOT], b.slots[EXCLUSIVE_SLOT])
  {
    assert Source(0, EXCLUSIVE_SLOT) == EXCLUSIVE_SLOT;
  }

  lemma {:induction false} Equal256Value(a: Cipher, b: Cipher)
    ensures Equal256Of(a, b).slots[0] == IdProduct(a, b)
    ensures OnlySlotZero(Equal256Of(a, b))
  {
    assert Pow2(8) == 256;
    TreeHolds(a, b, ID_BITS, 8);
    assert Starts(0, 256, ID_BITS);
  }

  /** Both outputs in closed form, for any six slot vectors. */
  lemma {:induction false} CircuitValue(a: CipherPledge, b: CipherPledge)
    ensures var out := CircuitV5(a, b);
            && out.sameAsset.slots[0] == IdProduct(a.receivableBits, b.receivableBits)
            && out.conflict.slots[0] ==
               Mul(Mul(WindowProduct(a.policyBits, b.policyBits),
                       Mul(a.policyBits.slots[EXCLUSIVE_SLOT], b.policyBits.slots[EXCLUSIVE_SLOT])),
                   Mul(IdProduct(a.currencyBits, b.currencyBits), IdProduct(a.receivableBits, b.receivableBits)))
            && OnlySlotZero(out.sameAsset) && OnlySlotZero(out.conflict)
  {
    OverlapValue(a.policyBits, b.policyBits);
    FlagsValue(a.policyBits, b.policyBits);
    Equal256Value(a.currencyBits, b.currencyBits);
    Equal256Value(a.receivableBits, b.receivableBits);
    FinalAndValue(Overlap(a.policyBits, b.policyBits), AllFlags(a.policyBits, b.policyBits),
                  Equal256Of(a.currencyBits, b.currencyBits), Equal256Of(a.receivableBits, b.receivableBits));
  }

  lemma {:induction false} FinalAndValue(overlap: Cipher, flags: Cipher, currency: Cipher, identity: Cipher)
    requires OnlySlotZero(identity)
    ensures var out := FinalAnd(overlap, flags, currency, identity);
            && out.slots[0] == Mul(Mul(overlap.slots[0], flags.slots[0]), Mul(currency.slots[0], identity.slots[0]))
            && OnlySlotZero(out)
  {
    var out := FinalAnd(overlap, flags, currency, identity);
    forall i | 0 < i < SLOTS
      ensures out.slots[i] == 0
    {
      MulZero(currency.slots[i]);
      MulZero(Mul(overlap.slots[i], flags.slots[i]));
    }
  }

  lemma {:induction false} MulZero(x: Residue)
    ensures Mul(x, 0) == 0 && Mul(0, x) == 0
  {
  }

  /**
   For arbitrary inputs, honest or not: only slot 0 can carry anything, a zero identity bit
   forces a zero conflict bit, and exchanging the two sides changes neither output vector.
   */
  lemma {:induction false} ArbitraryInputs(a: CipherPledge, b: CipherPledge)
    ensures var out := CircuitV5(a, b);
            && OnlySlotZero(out.sameAsset) && OnlySlotZero(out.conflict)
            && (out.sameAsset.slots[0] == 0 ==> out.conflict.slots[0] == 0)
    ensures CircuitV5(a, b).sameAsset.slots == CircuitV5(b, a).sameAsset.slots
    ensures CircuitV5(a, b).conflict.slots == CircuitV5(b, a).conflict.slots
  {
    CircuitValue(a, b);
    CircuitValue(b, a);
    MulZero(IdProduct(a.currencyBits, b.currencyBits));
    MulZero(Mul(WindowProduct(a.policyBits, b.policyBits),
                Mul(a.policyBits.slots[EXCLUSIVE_SLOT], b.policyBits.slots[EXCLUSIVE_SLOT])));
    EqualOfSymmetric(Segment(a.receivableBits, 0, ID_BITS), Segment(b.receivableBits, 0, ID_BITS));
    EqualOfSymmetric(Segment(a.currencyBits, 0, ID_BITS), Segment(b.currencyBits, 0, ID_BITS));
    MulCommutes(a.policyBits.slots[EXCLUSIVE_SLOT], b.policyBits.slots[EXCLUSIVE_SLOT]);
    MulCommutes(LessOf(Segment(a.policyBits, FROM_START, UINT64_BITS), Segment(b.policyBits, UNTIL_START, UINT64_BITS)),
                LessOf(Segment(b.policyBits, FROM_START, UINT64_BITS), Segment(a.policyBits, UNTIL_START, UINT64_BITS)));
    SameSlots(CircuitV5(a, b).sameAsset, CircuitV5(b, a).sameAsset);
    SameSlots(CircuitV5(a, b).conflict, CircuitV5(b, a).conflict);
  }

  lemma {:induction false} SameSlots(x: Cipher, y: Cipher)
    requires OnlySlotZero(x) && OnlySlotZero(y) && x.slots[0] == y.slots[0]
    ensures x.slots == y.slots
  {
  }

  // ----- what the circuit decides on honest encodings

  lemma {:induction false} PolicySegments(p: Pledge)
    ensures var c := Fresh(PolicyVector(p));
            && Segment(c, FROM_START, UINT64_BITS) == BitsOf(p.activeFrom, UINT64_BITS)
            && Segment(c, UNTIL_START, UINT64_BITS) == BitsOf(p.activeUntil, UINT64_BITS)
            && c.slots[EXCLUSIVE_SLOT] == Bit(p.exclusive)
  {
  }

  lemma {:induction false} MulBits(p: bool, q: bool)
    ensures Mul(Bit(p), Bit(q)) == Bit(p && q)
  {
  }

  lemma {:induction false} WindowsDecided(a: Pledge, b: Pledge)
    ensures WindowProduct(Encode(a).policyBits, Encode(b).policyBits)
         == Bit(a.activeFrom < b.activeUntil && b.activeFrom < a.activeUntil)
  {
    PolicySegments(a);
    PolicySegments(b);
    var x, y := Encode(a).policyBits, Encode(b).policyBits;
    LessDecided(Segment(x, FROM_START, UINT64_BITS), Segment(y, UNTIL_START, UINT64_BITS), a.activeFrom, b.activeUntil);
    LessDecided(Segment(y, FROM_START, UINT64_BITS), Segment(x, UNTIL_START, UINT64_BITS), b.activeFrom, a.activeUntil);
    MulBits(a.activeFrom < b.activeUntil, b.activeFrom < a.activeUntil);
  }

  lemma {:induction false} LessDecided(l: seq<Residue>, r: seq<Residue>, x: Uint64, y: Uint64)
    requires l == BitsOf(x, UINT64_BITS) && r == BitsOf(y, UINT64_BITS)
    ensures LessOf(l, r) == Bit(x < y)
  {
    Pow2Of64();
    BitsRoundTrip(x, UINT64_BITS);
    BitsRoundTrip(y, UINT64_BITS);
    VerdictsOnBits(l, r);
  }

  lemma {:induction false} IdDecided(x: Id, y: Id)
    ensures IdProduct(Fresh(IdVector(x)), Fresh(IdVector(y))) == Bit(x == y)
  {
    var p, q := BytesBits(x), BytesBits(y);
    assert Segment(Fresh(IdVector(x)), 0, ID_BITS) == p;
    assert Segment(Fresh(IdVector(y)), 0, ID_BITS) == q;
    BytesBitsInjective(x, y);
    BytesBitsInjective(y, x);
    VerdictsOnBits(p, q);
    ValueInjective(p, q);
  }

  lemma {:induction false} AndOfBits(w: bool, e: bool, f: bool, c: bool, i: bool)
    ensures Mul(Mul(Bit(w), Mul(Bit(e), Bit(f))), Mul(Bit(c), Bit(i))) == Bit(w && e && f && c && i)
  {
  }

  /** The circuit computes the plain policy: both output vectors are exactly the two decisions. */
  lemma {:induction false} CircuitDecidesPolicy(a: Pledge, b: Pledge)
    ensures var out := CircuitV5(Encode(a), Encode(b));
            && out.sameAsset.slots == [Bit(PlainSameAsset(a, b))] + Zeros(SLOTS - 1)
            && out.conflict.slots == [Bit(PlainConflict(a, b))] + Zeros(SLOTS - 1)
  {
    CircuitValue(Encode(a), Encode(b));
    WindowsDecided(a, b);
    IdDecided(a.currency, b.currency);
    IdDecided(a.receivable, b.receivable);
    PolicySegments(a);
    PolicySegments(b);
    AndOfBits(a.activeFrom < b.activeUntil && b.activeFrom < a.activeUntil, a.exclusive, b.exclusive,
              a.currency == b.currency, a.receivable == b.receivable);
    SlotsAre(CircuitV5(Encode(a), Encode(b)).sameAsset, Bit(PlainSameAsset(a, b)));
    SlotsAre(CircuitV5(Encode(a), Encode(b)).conflict, Bit(PlainConflict(a, b)));
  }

  lemma {:induction false} SlotsAre(c: Cipher, x: Residue)
    requires OnlySlotZero(c) && c.slots[0] == x
    ensures c.slots == [x] + Zeros(SLOTS - 1)
  {
  }

  // ----- the V4 evaluator's two identity modes

  datatype IdentityMode = PublicCommitment | FullFhe256

  function MulScalar(a: Cipher, k: Residue): Cipher {
    Ciphertext(seq(SLOTS, i requires 0 <= i < SLOTS => Mul(a.slots[i], k)), a.depth, a.steps)
  }

  /** Under public commitments the identity is compared in the clear and the result zeroed when it differs. */
  function EvaluateV4(mode: IdentityMode, a: CipherPledge, b: CipherPledge, commitmentA: Id, commitmentB: Id): Cipher {
    var overlapAndFlags := MulBoolean(Overlap(a.policyBits, b.policyBits), AllFlags(a.policyBits, b.policyBits));
    var currencyEqual := Equal256Of(a.currencyBits, b.currencyBits);
    if mode.FullFhe256? then
      MulBoolean(overlapAndFlags, MulBoolean(currencyEqual, Equal256Of(a.receivableBits, b.receivableBits)))
    else
      var conflict := MulBoolean(overlapAndFlags, currencyEqual);
      if commitmentA == commitmentB then conflict else MulScalar(conflict, 0)
  }

  /** The parts of the policy that are compared under encryption in both modes. */
  predicate TermsConflict(a: Pledge, b: Pledge) {
    && a.currency == b.currency
    && a.activeFrom < b.activeUntil && b.activeFrom < a.activeUntil
    && a.exclusive && b.exclusive
  }

  lemma {:induction false} GatedAnd(w: bool, e: bool, f: bool, c: bool, gate: bool)
    ensures Mul(Mul(Mul(Bit(w), Mul(Bit(e), Bit(f))), Bit(c)), Bit(gate)) == Bit(w && e && f && c && gate)
    ensures Mul(Mul(Bit(w), Mul(Bit(e), Bit(f))), Bit(c)) == Bit(w && e && f && c)
  {
  }

  /** With encrypted identities V4 returns the very ciphertext of V5; with public ones it trusts the commitments. */
  lemma {:induction false} EvaluateV4Decides(a: Pledge, b: Pledge, commitmentA: Id, commitmentB: Id)
    ensures EvaluateV4(FullFhe256, Encode(a), Encode(b), commitmentA, commitmentB)
         == CircuitV5(Encode(a), Encode(b)).conflict
    ensures EvaluateV4(PublicCommitment, Encode(a), Encode(b), commitmentA, commitmentB).slots[0]
         == Bit(commitmentA == commitmentB && TermsConflict(a, b))
  {
    var x, y := Encode(a), Encode(b);
    OverlapValue(x.policyBits, y.policyBits);
    FlagsValue(x.policyBits, y.policyBits);
    Equal256Value(x.currencyBits, y.currencyBits);
    WindowsDecided(a, b);
    IdDecided(a.currency, b.currency);
    PolicySegments(a);
    PolicySegments(b);
    GatedAnd(a.activeFrom < b.activeUntil && b.activeFrom < a.activeUntil, a.exclusive, b.exclusive,
             a.currency == b.currency, commitmentA == commitmentB);
  }

  /** So the public mode decides the policy exactly when the commitments agree as the receivables do, or the terms settle it. */
  lemma {:induction false} PublicModeExact(a: Pledge, b: Pledge, commitmentA: Id, commitmentB: Id)
    ensures EvaluateV4(PublicCommitment, Encode(a), Encode(b), commitmentA, commitmentB).slots[0] == Bit(PlainConflict(a, b))
       <==> !TermsConflict(a, b) || (commitmentA == commitmentB <==> a.receivable == b.receivable)
  {
    EvaluateV4Decides(a, b, commitmentA, commitmentB);
  }

  // ----- from submissions to decisions

  /** What a submission hands to the circuit when its identifier travels encrypted. */
  function CircuitSide(e: EncryptedPledge, receivable: Cipher): CipherPledge {
    CipherPledge(e.policyBits, e.currencyBits, receivable)
  }

  /**
   What two participants submit decides what their plain terms decide. With encrypted identifiers both outputs are the
   policy's answers; with public ones the older evaluation gives the terms' answer gated by the submitted commitments,
   whatever stands in the place of the absent identifier.
   */
  lemma {:induction false} SubmissionsDecidePolicy(a: PlainPledge, b: PlainPledge, r: Cipher, r': Cipher)
    ensures var ea, eb := Encrypted(a, FullFhe256), Encrypted(b, FullFhe256);
            ea.receivableBits.Some? && eb.receivableBits.Some? &&
            var out := CircuitV5(CircuitSide(ea, ea.receivableBits.value), CircuitSide(eb, eb.receivableBits.value));
            && out.sameAsset.slots == [Bit(a.terms.receivable == b.terms.receivable)] + Zeros(SLOTS - 1)
            && out.conflict.slots == [Bit(PlainConflict(a.terms, b.terms))] + Zeros(SLOTS - 1)
            && out.conflict.depth == POLICY_DEPTH && out.conflict.steps == ROTATION_STEPS
    ensures var ea, eb := Encrypted(a, PublicCommitment), Encrypted(b, PublicCommitment);
            && ea.receivableBits.None? && eb.receivableBits.None?
            && EvaluateV4(PublicCommitment, CircuitSide(ea, r), CircuitSide(eb, r'), ea.receivableCommitment, eb.receivableCommitment).slots[0]
               == Bit(a.receivableCommitment == b.receivableCommitment && TermsConflict(a.terms, b.terms))
  {
    CircuitDecidesPolicy(a.terms, b.terms);
    CircuitCost(Encode(a.terms), Encode(b.terms), 0);
    EvaluateV4Decides(a.terms, b.terms, a.receivableCommitment, b.receivableCommitment);
  }

  const LIMB: int := 0x1_0000_0000_0000_0000

  /** The amount vector spells the amount in its first 256 slots; the rest is zero. */
  lemma {:induction false} SubmissionAmount(p: PlainPledge, mode: IdentityMode)
    ensures var e := Encrypted(p, mode).amountBits;
            && Value(e.slots[..256]) == ((p.amount[0] * LIMB + p.amount[1]) * LIMB + p.amount[2]) * LIMB + p.amount[3]
            && (forall i :: 256 <= i < SLOTS ==> e.slots[i] == 0) && e.depth == 0 && e.steps == {}
  {
    var e := Encrypted(p, mode).amountBits;
    AmountSpelled(p.amount);
    assert e.slots[..256] == LimbBits(p.amount);
  }

  lemma {:induction false} AmountSpelled(amount: Uint256)
    ensures Value(LimbBits(amount)) == ((amount[0] * LIMB + amount[1]) * LIMB + amount[2]) * LIMB + amount[3]
  {
    Pow2Of64();
    LimbBitsValue(amount);
    var limbs: seq<nat> := amount;
    assert limbs[..3][..2] == limbs[..2] && limbs[..2][..1] == limbs[..1] && limbs[..1][..0] == [];
    assert LimbNumber(limbs[..1]) == limbs[0];
    assert LimbNumber(limbs[..2]) == limbs[0] * LIMB + limbs[1];
  }

  /** The obligation vector holds the obligation bit by bit, most significant first, and nothing else. */
  lemma {:induction false} SubmissionObligation(p: PlainPledge, mode: IdentityMode, i: nat, bit: nat, k: nat)
    requires i < ID_BYTES && bit < 8 && 8 * ID_BYTES <= k < SLOTS
    ensures var e := Encrypted(p, mode).obligationBits;
            e.slots[8 * i + bit] == (p.obligation[i] as int / Pow2(7 - bit)) % 2 && e.slots[k] == 0 && e.depth == 0 && e.steps == {}
  {
    ByteBitAt(p.obligation, i, bit);
  }

  /** So two obligation vectors are equal exactly when the obligations are. */
  lemma {:induction false} ObligationsCompare(a: PlainPledge, b: PlainPledge, mode: IdentityMode)
    ensures Encrypted(a, mode).obligationBits == Encrypted(b, mode).obligationBits <==> a.obligation == b.obligation
  {
    BytesBitsInjective(a.obligation, b.obligation);
    var x, y := BytesBits(a.obligation), BytesBits(b.obligation);
    assert IdVector(a.obligation)[..|x|] == x && IdVector(b.obligation)[..|y|] == y;
  }

  // ----- what the circuit costs

  const POLICY_DEPTH := 11
  const ROTATION_STEPS := {1, 2, 4, 8, 16, 32, 64, -64, 128}

  predicate AtDepth(p: CipherPledge, d: nat) {
    && p.policyBits.depth == p.currencyBits.depth == p.receivableBits.depth == d
    && p.policyBits.steps == p.currencyBits.steps == p.receivableBits.steps == {}
  }

  lemma {:induction false} StrideSets()
    ensures Strides(6) == {1, 2, 4, 8, 16, 32}
    ensures Strides(8) == {1, 2, 4, 8, 16, 32, 64, 128}
  {
    assert Pow2(3) == 8 && Pow2(5) == 32 && Pow2(7) == 128;
    assert Strides(3) == {1, 2, 4};
    assert Strides(6) == Strides(3) + {8, 16, 32};
  }

  lemma {:induction false} OperandCost(a: Cipher, b: Cipher)
    requires a.depth == b.depth && a.steps == b.steps == {}
    ensures LeftOperand(a, b).depth == RightOperand(a, b).depth == a.depth
    ensures LeftOperand(a, b).steps == {-64} && RightOperand(a, b).steps == {64}
  {
  }

  lemma {:induction false} BothVerdictsCost(less: Cipher)
    ensures BothVerdicts(less).depth == less.depth + 1
    ensures BothVerdicts(less).steps == less.steps + {64}
  {
  }

  lemma {:induction false} OverlapCost(a: Cipher, b: Cipher)
    requires a.depth == b.depth && a.steps == b.steps == {}
    ensures Overlap(a, b).depth == a.depth + 8
    ensures Overlap(a, b).steps == {-64} + {64} + Strides(6) + {64}
  {
    OperandCost(a, b);
    TreeCost(LeftOperand(a, b), RightOperand(a, b), BLOCKS * UINT64_BITS, 6);
    BothVerdictsCost(LessTree(LeftOperand(a, b), RightOperand(a, b), BLOCKS * UINT64_BITS, 6));
  }

  lemma {:induction false} Equal256Cost(a: Cipher, b: Cipher)
    requires a.depth == b.depth && a.steps == b.steps == {}
    ensures Equal256Of(a, b).depth == a.depth + 9
    ensures Equal256Of(a, b).steps == Strides(8)
  {
    TreeCost(a, b, ID_BITS, 8);
  }

  lemma {:induction false} FlagsCost(a: Cipher, b: Cipher)
    requires a.depth == b.depth && a.steps == b.steps == {}
    ensures AllFlags(a, b).depth == a.depth + 1 && AllFlags(a, b).steps == {EXCLUSIVE_SLOT}
  {
  }

  /** The whole circuit costs exactly `policyDepth` levels and needs exactly the published rotation keys. */
  lemma {:induction false} CircuitCost(a: CipherPledge, b: CipherPledge, d: nat)
    requires AtDepth(a, d) && AtDepth(b, d)
    ensures CircuitV5(a, b).conflict.depth == d + POLICY_DEPTH
    ensures CircuitV5(a, b).conflict.steps == ROTATION_STEPS
    ensures CircuitV5(a, b).sameAsset.depth == d + 9
    ensures CircuitV5(a, b).sameAsset.steps <= ROTATION_STEPS
  {
    OverlapCost(a.policyBits, b.policyBits);
    FlagsCost(a.policyBits, b.policyBits);
    Equal256Cost(a.currencyBits, b.currencyBits);
    Equal256Cost(a.receivableBits, b.receivableBits);
    StrideSets();
  }

  // ----- the recomputation as it runs

  /** A ciphertext as received: absent, or with a number of components and a ring degree of its own. */
  datatype Received = Nil | Polynomials(components: nat, ringDegree: nat, content: Cipher)

  datatype CircuitInputs = CircuitInputs(
    policyA: Received, policyB: Received,
    currencyA: Received, currencyB: Received,
    receivableA: Received, receivableB: Received)
  {
    function Ordered(): seq<Received> {
      [policyA, policyB, currencyA, currencyB, receivableA, receivableB]
    }

    /** No ciphertext is missing. */
    predicate Present() {
      !policyA.Nil? && !policyB.Nil? && !currencyA.Nil? && !currencyB.Nil? && !receivableA.Nil? && !receivableB.Nil?
    }

    predicate WellShaped() {
      forall x <- Ordered() :: x.Polynomials? && x.components == 2 && x.ringDegree == SLOTS
    }

    function SideA(): CipherPledge
      requires WellShaped()
    {
      assert Ordered()[0] == policyA && Ordered()[2] == currencyA && Ordered()[4] == receivableA;
      CipherPledge(policyA.content, currencyA.content, receivableA.content)
    }

    function SideB(): CipherPledge
      requires WellShaped()
    {
      assert Ordered()[1] == policyB && Ordered()[3] == currencyB && Ordered()[5] == receivableB;
      CipherPledge(policyB.content, currencyB.content, receivableB.content)
    }
  }

  /** Runs the gates in the order of the source; a missing or misshapen input is refused. */
  method RecomputeCircuitV5(inputs: CircuitInputs) returns (r: Result<Outputs>)
    ensures r.Ok? <==> inputs.WellShaped()
    ensures r.Ok? ==> r.value == CircuitV5(inputs.SideA(), inputs.SideB())
  {
    var ordered := inputs.Ordered();
    for k := 0 to |ordered|
      invariant forall i :: 0 <= i < k ==>
        ordered[i].Polynomials? && ordered[i].components == 2 && ordered[i].ringDegree == SLOTS
    {
      if ordered[k].Nil? || ordered[k].components != 2 || ordered[k].ringDegree != SLOTS {
        assert ordered[k] in inputs.Ordered();
        return Err;
      }
    }
    var a, b := inputs.SideA(), inputs.SideB();
    var kept := KeepRange(a.policyBits, FROM_START, UINT64_BITS);
    var aFrom := kept.value;
    kept := KeepRange(b.policyBits, FROM_START, UINT64_BITS);
    var bFrom := RotateColumns(kept.value, -64);
    var left := AddNew(aFrom, bFrom);
    kept := KeepRange(b.policyBits, UNTIL_START, UINT64_BITS);
    var bUntil := RotateColumns(kept.value, 64);
    kept := KeepRange(a.policyBits, UNTIL_START, UINT64_BITS);
    var right := AddNew(bUntil, kept.value);
    var less, _ := CompareTwoBlocks(left, right);
    var first := KeepSlotZero(less);
    var second := KeepSlotZero(RotateColumns(less, 64));
    var overlap := MulBoolean(first, second);
    kept := KeepRange(MulBoolean(a.policyBits, b.policyBits), EXCLUSIVE_SLOT, 1);
    var allFlags := KeepSlotZero(RotateColumns(kept.value, EXCLUSIVE_SLOT));
    var currencyEqual := Equal256(a.currencyBits, b.currencyBits);
    var identityEqual := Equal256(a.receivableBits, b.receivableBits);
    var overlapAndFlags := MulBoolean(overlap, allFlags);
    var conflict := MulBoolean(overlapAndFlags, MulBoolean(currencyEqual, identityEqual));
    r := Ok(Outputs(identityEqual, conflict));
  }
}
