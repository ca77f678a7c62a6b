/**
 The log-depth trees of the policy circuit. Each merge halves the number of live
 slots: a slot that starts a group of `2 * stride` bits takes the verdict of its
 own half and, where that half is equal, the verdict of the half `stride` slots
 further on. Everything else is masked to zero before the next merge.

 The trees are first described for arbitrary residues (what the ring arithmetic
 computes, honest input or not) and then for bits.
 */
module ComparisonTree {
  import opened Arithmetic
  import opened SlotVectors
  import opened BitEncoding

  // ----- reference: one block, divide and conquer over field elements

  function LessBit(l: Residue, r: Residue): Residue {
    Sub(r, Mul(l, r))
  }

  function EqualBit(l: Residue, r: Residue): Residue {
    var base := Sub(Add(l, r), 1);
    Mul(base, base)
  }

  function LessOf(l: seq<Residue>, r: seq<Residue>): Residue
    requires |l| == |r| > 0
    decreases |l|
  {
    if |l| == 1 then LessBit(l[0], r[0])
    else
      var h := |l| / 2;
      Add(LessOf(l[..h], r[..h]), Mul(EqualOf(l[..h], r[..h]), LessOf(l[h..], r[h..])))
  }

  function EqualOf(l: seq<Residue>, r: seq<Residue>): Residue
    requires |l| == |r| > 0
    decreases |l|
  {
    if |l| == 1 then EqualBit(l[0], r[0])
    else
      var h := |l| / 2;
      Mul(EqualOf(l[..h], r[..h]), EqualOf(l[h..], r[h..]))
  }

  // ----- reference on bits: integer comparison

  lemma {:induction false} LexOrder(a: int, x: int, b: int, y: int, p: int)
    requires 0 <= x < p && 0 <= y < p
    ensures a * p + x < b * p + y <==> a < b || (a == b && x < y)
    ensures a * p + x == b * p + y <==> a == b && x == y
  {
    if a < b {
      assert a * p + p <= b * p by { MulMono(a + 1, b, p); }
    } else if b < a {
      assert b * p + p <= a * p by { MulMono(b + 1, a, p); }
    }
  }

  lemma {:induction false} BitVerdicts(l: Residue, r: Residue)
    requires l <= 1 && r <= 1
    ensures LessBit(l, r) == if l < r then 1 else 0
    ensures EqualBit(l, r) == if l == r then 1 else 0
  {
  }

  lemma {:induction false} MergedVerdicts(less0: bool, equal0: bool, less1: bool, equal1: bool)
    requires !(less0 && equal0)
    ensures Add(Bit(less0), Mul(Bit(equal0), Bit(less1))) == Bit(less0 || (equal0 && less1))
    ensures Mul(Bit(equal0), Bit(equal1)) == Bit(equal0 && equal1)
  {
  }

  /** On bits the field expressions are the order and the equality of the numbers spelled. */
  lemma {:induction false} VerdictsOnBits(l: seq<Residue>, r: seq<Residue>)
    requires |l| == |r| > 0 && Boolean(l) && Boolean(r)
    ensures LessOf(l, r) == Bit(Value(l) < Value(r))
    ensures EqualOf(l, r) == Bit(Value(l) == Value(r))
    ensures LessOf(l, r) == 0 || EqualOf(l, r) == 0
    decreases |l|
  {
    if |l| == 1 {
      assert l[..0] == [] && r[..0] == [];
      assert Value(l) == l[0] && Value(r) == r[0];
      BitVerdicts(l[0], r[0]);
    } else {
      var h := |l| / 2;
      var l0, l1, r0, r1 := l[..h], l[h..], r[..h], r[h..];
      ValueOrder(l0, l1, r0, r1);
      assert l == l0 + l1 && r == r0 + r1;
      VerdictsOnBits(l0, r0);
      VerdictsOnBits(l1, r1);
      MergedVerdicts(Value(l0) < Value(r0), Value(l0) == Value(r0), Value(l1) < Value(r1), Value(l1) == Value(r1));
    }
  }

  /** Numbers compare like their leading halves, and like their trailing halves where those tie. */
  lemma {:induction false} ValueOrder(l0: seq<Residue>, l1: seq<Residue>, r0: seq<Residue>, r1: seq<Residue>)
    requires |l1| == |r1| && Boolean(l1) && Boolean(r1)
    ensures Value(l0 + l1) < Value(r0 + r1) <==>
            Value(l0) < Value(r0) || (Value(l0) == Value(r0) && Value(l1) < Value(r1))
    ensures Value(l0 + l1) == Value(r0 + r1) <==> Value(l0) == Value(r0) && Value(l1) == Value(r1)
  {
    ValueConcat(l0, l1);
    ValueConcat(r0, r1);
    ValueBound(l1);
    ValueBound(r1);
    LexOrder(Value(l0), Value(l1), Value(r0), Value(r1), Pow2(|l1|));
  }

  lemma {:induction false} MulCommutes(a: Residue, b: Residue)
    ensures Mul(a, b) == Mul(b, a)
  {
  }

  /** Equality does not care which side is which, for any residues. */
  lemma {:induction false} EqualOfSymmetric(l: seq<Residue>, r: seq<Residue>)
    requires |l| == |r| > 0
    ensures EqualOf(l, r) == EqualOf(r, l)
    decreases |l|
  {
    if |l| > 1 {
      var h := |l| / 2;
      EqualOfSymmetric(l[..h], r[..h]);
      EqualOfSymmetric(l[h..], r[h..]);
    }
  }

  // ----- the trees on slot vectors

  predicate Starts(i: int, group: int, total: int)
    requires group > 0
  {
    0 <= i && i + group <= total && i % group == 0
  }

  /** Keeps the first slot of every group of `group` slots below `total`. */
  function KeepStarts(a: Cipher, group: int, total: int): Cipher
    requires group > 0
  {
    Ciphertext(seq(SLOTS, i requires 0 <= i < SLOTS => if Starts(i, group, total) then a.slots[i] else 0),
               a.depth, a.steps)
  }

  function InitialLess(left: Cipher, right: Cipher, total: nat): Cipher {
    KeepSpan(SubNew(right, MulBoolean(left, right)), 0, total)
  }

  function InitialEqual(left: Cipher, right: Cipher, total: nat): Cipher {
    var base := SubScalar(AddNew(left, right), 1);
    KeepSpan(MulBoolean(base, base), 0, total)
  }

  function LessStep(less: Cipher, equal: Cipher, stride: int, total: nat): Cipher
    requires stride > 0
  {
    KeepStarts(AddNew(less, MulBoolean(equal, RotateColumns(less, stride))), 2 * stride, total)
  }

  function EqualStep(equal: Cipher, stride: int, total: nat): Cipher
    requires stride > 0
  {
    KeepStarts(MulBoolean(equal, RotateColumns(equal, stride)), 2 * stride, total)
  }

  /** The equality tree after `k` merges. */
  function EqualTree(left: Cipher, right: Cipher, total: nat, k: nat): Cipher {
    if k == 0 then InitialEqual(left, right, total)
    else EqualStep(EqualTree(left, right, total, k - 1), Pow2(k - 1), total)
  }

  /** The comparison tree after `k` merges. */
  function LessTree(left: Cipher, right: Cipher, total: nat, k: nat): Cipher {
    if k == 0 then InitialLess(left, right, total)
    else LessStep(LessTree(left, right, total, k - 1), EqualTree(left, right, total, k - 1), Pow2(k - 1), total)
  }

  // ----- what every merge keeps

  function Segment(a: Cipher, i: int, n: int): (s: seq<Residue>)
    requires 0 <= i <= i + n <= SLOTS
    ensures |s| == n
  {
    a.slots[i..i + n]
  }

  /** Group starts hold the exact verdict of their own group; every other slot is zero. */
  ghost predicate HoldsEqual(equal: Cipher, left: Cipher, right: Cipher, group: int, total: int)
    requires group > 0 && total <= SLOTS
  {
    forall i :: 0 <= i < SLOTS ==>
      equal.slots[i] == if Starts(i, group, total)
                        then EqualOf(Segment(left, i, group), Segment(right, i, group)) else 0
  }

  ghost predicate HoldsLess(less: Cipher, left: Cipher, right: Cipher, group: int, total: int)
    requires group > 0 && total <= SLOTS
  {
    forall i :: 0 <= i < SLOTS ==>
      less.slots[i] == if Starts(i, group, total)
                       then LessOf(Segment(left, i, group), Segment(right, i, group)) else 0
  }

  /** The two halves of a group start groups of their own, and the rotation reads the second without wrapping. */
  lemma {:induction false} Halves(i: int, s: int, total: int)
    requires s > 0 && total <= COLUMNS && Starts(i, 2 * s, total)
    ensures Starts(i, s, total) && Starts(i + s, s, total)
    ensures Source(i, s) == i + s
  {
    var q := i / (2 * s);
    assert i == s * (2 * q);
    MultipleMod(s, 2 * q);
    assert i + s == s * (2 * q + 1);
    MultipleMod(s, 2 * q + 1);
  }

  lemma {:induction false} SplitEqual(left: Cipher, right: Cipher, i: int, s: int)
    requires s > 0 && 0 <= i && i + 2 * s <= SLOTS
    ensures EqualOf(Segment(left, i, 2 * s), Segment(right, i, 2 * s)) ==
            Mul(EqualOf(Segment(left, i, s), Segment(right, i, s)),
                EqualOf(Segment(left, i + s, s), Segment(right, i + s, s)))
  {
    SplitSegment(left, i, s);
    SplitSegment(right, i, s);
  }

  lemma {:induction false} SplitSegment(a: Cipher, i: int, s: int)
    requires s > 0 && 0 <= i && i + 2 * s <= SLOTS
    ensures Segment(a, i, 2 * s)[..s] == Segment(a, i, s)
    ensures Segment(a, i, 2 * s)[s..] == Segment(a, i + s, s)
  {
    assert a.slots[i..i + 2 * s][..s] == a.slots[i..i + s];
    assert a.slots[i..i + 2 * s][s..] == a.slots[i + s..i + 2 * s];
  }

  lemma {:induction false} EqualStepHolds(equal: Cipher, left: Cipher, right: Cipher, s: int, total: nat)
    requires s > 0 && total <= COLUMNS
    requires HoldsEqual(equal, left, right, s, total)
    ensures HoldsEqual(EqualStep(equal, s, total), left, right, 2 * s, total)
  {
    var next := EqualStep(equal, s, total);
    forall i | 0 <= i < SLOTS && Starts(i, 2 * s, total)
      ensures next.slots[i] == EqualOf(Segment(left, i, 2 * s), Segment(right, i, 2 * s))
    {
      Halves(i, s, total);
      SplitEqual(left, right, i, s);
      assert next.slots[i] == Mul(equal.slots[i], equal.slots[i + s]);
    }
  }

  lemma {:induction false} SplitLess(left: Cipher, right: Cipher, i: int, s: int)
    requires s > 0 && 0 <= i && i + 2 * s <= SLOTS
    ensures LessOf(Segment(left, i, 2 * s), Segment(right, i, 2 * s)) ==
            Add(LessOf(Segment(left, i, s), Segment(right, i, s)),
                Mul(EqualOf(Segment(left, i, s), Segment(right, i, s)), LessOf(Segment(left, i + s, s), Segment(right, i + s, s))))
  {
    SplitSegment(left, i, s);
    SplitSegment(right, i, s);
  }

  /** The start of a group after a merge: the first half's verdict, or equality there and the second half's verdict. */
  lemma {:induction false} LessStepSlot(less: Cipher, equal: Cipher, s: int, total: nat, i: int)
    requires s > 0 && total <= COLUMNS && Starts(i, 2 * s, total) && Source(i, s) == i + s < SLOTS
    ensures LessStep(less, equal, s, total).slots[i] == Add(less.slots[i], Mul(equal.slots[i], less.slots[i + s]))
  {
  }

  lemma {:induction false} LessStepHolds(less: Cipher, equal: Cipher, left: Cipher, right: Cipher, s: int, total: nat)
    requires s > 0 && total <= COLUMNS
    requires HoldsEqual(equal, left, right, s, total) && HoldsLess(less, left, right, s, total)
    ensures HoldsLess(LessStep(less, equal, s, total), left, right, 2 * s, total)
  {
    var next := LessStep(less, equal, s, total);
    forall i | 0 <= i < SLOTS && Starts(i, 2 * s, total)
      ensures next.slots[i] == LessOf(Segment(left, i, 2 * s), Segment(right, i, 2 * s))
    {
      Halves(i, s, total);
      SplitLess(left, right, i, s);
      LessStepSlot(less, equal, s, total, i);
    }
  }

  /** One merge takes the verdicts of all groups to those of the groups twice as wide. */
  lemma {:induction false} StepHolds(
      less: Cipher, equal: Cipher, left: Cipher, right: Cipher, s: int, total: nat, less': Cipher, equal': Cipher, group: int)
    requires s > 0 && total <= COLUMNS && group == 2 * s
    requires HoldsEqual(equal, left, right, s, total) && HoldsLess(less, left, right, s, total)
    requires equal' == EqualStep(equal, s, total) && less' == LessStep(less, equal, s, total)
    ensures HoldsEqual(equal', left, right, group, total) && HoldsLess(less', left, right, group, total)
  {
    EqualStepHolds(equal, left, right, s, total);
    LessStepHolds(less, equal, left, right, s, total);
  }

  function Strides(k: nat): set<int> {
    if k == 0 then {} else Strides(k - 1) + {Pow2(k - 1)}
  }

  lemma {:induction false} TreeUnfolds(left: Cipher, right: Cipher, total: nat, k: nat)
    ensures EqualTree(left, right, total, k + 1) == EqualStep(EqualTree(left, right, total, k), Pow2(k), total)
    ensures LessTree(left, right, total, k + 1) == LessStep(LessTree(left, right, total, k), EqualTree(left, right, total, k), Pow2(k), total)
    ensures Pow2(k + 1) == 2 * Pow2(k)
  {
  }

  /** One more merge of the tree. */
  lemma {:induction false} TreeGrows(left: Cipher, right: Cipher, total: nat, k: nat)
    requires total <= COLUMNS && k > 0
    requires HoldsEqual(EqualTree(left, right, total, k - 1), left, right, Pow2(k - 1), total)
    requires HoldsLess(LessTree(left, right, total, k - 1), left, right, Pow2(k - 1), total)
    ensures HoldsEqual(EqualTree(left, right, total, k), left, right, Pow2(k), total)
    ensures HoldsLess(LessTree(left, right, total, k), left, right, Pow2(k), total)
  {
    TreeUnfolds(left, right, total, k - 1);
    StepHolds(LessTree(left, right, total, k - 1), EqualTree(left, right, total, k - 1), left, right, Pow2(k - 1), total,
              LessTree(left, right, total, k), EqualTree(left, right, total, k), Pow2(k));
  }

  /**
   The tree theorem, for any number of blocks of any power-of-two width that fit
   one row, and for any slot contents: after `k` merges each group of `2^k` slots
   holds its own verdict at its first slot and nothing else survives.
   */
  lemma {:induction false} TreeHolds(left: Cipher, right: Cipher, total: nat, k: nat)
    requires total <= COLUMNS
    ensures HoldsEqual(EqualTree(left, right, total, k), left, right, Pow2(k), total)
    ensures HoldsLess(LessTree(left, right, total, k), left, right, Pow2(k), total)
  {
    if k == 0 {
      TreeBase(left, right, total, k);
    } else {
      TreeHolds(left, right, total, k - 1);
      TreeGrows(left, right, total, k);
    }
  }

  lemma {:induction false} StepCost(less: Cipher, equal: Cipher, stride: int, total: nat)
    requires stride > 0 && less.depth == equal.depth && less.steps == equal.steps
    ensures LessStep(less, equal, stride, total).depth == EqualStep(equal, stride, total).depth == less.depth + 1
    ensures LessStep(less, equal, stride, total).steps == EqualStep(equal, stride, total).steps == less.steps + {stride}
  {
  }

  /** A tree of width `2^k` adds depth exactly `k + 1` and rotates by exactly the first `k` powers of two. */
  lemma {:induction false} TreeCost(left: Cipher, right: Cipher, total: nat, k: nat)
    ensures EqualTree(left, right, total, k).depth == Max(left.depth, right.depth) + k + 1
    ensures LessTree(left, right, total, k).depth == Max(left.depth, right.depth) + k + 1
    ensures EqualTree(left, right, total, k).steps == left.steps + right.steps + Strides(k)
    ensures LessTree(left, right, total, k).steps == left.steps + right.steps + Strides(k)
  {
    if k > 0 {
      TreeCost(left, right, total, k - 1);
      StepCost(LessTree(left, right, total, k - 1), EqualTree(left, right, total, k - 1), Pow2(k - 1), total);
    }
  }

  lemma {:induction false} TreeBase(left: Cipher, right: Cipher, total: nat, k: nat)
    requires total <= COLUMNS && k == 0
    ensures HoldsEqual(EqualTree(left, right, total, k), left, right, Pow2(k), total)
    ensures HoldsLess(LessTree(left, right, total, k), left, right, Pow2(k), total)
  {
  }

  /**
   A finished tree over bits, block by block: at the first slot of each block `less` is the
   integer order of the two numbers spelled there and `equal` their equality.
   */
  lemma {:induction false} BlockComparesIntegers(left: Cipher, right: Cipher, total: nat, k: nat, i: nat)
    requires total <= COLUMNS && Starts(i, Pow2(k), total)
    requires Boolean(Segment(left, i, Pow2(k))) && Boolean(Segment(right, i, Pow2(k)))
    ensures var x, y := Value(Segment(left, i, Pow2(k))), Value(Segment(right, i, Pow2(k)));
            && LessTree(left, right, total, k).slots[i] == Bit(x < y)
            && EqualTree(left, right, total, k).slots[i] == Bit(x == y)
  {
    TreeHolds(left, right, total, k);
    VerdictsOnBits(Segment(left, i, Pow2(k)), Segment(right, i, Pow2(k)));
  }

  // ----- the loops

  const BLOCKS := 2

  /** The first slot of every group of `groupWidth` slots, block by block. */
  method BlockStarts(blocks: nat, groupWidth: nat) returns (starts: seq<int>)
    requires groupWidth > 0
    ensures forall i :: i in starts <==> 0 <= i < blocks * UINT64_BITS && (i % UINT64_BITS) % groupWidth == 0
  {
    starts := [];
    for block := 0 to blocks
      invariant forall i :: i in starts <==> 0 <= i < block * UINT64_BITS && (i % UINT64_BITS) % groupWidth == 0
    {
      var base := block * UINT64_BITS;
      var offset := 0;
      while offset < UINT64_BITS
        invariant 0 <= offset && offset % groupWidth == 0
        invariant forall i :: i in starts <==>
          0 <= i < base + offset && i < base + UINT64_BITS && (i % UINT64_BITS) % groupWidth == 0
        decreases UINT64_BITS - offset
      {
        assert forall i :: base + offset <= i < base + UINT64_BITS ==> i % UINT64_BITS == i - base;
        NextMultiple(offset, groupWidth);
        starts := starts + [base + offset];
        offset := offset + groupWidth;
      }
    }
  }

  /** Between a multiple and the next one there is no other. */
  lemma {:induction false} NextMultiple(offset: int, d: int)
    requires d > 0 && offset % d == 0
    ensures (offset + d) % d == 0
    ensures forall j :: offset < j < offset + d ==> j % d != 0
  {
    var q := offset / d;
    assert offset == d * q;
    DivUnique(offset + d, d, q + 1, 0);
    forall j | offset < j < offset + d
      ensures j % d != 0
    {
      DivUnique(j, d, q, j - offset);
    }
  }

  lemma {:induction false} NestedMod(i: int, g: int)
    requires g > 0 && UINT64_BITS % g == 0
    ensures (i % UINT64_BITS) % g == 0 <==> i % g == 0
  {
    var m, q, r := UINT64_BITS / g, i / UINT64_BITS, i % UINT64_BITS;
    assert UINT64_BITS == g * m;
    assert i == g * (m * q) + r;
    var a, b := r / g, r % g;
    assert i == g * (m * q + a) + b;
    DivUnique(i, g, m * q + a, b);
  }

  /** A multiple of the group width below a multiple of the group width has room for its group. */
  lemma {:induction false} StartsBelow(i: int, g: int, total: int)
    requires g > 0 && total % g == 0
    ensures Starts(i, g, total) <==> 0 <= i < total && i % g == 0
  {
    if 0 <= i < total && i % g == 0 {
      var a, b := i / g, total / g;
      assert i == g * a && total == g * b;
      assert a < b;
      MulMono(a + 1, b, g);
    }
  }

  /** Keeping the listed slots is keeping the group starts when the list holds exactly those. */
  lemma {:induction false} KeepIsKeepStarts(a: Cipher, slots: seq<int>, group: int, total: int)
    requires group > 0
    requires forall i :: i in slots <==> Starts(i, group, total)
    ensures Keep(a, set x | x in slots) == KeepStarts(a, group, total)
  {
    assert Keep(a, set x | x in slots).slots == KeepStarts(a, group, total).slots;
  }

  lemma {:induction false} Pow2Divides(j: nat, k: nat)
    requires j <= k
    ensures Pow2(k) % Pow2(j) == 0
  {
    Pow2Add(j, k - j);
    MultipleMod(Pow2(j), Pow2(k - j));
  }

  /** One pass of the comparison loop. */
  method MergeVerdicts(less: Cipher, equal: Cipher, stride: nat, ghost j: nat) returns (less': Cipher, equal': Cipher)
    requires j < 6 && stride == Pow2(j)
    ensures less' == LessStep(less, equal, stride, BLOCKS * UINT64_BITS)
    ensures equal' == EqualStep(equal, stride, BLOCKS * UINT64_BITS)
  {
    var lowerLess := RotateColumns(less, stride);
    var lowerEqual := RotateColumns(equal, stride);
    var continuedLess := MulBoolean(equal, lowerLess);
    less' := AddNew(less, continuedLess);
    equal' := MulBoolean(equal, lowerEqual);
    var starts := BlockStarts(BLOCKS, stride * 2);
    StartsOfBlocks(starts, j + 1);
    KeepIsKeepStarts(less', starts, stride * 2, BLOCKS * UINT64_BITS);
    KeepIsKeepStarts(equal', starts, stride * 2, BLOCKS * UINT64_BITS);
    var kept := KeepSlots(less', starts);
    less' := kept.value;
    kept := KeepSlots(equal', starts);
    equal' := kept.value;
  }

  /** Two strict 64-bit comparisons side by side; slots 0 and 64 end up holding the verdicts. */
  method CompareTwoBlocks(left: Cipher, right: Cipher) returns (less: Cipher, equal: Cipher)
    ensures less == LessTree(left, right, BLOCKS * UINT64_BITS, 6)
    ensures equal == EqualTree(left, right, BLOCKS * UINT64_BITS, 6)
  {
    var product := MulBoolean(left, right);
    var base := SubScalar(AddNew(left, right), 1);
    var kept := KeepRange(SubNew(right, product), 0, BLOCKS * UINT64_BITS);
    less := kept.value;
    kept := KeepRange(MulBoolean(base, base), 0, BLOCKS * UINT64_BITS);
    equal := kept.value;
    var stride := 1;
    ghost var j: nat := 0;
    assert Pow2(6) == UINT64_BITS;
    while stride < UINT64_BITS
      invariant j <= 6 && stride == Pow2(j)
      invariant less == LessTree(left, right, BLOCKS * UINT64_BITS, j)
      invariant equal == EqualTree(left, right, BLOCKS * UINT64_BITS, j)
      decreases UINT64_BITS - stride
    {
      less, equal := MergeVerdicts(less, equal, stride, j);
      stride := stride * 2;
      j := j + 1;
    }
    assert j == 6;
  }

  lemma {:induction false} StartsOfBlocks(starts: seq<int>, j: nat)
    requires j <= 6
    requires forall i :: i in starts <==>
      0 <= i < BLOCKS * UINT64_BITS && (i % UINT64_BITS) % Pow2(j) == 0
    ensures forall i :: i in starts <==> Starts(i, Pow2(j), BLOCKS * UINT64_BITS)
    ensures InRange(starts)
  {
    assert Pow2(6) == 64 && Pow2(7) == 128;
    Pow2Divides(j, 6);
    Pow2Divides(j, 7);
    forall i
      ensures i in starts <==> Starts(i, Pow2(j), BLOCKS * UINT64_BITS)
    {
      NestedMod(i, Pow2(j));
      StartsBelow(i, Pow2(j), BLOCKS * UINT64_BITS);
    }
    forall k | 0 <= k < |starts|
      ensures 0 <= starts[k] < SLOTS
    {
      assert starts[k] in starts;
    }
  }

  function KeepFirst(a: Cipher): Cipher {
    KeepSpan(a, 0, 1)
  }

  /** What the 256-bit equality computes: the finished tree, cut down to slot 0. */
  function Equal256Of(left: Cipher, right: Cipher): Cipher {
    KeepFirst(EqualTree(left, right, ID_BITS, 8))
  }

  method KeepSlotZero(a: Cipher) returns (r: Cipher)
    ensures r == KeepFirst(a)
  {
    var kept := KeepSlots(a, [0]);
    r := kept.value;
    assert r.slots == KeepFirst(a).slots;
  }

  /** Equality of two 256-bit identifiers as a balanced AND tree. */
  method Equal256(left: Cipher, right: Cipher) returns (equal: Cipher)
    ensures equal == Equal256Of(left, right)
  {
    var base := SubScalar(AddNew(left, right), 1);
    equal := MulBoolean(base, base);
    var kept := KeepRange(equal, 0, ID_BITS);
    equal := kept.value;
    var stride := 1;
    ghost var j: nat := 0;
    assert Pow2(8) == ID_BITS;
    while stride < ID_BITS
      invariant j <= 8 && stride == Pow2(j)
      invariant equal == EqualTree(left, right, ID_BITS, j)
      decreases ID_BITS - stride
    {
      var lower := RotateColumns(equal, stride);
      equal := MulBoolean(equal, lower);
      var starts: seq<int> := [];
      var slot := 0;
      while slot < ID_BITS
        invariant 0 <= slot && slot % (2 * stride) == 0
        invariant forall i :: i in starts <==> 0 <= i < slot && i < ID_BITS && i % (2 * stride) == 0
        decreases ID_BITS - slot
      {
        NextMultiple(slot, 2 * stride);
        starts := starts + [slot];
        slot := slot + 2 * stride;
      }
      assert j < 8;
      StartsOfIdentifier(starts, j + 1);
      KeepIsKeepStarts(equal, starts, 2 * stride, ID_BITS);
      kept := KeepSlots(equal, starts);
      equal := kept.value;
      stride := stride * 2;
      j := j + 1;
    }
    assert j == 8;
    equal := KeepSlotZero(equal);
  }

  lemma {:induction false} StartsOfIdentifier(starts: seq<int>, j: nat)
    requires j <= 8
    requires forall i :: i in starts <==> 0 <= i < ID_BITS && i % Pow2(j) == 0
    ensures forall i :: i in starts <==> Starts(i, Pow2(j), ID_BITS)
    ensures InRange(starts)
  {
    assert Pow2(8) == 256;
    Pow2Divides(j, 8);
    forall i
      ensures i in starts <==> Starts(i, Pow2(j), ID_BITS)
    {
      StartsBelow(i, Pow2(j), ID_BITS);
    }
    forall k | 0 <= k < |starts|
      ensures 0 <= starts[k] < SLOTS
    {
      assert starts[k] in starts;
    }
  }
}
