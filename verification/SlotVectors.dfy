/**
 The evaluator's view of a BGV ciphertext. A ciphertext is its decrypted slot
 vector: two rows of COLUMNS slots over the plaintext field of 65537 elements.
 Two more fields record what the circuit costs: how many ciphertext
 multiplications lie on its longest path, and which rotations it asked for.
 */
module SlotVectors {
  import opened Basics

  const PLAINTEXT_MODULUS := 65537
  const COLUMNS := 16384
  const SLOTS := 32768

  type Residue = x: int | 0 <= x < PLAINTEXT_MODULUS

  datatype Ciphertext = Ciphertext(slots: seq<Residue>, depth: nat, steps: set<int>)

  type Cipher = c: Ciphertext | |c.slots| == SLOTS witness Ciphertext(Constant(0), 0, {})

  function Constant(x: Residue): (s: seq<Residue>)
    ensures |s| == SLOTS
  {
    seq(SLOTS, i => x)
  }

  /** A freshly encrypted vector: no multiplication and no rotation so far. */
  function Fresh(s: seq<Residue>): Cipher
    requires |s| == SLOTS
  {
    Ciphertext(s, 0, {})
  }

  function Add(a: Residue, b: Residue): Residue { (a + b) % PLAINTEXT_MODULUS }

  function Sub(a: Residue, b: Residue): Residue { (a - b) % PLAINTEXT_MODULUS }

  function Mul(a: Residue, b: Residue): Residue { (a * b) % PLAINTEXT_MODULUS }

  function Max(a: nat, b: nat): nat { if a < b then b else a }

  // ----- the gates of the evaluator

  function AddNew(a: Cipher, b: Cipher): Cipher {
    Ciphertext(seq(SLOTS, i requires 0 <= i < SLOTS => Add(a.slots[i], b.slots[i])),
               Max(a.depth, b.depth), a.steps + b.steps)
  }

  function SubNew(a: Cipher, b: Cipher): Cipher {
    Ciphertext(seq(SLOTS, i requires 0 <= i < SLOTS => Sub(a.slots[i], b.slots[i])),
               Max(a.depth, b.depth), a.steps + b.steps)
  }

  function SubScalar(a: Cipher, k: Residue): Cipher {
    Ciphertext(seq(SLOTS, i requires 0 <= i < SLOTS => Sub(a.slots[i], k)), a.depth, a.steps)
  }

  /** The product of two ciphertexts, the only gate that costs depth. */
  function MulBoolean(a: Cipher, b: Cipher): Cipher {
    Ciphertext(seq(SLOTS, i requires 0 <= i < SLOTS => Mul(a.slots[i], b.slots[i])),
               Max(a.depth, b.depth) + 1, a.steps + b.steps)
  }

  /** The product of a ciphertext and a public vector. */
  function MulPlain(a: Cipher, mask: seq<Residue>): Cipher
    requires |mask| == SLOTS
  {
    Ciphertext(seq(SLOTS, i requires 0 <= i < SLOTS => Mul(a.slots[i], mask[i])), a.depth, a.steps)
  }

  /** The slot that a rotation by `step` brings to slot `i`: both rows turn, each within itself. */
  function Source(i: int, step: int): (j: int)
    requires 0 <= i < SLOTS
    ensures 0 <= j < SLOTS
  {
    if i < COLUMNS then (i + step) % COLUMNS else COLUMNS + (i - COLUMNS + step) % COLUMNS
  }

  function RotateColumns(a: Cipher, step: int): Cipher {
    Ciphertext(seq(SLOTS, i requires 0 <= i < SLOTS => a.slots[Source(i, step)]),
               a.depth, a.steps + {step})
  }

  /** What masking must compute: the named slots survive, every other slot is zero. */
  function Keep(a: Cipher, kept: set<int>): Cipher {
    Ciphertext(seq(SLOTS, i requires 0 <= i < SLOTS => if i in kept then a.slots[i] else 0), a.depth, a.steps)
  }

  function KeepSpan(a: Cipher, start: int, width: nat): Cipher {
    Ciphertext(seq(SLOTS, i requires 0 <= i < SLOTS => if start <= i < start + width then a.slots[i] else 0),
               a.depth, a.steps)
  }

  ghost predicate InRange(slots: seq<int>) {
    forall k :: 0 <= k < |slots| ==> 0 <= slots[k] < SLOTS
  }

  /** Builds the 0/1 mask slot by slot and multiplies it in; a slot outside the vector is an error. */
  method KeepSlots(a: Cipher, slots: seq<int>) returns (r: Result<Cipher>)
    ensures r.Ok? <==> InRange(slots)
    ensures r.Ok? ==> r.value == Keep(a, set x | x in slots)
  {
    var mask: array<Residue> := new Residue[SLOTS](i => 0);
    for k := 0 to |slots|
      invariant InRange(slots[..k])
      invariant forall i :: 0 <= i < SLOTS ==> mask[i] == if i in slots[..k] then 1 else 0
    {
      if slots[k] < 0 || slots[k] >= mask.Length {
        return Err;
      }
      mask[slots[k]] := 1;
      assert slots[..k + 1] == slots[..k] + [slots[k]];
    }
    assert slots[..|slots|] == slots;
    var out := MulPlain(a, mask[..]);
    assert out.slots == Keep(a, set x | x in slots).slots;
    r := Ok(out);
  }

  method KeepRange(a: Cipher, start: int, width: nat) returns (r: Result<Cipher>)
    ensures r.Ok? <==> width == 0 || (0 <= start && start + width <= SLOTS)
    ensures r.Ok? ==> r.value == KeepSpan(a, start, width)
  {
    var slots := seq(width, i => start + i);
    assert width > 0 ==> slots[0] == start && slots[width - 1] == start + width - 1;
    r := KeepSlots(a, slots);
    if r.Ok? {
      forall i | 0 <= i < SLOTS
        ensures r.value.slots[i] == KeepSpan(a, start, width).slots[i]
      {
        assert start <= i < start + width ==> slots[i - start] == i;
      }
      assert r.value.slots == KeepSpan(a, start, width).slots;
    }
  }
}
