/**
 The fixed, positional wire formats. A format is a list of fields: a literal, a
 fixed number of bytes, or a length-prefixed run of bytes. One theorem covers every
 format: decoding accepts exactly the encodings of valid values.
 */
module WireCodecs {
  import opened Basics
  import opened Arithmetic

  type Byte = x: int | 0 <= x < 256

  // ----- big-endian numbers

  function Power256(n: nat): nat {
    if n == 0 then 1 else 256 * Power256(n - 1)
  }

  function Number(s: seq<Byte>): nat {
    if s == [] then 0 else Number(s[..|s| - 1]) * 256 + s[|s| - 1]
  }

  function BigEndian(v: nat, width: nat): (s: seq<Byte>)
    ensures |s| == width
  {
    if width == 0 then [] else BigEndian(v / 256, width - 1) + [v % 256]
  }

  lemma {:induction false} NumberBound(s: seq<Byte>)
    ensures Number(s) < Power256(|s|)
  {
    if s != [] {
      NumberBound(s[..|s| - 1]);
    }
  }

  lemma {:induction false} NumberOfBigEndian(v: nat, width: nat)
    requires v < Power256(width)
    ensures Number(BigEndian(v, width)) == v
  {
    if width > 0 {
      NumberOfBigEndian(v / 256, width - 1);
      var s := BigEndian(v, width);
      assert s[..|s| - 1] == BigEndian(v / 256, width - 1);
    }
  }

  lemma {:induction false} BigEndianOfNumber(s: seq<Byte>)
    ensures BigEndian(Number(s), |s|) == s
  {
    if s != [] {
      BigEndianOfNumber(s[..|s| - 1]);
    }
  }

  // ----- formats

  datatype Field = Literal(text: seq<Byte>) | Fixed(width: nat) | Sized(prefix: nat, max: nat)

  predicate Fits(f: Field, v: seq<Byte>) {
    match f
    case Literal(text) => v == text
    case Fixed(width) => |v| == width
    case Sized(prefix, max) => 0 < |v| <= max && |v| < Power256(prefix)
  }

  predicate Valid(fs: seq<Field>, vs: seq<seq<Byte>>) {
    |vs| == |fs| && forall i :: 0 <= i < |fs| ==> Fits(fs[i], vs[i])
  }

  function EncodeField(f: Field, v: seq<Byte>): seq<Byte> {
    if f.Sized? then BigEndian(|v|, f.prefix) + v else v
  }

  function Encode(fs: seq<Field>, vs: seq<seq<Byte>>): seq<Byte>
    requires |fs| == |vs|
  {
    if fs == [] then [] else EncodeField(fs[0], vs[0]) + Encode(fs[1..], vs[1..])
  }

  /** How many bytes the field takes from the front, and its value; None when it cannot be read. */
  function ReadField(f: Field, raw: seq<Byte>): (r: Option<(nat, seq<Byte>)>)
    ensures r.Some? ==> r.value.0 <= |raw|
  {
    match f
    case Literal(text) => if |raw| < |text| || raw[..|text|] != text then None else Some((|text|, text))
    case Fixed(width) => if |raw| < width then None else Some((width, raw[..width]))
    case Sized(prefix, max) =>
      if |raw| < prefix then None
      else
        var size := Number(raw[..prefix]);
        if size == 0 || size > max || size > |raw| - prefix then None else Some((prefix + size, raw[prefix..prefix + size]))
  }

  function Decode(fs: seq<Field>, raw: seq<Byte>): Option<seq<seq<Byte>>> {
    if fs == [] then (if raw == [] then Some([]) else None)
    else
      var first := ReadField(fs[0], raw);
      if first.None? then None
      else
        var rest := Decode(fs[1..], raw[first.value.0..]);
        if rest.None? then None else Some([first.value.1] + rest.value)
  }

  lemma {:induction false} ReadFieldOfEncoding(f: Field, v: seq<Byte>, tail: seq<Byte>)
    requires Fits(f, v)
    ensures ReadField(f, EncodeField(f, v) + tail) == Some((|EncodeField(f, v)|, v))
  {
    var raw := EncodeField(f, v) + tail;
    match f
    case Literal(text) => assert raw[..|text|] == text;
    case Fixed(width) => assert raw[..width] == v;
    case Sized(prefix, max) =>
      assert raw[..prefix] == BigEndian(|v|, prefix);
      NumberOfBigEndian(|v|, prefix);
      assert raw[prefix..prefix + |v|] == v;
  }

  lemma {:induction false} ReadFieldIsEncoding(f: Field, raw: seq<Byte>)
    requires ReadField(f, raw).Some?
    ensures var (n, v) := ReadField(f, raw).value; Fits(f, v) && raw[..n] == EncodeField(f, v)
  {
    if f.Sized? {
      var n, v := ReadField(f, raw).value.0, ReadField(f, raw).value.1;
      NumberBound(raw[..f.prefix]);
      BigEndianOfNumber(raw[..f.prefix]);
      assert raw[..n] == raw[..f.prefix] + raw[f.prefix..n];
    }
  }

  lemma {:induction false} DecodeOfEncode(fs: seq<Field>, vs: seq<seq<Byte>>)
    requires Valid(fs, vs)
    ensures Decode(fs, Encode(fs, vs)) == Some(vs)
  {
    if fs != [] {
      var head, tail := EncodeField(fs[0], vs[0]), Encode(fs[1..], vs[1..]);
      DecodeOfEncode(fs[1..], vs[1..]);
      ReadFieldOfEncoding(fs[0], vs[0], tail);
      var raw := head + tail;
      assert raw[|head|..] == tail && vs == [vs[0]] + vs[1..];
      assert Decode(fs, raw) == Some([vs[0]] + vs[1..]);
    }
  }

  lemma {:induction false} EncodeOfDecode(fs: seq<Field>, raw: seq<Byte>)
    requires Decode(fs, raw).Some?
    ensures Valid(fs, Decode(fs, raw).value) && Encode(fs, Decode(fs, raw).value) == raw
  {
    if fs != [] {
      var n, v := ReadField(fs[0], raw).value.0, ReadField(fs[0], raw).value.1;
      EncodeOfDecode(fs[1..], raw[n..]);
      ReadFieldIsEncoding(fs[0], raw);
      var vs := Decode(fs, raw).value;
      assert vs[1..] == Decode(fs[1..], raw[n..]).value;
      assert raw == raw[..n] + raw[n..];
    }
  }

  /** For every format: the accepted byte strings are exactly the encodings of valid values, one each. */
  lemma {:induction false} CodecExact(fs: seq<Field>, raw: seq<Byte>, vs: seq<seq<Byte>>)
    ensures Decode(fs, raw) == Some(vs) <==> Valid(fs, vs) && raw == Encode(fs, vs)
  {
    if Decode(fs, raw) == Some(vs) {
      EncodeOfDecode(fs, raw);
    }
    if Valid(fs, vs) && raw == Encode(fs, vs) {
      DecodeOfEncode(fs, vs);
    }
  }

  /** Unmarshalling as it runs: a reader that advances field by field and must end exactly at the end. */
  method Unmarshal(fs: seq<Field>, raw: seq<Byte>) returns (r: Option<seq<seq<Byte>>>)
    ensures r == Decode(fs, raw)
  {
    var at: nat, values: seq<seq<Byte>> := 0, [];
    assert fs[0..] == fs && raw[0..] == raw;
    ghost var whole := Decode(fs, raw);
    assert whole.Some? ==> [] + whole.value == whole.value;
    for k := 0 to |fs|
      invariant at <= |raw|
      invariant Decode(fs, raw) == Prepend(values, Decode(fs[k..], raw[at..]))
    {
      var field := ReadField(fs[k], raw[at..]);
      assert fs[k..][0] == fs[k] && fs[k..][1..] == fs[k + 1..];
      if field.None? {
        return None;
      }
      assert raw[at..][field.value.0..] == raw[at + field.value.0..];
      PrependStep(values, field.value.1, Decode(fs[k + 1..], raw[at + field.value.0..]));
      values := values + [field.value.1];
      at := at + field.value.0;
    }
    assert values + [] == values;
    if at != |raw| {
      return None;
    }
    return Some(values);
  }

  function Prepend(front: seq<seq<Byte>>, rest: Option<seq<seq<Byte>>>): Option<seq<seq<Byte>>> {
    if rest.None? then None else Some(front + rest.value)
  }

  lemma {:induction false} PrependStep(front: seq<seq<Byte>>, v: seq<Byte>, rest: Option<seq<seq<Byte>>>)
    ensures Prepend(front + [v], rest) == Prepend(front, if rest.None? then None else Some([v] + rest.value))
  {
    if rest.Some? {
      assert (front + [v]) + rest.value == front + ([v] + rest.value);
    }
  }

  /** A decoder that also validates the fields, as every transport does. */
  function DecodeChecked(fs: seq<Field>, ok: seq<seq<Byte>> -> bool, raw: seq<Byte>): Option<seq<seq<Byte>>> {
    var vs := Decode(fs, raw);
    if vs.Some? && ok(vs.value) then vs else None
  }

  function EncodeChecked(fs: seq<Field>, ok: seq<seq<Byte>> -> bool, vs: seq<seq<Byte>>): Option<seq<Byte>> {
    if Valid(fs, vs) && ok(vs) then Some(Encode(fs, vs)) else None
  }

  /** For every format and every validation: a value is read from a byte string exactly when it is written as that byte string. */
  lemma {:induction false} CheckedExact(fs: seq<Field>, ok: seq<seq<Byte>> -> bool, raw: seq<Byte>, vs: seq<seq<Byte>>)
    ensures DecodeChecked(fs, ok, raw) == Some(vs) <==> EncodeChecked(fs, ok, vs) == Some(raw)
  {
    CodecExact(fs, raw, vs);
  }

  // ----- digest preimages of several payloads

  const HEADER := 8

  function Frame(payload: seq<Byte>): seq<Byte> {
    BigEndian(|payload|, HEADER) + payload
  }

  function Frames(payloads: seq<seq<Byte>>): seq<Byte> {
    if payloads == [] then [] else Frame(payloads[0]) + Frames(payloads[1..])
  }

  ghost predicate Countable(payloads: seq<seq<Byte>>) {
    forall i :: 0 <= i < |payloads| ==> |payloads[i]| < Power256(HEADER)
  }

  lemma {:induction false} FrameHead(p: seq<Byte>, tail: seq<Byte>, q: seq<Byte>, tail': seq<Byte>)
    requires |p| < Power256(HEADER) && |q| < Power256(HEADER) && Frame(p) + tail == Frame(q) + tail'
    ensures p == q && tail == tail'
  {
    var s, s' := Frame(p) + tail, Frame(q) + tail';
    assert BigEndian(|p|, HEADER) == s[..HEADER] == s'[..HEADER] == BigEndian(|q|, HEADER);
    NumberOfBigEndian(|p|, HEADER);
    NumberOfBigEndian(|q|, HEADER);
    assert p == s[HEADER..HEADER + |p|] && q == s'[HEADER..HEADER + |q|];
    assert tail == s[HEADER + |p|..] && tail' == s'[HEADER + |q|..];
  }

  /** Length-prefixed concatenation is injective over payload sequences of any lengths, empty payloads included. */
  lemma {:induction false} FramesInjective(ps: seq<seq<Byte>>, qs: seq<seq<Byte>>)
    requires Countable(ps) && Countable(qs) && Frames(ps) == Frames(qs)
    ensures ps == qs
  {
    if ps != [] && qs != [] {
      FrameHead(ps[0], Frames(ps[1..]), qs[0], Frames(qs[1..]));
      FramesInjective(ps[1..], qs[1..]);
      assert ps == [ps[0]] + ps[1..] && qs == [qs[0]] + qs[1..];
    }
  }

  // ----- the ledger's session record

  datatype RecordBytes = RecordBytes(
    state: Byte, session: seq<Byte>, nullifier: seq<Byte>, enrollmentA: seq<Byte>, enrollmentB: seq<Byte>, outputs: seq<Byte>,
    reservedAt: nat, settledAt: nat)

  const SESSION_RECORD := [Fixed(1), Fixed(32), Fixed(32), Fixed(32), Fixed(32), Fixed(32), Fixed(8), Fixed(8)]
  const SESSION_RECORD_SIZE := 177

  predicate RecordFits(r: RecordBytes) {
    && |r.session| == |r.nullifier| == |r.enrollmentA| == |r.enrollmentB| == |r.outputs| == 32
    && r.reservedAt < Power256(8) && r.settledAt < Power256(8)
  }

  function RecordFields(r: RecordBytes): seq<seq<Byte>> {
    [[r.state], r.session, r.nullifier, r.enrollmentA, r.enrollmentB, r.outputs, BigEndian(r.reservedAt, 8), BigEndian(r.settledAt, 8)]
  }

  function EncodeRecord(r: RecordBytes): seq<Byte> {
    Encode(SESSION_RECORD, RecordFields(r))
  }

  function DecodeRecord(raw: seq<Byte>): Option<RecordBytes> {
    var vs := Decode(SESSION_RECORD, raw);
    if vs.None? || |vs.value| != 8 || |vs.value[0]| != 1 then None
    else
      var v := vs.value;
      Some(RecordBytes(v[0][0], v[1], v[2], v[3], v[4], v[5], Number(v[6]), Number(v[7])))
  }

  function Width(fs: seq<Field>): nat
    requires forall i :: 0 <= i < |fs| ==> fs[i].Fixed?
  {
    if fs == [] then 0 else fs[0].width + Width(fs[1..])
  }

  /** A format of fixed fields reads every byte string of its width and no other. */
  lemma {:induction false} FixedAccepts(fs: seq<Field>, raw: seq<Byte>)
    requires forall i :: 0 <= i < |fs| ==> fs[i].Fixed?
    ensures Decode(fs, raw).Some? <==> |raw| == Width(fs)
  {
    if fs != [] && |raw| >= fs[0].width {
      FixedAccepts(fs[1..], raw[fs[0].width..]);
    }
  }

  lemma {:induction false} SessionRecordWidth()
    ensures Width(SESSION_RECORD) == SESSION_RECORD_SIZE
  {
    var fs := SESSION_RECORD;
    assert fs[1..][1..] == fs[2..] && fs[2..][1..] == fs[3..] && fs[3..][1..] == fs[4..] && fs[4..][1..] == fs[5..];
    assert fs[5..][1..] == fs[6..] && fs[6..][1..] == fs[7..] && fs[7..][1..] == fs[8..];
    assert Width(fs[8..]) == 0;
    assert Width(fs[7..]) == 8 && Width(fs[6..]) == 16;
    assert Width(fs[5..]) == 48 && Width(fs[4..]) == 80 && Width(fs[3..]) == 112;
  }

  /** A ledger record and its 177 bytes determine each other: every string of that length is exactly one record. */
  lemma {:induction false} SessionRecordExact(r: RecordBytes, raw: seq<Byte>)
    ensures RecordFits(r) ==> (DecodeRecord(raw) == Some(r) <==> EncodeRecord(r) == raw)
    ensures DecodeRecord(raw).Some? <==> |raw| == SESSION_RECORD_SIZE
    ensures DecodeRecord(raw).Some? ==> RecordFits(DecodeRecord(raw).value)
  {
    FixedAccepts(SESSION_RECORD, raw);
    SessionRecordWidth();
    if Decode(SESSION_RECORD, raw).Some? {
      EncodeOfDecode(SESSION_RECORD, raw);
      DecodedRecordFits(Decode(SESSION_RECORD, raw).value);
    }
    if RecordFits(r) {
      RecordFieldsValid(r);
      if EncodeRecord(r) == raw {
        DecodeOfEncode(SESSION_RECORD, RecordFields(r));
        NumberOfBigEndian(r.reservedAt, 8);
        NumberOfBigEndian(r.settledAt, 8);
      }
    }
  }

  lemma {:induction false} DecodedRecordFits(v: seq<seq<Byte>>)
    requires Valid(SESSION_RECORD, v)
    ensures |v| == 8 && |v[0]| == 1
    ensures var r := RecordBytes(v[0][0], v[1], v[2], v[3], v[4], v[5], Number(v[6]), Number(v[7]));
            RecordFits(r) && RecordFields(r) == v
  {
    forall i | 0 <= i < 8
      ensures |v[i]| == SESSION_RECORD[i].width
    {
      assert Fits(SESSION_RECORD[i], v[i]);
    }
    NumberBound(v[6]);
    NumberBound(v[7]);
    BigEndianOfNumber(v[6]);
    BigEndianOfNumber(v[7]);
    assert [v[0][0]] == v[0];
  }

  lemma {:induction false} RecordFieldsValid(r: RecordBytes)
    requires RecordFits(r)
    ensures Valid(SESSION_RECORD, RecordFields(r))
  {
  }

  // ----- a private share of the ceremony

  const SHARE_MAGIC: seq<Byte> := [77, 67, 83, 49]
  const SHARE_MAX := 16777216

  const PRIVATE_SHARE :=
    [Literal(SHARE_MAGIC), Fixed(32), Fixed(32), Fixed(8), Fixed(8), Fixed(8), Sized(4, SHARE_MAX), Fixed(64)]

  datatype ShareBytes = ShareBytes(
    roster: seq<Byte>, ceremony: seq<Byte>, epoch: nat, sender: nat, recipient: nat, payload: seq<Byte>, signature: seq<Byte>)

  /** The widths the types of the source fix. */
  predicate ShareTyped(s: ShareBytes) {
    && |s.roster| == |s.ceremony| == 32 && |s.signature| == 64
    && s.epoch < Power256(8) && s.sender < Power256(8) && s.recipient < Power256(8)
  }

  function ShareFields(s: ShareBytes): seq<seq<Byte>> {
    [SHARE_MAGIC, s.roster, s.ceremony, BigEndian(s.epoch, 8), BigEndian(s.sender, 8), BigEndian(s.recipient, 8), s.payload, s.signature]
  }

  function MarshalShare(s: ShareBytes): Option<seq<Byte>> {
    if |s.payload| == 0 || |s.payload| > SHARE_MAX || s.sender == 0 || s.recipient == 0 || s.epoch == 0 then None
    else Some(Encode(PRIVATE_SHARE, ShareFields(s)))
  }

  function UnmarshalShare(raw: seq<Byte>): Option<ShareBytes> {
    var vs := Decode(PRIVATE_SHARE, raw);
    if vs.None? || |vs.value| != 8 then None
    else
      var v := vs.value;
      var s := ShareBytes(v[1], v[2], Number(v[3]), Number(v[4]), Number(v[5]), v[6], v[7]);
      if s.sender == 0 || s.recipient == 0 || s.epoch == 0 then None else Some(s)
  }

  lemma {:induction false} ShareFieldsFit(s: ShareBytes)
    requires ShareTyped(s)
    ensures Valid(PRIVATE_SHARE, ShareFields(s)) <==> 0 < |s.payload| <= SHARE_MAX
  {
    assert Power256(4) == 256 * 256 * 256 * 256 by {
      assert Power256(2) == 65536;
    }
    assert Fits(PRIVATE_SHARE[6], ShareFields(s)[6]) <==> 0 < |s.payload| <= SHARE_MAX;
    forall i | 0 <= i < 8 && i != 6
      ensures Fits(PRIVATE_SHARE[i], ShareFields(s)[i])
    {
    }
  }

  /** A private share is read from a byte string exactly when it is written as that byte string. */
  lemma {:induction false} PrivateShareExact(s: ShareBytes, raw: seq<Byte>)
    requires ShareTyped(s)
    ensures UnmarshalShare(raw) == Some(s) <==> MarshalShare(s) == Some(raw)
  {
    var vs := ShareFields(s);
    ShareFieldsFit(s);
    NumberOfBigEndian(s.epoch, 8);
    NumberOfBigEndian(s.sender, 8);
    NumberOfBigEndian(s.recipient, 8);
    if UnmarshalShare(raw) == Some(s) {
      var v := Decode(PRIVATE_SHARE, raw).value;
      EncodeOfDecode(PRIVATE_SHARE, raw);
      assert Fits(PRIVATE_SHARE[0], v[0]) && Fits(PRIVATE_SHARE[3], v[3]) && Fits(PRIVATE_SHARE[4], v[4]) && Fits(PRIVATE_SHARE[5], v[5]);
      BigEndianOfNumber(v[3]);
      BigEndianOfNumber(v[4]);
      BigEndianOfNumber(v[5]);
      assert v == vs;
    }
    if MarshalShare(s) == Some(raw) {
      DecodeOfEncode(PRIVATE_SHARE, vs);
    }
  }

  // ----- release descriptors and responses

  const DESCRIPTOR_MAGIC: seq<Byte> := [77, 84, 68, 49]
  const RESPONSE_MAGIC: seq<Byte> := [77, 84, 82, 49]
  const RELEASE_SHARE_MAX := 67108864

  /** Session, key, parameters, policy, version, both inputs, nonce, expiry, commitment, binding, two coalition points. */
  const RELEASE_DESCRIPTOR :=
    [Literal(DESCRIPTOR_MAGIC), Fixed(32), Fixed(32), Fixed(32), Fixed(32), Fixed(4), Fixed(32), Fixed(32), Fixed(32), Fixed(8),
     Fixed(32), Fixed(32), Fixed(8), Fixed(8)]

  predicate DescriptorOk(vs: seq<seq<Byte>>) {
    |vs| == 14 && (forall i :: 1 <= i < 14 ==> Number(vs[i]) != 0) && Number(vs[5]) == 1 && vs[12] != vs[13]
  }

  /** Operator, point, session, binding, share digest, statement digest, signature, share. */
  const RELEASE_RESPONSE :=
    [Literal(RESPONSE_MAGIC), Fixed(32), Fixed(8), Fixed(32), Fixed(32), Fixed(32), Fixed(32), Fixed(64), Sized(4, RELEASE_SHARE_MAX)]

  /** The share digest must be the digest of the share. */
  predicate ResponseOk(digest: seq<Byte> -> seq<Byte>, vs: seq<seq<Byte>>) {
    |vs| == 9 && vs[5] == digest(vs[8])
  }

  /** Both transports are exact, and no byte string is both a descriptor and a response. */
  lemma {:induction false} ReleaseTransportsExact(digest: seq<Byte> -> seq<Byte>, raw: seq<Byte>, vs: seq<seq<Byte>>)
    ensures DecodeChecked(RELEASE_DESCRIPTOR, DescriptorOk, raw) == Some(vs) <==>
            EncodeChecked(RELEASE_DESCRIPTOR, DescriptorOk, vs) == Some(raw)
    ensures var ok := us => ResponseOk(digest, us);
            DecodeChecked(RELEASE_RESPONSE, ok, raw) == Some(vs) <==> EncodeChecked(RELEASE_RESPONSE, ok, vs) == Some(raw)
    ensures Decode(RELEASE_DESCRIPTOR, raw).None? || Decode(RELEASE_RESPONSE, raw).None?
  {
    CheckedExact(RELEASE_DESCRIPTOR, DescriptorOk, raw, vs);
    CheckedExact(RELEASE_RESPONSE, us => ResponseOk(digest, us), raw, vs);
    if Decode(RELEASE_DESCRIPTOR, raw).Some? {
      assert raw[..4] == DESCRIPTOR_MAGIC;
      assert raw[..4][2] == 68;
    }
  }

  // ----- the signed enrollment of the older evaluation

  const ENROLLMENT_MAGIC: seq<Byte> := [77, 67, 69, 49]

  /** Version, ciphertext digest, key, parameters, policy version, mode. */
  const ENROLLMENT_HEAD := [Literal(ENROLLMENT_MAGIC), Fixed(2), Fixed(32), Fixed(32), Fixed(32), Fixed(4), Fixed(1)]
  /** Chain, vault, policy, version, slot, client nonce. */
  const ENROLLMENT_CONTEXT := [Fixed(32), Fixed(20), Fixed(32), Fixed(4), Fixed(1), Fixed(32)]
  /** Subject, role, vault, policy, version, expiry, nonce. */
  const ENROLLMENT_CLAIM := [Fixed(32), Fixed(32), Fixed(20), Fixed(32), Fixed(4), Fixed(8), Fixed(32)]
  /** Commitment, issuer, issued, expiry, nonce; signature. */
  const ENROLLMENT_ISSUE := [Fixed(32), Fixed(32), Fixed(8), Fixed(8), Fixed(32), Fixed(64)]

  const SIGNED_ENROLLMENT := ENROLLMENT_HEAD + ENROLLMENT_CONTEXT + ENROLLMENT_CLAIM + ENROLLMENT_ISSUE

  datatype Mode = PublicCommitmentMode | FullFheMode

  function Discriminator(m: Mode): Byte {
    match m
    case PublicCommitmentMode => 1
    case FullFheMode => 2
  }

  function ModeOf(b: Byte): Option<Mode> {
    if b == 1 then Some(PublicCommitmentMode) else if b == 2 then Some(FullFheMode) else None
  }

  /** validateEnrollmentShape and the mode discriminator. */
  predicate EnrollmentOk(vs: seq<seq<Byte>>) {
    && |vs| == 26 && |vs[6]| == 1 && ModeOf(vs[6][0]).Some?
    && Number(vs[1]) == 1 && Number(vs[2]) != 0 && Number(vs[3]) != 0 && Number(vs[4]) != 0 && Number(vs[5]) == 1
    && Number(vs[20]) != 0 && Number(vs[21]) != 0 && 0 < Number(vs[22]) <= Number(vs[23]) && Number(vs[24]) != 0
    && Number(vs[7]) != 0 && Number(vs[8]) != 0 && Number(vs[9]) != 0 && Number(vs[10]) == Number(vs[5]) && Number(vs[11]) <= 1
    && Number(vs[13]) != 0 && Number(vs[14]) != 0 && vs[15] == vs[8] && vs[16] == vs[9] && Number(vs[17]) == Number(vs[5])
    && 0 < Number(vs[18]) && Number(vs[23]) <= Number(vs[18])
  }

  const SIGNED_ENROLLMENT_SIZE := 564

  /** The number of bytes of a format without length-prefixed fields. */
  function TextWidth(fs: seq<Field>): nat {
    if fs == [] then 0
    else (match fs[0] case Literal(text) => |text| case Fixed(width) => width case Sized(_, _) => 0) + TextWidth(fs[1..])
  }

  predicate Unsized(fs: seq<Field>) {
    forall i :: 0 <= i < |fs| ==> !fs[i].Sized?
  }

  lemma {:induction false} AcceptedWidth(fs: seq<Field>, raw: seq<Byte>)
    requires Unsized(fs) && Decode(fs, raw).Some?
    ensures |raw| == TextWidth(fs)
  {
    if fs != [] {
      AcceptedWidth(fs[1..], raw[ReadField(fs[0], raw).value.0..]);
    }
  }

  lemma {:induction false} WidthOfBoth(fs: seq<Field>, gs: seq<Field>)
    ensures TextWidth(fs + gs) == TextWidth(fs) + TextWidth(gs)
    ensures Unsized(fs) && Unsized(gs) ==> Unsized(fs + gs)
  {
    if fs == [] {
      assert fs + gs == gs;
    } else {
      WidthOfBoth(fs[1..], gs);
      assert (fs + gs)[1..] == fs[1..] + gs;
    }
  }

  lemma {:induction false} HeadWidth()
    ensures TextWidth(ENROLLMENT_HEAD) == 107
  {
    var fs := ENROLLMENT_HEAD;
    assert fs[7..] == [];
    assert fs[6..][1..] == fs[7..] && TextWidth(fs[6..]) == 1;
    assert fs[5..][1..] == fs[6..] && TextWidth(fs[5..]) == 5;
    assert fs[4..][1..] == fs[5..] && TextWidth(fs[4..]) == 37;
    assert fs[3..][1..] == fs[4..] && TextWidth(fs[3..]) == 69;
    assert fs[2..][1..] == fs[3..] && TextWidth(fs[2..]) == 101;
    assert fs[1..][1..] == fs[2..] && TextWidth(fs[1..]) == 103;
  }

  lemma {:induction false} ContextWidth()
    ensures TextWidth(ENROLLMENT_CONTEXT) == 121
  {
    var fs := ENROLLMENT_CONTEXT;
    assert fs[6..] == [];
    assert fs[5..][1..] == fs[6..] && TextWidth(fs[5..]) == 32;
    assert fs[4..][1..] == fs[5..] && TextWidth(fs[4..]) == 33;
    assert fs[3..][1..] == fs[4..] && TextWidth(fs[3..]) == 37;
    assert fs[2..][1..] == fs[3..] && TextWidth(fs[2..]) == 69;
    assert fs[1..][1..] == fs[2..] && TextWidth(fs[1..]) == 89;
  }

  lemma {:induction false} ClaimWidth()
    ensures TextWidth(ENROLLMENT_CLAIM) == 160
  {
    var fs := ENROLLMENT_CLAIM;
    assert fs[7..] == [];
    assert fs[6..][1..] == fs[7..] && TextWidth(fs[6..]) == 32;
    assert fs[5..][1..] == fs[6..] && TextWidth(fs[5..]) == 40;
    assert fs[4..][1..] == fs[5..] && TextWidth(fs[4..]) == 44;
    assert fs[3..][1..] == fs[4..] && TextWidth(fs[3..]) == 76;
    assert fs[2..][1..] == fs[3..] && TextWidth(fs[2..]) == 96;
    assert fs[1..][1..] == fs[2..] && TextWidth(fs[1..]) == 128;
  }

  lemma {:induction false} IssueWidth()
    ensures TextWidth(ENROLLMENT_ISSUE) == 176
  {
    var fs := ENROLLMENT_ISSUE;
    assert fs[6..] == [];
    assert fs[5..][1..] == fs[6..] && TextWidth(fs[5..]) == 64;
    assert fs[4..][1..] == fs[5..] && TextWidth(fs[4..]) == 96;
    assert fs[3..][1..] == fs[4..] && TextWidth(fs[3..]) == 104;
    assert fs[2..][1..] == fs[3..] && TextWidth(fs[2..]) == 112;
    assert fs[1..][1..] == fs[2..] && TextWidth(fs[1..]) == 144;
  }

  lemma {:induction false} EnrollmentWidth()
    ensures TextWidth(SIGNED_ENROLLMENT) == SIGNED_ENROLLMENT_SIZE && Unsized(SIGNED_ENROLLMENT)
  {
    HeadWidth();
    ContextWidth();
    ClaimWidth();
    IssueWidth();
    WidthOfBoth(ENROLLMENT_HEAD, ENROLLMENT_CONTEXT);
    WidthOfBoth(ENROLLMENT_HEAD + ENROLLMENT_CONTEXT, ENROLLMENT_CLAIM);
    WidthOfBoth(ENROLLMENT_HEAD + ENROLLMENT_CONTEXT + ENROLLMENT_CLAIM, ENROLLMENT_ISSUE);
  }

  /** Every accepted string has the one wire size, so the decoder's size test refuses nothing more. */
  lemma {:induction false} EnrollmentSize(raw: seq<Byte>)
    ensures DecodeChecked(SIGNED_ENROLLMENT, EnrollmentOk, raw).Some? ==> |raw| == SIGNED_ENROLLMENT_SIZE
  {
    EnrollmentWidth();
    if Decode(SIGNED_ENROLLMENT, raw).Some? {
      AcceptedWidth(SIGNED_ENROLLMENT, raw);
    }
  }

  /** The enrollment transport is exact, and modes and their bytes determine each other. */
  lemma {:induction false} EnrollmentTransportExact(raw: seq<Byte>, vs: seq<seq<Byte>>, m: Mode, b: Byte)
    ensures DecodeChecked(SIGNED_ENROLLMENT, EnrollmentOk, raw) == Some(vs) <==> EncodeChecked(SIGNED_ENROLLMENT, EnrollmentOk, vs) == Some(raw)
    ensures ModeOf(b) == Some(m) <==> Discriminator(m) == b
  {
    CheckedExact(SIGNED_ENROLLMENT, EnrollmentOk, raw, vs);
  }

  // ----- a pledge: the decoder's key ids are longer than the encoder's

  const KEY_ID_MAX := 1024
  const KEY_ID_READ_MAX := 65535
  const CIPHERTEXT_MAX := 134217728
  const PLEDGE_MAGIC: seq<Byte> := [77, 76, 80, 50]

  /** Key id, parameter fingerprint, three commitments, and the byte that says whether a fifth ciphertext follows. */
  function PledgeHead(keyIdMax: nat): seq<Field> {
    [Literal(PLEDGE_MAGIC), Sized(2, keyIdMax), Fixed(32), Fixed(32), Fixed(32), Fixed(32), Fixed(1)]
  }

  function Ciphertexts(n: nat): seq<Field> {
    seq(n, i => Sized(4, CIPHERTEXT_MAX))
  }

  /** validateCipherPledge: a nonzero fingerprint, and every ciphertext readable and well shaped. */
  predicate PledgeOk(readable: seq<Byte> -> bool, vs: seq<seq<Byte>>) {
    |vs| >= 7 && Number(vs[2]) != 0 && forall i :: 7 <= i < |vs| ==> readable(vs[i])
  }

  /** The fields at the front, and how many bytes they took. */
  function ReadFields(fs: seq<Field>, raw: seq<Byte>): (r: Option<(nat, seq<seq<Byte>>)>)
    ensures r.Some? ==> r.value.0 <= |raw| && |r.value.1| == |fs|
  {
    if fs == [] then Some((0, []))
    else
      var first := ReadField(fs[0], raw);
      if first.None? then None
      else
        var rest := ReadFields(fs[1..], raw[first.value.0..]);
        if rest.None? then None else Some((first.value.0 + rest.value.0, [first.value.1] + rest.value.1))
  }

  lemma {:induction false} DecodeUnfolds(fs: seq<Field>, gs: seq<Field>, raw: seq<Byte>)
    requires fs != []
    ensures var first := ReadField(fs[0], raw);
            Decode(fs + gs, raw) == if first.None? then None else Prepend([first.value.1], Decode(fs[1..] + gs, raw[first.value.0..]))
  {
    assert (fs + gs)[0] == fs[0] && (fs + gs)[1..] == fs[1..] + gs;
  }

  lemma {:induction false} PrependTwice(v: seq<Byte>, front: seq<seq<Byte>>, rest: Option<seq<seq<Byte>>>)
    ensures Prepend([v], Prepend(front, rest)) == Prepend([v] + front, rest)
  {
    if rest.Some? {
      assert [v] + (front + rest.value) == ([v] + front) + rest.value;
    }
  }

  lemma {:induction false} PrependNothing(rest: Option<seq<seq<Byte>>>)
    ensures Prepend([], rest) == rest
  {
    if rest.Some? {
      assert [] + rest.value == rest.value;
    }
  }

  /** Reading a format is reading its front and then the rest. */
  lemma {:induction false} DecodeInTwo(fs: seq<Field>, gs: seq<Field>, raw: seq<Byte>)
    ensures var head := ReadFields(fs, raw);
            Decode(fs + gs, raw) == if head.None? then None else Prepend(head.value.1, Decode(gs, raw[head.value.0..]))
  {
    if fs == [] {
      assert fs + gs == gs && raw[0..] == raw;
      PrependNothing(Decode(gs, raw));
    } else {
      DecodeUnfolds(fs, gs, raw);
      var first := ReadField(fs[0], raw);
      if first.Some? {
        var n, tail := first.value.0, raw[first.value.0..];
        DecodeInTwo(fs[1..], gs, tail);
        var rest := ReadFields(fs[1..], tail);
        if rest.Some? {
          assert tail[rest.value.0..] == raw[n + rest.value.0..];
          PrependTwice(first.value.1, rest.value.1, Decode(gs, raw[n + rest.value.0..]));
        }
      }
    }
  }

  /** UnmarshalCipherPledge: the head decides how many ciphertexts follow. */
  function DecodePledge(keyIdMax: nat, readable: seq<Byte> -> bool, raw: seq<Byte>): Option<seq<seq<Byte>>> {
    var head := ReadFields(PledgeHead(keyIdMax), raw);
    if head.None? || |head.value.1[6]| != 1 || head.value.1[6][0] > 1 then None
    else
      var vs := Prepend(head.value.1, Decode(Ciphertexts(4 + head.value.1[6][0]), raw[head.value.0..]));
      if vs.Some? && PledgeOk(readable, vs.value) then vs else None
  }

  /** The mode byte agrees with the number of ciphertexts, and every field is valid. */
  predicate ValidPledge(keyIdMax: nat, readable: seq<Byte> -> bool, vs: seq<seq<Byte>>) {
    && (|vs| == 11 || |vs| == 12) && vs[6] == [|vs| - 11]
    && Valid(PledgeHead(keyIdMax) + Ciphertexts(|vs| - 7), vs) && PledgeOk(readable, vs)
  }

  /** MarshalBinary of a pledge. */
  function EncodePledge(readable: seq<Byte> -> bool, vs: seq<seq<Byte>>): Option<seq<Byte>> {
    if ValidPledge(KEY_ID_MAX, readable, vs) then Some(Encode(PledgeHead(KEY_ID_MAX) + Ciphertexts(|vs| - 7), vs)) else None
  }

  /** The one decoder, whatever its key id limit, accepts exactly the encodings of valid pledges of either mode. */
  lemma {:induction false} PledgeDecodesExactly(keyIdMax: nat, readable: seq<Byte> -> bool, raw: seq<Byte>, vs: seq<seq<Byte>>)
    ensures DecodePledge(keyIdMax, readable, raw) == Some(vs) <==>
            ValidPledge(keyIdMax, readable, vs) && raw == Encode(PledgeHead(keyIdMax) + Ciphertexts(|vs| - 7), vs)
  {
    var fs, head := PledgeHead(keyIdMax), ReadFields(PledgeHead(keyIdMax), raw);
    if DecodePledge(keyIdMax, readable, raw) == Some(vs) {
      var mode := head.value.1[6][0];
      DecodeInTwo(fs, Ciphertexts(4 + mode), raw);
      CodecExact(fs + Ciphertexts(4 + mode), raw, vs);
      assert vs[6] == head.value.1[6];
    }
    if ValidPledge(keyIdMax, readable, vs) && raw == Encode(fs + Ciphertexts(|vs| - 7), vs) {
      CodecExact(fs + Ciphertexts(|vs| - 7), raw, vs);
      DecodeInTwo(fs, Ciphertexts(|vs| - 7), raw);
      assert head.Some? && vs[6] == head.value.1[6];
    }
  }

  lemma {:induction false} NarrowFormat(readable: seq<Byte> -> bool, vs: seq<seq<Byte>>)
    ensures ValidPledge(KEY_ID_MAX, readable, vs) <==> ValidPledge(KEY_ID_READ_MAX, readable, vs) && |vs[1]| <= KEY_ID_MAX
  {
    if |vs| == 11 || |vs| == 12 {
      var narrow, wide := PledgeHead(KEY_ID_MAX) + Ciphertexts(|vs| - 7), PledgeHead(KEY_ID_READ_MAX) + Ciphertexts(|vs| - 7);
      assert narrow[1] == Sized(2, KEY_ID_MAX) && wide[1] == Sized(2, KEY_ID_READ_MAX);
      forall i | 0 <= i < |wide| && i != 1
        ensures narrow[i] == wide[i]
      {
      }
      if Valid(narrow, vs) {
        assert Fits(narrow[1], vs[1]);
        forall i | 0 <= i < |wide|
          ensures Fits(wide[i], vs[i])
        {
          assert Fits(narrow[i], vs[i]);
        }
      }
      if Valid(wide, vs) && |vs[1]| <= KEY_ID_MAX {
        forall i | 0 <= i < |narrow|
          ensures Fits(narrow[i], vs[i])
        {
          assert Fits(wide[i], vs[i]);
        }
      }
    }
  }

  lemma {:induction false} SameEncoding(fs: seq<Field>, gs: seq<Field>, vs: seq<seq<Byte>>)
    requires |fs| == |gs| == |vs|
    requires forall i :: 0 <= i < |fs| ==> EncodeField(fs[i], vs[i]) == EncodeField(gs[i], vs[i])
    ensures Encode(fs, vs) == Encode(gs, vs)
  {
    if fs != [] {
      SameEncoding(fs[1..], gs[1..], vs[1..]);
    }
  }

  /** What the decoder accepts, the encoder writes back, byte for byte, exactly when the key id has at most 1024 bytes. */
  lemma {:induction false} PledgeReencodesExactly(readable: seq<Byte> -> bool, raw: seq<Byte>)
    requires DecodePledge(KEY_ID_READ_MAX, readable, raw).Some?
    ensures var vs := DecodePledge(KEY_ID_READ_MAX, readable, raw).value;
            && |vs| >= 2
            && (EncodePledge(readable, vs) == Some(raw) <==> |vs[1]| <= KEY_ID_MAX)
            && (EncodePledge(readable, vs).None? <==> |vs[1]| > KEY_ID_MAX)
  {
    var vs := DecodePledge(KEY_ID_READ_MAX, readable, raw).value;
    PledgeDecodesExactly(KEY_ID_READ_MAX, readable, raw, vs);
    NarrowFormat(readable, vs);
    var narrow, wide := PledgeHead(KEY_ID_MAX) + Ciphertexts(|vs| - 7), PledgeHead(KEY_ID_READ_MAX) + Ciphertexts(|vs| - 7);
    forall i | 0 <= i < |wide|
      ensures EncodeField(narrow[i], vs[i]) == EncodeField(wide[i], vs[i])
    {
      assert i != 1 ==> narrow[i] == wide[i];
    }
    SameEncoding(narrow, wide, vs);
  }

  /** A pledge of `n` ciphertexts `blob` with a key id of 1025 bytes and the fingerprint 1. */
  function LongKeyPledge(blob: seq<Byte>): seq<seq<Byte>> {
    var key: seq<Byte> := seq(1025, i => 7);
    var fingerprint: seq<Byte> := seq(32, i => 1);
    var zeros: seq<Byte> := seq(32, i => 0);
    [PLEDGE_MAGIC, key, fingerprint, zeros, zeros, zeros, [0], blob, blob, blob, blob]
  }

  /** With any readable ciphertext such a pledge is accepted by the decoder and refused by the encoder. */
  lemma {:induction false} LongKeyIdIsReadOnly(readable: seq<Byte> -> bool, blob: seq<Byte>)
    requires readable(blob) && 0 < |blob| <= CIPHERTEXT_MAX
    ensures var vs := LongKeyPledge(blob);
            var raw := Encode(PledgeHead(KEY_ID_READ_MAX) + Ciphertexts(4), vs);
            DecodePledge(KEY_ID_READ_MAX, readable, raw) == Some(vs) && EncodePledge(readable, vs).None?
  {
    var vs := LongKeyPledge(blob);
    var wide := PledgeHead(KEY_ID_READ_MAX) + Ciphertexts(4);
    assert Power256(2) == 65536 && Power256(4) == 256 * 256 * 65536;
    forall i | 0 <= i < |wide|
      ensures Fits(wide[i], vs[i])
    {
    }
    assert Number(vs[2]) == Number(vs[2][..31]) * 256 + 1;
    PledgeDecodesExactly(KEY_ID_READ_MAX, readable, Encode(wide, vs), vs);
    NarrowFormat(readable, vs);
  }
}
