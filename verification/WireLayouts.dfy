/** Where the fields of a message stand in its bytes: numbers most significant byte first, every field at its offset. */
module WireLayouts {
  import opened Basics
  import opened WireCodecs

  /** The first byte of a number weighs most. */
  lemma {:induction false} MostSignificantFirst(b: Byte, s: seq<Byte>)
    ensures Number([b] + s) == b * Power256(|s|) + Number(s)
  {
    var whole := [b] + s;
    if s == [] {
      assert whole[..0] == [];
    } else {
      var n := |s| - 1;
      assert whole[..n + 1] == [b] + s[..n] && whole[n + 1] == s[n];
      MostSignificantFirst(b, s[..n]);
      assert (b * Power256(n) + Number(s[..n])) * 256 + s[n] == b * (256 * Power256(n)) + (Number(s[..n]) * 256 + s[n]);
    }
  }

  /** The bytes a field without a length prefix takes. */
  function Span(f: Field): nat {
    match f
    case Literal(text) => |text|
    case Fixed(width) => width
    case Sized(_, _) => 0
  }

  /** Where field `k` starts, after fields without length prefixes. */
  function Offset(fs: seq<Field>, k: nat): nat
    requires k <= |fs|
  {
    if k == 0 then 0 else Offset(fs, k - 1) + Span(fs[k - 1])
  }

  lemma {:induction false} OffsetShift(fs: seq<Field>, k: nat)
    requires 0 < k <= |fs|
    ensures Offset(fs, k) == Span(fs[0]) + Offset(fs[1..], k - 1)
  {
    if k > 1 {
      OffsetShift(fs, k - 1);
      assert fs[1..][k - 2] == fs[k - 1];
    }
  }

  lemma {:induction false} HeadSpan(f: Field, v: seq<Byte>)
    requires Fits(f, v) && !f.Sized?
    ensures EncodeField(f, v) == v && |v| == Span(f)
  {
  }

  lemma {:induction false} SliceShift(head: seq<Byte>, tail: seq<Byte>, at: nat)
    requires at <= |tail|
    ensures (head + tail)[|head| + at..] == tail[at..]
  {
  }

  lemma {:induction false} UnsizedTail(fs: seq<Field>, k: nat)
    requires 0 < k <= |fs| && forall i :: 0 <= i < k ==> !fs[i].Sized?
    ensures forall i :: 0 <= i < k - 1 ==> !fs[1..][i].Sized?
  {
    forall i | 0 <= i < k - 1
      ensures !fs[1..][i].Sized?
    {
      assert fs[1..][i] == fs[i + 1];
    }
  }

  /** What stands from the offset of a field behind unprefixed fields on is the encoding of the remaining format. */
  lemma {:induction false} EncodeSplits(fs: seq<Field>, vs: seq<seq<Byte>>, k: nat)
    requires Valid(fs, vs) && k <= |fs| && forall i :: 0 <= i < k ==> !fs[i].Sized?
    ensures Offset(fs, k) <= |Encode(fs, vs)| && Encode(fs, vs)[Offset(fs, k)..] == Encode(fs[k..], vs[k..])
  {
    if k > 0 {
      HeadSpan(fs[0], vs[0]);
      UnsizedTail(fs, k);
      EncodeSplits(fs[1..], vs[1..], k - 1);
      OffsetShift(fs, k);
      SliceShift(vs[0], Encode(fs[1..], vs[1..]), Offset(fs[1..], k - 1));
      assert fs[1..][k - 1..] == fs[k..] && vs[1..][k - 1..] == vs[k..];
    }
  }

  /** In every format: what stands at the offset of a field behind unprefixed fields is that field's encoding. */
  lemma {:induction false} FieldStandsAt(fs: seq<Field>, vs: seq<seq<Byte>>, k: nat)
    requires Valid(fs, vs) && k < |fs| && forall i :: 0 <= i < k ==> !fs[i].Sized?
    ensures var at, raw, own := Offset(fs, k), Encode(fs, vs), EncodeField(fs[k], vs[k]);
            at + |own| <= |raw| && raw[at..at + |own|] == own
  {
    EncodeSplits(fs, vs, k);
    var at, raw, own := Offset(fs, k), Encode(fs, vs), EncodeField(fs[k], vs[k]);
    assert fs[k..][0] == fs[k] && vs[k..][0] == vs[k];
    assert raw[at..] == own + Encode(fs[k..][1..], vs[k..][1..]);
    assert raw[at..at + |own|] == raw[at..][..|own|];
  }

  /** The same, read from the decoder's side. */
  lemma {:induction false} DecodedStandsAt(fs: seq<Field>, raw: seq<Byte>, k: nat)
    requires Decode(fs, raw).Some? && k < |fs| && forall i :: 0 <= i <= k ==> !fs[i].Sized?
    ensures var vs, at := Decode(fs, raw).value, Offset(fs, k);
            |vs| == |fs| && at + Span(fs[k]) <= |raw| && vs[k] == raw[at..at + Span(fs[k])]
  {
    EncodeOfDecode(fs, raw);
    var vs := Decode(fs, raw).value;
    FieldStandsAt(fs, vs, k);
    HeadSpan(fs[k], vs[k]);
  }

  // ----- the private share

  lemma {:induction false} ShareOffsets()
    ensures Offset(PRIVATE_SHARE, 1) == 4 && Offset(PRIVATE_SHARE, 2) == 36 && Offset(PRIVATE_SHARE, 3) == 68
    ensures Offset(PRIVATE_SHARE, 4) == 76 && Offset(PRIVATE_SHARE, 5) == 84 && Offset(PRIVATE_SHARE, 6) == 92
  {
  }

  lemma {:induction false} ShareTail(a: seq<Byte>, b: seq<Byte>, fs: seq<Field>, vs: seq<seq<Byte>>)
    requires fs == [Sized(4, SHARE_MAX), Fixed(64)] && vs == [a, b] && |b| == 64
    ensures Encode(fs, vs) == BigEndian(|a|, 4) + a + b
  {
    assert fs[1..] == [Fixed(64)] && vs[1..] == [b];
    assert fs[1..][1..] == [] && vs[1..][1..] == [];
    assert Encode(fs[1..], vs[1..]) == b + [];
    assert b + [] == b;
    assert Encode(fs, vs) == (BigEndian(|a|, 4) + a) + b;
  }

  /**
   The bytes of a private share: after the magic "MCS1" stand roster, ceremony, epoch, sender and recipient, then the
   payload's length, the payload and the signature, and nothing else; the numbers big-endian.
   */
  lemma {:induction false} PrivateShareLayout(s: ShareBytes, raw: seq<Byte>)
    requires ShareTyped(s) && UnmarshalShare(raw) == Some(s)
    ensures var n := |s.payload|;
            && |raw| == 96 + n + 64 && raw[..4] == [77, 67, 83, 49]
            && raw[4..36] == s.roster && raw[36..68] == s.ceremony
            && Number(raw[68..76]) == s.epoch && Number(raw[76..84]) == s.sender && Number(raw[84..92]) == s.recipient
            && Number(raw[92..96]) == n && raw[96..96 + n] == s.payload && raw[96 + n..] == s.signature
  {
    PrivateShareExact(s, raw);
    ShareFieldsFit(s);
    ShareNames(s, raw);
    ShareNumbers(s, raw);
    ShareRest(s, raw);
    SharePayload(raw, s.payload, s.signature);
  }

  lemma {:induction false} ShareNames(s: ShareBytes, raw: seq<Byte>)
    requires ShareTyped(s) && Valid(PRIVATE_SHARE, ShareFields(s)) && raw == Encode(PRIVATE_SHARE, ShareFields(s))
    ensures |raw| >= 68 && raw[..4] == SHARE_MAGIC && raw[4..36] == s.roster && raw[36..68] == s.ceremony
  {
    ShareOffsets();
    FieldStandsAt(PRIVATE_SHARE, ShareFields(s), 0);
    FieldStandsAt(PRIVATE_SHARE, ShareFields(s), 1);
    FieldStandsAt(PRIVATE_SHARE, ShareFields(s), 2);
  }

  lemma {:induction false} ShareRest(s: ShareBytes, raw: seq<Byte>)
    requires ShareTyped(s) && Valid(PRIVATE_SHARE, ShareFields(s)) && raw == Encode(PRIVATE_SHARE, ShareFields(s))
    ensures |raw| >= 92 && raw[92..] == BigEndian(|s.payload|, 4) + s.payload + s.signature
  {
    ShareOffsets();
    EncodeSplits(PRIVATE_SHARE, ShareFields(s), 6);
    ShareTail(s.payload, s.signature, PRIVATE_SHARE[6..], ShareFields(s)[6..]);
  }

  lemma {:induction false} ShareNumbers(s: ShareBytes, raw: seq<Byte>)
    requires ShareTyped(s) && Valid(PRIVATE_SHARE, ShareFields(s)) && raw == Encode(PRIVATE_SHARE, ShareFields(s))
    ensures |raw| >= 92 && Number(raw[68..76]) == s.epoch && Number(raw[76..84]) == s.sender && Number(raw[84..92]) == s.recipient
  {
    var fs, vs := PRIVATE_SHARE, ShareFields(s);
    ShareOffsets();
    FieldStandsAt(fs, vs, 3);
    FieldStandsAt(fs, vs, 4);
    FieldStandsAt(fs, vs, 5);
    NumberOfBigEndian(s.epoch, 8);
    NumberOfBigEndian(s.sender, 8);
    NumberOfBigEndian(s.recipient, 8);
  }

  lemma {:induction false} SharePayload(raw: seq<Byte>, payload: seq<Byte>, signature: seq<Byte>)
    requires |raw| >= 92 && raw[92..] == BigEndian(|payload|, 4) + payload + signature && |payload| <= SHARE_MAX
    ensures |raw| == 96 + |payload| + |signature|
    ensures Number(raw[92..96]) == |payload| && raw[96..96 + |payload|] == payload && raw[96 + |payload|..] == signature
  {
    var tail, size := raw[92..], BigEndian(|payload|, 4);
    assert Power256(4) == 256 * 256 * 256 * 256 by {
      assert Power256(2) == 65536;
    }
    assert tail == size + (payload + signature);
    Halves(size, payload + signature);
    Halves(payload, signature);
    assert raw[92..96] == tail[..4];
    assert tail[4..] == raw[96..];
    assert raw[96..96 + |payload|] == raw[96..][..|payload|];
    assert raw[96 + |payload|..] == raw[96..][|payload|..];
    NumberOfBigEndian(|payload|, 4);
  }

  // ----- the session record

  lemma {:induction false} RecordOffsets()
    ensures Offset(SESSION_RECORD, 1) == 1 && Offset(SESSION_RECORD, 2) == 33 && Offset(SESSION_RECORD, 3) == 65
    ensures Offset(SESSION_RECORD, 4) == 97 && Offset(SESSION_RECORD, 5) == 129 && Offset(SESSION_RECORD, 6) == 161
    ensures Offset(SESSION_RECORD, 7) == 169
  {
  }

  /** The 177 bytes of a session record: state, session, nullifier, both enrollments, outputs, then the two times, big-endian. */
  lemma {:induction false} SessionRecordLayout(raw: seq<Byte>)
    requires |raw| == 177
    ensures DecodeRecord(raw) == Some(RecordBytes(raw[0], raw[1..33], raw[33..65], raw[65..97], raw[97..129], raw[129..161],
                                                  Number(raw[161..169]), Number(raw[169..177])))
  {
    SessionRecordExact(RecordBytes(0, [], [], [], [], [], 0, 0), raw);
    RecordOffsets();
    DecodedStandsAt(SESSION_RECORD, raw, 0);
    DecodedStandsAt(SESSION_RECORD, raw, 1);
    DecodedStandsAt(SESSION_RECORD, raw, 2);
    DecodedStandsAt(SESSION_RECORD, raw, 3);
    DecodedStandsAt(SESSION_RECORD, raw, 4);
    DecodedStandsAt(SESSION_RECORD, raw, 5);
    DecodedStandsAt(SESSION_RECORD, raw, 6);
    DecodedStandsAt(SESSION_RECORD, raw, 7);
  }

  // ----- formats of one literal and fixed fields

  predicate Headed(fs: seq<Field>) {
    fs != [] && fs[0].Literal? && forall i :: 1 <= i < |fs| ==> fs[i].Fixed?
  }

  lemma {:induction false} WidthIsOffset(fs: seq<Field>)
    requires forall i :: 0 <= i < |fs| ==> fs[i].Fixed?
    ensures Width(fs) == Offset(fs, |fs|)
  {
    if fs != [] {
      WidthIsOffset(fs[1..]);
      OffsetShift(fs, |fs|);
    }
  }

  /** Such a format reads exactly the strings of its size that start with the literal. */
  lemma {:induction false} HeadedAccepts(fs: seq<Field>, raw: seq<Byte>)
    requires Headed(fs)
    ensures Decode(fs, raw).Some? <==> |raw| == Offset(fs, |fs|) && |fs[0].text| <= |raw| && raw[..|fs[0].text|] == fs[0].text
  {
    var n := |fs[0].text|;
    WidthIsOffset(fs[1..]);
    OffsetShift(fs, |fs|);
    if |raw| >= n {
      FixedAccepts(fs[1..], raw[n..]);
    }
  }

  /** Field `k` of an accepted string. */
  lemma {:induction false} HeadedField(fs: seq<Field>, raw: seq<Byte>, vs: seq<seq<Byte>>, k: nat, at: nat, end: nat)
    requires Headed(fs) && Decode(fs, raw) == Some(vs) && k < |fs|
    requires Offset(fs, k) == at && at + Span(fs[k]) == end
    ensures |vs| == |fs| && end <= |raw| && vs[k] == raw[at..end]
  {
    DecodedStandsAt(fs, raw, k);
  }

  // ----- the release descriptor

  lemma {:induction false} DescriptorOffsets()
    ensures var fs := RELEASE_DESCRIPTOR;
            && Headed(fs) && Offset(fs, 1) == 4 && Offset(fs, 2) == 36 && Offset(fs, 3) == 68 && Offset(fs, 4) == 100
            && Offset(fs, 5) == 132 && Offset(fs, 6) == 136 && Offset(fs, 7) == 168 && Offset(fs, 8) == 200 && Offset(fs, 9) == 232
            && Offset(fs, 10) == 240 && Offset(fs, 11) == 272 && Offset(fs, 12) == 304 && Offset(fs, 13) == 312 && Offset(fs, 14) == 320
  {
  }

  lemma {:induction false} DescriptorFieldsAt(raw: seq<Byte>, vs: seq<seq<Byte>>)
    requires Decode(RELEASE_DESCRIPTOR, raw) == Some(vs)
    ensures |raw| == 320 && |vs| == 14
    ensures vs[1] == raw[4..36] && vs[2] == raw[36..68] && vs[3] == raw[68..100] && vs[4] == raw[100..132] && vs[5] == raw[132..136]
    ensures vs[6] == raw[136..168] && vs[7] == raw[168..200] && vs[8] == raw[200..232] && vs[9] == raw[232..240]
    ensures vs[10] == raw[240..272] && vs[11] == raw[272..304] && vs[12] == raw[304..312] && vs[13] == raw[312..320]
  {
    var fs := RELEASE_DESCRIPTOR;
    DescriptorOffsets();
    HeadedAccepts(fs, raw);
    HeadedField(fs, raw, vs, 1, 4, 36);
    HeadedField(fs, raw, vs, 2, 36, 68);
    HeadedField(fs, raw, vs, 3, 68, 100);
    HeadedField(fs, raw, vs, 4, 100, 132);
    HeadedField(fs, raw, vs, 5, 132, 136);
    HeadedField(fs, raw, vs, 6, 136, 168);
    HeadedField(fs, raw, vs, 7, 168, 200);
    HeadedField(fs, raw, vs, 8, 200, 232);
    HeadedField(fs, raw, vs, 9, 232, 240);
    HeadedField(fs, raw, vs, 10, 240, 272);
    HeadedField(fs, raw, vs, 11, 272, 304);
    HeadedField(fs, raw, vs, 12, 304, 312);
    HeadedField(fs, raw, vs, 13, 312, 320);
  }

  /**
   Which 320 bytes are a release descriptor: the magic "MTD1", then session, key, parameters, policy, policy version 1,
   both inputs, nonce, expiry, commitment, binding and two different points, none of them zero.
   */
  lemma {:induction false} DescriptorBytesExactly(raw: seq<Byte>)
    ensures DecodeChecked(RELEASE_DESCRIPTOR, DescriptorOk, raw).Some? <==>
              && |raw| == 320 && raw[..4] == [77, 84, 68, 49]
              && Number(raw[4..36]) > 0 && Number(raw[36..68]) > 0 && Number(raw[68..100]) > 0 && Number(raw[100..132]) > 0
              && Number(raw[132..136]) == 1 && Number(raw[136..168]) > 0 && Number(raw[168..200]) > 0 && Number(raw[200..232]) > 0
              && Number(raw[232..240]) > 0 && Number(raw[240..272]) > 0 && Number(raw[272..304]) > 0
              && Number(raw[304..312]) > 0 && Number(raw[312..320]) > 0 && raw[304..312] != raw[312..320]
  {
    DescriptorOffsets();
    HeadedAccepts(RELEASE_DESCRIPTOR, raw);
    var vs := Decode(RELEASE_DESCRIPTOR, raw);
    if vs.Some? {
      DescriptorFieldsAt(raw, vs.value);
      DescriptorOkSpelled(vs.value);
    }
  }

  lemma {:induction false} DescriptorOkSpelled(v: seq<seq<Byte>>)
    requires |v| == 14
    ensures DescriptorOk(v) <==>
              && Number(v[1]) > 0 && Number(v[2]) > 0 && Number(v[3]) > 0 && Number(v[4]) > 0 && Number(v[5]) == 1 && Number(v[6]) > 0
              && Number(v[7]) > 0 && Number(v[8]) > 0 && Number(v[9]) > 0 && Number(v[10]) > 0 && Number(v[11]) > 0
              && Number(v[12]) > 0 && Number(v[13]) > 0 && v[12] != v[13]
  {
  }

  // ----- the signed enrollment

  lemma {:induction false} EnrollmentFields()
    ensures SIGNED_ENROLLMENT ==
            [Literal(ENROLLMENT_MAGIC), Fixed(2), Fixed(32), Fixed(32), Fixed(32), Fixed(4), Fixed(1),
             Fixed(32), Fixed(20), Fixed(32), Fixed(4), Fixed(1), Fixed(32),
             Fixed(32), Fixed(32), Fixed(20), Fixed(32), Fixed(4), Fixed(8), Fixed(32),
             Fixed(32), Fixed(32), Fixed(8), Fixed(8), Fixed(32), Fixed(64)]
  {
  }

  lemma {:induction false} EnrollmentOffsets()
    ensures var fs := SIGNED_ENROLLMENT;
            && |fs| == 26 && Headed(fs) && Offset(fs, 1) == 4 && Offset(fs, 2) == 6 && Offset(fs, 3) == 38 && Offset(fs, 4) == 70
            && Offset(fs, 5) == 102 && Offset(fs, 6) == 106 && Offset(fs, 7) == 107 && Offset(fs, 8) == 139 && Offset(fs, 9) == 159
            && Offset(fs, 10) == 191 && Offset(fs, 11) == 195 && Offset(fs, 12) == 196 && Offset(fs, 13) == 228 && Offset(fs, 14) == 260
            && Offset(fs, 15) == 292 && Offset(fs, 16) == 312 && Offset(fs, 17) == 344 && Offset(fs, 18) == 348 && Offset(fs, 19) == 356
            && Offset(fs, 20) == 388 && Offset(fs, 21) == 420 && Offset(fs, 22) == 452 && Offset(fs, 23) == 460 && Offset(fs, 24) == 468
            && Offset(fs, 25) == 500 && Offset(fs, 26) == 564
  {
    EnrollmentFields();
  }

  lemma {:induction false} EnrollmentHeadAt(raw: seq<Byte>, vs: seq<seq<Byte>>)
    requires Decode(SIGNED_ENROLLMENT, raw) == Some(vs)
    ensures |raw| == 564 && |vs| == 26
    ensures vs[1] == raw[4..6] && vs[2] == raw[6..38] && vs[3] == raw[38..70] && vs[4] == raw[70..102] && vs[5] == raw[102..106]
    ensures vs[6] == raw[106..107] && vs[7] == raw[107..139] && vs[8] == raw[139..159] && vs[9] == raw[159..191] && vs[10] == raw[191..195]
    ensures vs[11] == raw[195..196]
  {
    var fs := SIGNED_ENROLLMENT;
    EnrollmentFields();
    EnrollmentOffsets();
    HeadedAccepts(fs, raw);
    HeadedField(fs, raw, vs, 1, 4, 6);
    HeadedField(fs, raw, vs, 2, 6, 38);
    HeadedField(fs, raw, vs, 3, 38, 70);
    HeadedField(fs, raw, vs, 4, 70, 102);
    HeadedField(fs, raw, vs, 5, 102, 106);
    HeadedField(fs, raw, vs, 6, 106, 107);
    HeadedField(fs, raw, vs, 7, 107, 139);
    HeadedField(fs, raw, vs, 8, 139, 159);
    HeadedField(fs, raw, vs, 9, 159, 191);
    HeadedField(fs, raw, vs, 10, 191, 195);
    HeadedField(fs, raw, vs, 11, 195, 196);
  }

  lemma {:induction false} EnrollmentRestAt(raw: seq<Byte>, vs: seq<seq<Byte>>)
    requires Decode(SIGNED_ENROLLMENT, raw) == Some(vs)
    ensures |raw| == 564 && |vs| == 26
    ensures vs[13] == raw[228..260] && vs[14] == raw[260..292] && vs[15] == raw[292..312] && vs[16] == raw[312..344] && vs[17] == raw[344..348]
    ensures vs[18] == raw[348..356] && vs[20] == raw[388..420] && vs[21] == raw[420..452] && vs[22] == raw[452..460]
    ensures vs[23] == raw[460..468] && vs[24] == raw[468..500]
  {
    var fs := SIGNED_ENROLLMENT;
    EnrollmentFields();
    EnrollmentOffsets();
    HeadedAccepts(fs, raw);
    HeadedField(fs, raw, vs, 13, 228, 260);
    HeadedField(fs, raw, vs, 14, 260, 292);
    HeadedField(fs, raw, vs, 15, 292, 312);
    HeadedField(fs, raw, vs, 16, 312, 344);
    HeadedField(fs, raw, vs, 17, 344, 348);
    HeadedField(fs, raw, vs, 18, 348, 356);
    HeadedField(fs, raw, vs, 20, 388, 420);
    HeadedField(fs, raw, vs, 21, 420, 452);
    HeadedField(fs, raw, vs, 22, 452, 460);
    HeadedField(fs, raw, vs, 23, 460, 468);
    HeadedField(fs, raw, vs, 24, 468, 500);
  }

  /**
   Which 564 bytes are a signed enrollment: the magic "MCE1", version 1, nonzero digest, key and parameters, policy
   version 1 and a mode byte; a context of chain, vault, policy, the same version and slot 0 or 1; a claim with nonzero
   subject and role, the context's vault and policy, the same version, and an expiry no earlier than the enrollment's;
   a nonzero commitment, issuer and nonce, and an issue time no later than the expiry.
   */
  lemma {:induction false} EnrollmentBytesExactly(raw: seq<Byte>)
    ensures DecodeChecked(SIGNED_ENROLLMENT, EnrollmentOk, raw).Some? <==>
              && |raw| == 564 && raw[..4] == [77, 67, 69, 49] && Number(raw[4..6]) == 1
              && Number(raw[6..38]) > 0 && Number(raw[38..70]) > 0 && Number(raw[70..102]) > 0 && Number(raw[102..106]) == 1
              && (raw[106] == 1 || raw[106] == 2)
              && Number(raw[107..139]) > 0 && Number(raw[139..159]) > 0 && Number(raw[159..191]) > 0 && Number(raw[191..195]) == 1 && raw[195] <= 1
              && Number(raw[228..260]) > 0 && Number(raw[260..292]) > 0 && raw[292..312] == raw[139..159] && raw[312..344] == raw[159..191]
              && Number(raw[344..348]) == 1 && 0 < Number(raw[348..356]) && Number(raw[388..420]) > 0 && Number(raw[420..452]) > 0
              && 0 < Number(raw[452..460]) <= Number(raw[460..468]) <= Number(raw[348..356]) && Number(raw[468..500]) > 0
  {
    EnrollmentOffsets();
    HeadedAccepts(SIGNED_ENROLLMENT, raw);
    EnrollmentFields();
    var vs := Decode(SIGNED_ENROLLMENT, raw);
    if vs.Some? {
      EnrollmentHeadAt(raw, vs.value);
      EnrollmentRestAt(raw, vs.value);
      assert raw[106..107] == [raw[106]] && raw[195..196] == [raw[195]];
      OneByte(raw[195]);
    }
  }

  lemma {:induction false} OneByte(b: Byte)
    ensures Number([b]) == b
  {
    assert [b][..0] == [];
  }

  // ----- a pledge and a release response, field by field

  /** What the decoder accepts as a pledge: a key id, a fingerprint that is not zero, three commitments, and four or five readable ciphertexts as the mode byte says. */
  lemma {:induction false} PledgeFields(keyIdMax: nat, readable: seq<Byte> -> bool, raw: seq<Byte>, vs: seq<seq<Byte>>, k: nat)
    requires DecodePledge(keyIdMax, readable, raw) == Some(vs)
    ensures |vs| >= 7 && vs[0] == [77, 76, 80, 50] && 0 < |vs[1]| <= keyIdMax && |vs[1]| < 65536
    ensures |vs[2]| == |vs[3]| == |vs[4]| == |vs[5]| == 32 && Number(vs[2]) > 0
    ensures (vs[6] == [0] && |vs| == 11) || (vs[6] == [1] && |vs| == 12)
    ensures 7 <= k < |vs| ==> 0 < |vs[k]| <= CIPHERTEXT_MAX && readable(vs[k])
    ensures |raw| >= 6 + |vs[1]| && raw[..4] == vs[0] && Number(raw[4..6]) == |vs[1]| && raw[6..6 + |vs[1]|] == vs[1]
  {
    PledgeDecodesExactly(keyIdMax, readable, raw, vs);
    var fs := PledgeHead(keyIdMax) + Ciphertexts(|vs| - 7);
    assert fs[0] == Literal(PLEDGE_MAGIC) && fs[1] == Sized(2, keyIdMax) && fs[2] == Fixed(32) && fs[3] == Fixed(32);
    assert fs[4] == Fixed(32) && fs[5] == Fixed(32);
    assert Fits(fs[0], vs[0]) && Fits(fs[1], vs[1]) && Fits(fs[2], vs[2]) && Fits(fs[3], vs[3]) && Fits(fs[4], vs[4]) && Fits(fs[5], vs[5]);
    assert Power256(2) == 65536;
    if 7 <= k < |vs| {
      assert fs[k] == Sized(4, CIPHERTEXT_MAX) && Fits(fs[k], vs[k]);
    }
    assert Offset(fs, 1) == 4;
    FieldStandsAt(fs, vs, 0);
    FieldStandsAt(fs, vs, 1);
    KeyIdStands(raw, vs[1]);
  }

  lemma {:induction false} KeyIdStands(raw: seq<Byte>, key: seq<Byte>)
    requires |key| < 65536 && |raw| >= 6 + |key| && raw[4..6 + |key|] == BigEndian(|key|, 2) + key
    ensures Number(raw[4..6]) == |key| && raw[6..6 + |key|] == key
  {
    assert Power256(2) == 65536;
    NumberOfBigEndian(|key|, 2);
    Halves(BigEndian(|key|, 2), key);
    assert raw[4..6 + |key|][..2] == raw[4..6];
    assert raw[4..6 + |key|][2..] == raw[6..6 + |key|];
  }

  lemma {:induction false} Halves(a: seq<Byte>, b: seq<Byte>)
    ensures (a + b)[..|a|] == a && (a + b)[|a|..] == b
  {
  }

  /** What the decoder accepts as a response: the magic "MTR1", operator, point, session, binding, the digest of the share, statement, signature, and the share. */
  lemma {:induction false} ResponseFields(digest: seq<Byte> -> seq<Byte>, raw: seq<Byte>, vs: seq<seq<Byte>>)
    requires DecodeChecked(RELEASE_RESPONSE, us => ResponseOk(digest, us), raw) == Some(vs)
    ensures |vs| == 9 && |raw| >= 236 && raw[..4] == [77, 84, 82, 49]
    ensures vs[1] == raw[4..36] && vs[2] == raw[36..44] && vs[3] == raw[44..76] && vs[4] == raw[76..108]
    ensures vs[5] == raw[108..140] && vs[6] == raw[140..172] && vs[7] == raw[172..236]
    ensures 0 < |vs[8]| <= RELEASE_SHARE_MAX && vs[5] == digest(vs[8])
  {
    var fs := RELEASE_RESPONSE;
    ResponseOffsets();
    EncodeOfDecode(fs, raw);
    assert Fits(fs[8], vs[8]);
    DecodedStandsAt(fs, raw, 0);
    DecodedStandsAt(fs, raw, 1);
    DecodedStandsAt(fs, raw, 2);
    DecodedStandsAt(fs, raw, 3);
    DecodedStandsAt(fs, raw, 4);
    DecodedStandsAt(fs, raw, 5);
    DecodedStandsAt(fs, raw, 6);
    DecodedStandsAt(fs, raw, 7);
    assert Fits(fs[0], vs[0]);
  }

  lemma {:induction false} ResponseOffsets()
    ensures var fs := RELEASE_RESPONSE;
            && Offset(fs, 1) == 4 && Offset(fs, 2) == 36 && Offset(fs, 3) == 44 && Offset(fs, 4) == 76 && Offset(fs, 5) == 108
            && Offset(fs, 6) == 140 && Offset(fs, 7) == 172 && Offset(fs, 8) == 236
  {
  }
}
