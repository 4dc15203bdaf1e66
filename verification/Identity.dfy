/** The identity account: read raw at fixed offsets, written field by field, and
    judged for score and recency. */
module Identity {
  import opened Bytes
  import opened Records
  import opened Buffers

  const ENTROS_ANCHOR_PROGRAM_ID: Key := [
    0xe7, 0x36, 0x00, 0xda, 0x70, 0x7e, 0xbf, 0x19, 0x90, 0x7d, 0x32, 0xec, 0x88, 0x42, 0xa4, 0x5f,
    0xb4, 0xd5, 0x32, 0x63, 0xa1, 0x49, 0x68, 0x01, 0x6d, 0xb4, 0xe6, 0x29, 0x37, 0xe0, 0x93, 0xd1]

  const IDENTITY_DISCRIMINATOR: EightBytes := [156, 32, 87, 93, 52, 155, 248, 207]
  const LAST_VERIFICATION_OFFSET := 48
  const TRUST_SCORE_OFFSET := 60
  const IDENTITY_MIN_DATA_LEN := 62
  const IDENTITY_STATE_SIZE := 207

  datatype Evidence = Evidence(lastVerification: I64, trustScore: U16)

  /** The length and discriminator guards, then the two reads at fixed offsets. */
  function ReadIdentity(data: seq<Byte>): Outcome<Evidence> {
    if |data| < IDENTITY_MIN_DATA_LEN then Err(InvalidIdentityData)
    else if data[..8] != IDENTITY_DISCRIMINATOR then Err(InvalidIdentityData)
    else
      var last := I64Value(data[LAST_VERIFICATION_OFFSET..LAST_VERIFICATION_OFFSET + 8]);
      var score := U16Value(data[TRUST_SCORE_OFFSET..TRUST_SCORE_OFFSET + 2]);
      Ok(Evidence(last, score))
  }

  /** Which data are read as an identity, and what is read, byte for byte. */
  lemma IdentityBytes(data: seq<Byte>)
    ensures ReadIdentity(data).Ok? <==> |data| >= 62 && data[..8] == [156, 32, 87, 93, 52, 155, 248, 207]
    ensures ReadIdentity(data).Err? ==> ReadIdentity(data).error == InvalidIdentityData
    ensures ReadIdentity(data).Ok? ==>
              && ReadIdentity(data).value.trustScore == data[60] as int + 0x100 * data[61] as int
              && ReadIdentity(data).value.lastVerification ==
                 data[48] as int + 0x100 * data[49] as int + 0x1_0000 * data[50] as int
                 + 0x100_0000 * data[51] as int + 0x1_0000_0000 * data[52] as int
                 + 0x100_0000_0000 * data[53] as int + 0x1_0000_0000_0000 * data[54] as int
                 + 0x100_0000_0000_0000 * (if data[55] < 128 then data[55] as int else data[55] as int - 256)
  {
    hide U16Value, I64Value;
    if |data| >= 62 {
      UnsignedDigits(data[60..62]);
      SignedDigits(data[48..56]);
    }
  }

  /** The layout, as its writer lays it out: one field after the other. */
  function IdentityImage(discriminator: EightBytes, owner: Key, creation: I64, last: I64,
                         count: U32, score: U16, tail: seq<Byte>): (s: seq<Byte>)
  {
    discriminator + owner + I64Bytes(creation) + I64Bytes(last) + LeBytes(count, 4) + LeBytes(score, 2) + tail
  }

  /** Where the fields of an image are. */
  lemma ImageFields(discriminator: EightBytes, owner: Key, creation: I64, last: I64,
                    count: U32, score: U16, tail: seq<Byte>)
    ensures var s := IdentityImage(discriminator, owner, creation, last, count, score, tail);
            && |s| == 62 + |tail|
            && s[..8] == discriminator && s[8..40] == owner
            && I64Value(s[40..48]) == creation && I64Value(s[48..56]) == last
            && LeValue(s[56..60]) == count && LeValue(s[60..62]) == score
            && s[62..] == tail
  {
    var s := IdentityImage(discriminator, owner, creation, last, count, score, tail);
    assert s[40..48] == I64Bytes(creation) && s[48..56] == I64Bytes(last);
    assert s[56..60] == LeBytes(count, 4) && s[60..62] == LeBytes(score, 2);
    I64RoundTrip(creation, discriminator);
    I64RoundTrip(last, discriminator);
    Powers();
    LeValueOfBytes(count, 4);
    LeValueOfBytes(score, 2);
  }

  /** Reading an image returns exactly the timestamp and score laid out in it,
      negative timestamps included, whatever the other fields and the tail are. */
  lemma ReadWrittenIdentity(discriminator: EightBytes, owner: Key, creation: I64, last: I64,
                            count: U32, score: U16, tail: seq<Byte>)
    ensures ReadIdentity(IdentityImage(discriminator, owner, creation, last, count, score, tail))
            == if discriminator == IDENTITY_DISCRIMINATOR then Ok(Evidence(last, score))
               else Err(InvalidIdentityData)
  {
    var data := IdentityImage(discriminator, owner, creation, last, count, score, tail);
    assert data[..8] == discriminator;
    assert data[48..56] == I64Bytes(last);
    assert data[60..62] == LeBytes(score, 2);
    I64RoundTrip(last, discriminator);
    U16RoundTrip(score, LeBytes(score, 2));
  }

  /** Conversely, whatever the guards let through is an image of what was read. */
  lemma WrittenReadIdentity(data: seq<Byte>)
    requires ReadIdentity(data).Ok?
    ensures exists owner: Key, creation: I64, count: U32 ::
              data == IdentityImage(IDENTITY_DISCRIMINATOR, owner, creation,
                                    ReadIdentity(data).value.lastVerification, count,
                                    ReadIdentity(data).value.trustScore, data[62..])
  {
    var owner: Key := data[8..40];
    var creation := I64Value(data[40..48]);
    Powers();
    LeBytesOfValue(data[56..60]);
    var count: U32 := LeValue(data[56..60]);
    I64RoundTrip(0, data[40..48]);
    I64RoundTrip(0, data[48..56]);
    U16RoundTrip(0, data[60..62]);
    var e := ReadIdentity(data).value;
    assert data[..40] == data[..8] + data[8..40];
    assert data[..48] == data[..40] + data[40..48];
    assert data[..56] == data[..48] + data[48..56];
    assert data[..60] == data[..56] + data[56..60];
    assert data[..62] == data[..60] + data[60..62];
    assert data == data[..62] + data[62..];
    assert data == IdentityImage(IDENTITY_DISCRIMINATOR, owner, creation, e.lastVerification, count,
                                 e.trustScore, data[62..]);
  }

  /** The data are laid out as an identity, verified at `last` with that score. */
  ghost predicate HoldsIdentity(data: seq<Byte>, last: I64, score: U16) {
    exists owner: Key, creation: I64, count: U32, tail: seq<Byte> ::
      data == IdentityImage(IDENTITY_DISCRIMINATOR, owner, creation, last, count, score, tail)
  }

  /** The guards and the reads at fixed offsets together amount to the layout. */
  lemma ReadsWhatItHolds(data: seq<Byte>, last: I64, score: U16)
    ensures HoldsIdentity(data, last, score) <==> ReadIdentity(data) == Ok(Evidence(last, score))
  {
    if HoldsIdentity(data, last, score) {
      var owner: Key, creation: I64, count: U32, tail: seq<Byte> :|
        data == IdentityImage(IDENTITY_DISCRIMINATOR, owner, creation, last, count, score, tail);
      ReadWrittenIdentity(IDENTITY_DISCRIMINATOR, owner, creation, last, count, score, tail);
    }
    if ReadIdentity(data) == Ok(Evidence(last, score)) {
      WrittenReadIdentity(data);
    }
    hide ReadIdentity, IdentityImage;
  }

  /** The fixture writer: fills a zeroed buffer in place with a moving offset. It
      throws, here `None`, when a number does not fit its field. */
  method BuildIdentityStateData(owner: Key, trustScore: int, lastVerification: int, discriminator: EightBytes)
    returns (built: Option<array<Byte>>)
    ensures built.Some? <==>
              && I64_MIN + 86400 <= lastVerification <= I64_MAX
              && 0 <= trustScore < 0x1_0000
    ensures built.Some? ==>
              && fresh(built.value)
              && built.value[..] == IdentityImage(discriminator, owner, lastVerification - 86400,
                                                  lastVerification, trustScore / 100, trustScore, Zeros(145))
  {
    var data := new Byte[IDENTITY_STATE_SIZE](_ => 0);
    assert data[..] == Zeros(207);
    var offset := 0;
    CopyInto(data, offset, discriminator);
    offset := offset + 8;
    CopyInto(data, offset, owner);
    offset := offset + 32;
    assert data[..] == discriminator + owner + Zeros(167);
    if !(I64_MIN <= lastVerification - 86400 <= I64_MAX) {
      return None;
    }
    CopyInto(data, offset, I64Bytes(lastVerification - 86400));
    offset := offset + 8;
    if !(I64_MIN <= lastVerification <= I64_MAX) {
      return None;
    }
    CopyInto(data, offset, I64Bytes(lastVerification));
    offset := offset + 8;
    assert data[..] == discriminator + owner + I64Bytes(lastVerification - 86400)
                       + I64Bytes(lastVerification) + Zeros(151);
    var count := if trustScore > 0 then trustScore / 100 else 0;
    if !(0 <= count < 0x1_0000_0000) {
      return None;
    }
    CopyInto(data, offset, LeBytes(count, 4));
    offset := offset + 4;
    if !(0 <= trustScore < 0x1_0000) {
      return None;
    }
    CopyInto(data, offset, LeBytes(trustScore, 2));
    offset := offset + 2;
    return Some(data);
  }

  // ---- Recency ------------------------------------------------------------

  /** `now.checked_sub(last).unwrap_or(i64::MAX)`. */
  function Age(now: I64, last: I64): (age: I64) {
    if I64_MIN <= now - last <= I64_MAX then now - last else I64_MAX
  }

  /** The test the program makes. */
  predicate Recent(now: I64, last: I64, maxAge: I64) {
    Age(now, last) < maxAge
  }

  /** The saturating test against the ideal one over unbounded integers: it differs
      from it exactly when the difference underflows, and so it is the ideal test for
      every timestamp at precisely the clock values from -1 on. */
  lemma RecentMeetsIdeal(now: I64, maxAge: I64)
    requires maxAge > 0
    ensures forall last: I64 :: Recent(now, last, maxAge) <==> now - last < maxAge && now - last >= I64_MIN
    ensures now >= -1 <==> forall last: I64 :: Recent(now, last, maxAge) <==> now - last < maxAge
  {
    if now < -1 {
      assert !Recent(now, I64_MAX, maxAge) && now - I64_MAX < maxAge;
    }
  }

  /** A verification dated in the future counts as recent. */
  lemma FutureVerificationIsRecent(now: I64, last: I64, maxAge: I64)
    requires now <= last && maxAge > 0
    ensures Recent(now, last, maxAge) <==> last - now <= 0x8000_0000_0000_0000
  {
  }
}
