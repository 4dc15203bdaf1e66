/** The Borsh images of the two wrapped records: variable-length because of their
    options, read from the front of a fixed-size account buffer. */
module Codec {
  import opened Bytes
  import opened Records

  /** `VoterWeightRecord::get_space()`. */
  const VOTER_WEIGHT_SPACE: nat := 8 + 32 + 32 + 32 + 8 + 9 + 2 + 33 + 8

  /** `MaxVoterWeightRecord::get_space()`. */
  const MAX_VOTER_WEIGHT_SPACE: nat := 8 + 32 + 32 + 8 + 9 + 8

  // ---- Reading from the front of a byte slice -----------------------------

  datatype Parsed<+T> = Malformed | Parsed(value: T, rest: seq<Byte>) {
    predicate IsFailure() {
      Malformed?
    }

    function PropagateFailure<U>(): Parsed<U>
      requires Malformed?
    {
      Malformed
    }

    function Extract(): (T, seq<Byte>)
      requires Parsed?
    {
      (value, rest)
    }
  }

  function TakeByte(s: seq<Byte>): Parsed<Byte> {
    if |s| < 1 then Malformed else Parsed(s[0], s[1..])
  }

  function TakeEight(s: seq<Byte>): Parsed<EightBytes> {
    if |s| < 8 then Malformed else Parsed(s[..8], s[8..])
  }

  function TakeU64(s: seq<Byte>): Parsed<U64> {
    if |s| < 8 then Malformed else Parsed(U64Value(s[..8]), s[8..])
  }

  function TakeKey(s: seq<Byte>): Parsed<Key> {
    if |s| < 32 then Malformed else Parsed(s[..32], s[32..])
  }

  /** The action with the given Borsh tag: its position in the enum. */
  function TakeAction(s: seq<Byte>): Parsed<VoterWeightAction> {
    if |s| < 1 then Malformed
    else match s[0]
      case 0 => Parsed(CastVote, s[1..])
      case 1 => Parsed(CommentProposal, s[1..])
      case 2 => Parsed(CreateGovernance, s[1..])
      case 3 => Parsed(CreateProposal, s[1..])
      case 4 => Parsed(SignOffProposal, s[1..])
      case _ => Malformed
  }

  /** A Borsh option: a tag byte that must be 0 or 1, then the value if 1. */
  function TakeOption<T>(take: seq<Byte> -> Parsed<T>, s: seq<Byte>): Parsed<Option<T>> {
    var (tag, s) :- TakeByte(s);
    if tag == 0 then Parsed(None, s)
    else if tag == 1 then
      var (v, s) :- take(s);
      Parsed(Some(v), s)
    else Malformed
  }

  function DecodeRecord(s: seq<Byte>): Parsed<VoterWeightRecord> {
    var (discriminator, s) :- TakeEight(s);
    var (realm, s) :- TakeKey(s);
    var (mint, s) :- TakeKey(s);
    var (owner, s) :- TakeKey(s);
    var (weight, s) :- TakeU64(s);
    var (expiry, s) :- TakeOption(TakeU64, s);
    var (action, s) :- TakeOption(TakeAction, s);
    var (target, s) :- TakeOption(TakeKey, s);
    var (reserved, s) :- TakeEight(s);
    Parsed(VoterWeightRecord(discriminator, realm, mint, owner, weight, expiry, action, target, reserved), s)
  }

  function DecodeMax(s: seq<Byte>): Parsed<MaxVoterWeightRecord> {
    var (discriminator, s) :- TakeEight(s);
    var (realm, s) :- TakeKey(s);
    var (mint, s) :- TakeKey(s);
    var (weight, s) :- TakeU64(s);
    var (expiry, s) :- TakeOption(TakeU64, s);
    var (reserved, s) :- TakeEight(s);
    Parsed(MaxVoterWeightRecord(discriminator, realm, mint, weight, expiry, reserved), s)
  }

  // ---- Writing ------------------------------------------------------------

  function ActionTag(a: VoterWeightAction): (t: Byte) {
    match a
    case CastVote => 0
    case CommentProposal => 1
    case CreateGovernance => 2
    case CreateProposal => 3
    case SignOffProposal => 4
  }

  function ExpiryBytes(e: Option<U64>): seq<Byte> {
    match e
    case None => [0]
    case Some(v) => [1] + U64Bytes(v)
  }

  function ActionBytes(a: Option<VoterWeightAction>): seq<Byte> {
    match a
    case None => [0]
    case Some(v) => [1, ActionTag(v)]
  }

  function TargetBytes(t: Option<Key>): seq<Byte> {
    match t
    case None => [0]
    case Some(k) => [1] + k
  }

  function EncodeRecord(r: VoterWeightRecord): seq<Byte> {
    r.discriminator + r.realm + r.mint + r.owner + U64Bytes(r.voterWeight)
    + ExpiryBytes(r.voterWeightExpiry) + ActionBytes(r.weightAction)
    + TargetBytes(r.weightActionTarget) + r.reserved
  }

  function EncodeMax(r: MaxVoterWeightRecord): seq<Byte> {
    r.discriminator + r.realm + r.mint + U64Bytes(r.maxVoterWeight)
    + ExpiryBytes(r.maxVoterWeightExpiry) + r.reserved
  }

  // ---- One field at a time: both directions -------------------------------

  lemma TakeWritten(e: EightBytes, k: Key, v: U64, t: seq<Byte>)
    ensures TakeEight(e + t) == Parsed(e, t)
    ensures TakeKey(k + t) == Parsed(k, t)
    ensures TakeU64(U64Bytes(v) + t) == Parsed(v, t)
  {
    U64RoundTrip(v, e);
    assert (e + t)[..8] == e && (e + t)[8..] == t;
    assert (k + t)[..32] == k && (k + t)[32..] == t;
    var b := U64Bytes(v);
    assert (b + t)[..8] == b && (b + t)[8..] == t;
  }

  lemma TakeExpiryWritten(e: Option<U64>, t: seq<Byte>)
    ensures TakeOption(TakeU64, ExpiryBytes(e) + t) == Parsed(e, t)
  {
    var s := ExpiryBytes(e) + t;
    match e
    case None => assert s[1..] == t;
    case Some(v) =>
      assert s[1..] == U64Bytes(v) + t;
      TakeWritten(Zeros(8), DEFAULT_KEY, v, t);
  }

  lemma TakeActionWritten(a: Option<VoterWeightAction>, t: seq<Byte>)
    ensures TakeOption(TakeAction, ActionBytes(a) + t) == Parsed(a, t)
  {
  }

  lemma TakeTargetWritten(k: Option<Key>, t: seq<Byte>)
    ensures TakeOption(TakeKey, TargetBytes(k) + t) == Parsed(k, t)
  {
    var s := TargetBytes(k) + t;
    match k
    case None => assert s[1..] == t;
    case Some(v) =>
      assert s[1..] == v + t;
      TakeWritten(Zeros(8), v, 0, t);
  }

  lemma WrittenTaken(s: seq<Byte>)
    ensures TakeEight(s).Parsed? ==> s == TakeEight(s).value + TakeEight(s).rest
    ensures TakeKey(s).Parsed? ==> s == TakeKey(s).value + TakeKey(s).rest
    ensures TakeU64(s).Parsed? ==> s == U64Bytes(TakeU64(s).value) + TakeU64(s).rest
  {
    if |s| >= 8 {
      U64RoundTrip(0, s[..8]);
    }
  }

  lemma ExpiryTaken(s: seq<Byte>)
    requires TakeOption(TakeU64, s).Parsed?
    ensures var p := TakeOption(TakeU64, s); s == ExpiryBytes(p.value) + p.rest
  {
    WrittenTaken(s[1..]);
    assert s == [s[0]] + s[1..];
    if s[0] == 1 {
      var p := TakeU64(s[1..]);
      assert [1] + (U64Bytes(p.value) + p.rest) == ([1] + U64Bytes(p.value)) + p.rest;
    }
  }

  lemma ActionTaken(s: seq<Byte>)
    requires TakeOption(TakeAction, s).Parsed?
    ensures var p := TakeOption(TakeAction, s); s == ActionBytes(p.value) + p.rest
  {
  }

  lemma TargetTaken(s: seq<Byte>)
    requires TakeOption(TakeKey, s).Parsed?
    ensures var p := TakeOption(TakeKey, s); s == TargetBytes(p.value) + p.rest
  {
  }

  lemma Assoc(a: seq<Byte>, b: seq<Byte>, c: seq<Byte>)
    ensures (a + b) + c == a + (b + c)
  {
  }

  /** The image of a record in front of `tail`, regrouped from the left. */
  lemma RegroupRecord(r: VoterWeightRecord, tail: seq<Byte>)
    ensures EncodeRecord(r) + tail ==
            r.discriminator + (r.realm + (r.mint + (r.owner + (U64Bytes(r.voterWeight)
            + (ExpiryBytes(r.voterWeightExpiry) + (ActionBytes(r.weightAction)
            + (TargetBytes(r.weightActionTarget) + (r.reserved + tail))))))))
  {
  }

  // ---- Whole records ------------------------------------------------------

  /** Decoding undoes encoding whatever bytes follow, and consumes nothing of them. */
  lemma DecodeEncodedRecord(r: VoterWeightRecord, tail: seq<Byte>)
    ensures DecodeRecord(EncodeRecord(r) + tail) == Parsed(r, tail)
  {
    var s8 := r.reserved + tail;
    var s7 := TargetBytes(r.weightActionTarget) + s8;
    var s6 := ActionBytes(r.weightAction) + s7;
    var s5 := ExpiryBytes(r.voterWeightExpiry) + s6;
    var s4 := U64Bytes(r.voterWeight) + s5;
    var s3 := r.owner + s4;
    var s2 := r.mint + s3;
    var s1 := r.realm + s2;
    RegroupRecord(r, tail);
    TakeWritten(r.discriminator, r.realm, r.voterWeight, s1);
    TakeWritten(r.discriminator, r.realm, r.voterWeight, s2);
    TakeWritten(r.discriminator, r.mint, r.voterWeight, s3);
    TakeWritten(r.discriminator, r.owner, r.voterWeight, s4);
    TakeWritten(r.discriminator, r.owner, r.voterWeight, s5);
    TakeExpiryWritten(r.voterWeightExpiry, s6);
    TakeActionWritten(r.weightAction, s7);
    TakeTargetWritten(r.weightActionTarget, s8);
    TakeWritten(r.reserved, r.owner, r.voterWeight, tail);
  }

  /** Conversely, whatever decodes is the encoding of the result, then the rest. */
  lemma {:induction false} EncodeDecodedRecord(s: seq<Byte>)
    requires DecodeRecord(s).Parsed?
    ensures s == EncodeRecord(DecodeRecord(s).value) + DecodeRecord(s).rest
  {
    var p := DecodeRecord(s);
    var s1 := TakeEight(s).rest;
    var s2 := TakeKey(s1).rest;
    var s3 := TakeKey(s2).rest;
    var s4 := TakeKey(s3).rest;
    var s5 := TakeU64(s4).rest;
    var s6 := TakeOption(TakeU64, s5).rest;
    var s7 := TakeOption(TakeAction, s6).rest;
    var s8 := TakeOption(TakeKey, s7).rest;
    WrittenTaken(s);
    WrittenTaken(s1);
    WrittenTaken(s2);
    WrittenTaken(s3);
    WrittenTaken(s4);
    ExpiryTaken(s5);
    ActionTaken(s6);
    TargetTaken(s7);
    WrittenTaken(s8);
    RegroupRecord(p.value, p.rest);
  }

  lemma RegroupMax(r: MaxVoterWeightRecord, tail: seq<Byte>)
    ensures EncodeMax(r) + tail ==
            r.discriminator + (r.realm + (r.mint + (U64Bytes(r.maxVoterWeight)
            + (ExpiryBytes(r.maxVoterWeightExpiry) + (r.reserved + tail)))))
  {
  }

  lemma DecodeEncodedMax(r: MaxVoterWeightRecord, tail: seq<Byte>)
    ensures DecodeMax(EncodeMax(r) + tail) == Parsed(r, tail)
  {
    var s5 := r.reserved + tail;
    var s4 := ExpiryBytes(r.maxVoterWeightExpiry) + s5;
    var s3 := U64Bytes(r.maxVoterWeight) + s4;
    var s2 := r.mint + s3;
    var s1 := r.realm + s2;
    RegroupMax(r, tail);
    TakeWritten(r.discriminator, r.realm, r.maxVoterWeight, s1);
    TakeWritten(r.discriminator, r.realm, r.maxVoterWeight, s2);
    TakeWritten(r.discriminator, r.mint, r.maxVoterWeight, s3);
    TakeWritten(r.discriminator, r.mint, r.maxVoterWeight, s4);
    TakeExpiryWritten(r.maxVoterWeightExpiry, s5);
    TakeWritten(r.reserved, r.mint, r.maxVoterWeight, tail);
  }

  lemma EncodeDecodedMax(s: seq<Byte>)
    requires DecodeMax(s).Parsed?
    ensures s == EncodeMax(DecodeMax(s).value) + DecodeMax(s).rest
  {
    var p := DecodeMax(s);
    var s1 := TakeEight(s).rest;
    var s2 := TakeKey(s1).rest;
    var s3 := TakeKey(s2).rest;
    var s4 := TakeU64(s3).rest;
    var s5 := TakeOption(TakeU64, s4).rest;
    WrittenTaken(s);
    WrittenTaken(s1);
    WrittenTaken(s2);
    WrittenTaken(s3);
    ExpiryTaken(s4);
    WrittenTaken(s5);
    RegroupMax(p.value, p.rest);
  }

  /** Encoded lengths: never more than the account has room for; the upper bound is
      attained exactly when every option is present, the lower when none is. */
  lemma RecordLength(r: VoterWeightRecord)
    ensures 123 <= |EncodeRecord(r)| <= VOTER_WEIGHT_SPACE == 164
    ensures |EncodeRecord(r)| == VOTER_WEIGHT_SPACE <==>
              r.voterWeightExpiry.Some? && r.weightAction.Some? && r.weightActionTarget.Some?
    ensures |EncodeRecord(r)| == 123 <==>
              r.voterWeightExpiry.None? && r.weightAction.None? && r.weightActionTarget.None?
  {
  }

  lemma MaxLength(r: MaxVoterWeightRecord)
    ensures |EncodeMax(r)| == if r.maxVoterWeightExpiry.Some? then MAX_VOTER_WEIGHT_SPACE else 89
    ensures MAX_VOTER_WEIGHT_SPACE == 97
  {
  }

  // ---- One kind read as the other -----------------------------------------

  /** Decoding looks at no discriminator. A voter record passes for a quorum record exactly
      if byte 8 of its owner could be an option's tag, and then the realm and the mint are
      its own while weight, expiry and reserved bytes are bytes of the owner. */
  lemma RecordReadAsMax(r: VoterWeightRecord, tail: seq<Byte>)
    ensures DecodeMax(EncodeRecord(r) + tail).Parsed? <==> r.owner[8] <= 1
    ensures r.owner[8] <= 1 ==>
              DecodeMax(EncodeRecord(r) + tail).value ==
              if r.owner[8] == 0
              then MaxVoterWeightRecord(r.discriminator, r.realm, r.mint, U64Value(r.owner[..8]), None, r.owner[9..17])
              else MaxVoterWeightRecord(r.discriminator, r.realm, r.mint, U64Value(r.owner[..8]),
                                        Some(U64Value(r.owner[9..17])), r.owner[17..25])
  {
    RegroupRecord(r, tail);
    hide EncodeRecord, ExpiryBytes, ActionBytes, TargetBytes;
    var rest := U64Bytes(r.voterWeight) + (ExpiryBytes(r.voterWeightExpiry) + (ActionBytes(r.weightAction)
                + (TargetBytes(r.weightActionTarget) + (r.reserved + tail))));
    TakeWritten(r.discriminator, r.realm, 0, r.realm + (r.mint + (r.owner + rest)));
    TakeWritten(r.discriminator, r.realm, 0, r.mint + (r.owner + rest));
    TakeWritten(r.discriminator, r.mint, 0, r.owner + rest);
    var s := r.owner + rest;
    assert s[..8] == r.owner[..8];
    assert s[8] == r.owner[8];
    assert s[8..][1..] == s[9..] && s[9..][..8] == r.owner[9..17];
    assert s[9..][8..] == s[17..] && s[17..][..8] == r.owner[17..25];
    hide U64Value, U64Bytes;
  }

  /** The 97 bytes of a quorum record are too short to pass for a voter record. */
  lemma MaxNeverReadAsRecord(s: seq<Byte>)
    requires |s| < 123
    ensures DecodeRecord(s).Malformed?
  {
  }

  // ---- Account buffers ----------------------------------------------------

  /** What the framework's exit does to an account's bytes: the image overwrites
      the front, the bytes behind it stay; an image that does not fit is an error. */
  function Overwrite(buffer: seq<Byte>, image: seq<Byte>): (r: Outcome<seq<Byte>>)
    ensures r.Ok? <==> |image| <= |buffer|
    ensures r.Ok? ==> |r.value| == |buffer|
    ensures r.Err? ==> r.error == AccountDidNotSerialize
  {
    if |image| <= |buffer| then Ok(image + buffer[|image|..]) else Err(AccountDidNotSerialize)
  }

  lemma ZeroBytes()
    ensures U64Bytes(0) == Zeros(8)
  {
  }

  /** The zero-filled buffer that `init` allocates decodes: to a record of zeros
      whose options are all absent. */
  lemma ZerosDecode()
    ensures DecodeRecord(Zeros(VOTER_WEIGHT_SPACE)) == Parsed(ZERO_RECORD, Zeros(41))
  {
    ZeroBytes();
    var s := EncodeRecord(ZERO_RECORD);
    assert |s| == 123;
    assert forall i :: 0 <= i < 123 ==> s[i] == 0;
    assert s + Zeros(41) == Zeros(VOTER_WEIGHT_SPACE);
    DecodeEncodedRecord(ZERO_RECORD, Zeros(41));
  }

  lemma ZerosDecodeMax()
    ensures DecodeMax(Zeros(MAX_VOTER_WEIGHT_SPACE)) == Parsed(ZERO_MAX, Zeros(8))
  {
    ZeroBytes();
    var s := EncodeMax(ZERO_MAX);
    assert |s| == 89;
    assert forall i :: 0 <= i < 89 ==> s[i] == 0;
    assert s + Zeros(8) == Zeros(MAX_VOTER_WEIGHT_SPACE);
    DecodeEncodedMax(ZERO_MAX, Zeros(8));
  }

  /** Writing a record over any earlier contents succeeds and reads back as that
      record, whatever stale bytes remain behind the new image. */
  lemma OverwriteThenDecode(buffer: seq<Byte>, r: VoterWeightRecord)
    requires |buffer| == VOTER_WEIGHT_SPACE
    ensures var w := Overwrite(buffer, EncodeRecord(r));
            && w.Ok?
            && DecodeRecord(w.value) == Parsed(r, buffer[|EncodeRecord(r)|..])
  {
    RecordLength(r);
    DecodeEncodedRecord(r, buffer[|EncodeRecord(r)|..]);
  }

  lemma OverwriteThenDecodeMax(buffer: seq<Byte>, r: MaxVoterWeightRecord)
    requires |buffer| == MAX_VOTER_WEIGHT_SPACE
    ensures var w := Overwrite(buffer, EncodeMax(r));
            && w.Ok?
            && DecodeMax(w.value) == Parsed(r, buffer[|EncodeMax(r)|..])
  {
    MaxLength(r);
    DecodeEncodedMax(r, buffer[|EncodeMax(r)|..]);
  }

  // ---- Readers at fixed offsets -------------------------------------------

  /** The actions in the order in which the source declares them. */
  const ACTIONS := [CastVote, CommentProposal, CreateGovernance, CreateProposal, SignOffProposal]

  /** A client that knows the expiry to be present can read the leading fields of
      the account at fixed offsets, and the action behind them. */
  ghost predicate FixedOffsets(s: seq<Byte>, r: VoterWeightRecord)
    requires |s| == VOTER_WEIGHT_SPACE
  {
    && s[..8] == r.discriminator
    && s[8..40] == r.realm
    && s[40..72] == r.mint
    && s[72..104] == r.owner
    && U64Value(s[104..112]) == r.voterWeight
    && s[112] == 1
    && r.voterWeightExpiry == Some(U64Value(s[113..121]))
    && (s[121] == 0 <==> r.weightAction.None?)
    && (r.weightAction.None? ==> (s[122] == 0 <==> r.weightActionTarget.None?))
    && (r.weightAction.Some? && r.weightActionTarget.Some? ==> s[156..] == r.reserved)
    && (r.weightAction.Some? ==>
          && s[121] == 1
          && s[122] < 5 && ACTIONS[s[122]] == r.weightAction.value
          && (s[123] == 0 <==> r.weightActionTarget.None?)
          && (r.weightActionTarget.Some? ==> s[123] == 1 && s[124..156] == r.weightActionTarget.value))
  }

  lemma ReadAtOffsets(s: seq<Byte>, r: VoterWeightRecord)
    requires |s| == VOTER_WEIGHT_SPACE && DecodeRecord(s).Parsed? && DecodeRecord(s).value == r
    requires r.voterWeightExpiry.Some?
    ensures FixedOffsets(s, r)
  {
    EncodeDecodedRecord(s);
    var tail := DecodeRecord(s).rest;
    RegroupRecord(r, tail);
    var s8 := r.reserved + tail;
    var s7 := TargetBytes(r.weightActionTarget) + s8;
    var s6 := ActionBytes(r.weightAction) + s7;
    var s5 := ExpiryBytes(r.voterWeightExpiry) + s6;
    HeadAtOffsets(s, r.discriminator, r.realm, r.mint, r.owner, r.voterWeight, s5);
    ExpiryAtOffsets(s, r.voterWeightExpiry.value, s6);
    Drop(s, 121, ActionBytes(r.weightAction), s7);
    ActionAtOffsets(s, r, s7, s8);
    hide EncodeRecord, DecodeRecord, ExpiryBytes, ActionBytes, TargetBytes, U64Value, U64Bytes;
  }

  lemma HeadAtOffsets(s: seq<Byte>, disc: EightBytes, realm: Key, mint: Key, owner: Key, weight: U64, rest: seq<Byte>)
    requires s == disc + (realm + (mint + (owner + (U64Bytes(weight) + rest))))
    ensures |s| >= 112 && s[..8] == disc && s[8..40] == realm && s[40..72] == mint && s[72..104] == owner
    ensures U64Value(s[104..112]) == weight && s[112..] == rest
  {
    assert s[0..] == s;
    Drop(s, 0, disc, realm + (mint + (owner + (U64Bytes(weight) + rest))));
    Drop(s, 8, realm, mint + (owner + (U64Bytes(weight) + rest)));
    Drop(s, 40, mint, owner + (U64Bytes(weight) + rest));
    Drop(s, 72, owner, U64Bytes(weight) + rest);
    Drop(s, 104, U64Bytes(weight), rest);
    U64RoundTrip(weight, disc);
  }

  lemma ExpiryAtOffsets(s: seq<Byte>, expiry: U64, rest: seq<Byte>)
    requires |s| >= 121 && s[112..] == ExpiryBytes(Some(expiry)) + rest
    ensures s[112] == 1 && U64Value(s[113..121]) == expiry && s[121..] == rest
  {
    Assoc([1], U64Bytes(expiry), rest);
    Drop(s, 112, [1], U64Bytes(expiry) + rest);
    Drop(s, 113, U64Bytes(expiry), rest);
    U64RoundTrip(expiry, Zeros(8));
    assert s[112] == s[112..][0];
  }

  lemma ActionAtOffsets(s: seq<Byte>, r: VoterWeightRecord, s7: seq<Byte>, s8: seq<Byte>)
    requires |s| == VOTER_WEIGHT_SPACE
    requires s[121..] == ActionBytes(r.weightAction) + s7
    requires s7 == TargetBytes(r.weightActionTarget) + s8
    ensures s[121] == 0 <==> r.weightAction.None?
    ensures r.weightAction.None? ==> (s[122] == 0 <==> r.weightActionTarget.None?)
    ensures r.weightAction.Some? ==>
          && s[121] == 1
          && s[122] < 5 && ACTIONS[s[122]] == r.weightAction.value
          && (s[123] == 0 <==> r.weightActionTarget.None?)
          && (r.weightActionTarget.Some? ==> s[123] == 1 && s[124..156] == r.weightActionTarget.value)
    ensures r.weightAction.Some? && r.weightActionTarget.Some? ==> s[156..] == s8
  {
  }

  /** A client can read a quorum record at fixed offsets whatever its expiry. */
  ghost predicate MaxFixedOffsets(s: seq<Byte>, r: MaxVoterWeightRecord)
    requires |s| == MAX_VOTER_WEIGHT_SPACE
  {
    && s[..8] == r.discriminator
    && s[8..40] == r.realm
    && s[40..72] == r.mint
    && U64Value(s[72..80]) == r.maxVoterWeight
    && s[80] == (if r.maxVoterWeightExpiry.None? then 0 else 1)
    && (r.maxVoterWeightExpiry.Some? ==>
          U64Value(s[81..89]) == r.maxVoterWeightExpiry.value && s[89..] == r.reserved)
    && (r.maxVoterWeightExpiry.None? ==> s[81..89] == r.reserved)
  }

  lemma ReadMaxAtOffsets(s: seq<Byte>, r: MaxVoterWeightRecord)
    requires |s| == MAX_VOTER_WEIGHT_SPACE && DecodeMax(s).Parsed? && DecodeMax(s).value == r
    ensures MaxFixedOffsets(s, r)
  {
    EncodeDecodedMax(s);
    var tail := DecodeMax(s).rest;
    RegroupMax(r, tail);
    var s5 := r.reserved + tail;
    var s4 := ExpiryBytes(r.maxVoterWeightExpiry) + s5;
    var s3 := U64Bytes(r.maxVoterWeight) + s4;
    assert s[0..] == s;
    Drop(s, 0, r.discriminator, r.realm + (r.mint + s3));
    Drop(s, 8, r.realm, r.mint + s3);
    Drop(s, 40, r.mint, s3);
    Drop(s, 72, U64Bytes(r.maxVoterWeight), s4);
    U64RoundTrip(r.maxVoterWeight, r.reserved);
    assert s[80] == s[80..][0] == ExpiryBytes(r.maxVoterWeightExpiry)[0];
    if r.maxVoterWeightExpiry.Some? {
      var expiry := U64Bytes(r.maxVoterWeightExpiry.value);
      Assoc([1], expiry, s5);
      Drop(s, 80, [1], expiry + s5);
      Drop(s, 81, expiry, s5);
      U64RoundTrip(r.maxVoterWeightExpiry.value, r.reserved);
    }
  }

  /** If the bytes from `at` on are `field` then `rest`, the field is the slice there. */
  lemma Drop(s: seq<Byte>, at: nat, field: seq<Byte>, rest: seq<Byte>)
    requires at <= |s| && s[at..] == field + rest
    ensures at + |field| <= |s|
    ensures s[at..at + |field|] == field
    ensures s[at + |field|..] == rest
  {
  }
}
