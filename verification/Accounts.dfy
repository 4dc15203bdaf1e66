/** The wrapped records as the handlers hold them: loaded from a byte slice, assigned
    field by field, and written back over the account's data in place. */
module Accounts {
  import opened Bytes
  import opened Buffers
  import opened Records
  import opened Codec
  import opened Ledger

  /** A byte slice that reading advances, `&mut &[u8]`. */
  class Slice {
    var bytes: seq<Byte>

    constructor (bytes: seq<Byte>)
      ensures this.bytes == bytes
    {
      this.bytes := bytes;
    }
  }

  class RegistrarAccount {
    var governanceProgram: Key
    var realm: Key
    var mint: Key
    var minTrustScore: U16
    var maxVerificationAge: I64
    var reserved: seq<Byte>

    constructor (r: Registrar)
      ensures Value() == r
    {
      governanceProgram, realm, mint := r.governanceProgram, r.realm, r.mint;
      minTrustScore, maxVerificationAge, reserved := r.minTrustScore, r.maxVerificationAge, r.reserved;
    }

    function Value(): Registrar
      reads this
    {
      Registrar(governanceProgram, realm, mint, minTrustScore, maxVerificationAge, reserved)
    }

    /** `create_registrar` after its guards. */
    method Create(governanceProgram: Key, realm: Key, mint: Key, minTrustScore: U16, maxVerificationAge: I64)
      modifies this
      ensures Value() == Registrar(governanceProgram, realm, mint, minTrustScore, maxVerificationAge, old(reserved))
    {
      this.governanceProgram := governanceProgram;
      this.realm := realm;
      this.mint := mint;
      this.minTrustScore := minTrustScore;
      this.maxVerificationAge := maxVerificationAge;
    }

    /** `update_registrar` after its guards: only the two thresholds change. */
    method Update(minTrustScore: U16, maxVerificationAge: I64)
      modifies this
      ensures Value() == old(Value()).(minTrustScore := minTrustScore, maxVerificationAge := maxVerificationAge)
    {
      this.minTrustScore := minTrustScore;
      this.maxVerificationAge := maxVerificationAge;
    }
  }

  class VoterWeightRecordAccount {
    var discriminator: EightBytes
    var realm: Key
    var mint: Key
    var owner: Key
    var voterWeight: U64
    var voterWeightExpiry: Option<U64>
    var weightAction: Option<VoterWeightAction>
    var weightActionTarget: Option<Key>
    var reserved: EightBytes

    constructor (r: VoterWeightRecord)
      ensures Value() == r
    {
      discriminator, realm, mint, owner := r.discriminator, r.realm, r.mint, r.owner;
      voterWeight, voterWeightExpiry := r.voterWeight, r.voterWeightExpiry;
      weightAction, weightActionTarget, reserved := r.weightAction, r.weightActionTarget, r.reserved;
    }

    function Value(): VoterWeightRecord
      reads this
    {
      VoterWeightRecord(discriminator, realm, mint, owner, voterWeight, voterWeightExpiry,
                        weightAction, weightActionTarget, reserved)
    }

    static method TryDeserializeUnchecked(buf: Slice) returns (r: Outcome<VoterWeightRecordAccount>)
      modifies buf
      ensures var p := DecodeRecord(old(buf.bytes));
              if p.Parsed? then r.Ok? && fresh(r.value) && r.value.Value() == p.value && buf.bytes == p.rest
              else r == Err(AccountDidNotDeserialize) && buf.bytes == old(buf.bytes)
    {
      var parsed := DecodeRecord(buf.bytes);
      if parsed.Malformed? {
        return Err(AccountDidNotDeserialize);
      }
      var account := new VoterWeightRecordAccount(parsed.value);
      buf.bytes := parsed.rest;
      return Ok(account);
    }

    /** Writes the record over the front of the account's data. */
    method TrySerialize(writer: array<Byte>) returns (fault: Option<Error>)
      modifies writer
      ensures var w := Overwrite(old(writer[..]), EncodeRecord(Value()));
              if w.Ok? then fault == None && writer[..] == w.value
              else fault == Some(w.error) && writer[..] == old(writer[..])
    {
      var image := EncodeRecord(Value());
      if |image| > writer.Length {
        return Some(AccountDidNotSerialize);
      }
      CopyInto(writer, 0, image);
      return None;
    }

    /** `create_voter_weight_record` after its guards. */
    method Create(registrar: Registrar, governingTokenOwner: Key)
      modifies this
      ensures Value() == VoterWeightRecord(VOTER_WEIGHT_DISCRIMINATOR, registrar.realm, registrar.mint,
                                           governingTokenOwner, 0, Some(0), None, None, old(reserved))
    {
      discriminator := VOTER_WEIGHT_DISCRIMINATOR;
      realm := registrar.realm;
      mint := registrar.mint;
      owner := governingTokenOwner;
      voterWeight := 0;
      voterWeightExpiry := Some(0);
      weightAction := None;
      weightActionTarget := None;
    }

    /** `update_voter_weight_record` after its guards. */
    method Update(slot: U64)
      modifies this
      ensures Value() == old(Value()).(voterWeight := 1, weightAction := None, weightActionTarget := None,
                                       voterWeightExpiry := Some(if slot + 10 <= U64_MAX then slot + 10 else U64_MAX))
    {
      voterWeight := 1;
      voterWeightExpiry := Some(SaturatingAdd(slot, VOTER_WEIGHT_EXPIRY_SLOT_WINDOW));
      weightAction := None;
      weightActionTarget := None;
    }

    /** `update_voter_weight_record_for_action` after its guards. */
    method UpdateForAction(slot: U64, action: VoterWeightAction, target: Key)
      modifies this
      ensures Value() == old(Value()).(voterWeight := 1, voterWeightExpiry := Some(slot),
                                       weightAction := Some(action), weightActionTarget := Some(target))
    {
      voterWeight := 1;
      voterWeightExpiry := Some(slot);
      weightAction := Some(action);
      weightActionTarget := Some(target);
    }
  }

  class MaxVoterWeightRecordAccount {
    var discriminator: EightBytes
    var realm: Key
    var mint: Key
    var maxVoterWeight: U64
    var maxVoterWeightExpiry: Option<U64>
    var reserved: EightBytes

    constructor (r: MaxVoterWeightRecord)
      ensures Value() == r
    {
      discriminator, realm, mint := r.discriminator, r.realm, r.mint;
      maxVoterWeight, maxVoterWeightExpiry, reserved := r.maxVoterWeight, r.maxVoterWeightExpiry, r.reserved;
    }

    function Value(): MaxVoterWeightRecord
      reads this
    {
      MaxVoterWeightRecord(discriminator, realm, mint, maxVoterWeight, maxVoterWeightExpiry, reserved)
    }

    static method TryDeserializeUnchecked(buf: Slice) returns (r: Outcome<MaxVoterWeightRecordAccount>)
      modifies buf
      ensures var p := DecodeMax(old(buf.bytes));
              if p.Parsed? then r.Ok? && fresh(r.value) && r.value.Value() == p.value && buf.bytes == p.rest
              else r == Err(AccountDidNotDeserialize) && buf.bytes == old(buf.bytes)
    {
      var parsed := DecodeMax(buf.bytes);
      if parsed.Malformed? {
        return Err(AccountDidNotDeserialize);
      }
      var account := new MaxVoterWeightRecordAccount(parsed.value);
      buf.bytes := parsed.rest;
      return Ok(account);
    }

    method TrySerialize(writer: array<Byte>) returns (fault: Option<Error>)
      modifies writer
      ensures var w := Overwrite(old(writer[..]), EncodeMax(Value()));
              if w.Ok? then fault == None && writer[..] == w.value
              else fault == Some(w.error) && writer[..] == old(writer[..])
    {
      var image := EncodeMax(Value());
      if |image| > writer.Length {
        return Some(AccountDidNotSerialize);
      }
      CopyInto(writer, 0, image);
      return None;
    }

    /** `create_max_voter_weight_record` after its guards. */
    method Create(registrar: Registrar)
      modifies this
      ensures Value() == MaxVoterWeightRecord(MAX_VOTER_WEIGHT_DISCRIMINATOR, registrar.realm, registrar.mint,
                                              0, Some(0), old(reserved))
    {
      discriminator := MAX_VOTER_WEIGHT_DISCRIMINATOR;
      realm := registrar.realm;
      mint := registrar.mint;
      maxVoterWeight := 0;
      maxVoterWeightExpiry := Some(0);
    }

    /** `update_max_voter_weight_record` after its guards. */
    method Update(weight: U64)
      modifies this
      ensures Value() == old(Value()).(maxVoterWeight := weight, maxVoterWeightExpiry := None)
    {
      maxVoterWeight := weight;
      maxVoterWeightExpiry := None;
    }
  }
}
