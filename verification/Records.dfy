/** The accounts the plugin stores, and the errors its instructions report. */
module Records {
  import opened Bytes

  datatype Option<+T> = None | Some(value: T)

  /** Every way an instruction can fail: the program's own error codes first,
      then those of the framework and of the governance library. */
  datatype Error =
    | InvalidRealmAuthority
    | MissingIdentityAccount
    | InvalidIdentityPda
    | InvalidIdentityOwner
    | InvalidIdentityData
    | InsufficientTrustScore
    | VerificationExpired
    | VoterWeightRecordRealmMismatch
    | VoterWeightRecordMintMismatch
    | VoterWeightRecordOwnerMismatch
    | RealmHasNoAuthority
    | GoverningTokenOwnerSignerMismatch
    | InvalidMaxVerificationAge
    | InvalidMaxVoterWeight
    | InvalidWeightActionTarget
    | AccountNotInitialized
    | AccountAlreadyInUse
    | AccountNotSigner
    | AccountDidNotDeserialize
    | AccountDidNotSerialize
    | ConstraintRaw
    | ConstraintSeeds
    | ConstraintOwner
    | ConstraintExecutable
    | RealmDataRejected

  datatype Outcome<+T> = Ok(value: T) | Err(error: Error)

  datatype Registrar = Registrar(
    governanceProgram: Key,
    realm: Key,
    mint: Key,
    minTrustScore: U16,
    maxVerificationAge: I64,
    reserved: seq<Byte>)

  datatype VoterWeightAction =
    | CastVote
    | CommentProposal
    | CreateGovernance
    | CreateProposal
    | SignOffProposal

  datatype VoterWeightRecord = VoterWeightRecord(
    discriminator: EightBytes,
    realm: Key,
    mint: Key,
    owner: Key,
    voterWeight: U64,
    voterWeightExpiry: Option<U64>,
    weightAction: Option<VoterWeightAction>,
    weightActionTarget: Option<Key>,
    reserved: EightBytes)

  datatype MaxVoterWeightRecord = MaxVoterWeightRecord(
    discriminator: EightBytes,
    realm: Key,
    mint: Key,
    maxVoterWeight: U64,
    maxVoterWeightExpiry: Option<U64>,
    reserved: EightBytes)

  // The two discriminators are defined by the addin crate, which is not part of
  // this model. No lemma depends on which eight bytes they are.
  const VOTER_WEIGHT_DISCRIMINATOR: EightBytes := Ascii("2ef99b4b")
  const MAX_VOTER_WEIGHT_DISCRIMINATOR: EightBytes := Ascii("9d5ff297")

  /** The records that `init` hands to a handler: all zero. */
  const ZERO_RECORD := VoterWeightRecord(
    Zeros(8), DEFAULT_KEY, DEFAULT_KEY, DEFAULT_KEY, 0, None, None, None, Zeros(8))

  const ZERO_REGISTRAR := Registrar(DEFAULT_KEY, DEFAULT_KEY, DEFAULT_KEY, 0, 0, Zeros(64))

  const ZERO_MAX := MaxVoterWeightRecord(Zeros(8), DEFAULT_KEY, DEFAULT_KEY, 0, None, Zeros(8))

  /** How spl-governance reads a record at `slot` for an action on a target: not
      past its expiry, and bound to nothing else. */
  predicate Usable(r: VoterWeightRecord, slot: U64, action: VoterWeightAction, target: Key) {
    && Unexpired(r, slot)
    && (r.weightAction.Some? ==> r.weightAction.value == action)
    && (r.weightActionTarget.Some? ==> r.weightActionTarget.value == target)
  }

  predicate Unexpired(r: VoterWeightRecord, slot: U64) {
    r.voterWeightExpiry.Some? ==> slot <= r.voterWeightExpiry.value
  }
}
