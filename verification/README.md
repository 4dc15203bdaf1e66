# Entros voter-weight plugin: a verified model

The plugin keeps one registrar and one quorum record per (realm, mint) and one voter-weight record
per (realm, mint, wallet). Its nine instructions create, update and close these accounts. This
project models all nine as a state machine and proves what holds after every run of it, with any
signers, any supplied addresses, and any behaviour of the world in between: the slot advances, the
clock jumps, other programs rewrite identity accounts and realm accounts.

The model has three layers.

- **Values** (`Ledger.dfy`). `Handle` maps a ledger of record values, a set of signers and an
  instruction to the one account it writes back, or to the error it reports. A failed instruction
  changes nothing. `Run` is a sequence of steps.
- **Bytes** (`Codec.dfy`, `ByteLedger.dfy`). The two wrapped records live in fixed buffers of 164
  and 97 bytes. They are decoded when loaded, and their variable-length Borsh images overwrite the
  front of the buffer on exit, leaving stale bytes behind. `BytesRefineValues` shows that over every
  run this is the ledger of values.
- **Memory** (`Buffers.dfy`, `Accounts.dfy`, `Program.dfy`). Classes with the source's mutable
  fields, account data as arrays written in place, one method per handler. Each method is proved to
  do exactly what the byte layer says; `Process` ties a whole instruction back to the ledger of values.

The rest are theorems: the invariant of reachable ledgers (`Invariants.dfy`), when instructions
succeed (`Authorization.dfy`), what they report when they do not (`Refusals.dfy`), what they leave behind
and what is in force after a run (`Effects.dfy`), where weight comes from (`Provenance.dfy`), one vote per wallet
(`Tally.dfy`), independence of wallets (`NonInterference.dfy`), the realm's hold over policy
(`Policy.dfy`), and from update to vote (`Settlement.dfy`). `Bytes.dfy` holds integers and their
little-endian images, `Identity.dfy` the identity account and the recency test, `Addresses.dfy` the
derived addresses, `ProgramIds.dfy` the two program ids, `Records.dfy` the stored data types, and
`Environment.dfy` shows that the world between the steps is bound by nothing else than stated.

Statements over runs say `Before(init, steps, i)` for the ledger before step `i`. A run starts in any
ledger in which the plugin holds no accounts (`Initial`); the world around it is arbitrary.

Where the code and its documentation disagree, the model follows the code:

- The window of a standalone update is 10 slots
  (`programs/entros-voter-weight/src/instructions/update_voter_weight_record.rs:25`), not the 100 of
  `README.md:34`.
- A verification dated in the future has a negative age and is accepted, unless it lies more than
  2^63 seconds ahead; the comment at `tests/entros-voter-weight.ts:249-258` says it is rejected.

Assumptions about what is outside the repository:

- A program-derived address is taken as the program and the seed bytes, so that two addresses are
  equal exactly when these are. What is proved is that the seed bytes name one account each.
- Every kind of account has its own table: an instruction is handed registrars, voter records and quorum
  records of the plugin only where it loads that kind. The wrappers themselves look at no discriminator
  (`programs/entros-voter-weight/src/governance.rs:26-33`, `:97-104`), so this does not follow from the code
  for a voter record supplied as a quorum record; `Codec.RecordReadAsMax` is the exact condition under which
  such a record would decode.
- When several checks fail, the framework's come before the handler's: existence of the accounts,
  then signatures, then constraints in declaration order, `init` before the rest.
- The governance library reports a realm's authority if the realm account is owned by the given
  program and the mint is one of the realm's. It accepts a record that is not past its expiry and is
  bound to no other action or target, as the integration tests show
  (`tests/entros-voter-weight-integration.ts:935-1167`).
- The two account discriminators of the addin crate, which is not part of this model, are constants
  on whose bytes no lemma depends.

## Model

| member | source | states |
|---|---|---|
| Bytes.LeBytesOfValue | programs/entros-voter-weight/src/instructions/update_voter_weight_record.rs:95-107 | every byte string is the little-endian image of the number it is read as |
| Bytes.I64RoundTrip | programs/entros-voter-weight/src/instructions/update_voter_weight_record.rs:95-100 | two's-complement images of signed integers read back, and reads write back, negative values included |
| Bytes.UnsignedDigits | programs/entros-voter-weight/src/instructions/update_voter_weight_record.rs:103-107 | two and eight bytes are read as the sum of byte i times 256^i, written out |
| Bytes.SignedDigits | programs/entros-voter-weight/src/instructions/update_voter_weight_record.rs:95-100 | signed integers are read as that sum with the top byte counted from -128 to 127 |
| Codec.DecodeEncodedRecord | programs/entros-voter-weight/src/governance.rs:26-41 | for every record and every tail, decoding its image returns the record and leaves exactly the tail |
| Codec.EncodeDecodedRecord | programs/entros-voter-weight/src/governance.rs:26-33 | any buffer that decodes is the image of the result followed by what was left unread |
| Codec.DecodeEncodedMax | programs/entros-voter-weight/src/governance.rs:97-112 | the same round trip for quorum records |
| Codec.EncodeDecodedMax | programs/entros-voter-weight/src/governance.rs:97-104 | the converse for quorum records |
| Codec.RecordLength | programs/entros-voter-weight/src/governance.rs:13-23 | images are 123 to 164 bytes long; the space reserved is the upper bound, attained exactly when all three options are present |
| Codec.MaxLength | programs/entros-voter-weight/src/governance.rs:87-94 | quorum images are 89 or 97 bytes long, 97 being the space reserved |
| Codec.RecordReadAsMax | programs/entros-voter-weight/src/governance.rs:97-104 | a voter record's data decode as a quorum record exactly if byte 8 of its owner is 0 or 1, whatever follows; realm and mint are then its own, the rest bytes of the owner |
| Codec.MaxNeverReadAsRecord | programs/entros-voter-weight/src/governance.rs:26-33 | data shorter than 123 bytes, as every quorum record is, never decode as a voter record |
| Codec.ZerosDecode | programs/entros-voter-weight/src/instructions/create_voter_weight_record.rs:15-27 | the zero-filled buffer of a new record decodes, to zeros with every option absent |
| Codec.ZerosDecodeMax | programs/entros-voter-weight/src/instructions/create_max_voter_weight_record.rs:15-26 | the same for a new quorum record |
| Codec.OverwriteThenDecode | programs/entros-voter-weight/src/governance.rs:35-41 | writing any record over any earlier contents of its buffer fits, and reads back as that record with the stale bytes behind it |
| Codec.OverwriteThenDecodeMax | programs/entros-voter-weight/src/governance.rs:106-112 | the same for quorum records |
| Codec.ReadAtOffsets | programs/entros-voter-weight/src/instructions/update_voter_weight_record.rs:238-284 | if the expiry is present, fixed offsets 8 to 155 read the fields that decoding gives |
| Codec.ReadMaxAtOffsets | tests/entros-voter-weight-integration.ts:797-805 | fixed offsets 8 to 88 of a quorum record read the fields that decoding gives |
| Identity.ReadWrittenIdentity | programs/entros-voter-weight/src/instructions/update_voter_weight_record.rs:79-107 | laying the identity fields out in sequence and reading at offsets 48 and 60 returns the written timestamp and score, for all fields and tails, and refuses every other discriminator |
| Identity.WrittenReadIdentity | programs/entros-voter-weight/src/instructions/update_voter_weight_record.rs:79-107 | whatever passes the guards is a laid-out identity with the timestamp and score that were read |
| Identity.ReadsWhatItHolds | programs/entros-voter-weight/src/instructions/update_voter_weight_record.rs:79-107 | data are an identity laid out with some timestamp and score exactly if the guards pass and these are read |
| Identity.IdentityBytes | programs/entros-voter-weight/src/instructions/update_voter_weight_record.rs:79-107 | data are read exactly if there are at least 62 bytes of which the first eight are 156, 32, 87, 93, 52, 155, 248, 207; the score is then bytes 60 and 61, the timestamp bytes 48 to 55 in two's complement, written out byte by byte |
| Identity.ImageFields | scripts/generate-test-fixtures.ts:62-97 | at which offsets the writer's layout holds discriminator, owner, both timestamps, count and score |
| Identity.BuildIdentityStateData | scripts/generate-test-fixtures.ts:62-97 | the fixture writer, filling its buffer in place, produces that layout, and throws exactly when a number does not fit its field |
| Identity.RecentMeetsIdeal | programs/entros-voter-weight/src/instructions/update_voter_weight_record.rs:117-126 | the saturating age test is `now - last < limit` over unbounded integers except on underflow, hence for all timestamps exactly when the clock is at least -1 |
| Identity.FutureVerificationIsRecent | programs/entros-voter-weight/src/instructions/update_voter_weight_record.rs:117-126 | a verification dated ahead of the clock is accepted exactly up to 2^63 seconds ahead |
| Addresses.SeedsInjective | programs/entros-voter-weight/src/instructions/create_voter_weight_record.rs:15-23 | seed strings of one kind are equal exactly when their keys are |
| Addresses.SeedKindsApart | programs/entros-voter-weight/src/instructions/create_max_voter_weight_record.rs:15-22 | registrar, voter and quorum seed strings never coincide |
| Addresses.NamesRegistrar | programs/entros-voter-weight/src/instructions/create_registrar.rs:10-17 | an address is the registrar's exactly if it is the plugin's and its 73 seed bytes are the nine of the prefix, the realm, the mint |
| Addresses.NamesRecord | programs/entros-voter-weight/src/instructions/create_voter_weight_record.rs:15-23 | an address is the voter record's exactly if it is the plugin's and its 115 seed bytes are the 19 of the prefix, realm, mint and owner in this order |
| Addresses.NamesMaxRecord | programs/entros-voter-weight/src/instructions/create_max_voter_weight_record.rs:15-22 | the same for quorum records: 87 bytes, a prefix of 23, realm, mint |
| Addresses.NamesIdentity | programs/entros-voter-weight/src/instructions/update_voter_weight_record.rs:72-78 | the same for identity accounts, which are derived under the Entros program: 40 bytes, a prefix of eight, the voter |
| ProgramIds.EntrosIdAsWritten | programs/entros-voter-weight/src/instructions/update_voter_weight_record.rs:6-10 | the 32 bytes of the Entros program are the one key with the base-58 text given for it |
| ProgramIds.PluginIdAsDeclared | programs/entros-voter-weight/src/lib.rs:14 | the 32 bytes of the plugin are the one key with the declared base-58 text |
| Invariants.HandleWritesGood | programs/entros-voter-weight/src/instructions/update_voter_weight_record.rs:141-186 | in a good ledger every instruction writes a well-shaped account at its own derived address |
| Invariants.RunKeepsInv | programs/entros-voter-weight/src/lib.rs:17-85 | the shape and address of every account are kept by every run from any ledger that has them |
| Invariants.ReachableInv | programs/entros-voter-weight/src/lib.rs:17-85 | after every run: positive age limits; quorum records (0, expired) or (positive, never expiring); voter records born, standalone or fully bound to a real target; each account at the address of its own fields |
| Invariants.AddressFixesRecord | programs/entros-voter-weight/src/instructions/update_voter_weight_record.rs:35-47 | records at one address agree, in any two reachable ledgers, on everything but weight, expiry and binding |
| Invariants.AddressFixesPolicy | programs/entros-voter-weight/src/instructions/update_max_voter_weight_record.rs:15-20 | the same for registrars and quorum records and their identifying fields |
| Authorization.FieldsNameTheAddress | programs/entros-voter-weight/src/instructions/update_voter_weight_record.rs:35-58 | in a reachable ledger the realm, mint and owner comparisons hold exactly for the record at the derived address, which the code never derives |
| Authorization.EntrosOwns | programs/entros-voter-weight/src/instructions/update_voter_weight_record.rs:64-70 | an account passes the owner check exactly if its owner is the 32 literal bytes |
| Authorization.UpdateSucceedsIff | programs/entros-voter-weight/src/instructions/update_voter_weight_record.rs:28-155 | a standalone update succeeds exactly for a signing, eligible wallet with its own record and its own identity account |
| Authorization.UpdateForActionSucceedsIff | programs/entros-voter-weight/src/instructions/update_voter_weight_record.rs:157-187 | an action-bound update succeeds in the same cases, the target not being the default key |
| Authorization.CloseSucceedsIff | programs/entros-voter-weight/src/instructions/close_voter_weight_record.rs:7-40 | a record is closed exactly by its signing owner while its registrar exists |
| Authorization.CreateRecordSucceedsIff | programs/entros-voter-weight/src/instructions/create_voter_weight_record.rs:8-53 | a record is created exactly by its signing owner, under a registrar, when that record does not exist; no other account can block it |
| Authorization.CreateRegistrarSucceedsIff | programs/entros-voter-weight/src/instructions/create_registrar.rs:8-81 | a registrar is created exactly by the signing realm authority, once, with a positive age limit, with the given fields |
| Authorization.UpdateRegistrarSucceedsIff | programs/entros-voter-weight/src/instructions/update_registrar.rs:8-58 | thresholds are changed exactly by the signing realm authority, to a positive age limit, and nothing else changes |
| Authorization.CloseRegistrarSucceedsIff | programs/entros-voter-weight/src/instructions/close_registrar.rs:8-48 | a registrar is closed exactly by the signing realm authority |
| Authorization.CreateMaxSucceedsIff | programs/entros-voter-weight/src/instructions/create_max_voter_weight_record.rs:8-68 | the quorum record is created exactly by the signing realm authority, once, for the registrar's realm and mint, with weight 0 and expiry 0 and nothing else changed; no other account can block it |
| Authorization.UpdateMaxSucceedsIff | programs/entros-voter-weight/src/instructions/update_max_voter_weight_record.rs:8-65 | the quorum is set exactly by the signing realm authority, on the record at the derived address, to the positive weight asked for, never to expire, and nothing else changes |
| Refusals.RefusalNamesTheCause | programs/entros-voter-weight/src/error.rs:4-49 | in every reachable ledger every one of the nine instructions succeeds exactly if none of 23 independently stated defects is there, and otherwise reports the first of them in one fixed order |
| Refusals.AuthorityFaultIsFirst | programs/entros-voter-weight/src/instructions/create_registrar.rs:57-71 | of the three defects of a realm (unfit for program or mint, without authority, governed by another) the first is reported; the same code in five instructions |
| Refusals.VoterFaultIsFirst | programs/entros-voter-weight/src/instructions/update_voter_weight_record.rs:54-126 | of a foreign owner and the six defects of the identity evidence the first is reported |
| Effects.InstructionEffect | programs/entros-voter-weight/src/lib.rs:17-85 | what each of the nine instructions leaves when it succeeds, every field written out and every other account untouched; a failed one leaves the ledger as it was |
| Effects.QuorumWasCreated | programs/entros-voter-weight/src/instructions/create_max_voter_weight_record.rs:41-68 | over every run a quorum record that is there was created in it |
| Effects.QuorumStays | programs/entros-voter-weight/src/instructions/update_max_voter_weight_record.rs:30-65 | a quorum record once created or set is there for good |
| Effects.QuorumStartsEmpty | programs/entros-voter-weight/src/instructions/create_max_voter_weight_record.rs:64-65 | over every run a quorum record that was never set has weight 0 and expiry 0 |
| Effects.QuorumIsLastSet | programs/entros-voter-weight/src/instructions/update_max_voter_weight_record.rs:60-62 | over every run the quorum is the argument of the last successful update, and never expires |
| Effects.QuorumNeverExpiresOnceSet | programs/entros-voter-weight/src/instructions/update_max_voter_weight_record.rs:60-62 | a quorum record is there and never expires exactly if it was created and then set |
| Effects.PolicyIsLastSet | programs/entros-voter-weight/src/instructions/update_registrar.rs:53-55 | over every run the registrar is what the last successful step on it made it: created with its arguments, updated to its arguments, or gone |
| Effects.NoPolicyUntouched | programs/entros-voter-weight/src/instructions/create_registrar.rs:73-78 | there is no registrar that no step of the run created |
| Provenance.RecordAfterStep | programs/entros-voter-weight/src/instructions/update_voter_weight_record.rs:131-187 | after one step a record is unchanged, newly born with weight 0, or granted by its eligible owner |
| Provenance.WeightIsGranted | programs/entros-voter-weight/src/instructions/update_voter_weight_record.rs:131-187 | every positive weight in a reachable ledger is the work of a step of the run, signed by the owner and judged by the policy then in force |
| Provenance.UsableWeightIsRecent | programs/entros-voter-weight/src/instructions/update_voter_weight_record.rs:146-186 | positive weight usable at a slot was so granted at most ten slots before; in that very slot, and for that action and target, if bound; also at the top of the slot range |
| Tally.OneRecordPerWallet | programs/entros-voter-weight/src/instructions/create_voter_weight_record.rs:15-26 | a wallet holds at most one record per (realm, mint) |
| Tally.TotalIsHeadcount | programs/entros-voter-weight/src/instructions/update_voter_weight_record.rs:143-144 | the countable weight over any set of records is the number of distinct wallets behind it |
| Tally.OneVotePerWallet | programs/entros-voter-weight/src/instructions/update_voter_weight_record.rs:143-148 | after every run the countable weight of a (realm, mint) is at most the number of distinct wallets that updated in the last ten slots |
| NonInterference.OthersDoNotMatter | programs/entros-voter-weight/src/instructions/update_voter_weight_record.rs:35-58 | erasing every create, update and close of all other wallets from a run leaves a wallet's records, the policy and the world as they were |
| NonInterference.RecordStepsCommute | programs/entros-voter-weight/src/instructions/close_voter_weight_record.rs:14-37 | record steps of two wallets can change places in any reachable ledger |
| Policy.OnlyTheAuthorityChangesPolicy | programs/entros-voter-weight/src/instructions/create_registrar.rs:64-71 | no step changes a realm's registrar or quorum record without the signature of the realm's present authority |
| Policy.FrozenPolicy | programs/entros-voter-weight/src/instructions/close_registrar.rs:38-45 | while a realm has no authority, its registrars and quorum records are never created, changed or removed |
| Policy.VotersNeedNoAuthority | programs/entros-voter-weight/src/instructions/close_voter_weight_record.rs:6-40 | creating, updating and closing records comes out the same whatever becomes of the realm accounts |
| Policy.StandingWeightIsLater | programs/entros-voter-weight/src/instructions/update_voter_weight_record.rs:146-148 | weight standing more than ten slots after any step was granted after that step |
| Policy.NewPolicyTakesHold | programs/entros-voter-weight/src/instructions/update_registrar.rs:53-55 | ten slots after `update_registrar`, every standing weight was granted under the stored registrar with the thresholds set by it, and met them |
| Policy.ClosedRealmHasNoWeight | programs/entros-voter-weight/src/instructions/close_registrar.rs:7-48 | ten slots after `close_registrar`, without re-creation, no weight of that realm and mint stands |
| Environment.AnyWorldCanFollow | programs/entros-voter-weight/src/instructions/update_voter_weight_record.rs:110-121 | from any ledger the world can come to be any other with the slot not turned back and the plugin's own addresses left alone: any clock, identity accounts, realm accounts and programs |
| Environment.HappeningsStayOutside | programs/entros-voter-weight/src/instructions/update_voter_weight_record.rs:110-121 | no step of the world does anything else |
| Settlement.FreshVoterIsNeverLockedOut | programs/entros-voter-weight/src/instructions/create_registrar.rs:43-51 | in every reachable ledger a just-verified wallet with a sufficient score, its record and its registrar succeeds in updating |
| Settlement.AcceptingTimes | programs/entros-voter-weight/src/instructions/update_voter_weight_record.rs:111-126 | for any identity with a sufficient score the clock values that admit the voter are one interval; from -1 on, exactly those below verification plus limit |
| Settlement.StricterPolicyAdmitsFewer | programs/entros-voter-weight/src/instructions/update_voter_weight_record.rs:111-126 | a policy turns away in every world all whom another turns away exactly if its floor is no lower and its age limit no higher, or if it admits nobody at all |
| Settlement.KeptUntilClosed | programs/entros-voter-weight/src/instructions/close_voter_weight_record.rs:7-40 | without an update of it a record keeps its contents over any steps until it is closed, and has no weight after that |
| Settlement.OnlyTheOwnerEndsIt | programs/entros-voter-weight/src/instructions/close_voter_weight_record.rs:32-40 | over any steps that its owner does not sign a record stays as it is, whatever other wallets, realm authorities and the world do |
| Settlement.BoundToOneUse | programs/entros-voter-weight/src/instructions/update_voter_weight_record.rs:174-184 | after an action-bound update the vote is usable for exactly that action, target and slot |
| Settlement.SettlesInSlotOrNever | programs/entros-voter-weight/src/instructions/update_voter_weight_record.rs:157-187 | after any further steps that do not update the record, governance can take the vote exactly for the bound action and target, in the same slot, if the record has not been closed |
| Settlement.StandaloneLastsTenSlots | programs/entros-voter-weight/src/instructions/update_voter_weight_record.rs:143-152 | after a standalone update the vote is usable for any action and target, exactly up to ten slots later |
| Settlement.StandaloneSettlesInWindow | programs/entros-voter-weight/src/instructions/update_voter_weight_record.rs:131-155 | after any further steps that do not update the record, governance can take the vote exactly up to ten slots later, if the record has not been closed |
| Settlement.NobodyElseTakesTheVote | programs/entros-voter-weight/src/instructions/update_voter_weight_record.rs:131-187 | as long as the voter signs nothing more, a granted vote is there for exactly the slots, action and target it was granted for, whatever anyone else does |
| Settlement.OrphansSurvive | programs/entros-voter-weight/src/instructions/close_registrar.rs:9-15 | while a registrar is absent no record of its realm and mint is created, changed or removed |
| Settlement.OrphanRecovers | programs/entros-voter-weight/src/instructions/close_voter_weight_record.rs:8-22 | once the registrar is created anew the owner can close the very same record, can update it by either instruction exactly when eligible (and with a real target), and cannot create another |
| ByteLedger.HandlersAgree | programs/entros-voter-weight/src/governance.rs:26-41 | each instruction over buffers writes what the instruction over values writes, or reports the same error |
| ByteLedger.BytesRefineValues | programs/entros-voter-weight/src/governance.rs:12-112 | over every run the buffers decode to exactly the ledger of values |
| ByteLedger.NeverOutOfSpace | programs/entros-voter-weight/src/governance.rs:13-23 | no instruction of any run fails to decode an account or to find room for its image |
| ByteLedger.MalformedIsRefused | programs/entros-voter-weight/src/governance.rs:26-33 | an account whose data do not decode is refused with that error, whatever else is right or wrong |
| ByteLedger.FixedOffsetReadersAgree | tests/entros-voter-weight-integration.ts:274-287 | in every reachable byte ledger, reading a record at fixed offsets gives what decoding gives |
| ByteLedger.MaxFixedOffsetReadersAgree | tests/entros-voter-weight-integration.ts:797-826 | the same for quorum records, whatever their expiry |
| Accounts.VoterWeightRecordAccount.TryDeserializeUnchecked | programs/entros-voter-weight/src/governance.rs:27-32 | loads the decoded record and advances the slice past it, or reports the decoding error |
| Accounts.VoterWeightRecordAccount.TrySerialize | programs/entros-voter-weight/src/governance.rs:36-40 | overwrites the front of the data in place and keeps the rest, or reports that the image does not fit |
| Accounts.MaxVoterWeightRecordAccount.TryDeserializeUnchecked | programs/entros-voter-weight/src/governance.rs:98-103 | the same for quorum records |
| Accounts.MaxVoterWeightRecordAccount.TrySerialize | programs/entros-voter-weight/src/governance.rs:107-111 | the same for quorum records |
| Program.EntrosVoterWeight.CreateRegistrar | programs/entros-voter-weight/src/instructions/create_registrar.rs:38-81 | the handler's report and whole effect are those of the byte ledger |
| Program.EntrosVoterWeight.UpdateRegistrar | programs/entros-voter-weight/src/instructions/update_registrar.rs:24-58 | the same |
| Program.EntrosVoterWeight.CloseRegistrar | programs/entros-voter-weight/src/instructions/close_registrar.rs:29-48 | the same |
| Program.EntrosVoterWeight.CreateVoterWeightRecord | programs/entros-voter-weight/src/instructions/create_voter_weight_record.rs:45-69 | the same, from the zero-filled buffer |
| Program.EntrosVoterWeight.UpdateVoterWeightRecord | programs/entros-voter-weight/src/instructions/update_voter_weight_record.rs:131-155 | the same, written in place with no other account's data touched |
| Program.EntrosVoterWeight.UpdateVoterWeightRecordForAction | programs/entros-voter-weight/src/instructions/update_voter_weight_record.rs:157-187 | the same |
| Program.EntrosVoterWeight.CloseVoterWeightRecord | programs/entros-voter-weight/src/instructions/close_voter_weight_record.rs:32-40 | the same |
| Program.EntrosVoterWeight.CreateMaxVoterWeightRecord | programs/entros-voter-weight/src/instructions/create_max_voter_weight_record.rs:41-68 | the same, from the zero-filled buffer |
| Program.EntrosVoterWeight.UpdateMaxVoterWeightRecord | programs/entros-voter-weight/src/instructions/update_max_voter_weight_record.rs:30-65 | the same |
| Program.EntrosVoterWeight.Process | programs/entros-voter-weight/src/lib.rs:17-85 | every instruction, dispatched to its handler, also makes the step of the ledger of values that its bytes hold |

## Left out

- Address derivation by hashing and the search for an off-curve bump: an address stands for its seed bytes.
- The governance library itself: a realm account is reduced to its owner, authority and mints, and the
  reader of records to `Usable`.
- Invariants.ReachableInv: does not cover an account of one kind supplied where another is loaded (see the
  assumptions); `Codec.RecordReadAsMax` and `Codec.MaxNeverReadAsRecord` say which data would decode.
- The registrar's own serialization: it has no optional fields, so its image has one length; registrars
  are stored as values in all layers.
- Rent, payers, lamports and `sol_destination`: closing removes the account.
- Writing an image that does not fit: the model reports the error before it writes, the runtime discards
  a partial write with the failed transaction.
- Transactions of several instructions: a run is a sequence of single steps.
- Identity.BuildIdentityStateData: numbers are integers, not floating-point values, and the commitment,
  mint and bump fields behind the score are the zeros that the writer leaves.
- Transaction building, network access, fixture files, test and deployment scripts, and the interface
  description: input and output only.
- Predecessor records and plugin chaining: planned in the repository, not part of its code.
