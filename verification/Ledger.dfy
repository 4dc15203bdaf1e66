/** The plugin as a state machine: its nine instructions over the accounts it
    stores, among environment steps it has no control over. */
module Ledger {
  import opened Bytes
  import opened Records
  import opened Identity
  import opened Addresses

  /** An account of some other program, such as an identity account. */
  datatype ExternalAccount = ExternalAccount(owner: Key, data: seq<Byte>)

  /** What the governance library reads from a realm account. */
  datatype RealmAccount = RealmAccount(owner: Key, authority: Option<Key>, mints: set<Key>)

  /** What the plugin has no control over. */
  datatype World = World(
    external: map<Address, ExternalAccount>,
    realms: map<Key, RealmAccount>,
    executables: set<Key>,
    slot: U64,
    now: I64)

  /** The plugin's accounts and the world around them. `R` and `M` are how the two
      wrapped records are stored: as values here, as byte buffers in the layer below. */
  datatype State<R, M> = State(
    registrars: map<Address, Registrar>,
    records: map<Address, R>,
    maxRecords: map<Address, M>,
    world: World)

  type Ledger = State<VoterWeightRecord, MaxVoterWeightRecord>

  datatype Instruction =
    | CreateRegistrar(registrar: Address, governanceProgram: Key, realm: Key, mint: Key,
                      realmAuthority: Key, minTrustScore: U16, maxVerificationAge: I64)
    | UpdateRegistrar(registrar: Address, realm: Key, realmAuthority: Key,
                      minTrustScore: U16, maxVerificationAge: I64)
    | CloseRegistrar(registrar: Address, realm: Key, realmAuthority: Key)
    | CreateVoterWeightRecord(registrar: Address, record: Address, ownerSigner: Key, owner: Key)
    | UpdateVoterWeightRecord(registrar: Address, record: Address, voter: Key, remaining: seq<Address>)
    | UpdateVoterWeightRecordForAction(registrar: Address, record: Address, voter: Key, remaining: seq<Address>,
                                       action: VoterWeightAction, target: Key)
    | CloseVoterWeightRecord(registrar: Address, record: Address, voter: Key)
    | CreateMaxVoterWeightRecord(registrar: Address, maxRecord: Address, realm: Key, realmAuthority: Key)
    | UpdateMaxVoterWeightRecord(registrar: Address, maxRecord: Address, realm: Key, realmAuthority: Key,
                                 maxVoterWeight: U64)

  datatype Happening =
    | AdvanceSlot(slot: U64)
    | SetTime(now: I64)
    | WriteExternal(address: Address, account: Option<ExternalAccount>)
    | WriteRealm(realm: Key, realmAccount: Option<RealmAccount>)
    | Deploy(program: Key, executable: bool)

  datatype Step = Invoke(signers: set<Key>, ix: Instruction) | Happen(event: Happening)

  // ---- Checks shared by the handlers --------------------------------------

  const VOTER_WEIGHT_EXPIRY_SLOT_WINDOW: U64 := 10

  function SaturatingAdd(a: U64, b: U64): U64 {
    if a + b <= U64_MAX then a + b else U64_MAX
  }

  /** What the checks of an instruction see besides the record it loads: `init` refuses
      an address that is taken by an account of any kind. */
  datatype Guards = Guards(registrars: map<Address, Registrar>, taken: set<Address>, world: World)

  function GuardsOf<R, M>(st: State<R, M>): Guards {
    Guards(st.registrars, st.registrars.Keys + st.records.Keys + st.maxRecords.Keys, st.world)
  }

  // A fault is the error that a group of checks reports first, if any.

  /** `get_realm_data_for_governing_token_mint`, then the authority comparison. */
  function AuthorityFault(world: World, program: Key, realm: Key, mint: Key, authority: Key): Option<Error> {
    if realm !in world.realms || world.realms[realm].owner != program || mint !in world.realms[realm].mints then
      Some(RealmDataRejected)
    else if world.realms[realm].authority.None? then Some(RealmHasNoAuthority)
    else if world.realms[realm].authority.value != authority then Some(InvalidRealmAuthority)
    else None
  }

  /** The account constraints of the three instructions that take an existing record:
      its address is not derived again, only two of its fields are compared. */
  function RecordFault(signers: set<Key>, a: Address, reg: Registrar, rec: VoterWeightRecord, voter: Key)
    : Option<Error>
  {
    if voter !in signers then Some(AccountNotSigner)
    else if a != RegistrarAddress(reg.realm, reg.mint) then Some(ConstraintSeeds)
    else if rec.realm != reg.realm then Some(VoterWeightRecordRealmMismatch)
    else if rec.mint != reg.mint then Some(VoterWeightRecordMintMismatch)
    else None
  }

  /** `verify_voter_identity_and_recency`. An address that holds no foreign account
      belongs to the system program or to the plugin, neither of which is Entros. */
  function VoterFault(world: World, reg: Registrar, rec: VoterWeightRecord, voter: Key,
                      remaining: seq<Address>): Option<Error>
  {
    if rec.owner != voter then Some(VoterWeightRecordOwnerMismatch)
    else if |remaining| == 0 then Some(MissingIdentityAccount)
    else if remaining[0] !in world.external || world.external[remaining[0]].owner != ENTROS_ANCHOR_PROGRAM_ID then
      Some(InvalidIdentityOwner)
    else if remaining[0] != IdentityAddress(voter) then Some(InvalidIdentityPda)
    else
      var evidence := ReadIdentity(world.external[remaining[0]].data);
      if evidence.Err? then Some(evidence.error)
      else if evidence.value.trustScore < reg.minTrustScore then Some(InsufficientTrustScore)
      else if !Recent(world.now, evidence.value.lastVerification, reg.maxVerificationAge) then Some(VerificationExpired)
      else None
  }

  // ---- What the handlers assign to the record in memory -------------------

  function Born(blank: VoterWeightRecord, reg: Registrar, owner: Key): VoterWeightRecord {
    blank.(discriminator := VOTER_WEIGHT_DISCRIMINATOR, realm := reg.realm, mint := reg.mint, owner := owner,
           voterWeight := 0, voterWeightExpiry := Some(0), weightAction := None, weightActionTarget := None)
  }

  function Refreshed(rec: VoterWeightRecord, slot: U64): VoterWeightRecord {
    rec.(voterWeight := 1, voterWeightExpiry := Some(SaturatingAdd(slot, VOTER_WEIGHT_EXPIRY_SLOT_WINDOW)),
         weightAction := None, weightActionTarget := None)
  }

  function Bound(rec: VoterWeightRecord, slot: U64, action: VoterWeightAction, target: Key): VoterWeightRecord {
    rec.(voterWeight := 1, voterWeightExpiry := Some(slot), weightAction := Some(action),
         weightActionTarget := Some(target))
  }

  function BornMax(blank: MaxVoterWeightRecord, reg: Registrar): MaxVoterWeightRecord {
    blank.(discriminator := MAX_VOTER_WEIGHT_DISCRIMINATOR, realm := reg.realm, mint := reg.mint,
           maxVoterWeight := 0, maxVoterWeightExpiry := Some(0))
  }

  function Raised(rec: MaxVoterWeightRecord, weight: U64): MaxVoterWeightRecord {
    rec.(maxVoterWeight := weight, maxVoterWeightExpiry := None)
  }

  // ---- Checks before a write: the framework's, then the handler's ---------

  function CreateRegistrarFault(g: Guards, signers: set<Key>, ix: Instruction): Option<Error>
    requires ix.CreateRegistrar?
  {
    if ix.realmAuthority !in signers then Some(AccountNotSigner)
    else if ix.registrar != RegistrarAddress(ix.realm, ix.mint) then Some(ConstraintSeeds)
    else if ix.registrar in g.taken then Some(AccountAlreadyInUse)
    else if ix.governanceProgram !in g.world.executables then Some(ConstraintExecutable)
    else if ix.realm !in g.world.realms || g.world.realms[ix.realm].owner != ix.governanceProgram then
      Some(ConstraintOwner)
    else if ix.maxVerificationAge <= 0 then Some(InvalidMaxVerificationAge)
    else AuthorityFault(g.world, ix.governanceProgram, ix.realm, ix.mint, ix.realmAuthority)
  }

  function UpdateRegistrarFault(g: Guards, signers: set<Key>, ix: Instruction): (fault: Option<Error>)
    requires ix.UpdateRegistrar?
    ensures fault.None? ==> ix.registrar in g.registrars
  {
    if ix.registrar !in g.registrars then Some(AccountNotInitialized)
    else
      var reg := g.registrars[ix.registrar];
      if ix.realmAuthority !in signers then Some(AccountNotSigner)
      else if ix.registrar != RegistrarAddress(reg.realm, reg.mint) then Some(ConstraintSeeds)
      else if ix.realm != reg.realm then Some(ConstraintRaw)
      else if ix.maxVerificationAge <= 0 then Some(InvalidMaxVerificationAge)
      else AuthorityFault(g.world, reg.governanceProgram, ix.realm, reg.mint, ix.realmAuthority)
  }

  function CloseRegistrarFault(g: Guards, signers: set<Key>, ix: Instruction): Option<Error>
    requires ix.CloseRegistrar?
  {
    if ix.registrar !in g.registrars then Some(AccountNotInitialized)
    else
      var reg := g.registrars[ix.registrar];
      if ix.realmAuthority !in signers then Some(AccountNotSigner)
      else if ix.registrar != RegistrarAddress(reg.realm, reg.mint) then Some(ConstraintSeeds)
      else if ix.realm != reg.realm then Some(ConstraintRaw)
      else AuthorityFault(g.world, reg.governanceProgram, ix.realm, reg.mint, ix.realmAuthority)
  }

  function CreateRecordFault(g: Guards, signers: set<Key>, ix: Instruction): (fault: Option<Error>)
    requires ix.CreateVoterWeightRecord?
    ensures fault.None? ==> ix.registrar in g.registrars
  {
    if ix.registrar !in g.registrars then Some(AccountNotInitialized)
    else
      var reg := g.registrars[ix.registrar];
      if ix.ownerSigner !in signers then Some(AccountNotSigner)
      else if ix.record != RecordAddress(reg.realm, reg.mint, ix.owner) then Some(ConstraintSeeds)
      else if ix.record in g.taken then Some(AccountAlreadyInUse)
      else if ix.registrar != RegistrarAddress(reg.realm, reg.mint) then Some(ConstraintSeeds)
      else if ix.ownerSigner != ix.owner then Some(GoverningTokenOwnerSignerMismatch)
      else None
  }

  function UpdateRecordFault(g: Guards, signers: set<Key>, ix: Instruction, rec: VoterWeightRecord)
    : Option<Error>
    requires ix.UpdateVoterWeightRecord?
  {
    if ix.registrar !in g.registrars then Some(AccountNotInitialized)
    else
      var reg := g.registrars[ix.registrar];
      var fault := RecordFault(signers, ix.registrar, reg, rec, ix.voter);
      if fault.Some? then fault else VoterFault(g.world, reg, rec, ix.voter, ix.remaining)
  }

  function UpdateForActionFault(g: Guards, signers: set<Key>, ix: Instruction, rec: VoterWeightRecord)
    : Option<Error>
    requires ix.UpdateVoterWeightRecordForAction?
  {
    if ix.registrar !in g.registrars then Some(AccountNotInitialized)
    else
      var reg := g.registrars[ix.registrar];
      var fault := RecordFault(signers, ix.registrar, reg, rec, ix.voter);
      if fault.Some? then fault
      else if ix.target == DEFAULT_KEY then Some(InvalidWeightActionTarget)
      else VoterFault(g.world, reg, rec, ix.voter, ix.remaining)
  }

  function CloseRecordFault(g: Guards, signers: set<Key>, ix: Instruction, rec: VoterWeightRecord)
    : Option<Error>
    requires ix.CloseVoterWeightRecord?
  {
    if ix.registrar !in g.registrars then Some(AccountNotInitialized)
    else
      var fault := RecordFault(signers, ix.registrar, g.registrars[ix.registrar], rec, ix.voter);
      if fault.Some? then fault
      else if rec.owner != ix.voter then Some(VoterWeightRecordOwnerMismatch)
      else None
  }

  function CreateMaxFault(g: Guards, signers: set<Key>, ix: Instruction): (fault: Option<Error>)
    requires ix.CreateMaxVoterWeightRecord?
    ensures fault.None? ==> ix.registrar in g.registrars
  {
    if ix.registrar !in g.registrars then Some(AccountNotInitialized)
    else
      var reg := g.registrars[ix.registrar];
      if ix.realmAuthority !in signers then Some(AccountNotSigner)
      else if ix.maxRecord != MaxRecordAddress(reg.realm, reg.mint) then Some(ConstraintSeeds)
      else if ix.maxRecord in g.taken then Some(AccountAlreadyInUse)
      else if ix.registrar != RegistrarAddress(reg.realm, reg.mint) then Some(ConstraintSeeds)
      else if ix.realm != reg.realm then Some(ConstraintRaw)
      else AuthorityFault(g.world, reg.governanceProgram, ix.realm, reg.mint, ix.realmAuthority)
  }

  function UpdateMaxFault(g: Guards, signers: set<Key>, ix: Instruction, rec: MaxVoterWeightRecord)
    : Option<Error>
    requires ix.UpdateMaxVoterWeightRecord?
  {
    if ix.registrar !in g.registrars then Some(AccountNotInitialized)
    else
      var reg := g.registrars[ix.registrar];
      if ix.realmAuthority !in signers then Some(AccountNotSigner)
      else if ix.registrar != RegistrarAddress(reg.realm, reg.mint) then Some(ConstraintSeeds)
      else if rec.realm != reg.realm || rec.mint != reg.mint then Some(ConstraintRaw)
      else if ix.realm != reg.realm then Some(ConstraintRaw)
      else if ix.maxVoterWeight == 0 then Some(InvalidMaxVoterWeight)
      else AuthorityFault(g.world, reg.governanceProgram, ix.realm, reg.mint, ix.realmAuthority)
  }

  // ---- Steps --------------------------------------------------------------

  /** The one account that a successful instruction writes back or removes. */
  datatype Write<R, M> =
    | PutRegistrar(at: Address, registrar: Registrar)
    | DropRegistrar(at: Address)
    | PutRecord(at: Address, record: R)
    | DropRecord(at: Address)
    | PutMax(at: Address, maxRecord: M)

  function Commit<R, M>(st: State<R, M>, w: Write<R, M>): State<R, M> {
    match w
    case PutRegistrar(a, reg) => st.(registrars := st.registrars[a := reg])
    case DropRegistrar(a) => st.(registrars := st.registrars - {a})
    case PutRecord(a, rec) => st.(records := st.records[a := rec])
    case DropRecord(a) => st.(records := st.records - {a})
    case PutMax(a, rec) => st.(maxRecords := st.maxRecords[a := rec])
  }

  type RecordWrite = Write<VoterWeightRecord, MaxVoterWeightRecord>

  /** The three instructions on registrars, which are stored as values in every layer. */
  function HandleRegistrar<R, M>(g: Guards, signers: set<Key>, ix: Instruction): Outcome<Write<R, M>>
    requires ix.CreateRegistrar? || ix.UpdateRegistrar? || ix.CloseRegistrar?
  {
    match ix
    case CreateRegistrar(a, program, realm, mint, _, minScore, maxAge) =>
      var fault := CreateRegistrarFault(g, signers, ix);
      if fault.Some? then Err(fault.value)
      else Ok(PutRegistrar(a, Registrar(program, realm, mint, minScore, maxAge, Zeros(64))))
    case UpdateRegistrar(a, _, _, minScore, maxAge) =>
      var fault := UpdateRegistrarFault(g, signers, ix);
      if fault.Some? then Err(fault.value)
      else Ok(PutRegistrar(a, g.registrars[a].(minTrustScore := minScore, maxVerificationAge := maxAge)))
    case CloseRegistrar(a, _, _) =>
      var fault := CloseRegistrarFault(g, signers, ix);
      if fault.Some? then Err(fault.value) else Ok(DropRegistrar(a))
  }

  /** What an instruction writes back, or the error it reports. */
  function Handle(st: Ledger, signers: set<Key>, ix: Instruction): Outcome<RecordWrite> {
    var g := GuardsOf(st);
    match ix
    case CreateRegistrar(_, _, _, _, _, _, _) => HandleRegistrar(g, signers, ix)
    case UpdateRegistrar(_, _, _, _, _) => HandleRegistrar(g, signers, ix)
    case CloseRegistrar(_, _, _) => HandleRegistrar(g, signers, ix)
    case CreateVoterWeightRecord(registrar, a, _, owner) =>
      var fault := CreateRecordFault(g, signers, ix);
      if fault.Some? then Err(fault.value)
      else Ok(PutRecord(a, Born(ZERO_RECORD, g.registrars[registrar], owner)))
    case UpdateVoterWeightRecord(_, a, _, _) =>
      if a !in st.records then Err(AccountNotInitialized)
      else
        var fault := UpdateRecordFault(g, signers, ix, st.records[a]);
        if fault.Some? then Err(fault.value) else Ok(PutRecord(a, Refreshed(st.records[a], g.world.slot)))
    case UpdateVoterWeightRecordForAction(_, a, _, _, action, target) =>
      if a !in st.records then Err(AccountNotInitialized)
      else
        var fault := UpdateForActionFault(g, signers, ix, st.records[a]);
        if fault.Some? then Err(fault.value) else Ok(PutRecord(a, Bound(st.records[a], g.world.slot, action, target)))
    case CloseVoterWeightRecord(_, a, _) =>
      if a !in st.records then Err(AccountNotInitialized)
      else
        var fault := CloseRecordFault(g, signers, ix, st.records[a]);
        if fault.Some? then Err(fault.value) else Ok(DropRecord(a))
    case CreateMaxVoterWeightRecord(registrar, a, _, _) =>
      var fault := CreateMaxFault(g, signers, ix);
      if fault.Some? then Err(fault.value) else Ok(PutMax(a, BornMax(ZERO_MAX, g.registrars[registrar])))
    case UpdateMaxVoterWeightRecord(_, a, _, _, weight) =>
      if a !in st.maxRecords then Err(AccountNotInitialized)
      else
        var fault := UpdateMaxFault(g, signers, ix, st.maxRecords[a]);
        if fault.Some? then Err(fault.value) else Ok(PutMax(a, Raised(st.maxRecords[a], weight)))
  }

  /** The slot never goes back, the clock may; other programs write their own accounts
      as they please, but none at an address derived for the plugin. */
  function Change(world: World, e: Happening): World {
    match e
    case AdvanceSlot(slot) => if world.slot <= slot then world.(slot := slot) else world
    case SetTime(now) => world.(now := now)
    case WriteExternal(a, account) =>
      if a.Derived? && a.program == PLUGIN_ID then world
      else if account.Some? then world.(external := world.external[a := account.value])
      else world.(external := world.external - {a})
    case WriteRealm(realm, account) =>
      if account.Some? then world.(realms := world.realms[realm := account.value])
      else world.(realms := world.realms - {realm})
    case Deploy(program, executable) =>
      world.(executables := if executable then world.executables + {program} else world.executables - {program})
  }

  /** A failed instruction leaves everything as it was. */
  function Apply(st: Ledger, step: Step): Ledger {
    match step
    case Invoke(signers, ix) =>
      var w := Handle(st, signers, ix);
      if w.Ok? then Commit(st, w.value) else st
    case Happen(e) => st.(world := Change(st.world, e))
  }

  predicate Succeeds(st: Ledger, step: Step) {
    step.Invoke? && Handle(st, step.signers, step.ix).Ok?
  }

  /** The ledger after a sequence of steps. */
  function Run(st: Ledger, steps: seq<Step>): Ledger {
    if steps == [] then st
    else Apply(Run(st, steps[..|steps| - 1]), steps[|steps| - 1])
  }

  /** Before the plugin has been used; the rest of the world is arbitrary. */
  predicate Initial<R, M>(st: State<R, M>) {
    st.registrars == map[] && st.records == map[] && st.maxRecords == map[]
  }
}
