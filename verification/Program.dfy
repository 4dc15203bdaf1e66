/** The nine instruction handlers over account data in memory: each loads, checks,
    assigns and saves in place, and is proved to do what the byte-level machine does. */
module Program {
  import opened Bytes
  import opened Records
  import opened Codec
  import opened Addresses
  import opened Ledger
  import opened ByteLedger
  import opened Accounts

  /** A handler's report and its effect are those of the byte-level machine. */
  ghost predicate Does(before: ByteLedger, signers: set<Key>, ix: Instruction, fault: Option<Error>,
                       after: ByteLedger)
  {
    var outcome := HandleBytes(before, signers, ix);
    if outcome.Ok? then fault == None && after == Commit(before, outcome.value)
    else fault == Some(outcome.error) && after == before
  }

  /** Which is to say: those of the ledger of values, wherever accounts are intact. */
  lemma {:induction false} DoesIsApply(before: ByteLedger, signers: set<Key>, ix: Instruction,
                                       fault: Option<Error>, after: ByteLedger)
    requires Intact(before) && Does(before, signers, ix, fault, after)
    ensures Intact(after) && View(after) == Apply(View(before), Invoke(signers, ix))
    ensures fault == if Handle(View(before), signers, ix).Ok? then None
                     else Some(Handle(View(before), signers, ix).error)
  {
    hide HandleBytes, Handle, Commit;
    StepsAgree(before, Invoke(signers, ix));
    HandlersAgree(before, signers, ix);
  }

  class EntrosVoterWeight {
    var registrars: map<Address, Registrar>
    var records: map<Address, array<Byte>>
    var maxRecords: map<Address, array<Byte>>
    var world: World

    /** No two accounts share their data. */
    ghost predicate Valid()
      reads this
    {
      && (forall a, b | a in records && b in records && a != b :: records[a] != records[b])
      && (forall a, b | a in maxRecords && b in maxRecords && a != b :: maxRecords[a] != maxRecords[b])
      && (forall a, b | a in records && b in maxRecords :: records[a] != maxRecords[b])
    }

    /** What is stored where, byte for byte. */
    ghost function Contents(): ByteLedger
      reads this, records.Values, maxRecords.Values
    {
      State(registrars, map a | a in records :: records[a][..], map a | a in maxRecords :: maxRecords[a][..], world)
    }

    /** The accounts as the checks see them. */
    function Guarded(): (g: Guards)
      reads this, records.Values, maxRecords.Values
      ensures g == GuardsOf(Contents()) && g.registrars == registrars && g.world == world
    {
      GuardsOf(State(registrars, records, maxRecords, world))
    }

    constructor (world: World)
      ensures Valid() && Initial(Contents()) && Contents().world == world
    {
      registrars, records, maxRecords, this.world := map[], map[], map[], world;
    }

    /** The framework loading a record: decode the data, leave them as they are. */
    method LoadRecord(a: Address) returns (loaded: Outcome<VoterWeightRecordAccount>)
      requires Valid() && a in records
      ensures var p := DecodeRecord(Contents().records[a]);
              if p.Parsed? then loaded.Ok? && fresh(loaded.value) && loaded.value.Value() == p.value
              else loaded == Err(AccountDidNotDeserialize)
    {
      var buf := new Slice(records[a][..]);
      loaded := VoterWeightRecordAccount.TryDeserializeUnchecked(buf);
    }

    /** The framework's exit: the record written back over its account's data. */
    method ExitRecord(a: Address, record: VoterWeightRecordAccount) returns (fault: Option<Error>)
      requires Valid() && a in records
      modifies records[a]
      ensures Valid()
      ensures var saved := SaveRecord(a, old(Contents()).records[a], record.Value());
              if saved.Ok? then fault == None && Contents() == Commit(old(Contents()), saved.value)
              else fault == Some(saved.error) && Contents() == old(Contents())
    {
      hide EncodeRecord, Overwrite;
      fault := record.TrySerialize(records[a]);
      assert Contents().maxRecords == old(Contents()).maxRecords;
      assert Contents().records == old(Contents()).records[a := records[a][..]];
    }

    /** `init`: a zero-filled buffer of the account's size, and the record in it. */
    method InitRecord() returns (data: array<Byte>, loaded: Outcome<VoterWeightRecordAccount>)
      ensures fresh(data) && data[..] == Zeros(VOTER_WEIGHT_SPACE)
      ensures var p := DecodeRecord(Zeros(VOTER_WEIGHT_SPACE));
              if p.Parsed? then loaded.Ok? && fresh(loaded.value) && loaded.value.Value() == p.value
              else loaded == Err(AccountDidNotDeserialize)
    {
      data := new Byte[VOTER_WEIGHT_SPACE](_ => 0);
      assert data[..] == Zeros(VOTER_WEIGHT_SPACE);
      var buf := new Slice(data[..]);
      loaded := VoterWeightRecordAccount.TryDeserializeUnchecked(buf);
    }

    /** The exit of an instruction that created the account. */
    method InstallRecord(a: Address, data: array<Byte>, record: VoterWeightRecordAccount) returns (fault: Option<Error>)
      requires Valid() && data !in records.Values && data !in maxRecords.Values
      modifies this`records, data
      ensures Valid()
      ensures var saved := SaveRecord(a, old(data[..]), record.Value());
              if saved.Ok? then fault == None && Contents() == Commit(old(Contents()), saved.value)
              else fault == Some(saved.error) && Contents() == old(Contents())
    {
      hide EncodeRecord, Overwrite;
      fault := record.TrySerialize(data);
      assert Contents() == old(Contents());
      if fault.None? {
        records := records[a := data];
        assert Contents().maxRecords == old(Contents()).maxRecords;
        assert Contents().records == old(Contents()).records[a := data[..]];
      }
    }

    /** The framework loading a record: decode the data, leave them as they are. */
    method LoadMax(a: Address) returns (loaded: Outcome<MaxVoterWeightRecordAccount>)
      requires Valid() && a in maxRecords
      ensures var p := DecodeMax(Contents().maxRecords[a]);
              if p.Parsed? then loaded.Ok? && fresh(loaded.value) && loaded.value.Value() == p.value
              else loaded == Err(AccountDidNotDeserialize)
    {
      var buf := new Slice(maxRecords[a][..]);
      loaded := MaxVoterWeightRecordAccount.TryDeserializeUnchecked(buf);
    }

    /** The framework's exit: the record written back over its account's data. */
    method ExitMax(a: Address, record: MaxVoterWeightRecordAccount) returns (fault: Option<Error>)
      requires Valid() && a in maxRecords
      modifies maxRecords[a]
      ensures Valid()
      ensures var saved := SaveMax(a, old(Contents()).maxRecords[a], record.Value());
              if saved.Ok? then fault == None && Contents() == Commit(old(Contents()), saved.value)
              else fault == Some(saved.error) && Contents() == old(Contents())
    {
      hide EncodeMax, Overwrite;
      fault := record.TrySerialize(maxRecords[a]);
      assert Contents().records == old(Contents()).records;
      assert Contents().maxRecords == old(Contents()).maxRecords[a := maxRecords[a][..]];
    }

    /** `init`: a zero-filled buffer of the account's size, and the record in it. */
    method InitMax() returns (data: array<Byte>, loaded: Outcome<MaxVoterWeightRecordAccount>)
      ensures fresh(data) && data[..] == Zeros(MAX_VOTER_WEIGHT_SPACE)
      ensures var p := DecodeMax(Zeros(MAX_VOTER_WEIGHT_SPACE));
              if p.Parsed? then loaded.Ok? && fresh(loaded.value) && loaded.value.Value() == p.value
              else loaded == Err(AccountDidNotDeserialize)
    {
      data := new Byte[MAX_VOTER_WEIGHT_SPACE](_ => 0);
      assert data[..] == Zeros(MAX_VOTER_WEIGHT_SPACE);
      var buf := new Slice(data[..]);
      loaded := MaxVoterWeightRecordAccount.TryDeserializeUnchecked(buf);
    }

    /** The exit of an instruction that created the account. */
    method InstallMax(a: Address, data: array<Byte>, record: MaxVoterWeightRecordAccount) returns (fault: Option<Error>)
      requires Valid() && data !in records.Values && data !in maxRecords.Values
      modifies this`maxRecords, data
      ensures Valid()
      ensures var saved := SaveMax(a, old(data[..]), record.Value());
              if saved.Ok? then fault == None && Contents() == Commit(old(Contents()), saved.value)
              else fault == Some(saved.error) && Contents() == old(Contents())
    {
      hide EncodeMax, Overwrite;
      fault := record.TrySerialize(data);
      assert Contents() == old(Contents());
      if fault.None? {
        maxRecords := maxRecords[a := data];
        assert Contents().records == old(Contents()).records;
        assert Contents().maxRecords == old(Contents()).maxRecords[a := data[..]];
      }
    }

    /** `close = sol_destination`. */
    method RemoveRecord(a: Address)
      requires Valid()
      modifies this`records
      ensures Valid() && Contents() == Commit(old(Contents()), DropRecord(a))
    {
      records := records - {a};
      assert Contents().records == old(Contents()).records - {a};
      assert Contents().maxRecords == old(Contents()).maxRecords;
    }

    /** The exit of an instruction on a registrar. */
    method StoreRegistrar(a: Address, registrar: RegistrarAccount)
      requires Valid()
      modifies this`registrars
      ensures Valid() && Contents() == Commit(old(Contents()), PutRegistrar(a, registrar.Value()))
    {
      registrars := registrars[a := registrar.Value()];
    }

    method CreateRegistrar(signers: set<Key>, ix: Instruction) returns (fault: Option<Error>)
      requires Valid() && ix.CreateRegistrar?
      modifies this`registrars
      ensures Valid() && Does(old(Contents()), signers, ix, fault, Contents())
    {
      hide GuardsOf, CreateRegistrarFault, Commit;
      fault := CreateRegistrarFault(Guarded(), signers, ix);
      if fault.Some? {
        return;
      }
      var registrar := new RegistrarAccount(ZERO_REGISTRAR);
      registrar.Create(ix.governanceProgram, ix.realm, ix.mint, ix.minTrustScore, ix.maxVerificationAge);
      StoreRegistrar(ix.registrar, registrar);
    }

    method UpdateRegistrar(signers: set<Key>, ix: Instruction) returns (fault: Option<Error>)
      requires Valid() && ix.UpdateRegistrar?
      modifies this`registrars
      ensures Valid() && Does(old(Contents()), signers, ix, fault, Contents())
    {
      hide GuardsOf, UpdateRegistrarFault, Commit;
      fault := UpdateRegistrarFault(Guarded(), signers, ix);
      if fault.Some? {
        return;
      }
      var registrar := new RegistrarAccount(registrars[ix.registrar]);
      registrar.Update(ix.minTrustScore, ix.maxVerificationAge);
      StoreRegistrar(ix.registrar, registrar);
    }

    method CloseRegistrar(signers: set<Key>, ix: Instruction) returns (fault: Option<Error>)
      requires Valid() && ix.CloseRegistrar?
      modifies this`registrars
      ensures Valid() && Does(old(Contents()), signers, ix, fault, Contents())
    {
      hide GuardsOf, CloseRegistrarFault;
      fault := CloseRegistrarFault(Guarded(), signers, ix);
      if fault.Some? {
        return;
      }
      registrars := registrars - {ix.registrar};
    }

    method CreateVoterWeightRecord(signers: set<Key>, ix: Instruction) returns (fault: Option<Error>)
      requires Valid() && ix.CreateVoterWeightRecord?
      modifies this`records
      ensures Valid() && Does(old(Contents()), signers, ix, fault, Contents())
    {
      hide GuardsOf, DecodeRecord, DecodeMax, SaveRecord, SaveMax, Commit, CreateRecordFault;
      fault := CreateRecordFault(Guarded(), signers, ix);
      if fault.Some? {
        return;
      }
      var data, loaded := InitRecord();
      if loaded.Err? {
        return Some(loaded.error);
      }
      loaded.value.Create(registrars[ix.registrar], ix.owner);
      fault := InstallRecord(ix.record, data, loaded.value);
    }

    method UpdateVoterWeightRecord(signers: set<Key>, ix: Instruction) returns (fault: Option<Error>)
      requires Valid() && ix.UpdateVoterWeightRecord?
      modifies records.Values
      ensures Valid() && Does(old(Contents()), signers, ix, fault, Contents())
    {
      hide GuardsOf, DecodeRecord, DecodeMax, SaveRecord, SaveMax, Commit, UpdateRecordFault;
      if ix.record !in records {
        return Some(AccountNotInitialized);
      }
      var loaded := LoadRecord(ix.record);
      if loaded.Err? {
        return Some(loaded.error);
      }
      fault := UpdateRecordFault(Guarded(), signers, ix, loaded.value.Value());
      if fault.Some? {
        return;
      }
      loaded.value.Update(world.slot);
      fault := ExitRecord(ix.record, loaded.value);
    }

    method UpdateVoterWeightRecordForAction(signers: set<Key>, ix: Instruction) returns (fault: Option<Error>)
      requires Valid() && ix.UpdateVoterWeightRecordForAction?
      modifies records.Values
      ensures Valid() && Does(old(Contents()), signers, ix, fault, Contents())
    {
      hide GuardsOf, DecodeRecord, DecodeMax, SaveRecord, SaveMax, Commit, UpdateForActionFault;
      if ix.record !in records {
        return Some(AccountNotInitialized);
      }
      var loaded := LoadRecord(ix.record);
      if loaded.Err? {
        return Some(loaded.error);
      }
      fault := UpdateForActionFault(Guarded(), signers, ix, loaded.value.Value());
      if fault.Some? {
        return;
      }
      loaded.value.UpdateForAction(world.slot, ix.action, ix.target);
      fault := ExitRecord(ix.record, loaded.value);
    }

    method CloseVoterWeightRecord(signers: set<Key>, ix: Instruction) returns (fault: Option<Error>)
      requires Valid() && ix.CloseVoterWeightRecord?
      modifies this`records
      ensures Valid() && Does(old(Contents()), signers, ix, fault, Contents())
    {
      hide GuardsOf, CloseRecordFault, DecodeRecord, DecodeMax, Commit;
      if ix.record !in records {
        return Some(AccountNotInitialized);
      }
      var loaded := LoadRecord(ix.record);
      if loaded.Err? {
        return Some(loaded.error);
      }
      fault := CloseRecordFault(Guarded(), signers, ix, loaded.value.Value());
      if fault.Some? {
        return;
      }
      RemoveRecord(ix.record);
    }

    method CreateMaxVoterWeightRecord(signers: set<Key>, ix: Instruction) returns (fault: Option<Error>)
      requires Valid() && ix.CreateMaxVoterWeightRecord?
      modifies this`maxRecords
      ensures Valid() && Does(old(Contents()), signers, ix, fault, Contents())
    {
      hide GuardsOf, DecodeRecord, DecodeMax, SaveRecord, SaveMax, Commit, CreateMaxFault;
      fault := CreateMaxFault(Guarded(), signers, ix);
      if fault.Some? {
        return;
      }
      var data, loaded := InitMax();
      if loaded.Err? {
        return Some(loaded.error);
      }
      loaded.value.Create(registrars[ix.registrar]);
      fault := InstallMax(ix.maxRecord, data, loaded.value);
    }

    method UpdateMaxVoterWeightRecord(signers: set<Key>, ix: Instruction) returns (fault: Option<Error>)
      requires Valid() && ix.UpdateMaxVoterWeightRecord?
      modifies maxRecords.Values
      ensures Valid() && Does(old(Contents()), signers, ix, fault, Contents())
    {
      hide GuardsOf, DecodeRecord, DecodeMax, SaveRecord, SaveMax, Commit, UpdateMaxFault;
      if ix.maxRecord !in maxRecords {
        return Some(AccountNotInitialized);
      }
      var loaded := LoadMax(ix.maxRecord);
      if loaded.Err? {
        return Some(loaded.error);
      }
      fault := UpdateMaxFault(Guarded(), signers, ix, loaded.value.Value());
      if fault.Some? {
        return;
      }
      loaded.value.Update(ix.maxVoterWeight);
      fault := ExitMax(ix.maxRecord, loaded.value);
    }

    /** The program's entry point: each instruction to its handler. */
    method Process(signers: set<Key>, ix: Instruction) returns (fault: Option<Error>)
      requires Valid()
      modifies this`registrars, this`records, this`maxRecords, records.Values, maxRecords.Values
      ensures Valid() && Does(old(Contents()), signers, ix, fault, Contents())
      ensures old(Intact(Contents())) ==>
                && Intact(Contents())
                && View(Contents()) == Apply(old(View(Contents())), Invoke(signers, ix))
    {
      hide HandleBytes, Does;
      ghost var before := Contents();
      match ix {
        case CreateRegistrar(_, _, _, _, _, _, _) => fault := CreateRegistrar(signers, ix);
        case UpdateRegistrar(_, _, _, _, _) => fault := UpdateRegistrar(signers, ix);
        case CloseRegistrar(_, _, _) => fault := CloseRegistrar(signers, ix);
        case CreateVoterWeightRecord(_, _, _, _) => fault := CreateVoterWeightRecord(signers, ix);
        case UpdateVoterWeightRecord(_, _, _, _) => fault := UpdateVoterWeightRecord(signers, ix);
        case UpdateVoterWeightRecordForAction(_, _, _, _, _, _) =>
          fault := UpdateVoterWeightRecordForAction(signers, ix);
        case CloseVoterWeightRecord(_, _, _) => fault := CloseVoterWeightRecord(signers, ix);
        case CreateMaxVoterWeightRecord(_, _, _, _) => fault := CreateMaxVoterWeightRecord(signers, ix);
        case UpdateMaxVoterWeightRecord(_, _, _, _, _) => fault := UpdateMaxVoterWeightRecord(signers, ix);
      }
      if Intact(before) {
        DoesIsApply(before, signers, ix, fault, Contents());
      }
    }
  }
}
