/** The plugin over account buffers: records are decoded when an instruction loads them
    and overwrite the front of their buffer when it exits. Over every run this machine
    is the ledger of values, seen through the codec. */
module ByteLedger {
  import opened Bytes
  import opened Records
  import opened Codec
  import opened Addresses
  import opened Ledger
  import opened Invariants

  type ByteLedger = State<seq<Byte>, seq<Byte>>
  type ByteWrite = Write<seq<Byte>, seq<Byte>>

  /** The exit of an instruction that changed the record in memory. */
  function SaveRecord(a: Address, buffer: seq<Byte>, rec: VoterWeightRecord): Outcome<ByteWrite> {
    var saved := Overwrite(buffer, EncodeRecord(rec));
    if saved.Err? then Err(saved.error) else Ok(PutRecord(a, saved.value))
  }

  function SaveMax(a: Address, buffer: seq<Byte>, rec: MaxVoterWeightRecord): Outcome<ByteWrite> {
    var saved := Overwrite(buffer, EncodeMax(rec));
    if saved.Err? then Err(saved.error) else Ok(PutMax(a, saved.value))
  }

  // One function for each instruction on a record. The last argument is the data of the
  // account that the instruction loads; one that creates an account loads zeros.

  function CreateRecordBytes(g: Guards, signers: set<Key>, ix: Instruction): Outcome<ByteWrite>
    requires ix.CreateVoterWeightRecord?
  {
    var fault := CreateRecordFault(g, signers, ix);
    if fault.Some? then Err(fault.value)
    else
      var buffer := Zeros(VOTER_WEIGHT_SPACE);
      var blank := DecodeRecord(buffer);
      if blank.Malformed? then Err(AccountDidNotDeserialize)
      else SaveRecord(ix.record, buffer, Born(blank.value, g.registrars[ix.registrar], ix.owner))
  }

  function UpdateRecordBytes(g: Guards, signers: set<Key>, ix: Instruction, data: seq<Byte>): Outcome<ByteWrite>
    requires ix.UpdateVoterWeightRecord?
  {
    var rec := DecodeRecord(data);
    if rec.Malformed? then Err(AccountDidNotDeserialize)
    else
      var fault := UpdateRecordFault(g, signers, ix, rec.value);
      if fault.Some? then Err(fault.value)
      else SaveRecord(ix.record, data, Refreshed(rec.value, g.world.slot))
  }

  function UpdateForActionBytes(g: Guards, signers: set<Key>, ix: Instruction, data: seq<Byte>): Outcome<ByteWrite>
    requires ix.UpdateVoterWeightRecordForAction?
  {
    var rec := DecodeRecord(data);
    if rec.Malformed? then Err(AccountDidNotDeserialize)
    else
      var fault := UpdateForActionFault(g, signers, ix, rec.value);
      if fault.Some? then Err(fault.value)
      else SaveRecord(ix.record, data, Bound(rec.value, g.world.slot, ix.action, ix.target))
  }

  function CloseRecordBytes(g: Guards, signers: set<Key>, ix: Instruction, data: seq<Byte>): Outcome<ByteWrite>
    requires ix.CloseVoterWeightRecord?
  {
    var rec := DecodeRecord(data);
    if rec.Malformed? then Err(AccountDidNotDeserialize)
    else
      var fault := CloseRecordFault(g, signers, ix, rec.value);
      if fault.Some? then Err(fault.value) else Ok(DropRecord(ix.record))
  }

  function CreateMaxBytes(g: Guards, signers: set<Key>, ix: Instruction): Outcome<ByteWrite>
    requires ix.CreateMaxVoterWeightRecord?
  {
    var fault := CreateMaxFault(g, signers, ix);
    if fault.Some? then Err(fault.value)
    else
      var buffer := Zeros(MAX_VOTER_WEIGHT_SPACE);
      var blank := DecodeMax(buffer);
      if blank.Malformed? then Err(AccountDidNotDeserialize)
      else SaveMax(ix.maxRecord, buffer, BornMax(blank.value, g.registrars[ix.registrar]))
  }

  function UpdateMaxBytes(g: Guards, signers: set<Key>, ix: Instruction, data: seq<Byte>): Outcome<ByteWrite>
    requires ix.UpdateMaxVoterWeightRecord?
  {
    var rec := DecodeMax(data);
    if rec.Malformed? then Err(AccountDidNotDeserialize)
    else
      var fault := UpdateMaxFault(g, signers, ix, rec.value);
      if fault.Some? then Err(fault.value) else SaveMax(ix.maxRecord, data, Raised(rec.value, ix.maxVoterWeight))
  }

  function HandleBytes(st: ByteLedger, signers: set<Key>, ix: Instruction): Outcome<ByteWrite> {
    var g := GuardsOf(st);
    match ix
    case CreateRegistrar(_, _, _, _, _, _, _) => HandleRegistrar(g, signers, ix)
    case UpdateRegistrar(_, _, _, _, _) => HandleRegistrar(g, signers, ix)
    case CloseRegistrar(_, _, _) => HandleRegistrar(g, signers, ix)
    case CreateVoterWeightRecord(_, _, _, _) => CreateRecordBytes(g, signers, ix)
    case UpdateVoterWeightRecord(_, a, _, _) =>
      if a !in st.records then Err(AccountNotInitialized) else UpdateRecordBytes(g, signers, ix, st.records[a])
    case UpdateVoterWeightRecordForAction(_, a, _, _, _, _) =>
      if a !in st.records then Err(AccountNotInitialized) else UpdateForActionBytes(g, signers, ix, st.records[a])
    case CloseVoterWeightRecord(_, a, _) =>
      if a !in st.records then Err(AccountNotInitialized) else CloseRecordBytes(g, signers, ix, st.records[a])
    case CreateMaxVoterWeightRecord(_, _, _, _) => CreateMaxBytes(g, signers, ix)
    case UpdateMaxVoterWeightRecord(_, a, _, _, _) =>
      if a !in st.maxRecords then Err(AccountNotInitialized) else UpdateMaxBytes(g, signers, ix, st.maxRecords[a])
  }

  /** An account that does not decode is refused whatever else is right or wrong. */
  lemma MalformedIsRefused(st: ByteLedger, signers: set<Key>, ix: Instruction)
    ensures (ix.UpdateVoterWeightRecord? || ix.UpdateVoterWeightRecordForAction? || ix.CloseVoterWeightRecord?)
            && ix.record in st.records && DecodeRecord(st.records[ix.record]).Malformed? ==>
              HandleBytes(st, signers, ix) == Err(AccountDidNotDeserialize)
    ensures ix.UpdateMaxVoterWeightRecord?
            && ix.maxRecord in st.maxRecords && DecodeMax(st.maxRecords[ix.maxRecord]).Malformed? ==>
              HandleBytes(st, signers, ix) == Err(AccountDidNotDeserialize)
  {
    hide DecodeRecord, DecodeMax;
  }

  function ApplyBytes(st: ByteLedger, step: Step): ByteLedger {
    match step
    case Invoke(signers, ix) =>
      var w := HandleBytes(st, signers, ix);
      if w.Ok? then Commit(st, w.value) else st
    case Happen(e) => st.(world := Change(st.world, e))
  }

  function RunBytes(st: ByteLedger, steps: seq<Step>): ByteLedger {
    if steps == [] then st
    else ApplyBytes(RunBytes(st, steps[..|steps| - 1]), steps[|steps| - 1])
  }

  // ---- Seen through the codec ---------------------------------------------

  /** A buffer of the right size that decodes. */
  ghost predicate IntactRecord(s: seq<Byte>) {
    |s| == VOTER_WEIGHT_SPACE && DecodeRecord(s).Parsed?
  }

  ghost predicate IntactMax(s: seq<Byte>) {
    |s| == MAX_VOTER_WEIGHT_SPACE && DecodeMax(s).Parsed?
  }

  ghost predicate Intact(st: ByteLedger) {
    && (forall a <- st.records :: IntactRecord(st.records[a]))
    && (forall a <- st.maxRecords :: IntactMax(st.maxRecords[a]))
  }

  ghost function ViewRecords(records: map<Address, seq<Byte>>): map<Address, VoterWeightRecord>
    requires forall a <- records :: IntactRecord(records[a])
  {
    map a | a in records :: (assert IntactRecord(records[a]); DecodeRecord(records[a]).value)
  }

  ghost function ViewMaxRecords(records: map<Address, seq<Byte>>): map<Address, MaxVoterWeightRecord>
    requires forall a <- records :: IntactMax(records[a])
  {
    map a | a in records :: (assert IntactMax(records[a]); DecodeMax(records[a]).value)
  }

  /** The ledger of values that the buffers hold. */
  ghost function View(st: ByteLedger): Ledger
    requires Intact(st)
  {
    State(st.registrars, ViewRecords(st.records), ViewMaxRecords(st.maxRecords), st.world)
  }

  /** The byte-level outcome `b` stands for the outcome `v` over values. */
  ghost predicate Represents(b: Outcome<ByteWrite>, v: Outcome<RecordWrite>) {
    if b.Err? || v.Err? then b.Err? && v.Err? && b.error == v.error
    else match b.value
      case PutRegistrar(a, reg) => v.value == PutRegistrar(a, reg)
      case DropRegistrar(a) => v.value == DropRegistrar(a)
      case PutRecord(a, s) => IntactRecord(s) && v.value == PutRecord(a, DecodeRecord(s).value)
      case DropRecord(a) => v.value == DropRecord(a)
      case PutMax(a, s) => IntactMax(s) && v.value == PutMax(a, DecodeMax(s).value)
  }

  lemma SavedRecord(a: Address, buffer: seq<Byte>, rec: VoterWeightRecord)
    requires |buffer| == VOTER_WEIGHT_SPACE
    ensures Represents(SaveRecord(a, buffer, rec), Ok(PutRecord(a, rec)))
  {
    OverwriteThenDecode(buffer, rec);
  }

  lemma SavedMax(a: Address, buffer: seq<Byte>, rec: MaxVoterWeightRecord)
    requires |buffer| == MAX_VOTER_WEIGHT_SPACE
    ensures Represents(SaveMax(a, buffer, rec), Ok(PutMax(a, rec)))
  {
    OverwriteThenDecodeMax(buffer, rec);
  }

  /** Instruction by instruction: the same write, or the same error. */
  lemma {:induction false} HandlersAgree(st: ByteLedger, signers: set<Key>, ix: Instruction)
    requires Intact(st)
    ensures Represents(HandleBytes(st, signers, ix), Handle(View(st), signers, ix))
  {
    if ix.CreateMaxVoterWeightRecord? || ix.UpdateMaxVoterWeightRecord? {
      MaxHandlersAgree(st, signers, ix);
    } else if ix.CreateRegistrar? || ix.UpdateRegistrar? || ix.CloseRegistrar? {
      RegistrarHandlersAgree(st, signers, ix);
    } else {
      RecordHandlersAgree(st, signers, ix);
    }
  }

  lemma SameGuards(st: ByteLedger)
    requires Intact(st)
    ensures GuardsOf(View(st)) == GuardsOf(st)
  {
  }

  lemma {:induction false} RegistrarHandlersAgree(st: ByteLedger, signers: set<Key>, ix: Instruction)
    requires Intact(st)
    requires ix.CreateRegistrar? || ix.UpdateRegistrar? || ix.CloseRegistrar?
    ensures Represents(HandleBytes(st, signers, ix), Handle(View(st), signers, ix))
  {
    hide GuardsOf;
    SameGuards(st);
  }

  lemma {:induction false} RecordHandlersAgree(st: ByteLedger, signers: set<Key>, ix: Instruction)
    requires Intact(st)
    requires ix.CreateVoterWeightRecord? || ix.UpdateVoterWeightRecord? || ix.UpdateVoterWeightRecordForAction?
             || ix.CloseVoterWeightRecord?
    ensures Represents(HandleBytes(st, signers, ix), Handle(View(st), signers, ix))
  {
    hide GuardsOf, CreateRecordFault, UpdateRecordFault, UpdateForActionFault, CloseRecordFault, DecodeRecord,
         EncodeRecord, DecodeMax, EncodeMax, SaveRecord;
    var v, g := View(st), GuardsOf(st);
    SameGuards(st);
    match ix
    case CreateVoterWeightRecord(registrar, a, _, owner) =>
      ZerosDecode();
      if registrar in g.registrars {
        SavedRecord(a, Zeros(VOTER_WEIGHT_SPACE), Born(ZERO_RECORD, g.registrars[registrar], owner));
      }
    case UpdateVoterWeightRecord(_, a, _, _) =>
      if a in st.records {
        assert IntactRecord(st.records[a]);
        SavedRecord(a, st.records[a], Refreshed(v.records[a], g.world.slot));
      }
    case UpdateVoterWeightRecordForAction(_, a, _, _, action, target) =>
      if a in st.records {
        assert IntactRecord(st.records[a]);
        SavedRecord(a, st.records[a], Bound(v.records[a], g.world.slot, action, target));
      }
    case CloseVoterWeightRecord(_, a, _) =>
      if a in st.records {
        assert IntactRecord(st.records[a]);
      }
  }

  lemma {:induction false} MaxHandlersAgree(st: ByteLedger, signers: set<Key>, ix: Instruction)
    requires Intact(st)
    requires ix.CreateMaxVoterWeightRecord? || ix.UpdateMaxVoterWeightRecord?
    ensures Represents(HandleBytes(st, signers, ix), Handle(View(st), signers, ix))
  {
    hide GuardsOf, CreateMaxFault, UpdateMaxFault, DecodeRecord, EncodeRecord, DecodeMax, EncodeMax, SaveMax;
    var v, g := View(st), GuardsOf(st);
    SameGuards(st);
    match ix
    case CreateMaxVoterWeightRecord(registrar, a, _, _) =>
      ZerosDecodeMax();
      if registrar in g.registrars {
        SavedMax(a, Zeros(MAX_VOTER_WEIGHT_SPACE), BornMax(ZERO_MAX, g.registrars[registrar]));
      }
    case UpdateMaxVoterWeightRecord(_, a, _, _, weight) =>
      if a in st.maxRecords {
        assert IntactMax(st.maxRecords[a]);
        SavedMax(a, st.maxRecords[a], Raised(v.maxRecords[a], weight));
      }
  }

  lemma {:induction false} CommitsAgree(st: ByteLedger, b: ByteWrite, v: RecordWrite)
    requires Intact(st) && Represents(Ok(b), Ok(v))
    ensures Intact(Commit(st, b)) && View(Commit(st, b)) == Commit(View(st), v)
  {
    hide IntactRecord, IntactMax, DecodeRecord, DecodeMax;
    var post := Commit(st, b);
    assert ViewRecords(post.records) == Commit(View(st), v).records;
    assert ViewMaxRecords(post.maxRecords) == Commit(View(st), v).maxRecords;
  }

  lemma {:induction false} StepsAgree(st: ByteLedger, step: Step)
    requires Intact(st)
    ensures Intact(ApplyBytes(st, step)) && View(ApplyBytes(st, step)) == Apply(View(st), step)
  {
    hide HandleBytes, Handle, Commit;
    if step.Invoke? {
      HandlersAgree(st, step.signers, step.ix);
      var b, v := HandleBytes(st, step.signers, step.ix), Handle(View(st), step.signers, step.ix);
      if b.Ok? {
        CommitsAgree(st, b.value, v.value);
      }
    }
  }

  /** Over every run from the start the buffers stay intact and decode to exactly the
      records of the ledger of values, whatever stale bytes shorter images leave behind. */
  lemma {:induction false} BytesRefineValues(init: ByteLedger, steps: seq<Step>)
    requires Intact(init)
    ensures Intact(RunBytes(init, steps))
    ensures View(RunBytes(init, steps)) == Run(View(init), steps)
  {
    if steps != [] {
      var n := |steps| - 1;
      BytesRefineValues(init, steps[..n]);
      StepsAgree(RunBytes(init, steps[..n]), steps[n]);
    }
  }

  /** In particular no instruction of any run ever fails to decode an account, nor to
      find room for what it writes. */
  lemma {:induction false} NeverOutOfSpace(init: ByteLedger, steps: seq<Step>, signers: set<Key>, ix: Instruction)
    requires Initial(init)
    ensures var r := HandleBytes(RunBytes(init, steps), signers, ix);
            r.Err? ==> r.error != AccountDidNotSerialize && r.error != AccountDidNotDeserialize
  {
    BytesRefineValues(init, steps);
    HandlersAgree(RunBytes(init, steps), signers, ix);
    CodecErrorsForeign(Run(View(init), steps), signers, ix);
    hide HandleBytes, Handle;
  }

  lemma CodecErrorsForeign(st: Ledger, signers: set<Key>, ix: Instruction)
    ensures var r := Handle(st, signers, ix);
            r.Err? ==> r.error != AccountDidNotSerialize && r.error != AccountDidNotDeserialize
  {
    hide GuardsOf, RecordAddress, RegistrarAddress, MaxRecordAddress, IdentityAddress, I64Value, U16Value;
  }

  /** In every reachable ledger, clients that read a record at fixed offsets read what
      decoding gives: a stored expiry is never absent, so nothing in front of the action
      ever moves. */
  lemma {:induction false} FixedOffsetReadersAgree(init: ByteLedger, steps: seq<Step>, a: Address)
    requires Initial(init) && a in RunBytes(init, steps).records
    ensures var s := RunBytes(init, steps).records[a];
            && |s| == VOTER_WEIGHT_SPACE
            && DecodeRecord(s).Parsed?
            && FixedOffsets(s, DecodeRecord(s).value)
  {
    hide FixedOffsets, DecodeRecord;
    BytesRefineValues(init, steps);
    var b := RunBytes(init, steps);
    assert IntactRecord(b.records[a]);
    ReachableInv(View(init), steps);
    assert GoodRecord(a, View(b).records[a]);
    ReadAtOffsets(b.records[a], View(b).records[a]);
  }

  lemma {:induction false} MaxFixedOffsetReadersAgree(init: ByteLedger, steps: seq<Step>, a: Address)
    requires Initial(init) && a in RunBytes(init, steps).maxRecords
    ensures var s := RunBytes(init, steps).maxRecords[a];
            && |s| == MAX_VOTER_WEIGHT_SPACE
            && DecodeMax(s).Parsed?
            && MaxFixedOffsets(s, DecodeMax(s).value)
  {
    hide MaxFixedOffsets, DecodeMax;
    BytesRefineValues(init, steps);
    var s := RunBytes(init, steps).maxRecords[a];
    assert IntactMax(s);
    ReadMaxAtOffsets(s, DecodeMax(s).value);
  }
}
