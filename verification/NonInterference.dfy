/** What one wallet does with its record neither helps nor hinders another. */
module NonInterference {
  import opened Bytes
  import opened Records
  import opened Addresses
  import opened Ledger
  import opened Invariants
  import opened Authorization

  /** The wallet that creates, updates or closes a record in this step, if any does. */
  function Actor(step: Step): Option<Key> {
    if step.Happen? then None
    else match step.ix
      case CreateVoterWeightRecord(_, _, signer, _) => Some(signer)
      case UpdateVoterWeightRecord(_, _, voter, _) => Some(voter)
      case UpdateVoterWeightRecordForAction(_, _, voter, _, _, _) => Some(voter)
      case CloseVoterWeightRecord(_, _, voter) => Some(voter)
      case _ => None
  }

  /** The records that name `w` as their owner. */
  function Mine(st: Ledger, w: Key): map<Address, VoterWeightRecord> {
    map a | a in st.records && st.records[a].owner == w :: st.records[a]
  }

  /** Two ledgers that differ at most in the records of wallets other than `w`. */
  ghost predicate AgreeFor(s: Ledger, t: Ledger, w: Key) {
    && s.registrars == t.registrars
    && s.maxRecords == t.maxRecords
    && s.world == t.world
    && Mine(s, w) == Mine(t, w)
  }

  /** The run without the record steps of all other wallets. */
  function Alone(steps: seq<Step>, w: Key): seq<Step> {
    if steps == [] then []
    else
      var before := Alone(steps[..|steps| - 1], w);
      var last := steps[|steps| - 1];
      if Actor(last).Some? && Actor(last).value != w then before else before + [last]
  }

  /** A successful step of `v` writes a record of `v`, or removes one. */
  lemma ActorWritesOwn(st: Ledger, step: Step)
    requires Inv(st) && Succeeds(st, step) && Actor(step).Some?
    ensures var w := Handle(st, step.signers, step.ix).value;
            && (w.PutRecord? || w.DropRecord?)
            && (w.PutRecord? ==> w.record.owner == Actor(step).value)
            && (w.at in st.records ==> st.records[w.at].owner == Actor(step).value)
            && (w.DropRecord? ==> w.at in st.records)
  {
    hide RecordAddress, RegistrarAddress;
  }

  lemma {:induction false} OthersLeaveMine(st: Ledger, step: Step, w: Key)
    requires Inv(st) && Actor(step).Some? && Actor(step).value != w
    ensures AgreeFor(Apply(st, step), st, w)
  {
    hide Handle, Inv, Commit;
    if Succeeds(st, step) {
      ActorWritesOwn(st, step);
      WriteSparesMine(st, Handle(st, step.signers, step.ix).value, w);
    }
  }

  lemma WriteSparesMine(st: Ledger, write: RecordWrite, w: Key)
    requires write.PutRecord? || write.DropRecord?
    requires write.PutRecord? ==> write.record.owner != w
    requires write.at in st.records ==> st.records[write.at].owner != w
    ensures AgreeFor(Commit(st, write), st, w)
  {
  }

  /** Whether `w` has a record at an address derived for `w` is visible in `Mine`. */
  lemma OwnAddressIsMine(s: Ledger, t: Ledger, w: Key, realm: Key, mint: Key)
    requires Inv(s) && Inv(t) && AgreeFor(s, t, w)
    ensures var a := RecordAddress(realm, mint, w);
            && (a in s.records <==> a in t.records)
            && (a in s.records ==> s.records[a] == t.records[a] && s.records[a].owner == w)
  {
    OwnedAtOwnAddress(s, w, realm, mint);
    OwnedAtOwnAddress(t, w, realm, mint);
    var a := RecordAddress(realm, mint, w);
    assert a in Mine(s, w) <==> a in Mine(t, w);
    hide RecordAddress, Inv;
  }

  lemma OwnedAtOwnAddress(s: Ledger, w: Key, realm: Key, mint: Key)
    requires Inv(s)
    ensures var a := RecordAddress(realm, mint, w);
            a in s.records ==> s.records[a].owner == w && s.records[a].realm == realm && s.records[a].mint == mint
  {
    var a := RecordAddress(realm, mint, w);
    if a in s.records {
      assert GoodRecord(a, s.records[a]);
      SeedsInjective(realm, mint, w, s.records[a].realm, s.records[a].mint, s.records[a].owner);
    }
  }

  /** A step of `w` itself, or of a realm authority, comes out the same in both. */
  lemma {:induction false} SameOutcome(s: Ledger, t: Ledger, step: Step, w: Key)
    requires Inv(s) && Inv(t) && AgreeFor(s, t, w) && step.Invoke?
    requires Actor(step).None? || Actor(step).value == w
    ensures Succeeds(s, step) <==> Succeeds(t, step)
    ensures Succeeds(s, step) ==> Handle(s, step.signers, step.ix) == Handle(t, step.signers, step.ix)
  {
    if Actor(step).Some? {
      SameOwnOutcome(s, t, step.signers, step.ix, w);
    } else {
      SameAuthorityOutcome(s, t, step.signers, step.ix);
    }
  }

  lemma SameOwnOutcome(s: Ledger, t: Ledger, signers: set<Key>, ix: Instruction, w: Key)
    requires Inv(s) && Inv(t) && AgreeFor(s, t, w)
    requires Actor(Invoke(signers, ix)) == Some(w)
    ensures Handle(s, signers, ix).Ok? <==> Handle(t, signers, ix).Ok?
    ensures Handle(s, signers, ix).Ok? ==> Handle(s, signers, ix) == Handle(t, signers, ix)
  {
    hide RecordAddress, RegistrarAddress, VoterFault, RecordFault, Eligible, Inv;
    match ix
    case CreateVoterWeightRecord(_, _, _, _) =>
      CreateRecordSucceedsIff(s, signers, ix);
      CreateRecordSucceedsIff(t, signers, ix);
      if ix.registrar in s.registrars {
        OwnAddressIsMine(s, t, w, s.registrars[ix.registrar].realm, s.registrars[ix.registrar].mint);
      }
    case UpdateVoterWeightRecord(_, _, _, _) =>
      UpdateSucceedsIff(s, signers, ix);
      UpdateSucceedsIff(t, signers, ix);
      if ix.registrar in s.registrars {
        OwnAddressIsMine(s, t, w, s.registrars[ix.registrar].realm, s.registrars[ix.registrar].mint);
      }
    case UpdateVoterWeightRecordForAction(_, _, _, _, _, _) =>
      UpdateForActionSucceedsIff(s, signers, ix);
      UpdateForActionSucceedsIff(t, signers, ix);
      if ix.registrar in s.registrars {
        OwnAddressIsMine(s, t, w, s.registrars[ix.registrar].realm, s.registrars[ix.registrar].mint);
      }
    case CloseVoterWeightRecord(_, _, _) =>
      CloseSucceedsIff(s, signers, ix);
      CloseSucceedsIff(t, signers, ix);
      if ix.registrar in s.registrars {
        OwnAddressIsMine(s, t, w, s.registrars[ix.registrar].realm, s.registrars[ix.registrar].mint);
      }
  }

  lemma SameAuthorityOutcome(s: Ledger, t: Ledger, signers: set<Key>, ix: Instruction)
    requires Inv(s) && Inv(t)
    requires s.registrars == t.registrars && s.maxRecords == t.maxRecords && s.world == t.world
    requires Actor(Invoke(signers, ix)) == None
    ensures Handle(s, signers, ix) == Handle(t, signers, ix)
  {
    hide RecordAddress, RegistrarAddress, MaxRecordAddress, AuthorityFault, Inv;
    match ix
    case CreateRegistrar(_, _, realm, mint, _, _, _) =>
      AddressesFree(s, realm, mint, realm);
      AddressesFree(t, realm, mint, realm);
    case CreateMaxVoterWeightRecord(registrar, _, _, _) =>
      if registrar in s.registrars {
        var reg := s.registrars[registrar];
        AddressesFree(s, reg.realm, reg.mint, reg.realm);
        AddressesFree(t, reg.realm, reg.mint, reg.realm);
      }
    case UpdateRegistrar(_, _, _, _, _) =>
    case CloseRegistrar(_, _, _) =>
    case UpdateMaxVoterWeightRecord(_, _, _, _, _) =>
  }

  lemma {:induction false} CommonStepKeepsAgreement(s: Ledger, t: Ledger, step: Step, w: Key)
    requires Inv(s) && Inv(t) && AgreeFor(s, t, w)
    requires Actor(step).None? || Actor(step).value == w
    ensures AgreeFor(Apply(s, step), Apply(t, step), w)
  {
    hide Handle, Inv;
    if step.Invoke? {
      SameOutcome(s, t, step, w);
      if Succeeds(s, step) {
        CommitKeepsAgreement(s, t, Handle(s, step.signers, step.ix).value, w);
      }
    }
  }

  lemma CommitKeepsAgreement(s: Ledger, t: Ledger, write: RecordWrite, w: Key)
    requires AgreeFor(s, t, w)
    ensures AgreeFor(Commit(s, write), Commit(t, write), w)
  {
    var s', t' := Commit(s, write), Commit(t, write);
    forall a
      ensures a in Mine(s', w) <==> a in Mine(t', w)
      ensures a in Mine(s', w) ==> s'.records[a] == t'.records[a]
    {
      assert a in Mine(s, w) <==> a in Mine(t, w);
      assert a in Mine(s, w) ==> Mine(s, w)[a] == Mine(t, w)[a];
    }
  }

  /** Erasing every create, update and close of all other wallets from a run changes
      nothing for `w`: same records of its own, same registrars, quorum records and world. */
  lemma {:induction false} OthersDoNotMatter(init: Ledger, steps: seq<Step>, w: Key)
    requires Inv(init)
    ensures AgreeFor(Run(init, steps), Run(init, Alone(steps, w)), w)
  {
    if steps != [] {
      var n := |steps| - 1;
      var before, last := steps[..n], steps[n];
      OthersDoNotMatter(init, before, w);
      RunKeepsInv(init, before);
      RunKeepsInv(init, Alone(before, w));
      if Actor(last).Some? && Actor(last).value != w {
        OthersLeaveMine(Run(init, before), last, w);
      } else {
        CommonStepKeepsAgreement(Run(init, before), Run(init, Alone(before, w)), last, w);
        assert Alone(steps, w)[..|Alone(before, w)|] == Alone(before, w);
      }
    }
  }

  /** In any reachable ledger the record steps of two wallets can change places. */
  lemma {:induction false} RecordStepsCommute(st: Ledger, a: Step, b: Step)
    requires Inv(st) && Actor(a).Some? && Actor(b).Some? && Actor(a) != Actor(b)
    ensures Apply(Apply(st, a), b) == Apply(Apply(st, b), a)
  {
    hide Handle, Inv;
    StepKeepsInv(st, a);
    StepKeepsInv(st, b);
    OthersLeaveMine(st, b, Actor(a).value);
    OthersLeaveMine(st, a, Actor(b).value);
    SameOutcome(Apply(st, b), st, a, Actor(a).value);
    SameOutcome(Apply(st, a), st, b, Actor(b).value);
    if Succeeds(st, a) && Succeeds(st, b) {
      ActorWritesOwn(st, a);
      ActorWritesOwn(st, b);
      ActorWritesOwn(Apply(st, a), b);
      WritesCommute(st, Handle(st, a.signers, a.ix).value, Handle(st, b.signers, b.ix).value);
    }
  }

  lemma WritesCommute(st: Ledger, v: RecordWrite, w: RecordWrite)
    requires v.PutRecord? || v.DropRecord?
    requires w.PutRecord? || w.DropRecord?
    requires v.at != w.at
    ensures Commit(Commit(st, v), w) == Commit(Commit(st, w), v)
  {
  }
}
