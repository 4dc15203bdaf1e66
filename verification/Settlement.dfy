/** From update to vote: who can always vote, what an action-bound update is good for,
    and what becomes of records whose registrar is closed. */
module Settlement {
  import opened Bytes
  import opened Records
  import opened Identity
  import opened Addresses
  import opened Ledger
  import opened Invariants
  import opened Authorization
  import opened Provenance
  import opened Policy

  // ---- Nobody is locked out -----------------------------------------------

  /** Whatever has been configured in the run so far, a wallet verified this very second
      with a sufficient score, whose record and registrar exist, succeeds in updating. */
  lemma {:induction false} FreshVoterIsNeverLockedOut(init: Ledger, steps: seq<Step>,
                                                      signers: set<Key>, ix: Instruction)
    requires Initial(init) && IsUpdate(ix)
    requires var st := Run(init, steps);
             && ix.voter in signers
             && OwnRecord(st, ix.registrar, ix.record, ix.voter)
             && |ix.remaining| > 0 && ix.remaining[0] == IdentityAddress(ix.voter)
             && ix.remaining[0] in st.world.external
             && st.world.external[ix.remaining[0]].owner == ENTROS_ANCHOR_PROGRAM_ID
             && (exists score: U16 ::
                   && score >= st.registrars[ix.registrar].minTrustScore
                   && ReadIdentity(st.world.external[ix.remaining[0]].data) == Ok(Evidence(st.world.now, score)))
    requires ix.UpdateVoterWeightRecordForAction? ==> ix.target != DEFAULT_KEY
    ensures Handle(Run(init, steps), signers, ix).Ok?
  {
    var st := Run(init, steps);
    ReachableInv(init, steps);
    assert GoodRegistrar(ix.registrar, st.registrars[ix.registrar]);
    hide Handle, RecordAddress, RegistrarAddress, IdentityAddress, ReadIdentity;
    if ix.UpdateVoterWeightRecord? {
      UpdateSucceedsIff(st, signers, ix);
    } else {
      UpdateForActionSucceedsIff(st, signers, ix);
    }
  }

  /** The account at the voter's identity address is Entros's, holds an identity, and its
      score is at least `minTrustScore`. */
  ghost predicate Evidenced(world: World, minTrustScore: U16, voter: Key) {
    var a := IdentityAddress(voter);
    && a in world.external
    && world.external[a].owner == ENTROS_ANCHOR_PROGRAM_ID
    && ReadIdentity(world.external[a].data).Ok?
    && minTrustScore <= ReadIdentity(world.external[a].data).value.trustScore
  }

  /** For a given identity the clock values that admit the voter form one interval, and
      from -1 on they are exactly those before the verification plus the age limit. */
  lemma AcceptingTimes(world: World, reg: Registrar, voter: Key, t: I64)
    requires Evidenced(world, reg.minTrustScore, voter)
    ensures var last := ReadIdentity(world.external[IdentityAddress(voter)].data).value.lastVerification;
            && (Eligible(world.(now := t), reg, voter) <==> last + I64_MIN <= t < last + reg.maxVerificationAge)
            && (t >= -1 ==> (Eligible(world.(now := t), reg, voter) <==> t < last + reg.maxVerificationAge))
  {
  }

  /** A world with one identity in it, verified at second 0 and judged at `now`. */
  ghost function SoleIdentity(score: U16, now: I64): World {
    var data := IdentityImage(IDENTITY_DISCRIMINATOR, DEFAULT_KEY, 0, 0, 0, score, []);
    World(map[IdentityAddress(DEFAULT_KEY) := ExternalAccount(ENTROS_ANCHOR_PROGRAM_ID, data)], map[], {}, 0, now)
  }

  lemma SoleIdentityEligible(reg: Registrar, score: U16, now: I64)
    ensures Eligible(SoleIdentity(score, now), reg, DEFAULT_KEY) <==>
              reg.minTrustScore <= score && now < reg.maxVerificationAge
  {
    ReadWrittenIdentity(IDENTITY_DISCRIMINATOR, DEFAULT_KEY, 0, 0, 0, score, []);
    hide IdentityImage, ReadIdentity;
  }

  /** A policy turns away everyone whom another turns away, in every world, exactly if its
      score floor is no lower and its age limit no higher, or if it admits nobody at all. */
  lemma StricterPolicyAdmitsFewer(reg: Registrar, stricter: Registrar)
    ensures (forall world: World, voter: Key | Eligible(world, stricter, voter) :: Eligible(world, reg, voter)) <==>
              || (reg.minTrustScore <= stricter.minTrustScore && stricter.maxVerificationAge <= reg.maxVerificationAge)
              || stricter.maxVerificationAge == I64_MIN
  {
    SoleIdentityEligible(stricter, stricter.minTrustScore, I64_MIN);
    SoleIdentityEligible(reg, stricter.minTrustScore, I64_MIN);
    SoleIdentityEligible(stricter, stricter.minTrustScore, reg.maxVerificationAge);
    SoleIdentityEligible(reg, stricter.minTrustScore, reg.maxVerificationAge);
    hide SoleIdentity;
  }

  // ---- What can happen to a granted record --------------------------------

  /** Step `k` of the run is a successful update of the record at `a`. */
  ghost predicate UpdatesRecord(init: Ledger, steps: seq<Step>, k: nat, a: Address)
    requires k < |steps|
  {
    Succeeds(Before(init, steps, k), steps[k]) && IsUpdate(steps[k].ix) && steps[k].ix.record == a
  }

  ghost predicate Closes(st: Ledger, step: Step, a: Address) {
    Succeeds(st, step) && step.ix.CloseVoterWeightRecord? && step.ix.record == a
  }

  /** Step `k` of the run closes the record at `a`. */
  ghost predicate ClosesRecord(init: Ledger, steps: seq<Step>, k: nat, a: Address)
    requires k < |steps|
  {
    Closes(Before(init, steps, k), steps[k], a)
  }

  lemma OnlyCloseRemoves(st: Ledger, step: Step, a: Address)
    ensures Closes(st, step, a) ==> a !in Apply(st, step).records
    ensures a in st.records && !Closes(st, step, a) ==> a in Apply(st, step).records
  {
    hide Handle;
    if Succeeds(st, step) {
      HandleWritesAsNamed(st, step.signers, step.ix);
    }
  }

  lemma {:induction false} StepWithoutUpdate(st: Ledger, step: Step, a: Address)
    requires Inv(st) && !(Succeeds(st, step) && IsUpdate(step.ix) && step.ix.record == a)
    ensures var post := Apply(st, step).records;
            if a !in st.records then a in post ==> post[a].voterWeight == 0
            else if Closes(st, step, a) then a !in post
            else a in post && post[a] == st.records[a]
  {
    RecordAfterStep(st, step, a);
    OnlyCloseRemoves(st, step, a);
    hide Handle, Apply, Inv;
  }

  /** Without an update of it a record keeps its contents until it is closed, and from
      then on it is gone or reborn without weight. */
  lemma {:induction false} KeptUntilClosed(st: Ledger, steps: seq<Step>, a: Address)
    requires Inv(st) && a in st.records
    requires forall k: nat | k < |steps| :: !UpdatesRecord(st, steps, k, a)
    ensures var last := Run(st, steps).records;
            if forall k: nat | k < |steps| :: !ClosesRecord(st, steps, k, a)
            then a in last && last[a] == st.records[a]
            else a in last ==> last[a].voterWeight == 0
  {
    hide Succeeds, Closes, Apply, Inv;
    if steps != [] {
      var n := |steps| - 1;
      forall k: nat | k < n
        ensures UpdatesRecord(st, steps[..n], k, a) <==> UpdatesRecord(st, steps, k, a)
        ensures ClosesRecord(st, steps[..n], k, a) <==> ClosesRecord(st, steps, k, a)
      {
        assert steps[..n][..k] == steps[..k];
      }
      KeptUntilClosed(st, steps[..n], a);
      RunKeepsInv(st, steps[..n]);
      assert !UpdatesRecord(st, steps, n, a);
      StepWithoutUpdate(Before(st, steps, n), steps[n], a);
      assert ClosesRecord(st, steps, n, a) <==> Closes(Before(st, steps, n), steps[n], a);
    }
  }

  /** A step that the owner does not sign leaves a record as it is. */
  lemma {:induction false} UnsignedStepKeeps(st: Ledger, step: Step, a: Address)
    requires Inv(st) && a in st.records
    requires step.Invoke? ==> st.records[a].owner !in step.signers
    ensures a in Apply(st, step).records && Apply(st, step).records[a] == st.records[a]
  {
    hide Handle, Apply, Inv;
    if Succeeds(st, step) && (IsUpdate(step.ix) || step.ix.CloseVoterWeightRecord?) && step.ix.record == a {
      OwnerSigns(st, step);
    }
    StepWithoutUpdate(st, step, a);
  }

  lemma OwnerSigns(st: Ledger, step: Step)
    requires Inv(st) && Succeeds(st, step) && (IsUpdate(step.ix) || step.ix.CloseVoterWeightRecord?)
    ensures step.ix.record in st.records && st.records[step.ix.record].owner in step.signers
  {
    hide Inv, RecordAddress, RegistrarAddress;
  }

  /** Nobody but its owner can change or remove a record: whatever the rest of the world
      does, realm authorities included, it stays as it is until the owner signs something. */
  lemma {:induction false} OnlyTheOwnerEndsIt(st: Ledger, steps: seq<Step>, a: Address)
    requires Inv(st) && a in st.records
    requires forall k: nat | k < |steps| && steps[k].Invoke? :: st.records[a].owner !in steps[k].signers
    ensures a in Run(st, steps).records && Run(st, steps).records[a] == st.records[a]
  {
    hide Succeeds, Closes, Apply, Inv;
    if steps != [] {
      var n := |steps| - 1;
      forall k: nat | k < n && steps[..n][k].Invoke?
        ensures st.records[a].owner !in steps[..n][k].signers
      {
        assert steps[..n][k] == steps[k];
      }
      OnlyTheOwnerEndsIt(st, steps[..n], a);
      RunKeepsInv(st, steps[..n]);
      UnsignedStepKeeps(Run(st, steps[..n]), steps[n], a);
    }
  }

  // ---- From update to vote ------------------------------------------------

  /** Governance would take a vote from the record at `a` now. */
  ghost predicate Votes(st: Ledger, a: Address, action: VoterWeightAction, target: Key) {
    a in st.records && st.records[a].voterWeight > 0 && Usable(st.records[a], st.world.slot, action, target)
  }

  /** Right after an action-bound update the record carries one vote, for exactly that
      action on exactly that target in exactly that slot. */
  lemma BoundToOneUse(st: Ledger, step: Step, s: U64, action: VoterWeightAction, target: Key)
    requires Inv(st) && Succeeds(st, step) && step.ix.UpdateVoterWeightRecordForAction?
    requires st.world.slot <= s
    ensures var post, a := Apply(st, step), step.ix.record;
            && post.world == st.world
            && a in post.records && post.records[a].voterWeight == 1
            && (Usable(post.records[a], s, action, target) <==>
                s == st.world.slot && action == step.ix.action && target == step.ix.target)
  {
  }

  /** The same however much happens in between, short of another update: the vote is there
      for the bound action and target while the slot lasts and the record is not closed,
      and never after. */
  lemma {:induction false} SettlesInSlotOrNever(st: Ledger, step: Step, later: seq<Step>,
                                                action: VoterWeightAction, target: Key)
    requires Inv(st) && Succeeds(st, step) && step.ix.UpdateVoterWeightRecordForAction?
    requires forall k: nat | k < |later| :: !UpdatesRecord(Apply(st, step), later, k, step.ix.record)
    ensures var post, last, a := Apply(st, step), Run(Apply(st, step), later), step.ix.record;
            Votes(last, a, action, target) <==>
              && last.world.slot == st.world.slot && action == step.ix.action && target == step.ix.target
              && forall k: nat | k < |later| :: !ClosesRecord(post, later, k, a)
  {
    hide Apply, Handle, Inv, Usable;
    var post := Apply(st, step);
    StepSlot(st, step);
    StepKeepsInv(st, step);
    SlotMonotone(post, later, 0, |later|);
    assert later[..|later|] == later && later[..0] == [];
    BoundToOneUse(st, step, Run(post, later).world.slot, action, target);
    KeptUntilClosed(post, later, step.ix.record);
  }

  /** A standalone update is good for any action and target, for that slot and the ten
      after it, and no longer. */
  lemma StandaloneLastsTenSlots(st: Ledger, step: Step, s: U64, action: VoterWeightAction, target: Key)
    requires Inv(st) && Succeeds(st, step) && step.ix.UpdateVoterWeightRecord?
    ensures var post, a := Apply(st, step), step.ix.record;
            && post.world == st.world
            && a in post.records && post.records[a].voterWeight == 1
            && (Usable(post.records[a], s, action, target) <==> s <= st.world.slot + 10)
  {
  }

  lemma {:induction false} StandaloneSettlesInWindow(st: Ledger, step: Step, later: seq<Step>,
                                                     action: VoterWeightAction, target: Key)
    requires Inv(st) && Succeeds(st, step) && step.ix.UpdateVoterWeightRecord?
    requires forall k: nat | k < |later| :: !UpdatesRecord(Apply(st, step), later, k, step.ix.record)
    ensures var post, last, a := Apply(st, step), Run(Apply(st, step), later), step.ix.record;
            Votes(last, a, action, target) <==>
              && last.world.slot <= st.world.slot + 10
              && forall k: nat | k < |later| :: !ClosesRecord(post, later, k, a)
  {
    hide Apply, Handle, Inv, Usable;
    var post := Apply(st, step);
    StepKeepsInv(st, step);
    StandaloneLastsTenSlots(st, step, Run(post, later).world.slot, action, target);
    KeptUntilClosed(post, later, step.ix.record);
  }

  /** So nobody else can take a granted vote away: as long as the voter signs nothing more,
      it is there for exactly the slots, action and target it was granted for. */
  lemma {:induction false} NobodyElseTakesTheVote(st: Ledger, step: Step, later: seq<Step>,
                                                  action: VoterWeightAction, target: Key)
    requires Inv(st) && Succeeds(st, step) && IsUpdate(step.ix)
    requires forall k: nat | k < |later| && later[k].Invoke? :: step.ix.voter !in later[k].signers
    ensures var last := Run(Apply(st, step), later);
            Votes(last, step.ix.record, action, target) <==>
              if step.ix.UpdateVoterWeightRecord? then last.world.slot <= st.world.slot + 10
              else last.world.slot == st.world.slot && action == step.ix.action && target == step.ix.target
  {
    hide Apply, Handle, Inv, Usable;
    var post := Apply(st, step);
    StepSlot(st, step);
    StepKeepsInv(st, step);
    UpdateGrants(st, step);
    OnlyTheOwnerEndsIt(post, later, step.ix.record);
    SlotMonotone(post, later, 0, |later|);
    assert later[..|later|] == later && later[..0] == [];
    if step.ix.UpdateVoterWeightRecord? {
      StandaloneLastsTenSlots(st, step, Run(post, later).world.slot, action, target);
    } else {
      BoundToOneUse(st, step, Run(post, later).world.slot, action, target);
    }
  }

  // ---- Orphaned records ---------------------------------------------------

  /** With no registrar for the realm and mint, no record of theirs can be created,
      updated or closed. */
  lemma {:induction false} OrphansAreUntouched(st: Ledger, step: Step, realm: Key, mint: Key, w: Key)
    requires Inv(st) && RegistrarAddress(realm, mint) !in st.registrars
    ensures var a := RecordAddress(realm, mint, w);
            && (a in Apply(st, step).records <==> a in st.records)
            && (a in st.records ==> Apply(st, step).records[a] == st.records[a])
  {
    hide Handle, RecordAddress, RegistrarAddress, Inv;
    if Succeeds(st, step) {
      HandleWritesAsNamed(st, step.signers, step.ix);
      if (step.ix.CreateVoterWeightRecord? || IsUpdate(step.ix) || step.ix.CloseVoterWeightRecord?)
         && step.ix.record == RecordAddress(realm, mint, w)
      {
        RecordStepHasRegistrar(st, step, realm, mint, w);
      }
    }
  }

  lemma RecordStepHasRegistrar(st: Ledger, step: Step, realm: Key, mint: Key, w: Key)
    requires Inv(st) && Succeeds(st, step)
    requires step.ix.CreateVoterWeightRecord? || IsUpdate(step.ix) || step.ix.CloseVoterWeightRecord?
    requires step.ix.record == RecordAddress(realm, mint, w)
    ensures step.ix.registrar == RegistrarAddress(realm, mint) && step.ix.registrar in st.registrars
  {
    hide VoterFault, HandleRegistrar, CreateMaxFault, UpdateMaxFault;
    var ix := step.ix;
    var reg := st.registrars[ix.registrar];
    if ix.CreateVoterWeightRecord? {
      CreateRecordSucceedsIff(st, step.signers, ix);
      SeedsInjective(realm, mint, w, reg.realm, reg.mint, ix.owner);
    } else {
      FieldsNameTheAddress(st, ix.registrar, ix.record, st.records[ix.record].owner);
      SeedsInjective(realm, mint, w, reg.realm, reg.mint, st.records[ix.record].owner);
    }
    assert GoodRegistrar(ix.registrar, reg);
  }

  lemma {:induction false} OrphansSurvive(st: Ledger, steps: seq<Step>, realm: Key, mint: Key, w: Key)
    requires Inv(st) && RegistrarAddress(realm, mint) !in st.registrars
    requires forall k: nat | k < |steps| :: !CreatesRegistrar(st, steps, k, RegistrarAddress(realm, mint))
    ensures RegistrarAddress(realm, mint) !in Run(st, steps).registrars
    ensures var a := RecordAddress(realm, mint, w);
            && (a in Run(st, steps).records <==> a in st.records)
            && (a in st.records ==> Run(st, steps).records[a] == st.records[a])
  {
    hide Apply, RecordAddress, RegistrarAddress;
    var at := RegistrarAddress(realm, mint);
    if steps != [] {
      var n := |steps| - 1;
      forall k: nat | k < n
        ensures !CreatesRegistrar(st, steps[..n], k, at)
      {
        assert steps[..n][..k] == steps[..k];
        assert !CreatesRegistrar(st, steps, k, at);
      }
      OrphansSurvive(st, steps[..n], realm, mint, w);
      RunKeepsInv(st, steps[..n]);
      OrphansAreUntouched(Before(st, steps, n), steps[n], realm, mint, w);
      assert !CreatesRegistrar(st, steps, n, at);
      AbsentUnlessCreated(Before(st, steps, n), steps[n], at);
    }
  }

  /** A wallet's record outlives its registrar: after the registrar is closed, whatever
      happens, and created anew, the owner can close that same record, can update it just
      when eligible, and could not have got a second one. */
  lemma {:induction false} OrphanRecovers(st: Ledger, close: Step, between: seq<Step>, recreate: Step,
                                          realm: Key, mint: Key, w: Key, signers: set<Key>,
                                          remaining: seq<Address>, action: VoterWeightAction, target: Key)
    requires Inv(st) && Succeeds(st, close) && close.ix.CloseRegistrar?
    requires close.ix.registrar == RegistrarAddress(realm, mint)
    requires RecordAddress(realm, mint, w) in st.records && w in signers
    requires forall k: nat | k < |between| ::
               !CreatesRegistrar(Apply(st, close), between, k, RegistrarAddress(realm, mint))
    requires var gone := Run(Apply(st, close), between);
             && Succeeds(gone, recreate) && recreate.ix.CreateRegistrar?
             && recreate.ix.registrar == RegistrarAddress(realm, mint)
    ensures var back := Apply(Run(Apply(st, close), between), recreate);
            var at, a := RegistrarAddress(realm, mint), RecordAddress(realm, mint, w);
            && a in back.records && back.records[a] == st.records[a]
            && Handle(back, signers, CloseVoterWeightRecord(at, a, w)).Ok?
            && Handle(back, signers, CreateVoterWeightRecord(at, a, w, w)).Err?
            && (|remaining| > 0 && remaining[0] == IdentityAddress(w) ==>
                  && at in back.registrars
                  && (Handle(back, signers, UpdateVoterWeightRecord(at, a, w, remaining)).Ok? <==>
                      Eligible(back.world, back.registrars[at], w))
                  && (Handle(back, signers,
                             UpdateVoterWeightRecordForAction(at, a, w, remaining, action, target)).Ok? <==>
                      target != DEFAULT_KEY && Eligible(back.world, back.registrars[at], w)))
  {
    var closed := Apply(st, close);
    var gone := Run(closed, between);
    var back := Apply(gone, recreate);
    var at, a := RegistrarAddress(realm, mint), RecordAddress(realm, mint, w);
    ClosedIsGone(st, close);
    StepKeepsInv(st, close);
    OrphansSurvive(closed, between, realm, mint, w);
    RunKeepsInv(closed, between);
    OrphansAreUntouched(gone, recreate, realm, mint, w);
    StepKeepsInv(gone, recreate);
    Recreated(gone, recreate);
    RegistrarAt(back, realm, mint);
    CloseSucceedsIff(back, signers, CloseVoterWeightRecord(at, a, w));
    CreateRecordSucceedsIff(back, signers, CreateVoterWeightRecord(at, a, w, w));
    UpdateSucceedsIff(back, signers, UpdateVoterWeightRecord(at, a, w, remaining));
    UpdateForActionSucceedsIff(back, signers,
                               UpdateVoterWeightRecordForAction(at, a, w, remaining, action, target));
    hide Handle, RecordAddress, RegistrarAddress, IdentityAddress, Eligible, Inv, Run, Apply, Succeeds;
  }

  lemma Recreated(st: Ledger, step: Step)
    requires Succeeds(st, step) && step.ix.CreateRegistrar?
    ensures step.ix.registrar in Apply(st, step).registrars
  {
  }

  lemma RegistrarAt(st: Ledger, realm: Key, mint: Key)
    requires Inv(st) && RegistrarAddress(realm, mint) in st.registrars
    ensures var reg := st.registrars[RegistrarAddress(realm, mint)]; reg.realm == realm && reg.mint == mint
  {
    var a := RegistrarAddress(realm, mint);
    assert GoodRegistrar(a, st.registrars[a]);
    SeedsInjective(realm, mint, realm, st.registrars[a].realm, st.registrars[a].mint, realm);
  }
}
