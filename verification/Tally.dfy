/** One vote per wallet: the weight that governance can count in a (realm, mint). */
module Tally {
  import opened Bytes
  import opened Records
  import opened Addresses
  import opened Ledger
  import opened Invariants
  import opened Authorization
  import opened Provenance

  /** The record belongs to the realm and mint and has not expired at `s`. */
  predicate Counts(r: VoterWeightRecord, realm: Key, mint: Key, s: U64) {
    r.realm == realm && r.mint == mint && Unexpired(r, s)
  }

  /** The total weight of the records at `addresses` that count. */
  ghost function Total(records: map<Address, VoterWeightRecord>, addresses: set<Address>,
                       realm: Key, mint: Key, s: U64): nat
    requires addresses <= records.Keys
  {
    if addresses == {} then 0
    else
      var a :| a in addresses;
      (if Counts(records[a], realm, mint, s) then records[a].voterWeight else 0)
      + Total(records, addresses - {a}, realm, mint, s)
  }

  /** All weight countable in the ledger at slot `s`, for whatever action. */
  ghost function TotalWeight(st: Ledger, realm: Key, mint: Key, s: U64): nat {
    Total(st.records, st.records.Keys, realm, mint, s)
  }

  /** The owners of the records at `addresses` whose weight counts. */
  ghost function Voters(records: map<Address, VoterWeightRecord>, addresses: set<Address>,
                        realm: Key, mint: Key, s: U64): set<Key>
    requires addresses <= records.Keys
  {
    set a | a in addresses && Counts(records[a], realm, mint, s) && records[a].voterWeight > 0 :: records[a].owner
  }

  /** Step `i` of the run is an update of `voter`'s record for the realm and mint that
      succeeded in one of the ten slots up to `s`, or in `s` itself. */
  ghost predicate UpdatedRecently(init: Ledger, steps: seq<Step>, i: nat, realm: Key, mint: Key, voter: Key, s: U64) {
    && i < |steps|
    && steps[i].Invoke? && IsUpdate(steps[i].ix)
    && Succeeds(Before(init, steps, i), steps[i])
    && steps[i].ix.voter == voter && voter in steps[i].signers
    && steps[i].ix.record == RecordAddress(realm, mint, voter)
    && Before(init, steps, i).world.slot <= s <= Before(init, steps, i).world.slot + 10
  }

  /** The wallets with such an update. */
  ghost function RecentVoters(init: Ledger, steps: seq<Step>, realm: Key, mint: Key, s: U64): set<Key> {
    set i | 0 <= i < |steps| && steps[i].Invoke? && IsUpdate(steps[i].ix)
            && UpdatedRecently(init, steps, i, realm, mint, steps[i].ix.voter, s) :: steps[i].ix.voter
  }

  /** A wallet holds at most one record for a (realm, mint). */
  lemma OneRecordPerWallet(st: Ledger, a: Address, b: Address)
    requires Inv(st) && a in st.records && b in st.records
    ensures a == b <==> var r, r' := st.records[a], st.records[b];
                        r.realm == r'.realm && r.mint == r'.mint && r.owner == r'.owner
  {
  }

  /** Each counted wallet contributes exactly one. */
  lemma {:induction false} TotalIsHeadcount(st: Ledger, addresses: set<Address>, realm: Key, mint: Key, s: U64)
    requires Inv(st) && addresses <= st.records.Keys
    ensures Total(st.records, addresses, realm, mint, s) == |Voters(st.records, addresses, realm, mint, s)|
  {
    hide Counts, RecordAddress;
    if addresses == {} {
      assert Voters(st.records, addresses, realm, mint, s) == {};
    } else {
      var a :| a in addresses && Total(st.records, addresses, realm, mint, s) ==
        (if Counts(st.records[a], realm, mint, s) then st.records[a].voterWeight else 0)
        + Total(st.records, addresses - {a}, realm, mint, s);
      TotalIsHeadcount(st, addresses - {a}, realm, mint, s);
      RemoveVoter(st, addresses, a, realm, mint, s);
      assert GoodRecord(a, st.records[a]);
    }
  }

  lemma RemoveVoter(st: Ledger, addresses: set<Address>, a: Address, realm: Key, mint: Key, s: U64)
    requires Inv(st) && a in addresses && addresses <= st.records.Keys
    ensures var voters := Voters(st.records, addresses, realm, mint, s);
            var others := Voters(st.records, addresses - {a}, realm, mint, s);
            if Counts(st.records[a], realm, mint, s) && st.records[a].voterWeight > 0
            then voters == others + {st.records[a].owner} && st.records[a].owner !in others
            else voters == others
  {
  }

  /** Every counted wallet updated recently. */
  lemma {:induction false} VotersAreRecent(init: Ledger, steps: seq<Step>, realm: Key, mint: Key, s: U64)
    requires Initial(init) && Run(init, steps).world.slot <= s
    ensures var st := Run(init, steps);
            Voters(st.records, st.records.Keys, realm, mint, s) <= RecentVoters(init, steps, realm, mint, s)
  {
    var st := Run(init, steps);
    forall k | k in Voters(st.records, st.records.Keys, realm, mint, s)
      ensures k in RecentVoters(init, steps, realm, mint, s)
    {
      var a :| a in st.records && Counts(st.records[a], realm, mint, s) && st.records[a].voterWeight > 0
               && st.records[a].owner == k;
      UnexpiredWeightIsRecent(init, steps, a, s);
      var i: nat :| GrantedAt(init, steps, i, a, st.records[a])
                    && InWindow(Before(init, steps, i).world.slot, s, st.records[a]);
      assert UpdatedRecently(init, steps, i, realm, mint, k, s);
    }
  }

  lemma {:induction false} SubsetCardinality<T>(a: set<T>, b: set<T>)
    requires a <= b
    ensures |a| <= |b|
  {
    if a != {} {
      var x :| x in a;
      SubsetCardinality(a - {x}, b - {x});
    }
  }

  /** After any run, the weight that can be counted in a (realm, mint) at a slot is at
      most the number of distinct wallets that updated in the ten slots before. */
  lemma {:induction false} OneVotePerWallet(init: Ledger, steps: seq<Step>, realm: Key, mint: Key, s: U64)
    requires Initial(init) && Run(init, steps).world.slot <= s
    ensures TotalWeight(Run(init, steps), realm, mint, s) <= |RecentVoters(init, steps, realm, mint, s)|
  {
    var st := Run(init, steps);
    ReachableInv(init, steps);
    TotalIsHeadcount(st, st.records.Keys, realm, mint, s);
    VotersAreRecent(init, steps, realm, mint, s);
    SubsetCardinality(Voters(st.records, st.records.Keys, realm, mint, s), RecentVoters(init, steps, realm, mint, s));
  }
}
