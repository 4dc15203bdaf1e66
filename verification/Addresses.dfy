/** Program-derived addresses, taken as the program and the seed bytes they are
    derived from: the hash behind them is assumed not to collide. */
module Addresses {
  import opened Bytes
  import opened Identity

  datatype Address = Derived(program: Key, seeds: seq<Byte>) | Plain(key: Key)

  const PLUGIN_ID: Key := [
    0x79, 0x1e, 0x16, 0x31, 0x21, 0x19, 0xef, 0xce, 0x37, 0x4a, 0x1d, 0xa9, 0xdc, 0x8f, 0x23, 0x48,
    0xb2, 0x9a, 0x97, 0xe5, 0xe8, 0x0a, 0x63, 0x7d, 0x95, 0xfc, 0xe2, 0x2c, 0xb9, 0x3f, 0x84, 0x67]

  function RegistrarSeeds(realm: Key, mint: Key): seq<Byte> {
    Ascii("registrar") + realm + mint
  }

  function RecordSeeds(realm: Key, mint: Key, owner: Key): seq<Byte> {
    Ascii("voter-weight-record") + realm + mint + owner
  }

  function MaxRecordSeeds(realm: Key, mint: Key): seq<Byte> {
    Ascii("max-voter-weight-record") + realm + mint
  }

  function RegistrarAddress(realm: Key, mint: Key): Address {
    Derived(PLUGIN_ID, RegistrarSeeds(realm, mint))
  }

  function RecordAddress(realm: Key, mint: Key, owner: Key): Address {
    Derived(PLUGIN_ID, RecordSeeds(realm, mint, owner))
  }

  function MaxRecordAddress(realm: Key, mint: Key): Address {
    Derived(PLUGIN_ID, MaxRecordSeeds(realm, mint))
  }

  function IdentityAddress(voter: Key): Address {
    Derived(ENTROS_ANCHOR_PROGRAM_ID, Ascii("identity") + voter)
  }

  // ---- The addresses byte for byte ----------------------------------------

  lemma RegistrarPrefix()
    ensures Ascii("registrar") == [114, 101, 103, 105, 115, 116, 114, 97, 114]
  {
  }

  lemma RecordPrefix()
    ensures Ascii("voter-weight-record") ==
              [118, 111, 116, 101, 114, 45, 119, 101, 105, 103, 104,
               116, 45, 114, 101, 99, 111, 114, 100]
  {
  }

  lemma MaxRecordPrefix()
    ensures Ascii("max-voter-weight-record") ==
              [109, 97, 120, 45, 118, 111, 116, 101, 114, 45, 119,
               101, 105, 103, 104, 116, 45, 114, 101, 99, 111, 114, 100]
  {
  }

  lemma IdentityPrefix()
    ensures Ascii("identity") == [105, 100, 101, 110, 116, 105, 116, 121]
  {
  }

  /** Seed strings are cut where the keys begin. */
  lemma Slices(a: Address, prefix: seq<Byte>, first: Key, second: Key, third: Key)
    ensures a.Derived? ==> var s, n := a.seeds, |prefix|;
      && (s == prefix + first <==> |s| == n + 32 && s[..n] == prefix && s[n..] == first)
      && (s == prefix + first + second <==>
          |s| == n + 64 && s[..n] == prefix && s[n..n + 32] == first && s[n + 32..] == second)
      && (s == prefix + first + second + third <==>
          |s| == n + 96 && s[..n] == prefix && s[n..n + 32] == first && s[n + 32..n + 64] == second
          && s[n + 64..] == third)
  {
    if a.Derived? {
      var s, n := a.seeds, |prefix|;
      if |s| == n + 64 {
        assert s == s[..n] + s[n..n + 32] + s[n + 32..];
      } else if |s| == n + 96 {
        assert s == s[..n] + s[n..n + 32] + s[n + 32..n + 64] + s[n + 64..];
      }
    }
  }

  predicate NamesRegistrar(a: Address, realm: Key, mint: Key): (named: bool)
    ensures named <==> a == RegistrarAddress(realm, mint)
  {
    RegistrarPrefix();
    Slices(a, Ascii("registrar"), realm, mint, mint);
    && a.Derived? && a.program == PLUGIN_ID && |a.seeds| == 73
    && a.seeds[..9] == [114, 101, 103, 105, 115, 116, 114, 97, 114]
    && a.seeds[9..41] == realm && a.seeds[41..] == mint
  }

  predicate NamesRecord(a: Address, realm: Key, mint: Key, owner: Key): (named: bool)
    ensures named <==> a == RecordAddress(realm, mint, owner)
  {
    RecordPrefix();
    Slices(a, Ascii("voter-weight-record"), realm, mint, owner);
    && a.Derived? && a.program == PLUGIN_ID && |a.seeds| == 115
    && a.seeds[..19] == [118, 111, 116, 101, 114, 45, 119, 101, 105, 103, 104, 116, 45, 114, 101, 99, 111, 114,
                         100]
    && a.seeds[19..51] == realm && a.seeds[51..83] == mint && a.seeds[83..] == owner
  }

  predicate NamesMaxRecord(a: Address, realm: Key, mint: Key): (named: bool)
    ensures named <==> a == MaxRecordAddress(realm, mint)
  {
    MaxRecordPrefix();
    Slices(a, Ascii("max-voter-weight-record"), realm, mint, mint);
    && a.Derived? && a.program == PLUGIN_ID && |a.seeds| == 87
    && a.seeds[..23] == [109, 97, 120, 45, 118, 111, 116, 101, 114, 45, 119, 101, 105, 103, 104, 116, 45, 114,
                         101, 99, 111, 114, 100]
    && a.seeds[23..55] == realm && a.seeds[55..] == mint
  }

  predicate NamesIdentity(a: Address, voter: Key): (named: bool)
    ensures named <==> a == IdentityAddress(voter)
  {
    IdentityPrefix();
    Slices(a, Ascii("identity"), voter, voter, voter);
    && a.Derived? && a.program == ENTROS_ANCHOR_PROGRAM_ID && |a.seeds| == 40
    && a.seeds[..8] == [105, 100, 101, 110, 116, 105, 116, 121]
    && a.seeds[8..] == voter
  }

  // ---- The seed strings name one account each -----------------------------

  /** Equal seed strings of one kind come from equal keys. */
  lemma SeedsInjective(realm: Key, mint: Key, owner: Key, realm': Key, mint': Key, owner': Key)
    ensures RegistrarSeeds(realm, mint) == RegistrarSeeds(realm', mint') <==> realm == realm' && mint == mint'
    ensures MaxRecordSeeds(realm, mint) == MaxRecordSeeds(realm', mint') <==> realm == realm' && mint == mint'
    ensures RecordSeeds(realm, mint, owner) == RecordSeeds(realm', mint', owner')
            <==> realm == realm' && mint == mint' && owner == owner'
    ensures IdentityAddress(owner) == IdentityAddress(owner') <==> owner == owner'
  {
    var r, r' := RegistrarSeeds(realm, mint), RegistrarSeeds(realm', mint');
    assert r[9..41] == realm && r[41..] == mint && r'[9..41] == realm' && r'[41..] == mint';
    var m, m' := MaxRecordSeeds(realm, mint), MaxRecordSeeds(realm', mint');
    assert m[23..55] == realm && m[55..] == mint && m'[23..55] == realm' && m'[55..] == mint';
    var v, v' := RecordSeeds(realm, mint, owner), RecordSeeds(realm', mint', owner');
    assert v[19..51] == realm && v[51..83] == mint && v[83..] == owner;
    assert v'[19..51] == realm' && v'[51..83] == mint' && v'[83..] == owner';
    var i, i' := IdentityAddress(owner).seeds, IdentityAddress(owner').seeds;
    assert i[8..] == owner && i'[8..] == owner';
  }

  /** No two kinds of account share a seed string: their lengths differ. */
  lemma SeedKindsApart(realm: Key, mint: Key, realm': Key, mint': Key, owner: Key)
    ensures RegistrarSeeds(realm, mint) != RecordSeeds(realm', mint', owner)
    ensures RegistrarSeeds(realm, mint) != MaxRecordSeeds(realm', mint')
    ensures MaxRecordSeeds(realm, mint) != RecordSeeds(realm', mint', owner)
  {
  }
}
