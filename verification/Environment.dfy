/** The world around the plugin is as free as can be: nothing but the slot going back, and
    foreign data at the plugin's own addresses, is ruled out. */
module Environment {
  import opened Bytes
  import opened Records
  import opened Addresses
  import opened Ledger

  predicate IsEnvironment(steps: seq<Step>) {
    forall i | 0 <= i < |steps| :: steps[i].Happen?
  }

  /** What `m` holds at `k`, in the form in which a happening writes it. */
  function At<K, V>(m: map<K, V>, k: K): Option<V> {
    if k in m then Some(m[k]) else None
  }

  /** `after` is `before` but at the keys in `todo`. */
  ghost predicate DiffersWithin<K(!new), V>(before: map<K, V>, after: map<K, V>, todo: set<K>) {
    forall k | k !in todo :: At(before, k) == At(after, k)
  }

  lemma SameMap<K(!new), V>(s: map<K, V>, t: map<K, V>)
    requires DiffersWithin(s, t, {})
    ensures s == t
  {
    forall k
      ensures (k in s <==> k in t) && (k in s ==> s[k] == t[k])
    {
      assert At(s, k) == At(t, k);
    }
  }

  /** `after`, but for the value of `before` at `k`. */
  ghost function Nearly<K(!new), V>(before: map<K, V>, after: map<K, V>, k: K): (m: map<K, V>)
    ensures forall x :: At(m, x) == if x == k then At(before, x) else At(after, x)
  {
    if k in before then after[k := before[k]] else after - {k}
  }

  lemma WriteLast<K(!new), V>(before: map<K, V>, after: map<K, V>, k: K)
    ensures var m := Nearly(before, after, k);
            && (At(after, k).Some? ==> m[k := after[k]] == after)
            && (At(after, k).None? ==> m - {k} == after)
            && (At(before, k) == At(after, k) ==> m == after)
  {
    var m := Nearly(before, after, k);
    if At(before, k) == At(after, k) {
      SameMap(m, after);
    }
  }

  /** The plugin's own addresses hold no foreign account that the other map lacks. */
  ghost predicate SameAtPlugin(s: map<Address, ExternalAccount>, t: map<Address, ExternalAccount>) {
    forall a: Address | a.Derived? && a.program == PLUGIN_ID :: At(s, a) == At(t, a)
  }

  lemma {:induction false} WriteExternals(st: Ledger, external: map<Address, ExternalAccount>, todo: set<Address>)
    returns (steps: seq<Step>)
    requires DiffersWithin(st.world.external, external, todo)
    requires SameAtPlugin(st.world.external, external)
    ensures IsEnvironment(steps)
    ensures Run(st, steps) == st.(world := st.world.(external := external))
    decreases |todo|
  {
    if todo == {} {
      SameMap(st.world.external, external);
      steps := [];
    } else {
      var a :| a in todo;
      var before := WriteExternals(st, Nearly(st.world.external, external, a), todo - {a});
      var write := Happen(WriteExternal(a, At(external, a)));
      steps := before + [write];
      assert steps[..|steps| - 1] == before;
      WriteLast(st.world.external, external, a);
    }
  }

  lemma {:induction false} WriteRealms(st: Ledger, realms: map<Key, RealmAccount>, todo: set<Key>)
    returns (steps: seq<Step>)
    requires DiffersWithin(st.world.realms, realms, todo)
    ensures IsEnvironment(steps)
    ensures Run(st, steps) == st.(world := st.world.(realms := realms))
    decreases |todo|
  {
    if todo == {} {
      SameMap(st.world.realms, realms);
      steps := [];
    } else {
      var k :| k in todo;
      var before := WriteRealms(st, Nearly(st.world.realms, realms, k), todo - {k});
      var write := Happen(WriteRealm(k, At(realms, k)));
      steps := before + [write];
      assert steps[..|steps| - 1] == before;
      WriteLast(st.world.realms, realms, k);
    }
  }

  /** `after`, but for whether it holds `k`, as `before`. */
  function NearlySet(before: set<Key>, after: set<Key>, k: Key): (m: set<Key>)
    ensures forall x :: x in m <==> if x == k then x in before else x in after
    ensures (if k in after then m + {k} else m - {k}) == after
  {
    if k in before then after + {k} else after - {k}
  }

  lemma Deployed(st: Ledger, k: Key, executables: set<Key>)
    ensures Apply(st, Happen(Deploy(k, k in executables))).world.executables ==
            if k in executables then st.world.executables + {k} else st.world.executables - {k}
    ensures var post := Apply(st, Happen(Deploy(k, k in executables)));
            post == st.(world := st.world.(executables := post.world.executables))
  {
  }

  lemma {:induction false} DeployPrograms(st: Ledger, executables: set<Key>, todo: set<Key>) returns (steps: seq<Step>)
    requires forall k | k !in todo :: k in executables <==> k in st.world.executables
    ensures IsEnvironment(steps)
    ensures Run(st, steps) == st.(world := st.world.(executables := executables))
    decreases |todo|
  {
    hide Apply, NearlySet;
    if todo == {} {
      assert st.world.executables == executables;
      steps := [];
    } else {
      var k :| k in todo;
      var nearly := NearlySet(st.world.executables, executables, k);
      var before := DeployPrograms(st, nearly, todo - {k});
      var write := Happen(Deploy(k, k in executables));
      steps := before + [write];
      assert steps[..|steps| - 1] == before;
      Deployed(Run(st, before), k, executables);
    }
  }

  lemma {:induction false} RunOn(st: Ledger, first: seq<Step>, second: seq<Step>)
    ensures Run(st, first + second) == Run(Run(st, first), second)
  {
    hide Apply;
    if second == [] {
      assert first + second == first;
    } else {
      var n := |second| - 1;
      assert (first + second)[..|first| + n] == first + second[..n];
      RunOn(st, first, second[..n]);
    }
  }

  /** No step of the world touches the plugin's accounts, or turns the slot back, or writes
      foreign data at one of the plugin's addresses. */
  lemma HappeningsStayOutside(st: Ledger, e: Happening)
    ensures var post := Apply(st, Happen(e));
            && post == st.(world := post.world)
            && st.world.slot <= post.world.slot
            && SameAtPlugin(st.world.external, post.world.external)
  {
  }

  /** And that is all: from any ledger the world can come to be any other within those
      bounds, with whatever clock, identity accounts, realm accounts and programs. */
  lemma {:induction false} AnyWorldCanFollow(st: Ledger, world: World) returns (steps: seq<Step>)
    requires st.world.slot <= world.slot && SameAtPlugin(st.world.external, world.external)
    ensures IsEnvironment(steps)
    ensures Run(st, steps) == st.(world := world)
  {
    var clock := [Happen(AdvanceSlot(world.slot)), Happen(SetTime(world.now))];
    var s1 := st.(world := st.world.(slot := world.slot, now := world.now));
    assert clock[..1] == [clock[0]] && clock[..1][..0] == [];
    assert Run(st, clock[..1]) == Apply(st, clock[0]);
    assert Run(st, clock) == s1;
    var externals := WriteExternals(s1, world.external, s1.world.external.Keys + world.external.Keys);
    var s2 := Run(s1, externals);
    var realms := WriteRealms(s2, world.realms, s2.world.realms.Keys + world.realms.Keys);
    var s3 := Run(s2, realms);
    var programs := DeployPrograms(s3, world.executables, s3.world.executables + world.executables);
    RunOn(st, clock, externals);
    RunOn(st, clock + externals, realms);
    RunOn(st, clock + externals + realms, programs);
    steps := clock + externals + realms + programs;
  }
}
