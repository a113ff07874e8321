/** The migrations as they run: row by row over the metadata tables, with a receipt that the
 *  inverse needs. */
module MigrationService {
  import opened Common
  import opened Migration
  import opened MigrationTheorems

  class Registry {
    var modules: map<AddOn, Module>
    var data: map<nat, XmlId>
    var constraints: map<nat, SchemaRow>
    var relations: map<nat, SchemaRow>
    var dependencies: map<nat, Dependency>
    var committed: bool
    var targets: map<string, set<nat>>
    var nextData: nat
    var nextDependency: nat

    function Contents(): Tables
      reads this
    {
      Tables(modules, data, constraints, relations, dependencies, committed, targets)
    }

    /** The identifier index holds, and sequences are ahead of the rows they number. */
    ghost predicate Valid()
      reads this
    {
      && WellKeyed(data)
      && (forall id | id in data :: id < nextData)
      && (forall id | id in dependencies :: id < nextDependency)
    }

    constructor (t: Tables, nextData: nat, nextDependency: nat)
      requires WellKeyed(t.data) && (forall id | id in t.data :: id < nextData)
        && (forall id | id in t.dependencies :: id < nextDependency)
      ensures Valid() && Contents() == t
    {
      modules, data, constraints, relations, dependencies :=
        t.modules, t.data, t.constraints, t.relations, t.dependencies;
      committed, targets := t.committed, t.targets;
      this.nextData, this.nextDependency := nextData, nextDependency;
    }

    /** Every created row is the alias of an unadopted row that is no longer in todo. */
    static ghost predicate OnlyAliases(c: Config, before: map<nat, XmlId>, now: map<nat, XmlId>, created: set<nat>,
                                       todo: set<nat>) {
      forall id | id in created :: id in now && exists l | l !in todo :: AliasFor(c, before, l, now[id])
    }

    /** Every unadopted row that is no longer in todo has its alias. */
    static ghost predicate AllAliases(c: Config, before: map<nat, XmlId>, now: map<nat, XmlId>, created: set<nat>,
                                      todo: set<nat>) {
      forall l | Unadopted(c, before, l) && l !in todo ::
        exists id | id in created && id in now :: AliasFor(c, before, l, now[id])
    }

    static ghost predicate Extended(before: map<nat, XmlId>, now: map<nat, XmlId>, created: set<nat>) {
      created !! before.Keys && now.Keys == before.Keys + created && forall id | id in before :: now[id] == before[id]
    }

    static ghost predicate Aliased(c: Config, before: map<nat, XmlId>, now: map<nat, XmlId>, created: set<nat>,
                                   todo: set<nat>) {
      && Extended(before, now, created) && WellKeyed(now)
      && OnlyAliases(c, before, now, created, todo) && AllAliases(c, before, now, created, todo)
    }

    static lemma AliasAdded(c: Config, before: map<nat, XmlId>, now: map<nat, XmlId>, created: set<nat>, todo: set<nat>,
                            l: nat, id: nat)
      requires Aliased(c, before, now, created, todo) && l in todo && Unadopted(c, before, l) && id !in now
        && l in before
      requires l in now && now[l] == before[l] && Legacy(c, now[l]) && Canonicals(c, now, now[l]) == map[]
      ensures Aliased(c, before, now[id := AliasOf(c, now[l])], created + {id}, todo - {l})
    {
      hide Unadopted, AliasFor, OnlyAliases, AllAliases, WellKeyed, Canonicals, AliasOf;
      var grown := now[id := AliasOf(c, now[l])];
      SourceOfAlias(c, before, now, l);
      assert grown - {id} == now;
      AliasKeepsIndex(c, before, grown, l, id);
      assert id !in before && id !in created;
      AliasBookkeeping(c, before, now, grown, created, todo, l, id);
    }

    static lemma SourceOfAlias(c: Config, before: map<nat, XmlId>, now: map<nat, XmlId>, l: nat)
      requires Unadopted(c, before, l) && l in now && now[l] == before[l]
      ensures l in before && Legacy(c, now[l]) && AliasFor(c, before, l, AliasOf(c, now[l]))
    {}

    static lemma AliasBookkeeping(c: Config, before: map<nat, XmlId>, now: map<nat, XmlId>, grown: map<nat, XmlId>,
                                  created: set<nat>, todo: set<nat>, l: nat, id: nat)
      requires id !in now && id in grown && grown == now[id := grown[id]] && AliasFor(c, before, l, grown[id])
      requires OnlyAliases(c, before, now, created, todo) && AllAliases(c, before, now, created, todo)
      ensures OnlyAliases(c, before, grown, created + {id}, todo - {l})
        && AllAliases(c, before, grown, created + {id}, todo - {l})
    {
      hide Unadopted, AliasFor;
      forall i | i in created + {id} ensures exists m | m !in todo - {l} :: AliasFor(c, before, m, grown[i]) {
        if i != id { var m :| m !in todo && AliasFor(c, before, m, now[i]); assert m !in todo - {l}; }
      }
      forall m | Unadopted(c, before, m) && m !in todo - {l}
        ensures exists i | i in created + {id} && i in grown :: AliasFor(c, before, m, grown[i]) {
        if m == l {
          assert id in created + {id};
        } else {
          var i :| i in created && i in now && AliasFor(c, before, m, now[i]);
          assert grown[i] == now[i];
        }
      }
    }

    static lemma AliasSkipped(c: Config, before: map<nat, XmlId>, now: map<nat, XmlId>, created: set<nat>,
                              todo: set<nat>, l: nat)
      requires Aliased(c, before, now, created, todo) && l in todo && !Unadopted(c, before, l)
      ensures Aliased(c, before, now, created, todo - {l})
    {
      hide WellKeyed, Unadopted, AliasFor;
      forall i | i in created ensures exists m | m !in todo - {l} :: AliasFor(c, before, m, now[i]) {
        var m :| m !in todo && AliasFor(c, before, m, now[i]);
        assert m !in todo - {l};
      }
    }

    /** Gives the successor of every unadopted identifier a row of its own. */
    method CreateAliases(c: Config) returns (created: set<nat>)
      requires Valid() && ValidConfig(c) && MetadataReady(c, data)
      modifies this`data, this`nextData
      ensures Valid() && Aliased(c, old(data), data, created, {}) && old(nextData) <= nextData
    {
      hide Unadopted, Canonicals, ValidConfig, MetadataReady, OnlyAliases, AllAliases, WellKeyed;
      created := {};
      NothingAliased(c, data);
      var todo := LegacyIds(c, data);
      ghost var before := data;
      while todo != {}
        invariant Valid() && todo <= LegacyIds(c, before) && old(nextData) <= nextData
        invariant Aliased(c, before, data, created, todo)
        decreases todo
      {
        var l :| l in todo;
        UnadoptedStill(c, before, data, created, todo, l);
        if Canonicals(c, data, data[l]) == map[] {
          AliasAdded(c, before, data, created, todo, l, nextData);
          data := data[nextData := AliasOf(c, data[l])];
          created := created + {nextData};
          nextData := nextData + 1;
        } else {
          AliasSkipped(c, before, data, created, todo, l);
        }
        todo := todo - {l};
      }
    }

    static lemma NothingAliased(c: Config, data: map<nat, XmlId>)
      ensures OnlyAliases(c, data, data, {}, LegacyIds(c, data)) && AllAliases(c, data, data, {}, LegacyIds(c, data))
    {}

    /** A row is still without a successor exactly when it was before the first alias. */
    static lemma UnadoptedStill(c: Config, before: map<nat, XmlId>, now: map<nat, XmlId>, created: set<nat>,
                                todo: set<nat>, l: nat)
      requires ValidConfig(c) && WellKeyed(before) && MetadataReady(c, before) && l in todo
        && todo <= LegacyIds(c, before)
      requires Aliased(c, before, now, created, todo)
      ensures l in before && l in now && now[l] == before[l] && Legacy(c, now[l])
      ensures Canonicals(c, now, now[l]) == map[] <==> Unadopted(c, before, l)
    {
      if Unadopted(c, before, l) {
        forall id | id in now ensures id !in Canonicals(c, now, now[l]) {
          if id in created {
            var m :| m !in todo && AliasFor(c, before, m, now[id]);
            if c.owners[before[l].addOn] == c.owners[before[m].addOn] && before[l].name == before[m].name {
              SameOwnerSameName(c, before, l, m);
            }
          } else {
            assert id !in Canonicals(c, before, before[l]);
          }
        }
        assert Canonicals(c, now, now[l]) == map[];
      } else {
        var id :| id in Canonicals(c, before, before[l]);
        assert id in Canonicals(c, now, now[l]);
      }
    }

    static lemma AliasKeepsIndex(c: Config, before: map<nat, XmlId>, now: map<nat, XmlId>, l: nat, id: nat)
      requires l in now && l != id && id in now && Legacy(c, now[l]) && now[id] == AliasOf(c, now[l])
      requires WellKeyed(now - {id}) && Canonicals(c, now - {id}, now[l]) == map[]
      ensures WellKeyed(now)
    {
      forall i | i in now && i != id ensures now[i].addOn != now[id].addOn || now[i].name != now[id].name {
        assert i !in Canonicals(c, now - {id}, now[l]);
      }
      forall i, j | i in now && j in now && i != j ensures now[i].addOn != now[j].addOn || now[i].name != now[j].name {
        if i != id && j != id { assert i in now - {id} && j in now - {id}; }
      }
    }

    /** Adopts the identifiers of the retired add-ons and freezes the retired rows. */
    method AdoptIdentifiers(c: Config) returns (created: set<nat>)
      requires Valid() && ValidConfig(c) && MetadataReady(c, data)
      modifies this`data, this`nextData
      ensures Valid() && Adopted(c, old(data), data, created) && old(nextData) <= nextData
    {
      hide Adopted, Aliased, ValidConfig, MetadataReady, WellKeyed;
      created := CreateAliases(c);
      ghost var copied := data;
      ghost var before := old(data);
      AliasesForeign(c, before, copied, created);
      data := map id | id in data :: if Legacy(c, data[id]) then data[id].(noupdate := true) else data[id];
      FrozenAdopted(c, before, copied, data, created);
      AdoptedIndex(c, before, data, created);
    }

    static lemma AdoptedIndex(c: Config, before: map<nat, XmlId>, frozen: map<nat, XmlId>, created: set<nat>)
      requires Adopted(c, before, frozen, created)
      ensures WellKeyed(frozen)
    {}

    static lemma AliasesForeign(c: Config, before: map<nat, XmlId>, copied: map<nat, XmlId>, created: set<nat>)
      requires ValidConfig(c) && Aliased(c, before, copied, created, {})
      ensures forall id | id in created :: !Legacy(c, copied[id])
    {
      OwnersSurvive(c);
      hide ValidConfig, WellKeyed, Canonicals;
      forall id | id in created ensures !Legacy(c, copied[id]) {
        var l :| l !in {} && AliasFor(c, before, l, copied[id]);
      }
    }

    static lemma FrozenAdopted(c: Config, before: map<nat, XmlId>, copied: map<nat, XmlId>, frozen: map<nat, XmlId>,
                               created: set<nat>)
      requires Aliased(c, before, copied, created, {}) && forall id | id in created :: !Legacy(c, copied[id])
      requires frozen == map id | id in copied ::
        if Legacy(c, copied[id]) then copied[id].(noupdate := true) else copied[id]
      ensures Adopted(c, before, frozen, created)
    {
      hide Canonicals, WellKeyed, Unadopted, AliasFor, OnlyAliases, AllAliases;
      SameIndex(c, copied, frozen);
      FrozenAliases(c, before, copied, frozen, created);
    }

    static lemma FrozenAliases(c: Config, before: map<nat, XmlId>, copied: map<nat, XmlId>, frozen: map<nat, XmlId>,
                               created: set<nat>)
      requires frozen.Keys == copied.Keys && created <= copied.Keys
      requires forall id | id in created :: frozen[id] == copied[id]
      requires OnlyAliases(c, before, copied, created, {}) && AllAliases(c, before, copied, created, {})
      ensures forall id | id in created :: exists l :: AliasFor(c, before, l, frozen[id])
      ensures forall l | Unadopted(c, before, l) :: exists id | id in created :: AliasFor(c, before, l, frozen[id])
    {
      hide Unadopted, AliasFor;
      forall id | id in created ensures exists l :: AliasFor(c, before, l, frozen[id]) {
        var l :| l !in {} && AliasFor(c, before, l, copied[id]);
        assert AliasFor(c, before, l, frozen[id]);
      }
      forall l | Unadopted(c, before, l) ensures exists id | id in created :: AliasFor(c, before, l, frozen[id]) {
        assert l !in {};
        var id :| id in created && id in copied && AliasFor(c, before, l, copied[id]);
        assert frozen[id] == copied[id];
      }
    }

    static lemma SameIndex(c: Config, copied: map<nat, XmlId>, frozen: map<nat, XmlId>)
      requires WellKeyed(copied)
      requires frozen == map id | id in copied ::
        if Legacy(c, copied[id]) then copied[id].(noupdate := true) else copied[id]
      ensures WellKeyed(frozen)
    {}

    /** Adds what an owner still needs after the rename. */
    method AddNeeded(c: Config, n: AddOn) returns (created: set<nat>)
      requires n in c.needed && forall id | id in dependencies :: id < nextDependency
      modifies this`dependencies, this`nextDependency
      ensures old(nextDependency) <= nextDependency
      ensures forall id | id in dependencies :: id < nextDependency
      ensures created !! old(dependencies).Keys && dependencies.Keys == old(dependencies).Keys + created
      ensures forall id | id in old(dependencies) :: dependencies[id] == old(dependencies)[id]
      ensures forall id | id in created ::
        Missing(c, old(dependencies), dependencies[id]) && dependencies[id].addOn == n
      ensures forall p | p in c.needed[n] && p !in Names(old(dependencies), n) ::
        exists id | id in created :: dependencies[id] == Dependency(n, p, false)
      ensures forall i, j | i in created && j in created && dependencies[i] == dependencies[j] :: i == j
    {
      created := {};
      var todo := c.needed[n] - Names(dependencies, n);
      ghost var before, missing := dependencies, todo;
      while todo != {}
        invariant old(nextDependency) <= nextDependency && forall id | id in dependencies :: id < nextDependency
        invariant created !! before.Keys && dependencies.Keys == before.Keys + created && todo <= missing
        invariant forall id | id in before :: dependencies[id] == before[id]
        invariant forall id | id in created ::
          dependencies[id] == Dependency(n, dependencies[id].name, false) && dependencies[id].name in missing - todo
        invariant forall p | p in missing - todo ::
          exists id | id in created :: dependencies[id] == Dependency(n, p, false)
        invariant forall i, j | i in created && j in created && dependencies[i] == dependencies[j] :: i == j
        decreases todo
      {
        var p :| p in todo;
        dependencies := dependencies[nextDependency := Dependency(n, p, false)];
        created := created + {nextDependency};
        assert dependencies[nextDependency] == Dependency(n, p, false);
        nextDependency := nextDependency + 1;
        todo := todo - {p};
      }
      forall p | p in c.needed[n] && p !in Names(before, n)
        ensures exists id | id in created :: dependencies[id] == Dependency(n, p, false) {
        assert p in missing - todo;
      }
    }

    /** Adds the missing dependencies of every owner. */
    method AddDependencies(c: Config) returns (created: set<nat>)
      requires forall id | id in dependencies :: id < nextDependency
      modifies this`dependencies, this`nextDependency
      ensures old(nextDependency) <= nextDependency
      ensures forall id | id in dependencies :: id < nextDependency
      ensures Completed(c, old(dependencies), dependencies, created)
    {
      created := {};
      var todo := c.needed.Keys;
      ghost var before := dependencies;
      while todo != {}
        invariant todo <= c.needed.Keys
        invariant old(nextDependency) <= nextDependency && forall id | id in dependencies :: id < nextDependency
        invariant created !! before.Keys && dependencies.Keys == before.Keys + created
        invariant forall id | id in before :: dependencies[id] == before[id]
        invariant forall id | id in created :: Missing(c, before, dependencies[id]) && dependencies[id].addOn !in todo
        invariant forall x | Missing(c, before, x) && x.addOn !in todo ::
          exists id | id in created :: dependencies[id] == x
        invariant forall i, j | i in created && j in created && dependencies[i] == dependencies[j] :: i == j
        decreases todo
      {
        var n :| n in todo;
        SameNames(before, dependencies, n);
        ghost var now := dependencies;
        var added := AddNeeded(c, n);
        StillMissing(c, before, now, dependencies, added, n);
        created := created + added;
        todo := todo - {n};
      }
    }

    static lemma SameNames(before: map<nat, Dependency>, now: map<nat, Dependency>, n: AddOn)
      requires before.Keys <= now.Keys && (forall id | id in before :: now[id] == before[id])
      requires forall id | id in now && id !in before :: now[id].addOn != n
      ensures Names(now, n) == Names(before, n)
    {
      forall x | x in Names(before, n) ensures x in Names(now, n) {
        var id :| id in before && before[id].addOn == n && before[id].name == x;
        assert now[id] == before[id];
      }
    }

    static lemma StillMissing(c: Config, before: map<nat, Dependency>, now: map<nat, Dependency>,
                              grown: map<nat, Dependency>, added: set<nat>, n: AddOn)
      requires n in c.needed && Names(now, n) == Names(before, n)
      requires forall id | id in added :: id in grown && Missing(c, now, grown[id]) && grown[id].addOn == n
      requires forall p | p in c.needed[n] && p !in Names(now, n) ::
        exists id | id in added :: grown[id] == Dependency(n, p, false)
      ensures forall id | id in added :: Missing(c, before, grown[id])
      ensures forall x | Missing(c, before, x) && x.addOn == n :: exists id | id in added :: grown[id] == x
    {
      forall x | Missing(c, before, x) && x.addOn == n ensures exists id | id in added :: grown[id] == x {
        assert x == Dependency(n, x.name, false);
      }
    }

    /** Puts the tables back as they were. */
    method Restore(t: Tables)
      requires Valid() && WellKeyed(t.data) && (forall id | id in t.data :: id < nextData)
        && (forall id | id in t.dependencies :: id < nextDependency)
      modifies this`modules, this`data, this`constraints, this`relations, this`dependencies
      ensures Valid() && Contents() == t.(committed := old(committed), targets := old(targets))
    {
      modules, data, constraints, relations, dependencies :=
        t.modules, t.data, t.constraints, t.relations, t.dependencies;
    }

    /** The writes of a preparation. */
    method WritePreparation(c: Config) returns (r: Receipt)
      requires Valid() && ValidConfig(c) && Validated(c, Contents())
      modifies this
      ensures Valid() && PreparedFrom(c, old(Contents()), Contents(), r)
      ensures old(nextData) <= nextData && old(nextDependency) <= nextDependency
    {
      var before := Contents();
      var original := Snapshot(c, before);
      hide Snapshot, Adopted, Completed, ValidConfig, WellKeyed, MetadataReady, Renamed, Reassigned, Retired;
      assert MetadataReady(c, data);
      var aliases := AdoptIdentifiers(c);
      constraints := Reassigned(c, constraints);
      relations := Reassigned(c, relations);
      RenamedKeys(c, before);
      dependencies := Renamed(c, before);
      var added := AddDependencies(c);
      modules := Retired(c, modules);
      r := Receipt(original, Snapshot(c, Contents()), aliases, added);
    }

    static lemma RenamedKeys(c: Config, t: Tables)
      ensures Renamed(c, t).Keys == t.dependencies.Keys
    {}

    /** Validates everything before the first write, and undoes the writes if the closing check
     *  fails. */
    method Prepare(c: Config) returns (r: Option<Receipt>)
      requires Valid() && ValidConfig(c)
      modifies this
      ensures Valid()
      ensures r.Some? <==> Validated(c, old(Contents())) && !DependsOn(old(dependencies), c.consumer, c.renamed)
      ensures r.Some? ==> PreparedFrom(c, old(Contents()), Contents(), r.value) && AssertPrepared(c, Contents())
      ensures r.None? ==> Contents() == old(Contents())
    {
      var before := Contents();
      hide Validated, PreparedFrom, AssertPrepared, ValidConfig, DependsOn;
      if !Validated(c, before) { return None; }
      var receipt := WritePreparation(c);
      PreparedIff(c, before, Contents(), receipt);
      if !AssertPrepared(c, Contents()) {
        Unwritten(c, before, Contents(), receipt);
        Restore(before);
        return None;
      }
      r := Some(receipt);
    }

    static lemma Unwritten(c: Config, t: Tables, t': Tables, r: Receipt)
      requires PreparedFrom(c, t, t', r)
      ensures t'.committed == t.committed && t'.targets == t.targets
    {}

    /** Deletes the created identifiers and restores the recorded update flags. */
    method RestoreData(r: Receipt)
      requires Valid()
      modifies this`data
      ensures Valid()
      ensures data == RestoredData(old(data), r)
    {
      var recorded := r.original.metadata;
      data := data - r.aliases;
      ghost var before := data;
      var todo := recorded.Keys;
      while todo != {}
        invariant data.Keys == before.Keys && todo <= recorded.Keys
        invariant forall id | id in before ::
          data[id] == if id in recorded && id !in todo then before[id].(noupdate := recorded[id].noupdate)
            else before[id]
        decreases todo
      {
        var id :| id in todo;
        if id in data { data := data[id := data[id].(noupdate := recorded[id].noupdate)]; }
        todo := todo - {id};
      }
    }

    /** Gives recorded schema rows their recorded owner back. */
    static method RestoredSchema(table: map<nat, SchemaRow>, recorded: map<nat, SchemaRow>)
      returns (restored: map<nat, SchemaRow>)
      ensures restored == RestoredRows(table, recorded)
    {
      restored := table;
      var todo := recorded.Keys;
      while todo != {}
        invariant restored.Keys == table.Keys && todo <= recorded.Keys
        invariant forall id | id in table ::
          restored[id] == if id in recorded && id !in todo then table[id].(addOn := recorded[id].addOn) else table[id]
        decreases todo
      {
        var id :| id in todo;
        if id in restored && restored[id].addOn != recorded[id].addOn {
          restored := restored[id := restored[id].(addOn := recorded[id].addOn)];
        }
        todo := todo - {id};
      }
    }

    /** Deletes the added dependencies and rewrites the recorded ones. */
    method RestoreDependencies(r: Receipt)
      requires Valid()
      modifies this`dependencies
      ensures Valid()
      ensures dependencies == RestoredDependencies(old(dependencies), r)
    {
      var recorded := r.original.dependencies;
      dependencies := dependencies - r.added;
      ghost var before := dependencies;
      var todo := recorded.Keys;
      while todo != {}
        invariant dependencies.Keys == before.Keys && todo <= recorded.Keys
        invariant forall id | id in before ::
          dependencies[id] == if id in recorded && id !in todo then recorded[id] else before[id]
        decreases todo
      {
        var id :| id in todo;
        if id in dependencies { dependencies := dependencies[id := recorded[id]]; }
        todo := todo - {id};
      }
    }

    /** Gives the retired modules their recorded states back. */
    method RestoreModules(c: Config, r: Receipt)
      modifies this`modules
      ensures modules == RestoredModules(c, old(modules), r)
    {
      var recorded := r.original.modules;
      ghost var before := modules;
      var todo := recorded.Keys;
      while todo != {}
        invariant modules.Keys == before.Keys && todo <= recorded.Keys
        invariant forall n | n in before ::
          modules[n] == if (n in c.owners || c.suite == Some(n)) && n in recorded && n !in todo
                        then before[n].(state := recorded[n].state) else before[n]
        decreases todo
      {
        var n :| n in todo;
        if (n in c.owners || c.suite == Some(n)) && n in modules {
          modules := modules[n := modules[n].(state := recorded[n].state)];
        }
        todo := todo - {n};
      }
    }

    /** Restores the recorded metadata, or refuses and leaves every table alone. */
    method Inverse(c: Config, r: Receipt) returns (restored: bool)
      requires Valid()
      modifies this
      ensures Valid()
      ensures restored <==>
        InverseAllowed(c, old(Contents()), r) && Snapshot(c, Inverted(c, old(Contents()), r)) == r.original
      ensures Contents() == if restored then Inverted(c, old(Contents()), r) else old(Contents())
    {
      hide WellKeyed, Snapshot, RestoredRows, RestoredData, RestoredDependencies, RestoredModules, Settled;
      var before := Contents();
      if committed || !Settled(before) || Snapshot(c, before) != r.prepared { return false; }
      RestoreData(r);
      constraints := RestoredSchema(constraints, r.original.constraints);
      relations := RestoredSchema(relations, r.original.relations);
      RestoreDependencies(r);
      RestoreModules(c, r);
      assert Contents() == Inverted(c, before, r);
      if Snapshot(c, Contents()) != r.original {
        Restore(before);
        return false;
      }
      restored := true;
    }

    /** A prepared registry that nothing else changed always goes back to its original rows. */
    method PrepareThenInverse(c: Config) returns (prepared: bool)
      requires Valid() && ValidConfig(c)
      modifies this
      ensures Valid() && Contents() == old(Contents())
    {
      var before := Contents();
      var r := Prepare(c);
      if r.None? { return false; }
      InverseRestores(c, before, Contents(), r.value);
      var restored := Inverse(c, r.value);
      assert restored;
      prepared := true;
    }
  }
}
