/** A validated preparation meets its closing check unless the rename repeats a dependency, and
 *  its inverse restores every table exactly. */
module MigrationTheorems {
  import opened Common
  import opened Migration

  // ---------- Metadata ----------

  lemma OwnersSurvive(c: Config)
    requires ValidConfig(c)
    ensures forall l | l in c.owners :: c.owners[l] !in c.owners
    ensures c.renamed !in c.owners && c.renamed != c.consumed && c.consumer !in c.owners
  {}

  lemma AdoptedLegacy(c: Config, data: map<nat, XmlId>, data': map<nat, XmlId>, created: set<nat>)
    requires ValidConfig(c) && Adopted(c, data, data', created)
    ensures LegacyIds(c, data') == LegacyIds(c, data)
    ensures forall id | id in created :: !Legacy(c, data'[id])
  {
    OwnersSurvive(c);
    hide ValidConfig, WellKeyed, Canonicals;
    forall id | id in created ensures !Legacy(c, data'[id]) {
      var l :| AliasFor(c, data, l, data'[id]);
    }
    hide AliasFor, Unadopted;
    forall id ensures id in LegacyIds(c, data') <==> id in LegacyIds(c, data) {}
  }

  lemma IndexSeparates(c: Config, data: map<nat, XmlId>, x: XmlId)
    requires WellKeyed(data) && Legacy(c, x)
    ensures forall i, j | i in Canonicals(c, data, x) && j in Canonicals(c, data, x) :: i == j
  {}

  /** After adoption every retired identifier has exactly one successor row, with its target. */
  lemma AdoptedCanonical(c: Config, data: map<nat, XmlId>, data': map<nat, XmlId>, created: set<nat>, l: nat)
    requires ValidConfig(c) && Adopted(c, data, data', created) && WellKeyed(data)
    requires l in data && Legacy(c, data[l])
    requires MetadataReady(c, data)
    ensures CanonicalOk(c, data', data'[l]) && Canonicals(c, data', data'[l]) != map[]
  {
    assert WellKeyed(data');
    IndexSeparates(c, data', data'[l]);
    OwnersSurvive(c);
    hide ValidConfig, WellKeyed;
    var x, found := data[l], Canonicals(c, data', data'[l]);
    assert found == Canonicals(c, data', x);
    forall id | id in found ensures found[id].model == x.model && found[id].resId == x.resId {
      if id in data {
        assert !Legacy(c, data[id]) && id in Canonicals(c, data, x);
      } else {
        var m :| AliasFor(c, data, m, data'[id]);
        SameOwnerSameName(c, data, l, m);
      }
    }
    if Unadopted(c, data, l) {
      var id :| id in created && AliasFor(c, data, l, data'[id]);
      assert id in found;
    } else {
      var id :| id in Canonicals(c, data, x);
      assert !Legacy(c, data[id]);
      assert id in found;
    }
  }

  /** An unadopted identifier shares its successor's name with no other retired one. */
  lemma SameOwnerSameName(c: Config, data: map<nat, XmlId>, l: nat, m: nat)
    requires ValidConfig(c) && WellKeyed(data) && l in data && Legacy(c, data[l]) && Unadopted(c, data, m)
    requires c.owners[data[l].addOn] == c.owners[data[m].addOn] && data[l].name == data[m].name
    requires MetadataReady(c, data)
    ensures l == m
  {}

  lemma AdoptedRowsOk(c: Config, t: Tables, t': Tables, created: set<nat>)
    requires ValidConfig(c) && Adopted(c, t.data, t'.data, created) && RowsOk(c, t) && t'.targets == t.targets
    ensures RowsOk(c, t')
  {
    AdoptedLegacy(c, t.data, t'.data, created);
    forall id | id in t'.data && Legacy(c, t'.data[id]) ensures id in t.data && Legacy(c, t.data[id]) {
      assert id in LegacyIds(c, t'.data);
    }
    forall l, n | l in c.catalog && n in c.catalog[l]
      ensures exists id | id in t'.data :: Declares(t'.data[id], l, n, c.catalog[l][n])
    {
      var id :| id in t.data && Declares(t.data[id], l, n, c.catalog[l][n]);
      assert Declares(t'.data[id], l, n, c.catalog[l][n]);
    }
  }

  // ---------- Dependencies ----------

  lemma DependsIffNamed(d: map<nat, Dependency>, addOn: AddOn, name: AddOn)
    ensures DependsOn(d, addOn, name) <==> name in Names(d, addOn)
  {
    if name in Names(d, addOn) {
      var id :| id in d && d[id].addOn == addOn && d[id].name == name;
    }
  }

  lemma TranslatedNames(c: Config, names: set<AddOn>, x: AddOn)
    requires x in names && x !in c.translate
    ensures x in Translated(c, names)
  {}

  /** The rename touches one row: the consumer's dependency on the retired add-on. */
  lemma RenamedOne(c: Config, t: Tables) returns (k: nat)
    requires ConsumerReady(c, t)
    ensures Consumes(c, t, k) && t.dependencies[k].addOn == c.consumer && t.dependencies[k].name == c.consumed
    ensures Renamed(c, t) == t.dependencies[k := t.dependencies[k].(name := c.renamed)]
    ensures forall id | id in t.dependencies && id != k :: !Consumes(c, t, id)
  {
    k :| Consumes(c, t, k) && t.dependencies[k].addOn == c.consumer && t.dependencies[k].name == c.consumed;
  }

  lemma ConfigFacts(c: Config, n: AddOn)
    requires ValidConfig(c) && n in c.needed
    ensures c.translate.Keys == c.owners.Keys && c.consumer in c.needed && c.renamed in c.needed[c.consumer]
    ensures n !in c.owners.Keys && n in c.predecessorVersions.Keys
  {}

  lemma OwnerOrderly(c: Config, t: Tables, n: AddOn)
    requires OwnersReady(c, t) && n in c.needed
    ensures Orderly(t.dependencies, n)
  {}

  lemma OwnerFacts(c: Config, t: Tables, n: AddOn)
    requires OwnersReady(c, t) && ModulesReady(c, t) && n in c.needed && n in c.predecessorVersions
    ensures InState(t, n, Installed) && Translated(c, Names(t.dependencies, n)) <= c.needed[n]
  {
    hide Orderly, Translated, Names;
    assert InstalledAt(t, n, c.predecessorVersions[n]);
  }

  lemma RenamedNames(c: Config, t: Tables, n: AddOn)
    requires ValidConfig(c) && ConsumerReady(c, t) && OwnersReady(c, t) && ModulesReady(c, t) && n in c.needed
    ensures Names(Renamed(c, t), n) <= c.needed[n]
  {
    hide ConsumerReady, Renamed, Translated, ValidConfig, ModulesReady, OwnersReady;
    ConfigFacts(c, n);
    OwnerFacts(c, t, n);
    var k := RenamedOne(c, t);
    forall x | x in Names(Renamed(c, t), n) ensures x in c.needed[n] {
      var id :| id in t.dependencies && t.dependencies[id].addOn == n && Renamed(c, t)[id].name == x;
      if id != k {
        assert x in Names(t.dependencies, n) && !Consumes(c, t, id);
        assert x !in c.owners.Keys;
        TranslatedNames(c, Names(t.dependencies, n), x);
      }
    }
  }

  /** Renaming keeps the consumer's dependencies distinct exactly when the new name is new. */
  lemma RenamedOrderly(c: Config, t: Tables, n: AddOn)
    requires ValidConfig(c) && ConsumerReady(c, t) && OwnersReady(c, t) && n in c.needed
    ensures Orderly(Renamed(c, t), n) <==> n != c.consumer || !DependsOn(t.dependencies, c.consumer, c.renamed)
  {
    hide ValidConfig, OwnersReady, Orderly, DependsOn, Consumes, ConsumerReady, Renamed;
    ConfigFacts(c, n);
    OwnersSurvive(c);
    assert Orderly(t.dependencies, n) by { OwnerOrderly(c, t, n); }
    var k := RenamedOne(c, t);
    ConsumesKnown(c, t, k);
    OneRenamed(c, t.dependencies, Renamed(c, t), k, n);
  }

  lemma ConsumesKnown(c: Config, t: Tables, k: nat)
    requires Consumes(c, t, k)
    ensures k in t.dependencies
  {}

  lemma OneRenamed(c: Config, d: map<nat, Dependency>, d': map<nat, Dependency>, k: nat, n: AddOn)
    requires d'.Keys == d.Keys && k in d && d[k].addOn == c.consumer && d[k].name == c.consumed
      && c.renamed != c.consumed
    requires (forall id | id in d && id != k :: d'[id] == d[id]) && d'[k] == d[k].(name := c.renamed)
    requires Orderly(d, n)
    ensures Orderly(d', n) <==> n != c.consumer || !DependsOn(d, c.consumer, c.renamed)
  {
    if n == c.consumer && DependsOn(d, c.consumer, c.renamed) {
      var j :| j in d && d[j].addOn == c.consumer && d[j].name == c.renamed;
      assert j != k && d'[j] == d[j];
    }
  }

  lemma CompletedNames(c: Config, d: map<nat, Dependency>, d': map<nat, Dependency>, created: set<nat>, n: AddOn)
    requires Completed(c, d, d', created) && n in c.needed && Names(d, n) <= c.needed[n]
    ensures Names(d', n) == c.needed[n]
  {
    forall x | x in Names(d', n) ensures x in c.needed[n] {
      var id :| id in d' && d'[id].addOn == n && d'[id].name == x;
      if id in d { assert x in Names(d, n); } else { assert Missing(c, d, d'[id]); }
    }
    forall x | x in c.needed[n] ensures x in Names(d', n) {
      if x in Names(d, n) {
        var id :| id in d && d[id].addOn == n && d[id].name == x;
        assert d'[id].name == x;
      } else {
        assert Missing(c, d, Dependency(n, x, false));
        var id :| id in created && d'[id] == Dependency(n, x, false);
      }
    }
  }

  lemma CompletedOwner(c: Config, d: map<nat, Dependency>, d': map<nat, Dependency>, created: set<nat>, n: AddOn)
    requires Completed(c, d, d', created) && n in c.needed && Names(d, n) <= c.needed[n]
    ensures Names(d', n) == c.needed[n]
    ensures Orderly(d', n) <==> Orderly(d, n)
  {
    CompletedNames(c, d, d', created, n);
    if Orderly(d, n) {
      OrderlyStays(c, d, d', created, n);
    } else {
      OrderlyBefore(d, d', n);
    }
  }

  lemma OrderlyBefore(d: map<nat, Dependency>, d': map<nat, Dependency>, n: AddOn)
    requires forall id | id in d :: id in d' && d'[id] == d[id]
    ensures Orderly(d', n) ==> Orderly(d, n)
  {}

  lemma OrderlyStays(c: Config, d: map<nat, Dependency>, d': map<nat, Dependency>, created: set<nat>, n: AddOn)
    requires Completed(c, d, d', created) && Orderly(d, n)
    ensures Orderly(d', n)
  {
    forall i, j | i in d' && j in d' && d'[i].addOn == n && d'[j].addOn == n && d'[i].name == d'[j].name
      ensures i == j {
      if i in created { assert Missing(c, d, d'[i]); }
      if j in created { assert Missing(c, d, d'[j]); }
      if i in d { assert d'[i].name in Names(d, n); }
      if j in d { assert d'[j].name in Names(d, n); }
    }
    forall i | i in d' && d'[i].addOn == n ensures !d'[i].auto {
      if i in created { assert Missing(c, d, d'[i]); }
    }
  }

  lemma NobodyConsumes(c: Config, t: Tables, t': Tables, created: set<nat>)
    requires ValidConfig(c)
    requires Completed(c, Renamed(c, t), t'.dependencies, created) && t'.modules == Retired(c, t.modules) && Settled(t)
    ensures NoConsumer(c, t')
  {
    var d' := t'.dependencies;
    assert c.renamed !in c.owners;
    assert forall n | n in c.needed :: c.needed[n] !! c.owners.Keys;
    hide ValidConfig, Names;
    forall id | id in created ensures d'[id].name !in c.owners { assert Missing(c, Renamed(c, t), d'[id]); }
    hide Completed;
    forall id | id in d' && d'[id].name in c.owners
      ensures !InState(t', d'[id].addOn, Installed) && !InState(t', d'[id].addOn, ToUpgrade)
    {
      assert d'[id] == Renamed(c, t)[id] && !Consumes(c, t, id);
    }
  }

  // ---------- The closing check ----------

  lemma OwnersHold(c: Config, t: Tables, d': map<nat, Dependency>, created: set<nat>)
    requires ValidConfig(c) && ModulesReady(c, t) && ConsumerReady(c, t) && OwnersReady(c, t)
    requires Completed(c, Renamed(c, t), d', created)
    ensures OwnersComplete(c, d') <==> !DependsOn(t.dependencies, c.consumer, c.renamed)
  {
    forall n | n in c.needed
      ensures Names(d', n) == c.needed[n]
      ensures Orderly(d', n) <==> n != c.consumer || !DependsOn(t.dependencies, c.consumer, c.renamed)
    {
      hide ModulesReady, ConsumerReady, OwnersReady, Completed, Orderly, Names, DependsOn, Renamed;
      RenamedNames(c, t, n);
      RenamedOrderly(c, t, n);
      CompletedOwner(c, Renamed(c, t), d', created, n);
    }
    assert c.consumer in c.needed;
    hide ValidConfig, ModulesReady, ConsumerReady, OwnersReady, Completed, Orderly, Names, DependsOn;
  }

  lemma MetadataHolds(c: Config, data: map<nat, XmlId>, data': map<nat, XmlId>, created: set<nat>)
    requires ValidConfig(c) && MetadataReady(c, data) && WellKeyed(data) && Adopted(c, data, data', created)
    ensures MetadataAdopted(c, data')
  {
    AdoptedLegacy(c, data, data', created);
    hide CanonicalOk, Canonicals, ValidConfig, MetadataReady, WellKeyed;
    forall id | id in data' && Legacy(c, data'[id])
      ensures data'[id].noupdate && CanonicalOk(c, data', data'[id]) && Canonicals(c, data', data'[id]) != map[]
    {
      assert id in LegacyIds(c, data');
      AdoptedCanonical(c, data, data', created, id);
    }
  }

  lemma ModulesHold(c: Config, t: Tables, t': Tables)
    requires ValidConfig(c) && ModulesReady(c, t) && t'.modules == Retired(c, t.modules)
    ensures !(c.owners.Keys !! t'.modules.Keys) && ModulesRetired(c, t') && Settled(t')
  {
    assert c.consumed in c.owners.Keys && c.consumed in t'.modules.Keys;
    assert c.predecessorVersions.Keys == c.needed.Keys && c.owners.Keys !! c.needed.Keys
      && c.legacyVersions.Keys == c.owners.Keys;
    assert c.suite.Some? ==> c.suite.value !in c.needed.Keys;
    hide ValidConfig;
    forall n | n in c.predecessorVersions ensures n in t'.modules && t'.modules[n].version == c.predecessorVersions[n] {
      assert InstalledAt(t, n, c.predecessorVersions[n]);
    }
    forall n | n in c.legacyVersions ensures InState(t', n, Uninstallable)
      && t'.modules[n].version == c.legacyVersions[n] {
      assert InstalledAt(t, n, c.legacyVersions[n]);
      assert n in c.owners.Keys;
    }
  }

  lemma SchemaHolds(c: Config, table: map<nat, SchemaRow>)
    requires ValidConfig(c)
    ensures SchemaMoved(c, Reassigned(c, table))
  {}

  /** After a validated preparation the closing check passes if and only if the consumer did not
   *  already depend on the add-on its dependency is renamed to. */
  lemma PreparedIff(c: Config, t: Tables, t': Tables, r: Receipt)
    requires ValidConfig(c) && WellKeyed(t.data) && Validated(c, t) && PreparedFrom(c, t, t', r)
    ensures AssertPrepared(c, t') <==> !DependsOn(t.dependencies, c.consumer, c.renamed)
  {
    assert Settled(t);
    hide ValidConfig, WellKeyed, ModulesReady, RowsOk, MetadataReady, SchemaCataloged, ConsumerReady, OwnersReady,
      Adopted, Completed, Snapshot, Renamed, Reassigned, Retired, DependsOn, ModulesRetired, MetadataAdopted,
      SchemaMoved, NoConsumer, OwnersComplete, Settled;
    ModulesHold(c, t, t');
    AdoptedRowsOk(c, t, t', r.aliases);
    MetadataHolds(c, t.data, t'.data, r.aliases);
    SchemaHolds(c, t.constraints);
    SchemaHolds(c, t.relations);
    NobodyConsumes(c, t, t', r.added);
    OwnersHold(c, t, t'.dependencies, r.added);
  }

  lemma ExactHasNoRename(c: Config, t: Tables)
    requires ValidConfig(c) && OwnersReady(c, t) && c.exact
    ensures !DependsOn(t.dependencies, c.consumer, c.renamed)
  {
    assert c.consumer in c.needed && c.renamed != c.consumed;
    assert Names(t.dependencies, c.consumer) == Before(c, c.consumer);
    assert c.renamed !in Before(c, c.consumer);
    DependsIffNamed(t.dependencies, c.consumer, c.renamed);
  }

  /** Where the dependencies of the owners are checked exactly, the closing check always passes. */
  lemma ExactAlwaysPrepares(c: Config, t: Tables, t': Tables, r: Receipt)
    requires ValidConfig(c) && WellKeyed(t.data) && Validated(c, t) && PreparedFrom(c, t, t', r) && c.exact
    ensures AssertPrepared(c, t')
  {
    assert OwnersReady(c, t);
    hide ValidConfig, WellKeyed, OwnersReady, Validated, PreparedFrom, AssertPrepared;
    ExactHasNoRename(c, t);
    PreparedIff(c, t, t', r);
  }

  // ---------- The inverse ----------

  lemma SchemaRestored(c: Config, table: map<nat, SchemaRow>)
    ensures RestoredRows(Reassigned(c, table), InvolvedRows(c, table)) == table
  {}

  lemma DataRestored(c: Config, t: Tables, t': Tables, r: Receipt)
    requires Adopted(c, t.data, t'.data, r.aliases) && r.original == Snapshot(c, t)
    ensures Inverted(c, t', r).data == t.data
  {
    hide WellKeyed, Canonicals, RestoredRows, InvolvedRows, AliasFor, Unadopted;
    var recorded := r.original.metadata;
    assert recorded == map id | id in LegacyIds(c, t.data) :: t.data[id];
    forall id ensures id in recorded <==> id in t.data && Legacy(c, t.data[id]) {}
    hide Snapshot;
    DataBack(c, t.data, t'.data, r.aliases, recorded);
  }

  lemma DataBack(c: Config, data: map<nat, XmlId>, data': map<nat, XmlId>, created: set<nat>, recorded: map<nat, XmlId>)
    requires Adopted(c, data, data', created)
    requires forall id :: id in recorded <==> id in data && Legacy(c, data[id])
    requires forall id | id in recorded :: recorded[id] == data[id]
    ensures (map id | id in data' && id !in created ::
      if id in recorded then data'[id].(noupdate := recorded[id].noupdate) else data'[id]) == data
  {
    hide WellKeyed, AliasFor, Unadopted;
  }

  lemma DependenciesRestored(c: Config, t: Tables, t': Tables, r: Receipt)
    requires ValidConfig(c) && ConsumerReady(c, t) && Completed(c, Renamed(c, t), t'.dependencies, r.added)
      && r.original == Snapshot(c, t)
    ensures Inverted(c, t', r).dependencies == t.dependencies
  {
    hide RestoredRows, InvolvedRows, Missing, Canonicals, LegacyIds, Renamed, Completed, ValidConfig, ConsumerReady;
    var d, recorded := t.dependencies, r.original.dependencies;
    assert recorded == map id | id in d && d[id].addOn in c.versions :: d[id];
    hide Snapshot;
    RenamedRecorded(c, t, recorded);
    DependenciesBack(c, d, Renamed(c, t), t'.dependencies, r.added, recorded);
  }

  lemma RenamedRecorded(c: Config, t: Tables, recorded: map<nat, Dependency>)
    requires ValidConfig(c) && ConsumerReady(c, t)
    requires recorded == map id | id in t.dependencies && t.dependencies[id].addOn in c.versions :: t.dependencies[id]
    ensures Renamed(c, t).Keys == t.dependencies.Keys
    ensures forall id | id in t.dependencies && id !in recorded :: Renamed(c, t)[id] == t.dependencies[id]
  {
    ConfigFacts(c, c.consumer);
    assert c.consumer in c.versions;
    hide ValidConfig;
    var k := RenamedOne(c, t);
    ConsumesKnown(c, t, k);
    hide Renamed, ConsumerReady, Consumes;
  }

  lemma DependenciesBack(c: Config, d: map<nat, Dependency>, renamed: map<nat, Dependency>, d': map<nat, Dependency>,
                         created: set<nat>, recorded: map<nat, Dependency>)
    requires Completed(c, renamed, d', created) && renamed.Keys == d.Keys
    requires forall id | id in recorded :: id in d && recorded[id] == d[id]
    requires forall id | id in d && id !in recorded :: renamed[id] == d[id]
    ensures (map id | id in d' && id !in created :: if id in recorded then recorded[id] else d'[id]) == d
  {
    hide Missing;
  }

  lemma ModulesRestored(c: Config, t: Tables, t': Tables, r: Receipt)
    requires t'.modules == Retired(c, t.modules) && r.original.modules == t.modules
    ensures Inverted(c, t', r).modules == t.modules
  {}

  lemma SnapshotParts(c: Config, t: Tables)
    ensures Snapshot(c, t).constraints == InvolvedRows(c, t.constraints)
      && Snapshot(c, t).relations == InvolvedRows(c, t.relations)
    ensures Snapshot(c, t).modules == t.modules
  {}

  /** Applied to the receipt of a preparation without an intervening change, the inverse is
   *  allowed and restores every row of every table, so its own final comparison holds. */
  lemma InverseRestores(c: Config, t: Tables, t': Tables, r: Receipt)
    requires ValidConfig(c) && Validated(c, t) && PreparedFrom(c, t, t', r)
    ensures InverseAllowed(c, t', r)
    ensures Inverted(c, t', r) == t
    ensures Snapshot(c, Inverted(c, t', r)) == r.original
  {
    assert !t.committed;
    hide ValidConfig, ModulesReady, RowsOk, MetadataReady, SchemaCataloged, ConsumerReady, OwnersReady, Adopted,
      Completed, Snapshot, Renamed, Reassigned, Retired, RestoredRows, InvolvedRows, Settled;
    ModulesHold(c, t, t');
    SnapshotParts(c, t);
    DataRestored(c, t, t', r);
    SchemaRestored(c, t.constraints);
    SchemaRestored(c, t.relations);
    DependenciesRestored(c, t, t', r);
    ModulesRestored(c, t, t', r);
  }
}
