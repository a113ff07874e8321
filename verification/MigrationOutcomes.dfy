/** What a migration checks, writes, and takes back, row by row. */
module MigrationOutcomes {
  import opened Common
  import opened Migration
  import opened MigrationTheorems
  import opened MigrationPlans

  // ---------- What must hold before a preparation ----------

  /** No module waits for an installation, an upgrade or a removal. */
  predicate NothingPending(t: Tables) {
    forall n | n in t.modules ::
      t.modules[n].state != ToInstall && t.modules[n].state != ToUpgrade && t.modules[n].state != ToRemove
  }

  predicate ModuleStates(c: Config, t: Tables) {
    && !t.committed && NothingPending(t)
    && (forall n | n in c.legacyVersions :: n in t.modules && t.modules[n] == Module(Installed, c.legacyVersions[n]))
    && (forall n | n in c.predecessorVersions ::
          n in t.modules && t.modules[n] == Module(Installed, c.predecessorVersions[n]))
    && (forall n | c.suite == Some(n) && n in t.modules :: t.modules[n].state == Uninstalled)
  }

  /** Successor rows under the name of a retired identifier. */
  predicate Succeeds(c: Config, x: XmlId, y: XmlId) {
    x.addOn in c.owners && y.addOn == c.owners[x.addOn] && y.name == x.name
  }

  /** Every retired identifier is one of the catalog and its target exists; every cataloged one exists. */
  predicate Identifiers(c: Config, t: Tables) {
    && (forall l | l in t.data && t.data[l].addOn in c.owners ::
          var x := t.data[l];
          && x.addOn in c.catalog && x.name in c.catalog[x.addOn] && x.model == c.catalog[x.addOn][x.name]
          && x.model in t.targets && x.resId in t.targets[x.model])
    && (forall a, n | a in c.catalog && n in c.catalog[a] ::
          exists l | l in t.data :: t.data[l].addOn == a && t.data[l].name == n && t.data[l].model == c.catalog[a][n])
  }

  predicate Succeeded(c: Config, data: map<nat, XmlId>, x: XmlId) {
    exists i | i in data :: Succeeds(c, x, data[i])
  }

  /** At most one successor row holds the identifier's name, for the same target; where the add-on
   *  was merged earlier there is one. */
  predicate OneSuccessor(c: Config, data: map<nat, XmlId>, x: XmlId) {
    && (forall i | i in data && Succeeds(c, x, data[i]) :: data[i].model == x.model && data[i].resId == x.resId)
    && (forall i, j | i in data && j in data && Succeeds(c, x, data[i]) && Succeeds(c, x, data[j]) :: i == j)
    && (x.addOn in c.adopted ==> Succeeded(c, data, x))
  }

  /** A retired add-on's dependents among the installed ones that stay. */
  predicate Dependent(c: Config, t: Tables, id: nat) {
    && id in t.dependencies && t.dependencies[id].name in c.owners && t.dependencies[id].addOn !in c.owners
    && t.dependencies[id].addOn in t.modules && t.modules[t.dependencies[id].addOn].state == Installed
  }

  /** Exactly one row, of the expected add-on for the expected one. */
  predicate OneDependent(c: Config, t: Tables) {
    exists id | id in t.dependencies ::
      && Dependent(c, t, id) && t.dependencies[id].addOn == c.consumer && t.dependencies[id].name == c.consumed
      && forall j | j in t.dependencies && j != id :: !Dependent(c, t, j)
  }

  /** The successor depends on nothing twice, forces nothing, and needs nothing that is not expected
   *  of it and installed. */
  predicate Successor(c: Config, t: Tables, n: AddOn)
    requires n in c.needed
  {
    && (forall p | p in c.needed[n] :: p in t.modules && t.modules[p].state == Installed)
    && Unforced(t.dependencies, n) && Expected(c, t.dependencies, n)
  }

  predicate Unforced(d: map<nat, Dependency>, n: AddOn) {
    forall i | i in d && d[i].addOn == n ::
      !d[i].auto && forall j | j in d && j != i && d[j].addOn == n :: d[j].name != d[i].name
  }

  predicate Expected(c: Config, d: map<nat, Dependency>, n: AddOn)
    requires n in c.needed
  {
    forall i | i in d && d[i].addOn == n ::
      (if d[i].name in c.translate then c.translate[d[i].name] else d[i].name) in c.needed[n]
  }

  predicate Needs(d: map<nat, Dependency>, n: AddOn, p: AddOn) {
    exists i | i in d :: d[i].addOn == n && d[i].name == p
  }

  /** The successor depends on all it needs, with the retired add-on in the place of the one it is
   *  renamed to, and on nothing else. */
  ghost predicate Exact(c: Config, t: Tables, n: AddOn)
    requires n in c.needed
  {
    forall p :: Needs(t.dependencies, n, p)
      <==> if p == c.consumed then c.renamed in c.needed[n] else p in c.needed[n] && p != c.renamed
  }

  function Occurrences(table: map<nat, SchemaRow>, addOn: AddOn, name: string): nat {
    |set id | id in table && table[id].addOn == addOn && table[id].name == name|
  }

  /** A schema row's name occurs as often as the catalog says and not at the successor. */
  ghost predicate SchemaAsCataloged(c: Config, table: map<nat, SchemaRow>, catalog: map<AddOn, map<string, nat>>) {
    && (forall l, name: string | l in c.owners ::
          Occurrences(table, l, name) == if l in catalog && name in catalog[l] then catalog[l][name] else 0)
    && (forall i, j | i in table && j in table && table[i].addOn in c.owners && table[j].name == table[i].name ::
          table[j].addOn != c.owners[table[i].addOn])
  }

  ghost predicate Migratable(c: Config, t: Tables) {
    && ModuleStates(c, t) && Identifiers(c, t)
    && (forall l | l in t.data && t.data[l].addOn in c.owners :: OneSuccessor(c, t.data, t.data[l]))
    && SchemaAsCataloged(c, t.constraints, c.constraintCatalog) && SchemaAsCataloged(c, t.relations, c.relationCatalog)
    && OneDependent(c, t) && forall n | n in c.needed :: Successor(c, t, n) && (c.exact ==> Exact(c, t, n))
  }

  lemma ModulesChecked(c: Config, t: Tables)
    ensures ModulesReady(c, t) <==> ModuleStates(c, t)
  {}

  lemma SuccessorIsCanonical(c: Config, data: map<nat, XmlId>, x: XmlId, i: nat)
    requires Legacy(c, x) && i in data
    ensures i in Canonicals(c, data, x) <==> Succeeds(c, x, data[i])
    ensures i in Canonicals(c, data, x) ==> Canonicals(c, data, x)[i] == data[i]
  {}

  lemma RowChecked(c: Config, data: map<nat, XmlId>, l: nat)
    requires l in data && Legacy(c, data[l])
    ensures CanonicalOk(c, data, data[l]) && (data[l].addOn in c.adopted ==> Canonicals(c, data, data[l]) != map[])
      <==> OneSuccessor(c, data, data[l])
    ensures Canonicals(c, data, data[l]) != map[] <==> Succeeded(c, data, data[l])
  {
    var found := Canonicals(c, data, data[l]);
    forall i ensures i in found <==> i in data && Succeeds(c, data[l], data[i]) {}
    assert forall i | i in found :: found[i] == data[i];
    if Succeeded(c, data, data[l]) {
      var i :| i in data && Succeeds(c, data[l], data[i]);
      assert i in found;
    }
    hide Canonicals, Succeeds;
    if found != map[] { var i :| i in found; }
  }

  lemma CatalogChecked(c: Config, t: Tables)
    ensures RowsOk(c, t) <==> Identifiers(c, t)
  {
    forall a, n | a in c.catalog && n in c.catalog[a]
      ensures (exists l | l in t.data :: Declares(t.data[l], a, n, c.catalog[a][n]))
        <==> exists l | l in t.data ::
          t.data[l].addOn == a && t.data[l].name == n && t.data[l].model == c.catalog[a][n] {}
    hide Declares;
  }

  lemma IdentifiersChecked(c: Config, t: Tables)
    ensures MetadataReady(c, t.data)
      <==> forall l | l in t.data && t.data[l].addOn in c.owners :: OneSuccessor(c, t.data, t.data[l])
  {
    forall l | l in t.data && Legacy(c, t.data[l])
      ensures CanonicalOk(c, t.data, t.data[l]) && (t.data[l].addOn in c.adopted ==>
        Canonicals(c, t.data, t.data[l]) != map[])
        <==> OneSuccessor(c, t.data, t.data[l])
    {
      RowChecked(c, t.data, l);
    }
    hide Canonicals, CanonicalOk, OneSuccessor;
  }

  lemma OwnedIs(table: map<nat, SchemaRow>, l: AddOn, name: string)
    ensures Owned(table, l, name) == Occurrences(table, l, name)
  {
    assert (set id | id in table && table[id] == SchemaRow(name, l))
      == set id | id in table && table[id].addOn == l && table[id].name == name;
  }

  lemma SchemaChecked(c: Config, table: map<nat, SchemaRow>, catalog: map<AddOn, map<string, nat>>)
    ensures SchemaCataloged(c, table, catalog) <==> SchemaAsCataloged(c, table, catalog)
  {
    if SchemaAsCataloged(c, table, catalog) {
      forall id | id in table && table[id].addOn in c.owners
        ensures Owned(table, table[id].addOn, table[id].name) == Counted(catalog, table[id].addOn, table[id].name)
      {
        OwnedIs(table, table[id].addOn, table[id].name);
      }
      forall l, n | l in catalog && n in catalog[l] && l in c.owners ensures Owned(table, l, n) == catalog[l][n] {
        OwnedIs(table, l, n);
      }
    }
    if SchemaCataloged(c, table, catalog) {
      forall l, name: string | l in c.owners
        ensures Occurrences(table, l, name) == if l in catalog && name in catalog[l] then catalog[l][name] else 0
      {
        OwnedIs(table, l, name);
        if !exists id :: id in table && table[id].addOn == l && table[id].name == name {
          assert (set id | id in table && table[id].addOn == l && table[id].name == name) == {};
        }
      }
    }
  }

  lemma DependentIsConsumer(c: Config, t: Tables)
    ensures ConsumerReady(c, t) <==> OneDependent(c, t)
  {
    forall id ensures Consumes(c, t, id) <==> Dependent(c, t, id) {}
    hide Consumes, Dependent;
    if ConsumerReady(c, t) {
      var id :| id in t.dependencies && Consumes(c, t, id) && t.dependencies[id].addOn == c.consumer
        && t.dependencies[id].name == c.consumed;
      assert Dependent(c, t, id);
    }
    if OneDependent(c, t) {
      var id :| id in t.dependencies && Dependent(c, t, id) && t.dependencies[id].addOn == c.consumer
        && t.dependencies[id].name == c.consumed && forall j | j in t.dependencies && j != id :: !Dependent(c, t, j);
      assert Consumes(c, t, id);
    }
  }

  lemma NamedIff(d: map<nat, Dependency>, n: AddOn, p: AddOn)
    ensures p in Names(d, n) <==> Needs(d, n, p)
  {}

  lemma TranslatedWithin(c: Config, names: set<AddOn>, needed: set<AddOn>)
    ensures Translated(c, names) <= needed
      <==> forall p | p in names :: (if p in c.translate then c.translate[p] else p) in needed
  {
    if Translated(c, names) <= needed {
      forall p | p in names ensures (if p in c.translate then c.translate[p] else p) in needed {
        assert (if p in c.translate then c.translate[p] else p) in Translated(c, names);
      }
    }
  }

  lemma OrderlyIs(d: map<nat, Dependency>, n: AddOn)
    ensures Orderly(d, n) <==> Unforced(d, n)
  {}

  lemma TranslatedIs(c: Config, d: map<nat, Dependency>, n: AddOn)
    requires n in c.needed
    ensures Translated(c, Names(d, n)) <= c.needed[n] <==> Expected(c, d, n)
  {
    TranslatedWithin(c, Names(d, n), c.needed[n]);
    hide Translated;
    if Expected(c, d, n) {
      forall p | p in Names(d, n) ensures (if p in c.translate then c.translate[p] else p) in c.needed[n] {
        var i :| i in d && d[i].addOn == n && d[i].name == p;
      }
    }
    if forall p | p in Names(d, n) :: (if p in c.translate then c.translate[p] else p) in c.needed[n] {
      forall i | i in d && d[i].addOn == n
        ensures (if d[i].name in c.translate then c.translate[d[i].name] else d[i].name) in c.needed[n]
      {
        assert d[i].name in Names(d, n);
      }
    }
  }

  lemma SuccessorChecked(c: Config, t: Tables, n: AddOn)
    requires n in c.needed
    ensures Successor(c, t, n) <==>
      && Orderly(t.dependencies, n) && Translated(c, Names(t.dependencies, n)) <= c.needed[n]
      && forall p | p in c.needed[n] :: InState(t, p, Installed)
  {
    OrderlyIs(t.dependencies, n);
    TranslatedIs(c, t.dependencies, n);
    hide Translated, Orderly, Names, Unforced, Expected;
  }

  lemma ExactChecked(c: Config, t: Tables, n: AddOn)
    requires n in c.needed && c.consumed != c.renamed && c.consumed !in c.needed[n]
    ensures Names(t.dependencies, n) == Before(c, n) <==> Exact(c, t, n)
  {
    var names, before := Names(t.dependencies, n), Before(c, n);
    forall p: AddOn
      ensures p in before <==> if p == c.consumed then c.renamed in c.needed[n] else p in c.needed[n] && p != c.renamed
      ensures p in names <==> Needs(t.dependencies, n, p)
    {
      if c.renamed in c.needed[n] { assert c.consumed in before; }
      NamedIff(t.dependencies, n, p);
    }
    hide Names, Before, Needs;
    if Exact(c, t, n) { assert names == before; }
  }

  lemma OwnerChecked(c: Config, t: Tables, n: AddOn)
    requires n in c.needed && c.consumed != c.renamed && c.consumed !in c.needed[n]
    ensures Successor(c, t, n) && (c.exact ==> Exact(c, t, n)) <==>
      && Orderly(t.dependencies, n) && Translated(c, Names(t.dependencies, n)) <= c.needed[n]
      && (c.exact ==> Names(t.dependencies, n) == Before(c, n))
      && forall p | p in c.needed[n] :: InState(t, p, Installed)
  {
    SuccessorChecked(c, t, n);
    ExactChecked(c, t, n);
    hide Orderly, Names, Translated, InState, Before, Exact, Successor;
  }

  lemma SuccessorsChecked(c: Config, t: Tables)
    requires ValidConfig(c)
    ensures OwnersReady(c, t) <==> forall n | n in c.needed :: Successor(c, t, n) && (c.exact ==> Exact(c, t, n))
  {
    hide ValidConfig, Orderly, Names, Translated, InState, Before, Exact, Successor;
    forall n | n in c.needed
      ensures Successor(c, t, n) && (c.exact ==> Exact(c, t, n)) <==>
        && Orderly(t.dependencies, n) && Translated(c, Names(t.dependencies, n)) <= c.needed[n]
        && (c.exact ==> Names(t.dependencies, n) == Before(c, n))
        && forall p | p in c.needed[n] :: InState(t, p, Installed)
    {
      ConsumedUnneeded(c, n);
      OwnerChecked(c, t, n);
    }
  }

  lemma ConsumedUnneeded(c: Config, n: AddOn)
    requires ValidConfig(c) && n in c.needed
    ensures c.consumed != c.renamed && c.consumed !in c.needed[n]
  {
    OwnersSurvive(c);
    assert c.needed[n] !! c.owners.Keys && c.consumed in c.owners.Keys;
  }

  /** A preparation starts exactly on tables that satisfy all of these. */
  lemma ChecksOutcome(c: Config, t: Tables)
    requires ValidConfig(c)
    ensures Validated(c, t) <==> Migratable(c, t)
  {
    hide ValidConfig, ModulesReady, RowsOk, MetadataReady, SchemaCataloged, ConsumerReady, OwnersReady, ModuleStates,
      Identifiers, OneSuccessor, SchemaAsCataloged, OneDependent, Successor, Exact;
    ModulesChecked(c, t);
    CatalogChecked(c, t);
    IdentifiersChecked(c, t);
    SchemaChecked(c, t.constraints, c.constraintCatalog);
    SchemaChecked(c, t.relations, c.relationCatalog);
    DependentIsConsumer(c, t);
    SuccessorsChecked(c, t);
  }

  // ---------- What a preparation writes ----------

  predicate Freezes(c: Config, t: Tables, t': Tables) {
    forall l | l in t.data :: l in t'.data && var x := t.data[l];
      t'.data[l] == if x.addOn in c.owners then XmlId(x.addOn, x.name, x.model, x.resId, true) else x
  }

  predicate CopyOfRetired(c: Config, data: map<nat, XmlId>, y: XmlId) {
    exists l | l in data && data[l].addOn in c.owners ::
      var x := data[l];
      y == XmlId(c.owners[x.addOn], x.name, x.model, x.resId, x.noupdate) && !Succeeded(c, data, x)
  }

  /** New identifiers copy the retired ones that had no successor, under their owner's name. */
  ghost predicate Copies(c: Config, t: Tables, t': Tables, aliases: set<nat>) {
    && (forall i | i in t'.data :: i in t.data <==> i !in aliases)
    && (forall i | i in aliases :: i in t'.data && CopyOfRetired(c, t.data, t'.data[i]))
    && (forall l | l in t.data && t.data[l].addOn in c.owners :: Succeeded(c, t'.data, t.data[l]))
  }

  predicate MovesSchema(c: Config, before: map<nat, SchemaRow>, after: map<nat, SchemaRow>) {
    && after.Keys == before.Keys
    && forall id | id in before ::
         && after[id].name == before[id].name
         && after[id].addOn == if before[id].addOn in c.owners then c.owners[before[id].addOn] else before[id].addOn
  }

  /** One dependency is renamed; those a successor lacks are added, each once. */
  predicate MovesDependencies(c: Config, t: Tables, t': Tables, added: set<nat>) {
    && (forall id | id in t'.dependencies :: id in t.dependencies <==> id !in added)
    && (forall id | id in t.dependencies :: id in t'.dependencies && var x := t.dependencies[id];
          t'.dependencies[id] == if Dependent(c, t, id) then Dependency(x.addOn, c.renamed, x.auto) else x)
    && (forall id | id in added :: id in t'.dependencies && var x := t'.dependencies[id];
          && x.addOn in c.needed && x.name in c.needed[x.addOn] && !x.auto
          && forall j | j in t'.dependencies && j != id ::
            t'.dependencies[j].addOn != x.addOn || t'.dependencies[j].name != x.name)
    && (forall n, p | n in c.needed && p in c.needed[n] ::
          Needs(t'.dependencies, n, p))
  }

  predicate RetiresModules(c: Config, t: Tables, t': Tables) {
    && t'.modules.Keys == t.modules.Keys
    && forall n | n in t.modules ::
         t'.modules[n] == if n in c.owners || c.suite == Some(n) then Module(Uninstallable, t.modules[n].version)
                          else t.modules[n]
  }

  lemma NoSuccessor(c: Config, data: map<nat, XmlId>, l: nat)
    requires l in data && Legacy(c, data[l])
    ensures Unadopted(c, data, l) <==> !Succeeded(c, data, data[l])
  {
    RowChecked(c, data, l);
    hide Canonicals, Succeeded;
  }

  lemma FreezesWritten(c: Config, t: Tables, t': Tables, r: Receipt)
    requires PreparedFrom(c, t, t', r)
    ensures Freezes(c, t, t')
  {
    hide WellKeyed, AliasFor, Unadopted, Snapshot;
  }

  lemma CopyWritten(c: Config, t: Tables, t': Tables, aliases: set<nat>, i: nat)
    requires Adopted(c, t.data, t'.data, aliases) && i in aliases
    ensures i in t'.data && CopyOfRetired(c, t.data, t'.data[i])
  {
    hide WellKeyed, Canonicals;
    var l :| AliasFor(c, t.data, l, t'.data[i]);
    NoSuccessor(c, t.data, l);
    hide Succeeded, Adopted;
    assert l in t.data && t.data[l].addOn in c.owners;
  }

  lemma AllSucceeded(c: Config, t: Tables, t': Tables, aliases: set<nat>, l: nat)
    requires ValidConfig(c) && Adopted(c, t.data, t'.data, aliases) && l in t.data && t.data[l].addOn in c.owners
    ensures Succeeded(c, t'.data, t.data[l])
  {
    OwnersSurvive(c);
    NoSuccessor(c, t.data, l);
    hide ValidConfig, WellKeyed, Canonicals;
    if Unadopted(c, t.data, l) {
      var i :| i in aliases && AliasFor(c, t.data, l, t'.data[i]);
      assert Succeeds(c, t.data[l], t'.data[i]);
    } else {
      hide Unadopted, AliasFor;
      var i :| i in t.data && Succeeds(c, t.data[l], t.data[i]);
      assert !Legacy(c, t.data[i]) && t'.data[i] == t.data[i];
    }
  }

  lemma CopiesWritten(c: Config, t: Tables, t': Tables, r: Receipt)
    requires ValidConfig(c) && PreparedFrom(c, t, t', r)
    ensures Copies(c, t, t', r.aliases)
  {
    hide ValidConfig, Succeeds, Succeeded, CopyOfRetired, AliasFor, Unadopted, WellKeyed, Legacy, Snapshot, Renamed;
    forall i | i in r.aliases ensures i in t'.data && CopyOfRetired(c, t.data, t'.data[i]) {
      CopyWritten(c, t, t', r.aliases, i);
    }
    forall l | l in t.data && t.data[l].addOn in c.owners ensures Succeeded(c, t'.data, t.data[l]) {
      AllSucceeded(c, t, t', r.aliases, l);
    }
  }

  lemma DependenciesWritten(c: Config, t: Tables, t': Tables, r: Receipt)
    requires PreparedFrom(c, t, t', r)
    ensures MovesDependencies(c, t, t', r.added)
  {
    var renamed := Renamed(c, t);
    assert Completed(c, renamed, t'.dependencies, r.added);
    forall id ensures Consumes(c, t, id) <==> Dependent(c, t, id) {}
    forall id | id in t.dependencies ensures renamed[id] ==
      if Dependent(c, t, id) then t.dependencies[id].(name := c.renamed) else t.dependencies[id] {}
    assert renamed.Keys == t.dependencies.Keys;
    hide PreparedFrom, Renamed, Consumes, Dependent;
    AddedOnce(c, renamed, t'.dependencies, r.added);
  }

  lemma AddedOnce(c: Config, d: map<nat, Dependency>, d': map<nat, Dependency>, added: set<nat>)
    requires Completed(c, d, d', added)
    ensures forall id | id in added :: id in d' && var x := d'[id];
      && x.addOn in c.needed && x.name in c.needed[x.addOn] && !x.auto
      && forall j | j in d' && j != id :: d'[j].addOn != x.addOn || d'[j].name != x.name
    ensures forall n, p | n in c.needed && p in c.needed[n] :: Needs(d', n, p)
  {
    forall id, j | id in added && j in d' && j != id
      ensures d'[j].addOn != d'[id].addOn || d'[j].name != d'[id].name
    {
      assert Missing(c, d, d'[id]);
      if j in added { assert Missing(c, d, d'[j]); } else { NamedIff(d, d'[id].addOn, d'[id].name); }
    }
    forall n, p | n in c.needed && p in c.needed[n] ensures Needs(d', n, p) {
      NamedIff(d, n, p);
      if p in Names(d, n) {
        var id :| id in d && d[id].addOn == n && d[id].name == p;
        assert d'[id].name == p;
      } else {
        assert Missing(c, d, Dependency(n, p, false));
        var id :| id in added && d'[id] == Dependency(n, p, false);
      }
    }
  }

  /** What a preparation writes, and that it writes nothing else. */
  lemma WritesOutcome(c: Config, t: Tables, t': Tables, r: Receipt)
    requires ValidConfig(c) && PreparedFrom(c, t, t', r)
    ensures Copies(c, t, t', r.aliases) && Freezes(c, t, t')
    ensures MovesSchema(c, t.constraints, t'.constraints) && MovesSchema(c, t.relations, t'.relations)
    ensures MovesDependencies(c, t, t', r.added) && RetiresModules(c, t, t')
    ensures t'.committed == t.committed && t'.targets == t.targets
    ensures Records(c, t, r.original) && Records(c, t', r.prepared)
  {
    hide ValidConfig, PreparedFrom, Copies, Freezes, MovesDependencies, Records, MovesSchema, RetiresModules;
    CopiesWritten(c, t, t', r);
    FreezesWritten(c, t, t', r);
    DependenciesWritten(c, t, t', r);
    OthersWritten(c, t, t', r);
    SnapshotRecords(c, t);
    SnapshotRecords(c, t');
  }

  lemma OthersWritten(c: Config, t: Tables, t': Tables, r: Receipt)
    requires PreparedFrom(c, t, t', r)
    ensures MovesSchema(c, t.constraints, t'.constraints) && MovesSchema(c, t.relations, t'.relations)
    ensures RetiresModules(c, t, t') && t'.committed == t.committed && t'.targets == t.targets
    ensures r.original == Snapshot(c, t) && r.prepared == Snapshot(c, t')
  {
    hide Adopted, Completed, Snapshot, Renamed;
  }

  // ---------- Receipts and the inverse ----------

  predicate Kept(c: Config, addOn: AddOn) {
    addOn in c.owners || addOn in c.versions || c.suite == Some(addOn)
  }

  predicate RecordsSchema(c: Config, table: map<nat, SchemaRow>, recorded: map<nat, SchemaRow>) {
    && (forall id | id in table && Kept(c, table[id].addOn) :: id in recorded && recorded[id] == table[id])
    && (forall id | id in recorded :: id in table && Kept(c, table[id].addOn))
  }

  predicate RecordsIdentifiers(c: Config, data: map<nat, XmlId>, recorded: map<nat, XmlId>) {
    && (forall l | l in data && data[l].addOn in c.owners :: l in recorded && recorded[l] == data[l])
    && (forall l | l in recorded :: l in data && data[l].addOn in c.owners)
  }

  predicate RecordsSuccessors(c: Config, data: map<nat, XmlId>, recorded: map<nat, map<nat, XmlId>>) {
    && (forall l | l in data && data[l].addOn in c.owners :: l in recorded)
    && (forall l | l in recorded :: l in data && data[l].addOn in c.owners)
    && (forall l, i | l in recorded && l in data && i in data && Succeeds(c, data[l], data[i]) ::
          i in recorded[l] && recorded[l][i] == data[i])
    && (forall l, i | l in recorded && l in data && i in recorded[l] :: i in data && Succeeds(c, data[l], data[i]))
  }

  predicate RecordsDependencies(c: Config, d: map<nat, Dependency>, recorded: map<nat, Dependency>) {
    && (forall id | id in d && d[id].addOn in c.versions :: id in recorded && recorded[id] == d[id])
    && (forall id | id in recorded :: id in d && d[id].addOn in c.versions)
  }

  /** A receipt records every module, the retired identifiers with their successors, the schema rows
   *  of all add-ons involved, and the dependencies of the successors. */
  predicate Records(c: Config, t: Tables, p: Projection) {
    && p.modules == t.modules
    && RecordsIdentifiers(c, t.data, p.metadata) && RecordsSuccessors(c, t.data, p.canonical)
    && RecordsSchema(c, t.constraints, p.constraints) && RecordsSchema(c, t.relations, p.relations)
    && RecordsDependencies(c, t.dependencies, p.dependencies)
  }

  lemma SuccessorsRecorded(c: Config, data: map<nat, XmlId>)
    ensures RecordsSuccessors(c, data, map l | l in LegacyIds(c, data) :: Canonicals(c, data, data[l]))
  {
    var recorded := map l | l in LegacyIds(c, data) :: Canonicals(c, data, data[l]);
    forall l, i | l in recorded
      ensures i in recorded[l] <==> i in data && Succeeds(c, data[l], data[i])
      ensures i in recorded[l] ==> recorded[l][i] == data[i]
    {
      if i in data { SuccessorIsCanonical(c, data, data[l], i); }
    }
    hide Canonicals, Succeeds;
  }

  lemma SchemaRecorded(c: Config, table: map<nat, SchemaRow>)
    ensures RecordsSchema(c, table, InvolvedRows(c, table))
  {}

  lemma SnapshotRecords(c: Config, t: Tables)
    ensures Records(c, t, Snapshot(c, t))
  {
    SuccessorsRecorded(c, t.data);
    SchemaRecorded(c, t.constraints);
    SchemaRecorded(c, t.relations);
    hide RecordsSuccessors, RecordsSchema, InvolvedRows, Canonicals;
  }

  lemma SuccessorsOf(c: Config, data: map<nat, XmlId>, p: map<nat, map<nat, XmlId>>, l: nat)
    requires RecordsSuccessors(c, data, p) && l in p
    ensures l in data && p[l] == map i | i in data && Succeeds(c, data[l], data[i]) :: data[i]
  {
    hide Succeeds;
  }

  lemma SuccessorsOnce(c: Config, data: map<nat, XmlId>, p: map<nat, map<nat, XmlId>>, q: map<nat, map<nat, XmlId>>)
    requires RecordsSuccessors(c, data, p) && RecordsSuccessors(c, data, q)
    ensures p == q
  {
    assert p.Keys == q.Keys;
    forall l | l in p ensures p[l] == q[l] { SuccessorsOf(c, data, p, l); SuccessorsOf(c, data, q, l); }
  }

  lemma SchemaOnce(c: Config, table: map<nat, SchemaRow>, p: map<nat, SchemaRow>, q: map<nat, SchemaRow>)
    requires RecordsSchema(c, table, p) && RecordsSchema(c, table, q)
    ensures p == q
  {
    hide Kept;
  }

  lemma IdentifiersOnce(c: Config, data: map<nat, XmlId>, p: map<nat, XmlId>, q: map<nat, XmlId>)
    requires RecordsIdentifiers(c, data, p) && RecordsIdentifiers(c, data, q)
    ensures p == q
  {}

  lemma DependenciesOnce(c: Config, d: map<nat, Dependency>, p: map<nat, Dependency>, q: map<nat, Dependency>)
    requires RecordsDependencies(c, d, p) && RecordsDependencies(c, d, q)
    ensures p == q
  {}

  /** Two records of the same tables are equal. */
  lemma RecordsOnce(c: Config, t: Tables, p: Projection, q: Projection)
    requires Records(c, t, p) && Records(c, t, q)
    ensures p == q
  {
    hide RecordsIdentifiers, RecordsSuccessors, RecordsSchema, RecordsDependencies;
    IdentifiersOnce(c, t.data, p.metadata, q.metadata);
    SuccessorsOnce(c, t.data, p.canonical, q.canonical);
    SchemaOnce(c, t.constraints, p.constraints, q.constraints);
    SchemaOnce(c, t.relations, p.relations, q.relations);
    DependenciesOnce(c, t.dependencies, p.dependencies, q.dependencies);
  }

  /** The inverse is allowed exactly while nothing is committed or pending and the tables are still
   *  as the receipt recorded them after the preparation. */
  lemma InverseAllowedOutcome(c: Config, t: Tables, r: Receipt)
    ensures InverseAllowed(c, t, r) <==> !t.committed && NothingPending(t) && Records(c, t, r.prepared)
  {
    SnapshotRecords(c, t);
    if Records(c, t, r.prepared) { RecordsOnce(c, t, r.prepared, Snapshot(c, t)); }
    hide Records, Snapshot;
  }

  /** Any change of a module, of a retired identifier or its successor, of a schema row of an add-on
   *  involved or of a successor's dependency, and any commit, makes the inverse refuse. */
  lemma ChangedIsRefused(c: Config, t: Tables, t': Tables, r: Receipt)
    requires Records(c, t, r.prepared)
    requires
      || t'.committed || !NothingPending(t') || t'.modules != t.modules
      || (exists l | l in t.data && t.data[l].addOn in c.owners :: l !in t'.data || t'.data[l] != t.data[l])
      || (exists l | l in t'.data && t'.data[l].addOn in c.owners :: l !in t.data || t.data[l].addOn !in c.owners)
      || (exists id | id in t.constraints && Kept(c, t.constraints[id].addOn) ::
            id !in t'.constraints || t'.constraints[id] != t.constraints[id])
      || (exists id | id in t.relations && Kept(c, t.relations[id].addOn) ::
            id !in t'.relations || t'.relations[id] != t.relations[id])
      || (exists id | id in t.dependencies && t.dependencies[id].addOn in c.versions ::
            id !in t'.dependencies || t'.dependencies[id] != t.dependencies[id])
      || (exists id | id in t'.dependencies && t'.dependencies[id].addOn in c.versions :: id !in t.dependencies)
    ensures !InverseAllowed(c, t', r)
  {
    InverseAllowedOutcome(c, t', r);
    hide InverseAllowed, NothingPending, Kept, Succeeds;
  }

  /** The inverse deletes what was created and gives recorded rows back what was recorded of them:
   *  flags, owners, dependencies and states. */
  lemma InvertedOutcome(c: Config, t: Tables, r: Receipt)
    ensures var t', o := Inverted(c, t, r), r.original;
      && t'.committed == t.committed && t'.targets == t.targets
      && t'.data.Keys == t.data.Keys - r.aliases
      && (forall id | id in t'.data :: var x := t.data[id];
            t'.data[id] == XmlId(x.addOn, x.name, x.model, x.resId,
              if id in o.metadata then o.metadata[id].noupdate else x.noupdate))
      && t'.constraints.Keys == t.constraints.Keys && t'.relations.Keys == t.relations.Keys
      && (forall id | id in t.constraints :: t'.constraints[id] == SchemaRow(t.constraints[id].name,
            if id in o.constraints then o.constraints[id].addOn else t.constraints[id].addOn))
      && (forall id | id in t.relations :: t'.relations[id] == SchemaRow(t.relations[id].name,
            if id in o.relations then o.relations[id].addOn else t.relations[id].addOn))
      && t'.dependencies.Keys == t.dependencies.Keys - r.added
      && (forall id | id in t'.dependencies ::
            t'.dependencies[id] == if id in o.dependencies then o.dependencies[id] else t.dependencies[id])
      && t'.modules.Keys == t.modules.Keys
      && (forall n | n in t.modules :: t'.modules[n] == Module(
            if (n in c.owners || c.suite == Some(n)) && n in o.modules then o.modules[n].state else t.modules[n].state,
            t.modules[n].version))
  {}

  // ---------- The closing check ----------

  predicate VersionOfNow(c: Config, n: AddOn, version: string) {
    (n in c.versions && version == c.versions[n]) || (n in c.successors && version in c.successors[n])
  }

  /** Without a retired add-on: no owner in an unknown version, and no retired identifier. */
  predicate Untouched(c: Config, t: Tables) {
    && (forall n | n in c.versions && n in t.modules && |t.modules[n].version| > 0 ::
          VersionOfNow(c, n, t.modules[n].version))
    && (forall l | l in t.data :: t.data[l].addOn !in c.owners)
  }

  predicate ModulesClosed(c: Config, t: Tables) {
    && (forall n | n in c.legacyVersions ::
      n in t.modules && t.modules[n] == Module(Uninstallable, c.legacyVersions[n]))
    && (forall n | c.suite == Some(n) && n in t.modules :: t.modules[n].state == Uninstallable)
    && (forall n | n in c.predecessorVersions :: n in t.modules
          && (t.modules[n].version == c.predecessorVersions[n] || VersionOfNow(c, n, t.modules[n].version)))
  }

  /** Every retired identifier is frozen and has its one successor. */
  predicate IdentifiersClosed(c: Config, t: Tables) {
    Identifiers(c, t) && forall l | l in t.data && t.data[l].addOn in c.owners ::
      t.data[l].noupdate && Succeeded(c, t.data, t.data[l]) && OneSuccessor(c, t.data, t.data[l])
  }

  ghost predicate DependenciesClosed(c: Config, t: Tables) {
    && (forall id | id in t.dependencies && t.dependencies[id].name in c.owners
      && t.dependencies[id].addOn in t.modules ::
          var state := t.modules[t.dependencies[id].addOn].state; state != Installed && state != ToUpgrade)
    && forall n | n in c.needed ::
         && Unforced(t.dependencies, n)
         && ((forall p :: Needs(t.dependencies, n, p) <==> p in c.needed[n])
             || (n in c.also && forall p :: Needs(t.dependencies, n, p) <==> p in c.needed[n] || p in c.also[n]))
  }

  lemma NamesAre(d: map<nat, Dependency>, n: AddOn, names: set<AddOn>)
    ensures Names(d, n) == names <==> forall p :: Needs(d, n, p) <==> p in names
  {
    forall p: AddOn ensures p in Names(d, n) <==> Needs(d, n, p) { NamedIff(d, n, p); }
    hide Names, Needs;
  }

  lemma DependenciesCheckedLast(c: Config, t: Tables)
    ensures NoConsumer(c, t) && OwnersComplete(c, t.dependencies) <==> DependenciesClosed(c, t)
  {
    forall n | n in c.needed
      ensures Orderly(t.dependencies, n) <==> Unforced(t.dependencies, n)
      ensures Names(t.dependencies, n) == c.needed[n] <==> forall p :: Needs(t.dependencies, n, p) <==> p in c.needed[n]
      ensures n in c.also ==> (Names(t.dependencies, n) == c.needed[n] + c.also[n]
        <==> forall p :: Needs(t.dependencies, n, p) <==> p in c.needed[n] || p in c.also[n])
    {
      OrderlyIs(t.dependencies, n);
      NamesAre(t.dependencies, n, c.needed[n]);
      if n in c.also {
        NamesAre(t.dependencies, n, c.needed[n] + c.also[n]);
        hide Names, Needs;
        assert forall p :: p in c.needed[n] + c.also[n] <==> p in c.needed[n] || p in c.also[n];
      }
    }
    hide Orderly, Names, Needs, Unforced;
  }

  lemma IdentifiersCheckedLast(c: Config, t: Tables)
    ensures RowsOk(c, t) && MetadataAdopted(c, t.data) <==> IdentifiersClosed(c, t)
  {
    CatalogChecked(c, t);
    hide RowsOk, Identifiers;
    forall l | l in t.data && Legacy(c, t.data[l])
      ensures CanonicalOk(c, t.data, t.data[l]) && Canonicals(c, t.data, t.data[l]) != map[]
        <==> Succeeded(c, t.data, t.data[l]) && OneSuccessor(c, t.data, t.data[l])
    {
      RowChecked(c, t.data, l);
      hide Canonicals, CanonicalOk, Succeeded, OneSuccessor;
    }
    hide Canonicals, CanonicalOk, Succeeded, OneSuccessor;
  }

  /** The closing check passes exactly on tables that never had a retired add-on, and on those where
   *  all of them are retired completely. */
  lemma ClosingOutcome(c: Config, t: Tables)
    ensures AssertPrepared(c, t) <==>
      if forall n | n in c.owners :: n !in t.modules then Untouched(c, t)
      else
        && ModulesClosed(c, t) && IdentifiersClosed(c, t) && DependenciesClosed(c, t)
        && (forall id | id in t.constraints :: t.constraints[id].addOn !in c.owners)
        && (forall id | id in t.relations :: t.relations[id].addOn !in c.owners)
  {
    DependenciesCheckedLast(c, t);
    IdentifiersCheckedLast(c, t);
    ModulesCheckedLast(c, t);
    hide NoConsumer, OwnersComplete, DependenciesClosed, RowsOk, MetadataAdopted, IdentifiersClosed, ModulesRetired,
      ModulesClosed, NeverInstalled, Untouched;
    assert c.owners.Keys !! t.modules.Keys <==> forall n | n in c.owners :: n !in t.modules;
  }

  lemma ModulesCheckedLast(c: Config, t: Tables)
    ensures ModulesRetired(c, t) <==> ModulesClosed(c, t)
    ensures NeverInstalled(c, t) <==> Untouched(c, t)
  {
    assert LegacyIds(c, t.data) == {} <==> forall l | l in t.data :: t.data[l].addOn !in c.owners by {
      if LegacyIds(c, t.data) == {} {
        forall l | l in t.data ensures t.data[l].addOn !in c.owners { assert l !in LegacyIds(c, t.data); }
      }
    }
    hide LegacyIds;
  }

  // ---------- The two plans ----------

  /** Who takes over from whom in the integration migration. */
  lemma IntegrationOwners(catalog: Catalog, constraints: SchemaCatalog, relations: SchemaCatalog)
    ensures var c := Integration(catalog, constraints, relations);
      && c.owners == map[Crm := Base, Dashboard := Base, MetaCrm := Meta, ContactCenterCrm := ContactCenter,
        WebsiteCrm := Website]
      && c.translate == c.owners && c.adopted == {Crm, Dashboard} && c.suite == Some(Suite) && !c.exact
      && c.consumer == Whatsapp && c.consumed == WebsiteCrm && c.renamed == Website
      && c.catalog == catalog && c.constraintCatalog == constraints && c.relationCatalog == relations
  {
    hide KeptAddOns, RetiredAt, KeptBefore, KeptAfter, KeptLater, NeededBy;
  }

  lemma VersionsShape(catalog: Catalog, constraints: SchemaCatalog, relations: SchemaCatalog)
    ensures var c := Integration(catalog, constraints, relations);
      && c.legacyVersions.Keys == RetiredAddOns()
      && c.predecessorVersions.Keys == c.versions.Keys == c.successors.Keys == KeptAddOns()
      && (forall l | l in RetiredAddOns() :: c.legacyVersions[l] == RetiredAt(l))
      && forall n | n in KeptAddOns() ::
           c.predecessorVersions[n] == KeptBefore(n) && c.versions[n] == KeptAfter(n) && c.successors[n] == KeptLater(n)
  {
    hide RetiredAddOns, KeptAddOns, OwnerOf, RetiredAt, KeptBefore, KeptAfter, KeptLater, NeededBy;
  }

  /** The releases of the add-ons that the integration migration retires. */
  lemma IntegrationRetires(catalog: Catalog, constraints: SchemaCatalog, relations: SchemaCatalog)
    ensures var c := Integration(catalog, constraints, relations);
      && c.legacyVersions.Keys == {Crm, Dashboard, MetaCrm, ContactCenterCrm, WebsiteCrm}
      && c.legacyVersions[Crm] == "16.0.2.0.0" && c.legacyVersions[Dashboard] == "16.0.2.0.0"
      && c.legacyVersions[MetaCrm] == "16.0.1.1.1" && c.legacyVersions[ContactCenterCrm] == "16.0.1.0.2"
      && c.legacyVersions[WebsiteCrm] == "16.0.1.6.2"
  {
    hide Integration, KeptAddOns, KeptBefore, KeptAfter, KeptLater;
    VersionsShape(catalog, constraints, relations);
  }

  /** The releases of the others before and after it. */
  lemma IntegrationReleases(catalog: Catalog, constraints: SchemaCatalog, relations: SchemaCatalog)
    ensures var c := Integration(catalog, constraints, relations);
      && c.predecessorVersions.Keys == c.versions.Keys == {Base, Meta, ContactCenter, Website, Whatsapp}
      && c.predecessorVersions[Base] == "16.0.2.0.0" && c.versions[Base] == "16.0.2.1.0"
      && c.predecessorVersions[Meta] == "16.0.1.1.5" && c.versions[Meta] == "16.0.2.0.0"
      && c.predecessorVersions[ContactCenter] == "16.0.1.3.0" && c.versions[ContactCenter] == "16.0.2.0.0"
      && c.predecessorVersions[Website] == "16.0.1.6.0" && c.versions[Website] == "16.0.2.0.0"
      && c.predecessorVersions[Whatsapp] == "16.0.1.2.0" && c.versions[Whatsapp] == "16.0.1.3.0"
  {
    hide Integration, RetiredAddOns, RetiredAt, KeptLater;
    VersionsShape(catalog, constraints, relations);
  }

  /** The later releases of theirs that it supports. */
  lemma IntegrationLater(catalog: Catalog, constraints: SchemaCatalog, relations: SchemaCatalog)
    ensures var c := Integration(catalog, constraints, relations);
      && c.successors.Keys == {Base, Meta, ContactCenter, Website, Whatsapp}
      && c.successors[Base] == {"16.0.2.1.1", "16.0.2.1.2", "16.0.2.1.3", "16.0.2.2.0", "16.0.2.2.2"}
      && c.successors[Meta] == {"16.0.2.1.0", "16.0.2.1.2"}
      && c.successors[ContactCenter] == {"16.0.2.0.1", "16.0.2.1.0"}
      && c.successors[Website] == {"16.0.2.1.0", "16.0.2.1.1", "16.0.2.2.0", "16.0.2.3.0", "16.0.2.4.0"}
      && c.successors[Whatsapp] == {"16.0.1.3.1", "16.0.1.4.0", "16.0.1.5.0", "16.0.1.6.0", "16.0.1.7.0"}
  {
    hide Integration, RetiredAddOns, RetiredAt, KeptBefore, KeptAfter;
    VersionsShape(catalog, constraints, relations);
  }

  lemma AlsoIs(catalog: Catalog, constraints: SchemaCatalog, relations: SchemaCatalog)
    ensures Integration(catalog, constraints, relations).also == map[Whatsapp := {ContactCenter, Other("queue_job")}]
  {}

  /** What each add-on of the integration migration depends on afterwards. */
  lemma IntegrationNeeds(catalog: Catalog, constraints: SchemaCatalog, relations: SchemaCatalog)
    ensures var c := Integration(catalog, constraints, relations);
      && c.needed.Keys == {Base, Meta, ContactCenter, Website, Whatsapp}
      && c.needed[Base] == {Other("base"), Other("crm"), Other("queue_job"), Other("utm")}
      && c.needed[Meta] == {Base, Other("meta_api_base"), Other("meta_webhook_base"), Other("queue_job")}
      && c.needed[ContactCenter]
           == {Other("contact_center_base"), Other("contact_center_crm"), Base, Other("queue_job")}
      && c.needed[Website] == {Base, WebIngress, Other("queue_job"), Other("website"), Other("website_crm")}
      && c.needed[Whatsapp] == {Other("contact_center_crm"), Website}
      && c.also == map[Whatsapp := {ContactCenter, Other("queue_job")}]
  {
    hide Integration, OwnerOf, RetiredAddOns;
    IntegrationShape(catalog, constraints, relations);
    AlsoIs(catalog, constraints, relations);
  }

  /** The constants of the ingress migration. */
  lemma IngressConstants(catalog: Catalog, constraints: SchemaCatalog, relations: SchemaCatalog)
    ensures var c := Ingress(catalog, constraints, relations);
      && c.owners == map[WebIngress := Website] && c.translate == map[WebIngress := Other("web")]
      && c.legacyVersions == map[WebIngress := "16.0.1.5.0"]
      && c.predecessorVersions == map[Website := "16.0.2.0.0"] && c.versions == map[Website := "16.0.2.1.0"]
      && c.successors == map[] && c.also == map[] && c.exact && c.suite == None && c.adopted == {}
      && c.needed.Keys == {Website}
      && c.needed[Website] == {Other("web"), Other("website"), Base, Other("website_crm"), Other("queue_job")}
      && c.consumer == Website && c.consumed == WebIngress && c.renamed == Other("web")
      && c.catalog == catalog && c.constraintCatalog == constraints && c.relationCatalog == relations
  {}
}
