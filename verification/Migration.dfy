/** Reversible metadata migrations that move the ownership of retired add-ons to their
 *  successors: the checks, the change they allow, the closing check and the inverse.
 *
 *  One configuration type serves both migrations.  A module is identified by its name, which
 *  the module table keeps unique; other tables are maps from id to row. */
module Migration {
  import opened Common

  /** Module names: those of the suite, and any others. */
  datatype AddOn =
    | Base | Meta | ContactCenter | Website | Whatsapp
    | Crm | Dashboard | MetaCrm | ContactCenterCrm | WebsiteCrm | WebIngress | Suite
    | Other(name: string)

  datatype ModuleState = Installed | Uninstalled | Uninstallable | ToInstall | ToUpgrade | ToRemove

  datatype Module = Module(state: ModuleState, version: string)

  datatype XmlId = XmlId(addOn: AddOn, name: string, model: string, resId: nat, noupdate: bool)

  datatype SchemaRow = SchemaRow(name: string, addOn: AddOn)

  datatype Dependency = Dependency(addOn: AddOn, name: AddOn, auto: bool)

  datatype Tables = Tables(
    modules: map<AddOn, Module>,
    data: map<nat, XmlId>,
    constraints: map<nat, SchemaRow>,
    relations: map<nat, SchemaRow>,
    dependencies: map<nat, Dependency>,
    committed: bool,
    targets: map<string, set<nat>>)

  /** catalog maps each retired add-on to its identifiers and their models; the schema catalogs
   *  count the names each of them owns. */
  datatype Config = Config(
    owners: map<AddOn, AddOn>,
    legacyVersions: map<AddOn, string>,
    predecessorVersions: map<AddOn, string>,
    versions: map<AddOn, string>,
    successors: map<AddOn, set<string>>,
    needed: map<AddOn, set<AddOn>>,
    also: map<AddOn, set<AddOn>>,
    translate: map<AddOn, AddOn>,
    exact: bool,
    suite: Option<AddOn>,
    adopted: set<AddOn>,
    consumer: AddOn,
    consumed: AddOn,
    renamed: AddOn,
    catalog: map<AddOn, map<string, string>>,
    constraintCatalog: map<AddOn, map<string, nat>>,
    relationCatalog: map<AddOn, map<string, nat>>)

  /** What both migrations' constants satisfy. */
  ghost predicate ValidConfig(c: Config) {
    && c.owners.Keys == c.legacyVersions.Keys == c.catalog.Keys == c.translate.Keys
    && c.predecessorVersions.Keys == c.versions.Keys == c.needed.Keys
    && c.owners.Keys !! c.needed.Keys
    && (forall l | l in c.owners :: c.owners[l] in c.needed)
    && (forall l, m | l in c.owners && m in c.owners && l != m && c.owners[l] == c.owners[m] :: l in c.adopted)
    && (forall n | n in c.needed :: c.needed[n] !! c.owners.Keys)
    && c.consumer in c.needed && c.consumed in c.owners
    && c.translate[c.consumed] == c.renamed && c.renamed in c.needed[c.consumer]
    && (c.suite.Some? ==> c.suite.value !in c.owners && c.suite.value !in c.needed)
  }

  // ---------- Lookups ----------

  predicate Legacy(c: Config, x: XmlId) {
    x.addOn in c.owners
  }

  function LegacyIds(c: Config, data: map<nat, XmlId>): set<nat> {
    set id | id in data && Legacy(c, data[id])
  }

  /** The rows that hold a retired identifier's name for its successor. */
  function Canonicals(c: Config, data: map<nat, XmlId>, x: XmlId): map<nat, XmlId>
    requires Legacy(c, x)
  {
    map id | id in data && data[id].addOn == c.owners[x.addOn] && data[id].name == x.name :: data[id]
  }

  /** At most one such row, and it names the same target. */
  predicate CanonicalOk(c: Config, data: map<nat, XmlId>, x: XmlId)
    requires Legacy(c, x)
  {
    var found := Canonicals(c, data, x);
    && (forall i, j | i in found && j in found :: i == j)
    && (forall i | i in found :: found[i].model == x.model && found[i].resId == x.resId)
  }

  /** Identifiers are unique, as the table's index keeps them. */
  predicate WellKeyed(data: map<nat, XmlId>) {
    forall i, j | i in data && j in data && i != j :: data[i].addOn != data[j].addOn || data[i].name != data[j].name
  }

  /** The retired add-ons own exactly the cataloged identifiers, and their targets exist. */
  predicate RowsOk(c: Config, t: Tables) {
    && (forall id | id in t.data && Legacy(c, t.data[id]) :: Cataloged(c, t.data[id]))
    && (forall l, n | l in c.catalog && n in c.catalog[l] ::
          exists id | id in t.data :: Declares(t.data[id], l, n, c.catalog[l][n]))
    && (forall id | id in t.data && Legacy(c, t.data[id]) ::
          t.data[id].model in t.targets && t.data[id].resId in t.targets[t.data[id].model])
  }

  predicate Cataloged(c: Config, x: XmlId) {
    x.addOn in c.catalog && x.name in c.catalog[x.addOn] && c.catalog[x.addOn][x.name] == x.model
  }

  predicate Declares(x: XmlId, addOn: AddOn, name: string, model: string) {
    x.addOn == addOn && x.name == name && x.model == model
  }

  predicate InState(t: Tables, name: AddOn, state: ModuleState) {
    name in t.modules && t.modules[name].state == state
  }

  predicate InstalledAt(t: Tables, name: AddOn, version: string) {
    InState(t, name, Installed) && t.modules[name].version == version
  }

  predicate Transient(m: Module) {
    m.state.ToInstall? || m.state.ToUpgrade? || m.state.ToRemove?
  }

  predicate DependsOn(d: map<nat, Dependency>, addOn: AddOn, name: AddOn) {
    exists id | id in d :: d[id].addOn == addOn && d[id].name == name
  }

  function Names(d: map<nat, Dependency>, addOn: AddOn): set<AddOn> {
    set id | id in d && d[id].addOn == addOn :: d[id].name
  }

  /** No module names a dependency twice, and none of its dependencies asks for auto-install. */
  predicate Orderly(d: map<nat, Dependency>, addOn: AddOn) {
    && (forall i, j | i in d && j in d && d[i].addOn == addOn && d[j].addOn == addOn && d[i].name == d[j].name ::
      i == j)
    && (forall i | i in d && d[i].addOn == addOn :: !d[i].auto)
  }

  predicate Consumes(c: Config, t: Tables, id: nat) {
    && id in t.dependencies && t.dependencies[id].name in c.owners
    && InState(t, t.dependencies[id].addOn, Installed) && t.dependencies[id].addOn !in c.owners
  }

  function Translated(c: Config, names: set<AddOn>): set<AddOn> {
    set n | n in names :: if n in c.translate then c.translate[n] else n
  }

  /** Names the owner must depend on before the migration, where that is checked exactly. */
  function Before(c: Config, addOn: AddOn): set<AddOn>
    requires addOn in c.needed
  {
    set n | n in c.needed[addOn] :: if n == c.renamed then c.consumed else n
  }

  function Owned(table: map<nat, SchemaRow>, l: AddOn, name: string): nat {
    |set id | id in table && table[id] == SchemaRow(name, l)|
  }

  function Counted(catalog: map<AddOn, map<string, nat>>, l: AddOn, name: string): nat {
    if l in catalog && name in catalog[l] then catalog[l][name] else 0
  }

  /** The retired add-ons own the cataloged schema names, as often as cataloged, and their
   *  successors own none of these. */
  predicate SchemaCataloged(c: Config, table: map<nat, SchemaRow>, catalog: map<AddOn, map<string, nat>>) {
    && (forall id | id in table && table[id].addOn in c.owners ::
          Owned(table, table[id].addOn, table[id].name) == Counted(catalog, table[id].addOn, table[id].name))
    && (forall l, n | l in catalog && n in catalog[l] :: l in c.owners ==> Owned(table, l, n) == catalog[l][n])
    && (forall i, j | i in table && j in table && table[i].addOn in c.owners ::
          !(table[j].addOn == c.owners[table[i].addOn] && table[j].name == table[i].name))
  }

  // ---------- The checks before and after ----------

  predicate Settled(t: Tables) {
    forall n | n in t.modules :: !Transient(t.modules[n])
  }

  predicate ModulesReady(c: Config, t: Tables) {
    && Settled(t) && !t.committed
    && (forall n | n in c.legacyVersions :: InstalledAt(t, n, c.legacyVersions[n]))
    && (forall n | n in c.predecessorVersions :: InstalledAt(t, n, c.predecessorVersions[n]))
    && (c.suite.Some? && c.suite.value in t.modules ==> t.modules[c.suite.value].state == Uninstalled)
  }

  predicate MetadataReady(c: Config, data: map<nat, XmlId>) {
    forall id | id in data && Legacy(c, data[id]) ::
      CanonicalOk(c, data, data[id]) && (data[id].addOn in c.adopted ==> Canonicals(c, data, data[id]) != map[])
  }

  /** Exactly one installed add-on outside the retired ones depends on a retired one: the
   *  expected consumer. */
  predicate ConsumerReady(c: Config, t: Tables) {
    && (exists id | id in t.dependencies ::
          Consumes(c, t, id) && t.dependencies[id].addOn == c.consumer && t.dependencies[id].name == c.consumed)
    && (forall i, j | i in t.dependencies && j in t.dependencies && Consumes(c, t, i) && Consumes(c, t, j) :: i == j)
  }

  predicate OwnersReady(c: Config, t: Tables) {
    forall n | n in c.needed ::
      && Orderly(t.dependencies, n)
      && Translated(c, Names(t.dependencies, n)) <= c.needed[n]
      && (c.exact ==> Names(t.dependencies, n) == Before(c, n))
      && (forall p | p in c.needed[n] :: InState(t, p, Installed))
  }

  predicate Validated(c: Config, t: Tables) {
    && ModulesReady(c, t) && RowsOk(c, t) && MetadataReady(c, t.data)
    && SchemaCataloged(c, t.constraints, c.constraintCatalog) && SchemaCataloged(c, t.relations, c.relationCatalog)
    && ConsumerReady(c, t) && OwnersReady(c, t)
  }

  predicate KnownVersion(c: Config, n: AddOn, version: string) {
    (n in c.versions && version == c.versions[n]) || (n in c.successors && version in c.successors[n])
  }

  /** A graph that never had the retired add-ons. */
  predicate NeverInstalled(c: Config, t: Tables) {
    && (forall n | n in c.versions && n in t.modules && t.modules[n].version != "" ::
      KnownVersion(c, n, t.modules[n].version))
    && LegacyIds(c, t.data) == {}
  }

  predicate ModulesRetired(c: Config, t: Tables) {
    && (forall n | n in c.legacyVersions :: InState(t, n, Uninstallable) && t.modules[n].version == c.legacyVersions[n])
    && (c.suite.Some? && c.suite.value in t.modules ==> t.modules[c.suite.value].state == Uninstallable)
    && (forall n | n in c.predecessorVersions ::
          n in t.modules && (t.modules[n].version == c.predecessorVersions[n]
            || KnownVersion(c, n, t.modules[n].version)))
  }

  predicate MetadataAdopted(c: Config, data: map<nat, XmlId>) {
    forall id | id in data && Legacy(c, data[id]) ::
      data[id].noupdate && CanonicalOk(c, data, data[id]) && Canonicals(c, data, data[id]) != map[]
  }

  predicate SchemaMoved(c: Config, table: map<nat, SchemaRow>) {
    forall id | id in table :: table[id].addOn !in c.owners
  }

  predicate NoConsumer(c: Config, t: Tables) {
    forall id | id in t.dependencies && t.dependencies[id].name in c.owners ::
      !InState(t, t.dependencies[id].addOn, Installed) && !InState(t, t.dependencies[id].addOn, ToUpgrade)
  }

  predicate OwnersComplete(c: Config, d: map<nat, Dependency>) {
    forall n | n in c.needed ::
      && Orderly(d, n)
      && (Names(d, n) == c.needed[n] || (n in c.also && Names(d, n) == c.needed[n] + c.also[n]))
  }

  /** The closing check, also used as a guard before later upgrades. */
  predicate AssertPrepared(c: Config, t: Tables) {
    if c.owners.Keys !! t.modules.Keys then NeverInstalled(c, t)
    else
      && ModulesRetired(c, t) && RowsOk(c, t) && MetadataAdopted(c, t.data)
      && SchemaMoved(c, t.constraints) && SchemaMoved(c, t.relations)
      && NoConsumer(c, t) && OwnersComplete(c, t.dependencies)
  }

  // ---------- Receipts ----------

  /** What a receipt records of the tables. */
  datatype Projection = Projection(
    modules: map<AddOn, Module>, metadata: map<nat, XmlId>, canonical: map<nat, map<nat, XmlId>>,
    constraints: map<nat, SchemaRow>, relations: map<nat, SchemaRow>, dependencies: map<nat, Dependency>)

  datatype Receipt = Receipt(original: Projection, prepared: Projection, aliases: set<nat>, added: set<nat>)

  predicate Involved(c: Config, name: AddOn) {
    name in c.owners || name in c.versions || c.suite == Some(name)
  }

  function InvolvedRows(c: Config, table: map<nat, SchemaRow>): map<nat, SchemaRow> {
    map id | id in table && Involved(c, table[id].addOn) :: table[id]
  }

  function Snapshot(c: Config, t: Tables): Projection {
    Projection(
      t.modules,
      map id | id in LegacyIds(c, t.data) :: t.data[id],
      map id | id in LegacyIds(c, t.data) :: Canonicals(c, t.data, t.data[id]),
      InvolvedRows(c, t.constraints), InvolvedRows(c, t.relations),
      map id | id in t.dependencies && t.dependencies[id].addOn in c.versions :: t.dependencies[id])
  }

  // ---------- The change ----------

  function AliasOf(c: Config, x: XmlId): XmlId
    requires Legacy(c, x)
  {
    x.(addOn := c.owners[x.addOn])
  }

  /** The retired identifiers whose successor does not hold their name yet. */
  predicate Unadopted(c: Config, data: map<nat, XmlId>, id: nat) {
    id in data && Legacy(c, data[id]) && Canonicals(c, data, data[id]) == map[]
  }

  predicate AliasFor(c: Config, data: map<nat, XmlId>, l: nat, x: XmlId) {
    Unadopted(c, data, l) && x == AliasOf(c, data[l])
  }

  ghost predicate Adopted(c: Config, data: map<nat, XmlId>, data': map<nat, XmlId>, created: set<nat>) {
    && created !! data.Keys && data'.Keys == data.Keys + created
    && (forall id | id in data :: data'[id] == if Legacy(c, data[id]) then data[id].(noupdate := true) else data[id])
    && (forall id | id in created :: exists l :: AliasFor(c, data, l, data'[id]))
    && (forall l | Unadopted(c, data, l) :: exists id | id in created :: AliasFor(c, data, l, data'[id]))
    && WellKeyed(data')
  }

  function Moved(c: Config, x: SchemaRow): SchemaRow {
    if x.addOn in c.owners then x.(addOn := c.owners[x.addOn]) else x
  }

  function Reassigned(c: Config, table: map<nat, SchemaRow>): map<nat, SchemaRow> {
    map id | id in table :: Moved(c, table[id])
  }

  function Renamed(c: Config, t: Tables): map<nat, Dependency> {
    map id | id in t.dependencies ::
      if Consumes(c, t, id) then t.dependencies[id].(name := c.renamed) else t.dependencies[id]
  }

  predicate Missing(c: Config, d: map<nat, Dependency>, x: Dependency) {
    x.addOn in c.needed && x.name in c.needed[x.addOn] && x.name !in Names(d, x.addOn) && !x.auto
  }

  ghost predicate Completed(c: Config, d: map<nat, Dependency>, d': map<nat, Dependency>, created: set<nat>) {
    && created !! d.Keys && d'.Keys == d.Keys + created
    && (forall id | id in d :: d'[id] == d[id])
    && (forall id | id in created :: Missing(c, d, d'[id]))
    && (forall x | Missing(c, d, x) :: exists id | id in created :: d'[id] == x)
    && (forall i, j | i in created && j in created && d'[i] == d'[j] :: i == j)
  }

  function Retired(c: Config, modules: map<AddOn, Module>): map<AddOn, Module> {
    map n | n in modules ::
      if n in c.owners || c.suite == Some(n) then modules[n].(state := Uninstallable) else modules[n]
  }

  /** t' is t after the writes of a preparation, with the receipt they leave. */
  ghost predicate PreparedFrom(c: Config, t: Tables, t': Tables, r: Receipt) {
    && Adopted(c, t.data, t'.data, r.aliases)
    && t'.constraints == Reassigned(c, t.constraints) && t'.relations == Reassigned(c, t.relations)
    && Completed(c, Renamed(c, t), t'.dependencies, r.added)
    && t'.modules == Retired(c, t.modules)
    && t'.committed == t.committed && t'.targets == t.targets
    && r.original == Snapshot(c, t) && r.prepared == Snapshot(c, t')
  }

  // ---------- The inverse ----------

  function RestoredRows(table: map<nat, SchemaRow>, recorded: map<nat, SchemaRow>): map<nat, SchemaRow> {
    map id | id in table :: if id in recorded then table[id].(addOn := recorded[id].addOn) else table[id]
  }

  function RestoredData(data: map<nat, XmlId>, r: Receipt): map<nat, XmlId> {
    map id | id in data && id !in r.aliases ::
      if id in r.original.metadata then data[id].(noupdate := r.original.metadata[id].noupdate) else data[id]
  }

  function RestoredDependencies(d: map<nat, Dependency>, r: Receipt): map<nat, Dependency> {
    map id | id in d && id !in r.added :: if id in r.original.dependencies then r.original.dependencies[id] else d[id]
  }

  function RestoredModules(c: Config, modules: map<AddOn, Module>, r: Receipt): map<AddOn, Module> {
    map n | n in modules ::
      if (n in c.owners || c.suite == Some(n)) && n in r.original.modules
      then modules[n].(state := r.original.modules[n].state) else modules[n]
  }

  /** The tables after the writes of the inverse. */
  function Inverted(c: Config, t: Tables, r: Receipt): Tables {
    Tables(RestoredModules(c, t.modules, r), RestoredData(t.data, r),
      RestoredRows(t.constraints, r.original.constraints), RestoredRows(t.relations, r.original.relations),
      RestoredDependencies(t.dependencies, r), t.committed, t.targets)
  }

  /** The inverse refuses committed data, pending modules and a changed projection. */
  predicate InverseAllowed(c: Config, t: Tables, r: Receipt) {
    !t.committed && Settled(t) && Snapshot(c, t) == r.prepared
  }
}
