/** The two migrations: the Crm integrations merged into their owners, and the web ingress merged
 *  into the website add-on. The catalogs of identifiers are data and stay parameters. */
module MigrationPlans {
  import opened Common
  import opened Migration
  import opened MigrationTheorems

  type Catalog = map<AddOn, map<string, string>>

  type SchemaCatalog = map<AddOn, map<string, nat>>

  // ---------- The CRM integrations ----------

  function RetiredAddOns(): set<AddOn> {
    {Crm, Dashboard, MetaCrm, ContactCenterCrm, WebsiteCrm}
  }

  function KeptAddOns(): set<AddOn> {
    {Base, Meta, ContactCenter, Website, Whatsapp}
  }

  lemma AddOnsApart()
    ensures RetiredAddOns() !! KeptAddOns() && Suite !in RetiredAddOns() && Suite !in KeptAddOns()
    ensures WebsiteCrm in RetiredAddOns() && Whatsapp in KeptAddOns() && Website in KeptAddOns()
  {}

  function OwnerOf(l: AddOn): AddOn {
    match l
    case MetaCrm => Meta
    case ContactCenterCrm => ContactCenter
    case WebsiteCrm => Website
    case _ => Base
  }

  function RetiredAt(l: AddOn): string {
    match l
    case MetaCrm => "16.0.1.1.1"
    case ContactCenterCrm => "16.0.1.0.2"
    case WebsiteCrm => "16.0.1.6.2"
    case _ => "16.0.2.0.0"
  }

  function KeptBefore(n: AddOn): string {
    match n
    case Meta => "16.0.1.1.5"
    case ContactCenter => "16.0.1.3.0"
    case Website => "16.0.1.6.0"
    case Whatsapp => "16.0.1.2.0"
    case _ => "16.0.2.0.0"
  }

  function KeptAfter(n: AddOn): string {
    match n
    case Base => "16.0.2.1.0"
    case Whatsapp => "16.0.1.3.0"
    case _ => "16.0.2.0.0"
  }

  function KeptLater(n: AddOn): set<string> {
    match n
    case Meta => {"16.0.2.1.0", "16.0.2.1.2"}
    case ContactCenter => {"16.0.2.0.1", "16.0.2.1.0"}
    case Website => {"16.0.2.1.0", "16.0.2.1.1", "16.0.2.2.0", "16.0.2.3.0", "16.0.2.4.0"}
    case Whatsapp => {"16.0.1.3.1", "16.0.1.4.0", "16.0.1.5.0", "16.0.1.6.0", "16.0.1.7.0"}
    case _ => {"16.0.2.1.1", "16.0.2.1.2", "16.0.2.1.3", "16.0.2.2.0", "16.0.2.2.2"}
  }

  function NeededBy(n: AddOn): set<AddOn> {
    match n
    case Meta => {Base, Other("meta_api_base"), Other("meta_webhook_base"), Other("queue_job")}
    case ContactCenter => {Other("contact_center_base"), Other("contact_center_crm"), Base, Other("queue_job")}
    case Website => {Base, WebIngress, Other("queue_job"), Other("website"), Other("website_crm")}
    case Whatsapp => {Other("contact_center_crm"), Website}
    case _ => {Other("base"), Other("crm"), Other("queue_job"), Other("utm")}
  }

  function Integration(catalog: Catalog, constraints: SchemaCatalog, relations: SchemaCatalog): Config {
    Config(
      map l | l in RetiredAddOns() :: OwnerOf(l), map l | l in RetiredAddOns() :: RetiredAt(l),
      map n | n in KeptAddOns() :: KeptBefore(n), map n | n in KeptAddOns() :: KeptAfter(n),
      map n | n in KeptAddOns() :: KeptLater(n), map n | n in KeptAddOns() :: NeededBy(n),
      map[Whatsapp := {ContactCenter, Other("queue_job")}],
      map l | l in RetiredAddOns() :: OwnerOf(l), false, Some(Suite), {Crm, Dashboard},
      Whatsapp, WebsiteCrm, Website, catalog, constraints, relations)
  }

  lemma KeptOwners()
    ensures forall l | l in RetiredAddOns() :: OwnerOf(l) in KeptAddOns()
    ensures forall l, m | l in RetiredAddOns() && m in RetiredAddOns() && l != m && OwnerOf(l) == OwnerOf(m) ::
      l in {Crm, Dashboard}
  {}

  lemma NothingRetiredNeeded()
    ensures forall n | n in KeptAddOns() :: NeededBy(n) !! RetiredAddOns()
  {
    forall n | n in KeptAddOns() ensures NeededBy(n) !! RetiredAddOns() {
      forall p | p in NeededBy(n) ensures p !in RetiredAddOns() {}
    }
  }

  lemma IntegrationShape(catalog: Catalog, constraints: SchemaCatalog, relations: SchemaCatalog)
    ensures var c := Integration(catalog, constraints, relations);
      && c.owners.Keys == c.legacyVersions.Keys == c.translate.Keys == RetiredAddOns() && c.catalog == catalog
      && c.predecessorVersions.Keys == c.versions.Keys == c.needed.Keys == KeptAddOns()
      && (forall l | l in RetiredAddOns() :: c.owners[l] == OwnerOf(l) && c.translate[l] == OwnerOf(l))
      && (forall n | n in KeptAddOns() :: c.needed[n] == NeededBy(n))
      && c.suite == Some(Suite) && c.adopted == {Crm, Dashboard} && c.consumer == Whatsapp && c.consumed == WebsiteCrm
      && c.renamed == Website
      && c.constraintCatalog == constraints && c.relationCatalog == relations && !c.exact
  {
    hide RetiredAddOns, KeptAddOns, OwnerOf, RetiredAt, KeptBefore, KeptAfter, KeptLater, NeededBy;
  }

  lemma IntegrationValid(catalog: Catalog, constraints: SchemaCatalog, relations: SchemaCatalog)
    requires catalog.Keys == RetiredAddOns()
    ensures ValidConfig(Integration(catalog, constraints, relations))
  {
    hide RetiredAddOns, KeptAddOns, OwnerOf, NeededBy, Integration, ValidConfig;
    IntegrationShape(catalog, constraints, relations);
    ShapeValid(Integration(catalog, constraints, relations));
  }

  lemma WebsiteTaken()
    ensures OwnerOf(WebsiteCrm) == Website && Website in NeededBy(Whatsapp)
  {}

  lemma ShapeValid(c: Config)
    requires c.owners.Keys == c.legacyVersions.Keys == c.translate.Keys == c.catalog.Keys == RetiredAddOns()
    requires c.predecessorVersions.Keys == c.versions.Keys == c.needed.Keys == KeptAddOns()
    requires forall l | l in RetiredAddOns() :: c.owners[l] == OwnerOf(l) && c.translate[l] == OwnerOf(l)
    requires forall n | n in KeptAddOns() :: c.needed[n] == NeededBy(n)
    requires c.suite == Some(Suite) && c.adopted == {Crm, Dashboard} && c.consumer == Whatsapp
      && c.consumed == WebsiteCrm && c.renamed == Website
    ensures ValidConfig(c)
  {
    hide RetiredAddOns, KeptAddOns, OwnerOf, NeededBy;
    KeptOwners();
    NothingRetiredNeeded();
    AddOnsApart();
    WebsiteTaken();
  }

  // ---------- The web ingress ----------

  function Ingress(catalog: Catalog, constraints: SchemaCatalog, relations: SchemaCatalog): Config {
    Config(map[WebIngress := Website], map[WebIngress := "16.0.1.5.0"], map[Website := "16.0.2.0.0"],
      map[Website := "16.0.2.1.0"], map[],
      map[Website := {Other("web"), Other("website"), Base, Other("website_crm"), Other("queue_job")}], map[],
      map[WebIngress := Other("web")], true, None, {},
      Website, WebIngress, Other("web"), catalog, constraints, relations)
  }

  lemma IngressValid(catalog: Catalog, constraints: SchemaCatalog, relations: SchemaCatalog)
    requires catalog.Keys == {WebIngress}
    ensures ValidConfig(Ingress(catalog, constraints, relations)) && Ingress(catalog, constraints, relations).exact
  {
  }

  /** The ingress migration: once the checks pass, the writes always meet the closing check. */
  lemma IngressAlwaysPrepares(catalog: Catalog, constraints: SchemaCatalog, relations: SchemaCatalog, t: Tables,
                              t': Tables, r: Receipt)
    requires catalog.Keys == {WebIngress} && WellKeyed(t.data)
    requires Validated(Ingress(catalog, constraints, relations), t)
      && PreparedFrom(Ingress(catalog, constraints, relations), t, t', r)
    ensures AssertPrepared(Ingress(catalog, constraints, relations), t')
  {
    hide Validated, PreparedFrom, AssertPrepared, ValidConfig, Ingress;
    IngressValid(catalog, constraints, relations);
    ExactAlwaysPrepares(Ingress(catalog, constraints, relations), t, t', r);
  }

  /** The integration migration: they do so exactly when the WhatsApp add-on did not already
   *  depend on the website add-on. */
  lemma IntegrationPreparesIff(catalog: Catalog, constraints: SchemaCatalog, relations: SchemaCatalog, t: Tables,
                               t': Tables, r: Receipt)
    requires catalog.Keys == RetiredAddOns() && WellKeyed(t.data)
    requires Validated(Integration(catalog, constraints, relations), t)
      && PreparedFrom(Integration(catalog, constraints, relations), t, t', r)
    ensures AssertPrepared(Integration(catalog, constraints, relations), t') <==>
      !DependsOn(t.dependencies, Whatsapp, Website)
  {
    IntegrationNames(catalog, constraints, relations);
    hide Validated, PreparedFrom, AssertPrepared, ValidConfig, Integration;
    IntegrationValid(catalog, constraints, relations);
    PreparedIff(Integration(catalog, constraints, relations), t, t', r);
  }

  lemma IntegrationNames(catalog: Catalog, constraints: SchemaCatalog, relations: SchemaCatalog)
    ensures Integration(catalog, constraints, relations).consumer == Whatsapp
    ensures Integration(catalog, constraints, relations).renamed == Website
  {}

  // ---------- Validated graphs whose preparation fails ----------

  /** The graph with one more row: the WhatsApp add-on names the website add-on directly, beside
   *  the retired add-on that its dependency is to be renamed from. */
  function NamedTwice(t: Tables, id: nat): Tables {
    t.(dependencies := t.dependencies[id := Dependency(Whatsapp, Website, false)])
  }

  lemma OneMoreName(d: map<nat, Dependency>, id: nat, n: AddOn)
    requires id !in d && Orderly(d, n) && !DependsOn(d, Whatsapp, Website)
    ensures var d' := d[id := Dependency(Whatsapp, Website, false)];
      Orderly(d', n) && Names(d', n) == Names(d, n) + if n == Whatsapp then {Website} else {}
  {
    var d' := d[id := Dependency(Whatsapp, Website, false)];
    forall x | x in Names(d, n) ensures x in Names(d', n) {
      var k :| k in d && d[k].addOn == n && d[k].name == x;
      assert d'[k] == d[k];
    }
    if n == Whatsapp { assert d'[id].name == Website; }
  }

  lemma TranslatedMore(c: Config, names: set<AddOn>, x: AddOn)
    requires x !in c.translate
    ensures Translated(c, names + {x}) == Translated(c, names) + {x}
  {}

  /** The row is none of those that consume a retired add-on. */
  lemma ConsumerStays(c: Config, t: Tables, id: nat)
    requires Website !in c.owners && id !in t.dependencies && ConsumerReady(c, t)
    ensures ConsumerReady(c, NamedTwice(t, id))
  {
    var t' := NamedTwice(t, id);
    forall k | k in t'.dependencies ensures Consumes(c, t', k) <==> k != id && Consumes(c, t, k) {}
    var k :| k in t.dependencies && Consumes(c, t, k) && t.dependencies[k].addOn == c.consumer
      && t.dependencies[k].name == c.consumed;
    assert Consumes(c, t', k);
  }

  lemma OwnerStays(c: Config, t: Tables, id: nat, n: AddOn)
    requires n in c.needed && Website !in c.translate && (n == Whatsapp ==> Website in c.needed[n])
    requires id !in t.dependencies && !DependsOn(t.dependencies, Whatsapp, Website)
    requires Orderly(t.dependencies, n) && Translated(c, Names(t.dependencies, n)) <= c.needed[n]
    ensures Orderly(NamedTwice(t, id).dependencies, n)
    ensures Translated(c, Names(NamedTwice(t, id).dependencies, n)) <= c.needed[n]
  {
    OneMoreName(t.dependencies, id, n);
    hide Orderly, Names, Translated, DependsOn;
    if n == Whatsapp {
      TranslatedMore(c, Names(t.dependencies, n), Website);
    } else {
      assert Names(t.dependencies, n) + {} == Names(t.dependencies, n);
    }
  }

  lemma OwnersStay(c: Config, t: Tables, id: nat)
    requires Website !in c.translate && !c.exact && (Whatsapp in c.needed ==> Website in c.needed[Whatsapp])
    requires id !in t.dependencies && !DependsOn(t.dependencies, Whatsapp, Website) && OwnersReady(c, t)
    ensures OwnersReady(c, NamedTwice(t, id))
  {
    hide Orderly, Names, Translated, DependsOn;
    forall n | n in c.needed
      ensures Orderly(NamedTwice(t, id).dependencies, n)
      ensures Translated(c, Names(NamedTwice(t, id).dependencies, n)) <= c.needed[n]
    {
      OwnerStays(c, t, id, n);
    }
  }

  lemma NamesTwice(t: Tables, id: nat)
    ensures DependsOn(NamedTwice(t, id).dependencies, Whatsapp, Website)
  {
    assert NamedTwice(t, id).dependencies[id] == Dependency(Whatsapp, Website, false);
  }

  lemma StaysValidated(c: Config, t: Tables, id: nat)
    requires Website !in c.owners && Website !in c.translate && !c.exact
    requires Whatsapp in c.needed ==> Website in c.needed[Whatsapp]
    requires Validated(c, t) && id !in t.dependencies && !DependsOn(t.dependencies, Whatsapp, Website)
    ensures Validated(c, NamedTwice(t, id))
  {
    hide OwnersReady, ConsumerReady, RowsOk, SchemaCataloged, MetadataReady, DependsOn;
    ConsumerStays(c, t, id);
    OwnersStay(c, t, id);
    RowsStay(c, t, id);
  }

  lemma RowsStay(c: Config, t: Tables, id: nat)
    requires RowsOk(c, t)
    ensures RowsOk(c, NamedTwice(t, id))
  {}

  /** Whatever the catalogs: every graph that could be migrated has a neighbour, in which the
   *  WhatsApp add-on also names the website add-on directly, that passes every check made before
   *  the first write although no preparation of it passes the closing check. */
  lemma TwiceDependentFails(catalog: Catalog, constraints: SchemaCatalog, relations: SchemaCatalog, t: Tables, id: nat)
    requires catalog.Keys == RetiredAddOns() && WellKeyed(t.data)
    requires Validated(Integration(catalog, constraints, relations), t)
    requires !DependsOn(t.dependencies, Whatsapp, Website) && id !in t.dependencies
    ensures Validated(Integration(catalog, constraints, relations), NamedTwice(t, id))
    ensures forall t', r | PreparedFrom(Integration(catalog, constraints, relations), NamedTwice(t, id), t', r) ::
      !AssertPrepared(Integration(catalog, constraints, relations), t')
  {
    AddOnsApart();
    WebsiteTaken();
    hide Validated, PreparedFrom, AssertPrepared, DependsOn, Integration, RetiredAddOns, KeptAddOns, OwnerOf, NeededBy;
    var c := Integration(catalog, constraints, relations);
    IntegrationShape(catalog, constraints, relations);
    assert Website !in RetiredAddOns();
    StaysValidated(c, t, id);
    NamesTwice(t, id);
    forall t', r | PreparedFrom(c, NamedTwice(t, id), t', r) ensures !AssertPrepared(c, t') {
      IntegrationPreparesIff(catalog, constraints, relations, NamedTwice(t, id), t', r);
    }
  }
}
