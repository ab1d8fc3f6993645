/** The sizing and price gate (internal/feasibility/feasibility.go, templates.go). Money is `real`
    and 1.33 is 133/100, so rounding is not modelled; prices are given. */
module Feasibility {
  import opened Wrappers
  import opened Numbers
  import opened AppList

  datatype Config = Config(
    apps: seq<AppGroup>, databaseGB: int, egressGB: int, resilience: string, environment: string,
    controlPlanes: string, budget: real, awsRegion: string, azureLocation: string, gcpRegion: string)

  // ---------------------------------------------------------------- templates.go

  datatype Resources = Resources(cores: int, mem: int)

  const LIGHT := Resources(100, 128)
  const MEDIUM := Resources(200, 256)
  const HEAVY := Resources(500, 1024)
  const SYSTEM := Resources(2000, 4096)

  function TemplateOf(g: AppGroup): (t: Resources)
    ensures t.cores > 0 && t.mem > 0
  {
    if g.template == "light" then LIGHT
    else if g.template == "heavy" then HEAVY
    else if g.template == "custom" then
      Resources(if g.customCores <= 0 then MEDIUM.cores else g.customCores,
                if g.customMem <= 0 then MEDIUM.mem else g.customMem)
    else MEDIUM
  }

  function ControlPlanesFor(resilience: string): int {
    if resilience == "ha" || resilience == "ha-mr" then 3 else 1
  }

  function DatabaseResources(gb: int): Resources {
    if gb <= 0 then Resources(0, 0)
    else Resources((if gb / 50 < 2 then 2 else gb / 50) * 1000, if gb * 100 < 2048 then 2048 else gb * 100)
  }

  function Plus(a: Resources, b: Resources): Resources { Resources(a.cores + b.cores, a.mem + b.mem) }

  /** One group's share: pods times template, and nothing for a count that is not positive. */
  function GroupResources(g: AppGroup): Resources {
    if g.count <= 0 then Resources(0, 0)
    else Resources(g.count * TemplateOf(g).cores, g.count * TemplateOf(g).mem)
  }

  function AppTotals(apps: seq<AppGroup>): Resources {
    if apps == [] then Resources(0, 0)
    else Plus(AppTotals(apps[..|apps| - 1]), GroupResources(apps[|apps| - 1]))
  }

  lemma TotalsLast(apps: seq<AppGroup>)
    requires apps != []
    ensures AppTotals(apps) == Plus(AppTotals(apps[..|apps| - 1]), GroupResources(apps[|apps| - 1]))
  {
    hide GroupResources, Plus;
  }

  lemma TotalsNext(apps: seq<AppGroup>, i: nat)
    requires i < |apps|
    ensures AppTotals(apps[..i + 1]) == Plus(AppTotals(apps[..i]), GroupResources(apps[i]))
  {
    hide GroupResources, Plus, AppTotals;
    TotalsLast(apps[..i + 1]);
    assert apps[..i + 1][..i] == apps[..i];
  }

  method GroupShare(g: AppGroup) returns (r: Resources)
    ensures r == GroupResources(g)
  {
    if g.count <= 0 {
      return Resources(0, 0);
    }
    hide TemplateOf;
    var one := TemplateOf(g);
    r := Resources(g.count * one.cores, g.count * one.mem);
  }

  method AppResources(apps: seq<AppGroup>) returns (t: Resources)
    ensures t == AppTotals(apps)
  {
    t := Resources(0, 0);
    for i := 0 to |apps|
      invariant t == AppTotals(apps[..i])
    {
      hide GroupResources, AppTotals;
      var share := GroupShare(apps[i]);
      TotalsNext(apps, i);
      t := Plus(t, share);
    }
    assert apps[..|apps|] == apps;
  }

  lemma PlusRegroups(a: Resources, b: Resources, c: Resources)
    ensures Plus(a, Plus(b, c)) == Plus(Plus(a, b), c) && Plus(a, Resources(0, 0)) == a
  {
  }

  lemma {:induction false} TotalsSplit(a: seq<AppGroup>, b: seq<AppGroup>)
    ensures AppTotals(a + b) == Plus(AppTotals(a), AppTotals(b))
  {
    hide GroupResources, Plus;
    if b == [] {
      assert a + b == a;
      PlusRegroups(AppTotals(a), AppTotals(b), AppTotals(b));
    } else {
      hide AppTotals;
      var n := |b| - 1;
      TotalsSplit(a, b[..n]);
      assert (a + b)[..|a + b| - 1] == a + b[..n] && (a + b)[|a + b| - 1] == b[n];
      TotalsLast(a + b);
      TotalsLast(b);
      PlusRegroups(AppTotals(a), AppTotals(b[..n]), GroupResources(b[n]));
    }
  }

  /** The order of the groups is for display only. */
  lemma {:induction false} OrderIsDisplayOnly(a: seq<AppGroup>, b: seq<AppGroup>)
    requires multiset(a) == multiset(b)
    ensures AppTotals(a) == AppTotals(b)
  {
    hide GroupResources, AppTotals, Plus;
    assert |a| == |multiset(a)| == |multiset(b)| == |b|;
    if a == [] {
      assert a == b;
    } else {
      var n := |a| - 1;
      var j := PlaceIn(a, b);
      OrderIsDisplayOnly(a[..n], b[..j] + b[j + 1..]);
      TotalsMiddle(b[..j], b[j], b[j + 1..]);
      TotalsLast(a);
    }
  }

  /** The last group of one arrangement has its place in the other. */
  lemma PlaceIn(a: seq<AppGroup>, b: seq<AppGroup>) returns (j: nat)
    requires a != [] && multiset(a) == multiset(b)
    ensures j < |b| && b[j] == a[|a| - 1] && b == b[..j] + [b[j]] + b[j + 1..]
    ensures multiset(a[..|a| - 1]) == multiset(b[..j] + b[j + 1..])
  {
    var n := |a| - 1;
    assert a[n] in multiset(b);
    j :| 0 <= j < |b| && b[j] == a[n];
    assert a == a[..n] + [a[n]];
    assert b == b[..j] + [b[j]] + b[j + 1..];
    assert multiset(a[..n]) == multiset(a) - multiset{a[n]};
    assert multiset(b[..j] + b[j + 1..]) == multiset(b) - multiset{b[j]};
  }

  lemma TotalsMiddle(p: seq<AppGroup>, g: AppGroup, q: seq<AppGroup>)
    ensures AppTotals(p + [g] + q) == Plus(AppTotals(p + q), GroupResources(g))
  {
    hide GroupResources;
    TotalsSplit(p + [g], q);
    TotalsSplit(p, q);
    assert (p + [g])[..|p|] == p;
  }

  /** What a group adds to the total: its template's values for each of its pods. A custom value that is
      not positive counts as medium, and so does a template that is not known. */
  lemma PodsAdd(p: seq<AppGroup>, g: AppGroup, q: seq<AppGroup>)
    ensures AppTotals([]) == Resources(0, 0)
    ensures var n := if g.count > 0 then g.count else 0;
      var cores := if g.template == "light" then 100 else if g.template == "heavy" then 500
                   else if g.template == "custom" && g.customCores > 0 then g.customCores else 200;
      var mem := if g.template == "light" then 128 else if g.template == "heavy" then 1024
                 else if g.template == "custom" && g.customMem > 0 then g.customMem else 256;
      && AppTotals(p + [g] + q).cores == AppTotals(p + q).cores + n * cores
      && AppTotals(p + [g] + q).mem == AppTotals(p + q).mem + n * mem
  {
    hide AppTotals;
    TotalsMiddle(p, g, q);
    assert AppTotals([]) == Resources(0, 0) by { TotalsOfNone(); }
  }

  lemma TotalsOfNone()
    ensures AppTotals([]) == Resources(0, 0)
  {
  }

  // ---------------------------------------------------------------- the projected cluster

  datatype Shape = Shape(cores: int, mem: int, controlPlanes: int, dbGB: int, egressGB: int, resilience: string,
    environment: string)

  predicate HasApps(apps: seq<AppGroup>) { exists i :: 0 <= i < |apps| && apps[i].count > 0 }

  function Raw(c: Config): Resources { Plus(Plus(AppTotals(c.apps), DatabaseResources(c.databaseGB)), SYSTEM) }

  /** math.Ceil of n times 1.33. */
  function Inflated(n: int): int { -((-133 * n) / 100) }

  lemma InflatedIsLeast(n: int, m: int)
    ensures Inflated(n) <= m <==> 133 * n <= 100 * m
  {}

  function ShapeOf(c: Config): Shape {
    Shape(Inflated(Raw(c).cores), Inflated(Raw(c).mem), ControlPlanesFor(c.resilience), c.databaseGB, c.egressGB,
      c.resilience, c.environment)
  }

  /** The projection in numbers: a third more than what the pods, the database (two cores and two GiB at
      least) and the system take, and three control planes for high availability. */
  lemma ShapeIs(c: Config, n: int)
    ensures var s, apps, gb := ShapeOf(c), AppTotals(c.apps), c.databaseGB;
      var dbCores := if gb <= 0 then 0 else if gb < 150 then 2000 else gb / 50 * 1000;
      var dbMem := if gb <= 0 then 0 else if gb <= 20 then 2048 else 100 * gb;
      && (s.cores <= n <==> 133 * (apps.cores + dbCores + 2000) <= 100 * n)
      && (s.mem <= n <==> 133 * (apps.mem + dbMem + 4096) <= 100 * n)
      && s.controlPlanes == (if c.resilience in {"ha", "ha-mr"} then 3 else 1)
      && s.dbGB == gb && s.egressGB == c.egressGB && s.resilience == c.resilience && s.environment == c.environment
  {
    hide AppTotals;
    InflatedIsLeast(Raw(c).cores, n);
    InflatedIsLeast(Raw(c).mem, n);
  }

  method ProjectShape(c: Config) returns (s: Option<Shape>)
    ensures s == if HasApps(c.apps) || c.databaseGB > 0 then Some(ShapeOf(c)) else None
  {
    var hasApps := false;
    for i := 0 to |c.apps|
      invariant !hasApps
      invariant forall j :: 0 <= j < i ==> c.apps[j].count <= 0
    {
      if c.apps[i].count > 0 {
        hasApps := true;
        break;
      }
    }
    if !hasApps && c.databaseGB <= 0 {
      return None;
    }
    var apps := AppResources(c.apps);
    var raw := Plus(Plus(apps, DatabaseResources(c.databaseGB)), SYSTEM);
    return Some(Shape(Inflated(raw.cores), Inflated(raw.mem), ControlPlanesFor(c.resilience), c.databaseGB,
      c.egressGB, c.resilience, c.environment));
  }

  // ---------------------------------------------------------------- workers

  datatype CheapInstance = CheapInstance(sku: string, cores: int, mem: int, region: string)

  const NAMES: seq<string> := ["aws", "azure", "gcp", "hetzner"]

  /** The cheapest viable instance of each priced provider. */
  function Cheap(name: string): (e: CheapInstance)
    requires name in NAMES
    ensures e.cores > 0 && e.mem > 0
  {
    if name == "aws" then CheapInstance("t3.medium", 2, 4096, "us-east-1")
    else if name == "azure" then CheapInstance("Standard_D2s_v3", 2, 8192, "eastus")
    else if name == "gcp" then CheapInstance("n2-standard-2", 2, 8192, "us-central1")
    else CheapInstance("cx23", 2, 4096, "fsn1")
  }

  /** Go's division truncates; the dividend is not negative here. */
  function CeilDiv(a: int, b: int): int {
    if b <= 0 then 0 else if a + b - 1 < 0 then -(-(a + b - 1) / b) else (a + b - 1) / b
  }

  lemma Scaled(x: int, y: int, k: int)
    requires x <= y && k >= 0
    ensures x * k <= y * k
  {
    assert (y - x) * k >= 0;
  }

  lemma CeilDivIsLeast(a: int, b: int, n: int)
    requires a >= 0 && b > 0
    ensures CeilDiv(a, b) <= n <==> a <= n * b
  {
    var q, r := (a + b - 1) / b, (a + b - 1) % b;
    assert a + b - 1 == q * b + r;
    if q <= n {
      Scaled(q, n, b);
    } else {
      Scaled(n + 1, q, b);
      assert (n + 1) * b == n * b + b;
    }
  }

  function Workers(s: Shape, e: CheapInstance): int {
    var byCores := CeilDiv(s.cores, e.cores * 1000);
    var byMem := CeilDiv(s.mem, e.mem);
    var n := if byMem > byCores then byMem else byCores;
    if n < 1 then 1 else n
  }

  /** `n` workers carry the workload with a third to spare for fragmentation. */
  predicate Covers(c: Config, e: CheapInstance, n: int) {
    133 * Raw(c).cores <= 100 * (n * (e.cores * 1000)) && 133 * Raw(c).mem <= 100 * (n * e.mem)
  }

  lemma {:induction false} TotalsNotNegative(apps: seq<AppGroup>)
    ensures AppTotals(apps).cores >= 0 && AppTotals(apps).mem >= 0
  {
    hide GroupResources;
    if apps != [] {
      TotalsNotNegative(apps[..|apps| - 1]);
      GroupNotNegative(apps[|apps| - 1]);
    }
  }

  lemma GroupNotNegative(g: AppGroup)
    ensures GroupResources(g).cores >= 0 && GroupResources(g).mem >= 0
  {
    if g.count > 0 {
      Scaled(0, g.count, TemplateOf(g).cores);
      Scaled(0, g.count, TemplateOf(g).mem);
    }
  }

  /** The worker count is the least one, from 1 up, that covers the inflated requirement. */
  lemma WorkersAreLeast(c: Config, e: CheapInstance, n: int)
    requires e.cores > 0 && e.mem > 0
    ensures Workers(ShapeOf(c), e) <= n <==> n >= 1 && Covers(c, e, n)
  {
    hide AppTotals;
    TotalsNotNegative(c.apps);
    var s := ShapeOf(c);
    InflatedIsLeast(Raw(c).cores, n * (e.cores * 1000));
    InflatedIsLeast(Raw(c).mem, n * e.mem);
    CeilDivIsLeast(s.cores, e.cores * 1000, n);
    CeilDivIsLeast(s.mem, e.mem, n);
  }

  // ---------------------------------------------------------------- prices

  /** What the vendors answer: the monthly price of an instance, the rates for storage and egress
      a GB; None where a fetch fails. */
  datatype Market = Market(
    instance: (string, string, string) -> Option<real>,
    storage: (string, string) -> Option<real>,
    egress: string -> Option<real>)

  ghost predicate NotNegative(m: Market) {
    && (forall v, k, r :: m.instance(v, k, r).Some? ==> m.instance(v, k, r).value >= 0.0)
    && (forall v, r :: m.storage(v, r).Some? ==> m.storage(v, r).value >= 0.0)
    && (forall r :: m.egress(r).Some? ==> m.egress(r).value >= 0.0)
  }

  function RegionFor(name: string, c: Config, fallback: string): string {
    if name == "aws" && c.awsRegion != "" then c.awsRegion
    else if name == "azure" && c.azureLocation != "" then c.azureLocation
    else if name == "gcp" && c.gcpRegion != "" then c.gcpRegion
    else fallback
  }

  function Times(n: int, price: real): real { n as real * price }

  function PerGB(gb: int, rate: Option<real>): real {
    if gb <= 0 || rate.None? then 0.0 else Times(gb, rate.value)
  }

  function EgressRate(m: Market, name: string, region: string): Option<real> {
    if name == "aws" then m.egress(region) else None
  }

  /** The monthly price of the projected cluster, if the instance can be priced. */
  function Cost(m: Market, name: string, region: string, s: Shape): Option<real>
    requires name in NAMES
  {
    var e := Cheap(name);
    var price := m.instance(name, e.sku, region);
    if price.None? then None
    else Some(Times(s.controlPlanes + Workers(s, e), price.value)
              + PerGB(s.dbGB, m.storage(name, region)) + PerGB(s.egressGB, EgressRate(m, name, region)))
  }

  // ---------------------------------------------------------------- verdicts

  datatype Level = Comfortable | Tight | Infeasible

  function Rank(v: Level): int { match v case Comfortable => 0 case Tight => 1 case Infeasible => 2 }

  function VerdictFor(cost: real, postHeadroom: real, budget: real): Level {
    if budget <= 0.0 || postHeadroom <= 0.0 then Comfortable
    else if cost <= postHeadroom * 0.60 then Comfortable
    else if cost <= postHeadroom * 0.90 then Tight
    else Infeasible
  }

  function Verdict(cost: real, budget: real): Level { VerdictFor(cost, budget * (1.0 - 0.20), budget) }

  /** The bands in terms of the stated budget. */
  lemma Bands(cost: real, budget: real)
    ensures Verdict(cost, budget) == Comfortable <==> budget <= 0.0 || cost <= budget * 0.48
    ensures Verdict(cost, budget) == Infeasible <==> budget > 0.0 && cost > budget * 0.72
  {}

  lemma CostlierIsNotBetter(a: real, b: real, budget: real)
    requires a <= b
    ensures Rank(Verdict(a, budget)) <= Rank(Verdict(b, budget))
  {}

  /** Raising the budget never worsens a verdict, except when there was none: exactly a raise from
      no budget to a budget can. */
  lemma RaisingTheBudget(from: real, to: real)
    requires from <= to
    ensures (forall cost :: Rank(Verdict(cost, to)) <= Rank(Verdict(cost, from))) <==> !(from <= 0.0 < to)
  {
    if from <= 0.0 < to {
      assert Verdict(to, to) == Infeasible && Verdict(to, from) == Comfortable;
    }
  }

  // ---------------------------------------------------------------- the free tier

  datatype Quota = Quota(controlPlanes: int, workers: int, dbGB: int)

  const FREE_NAMES: set<string> := {"oci", "linode", "digitalocean", "hetzner"}

  function FreeTier(name: string): Quota { if name == "oci" then Quota(1, 1, 20) else Quota(0, 0, 0) }

  predicate QuotaFits(q: Quota, s: Shape) {
    q.controlPlanes > 0 && s.controlPlanes <= q.controlPlanes && s.dbGB <= q.dbGB
  }

  // ---------------------------------------------------------------- the table of verdicts

  datatype Why =
    | PriceUnavailable(sku: string, region: string)
    | Live(nodes: int, sku: string, dbGB: int, egressGB: int, region: string)
    | FitsQuota
    | NoFetcher

  datatype Row = Row(level: Level, minCost: real, why: Why, freeTierFit: bool)

  function PricedRow(c: Config, m: Market, s: Shape, name: string): Row
    requires name in NAMES
  {
    var e := Cheap(name);
    var region := RegionFor(name, c, e.region);
    var cost := Cost(m, name, region, s);
    if cost.None? then Row(Infeasible, 0.0, PriceUnavailable(e.sku, region), false)
    else Row(Verdict(cost.value, c.budget), cost.value,
             Live(s.controlPlanes + Workers(s, e), e.sku, s.dbGB, s.egressGB, region),
             name in FREE_NAMES && QuotaFits(FreeTier(name), s))
  }

  function FreeRow(s: Shape, name: string): Row {
    if QuotaFits(FreeTier(name), s) then Row(Comfortable, 0.0, FitsQuota, true)
    else Row(Infeasible, 0.0, NoFetcher, false)
  }

  function RowOf(c: Config, m: Market, name: string): Row {
    if name in NAMES then PricedRow(c, m, ShapeOf(c), name) else FreeRow(ShapeOf(c), name)
  }

  /** A priced row in numbers, for the least number `n` of workers that carry the projected cluster: the
      control planes and the workers at the instance's price, and the storage and the egress. */
  lemma PricedRowIs(c: Config, m: Market, name: string, n: int)
    requires name in {"aws", "azure", "gcp", "hetzner"}
    requires var s, mem := ShapeOf(c), if name == "aws" || name == "hetzner" then 4096 else 8192;
      && n >= 1 && s.cores <= n * 2000 && s.mem <= n * mem
      && (n == 1 || (n - 1) * 2000 < s.cores || (n - 1) * mem < s.mem)
    ensures var s, row := ShapeOf(c), RowOf(c, m, name);
      var sku := if name == "aws" then "t3.medium" else if name == "azure" then "Standard_D2s_v3"
                 else if name == "gcp" then "n2-standard-2" else "cx23";
      var region := if name == "aws" then (if c.awsRegion != "" then c.awsRegion else "us-east-1")
                    else if name == "azure" then (if c.azureLocation != "" then c.azureLocation else "eastus")
                    else if name == "gcp" then (if c.gcpRegion != "" then c.gcpRegion else "us-central1")
                    else "fsn1";
      var price, rate, out := m.instance(name, sku, region), m.storage(name, region), m.egress(region);
      && (price.None? ==> row == Row(Infeasible, 0.0, PriceUnavailable(sku, region), false))
      && (price.Some? ==>
            && row.minCost == (s.controlPlanes + n) as real * price.value
                 + (if c.databaseGB > 0 && rate.Some? then c.databaseGB as real * rate.value else 0.0)
                 + (if name == "aws" && c.egressGB > 0 && out.Some? then c.egressGB as real * out.value else 0.0)
            && row.level == Verdict(row.minCost, c.budget) && !row.freeTierFit
            && row.why == Live(s.controlPlanes + n, sku, c.databaseGB, c.egressGB, region))
  {
    hide ShapeOf, Verdict, Workers, RowOf, Cheap, RegionFor;
    CatalogIs(c, name);
    var e := Cheap(name);
    assert e.cores * 1000 == 2000;
    WorkersOf(c, e, n);
    PricedOf(c, m, name, e, RegionFor(name, c, e.region));
  }

  lemma CatalogIs(c: Config, name: string)
    requires name in {"aws", "azure", "gcp", "hetzner"}
    ensures name in NAMES
    ensures var e := Cheap(name);
      var region := RegionFor(name, c, e.region);
      && e.cores == 2 && e.mem == (if name == "aws" || name == "hetzner" then 4096 else 8192)
      && e.sku == (if name == "aws" then "t3.medium" else if name == "azure" then "Standard_D2s_v3"
                   else if name == "gcp" then "n2-standard-2" else "cx23")
      && region == (if name == "aws" then (if c.awsRegion != "" then c.awsRegion else "us-east-1")
                    else if name == "azure" then (if c.azureLocation != "" then c.azureLocation else "eastus")
                    else if name == "gcp" then (if c.gcpRegion != "" then c.gcpRegion else "us-central1")
                    else "fsn1")
  {
    assert NAMES[0] == "aws" && NAMES[1] == "azure" && NAMES[2] == "gcp" && NAMES[3] == "hetzner";
  }

  lemma PricedOf(c: Config, m: Market, name: string, e: CheapInstance, region: string)
    requires name in NAMES && e == Cheap(name) && region == RegionFor(name, c, e.region)
    ensures var s, row := ShapeOf(c), RowOf(c, m, name);
      var n := s.controlPlanes + Workers(s, e);
      var price, rate, out := m.instance(name, e.sku, region), m.storage(name, region), m.egress(region);
      && (price.None? ==> row == Row(Infeasible, 0.0, PriceUnavailable(e.sku, region), false))
      && (price.Some? ==>
            && row.minCost == n as real * price.value
                 + (if c.databaseGB > 0 && rate.Some? then c.databaseGB as real * rate.value else 0.0)
                 + (if name == "aws" && c.egressGB > 0 && out.Some? then c.egressGB as real * out.value else 0.0)
            && row.level == Verdict(row.minCost, c.budget) && !row.freeTierFit
            && row.why == Live(n, e.sku, c.databaseGB, c.egressGB, region))
  {
    hide Raw, Inflated, Workers, Verdict, Cheap, RegionFor;
    assert name in NAMES ==> name != "oci";
  }

  lemma WorkersOf(c: Config, e: CheapInstance, n: int)
    requires e.cores > 0 && e.mem > 0
    requires var s := ShapeOf(c);
      && n >= 1 && s.cores <= n * (e.cores * 1000) && s.mem <= n * e.mem
      && (n == 1 || (n - 1) * (e.cores * 1000) < s.cores || (n - 1) * e.mem < s.mem)
    ensures Workers(ShapeOf(c), e) == n
  {
    hide AppTotals, CeilDiv;
    TotalsNotNegative(c.apps);
    var s := ShapeOf(c);
    CeilDivIsLeast(s.cores, e.cores * 1000, n);
    CeilDivIsLeast(s.mem, e.mem, n);
    CeilDivIsLeast(s.cores, e.cores * 1000, n - 1);
    CeilDivIsLeast(s.mem, e.mem, n - 1);
  }

  /** A row of the free tier: a single control plane and a small database fit Oracle's, and nothing fits
      the others. */
  lemma FreeRowIs(c: Config, m: Market, name: string)
    requires name in {"oci", "linode", "digitalocean"}
    ensures RowOf(c, m, name) ==
      if name == "oci" && c.resilience !in {"ha", "ha-mr"} && c.databaseGB <= 20
      then Row(Comfortable, 0.0, FitsQuota, true) else Row(Infeasible, 0.0, NoFetcher, false)
  {
    hide Raw, Inflated;
  }

  /** Every provider of either table has its row, priced where it can be. */
  ghost predicate TableOf(c: Config, m: Market, rows: map<string, Row>) {
    && (forall n :: n in rows <==> n in {"aws", "azure", "gcp", "hetzner", "oci", "linode", "digitalocean"})
    && (forall n :: n in rows ==> rows[n] == RowOf(c, m, n))
  }

  /** The least positive price, or 0 where nobody has one. */
  ghost predicate IsFloor(rows: map<string, Row>, floor: real) {
    if exists n :: n in rows && rows[n].minCost > 0.0
    then (exists n :: n in rows && rows[n].minCost == floor) && floor > 0.0
         && forall n :: n in rows && rows[n].minCost > 0.0 ==> floor <= rows[n].minCost
    else floor == 0.0
  }

  ghost predicate Candidate(rows: map<string, Row>, n: string)
    ensures Candidate(rows, n) ==> n in rows
  {
    n in rows && rows[n].level == Comfortable && rows[n].minCost > 0.0
  }

  /** The cheapest comfortable provider with a price; the first by name of equal ones. */
  ghost predicate IsRecommended(rows: map<string, Row>, name: string) {
    if name == "" then forall n :: !Candidate(rows, n)
    else
      && name in NAMES && Candidate(rows, name)
      && (forall n :: Candidate(rows, n) ==> rows[name].minCost <= rows[n].minCost)
      && (forall n :: n in Earlier(name) && Candidate(rows, n) ==> rows[name].minCost < rows[n].minCost)
  }

  /** The priced providers that come before another one by name. */
  function Earlier(name: string): set<string> {
    if name == "azure" then {"aws"}
    else if name == "gcp" then {"aws", "azure"}
    else if name == "hetzner" then {"aws", "azure", "gcp"}
    else {}
  }

  datatype Blocking = ProdNeedsHA | TooFewControlPlanes(n: int) | EgressUnset | FloorExceeded(floor: real, budget: real)

  method AtoiOr(s: string, def: int) returns (n: int)
    ensures n == if s != "" && AllDigits(s) then Decimal(s) else def
  {
    n := 0;
    if s == "" {
      return def;
    }
    assert s[..0] == "" && Decimal("") == 0;
    hide Decimal;
    for i := 0 to |s|
      invariant AllDigits(s[..i]) && n == Decimal(s[..i])
    {
      if !Digit(s[i]) {
        return def;
      }
      OneDigitMore(s, i);
      n := n * 10 + Value(s[i]);
    }
    assert s[..|s|] == s;
  }

  /** The control-plane count of the configuration, 0 where it is not a number. */
  function ControlPlaneCount(c: Config): int {
    if c.controlPlanes != "" && AllDigits(c.controlPlanes) then Decimal(c.controlPlanes) else 0
  }

  ghost predicate Blocks(c: Config, floor: real, b: Blocking) {
    match b
    case ProdNeedsHA => c.environment == "prod" && c.resilience in {"", "single"}
    case TooFewControlPlanes(n) => c.resilience in {"ha", "ha-mr"} && n == ControlPlaneCount(c) && 0 < n < 3
    case EgressUnset => c.budget > 0.0 && c.egressGB == 0
    case FloorExceeded(f, bud) => f == floor && bud == c.budget && 0.0 < c.budget < floor
  }

  method CollectBlocking(s: Shape, c: Config) returns (out: seq<Blocking>)
    requires s == ShapeOf(c)
    ensures forall b :: b in out <==> !b.FloorExceeded? && Blocks(c, 0.0, b)
  {
    out := [];
    if s.environment == "prod" && (s.resilience == "" || s.resilience == "single") {
      out := out + [ProdNeedsHA];
    }
    if s.resilience == "ha" || s.resilience == "ha-mr" {
      var got := AtoiOr(c.controlPlanes, 0);
      if 0 < got < 3 {
        out := out + [TooFewControlPlanes(got)];
      }
    }
    if c.budget > 0.0 && s.egressGB == 0 {
      out := out + [EgressUnset];
    }
  }

  datatype Result = Result(perProvider: map<string, Row>, recommended: string, floor: real, blocking: seq<Blocking>)

  lemma FloorAdd(rows: map<string, Row>, floor: real, n: string, row: Row)
    requires IsFloor(rows, floor) && n !in rows
    ensures IsFloor(rows[n := row],
      if row.minCost > 0.0 && (floor == 0.0 || row.minCost < floor) then row.minCost else floor)
  {
    var more := rows[n := row];
    assert more[n] == row;
    forall k | k in rows ensures more[k] == rows[k] {}
    if exists k :: k in rows && rows[k].minCost > 0.0 {
      var k :| k in rows && rows[k].minCost > 0.0;
      assert more[k].minCost > 0.0;
      var l :| l in rows && rows[l].minCost == floor;
      assert more[l].minCost == floor;
    } else if row.minCost <= 0.0 {
      assert forall k :: k in more ==> more[k].minCost <= 0.0;
    }
  }

  method PriceAll(c: Config, m: Market, s: Shape) returns (rows: map<string, Row>, floor: real)
    requires s == ShapeOf(c)
    ensures forall n :: n in rows <==> n in NAMES
    ensures forall n :: n in rows ==> rows[n] == RowOf(c, m, n)
    ensures IsFloor(rows, floor)
  {
    hide IsFloor, PricedRow, ShapeOf;
    rows := map[];
    var best: Option<real> := None;
    FloorOfNone(rows);
    for i := 0 to |NAMES|
      invariant forall n :: n in rows <==> n in NAMES[..i]
      invariant forall n :: n in rows ==> rows[n] == RowOf(c, m, n)
      invariant best.Some? ==> best.value > 0.0
      invariant IsFloor(rows, if best.None? then 0.0 else best.value)
    {
      var name := NAMES[i];
      var row := PricedRow(c, m, s, name);
      assert name !in NAMES[..i];
      UnpricedIsZero(c, m, s, name);
      FloorAdd(rows, if best.None? then 0.0 else best.value, name, row);
      rows := rows[name := row];
      if row.why.Live? && row.minCost > 0.0 && (best.None? || row.minCost < best.value) {
        best := Some(row.minCost);
      }
    }
    floor := if best.None? then 0.0 else best.value;
  }

  lemma UnpricedIsZero(c: Config, m: Market, s: Shape, name: string)
    requires name in NAMES
    ensures var row := PricedRow(c, m, s, name); row.why.Live? || row.minCost == 0.0
  {}

  lemma FloorOfNone(rows: map<string, Row>)
    requires rows == map[]
    ensures IsFloor(rows, 0.0)
  {}

  /** The rows of the free tier alone; a map is visited in any order. */
  method AddFreeRows(c: Config, m: Market, s: Shape, priced: map<string, Row>, floor: real)
    returns (rows: map<string, Row>)
    requires s == ShapeOf(c) && IsFloor(priced, floor)
    requires forall n :: n in priced <==> n in NAMES
    requires forall n :: n in priced ==> priced[n] == RowOf(c, m, n)
    ensures TableOf(c, m, rows) && IsFloor(rows, floor)
  {
    hide IsFloor, TableOf, RowOf, QuotaFits;
    rows := priced;
    var rest := FREE_NAMES;
    while rest != {}
      invariant rest <= FREE_NAMES
      invariant forall n :: n in rows <==> n in NAMES || (n in FREE_NAMES && n !in rest)
      invariant forall n :: n in rows ==> rows[n] == RowOf(c, m, n)
      invariant IsFloor(rows, floor)
      decreases rest
    {
      var name :| name in rest;
      rest := rest - {name};
      if name in rows {
        continue;
      }
      var row := FreeRow(s, name);
      FloorAdd(rows, floor, name, row);
      FreeRowOf(c, m, name);
      rows := rows[name := row];
    }
    TableFrom(c, m, rows);
  }

  lemma TableFrom(c: Config, m: Market, rows: map<string, Row>)
    requires forall n :: n in rows <==> n in NAMES || n in FREE_NAMES
    requires forall n :: n in rows ==> rows[n] == RowOf(c, m, n)
    ensures TableOf(c, m, rows)
  {
    hide RowOf;
  }

  lemma FreeRowOf(c: Config, m: Market, name: string)
    requires name !in NAMES
    ensures RowOf(c, m, name) == FreeRow(ShapeOf(c), name)
  {
  }

  ghost predicate FirstBest(rows: map<string, Row>, i: nat, j: nat)
    requires j < i <= |NAMES|
  {
    && Candidate(rows, NAMES[j])
    && (forall k :: 0 <= k < i && Candidate(rows, NAMES[k]) ==> rows[NAMES[j]].minCost <= rows[NAMES[k]].minCost)
    && (forall k :: 0 <= k < j && Candidate(rows, NAMES[k]) ==> rows[NAMES[j]].minCost < rows[NAMES[k]].minCost)
  }

  /** The choice among the first `i` names. */
  ghost predicate RecommendedSoFar(rows: map<string, Row>, i: nat, name: string) {
    && i <= |NAMES|
    && (if name == "" then forall k :: 0 <= k < i ==> !Candidate(rows, NAMES[k])
        else exists j :: 0 <= j < i && NAMES[j] == name && FirstBest(rows, i, j))
  }

  method Recommend(c: Config, m: Market, rows: map<string, Row>) returns (name: string)
    requires TableOf(c, m, rows)
    ensures IsRecommended(rows, name)
  {
    hide RowOf, IsRecommended;
    name := "";
    var cost: Option<real> := None;
    for i := 0 to |NAMES|
      invariant RecommendedSoFar(rows, i, name)
      invariant if name == "" then cost == None else name in rows && cost == Some(rows[name].minCost)
    {
      assert NAMES[i] in rows && NAMES[i] != "";
      var row := rows[NAMES[i]];
      if row.level != Comfortable {
        assert !Candidate(rows, NAMES[i]);
        continue;
      }
      if row.minCost > 0.0 && (cost.None? || row.minCost < cost.value) {
        name := NAMES[i];
        cost := Some(row.minCost);
      }
    }
    AllRecommended(c, m, rows, name);
  }

  lemma AllRecommended(c: Config, m: Market, rows: map<string, Row>, name: string)
    requires TableOf(c, m, rows) && RecommendedSoFar(rows, |NAMES|, name)
    ensures IsRecommended(rows, name)
  {
    hide TableOf, Candidate;
    CandidatesArePriced(c, m, rows);
    assert forall n :: n in NAMES ==> exists k :: 0 <= k < |NAMES| && NAMES[k] == n;
    if name != "" {
      var j :| 0 <= j < |NAMES| && NAMES[j] == name && FirstBest(rows, |NAMES|, j);
      forall n | n in Earlier(name) && Candidate(rows, n) ensures rows[name].minCost < rows[n].minCost {
        var i :| 0 <= i < j && NAMES[i] == n;
      }
    }
  }

  lemma CandidatesArePriced(c: Config, m: Market, rows: map<string, Row>)
    requires TableOf(c, m, rows)
    ensures forall n :: Candidate(rows, n) ==> n in NAMES
  {}

  /** The gate. */
  method Check(c: Config, m: Market) returns (r: Option<Result>)
    ensures r.None? <==> !HasApps(c.apps) && c.databaseGB <= 0
    ensures r.Some? ==>
      && TableOf(c, m, r.value.perProvider)
      && IsFloor(r.value.perProvider, r.value.floor)
      && IsRecommended(r.value.perProvider, r.value.recommended)
      && forall b :: b in r.value.blocking <==> Blocks(c, r.value.floor, b)
  {
    hide TableOf, IsFloor, IsRecommended, ShapeOf;
    var shape := ProjectShape(c);
    if shape.None? {
      return None;
    }
    var blocking := CollectBlocking(shape.value, c);
    var priced, floor := PriceAll(c, m, shape.value);
    var rows := AddFreeRows(c, m, shape.value, priced, floor);
    var name := Recommend(c, m, rows);
    if c.budget > 0.0 && floor > 0.0 && floor > c.budget {
      blocking := blocking + [FloorExceeded(floor, c.budget)];
    }
    return Some(Result(rows, name, floor, blocking));
  }

  // ---------------------------------------------------------------- what the result means

  /** There is a recommendation exactly when the cheapest price is within 0.48 of the budget (or
      no budget is stated), and then it is the cheapest price. */
  lemma RecommendedIsTheFloor(c: Config, m: Market, r: Result)
    requires TableOf(c, m, r.perProvider) && IsFloor(r.perProvider, r.floor)
      && IsRecommended(r.perProvider, r.recommended)
    ensures r.recommended != "" <==> r.floor > 0.0 && (c.budget <= 0.0 || r.floor <= c.budget * 0.48)
    ensures r.recommended != "" ==> r.recommended in r.perProvider && r.perProvider[r.recommended].minCost == r.floor
  {
    hide TableOf, Verdict, RowOf;
    var rows := r.perProvider;
    PositiveRows(c, m, rows);
    if r.recommended != "" {
      var n :| n in rows && rows[n].minCost == r.floor;
      Bands(r.floor, c.budget);
      Bands(rows[r.recommended].minCost, c.budget);
      assert Candidate(rows, n);
    } else if r.floor > 0.0 {
      var n :| n in rows && rows[n].minCost == r.floor;
      Bands(r.floor, c.budget);
      assert !Candidate(rows, n);
    }
  }

  /** A row with a price was priced, and its verdict is that of its price. */
  lemma PositiveRows(c: Config, m: Market, rows: map<string, Row>)
    requires TableOf(c, m, rows)
    ensures forall n :: n in rows && rows[n].minCost > 0.0 ==>
      n in NAMES && rows[n].level == Verdict(rows[n].minCost, c.budget)
  {
    hide Verdict, Cost, QuotaFits, ShapeOf, Cheap;
  }

  /** A floor above the budget leaves every priced provider infeasible, and says so. */
  lemma FloorAboveBudget(c: Config, m: Market, r: Result)
    requires TableOf(c, m, r.perProvider) && IsFloor(r.perProvider, r.floor)
    requires 0.0 < c.budget < r.floor
    ensures forall n :: n in r.perProvider && r.perProvider[n].minCost > 0.0 ==> r.perProvider[n].level == Infeasible
    ensures Blocks(c, r.floor, FloorExceeded(r.floor, c.budget))
  {
    PositiveRows(c, m, r.perProvider);
    forall n | n in r.perProvider && r.perProvider[n].minCost > 0.0 ensures r.perProvider[n].level == Infeasible {
      Bands(r.perProvider[n].minCost, c.budget);
    }
  }

  // ---------------------------------------------------------------- asking for more

  /** `b` asks for at least what `a` does: no fewer pods in any group, perhaps further groups, no
      smaller database, no less egress, no lower tier; in the same regions, for the same money. */
  ghost predicate AsksMore(a: Config, b: Config) {
    && |a.apps| <= |b.apps|
    && (forall i :: 0 <= i < |a.apps| ==>
          a.apps[i].count <= b.apps[i].count && b.apps[i] == a.apps[i].(count := b.apps[i].count))
    && a.databaseGB <= b.databaseGB && a.egressGB <= b.egressGB
    && ControlPlanesFor(a.resilience) <= ControlPlanesFor(b.resilience)
    && a.awsRegion == b.awsRegion && a.azureLocation == b.azureLocation && a.gcpRegion == b.gcpRegion
    && a.budget == b.budget
  }

  predicate NoLess(a: Resources, b: Resources) { a.cores <= b.cores && a.mem <= b.mem }

  lemma GroupGrows(a: AppGroup, b: AppGroup)
    requires a.count <= b.count && b == a.(count := b.count)
    ensures NoLess(GroupResources(a), GroupResources(b))
  {
    GroupNotNegative(b);
    if a.count > 0 {
      Scaled(a.count, b.count, TemplateOf(a).cores);
      Scaled(a.count, b.count, TemplateOf(a).mem);
    }
  }

  lemma {:induction false} AppsGrow(a: seq<AppGroup>, b: seq<AppGroup>)
    requires |a| <= |b|
    requires forall i :: 0 <= i < |a| ==> a[i].count <= b[i].count && b[i] == a[i].(count := b[i].count)
    ensures NoLess(AppTotals(a), AppTotals(b))
    decreases |b|
  {
    hide GroupResources;
    if b != [] {
      var n := |b| - 1;
      if |a| == |b| {
        AppsGrow(a[..n], b[..n]);
        GroupGrows(a[n], b[n]);
      } else {
        AppsGrow(a, b[..n]);
        GroupNotNegative(b[n]);
      }
    }
  }

  lemma RawGrows(a: Config, b: Config)
    requires AsksMore(a, b)
    ensures NoLess(Raw(a), Raw(b))
  {
    hide AppTotals, DatabaseResources;
    AppsGrow(a.apps, b.apps);
    DatabaseGrows(a.databaseGB, b.databaseGB);
  }

  lemma DatabaseGrows(a: int, b: int)
    requires a <= b
    ensures NoLess(DatabaseResources(a), DatabaseResources(b))
  {}

  lemma WorkersGrow(a: Config, b: Config, e: CheapInstance)
    requires NoLess(Raw(a), Raw(b)) && e.cores > 0 && e.mem > 0
    ensures 1 <= Workers(ShapeOf(a), e) <= Workers(ShapeOf(b), e)
  {
    hide Raw, Workers, ShapeOf;
    var n := Workers(ShapeOf(b), e);
    WorkersAreLeast(b, e, n);
    WorkersAreLeast(a, e, n);
    WorkersAreLeast(a, e, Workers(ShapeOf(a), e));
  }

  lemma PerGBGrows(a: int, b: int, rate: Option<real>)
    requires a <= b && (rate.Some? ==> rate.value >= 0.0)
    ensures 0.0 <= PerGB(a, rate) <= PerGB(b, rate)
  {
    hide Times;
    if rate.Some? {
      TimesZero(rate.value);
    }
    if rate.Some? && b > 0 {
      ScaledReal(0, b, rate.value);
      if a > 0 {
        ScaledReal(0, a, rate.value);
        ScaledReal(a, b, rate.value);
      }
    }
  }

  lemma NotNegativeProduct(x: real, k: real)
    requires x >= 0.0 && k >= 0.0
    ensures x * k >= 0.0
  {}

  lemma TimesZero(k: real)
    ensures Times(0, k) == 0.0
  {}

  lemma ScaledReal(a: int, b: int, k: real)
    requires a <= b && k >= 0.0
    ensures Times(a, k) <= Times(b, k)
  {
    var x := b as real - a as real;
    NotNegativeProduct(x, k);
    assert Times(b, k) == (a as real + x) * k;
  }

  lemma CostGrows(a: Config, b: Config, m: Market, name: string, region: string)
    requires AsksMore(a, b) && NotNegative(m) && name in NAMES
    ensures Cost(m, name, region, ShapeOf(a)).Some? <==> Cost(m, name, region, ShapeOf(b)).Some?
    ensures Cost(m, name, region, ShapeOf(a)).Some? ==>
      0.0 <= Cost(m, name, region, ShapeOf(a)).value <= Cost(m, name, region, ShapeOf(b)).value
  {
    hide Workers, Raw, PerGB, Times;
    var e := Cheap(name);
    var price := m.instance(name, e.sku, region);
    if price.Some? {
      RawGrows(a, b);
      WorkersGrow(a, b, e);
      var x, y := ShapeOf(a).controlPlanes + Workers(ShapeOf(a), e), ShapeOf(b).controlPlanes + Workers(ShapeOf(b), e);
      TimesZero(price.value);
      ScaledReal(0, x, price.value);
      ScaledReal(x, y, price.value);
      PerGBGrows(a.databaseGB, b.databaseGB, m.storage(name, region));
      PerGBGrows(a.egressGB, b.egressGB, EgressRate(m, name, region));
    }
  }

  /** With the same prices, asking for more never lowers a provider's price and never improves its
      verdict, on any row of the table. */
  lemma AskingMoreNeverHelps(a: Config, b: Config, m: Market, ra: map<string, Row>, rb: map<string, Row>)
    requires AsksMore(a, b) && NotNegative(m)
    requires TableOf(a, m, ra) && TableOf(b, m, rb)
    ensures ra.Keys == rb.Keys
    ensures forall n :: n in ra ==> ra[n].minCost <= rb[n].minCost && Rank(ra[n].level) <= Rank(rb[n].level)
  {
    hide AsksMore, NotNegative;
    forall n | n in ra ensures ra[n].minCost <= rb[n].minCost && Rank(ra[n].level) <= Rank(rb[n].level) {
      RowGrows(a, b, m, n);
    }
  }

  lemma RowGrows(a: Config, b: Config, m: Market, n: string)
    requires AsksMore(a, b) && NotNegative(m)
    ensures RowOf(a, m, n).minCost <= RowOf(b, m, n).minCost
    ensures Rank(RowOf(a, m, n).level) <= Rank(RowOf(b, m, n).level)
  {
    hide Cost, Verdict, NotNegative;
    if n in NAMES {
      var region := RegionFor(n, a, Cheap(n).region);
      CostGrows(a, b, m, n, region);
      var x, y := Cost(m, n, region, ShapeOf(a)), Cost(m, n, region, ShapeOf(b));
      if x.Some? {
        CostlierIsNotBetter(x.value, y.value, a.budget);
      }
    }
  }
}
