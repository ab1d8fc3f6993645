/** The read-through price cache (internal/pricing/pricing.go): one file for each price, named by
    vendor, SKU and region with dots between them. */
module PriceCache {
  import opened Wrappers
  import opened Text

  datatype Query = Query(vendor: string, sku: string, region: string)

  /** `fetchedAt` is None for the zero time; times are in nanoseconds. */
  datatype Item = Item(vendor: string, sku: string, region: string, price: real, fetchedAt: Option<nat>)

  /** What a cache file holds: an item, or something that is not one. */
  datatype Content = Full(item: Item) | Garbage

  const TTL: nat := 24 * 3600 * 1_000_000_000

  // ---------------------------------------------------------------- file names

  function PathOf(vendor: string, sku: string, region: string): string {
    vendor + "." + sku + "." + region + ".json"
  }

  function Path(q: Query): string { PathOf(q.vendor, q.sku, q.region) }

  predicate DotFree(s: string) { '.' !in s }

  /** Two vendors are apart when neither continues the other after a dot. */
  predicate SameHead(a: string, b: string) { a == b || HasPrefix(a, b + ".") || HasPrefix(b, a + ".") }

  predicate SameTail(a: string, b: string) { a == b || HasSuffix(a, "." + b) || HasSuffix(b, "." + a) }

  lemma Heads(a: string, x: string, b: string, y: string)
    requires a + "." + x == b + "." + y && |a| <= |b|
    ensures a == b || HasPrefix(b, a + ".")
  {
    var s := a + "." + x;
    assert s[..|a|] == a && s[..|b|] == b;
    assert b[..|a|] == a;
    if |a| < |b| {
      assert b[|a|] == s[|a|] == '.';
      assert b[..|a| + 1] == a + ".";
    }
  }

  lemma Tails(x: string, a: string, y: string, b: string)
    requires x + "." + a == y + "." + b && |a| <= |b|
    ensures a == b || HasSuffix(b, "." + a)
  {
    var s := x + "." + a;
    assert s[|s| - |a|..] == a && s[|s| - |b|..] == b;
    assert b[|b| - |a|..] == a;
    if |a| < |b| {
      var k := |s| - |a| - 1;
      assert s[k] == '.';
      assert b[|b| - |a| - 1] == s[k];
      assert b[|b| - |a| - 1..] == "." + a;
    }
  }

  lemma Middle(v: string, s1: string, s2: string, r: string)
    requires PathOf(v, s1, r) == PathOf(v, s2, r)
    ensures s1 == s2
  {
    assert |s1| == |s2|;
    var p := PathOf(v, s1, r);
    assert p[|v| + 1..|v| + 1 + |s1|] == s1;
    assert p[|v| + 1..|v| + 1 + |s1|] == s2;
  }

  lemma SharedNeedsOverlap(v1: string, s1: string, r1: string, v2: string, s2: string, r2: string)
    requires PathOf(v1, s1, r1) == PathOf(v2, s2, r2)
    ensures SameHead(v1, v2) && SameTail(r1, r2)
    ensures v1 == v2 && r1 == r2 ==> s1 == s2
  {
    var p, q := PathOf(v1, s1, r1), PathOf(v2, s2, r2);
    assert p == v1 + "." + (s1 + "." + r1 + ".json") && q == v2 + "." + (s2 + "." + r2 + ".json");
    var cut1, cut2 := v1 + "." + s1 + "." + r1, v2 + "." + s2 + "." + r2;
    assert p[..|p| - 5] == cut1 && q[..|q| - 5] == cut2;
    assert cut1 == (v1 + "." + s1) + "." + r1 && cut2 == (v2 + "." + s2) + "." + r2;
    if |v1| <= |v2| {
      Heads(v1, s1 + "." + r1 + ".json", v2, s2 + "." + r2 + ".json");
    } else {
      Heads(v2, s2 + "." + r2 + ".json", v1, s1 + "." + r1 + ".json");
    }
    if |r1| <= |r2| {
      Tails(v1 + "." + s1, r1, v2 + "." + s2, r2);
    } else {
      Tails(v2 + "." + s2, r2, v1 + "." + s1, r1);
    }
    if v1 == v2 && r1 == r2 {
      Middle(v1, s1, s2, r1);
    }
  }

  /** Two SKUs that share a file, when the vendors and the regions overlap. */
  lemma OverlapShares(v1: string, r1: string, v2: string, r2: string) returns (s1: string, s2: string)
    requires SameHead(v1, v2) && SameTail(r1, r2)
    ensures PathOf(v1, s1, r1) == PathOf(v2, s2, r2)
  {
    hide PathOf, SameHead, SameTail;
    // The vendors and the regions, without what they share.
    var x1 := if |v1| > |v2| then v1[|v2| + 1..] + "." else "";
    var x2 := if |v2| > |v1| then v2[|v1| + 1..] + "." else "";
    var y1 := if |r1| > |r2| then "." + r1[..|r1| - |r2| - 1] else "";
    var y2 := if |r2| > |r1| then "." + r2[..|r2| - |r1| - 1] else "";
    s1, s2 := x2 + "sku" + y2, x1 + "sku" + y1;
    OverlapHead(v1, v2, x1, x2);
    OverlapTail(r1, r2, y1, y2);
    Regroup(v1, x2, "sku", y2, r1);
    Regroup(v2, x1, "sku", y1, r2);
  }

  lemma Regroup(v: string, x: string, m: string, y: string, r: string)
    ensures PathOf(v, x + m + y, r) == (v + "." + x) + m + (y + "." + r) + ".json"
  {
    assert v + "." + (x + m + y) == (v + "." + x) + m + y;
    assert (v + "." + x) + m + y + "." + r == (v + "." + x) + m + (y + "." + r);
  }

  lemma OverlapHead(a: string, b: string, x: string, y: string)
    requires SameHead(a, b)
    requires x == (if |a| > |b| then a[|b| + 1..] + "." else "")
    requires y == (if |b| > |a| then b[|a| + 1..] + "." else "")
    ensures a + "." + y == b + "." + x
  {
    if |a| > |b| {
      assert a == b + "." + a[|b| + 1..];
    } else if |b| > |a| {
      assert b == a + "." + b[|a| + 1..];
    }
  }

  lemma OverlapTail(a: string, b: string, x: string, y: string)
    requires SameTail(a, b)
    requires x == (if |a| > |b| then "." + a[..|a| - |b| - 1] else "")
    requires y == (if |b| > |a| then "." + b[..|b| - |a| - 1] else "")
    ensures y + "." + a == x + "." + b
  {
    if |a| > |b| {
      assert a == a[..|a| - |b| - 1] + ("." + b);
    } else if |b| > |a| {
      assert b == b[..|b| - |a| - 1] + ("." + a);
    }
  }

  /** Exactly when two different pairs of vendor and region share a file for some SKUs. */
  lemma SharedIffOverlap(v1: string, r1: string, v2: string, r2: string)
    ensures (exists s1, s2 :: PathOf(v1, s1, r1) == PathOf(v2, s2, r2)) <==> SameHead(v1, v2) && SameTail(r1, r2)
  {
    if SameHead(v1, v2) && SameTail(r1, r2) {
      var s1, s2 := OverlapShares(v1, r1, v2, r2);
      assert PathOf(v1, s1, r1) == PathOf(v2, s2, r2);
    }
    if exists s1, s2 :: PathOf(v1, s1, r1) == PathOf(v2, s2, r2) {
      var s1, s2 :| PathOf(v1, s1, r1) == PathOf(v2, s2, r2);
      SharedNeedsOverlap(v1, s1, r1, v2, s2, r2);
    }
  }

  /** With no dot in vendors and regions, no two queries share a file, whatever the SKUs are. */
  lemma DotFreeInjective(a: Query, b: Query)
    requires DotFree(a.vendor) && DotFree(a.region) && DotFree(b.vendor) && DotFree(b.region)
    requires Path(a) == Path(b)
    ensures a == b
  {
    SharedNeedsOverlap(a.vendor, a.sku, a.region, b.vendor, b.sku, b.region);
    DotInHead(a.vendor, b.vendor);
    DotInHead(b.vendor, a.vendor);
    DotInTail(a.region, b.region);
    DotInTail(b.region, a.region);
  }

  lemma DotInHead(a: string, b: string)
    ensures HasPrefix(a, b + ".") ==> !DotFree(a)
  {
    if HasPrefix(a, b + ".") {
      assert a[|b|] == (b + ".")[|b|];
    }
  }

  lemma DotInTail(a: string, b: string)
    ensures HasSuffix(a, "." + b) ==> !DotFree(a)
  {
    if HasSuffix(a, "." + b) {
      assert a[|a| - |b| - 1] == ("." + b)[0];
    }
  }

  // ---------------------------------------------------------------- steps

  /** One answer of a vendor's API. */
  datatype Ask = Ask(query: Query, price: real, at: nat)

  /** One answer of Fetch to its caller. */
  datatype Return = Return(query: Query, item: Item, at: nat)

  datatype State = State(clock: nat, files: map<string, Content>, log: seq<Ask>, items: seq<Item>,
    returned: seq<Return>)

  datatype Fate = Written | NotWritten | Torn

  /** Calls of Fetch, cut where another call can come between: the look in the cache, the vendor's
      answer, the write. Time may pass anywhere, and a file may be lost. */
  datatype Step =
    | Tick(d: nat)
    | Lookup(q: Query)
    | Answer(q: Query, raw: Item)
    | Store(k: nat, fate: Fate)
    | Lose(path: string)

  const START := State(0, map[], [], [], [])

  predicate Fresh(item: Item, clock: nat) { item.fetchedAt.Some? && clock - item.fetchedAt.value <= TTL }

  function ReadCache(t: State, q: Query): Option<Item> {
    if Path(q) in t.files && t.files[Path(q)].Full? && Fresh(t.files[Path(q)].item, t.clock)
    then Some(t.files[Path(q)].item) else None
  }

  /** What Fetch makes of a fetcher's item. */
  function Completed(q: Query, raw: Item, clock: nat): Item {
    raw.(vendor := q.vendor, sku := q.sku, region := q.region,
         fetchedAt := if raw.fetchedAt.None? then Some(clock) else raw.fetchedAt)
  }

  function PathFor(item: Item): string { PathOf(item.vendor, item.sku, item.region) }

  predicate Enabled(t: State, a: Step) {
    match a
    case Answer(q, raw) => raw.fetchedAt == None || raw.fetchedAt == Some(t.clock)
    case Store(k, fate) => k < |t.items|
    case _ => true
  }

  function Apply(t: State, a: Step): State
    requires Enabled(t, a)
  {
    match a
    case Tick(d) => t.(clock := t.clock + d)
    case Lookup(q) =>
      var hit := ReadCache(t, q);
      if hit.Some? then t.(returned := t.returned + [Return(q, hit.value, t.clock)]) else t
    case Answer(q, raw) =>
      var item := Completed(q, raw, t.clock);
      t.(log := t.log + [Ask(q, raw.price, t.clock)],
         items := t.items + [item],
         returned := t.returned + [Return(q, item, t.clock)])
    case Store(k, fate) =>
      var path := PathFor(t.items[k]);
      (match fate
       case Written => t.(files := t.files[path := Full(t.items[k])])
       case Torn => t.(files := t.files[path := Garbage])
       case NotWritten => t)
    case Lose(path) => t.(files := t.files - {path})
  }

  function Run(steps: seq<Step>): Option<State> {
    if steps == [] then Some(START)
    else
      var before := Run(steps[..|steps| - 1]);
      var a := steps[|steps| - 1];
      if before.Some? && Enabled(before.value, a) then Some(Apply(before.value, a)) else None
  }

  // ---------------------------------------------------------------- what comes back

  /** The item is what the vendor answered to this very query, at most a day before. */
  ghost predicate Honest(log: seq<Ask>, r: Return) {
    && r.item.vendor == r.query.vendor && r.item.sku == r.query.sku && r.item.region == r.query.region
    && exists k :: 0 <= k < |log| && log[k].query == r.query && log[k].price == r.item.price
         && log[k].at <= r.at <= log[k].at + 24 * 60 * 60 * 1_000_000_000
  }

  /** The queries that the steps ask. */
  ghost predicate Asks(steps: seq<Step>, queries: iset<Query>) {
    forall i :: 0 <= i < |steps| ==>
      (steps[i].Lookup? ==> steps[i].q in queries) && (steps[i].Answer? ==> steps[i].q in queries)
  }

  ghost predicate Injective(queries: iset<Query>) {
    forall a, b :: a in queries && b in queries && Path(a) == Path(b) ==> a == b
  }

  function QueryOf(item: Item): Query { Query(item.vendor, item.sku, item.region) }

  ghost predicate Logged(t: State, queries: iset<Query>, item: Item) {
    && QueryOf(item) in queries && item.fetchedAt.Some? && item.fetchedAt.value <= t.clock
    && exists k :: 0 <= k < |t.log| && t.log[k] == Ask(QueryOf(item), item.price, item.fetchedAt.value)
  }

  ghost predicate Sound(t: State, queries: iset<Query>) {
    && (forall k :: 0 <= k < |t.items| ==> Logged(t, queries, t.items[k]))
    && (forall p :: p in t.files && t.files[p].Full? ==>
      p == PathFor(t.files[p].item) && Logged(t, queries, t.files[p].item))
    && (forall k :: 0 <= k < |t.returned| ==> Honest(t.log, t.returned[k]))
  }

  lemma LoggedStays(t: State, u: State, queries: iset<Query>, item: Item)
    requires Logged(t, queries, item) && t.clock <= u.clock && t.log <= u.log
    ensures Logged(u, queries, item)
  {
    var k :| 0 <= k < |t.log| && t.log[k] == Ask(QueryOf(item), item.price, item.fetchedAt.value);
    assert u.log[k] == t.log[k];
  }

  lemma HonestStays(log: seq<Ask>, more: seq<Ask>, r: Return)
    requires Honest(log, r) && log <= more
    ensures Honest(more, r)
  {
    var k :| 0 <= k < |log| && log[k].query == r.query && log[k].price == r.item.price
      && log[k].at <= r.at <= log[k].at + 24 * 60 * 60 * 1_000_000_000;
    assert more[k] == log[k];
  }

  lemma AllStay(t: State, u: State, queries: iset<Query>)
    requires Sound(t, queries) && t.clock <= u.clock && t.log <= u.log
    ensures forall k :: 0 <= k < |t.items| ==> Logged(u, queries, t.items[k])
    ensures forall p :: p in t.files && t.files[p].Full? ==> Logged(u, queries, t.files[p].item)
    ensures forall k :: 0 <= k < |t.returned| ==> Honest(u.log, t.returned[k])
  {
    hide Logged, Honest;
    forall k | 0 <= k < |t.items| ensures Logged(u, queries, t.items[k]) {
      LoggedStays(t, u, queries, t.items[k]);
    }
    forall p | p in t.files && t.files[p].Full? ensures Logged(u, queries, t.files[p].item) {
      LoggedStays(t, u, queries, t.files[p].item);
    }
    forall k | 0 <= k < |t.returned| ensures Honest(u.log, t.returned[k]) {
      HonestStays(t.log, u.log, t.returned[k]);
    }
  }

  lemma AnswerSound(t: State, q: Query, raw: Item, queries: iset<Query>)
    requires Sound(t, queries) && Enabled(t, Answer(q, raw)) && q in queries
    ensures Sound(Apply(t, Answer(q, raw)), queries)
  {
    var u := Apply(t, Answer(q, raw));
    AllStay(t, u, queries);
    var item := Completed(q, raw, t.clock);
    assert QueryOf(item) == q;
    var n := |t.log|;
    assert u.log[n] == Ask(q, item.price, t.clock);
    assert Logged(u, queries, item);
    assert Honest(u.log, Return(q, item, t.clock));
  }

  lemma LookupSound(t: State, q: Query, queries: iset<Query>)
    requires Sound(t, queries) && q in queries && Injective(queries)
    ensures Sound(Apply(t, Lookup(q)), queries)
  {
    var hit := ReadCache(t, q);
    if hit.Some? {
      var item := hit.value;
      assert Path(QueryOf(item)) == Path(q);
      assert QueryOf(item) == q;
      var k :| 0 <= k < |t.log| && t.log[k] == Ask(q, item.price, item.fetchedAt.value);
      assert Honest(t.log, Return(q, item, t.clock));
    }
  }

  lemma OtherSound(t: State, a: Step, queries: iset<Query>)
    requires Sound(t, queries) && Enabled(t, a) && (a.Tick? || a.Store? || a.Lose?)
    ensures Sound(Apply(t, a), queries)
  {
    hide Logged, Honest;
    AllStay(t, Apply(t, a), queries);
  }

  lemma {:induction false} RunSound(steps: seq<Step>, queries: iset<Query>)
    requires Run(steps).Some? && Asks(steps, queries) && Injective(queries)
    ensures Sound(Run(steps).value, queries)
  {
    hide Sound, Apply, Enabled, Injective;
    if steps == [] {
      StartSound(queries);
    } else {
      var n := |steps| - 1;
      var a := steps[n];
      RunSound(steps[..n], queries);
      var t := Run(steps[..n]).value;
      match a {
        case Answer(q, raw) => AnswerSound(t, q, raw, queries);
        case Lookup(q) => LookupSound(t, q, queries);
        case _ => OtherSound(t, a, queries);
      }
    }
  }

  lemma StartSound(queries: iset<Query>)
    ensures Sound(START, queries)
  {}

  /** A run in which two queries share a file: the second one is answered with the first one's
      price. */
  function Mixup(a: Query, b: Query): seq<Step> {
    [Answer(a, Item("", "", "", 1.0, None)), Store(0, Written), Lookup(b)]
  }

  lemma MixupReturns(a: Query, b: Query)
    requires Path(a) == Path(b) && a != b
    ensures Run(Mixup(a, b)).Some?
    ensures var t := Run(Mixup(a, b)).value;
      |t.returned| == 2 && t.returned[1].query == b && !Honest(t.log, t.returned[1])
  {
    var steps := Mixup(a, b);
    assert steps[..2][..1] == steps[..1] && steps[..1][..0] == [];
    var raw := Item("", "", "", 1.0, None);
    var t1 := Apply(START, steps[0]);
    assert Run(steps[..1]) == Some(t1);
    var t2 := Apply(t1, steps[1]);
    assert Run(steps[..2]) == Some(t2);
    assert PathFor(t1.items[0]) == Path(b);
    assert ReadCache(t2, b) == Some(Completed(a, raw, 0));
    var t := Apply(t2, steps[2]);
    assert t.log == [Ask(a, 1.0, 0)];
  }

  ghost predicate AllHonest(steps: seq<Step>) {
    Run(steps).Some? ==>
      forall k :: 0 <= k < |Run(steps).value.returned| ==> Honest(Run(steps).value.log, Run(steps).value.returned[k])
  }

  /** The cache agrees with the vendors in every run exactly when no two of the queries share a
      file. */
  lemma HonestIffInjective(queries: iset<Query>)
    ensures Injective(queries) <==> forall steps :: Asks(steps, queries) ==> AllHonest(steps)
  {
    if Injective(queries) {
      forall steps | Asks(steps, queries) ensures AllHonest(steps) {
        if Run(steps).Some? {
          RunSound(steps, queries);
        }
      }
    } else {
      var a, b :| a in queries && b in queries && Path(a) == Path(b) && a != b;
      MixupReturns(a, b);
      var t := Run(Mixup(a, b)).value;
      assert !Honest(t.log, t.returned[1]);
      assert Asks(Mixup(a, b), queries) && !AllHonest(Mixup(a, b));
    }
  }

  /** In particular for every vendor and region without a dot in its name, with any SKUs. */
  lemma DotFreeHonest(steps: seq<Step>)
    requires Asks(steps, iset q: Query | DotFree(q.vendor) && DotFree(q.region))
    ensures AllHonest(steps)
  {
    var queries := iset q: Query | DotFree(q.vendor) && DotFree(q.region);
    forall a, b | a in queries && b in queries && Path(a) == Path(b) ensures a == b {
      DotFreeInjective(a, b);
    }
    HonestIffInjective(queries);
  }

  // ---------------------------------------------------------------- what the cache saves

  /** The time that passes during some steps. */
  function Elapsed(steps: seq<Step>): nat {
    if steps == [] then 0
    else Elapsed(steps[..|steps| - 1]) + (if steps[|steps| - 1].Tick? then steps[|steps| - 1].d else 0)
  }

  predicate LeavesAlone(a: Step, items: seq<Item>, path: string) {
    (a.Lose? ==> a.path != path) && (a.Store? ==> a.k < |items| && PathFor(items[a.k]) != path)
  }

  /** No step of the run loses or rewrites the file. */
  ghost predicate Untouched(t: State, steps: seq<Step>, path: string)
    decreases |steps|
  {
    steps == [] ||
    (var before := steps[..|steps| - 1]; var a := steps[|steps| - 1];
     Untouched(t, before, path) && LeavesAlone(a, After(t, before).items, path))
  }

  /** Steps that cannot be taken are passed over. */
  function After(t: State, steps: seq<Step>): State {
    if steps == [] then t
    else
      var u := After(t, steps[..|steps| - 1]);
      if Enabled(u, steps[|steps| - 1]) then Apply(u, steps[|steps| - 1]) else u
  }

  lemma {:induction false} FileStays(t: State, steps: seq<Step>, path: string)
    requires path in t.files && Untouched(t, steps, path)
    ensures var u := After(t, steps);
      path in u.files && u.files[path] == t.files[path] && u.clock == t.clock + Elapsed(steps)
  {
    if steps != [] {
      FileStays(t, steps[..|steps| - 1], path);
    }
  }

  /** A price that was written is served from the cache for exactly a day, whatever else is asked. */
  lemma ServedForADay(t: State, k: nat, steps: seq<Step>, q: Query)
    requires k < |t.items| && QueryOf(t.items[k]) == q && t.items[k].fetchedAt == Some(t.clock)
    requires Untouched(Apply(t, Store(k, Written)), steps, Path(q))
    ensures ReadCache(After(Apply(t, Store(k, Written)), steps), q) ==
      if Elapsed(steps) <= 24 * 60 * 60 * 1_000_000_000 then Some(t.items[k]) else None
  {
    FileStays(Apply(t, Store(k, Written)), steps, Path(q));
  }

  // ---------------------------------------------------------------- Fetch itself

  datatype Result<T> = Ok(value: T) | Unavailable | NoFetcher(vendor: string) | FetchFailed

  /** What the world does during one call: how long it takes, what the vendor's fetcher returns if
      it is asked, and what becomes of the write. */
  datatype World = World(waited: nat, reply: Option<Item>, fate: Fate)

  /** Every fetcher stamps its item with the current time, or leaves the zero time. */
  predicate Stamped(w: World, clock: nat) {
    w.reply.Some? ==> w.reply.value.fetchedAt == None || w.reply.value.fetchedAt == Some(clock + w.waited)
  }

  predicate Hit(t: State, w: World, q: Query) { ReadCache(t.(clock := t.clock + w.waited), q).Some? }

  /** What one call adds to the run: a look in the cache, and the vendor's answer and the write
      where those were needed. */
  function CallSteps(t: State, vendors: set<string>, w: World, q: Query): seq<Step> {
    [Tick(w.waited), Lookup(q)] +
    (if Hit(t, w, q) || q.vendor !in vendors || w.reply.None? then []
     else [Answer(q, w.reply.value), Store(|t.items|, w.fate)])
  }

  class Cache {
    const vendors: set<string>
    var disabled: bool
    var airgapped: bool
    var clock: nat
    var files: map<string, Content>
    ghost var steps: seq<Step>

    ghost predicate Valid() reads this {
      Run(steps).Some? && Run(steps).value.clock == clock && Run(steps).value.files == files
    }

    ghost function Past(): State
      reads this
      requires Valid()
    {
      Run(steps).value
    }

    constructor (vendors: set<string>, disabled: bool, airgapped: bool)
      ensures Valid() && steps == [] && this.vendors == vendors
      ensures this.disabled == disabled && this.airgapped == airgapped
    {
      this.vendors := vendors;
      this.disabled := disabled;
      this.airgapped := airgapped;
      clock := 0;
      files := map[];
      steps := [];
    }

    ghost method Record(a: Step)
      requires Run(steps).Some? && Enabled(Run(steps).value, a)
      modifies this`steps
      ensures steps == old(steps) + [a]
      ensures Run(steps) == Some(Apply(old(Run(steps).value), a))
    {
      steps := steps + [a];
      assert steps[..|steps| - 1] == old(steps);
    }

    method Fetch(q: Query, w: World) returns (r: Result<Item>)
      requires Valid() && Stamped(w, clock)
      modifies this`clock, this`files, this`steps
      ensures Valid()
      ensures disabled || airgapped ==> r == Unavailable && steps == old(steps) && files == old(files)
      ensures !disabled && !airgapped ==>
        && steps == old(steps) + CallSteps(old(Past()), vendors, w, q)
        && (Hit(old(Past()), w, q) ==> files == old(files) && r == Ok(old(files[Path(q)].item)))
        && (!Hit(old(Past()), w, q) ==>
             r == if q.vendor !in vendors then NoFetcher(q.vendor)
                  else if w.reply.None? then FetchFailed
                  else Ok(Completed(q, w.reply.value, clock)))
      ensures r.Ok? ==> Past().returned == old(Past().returned) + [Return(q, r.value, clock)]
      ensures !r.Ok? ==> Past().returned == old(Past().returned) && files == old(files)
    {
      hide Run, Path, Fresh, Completed;
      if disabled || airgapped {
        return Unavailable;
      }
      clock := clock + w.waited;
      Record(Tick(w.waited));
      Record(Lookup(q));
      var path := Path(q);
      if path in files && files[path].Full? && Fresh(files[path].item, clock) {
        return Ok(files[path].item);
      }
      if q.vendor !in vendors {
        return NoFetcher(q.vendor);
      }
      if w.reply.None? {
        return FetchFailed;
      }
      var item := Completed(q, w.reply.value, clock);
      KeepItem(q, w.reply.value, item, w.fate);
      return Ok(item);
    }

    /** writeCache, after the vendor's answer. */
    method KeepItem(q: Query, raw: Item, item: Item, fate: Fate)
      requires Valid() && (raw.fetchedAt == None || raw.fetchedAt == Some(clock)) && item == Completed(q, raw, clock)
      modifies this`files, this`steps
      ensures Valid()
      ensures steps == old(steps) + [Answer(q, raw), Store(|old(Past()).items|, fate)]
      ensures Past().returned == old(Past().returned) + [Return(q, item, clock)]
    {
      ghost var n := |Past().items|;
      Record(Answer(q, raw));
      Record(Store(n, fate));
      match fate {
        case Written => files := files[PathFor(item) := Full(item)];
        case Torn => files := files[PathFor(item) := Garbage];
        case NotWritten =>
      }
    }
  }
}
