/** The multi-cloud cost comparison (internal/cost/compare.go): which providers and regions are
    priced, and in which order the rows come out. */
module Compare {
  import opened Wrappers
  import Fanout
  import Sorting
  import Text

  /** One row of the table: its estimate, or the error instead of one. */
  datatype Row = Row(provider: string, region: string, failed: bool, total: real)

  // ---------------------------------------------------------------- which providers

  datatype Scope = All | CloudOnly | OnPremOnly

  datatype Options = Options(airgapped: bool, scope: Scope, infra: string, infraDefaulted: bool, skip: string)

  const ON_PREM: set<string> := {"proxmox", "openstack", "vsphere", "docker"}

  /** strings.Split at commas. */
  function Pieces(s: string): (ps: seq<string>)
    ensures ps != []
    decreases |s|
  {
    if s == "" then [""]
    else if s[0] == ',' then [""] + Pieces(s[1..])
    else
      var ps := Pieces(s[1..]);
      [[s[0]] + ps[0]] + ps[1..]
  }

  function Clean(piece: string): string { Text.Lower(Text.Trim(Text.Unicode, piece)) }

  /** The names that --skip-providers lists. */
  predicate Skips(raw: string, name: string) {
    name != "" && exists i :: 0 <= i < |Pieces(raw)| && Clean(Pieces(raw)[i]) == name
  }

  /** The text between two neighbouring commas, or a comma and an end. */
  ghost predicate Between(raw: string, i: int, j: int) {
    && 0 <= i <= j <= |raw| && ',' !in raw[i..j]
    && (i == 0 || raw[i - 1] == ',') && (j == |raw| || raw[j] == ',')
  }

  lemma TailSlice(s: string, i: nat, j: nat)
    requires s != "" && i <= j < |s|
    ensures s[1..][i..j] == s[i + 1..j + 1] && s[0..j + 1] == [s[0]] + s[1..][0..j]
  {
  }

  lemma BetweenBehind(s: string, i: nat, j: nat)
    requires s != "" && i <= j < |s|
    ensures Between(s, i + 1, j + 1) <==> Between(s[1..], i, j) && (i == 0 ==> s[0] == ',')
  {
    TailSlice(s, i, j);
  }

  lemma BetweenFront(s: string, j: nat)
    requires s != "" && s[0] != ',' && j < |s|
    ensures Between(s, 0, j + 1) <==> Between(s[1..], 0, j)
    ensures !Between(s, 0, 0)
  {
    TailSlice(s, 0, j);
    assert s[0..0] == "";
  }

  lemma BetweenComma(s: string, j: nat)
    requires s == "" || s[0] == ','
    ensures Between(s, 0, j) <==> j == 0
  {
    if s != "" && 0 < j <= |s| {
      assert s[0..j][0] == ',';
    }
  }

  lemma PiecesStep(s: string)
    ensures Pieces(s) ==
      if s == "" then [""]
      else if s[0] == ',' then [""] + Pieces(s[1..])
      else [[s[0]] + Pieces(s[1..])[0]] + Pieces(s[1..])[1..]
  {
  }

  lemma {:induction false} PieceAt(s: string, k: nat) returns (i: nat, j: nat)
    requires k < |Pieces(s)|
    ensures i <= j <= |s| && Between(s, i, j) && s[i..j] == Pieces(s)[k] && (k == 0 <==> i == 0)
    decreases |s|
  {
    PiecesStep(s);
    hide Pieces;
    if s == "" || (k == 0 && s[0] == ',') {
      i, j := 0, 0;
      BetweenComma(s, 0);
    } else {
      i, j := PieceAt(s[1..], if s[0] == ',' then k - 1 else k);
      TailSlice(s, i, j);
      BetweenBehind(s, i, j);
      if i == 0 && s[0] != ',' {
        BetweenFront(s, j);
        j := j + 1;
      } else {
        i, j := i + 1, j + 1;
      }
    }
  }

  lemma {:induction false} PieceOf(s: string, i: nat, j: nat) returns (k: nat)
    requires Between(s, i, j)
    ensures k < |Pieces(s)| && s[i..j] == Pieces(s)[k] && (k == 0 <==> i == 0)
    decreases |s|
  {
    PiecesStep(s);
    assert i <= j <= |s|;
    hide Pieces, Between;
    if i > 0 {
      TailSlice(s, i - 1, j - 1);
      BetweenBehind(s, i - 1, j - 1);
      k := PieceOf(s[1..], i - 1, j - 1);
      if s[0] == ',' {
        k := k + 1;
      }
    } else if s == "" || s[0] == ',' {
      BetweenComma(s, j);
      k := 0;
    } else {
      BetweenFront(s, if j == 0 then 0 else j - 1);
      TailSlice(s, 0, j - 1);
      k := PieceOf(s[1..], 0, j - 1);
    }
  }

  /** A name is skipped when it stands between two commas, whatever its case and the white space
      around it. */
  lemma SkipsIs(raw: string, name: string)
    ensures Skips(raw, name) <==>
      name != "" && exists i, j :: Between(raw, i, j) && Text.Lower(Text.Trim(Text.Unicode, raw[i..j])) == name
  {
    hide Text.Lower, Text.Trim, Pieces;
    if Skips(raw, name) {
      var k :| 0 <= k < |Pieces(raw)| && Clean(Pieces(raw)[k]) == name;
      var i, j := PieceAt(raw, k);
    }
    if name != "" && exists i, j :: Between(raw, i, j) && Text.Lower(Text.Trim(Text.Unicode, raw[i..j])) == name {
      var i, j :| Between(raw, i, j) && Text.Lower(Text.Trim(Text.Unicode, raw[i..j])) == name;
      var k := PieceOf(raw, i, j);
    }
  }

  method ParseProviderList(raw: string) returns (names: set<string>)
    ensures forall n :: n in names <==> Skips(raw, n)
    ensures forall n :: n in names <==>
      n != "" && exists i, j :: Between(raw, i, j) && Text.Lower(Text.Trim(Text.Unicode, raw[i..j])) == n
  {
    var ps := Pieces(raw);
    names := {};
    for i := 0 to |ps|
      invariant forall n :: n in names <==> n != "" && exists j :: 0 <= j < i && Clean(ps[j]) == n
    {
      if Clean(ps[i]) != "" {
        names := names + {Clean(ps[i])};
      }
    }
    forall n { SkipsIs(raw, n); }
  }

  /** One provider passes every filter. */
  predicate Wanted(o: Options, name: string) {
    && (o.airgapped ==> name in ON_PREM)
    && name != "docker"
    && (o.scope == CloudOnly ==> name !in ON_PREM)
    && (o.scope == OnPremOnly ==> name in ON_PREM)
    && (o.infra != "" && !o.infraDefaulted ==> name == o.infra)
    && !Skips(o.skip, name)
  }

  /** The list without the names that fail `keep`, in its order. */
  function Only(names: seq<string>, keep: string -> bool): seq<string> {
    if names == [] then []
    else Only(names[..|names| - 1], keep) + (if keep(names[|names| - 1]) then [names[|names| - 1]] else [])
  }

  method Filter(names: seq<string>, keep: string -> bool) returns (out: seq<string>)
    ensures out == Only(names, keep)
  {
    out := [];
    for i := 0 to |names|
      invariant out == Only(names[..i], keep)
    {
      assert names[..i + 1][..i] == names[..i];
      if keep(names[i]) {
        out := out + [names[i]];
      }
    }
    assert names[..|names|] == names;
  }

  lemma {:induction false} OnlyTwice(names: seq<string>, p: string -> bool, q: string -> bool)
    ensures Only(Only(names, p), q) == Only(names, x => p(x) && q(x))
  {
    if names != [] {
      var n := |names| - 1;
      OnlyTwice(names[..n], p, q);
      var a := Only(names[..n], p);
      assert (a + [names[n]])[..|a|] == a;
      assert a + [] == a;
    }
  }

  lemma {:induction false} OnlySame(names: seq<string>, p: string -> bool, q: string -> bool)
    requires forall x :: p(x) <==> q(x)
    ensures Only(names, p) == Only(names, q)
  {
    if names != [] {
      OnlySame(names[..|names| - 1], p, q);
    }
  }

  lemma Narrow(names: seq<string>, p: string -> bool, q: string -> bool, r: string -> bool)
    requires forall x :: r(x) <==> p(x) && q(x)
    ensures Only(Only(names, p), q) == Only(names, r)
  {
    OnlyTwice(names, p, q);
    OnlySame(names, x => p(x) && q(x), r);
  }

  predicate Scoped(o: Options, name: string) {
    && (o.airgapped ==> name in ON_PREM)
    && name != "docker"
    && (o.scope == CloudOnly ==> name !in ON_PREM)
    && (o.scope == OnPremOnly ==> name in ON_PREM)
  }

  method SelectProviders(o: Options, registered: seq<string>) returns (names: seq<string>)
    ensures names == Only(registered, x => Wanted(o, x))
  {
    names := SelectScoped(o, registered);
    ghost var kept: string -> bool := x => Scoped(o, x);
    if o.infra != "" && !o.infraDefaulted {
      names := Filter(names, x => x == o.infra);
      Narrow(registered, kept, x => x == o.infra, x => Scoped(o, x) && x == o.infra);
      kept := x => Scoped(o, x) && x == o.infra;
    }
    var skipped := ParseProviderList(o.skip);
    if skipped != {} {
      names := Filter(names, x => x !in skipped);
      Narrow(registered, kept, x => x !in skipped, x => kept(x) && x !in skipped);
      kept := x => kept(x) && x !in skipped;
    }
    OnlySame(registered, kept, x => Wanted(o, x));
  }

  method SelectScoped(o: Options, registered: seq<string>) returns (names: seq<string>)
    ensures names == Only(registered, x => Scoped(o, x))
  {
    names := registered;
    ghost var kept: string -> bool := x => true;
    OnlyAll(registered);
    if o.airgapped {
      names := Filter(names, x => x in ON_PREM);
      kept := x => x in ON_PREM;
    }
    names := Filter(names, x => x != "docker");
    Narrow(registered, kept, x => x != "docker", x => kept(x) && x != "docker");
    kept := x => kept(x) && x != "docker";
    if o.scope == CloudOnly {
      names := Filter(names, x => x !in ON_PREM);
      Narrow(registered, kept, x => x !in ON_PREM, x => kept(x) && x !in ON_PREM);
      kept := x => kept(x) && x !in ON_PREM;
    } else if o.scope == OnPremOnly {
      names := Filter(names, x => x in ON_PREM);
      Narrow(registered, kept, x => x in ON_PREM, x => kept(x) && x in ON_PREM);
      kept := x => kept(x) && x in ON_PREM;
    }
    OnlySame(registered, kept, x => Scoped(o, x));
  }

  lemma {:induction false} OnlyAll(names: seq<string>)
    ensures Only(names, x => true) == names
  {
    if names != [] {
      OnlyAll(names[..|names| - 1]);
    }
  }

  ghost predicate DistinctNames(names: seq<string>) {
    forall i, j :: 0 <= i < j < |names| ==> names[i] != names[j]
  }

  /** Nothing is repeated by filtering, and the kept names are exactly the wanted ones. */
  lemma {:induction false} OnlyIs(names: seq<string>, keep: string -> bool)
    requires DistinctNames(names)
    ensures forall n :: n in Only(names, keep) <==> n in names && keep(n)
    ensures DistinctNames(Only(names, keep))
  {
    if names != [] {
      var n := |names| - 1;
      OnlyIs(names[..n], keep);
      assert names[n] !in names[..n];
      assert forall x :: x in names <==> x in names[..n] || x == names[n];
      var before := Only(names[..n], keep);
      assert names[n] !in before;
    }
  }

  /** The selected providers: the registered ones that no condition rules out, none of them twice. */
  lemma SelectedAre(o: Options, registered: seq<string>, n: string)
    requires DistinctNames(registered)
    ensures var names := Only(registered, x => Wanted(o, x));
      && DistinctNames(names)
      && (n in names <==>
            && n in registered && n != "docker"
            && (o.airgapped || o.scope == OnPremOnly ==> n in {"proxmox", "openstack", "vsphere", "docker"})
            && (o.scope == CloudOnly ==> n !in {"proxmox", "openstack", "vsphere", "docker"})
            && (o.infra != "" && !o.infraDefaulted ==> n == o.infra)
            && (n == "" || forall i, j :: Between(o.skip, i, j) ==>
                  Text.Lower(Text.Trim(Text.Unicode, o.skip[i..j])) != n))
  {
    hide Skips, Text.Lower, Text.Trim;
    OnlyIs(registered, x => Wanted(o, x));
    SkipsIs(o.skip, n);
  }

  // ---------------------------------------------------------------- which jobs

  datatype Job = Job(provider: string, region: string)

  /** No regions listed: one estimate with the region the configuration already has. */
  function RegionsFor(regions: map<string, seq<string>>, name: string): (rs: seq<string>)
    ensures rs != []
  {
    if name in regions && regions[name] != [] then regions[name] else [""]
  }

  function JobsFor(name: string, rs: seq<string>): (js: seq<Job>)
    ensures |js| == |rs|
  {
    if rs == [] then [] else JobsFor(name, rs[..|rs| - 1]) + [Job(name, rs[|rs| - 1])]
  }

  function Jobs(names: seq<string>, regions: map<string, seq<string>>): seq<Job> {
    if names == [] then []
    else Jobs(names[..|names| - 1], regions) + JobsFor(names[|names| - 1], RegionsFor(regions, names[|names| - 1]))
  }

  method LaunchOrder(names: seq<string>, regions: map<string, seq<string>>) returns (jobs: seq<Job>)
    ensures jobs == Jobs(names, regions)
  {
    jobs := [];
    for i := 0 to |names|
      invariant jobs == Jobs(names[..i], regions)
    {
      assert names[..i + 1][..i] == names[..i];
      var rs := RegionsFor(regions, names[i]);
      jobs := LaunchRegions(names[i], rs, jobs);
    }
    assert names[..|names|] == names;
  }

  method LaunchRegions(name: string, rs: seq<string>, before: seq<Job>) returns (jobs: seq<Job>)
    ensures jobs == before + JobsFor(name, rs)
  {
    jobs := before;
    for j := 0 to |rs|
      invariant jobs == before + JobsFor(name, rs[..j])
    {
      assert rs[..j + 1][..j] == rs[..j];
      jobs := jobs + [Job(name, rs[j])];
    }
    assert rs[..|rs|] == rs;
  }

  lemma {:induction false} JobsForAre(name: string, rs: seq<string>, j: Job)
    ensures multiset(JobsFor(name, rs))[j] == if j.provider == name then multiset(rs)[j.region] else 0
  {
    if rs != [] {
      var n := |rs| - 1;
      JobsForAre(name, rs[..n], j);
      assert rs == rs[..n] + [rs[n]];
    }
  }

  lemma {:induction false} JobsCount(names: seq<string>, regions: map<string, seq<string>>, j: Job, k: nat)
    requires k == multiset(RegionsFor(regions, j.provider))[j.region]
    ensures multiset(Jobs(names, regions))[j] == multiset(names)[j.provider] * k
  {
    if names != [] {
      hide Jobs, RegionsFor;
      var n := |names| - 1;
      JobsCount(names[..n], regions, j, k);
      JobsLast(names, regions, j);
      CountLast(names, j.provider);
      OneMoreTime(multiset(names[..n])[j.provider], k);
    }
  }

  lemma JobsLast(names: seq<string>, regions: map<string, seq<string>>, j: Job)
    requires names != []
    ensures var n := |names| - 1;
      multiset(Jobs(names, regions))[j] == multiset(Jobs(names[..n], regions))[j] +
        (if j.provider == names[n] then multiset(RegionsFor(regions, j.provider))[j.region] else 0)
  {
    hide JobsFor, RegionsFor;
    JobsForAre(names[|names| - 1], RegionsFor(regions, names[|names| - 1]), j);
  }

  lemma CountLast<T>(s: seq<T>, x: T)
    requires s != []
    ensures multiset(s)[x] == multiset(s[..|s| - 1])[x] + (if s[|s| - 1] == x then 1 else 0)
  {
    assert s == s[..|s| - 1] + [s[|s| - 1]];
  }

  lemma OneMoreTime(n: nat, k: nat)
    ensures (n + 1) * k == n * k + k
  {
  }

  /** How often a region is listed for a provider; without regions, the one of the configuration is. */
  function Listed(regions: map<string, seq<string>>, name: string, region: string): nat {
    if name in regions && regions[name] != [] then multiset(regions[name])[region]
    else if region == "" then 1 else 0
  }

  /** The jobs are the pairs of a selected provider and one of its regions, each as often as provider
      and region are listed: once, in lists without repetitions. A provider without regions is asked
      once, for the region of the configuration. */
  lemma JobsAre(names: seq<string>, regions: map<string, seq<string>>, j: Job)
    ensures multiset(Jobs(names, regions))[j] == multiset(names)[j.provider] * Listed(regions, j.provider, j.region)
  {
    hide Jobs, RegionsFor, Listed;
    RegionTimes(regions, j.provider, j.region);
    JobsCount(names, regions, j, multiset(RegionsFor(regions, j.provider))[j.region]);
  }

  lemma RegionTimes(regions: map<string, seq<string>>, name: string, region: string)
    ensures multiset(RegionsFor(regions, name))[region] == Listed(regions, name, region)
  {
  }

  // ---------------------------------------------------------------- which rows

  datatype Estimate = Estimate(failed: bool, total: real)

  /** The vendors, as seen by one comparison: who is registered, and what each one answers for a
      region ("" for the region of the configuration). */
  datatype Vendors = Vendors(registered: string -> bool, estimate: (string, string) -> Estimate)

  function RowFor(v: Vendors, j: Job): Option<Row> {
    if v.registered(j.provider) then
      var e := v.estimate(j.provider, j.region);
      Some(Row(j.provider, j.region, e.failed, e.total))
    else None
  }

  function RowsFor(v: Vendors, jobs: seq<Job>): (rows: seq<Option<Row>>)
    ensures |rows| == |jobs|
  {
    seq(|jobs|, i requires 0 <= i < |jobs| => RowFor(v, jobs[i]))
  }

  // ---------------------------------------------------------------- the order of the rows

  predicate StringLess(a: string, b: string) {
    b != "" && (a == "" || a[0] < b[0] || (a[0] == b[0] && StringLess(a[1..], b[1..])))
  }

  predicate Priced(r: Row) { !r.failed && r.total > 0.0 }

  /** The comparison the rows are sorted by. */
  predicate Less(a: Row, b: Row) {
    if Priced(a) && !Priced(b) then true
    else if !Priced(a) && Priced(b) then false
    else if Priced(a) && Priced(b) then a.total < b.total
    else StringLess(a.provider, b.provider)
  }

  lemma {:induction false} StringOrder(a: string, b: string)
    ensures StringLess(a, b) ==> !StringLess(b, a)
    ensures a == b || StringLess(a, b) || StringLess(b, a)
  {
    if a != "" && b != "" && a[0] == b[0] {
      StringOrder(a[1..], b[1..]);
      assert a == [a[0]] + a[1..] && b == [b[0]] + b[1..];
    }
  }

  /** It is the order of dictionaries: a string comes before its continuations, and otherwise the
      first difference decides. */
  lemma {:induction false} StringLessIs(a: string, b: string)
    ensures StringLess(a, b) <==>
      exists n :: 0 <= n <= |a| && n < |b| && a[..n] == b[..n] && (n == |a| || a[n] < b[n])
  {
    if StringLess(a, b) {
      if a != "" && a[0] == b[0] {
        StringLessIs(a[1..], b[1..]);
        var n :| 0 <= n <= |a[1..]| && n < |b[1..]| && a[1..][..n] == b[1..][..n]
          && (n == |a[1..]| || a[1..][n] < b[1..][n]);
        assert a[..n + 1] == [a[0]] + a[1..][..n] && b[..n + 1] == [b[0]] + b[1..][..n];
      } else {
        assert a[..0] == b[..0];
      }
    }
    if exists n :: 0 <= n <= |a| && n < |b| && a[..n] == b[..n] && (n == |a| || a[n] < b[n]) {
      var n :| 0 <= n <= |a| && n < |b| && a[..n] == b[..n] && (n == |a| || a[n] < b[n]);
      if n > 0 {
        assert a[0] == a[..n][0] == b[..n][0] == b[0];
        assert a[1..][..n - 1] == a[..n][1..] && b[1..][..n - 1] == b[..n][1..];
        StringLessIs(a[1..], b[1..]);
      }
    }
  }

  lemma {:induction false} StringTransitive(a: string, b: string, c: string)
    requires !StringLess(a, b) && !StringLess(b, c)
    ensures !StringLess(a, c)
  {
    if a != "" && b != "" && c != "" && a[0] == b[0] == c[0] {
      StringTransitive(a[1..], b[1..], c[1..]);
    }
  }

  lemma LessIsStrictWeak()
    ensures Sorting.StrictWeak(Less)
  {
    forall x, y | Less(x, y) ensures !Less(y, x) {
      StringOrder(x.provider, y.provider);
    }
    forall x, y, z | !Less(x, y) && !Less(y, z) ensures !Less(x, z) {
      if !Priced(x) && !Priced(y) && !Priced(z) {
        StringTransitive(x.provider, y.provider, z.provider);
      }
    }
  }

  /** What a reader of the table sees: priced rows first, cheapest first; then the others by name. */
  ghost predicate TableOrder(rows: seq<Row>, priced: nat) {
    && priced <= |rows|
    && (forall i :: 0 <= i < priced ==> !rows[i].failed && rows[i].total > 0.0)
    && (forall i :: priced <= i < |rows| ==> rows[i].failed || rows[i].total <= 0.0)
    && (forall i, j :: 0 <= i < j < priced ==> rows[i].total <= rows[j].total)
    && (forall i, j :: priced <= i < j < |rows| ==> !StringLess(rows[j].provider, rows[i].provider))
  }

  lemma {:induction false} PricedPrefix(rows: seq<Row>) returns (priced: nat)
    requires Sorting.NoInversion(Less, rows)
    ensures priced <= |rows|
    ensures forall i :: 0 <= i < |rows| ==> (Priced(rows[i]) <==> i < priced)
  {
    if rows == [] || !Priced(rows[0]) {
      priced := 0;
      forall i | 0 <= i < |rows| ensures !Priced(rows[i]) {
        assert i > 0 ==> !Less(rows[i], rows[0]);
      }
    } else {
      var p := PricedPrefix(rows[1..]);
      priced := p + 1;
      assert forall i :: 1 <= i < |rows| ==> rows[i] == rows[1..][i - 1];
    }
  }

  /** Having no inversion is the same as being in the order of the table. */
  lemma SortedIsTableOrder(rows: seq<Row>)
    ensures Sorting.NoInversion(Less, rows) <==> exists priced :: TableOrder(rows, priced)
  {
    if Sorting.NoInversion(Less, rows) {
      var priced := PricedPrefix(rows);
      forall i, j | 0 <= i < j < |rows| ensures !Less(rows[j], rows[i]) {}
      assert TableOrder(rows, priced);
    }
    if exists priced :: TableOrder(rows, priced) {
      var priced :| TableOrder(rows, priced);
      assert forall i, j :: 0 <= i < j < |rows| ==> !Less(rows[j], rows[i]);
    }
  }

  // ---------------------------------------------------------------- the whole comparison

  const BUFFER: nat := 32

  /** One run of the comparison, for one region each: any interleaving of the goroutines up to the
      end of the consumer's loop, then the sort. */
  ghost predicate Comparison(v: Vendors, jobs: seq<Job>, result: seq<Row>) {
    exists steps :: ComparisonBy(v, jobs, steps, result)
  }

  ghost predicate ComparisonBy(v: Vendors, jobs: seq<Job>, steps: seq<Fanout.Step>, result: seq<Row>) {
    var r := Fanout.Run(Fanout.Setup(RowsFor(v, jobs), BUFFER), steps);
    r.Some? && r.value.consumer == Fanout.Ended && Sorting.SortOf(Less, result, r.value.out)
  }

  /** Every run gives a sort of exactly one row for every job of a registered provider, and every
      such sort can come out: the rows may already arrive in that order. */
  lemma ComparisonIs(v: Vendors, jobs: seq<Job>, result: seq<Row>)
    ensures Comparison(v, jobs, result)
      <==> Sorting.SortOf(Less, result, Fanout.RowsInOrder(RowsFor(v, jobs)))
  {
    var rows := RowsFor(v, jobs);
    var s := Fanout.Setup(rows, BUFFER);
    Fanout.AllRowsInOrder(rows);
    if Comparison(v, jobs, result) {
      var steps :| ComparisonBy(v, jobs, steps, result);
      Fanout.EverySchedule(s, steps);
    }
    if Sorting.SortOf(Less, result, Fanout.RowsInOrder(rows)) {
      var steps := Fanout.AnyArrival(s, result);
      assert ComparisonBy(v, jobs, steps, result);
    }
  }

  /** A row comes as often as its job does, if its provider is registered and it says what the vendor
      answered for the region; no other row comes. */
  lemma {:induction false} RowsAre(v: Vendors, jobs: seq<Job>, r: Row)
    ensures multiset(Fanout.RowsInOrder(RowsFor(v, jobs)))[r] ==
      if v.registered(r.provider) && v.estimate(r.provider, r.region) == Estimate(r.failed, r.total)
      then multiset(jobs)[Job(r.provider, r.region)] else 0
  {
    if jobs != [] {
      hide RowsFor;
      RowsAre(v, jobs[..|jobs| - 1], r);
      RowsLast(v, jobs, r);
      CountLast(jobs, Job(r.provider, r.region));
    }
  }

  lemma RowsLast(v: Vendors, jobs: seq<Job>, r: Row)
    requires jobs != []
    ensures var n := |jobs| - 1;
      multiset(Fanout.RowsInOrder(RowsFor(v, jobs)))[r] == multiset(Fanout.RowsInOrder(RowsFor(v, jobs[..n])))[r] +
        (if RowFor(v, jobs[n]) == Some(r) then 1 else 0)
  {
    hide RowFor;
    assert RowsFor(v, jobs)[..|jobs| - 1] == RowsFor(v, jobs[..|jobs| - 1]);
  }

  /** The table: in every run it has, for every selected provider that is registered and every one of
      its regions, the row with the vendor's answer, and no other row. */
  lemma TableIs(v: Vendors, names: seq<string>, regions: map<string, seq<string>>, result: seq<Row>, r: Row)
    requires Comparison(v, Jobs(names, regions), result)
    ensures multiset(result)[r] ==
      if v.registered(r.provider) && v.estimate(r.provider, r.region) == Estimate(r.failed, r.total)
      then multiset(names)[r.provider] * Listed(regions, r.provider, r.region) else 0
  {
    hide Comparison, Jobs, RowsFor, Listed;
    var jobs := Jobs(names, regions);
    ComparisonIs(v, jobs, result);
    RowsAre(v, jobs, r);
    JobsAre(names, regions, Job(r.provider, r.region));
  }

  /** No two priced rows cost the same. */
  ghost predicate TotalsDiffer(rows: seq<Row>) {
    forall i, j :: 0 <= i < j < |rows| ==>
      rows[i].failed || rows[i].total <= 0.0 || rows[j].failed || rows[j].total <= 0.0 || rows[i].total != rows[j].total
  }

  lemma TiesAreEqualTotals(rows: seq<Row>)
    requires DistinctProviders(rows)
    ensures Sorting.NoTies(Less, rows) <==> TotalsDiffer(rows)
  {
    if TotalsDiffer(rows) {
      forall i, j | 0 <= i < |rows| && 0 <= j < |rows| && rows[i] != rows[j]
        ensures Less(rows[i], rows[j]) || Less(rows[j], rows[i])
      {
        StringOrder(rows[i].provider, rows[j].provider);
      }
    }
  }

  /** The source calls the result "re-sorted deterministically". It is determined by the vendors'
      answers exactly when no two priced providers cost the same. */
  lemma DeterminedIffTotalsDiffer(v: Vendors, jobs: seq<Job>)
    requires forall i, j :: 0 <= i < j < |jobs| ==> jobs[i].provider != jobs[j].provider
    ensures TotalsDiffer(Fanout.RowsInOrder(RowsFor(v, jobs)))
      <==> forall a, b :: Comparison(v, jobs, a) && Comparison(v, jobs, b) ==> a == b
  {
    var rows := Fanout.RowsInOrder(RowsFor(v, jobs));
    RowsDiffer(v, jobs);
    TiesAreEqualTotals(rows);
    LessIsStrictWeak();
    Sorting.DeterminedIffNoTies(Less, rows);
    forall a ensures Comparison(v, jobs, a) <==> Sorting.SortOf(Less, a, rows) {
      ComparisonIs(v, jobs, a);
    }
  }

  ghost predicate DistinctProviders(rows: seq<Row>) {
    forall i, j :: 0 <= i < j < |rows| ==> rows[i].provider != rows[j].provider
  }

  ghost predicate HasJob(jobs: seq<Job>, name: string) {
    exists k :: 0 <= k < |jobs| && jobs[k].provider == name
  }

  lemma {:induction false} RowsDiffer(v: Vendors, jobs: seq<Job>)
    requires forall i, j :: 0 <= i < j < |jobs| ==> jobs[i].provider != jobs[j].provider
    ensures DistinctProviders(Fanout.RowsInOrder(RowsFor(v, jobs)))
    ensures forall r :: r in Fanout.RowsInOrder(RowsFor(v, jobs)) ==> HasJob(jobs, r.provider)
  {
    if jobs != [] {
      var n := |jobs| - 1;
      RowsDiffer(v, jobs[..n]);
      assert RowsFor(v, jobs)[..n] == RowsFor(v, jobs[..n]);
      var before := Fanout.RowsInOrder(RowsFor(v, jobs[..n]));
      var rows := Fanout.RowsInOrder(RowsFor(v, jobs));
      assert rows == before || (rows == before + [rows[|rows| - 1]] && rows[|rows| - 1].provider == jobs[n].provider);
      assert !HasJob(jobs[..n], jobs[n].provider);
      forall r | r in rows ensures HasJob(jobs, r.provider) {
        if r in before {
          var k :| 0 <= k < n && jobs[..n][k].provider == r.provider;
          assert jobs[k].provider == r.provider;
        } else {
          assert jobs[n].provider == r.provider;
        }
      }
      forall i | 0 <= i < |before| ensures before[i].provider != jobs[n].provider {
        assert before[i] in before;
      }
    }
  }
}
