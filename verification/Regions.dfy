/** Ranking a vendor's regions by distance (internal/pricing/georegion.go). The distances are
    given: any number for every row of the table. */
module Regions {
  import Sorting

  datatype Scored = Scored(id: string, km: real)

  predicate Nearer(a: Scored, b: Scored) { a.km < b.km }

  /** The distance of a region: the least one of its rows. */
  ghost predicate Distance(table: seq<Scored>, id: string, km: real) {
    Scored(id, km) in table && forall p :: p in table && p.id == id ==> km <= p.km
  }

  function Ids(table: seq<Scored>): set<string> { set p | p in table :: p.id }

  ghost predicate Distinct(ids: seq<string>) { forall i, j :: 0 <= i < j < |ids| ==> ids[i] != ids[j] }

  /** `out` is a correct choice of the `limit` nearest regions, at distances `kms`. */
  ghost predicate Nearest(table: seq<Scored>, limit: int, out: seq<string>, kms: seq<real>) {
    && |out| == |kms| == (if limit <= 0 then 0 else if limit <= |Ids(table)| then limit else |Ids(table)|)
    && Distinct(out)
    && (forall i :: 0 <= i < |out| ==> Distance(table, out[i], kms[i]))
    && (forall i, j :: 0 <= i < j < |kms| ==> kms[i] <= kms[j])
    && (forall p, i :: p in table && p.id !in out && 0 <= i < |kms| ==> kms[i] <= p.km)
  }

  lemma {:induction false} DistinctCount(ids: seq<string>)
    requires Distinct(ids)
    ensures |set x | x in ids| == |ids|
  {
    if ids != [] {
      var n := |ids| - 1;
      DistinctCount(ids[..n]);
      assert (set x | x in ids) == (set x | x in ids[..n]) + {ids[n]};
    }
  }

  lemma CountWithin(ids: seq<string>, pool: set<string>)
    requires Distinct(ids) && forall x :: x in ids ==> x in pool
    ensures |ids| <= |pool|
    ensures (forall x :: x in pool ==> x in ids) ==> |ids| == |pool|
  {
    DistinctCount(ids);
    var s := set x | x in ids;
    SubsetCount(s, pool);
    if forall x :: x in pool ==> x in ids {
      assert s == pool;
    }
  }

  lemma {:induction false} SubsetCount(s: set<string>, pool: set<string>)
    requires s <= pool
    ensures |s| <= |pool|
  {
    if s != {} {
      var x :| x in s;
      SubsetCount(s - {x}, pool - {x});
    }
  }

  /** Where the loop stands: the regions chosen so far are the ids of the rows passed, in order of
      their first row; `at` says where those rows are. */
  ghost predicate Chosen(xs: seq<Scored>, passed: nat, out: seq<string>, at: seq<nat>) {
    && passed <= |xs| && |at| == |out| && Distinct(out)
    && (forall k :: 0 <= k < |out| ==> at[k] < passed && xs[at[k]].id == out[k])
    && (forall k, m :: 0 <= k < |out| && 0 <= m < at[k] ==> xs[m].id != out[k])
    && (forall k, l :: 0 <= k < l < |out| ==> at[k] < at[l])
    && (forall m :: 0 <= m < passed ==> xs[m].id in out)
  }

  /** The rows in order of distance. */
  ghost predicate Ordered(table: seq<Scored>, xs: seq<Scored>) {
    && (forall p :: p in table <==> p in xs)
    && (forall i, j :: 0 <= i < j < |xs| ==> xs[i].km <= xs[j].km)
  }

  lemma SortIsOrdered(table: seq<Scored>, xs: seq<Scored>)
    requires Sorting.SortOf(Nearer, xs, table)
    ensures Ordered(table, xs)
  {
    assert forall p :: p in table <==> p in multiset(table);
    assert forall p :: p in xs <==> p in multiset(xs);
    forall i, j | 0 <= i < j < |xs| ensures xs[i].km <= xs[j].km {
      assert !Nearer(xs[j], xs[i]);
    }
  }

  function Kms(xs: seq<Scored>, at: seq<nat>): (kms: seq<real>)
    requires forall k :: 0 <= k < |at| ==> at[k] < |xs|
    ensures |kms| == |at|
  {
    seq(|at|, k requires 0 <= k < |at| => xs[at[k]].km)
  }

  lemma ChosenDistances(table: seq<Scored>, xs: seq<Scored>, passed: nat, out: seq<string>, at: seq<nat>)
    requires Ordered(table, xs) && Chosen(xs, passed, out, at)
    ensures forall k :: 0 <= k < |out| ==> Distance(table, out[k], xs[at[k]].km)
    ensures forall k, l :: 0 <= k < l < |out| ==> xs[at[k]].km <= xs[at[l]].km
    ensures forall p, k :: p in table && p.id !in out && 0 <= k < |out| ==> xs[at[k]].km <= p.km
  {
    forall k | 0 <= k < |out| ensures Distance(table, out[k], xs[at[k]].km) {
      FirstRowIsNearest(table, xs, out[k], at[k]);
    }
    forall p, k | p in table && p.id !in out && 0 <= k < |out| ensures xs[at[k]].km <= p.km {
      var m :| 0 <= m < |xs| && xs[m] == p;
      assert m >= passed > at[k];
    }
  }

  lemma ChosenCount(table: seq<Scored>, xs: seq<Scored>, passed: nat, out: seq<string>, at: seq<nat>)
    requires Ordered(table, xs) && Chosen(xs, passed, out, at)
    ensures |out| <= |Ids(table)| && (passed == |xs| ==> |out| == |Ids(table)|)
  {
    forall x | x in out ensures x in Ids(table) {
      var k :| 0 <= k < |out| && out[k] == x;
      assert xs[at[k]] in xs;
    }
    if passed == |xs| {
      forall x | x in Ids(table) ensures x in out {
        var p :| p in table && p.id == x;
        var m :| 0 <= m < |xs| && xs[m] == p;
      }
    }
    CountWithin(out, Ids(table));
  }

  lemma ChosenIsNearest(table: seq<Scored>, xs: seq<Scored>, limit: int, passed: nat, out: seq<string>, at: seq<nat>)
    requires Ordered(table, xs) && Chosen(xs, passed, out, at)
    requires limit > 0 && |out| <= limit && (passed == |xs| || |out| == limit)
    ensures exists kms :: Nearest(table, limit, out, kms)
  {
    hide Distance, Ordered, Ids;
    ChosenDistances(table, xs, passed, out, at);
    ChosenCount(table, xs, passed, out, at);
    assert Nearest(table, limit, out, Kms(xs, at));
  }

  lemma FirstRowIsNearest(table: seq<Scored>, xs: seq<Scored>, id: string, k: nat)
    requires Ordered(table, xs) && k < |xs| && xs[k].id == id
    requires forall m :: 0 <= m < k ==> xs[m].id != id
    ensures Distance(table, id, xs[k].km)
  {
    assert Scored(id, xs[k].km) == xs[k];
    forall p | p in table && p.id == id ensures xs[k].km <= p.km {
      var m :| 0 <= m < |xs| && xs[m] == p;
      assert m >= k;
    }
  }

  lemma ChosenOneMore(xs: seq<Scored>, i: nat, out: seq<string>, at: seq<nat>)
    requires i < |xs| && Chosen(xs, i, out, at)
    ensures xs[i].id in out ==> Chosen(xs, i + 1, out, at)
    ensures xs[i].id !in out ==> Chosen(xs, i + 1, out + [xs[i].id], at + [i])
  {
    if xs[i].id !in out {
      var more := out + [xs[i].id];
      forall m | 0 <= m < i + 1 ensures xs[m].id in more {}
    }
  }

  method GeoRankedRegions(table: seq<Scored>, limit: int) returns (out: seq<string>)
    ensures exists kms :: Nearest(table, limit, out, kms)
  {
    if |table| == 0 || limit <= 0 {
      assert Nearest(table, limit, [], []);
      return [];
    }
    var xs := Sorting.SortSlice(Nearer, table);
    SortIsOrdered(table, xs);
    var seen: set<string> := {};
    out := [];
    ghost var at: seq<nat> := [];
    var i := 0;
    assert Chosen(xs, i, out, at);
    hide Chosen, Nearest, Ordered;
    while i < |xs|
      invariant i <= |xs| && Chosen(xs, i, out, at)
      invariant forall x :: x in seen <==> x in out
      invariant |out| < limit
    {
      ChosenOneMore(xs, i, out, at);
      if xs[i].id in seen {
        i := i + 1;
        continue;
      }
      seen := seen + {xs[i].id};
      out := out + [xs[i].id];
      at := at + [i];
      i := i + 1;
      if |out| >= limit {
        break;
      }
    }
    ChosenIsNearest(table, xs, limit, i, out, at);
  }

  method GeoNearestRegion(table: seq<Scored>) returns (id: string)
    ensures table == [] ==> id == ""
    ensures table != [] ==> exists km :: Distance(table, id, km) && forall p :: p in table ==> km <= p.km
  {
    var r := GeoRankedRegions(table, 1);
    ghost var kms :| Nearest(table, 1, r, kms);
    NearestOne(table, r, kms);
    if |r| == 0 {
      return "";
    }
    return r[0];
  }

  lemma NearestOne(table: seq<Scored>, r: seq<string>, kms: seq<real>)
    requires Nearest(table, 1, r, kms)
    ensures r == [] <==> table == []
    ensures r != [] ==> Distance(table, r[0], kms[0]) && forall p :: p in table ==> kms[0] <= p.km
  {
    assert forall p :: p in table ==> p.id in Ids(table);
    if table == [] {
      assert Ids(table) == {};
    } else {
      assert table[0] in table;
    }
  }

  /** However ties are broken, the distances that come out are the same. */
  lemma DistancesDetermined(table: seq<Scored>, limit: int, a: seq<string>, ka: seq<real>, b: seq<string>,
    kb: seq<real>)
    requires Nearest(table, limit, a, ka) && Nearest(table, limit, b, kb)
    ensures ka == kb
  {
    forall i | 0 <= i < |ka| ensures ka[i] == kb[i] {
      NotNearer(table, limit, a, ka, b, kb, i);
      NotNearer(table, limit, b, kb, a, ka, i);
    }
  }

  lemma NotNearer(table: seq<Scored>, limit: int, a: seq<string>, ka: seq<real>, b: seq<string>, kb: seq<real>, i: nat)
    requires Nearest(table, limit, a, ka) && Nearest(table, limit, b, kb) && i < |ka|
    ensures ka[i] >= kb[i]
  {
    if ka[i] < kb[i] {
      var theirs := set x | x in b[..i];
      var mine := a[..i + 1];
      forall k | 0 <= k < |mine| ensures mine[k] in theirs {
        EarlyInOther(table, limit, a, ka, b, kb, i, k);
      }
      CountWithin(mine, theirs);
      DistinctCount(b[..i]);
      assert false;
    }
  }

  lemma EarlyInOther(table: seq<Scored>, limit: int, a: seq<string>, ka: seq<real>, b: seq<string>,
    kb: seq<real>, i: nat, k: nat)
    requires Nearest(table, limit, a, ka) && Nearest(table, limit, b, kb) && k <= i < |ka|
    requires ka[i] < kb[i]
    ensures a[k] in b[..i]
  {
    hide Ids;
    var x := a[k];
    assert Distance(table, x, ka[k]) && (k < i ==> ka[k] <= ka[i]);
    assert x in b;
    var m :| 0 <= m < |b| && b[m] == x;
    assert Distance(table, x, kb[m]);
    assert kb[m] <= ka[k];
    assert m < i;
    assert b[..i][m] == x;
  }
}
