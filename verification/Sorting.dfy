/** `sort.Slice` as its documentation promises it: some rearrangement of the input without
    inversions. Which rearrangement is not promised, so a result is only as determined as the
    order is. */
module Sorting {

  /** The comparison is a strict weak order: ties are allowed, and are an equivalence. */
  ghost predicate StrictWeak<T(!new)>(less: (T, T) -> bool) {
    && (forall x, y :: less(x, y) ==> !less(y, x))
    && (forall x, y, z :: !less(x, y) && !less(y, z) ==> !less(x, z))
  }

  ghost predicate NoInversion<T>(less: (T, T) -> bool, s: seq<T>) {
    forall i, j :: 0 <= i < j < |s| ==> !less(s[j], s[i])
  }

  /** `out` is what sorting `s` may give. */
  ghost predicate SortOf<T>(less: (T, T) -> bool, out: seq<T>, s: seq<T>) {
    multiset(out) == multiset(s) && NoInversion(less, out)
  }

  /** No two different elements tie. */
  ghost predicate NoTies<T>(less: (T, T) -> bool, s: seq<T>) {
    forall i, j :: 0 <= i < |s| && 0 <= j < |s| && s[i] != s[j] ==> less(s[i], s[j]) || less(s[j], s[i])
  }

  lemma MemberOf<T>(a: seq<T>, b: seq<T>, i: nat) returns (j: nat)
    requires multiset(a) == multiset(b) && i < |a|
    ensures j < |b| && b[j] == a[i]
  {
    assert a[i] in multiset(a);
    assert a[i] in b;
    j :| j < |b| && b[j] == a[i];
  }

  // ---------------------------------------------------------------- any two sorts agree up to ties

  /** How many elements are below `x`. */
  function Below<T>(less: (T, T) -> bool, s: seq<T>, x: T): (n: nat)
    ensures n <= |s|
  {
    if s == [] then 0
    else Below(less, s[..|s| - 1], x) + (if less(s[|s| - 1], x) then 1 else 0)
  }

  lemma {:induction false} BelowSplit<T>(less: (T, T) -> bool, a: seq<T>, b: seq<T>, x: T)
    ensures Below(less, a + b, x) == Below(less, a, x) + Below(less, b, x)
  {
    if b == [] {
      assert a + b == a;
    } else {
      var n := |b| - 1;
      BelowSplit(less, a, b[..n], x);
      assert (a + b)[..|a + b| - 1] == a + b[..n];
    }
  }

  lemma BelowMiddle<T>(less: (T, T) -> bool, p: seq<T>, e: T, q: seq<T>, x: T)
    ensures Below(less, p + [e] + q, x) == Below(less, p + q, x) + (if less(e, x) then 1 else 0)
  {
    BelowSplit(less, p + [e], q, x);
    BelowSplit(less, p, q, x);
    assert (p + [e])[..|p|] == p;
  }

  lemma {:induction false} BelowRearranged<T>(less: (T, T) -> bool, a: seq<T>, b: seq<T>, x: T)
    requires multiset(a) == multiset(b)
    ensures Below(less, a, x) == Below(less, b, x)
  {
    assert |a| == |multiset(a)| == |multiset(b)| == |b|;
    if a != [] {
      var n := |a| - 1;
      var j := MemberOf(a, b, n);
      var rest := b[..j] + b[j + 1..];
      assert a == a[..n] + [a[n]];
      assert b == b[..j] + [b[j]] + b[j + 1..];
      assert multiset(a[..n]) == multiset(a) - multiset{a[n]};
      assert multiset(rest) == multiset(b) - multiset{b[j]};
      BelowRearranged(less, a[..n], rest, x);
      BelowMiddle(less, b[..j], b[j], b[j + 1..], x);
    }
  }

  lemma {:induction false} BelowAll<T>(less: (T, T) -> bool, s: seq<T>, x: T)
    requires forall k :: 0 <= k < |s| ==> less(s[k], x)
    ensures Below(less, s, x) == |s|
  {
    if s != [] {
      BelowAll(less, s[..|s| - 1], x);
    }
  }

  lemma {:induction false} BelowNone<T>(less: (T, T) -> bool, s: seq<T>, x: T)
    requires forall k :: 0 <= k < |s| ==> !less(s[k], x)
    ensures Below(less, s, x) == 0
  {
    if s != [] {
      BelowNone(less, s[..|s| - 1], x);
    }
  }

  lemma NotBelow<T(!new)>(less: (T, T) -> bool, a: seq<T>, b: seq<T>, i: nat)
    requires StrictWeak(less) && multiset(a) == multiset(b)
    requires NoInversion(less, a) && NoInversion(less, b)
    requires i < |a| && i < |b|
    ensures !less(a[i], b[i])
  {
    if less(a[i], b[i]) {
      hide Below, StrictWeak, NoInversion;
      MuchBelow(less, a, i, b[i]);
      LittleBelow(less, b, i);
      BelowRearranged(less, a, b, b[i]);
    }
  }

  lemma NotInverted<T>(less: (T, T) -> bool, s: seq<T>, i: nat, j: nat)
    requires NoInversion(less, s) && i < j < |s|
    ensures !less(s[j], s[i])
  {
  }

  lemma NotItself<T(!new)>(less: (T, T) -> bool, x: T)
    requires StrictWeak(less)
    ensures !less(x, x)
  {
  }

  lemma LessThrough<T(!new)>(less: (T, T) -> bool, x: T, y: T, z: T)
    requires StrictWeak(less) && !less(x, y) && less(x, z)
    ensures less(y, z)
  {
  }

  /** Whatever `a[i]` is less than has all of `a[..i + 1]` below it. */
  lemma MuchBelow<T(!new)>(less: (T, T) -> bool, a: seq<T>, i: nat, x: T)
    requires StrictWeak(less) && NoInversion(less, a) && i < |a| && less(a[i], x)
    ensures Below(less, a, x) > i
  {
    hide Below, StrictWeak, NoInversion;
    forall k | 0 <= k <= i ensures less(a[k], x) {
      if k < i {
        NotInverted(less, a, k, i);
        LessThrough(less, a[i], a[k], x);
      }
    }
    BelowAll(less, a[..i + 1], x);
    BelowSplit(less, a[..i + 1], a[i + 1..], x);
    assert a[..i + 1] + a[i + 1..] == a;
  }

  lemma LittleBelow<T(!new)>(less: (T, T) -> bool, b: seq<T>, i: nat)
    requires StrictWeak(less) && NoInversion(less, b) && i < |b|
    ensures Below(less, b, b[i]) <= i
  {
    hide Below, StrictWeak, NoInversion;
    forall k | i <= k < |b| ensures !less(b[k], b[i]) {
      if i < k {
        NotInverted(less, b, i, k);
      } else {
        NotItself(less, b[i]);
      }
    }
    BelowNone(less, b[i..], b[i]);
    BelowSplit(less, b[..i], b[i..], b[i]);
    assert b[..i] + b[i..] == b;
  }

  /** Two sorts of one sequence tie in every position. */
  lemma SameUpToTies<T(!new)>(less: (T, T) -> bool, a: seq<T>, b: seq<T>, s: seq<T>)
    requires StrictWeak(less) && SortOf(less, a, s) && SortOf(less, b, s)
    ensures |a| == |b| == |s|
    ensures forall i :: 0 <= i < |a| ==> !less(a[i], b[i]) && !less(b[i], a[i])
  {
    assert |a| == |multiset(a)| == |multiset(b)| == |b|;
    assert |s| == |multiset(s)|;
    forall i | 0 <= i < |a| ensures !less(a[i], b[i]) && !less(b[i], a[i]) {
      NotBelow(less, a, b, i);
      NotBelow(less, b, a, i);
    }
  }

  lemma NoTiesUnique<T(!new)>(less: (T, T) -> bool, a: seq<T>, b: seq<T>, s: seq<T>)
    requires StrictWeak(less) && SortOf(less, a, s) && SortOf(less, b, s) && NoTies(less, s)
    ensures a == b
  {
    SameUpToTies(less, a, b, s);
    forall i | 0 <= i < |a| ensures a[i] == b[i] {
      var j := MemberOf(a, s, i);
      var k := MemberOf(b, s, i);
    }
  }

  // ---------------------------------------------------------------- a tie leaves a choice

  /** Sorting itself: take any least element of what is left. */
  method SortSlice<T(!new)>(less: (T, T) -> bool, s: seq<T>) returns (out: seq<T>)
    requires StrictWeak(less)
    ensures SortOf(less, out, s)
  {
    out := [];
    var rest := s;
    while rest != []
      invariant multiset(out) + multiset(rest) == multiset(s)
      invariant NoInversion(less, out)
      invariant forall i, j :: 0 <= i < |out| && 0 <= j < |rest| ==> !less(rest[j], out[i])
      decreases |rest|
    {
      var _ := LeastExists(less, rest);
      var k :| 0 <= k < |rest| && forall j :: 0 <= j < |rest| ==> !less(rest[j], rest[k]);
      out, rest := Take(less, out, rest, k, s);
    }
  }

  method Take<T(!new)>(less: (T, T) -> bool, out: seq<T>, rest: seq<T>, k: nat, ghost s: seq<T>)
    returns (more: seq<T>, left: seq<T>)
    requires k < |rest| && forall j :: 0 <= j < |rest| ==> !less(rest[j], rest[k])
    requires multiset(out) + multiset(rest) == multiset(s) && NoInversion(less, out)
    requires forall i, j :: 0 <= i < |out| && 0 <= j < |rest| ==> !less(rest[j], out[i])
    ensures more == out + [rest[k]] && left == rest[..k] + rest[k + 1..]
    ensures multiset(more) + multiset(left) == multiset(s) && NoInversion(less, more)
    ensures forall i, j :: 0 <= i < |more| && 0 <= j < |left| ==> !less(left[j], more[i])
  {
    more, left := out + [rest[k]], rest[..k] + rest[k + 1..];
    assert rest == rest[..k] + [rest[k]] + rest[k + 1..];
    forall j | 0 <= j < |left| ensures left[j] in rest {}
  }

  lemma {:induction false} LeastExists<T(!new)>(less: (T, T) -> bool, s: seq<T>) returns (k: nat)
    requires StrictWeak(less) && s != []
    ensures k < |s| && forall j :: 0 <= j < |s| ==> !less(s[j], s[k])
  {
    var n := |s| - 1;
    k := n;
    if n > 0 {
      var m := LeastExists(less, s[..n]);
      if !less(s[n], s[m]) {
        k := m;
      }
      forall j | 0 <= j < |s| ensures !less(s[j], s[k]) {
        if j < n {
          assert !less(s[..n][j], s[..n][m]);
        }
      }
    }
  }

  lemma {:induction false} SortExists<T(!new)>(less: (T, T) -> bool, s: seq<T>) returns (out: seq<T>)
    requires StrictWeak(less)
    ensures SortOf(less, out, s)
  {
    if s == [] {
      out := [];
    } else {
      var k := LeastExists(less, s);
      var left := s[..k] + s[k + 1..];
      assert s == s[..k] + [s[k]] + s[k + 1..];
      var tail := SortExists(less, left);
      out := [s[k]] + tail;
      forall j | 0 <= j < |tail| ensures !less(tail[j], s[k]) {
        var m := MemberOf(tail, left, j);
      }
    }
  }

  lemma SwapTied<T(!new)>(less: (T, T) -> bool, a: seq<T>, i: nat, j: nat)
    requires StrictWeak(less) && NoInversion(less, a) && i < j < |a|
    requires !less(a[i], a[j])
    ensures NoInversion(less, a[i := a[j]][j := a[i]])
    ensures multiset(a[i := a[j]][j := a[i]]) == multiset(a)
  {
    var b := a[i := a[j]][j := a[i]];
    forall m, n | 0 <= m < n < |b| ensures !less(b[n], b[m]) {
      assert !less(a[j], a[i]);
      if m == i && n == j {
      } else if m == i {
        assert !less(a[n], a[i]) && !less(a[i], a[j]);
      } else if n == i {
        assert !less(a[i], a[m]) && !less(a[j], a[i]);
      } else if m == j {
        assert !less(a[n], a[j]) && !less(a[j], a[i]);
      } else if n == j {
        assert !less(a[j], a[m]) && !less(a[i], a[j]);
      }
    }
  }

  /** The result of a sort is determined by its input exactly when no two different elements tie. */
  lemma DeterminedIffNoTies<T(!new)>(less: (T, T) -> bool, s: seq<T>)
    requires StrictWeak(less)
    ensures NoTies(less, s) <==> forall a, b :: SortOf(less, a, s) && SortOf(less, b, s) ==> a == b
  {
    if NoTies(less, s) {
      forall a, b | SortOf(less, a, s) && SortOf(less, b, s) ensures a == b {
        NoTiesUnique(less, a, b, s);
      }
    } else {
      var a, b := TwoSorts(less, s);
      assert SortOf(less, a, s) && SortOf(less, b, s) && a != b;
    }
  }

  lemma TwoSorts<T(!new)>(less: (T, T) -> bool, s: seq<T>) returns (a: seq<T>, b: seq<T>)
    requires StrictWeak(less) && !NoTies(less, s)
    ensures SortOf(less, a, s) && SortOf(less, b, s) && a != b
  {
    var p, q :| 0 <= p < |s| && 0 <= q < |s| && s[p] != s[q] && !less(s[p], s[q]) && !less(s[q], s[p]);
    a := SortExists(less, s);
    var i := MemberOf(s, a, p);
    var j := MemberOf(s, a, q);
    var lo, hi := if i < j then i else j, if i < j then j else i;
    SwapTied(less, a, lo, hi);
    b := a[lo := a[hi]][hi := a[lo]];
    assert b[lo] != a[lo];
  }
}
