/** What the identity of a cluster is in terms of the text of its manifest: which lines make the
    header, and which values the two fields have, with and without quotes
    (DiscoverWorkloadClusterIdentity in internal/capi/manifest/generate.go). */
module IdentityValues {
  import opened Wrappers
  import opened Text
  import opened Identity

  // ---------------------------------------------------------------- one field

  predicate MaybeQuote(q: string) { q == "" || q == "\"" }

  /** The line gives `v` to the key; a quote in front of it and a quote behind it do not belong to it. */
  ghost predicate Gives(l: string, key: string, v: string) {
    exists pre, q, r :: GivesWith(l, key, pre, q, v, r)
  }

  ghost predicate GivesWith(l: string, key: string, pre: string, q: string, v: string, r: string) {
    && v != "" && '"' !in v && AllWhite(Regex, pre) && MaybeQuote(q) && MaybeQuote(r)
    && (q == "" ==> !White(Regex, v[0])) && l == key + pre + q + v + r
  }

  lemma {:induction false} FreeUpTo(v: string, rest: string)
    requires '"' !in v && (rest == "" || rest[0] == '"')
    ensures QuoteFree(v + rest) == |v|
  {
    if v == "" {
      assert v + rest == rest;
    } else {
      assert (v + rest)[1..] == v[1..] + rest;
      FreeUpTo(v[1..], rest);
    }
  }

  lemma BareIs(v: string, rest: string)
    requires v != "" && '"' !in v && (rest == "" || rest == "\"")
    ensures Bare(v + rest) == Some(v)
  {
    FreeUpTo(v, rest);
    assert (v + rest)[..|v|] == v;
  }

  lemma QuotedInLine(pre: string, v: string, r: string)
    requires AllWhite(Regex, pre) && v != "" && '"' !in v && MaybeQuote(r)
    ensures InLine(pre + ("\"" + v + r)) == Some(v) && !Blank(pre + ("\"" + v + r))
  {
    var u := "\"" + v + r;
    LeadIs(Regex, pre, u);
    assert (pre + u)[|pre|..] == u;
    assert u[1..] == v + r;
    BareIs(v, r);
  }

  lemma PlainInLine(pre: string, v: string, r: string)
    requires AllWhite(Regex, pre) && v != "" && '"' !in v && !White(Regex, v[0]) && MaybeQuote(r)
    ensures InLine(pre + (v + r)) == Some(v) && !Blank(pre + (v + r))
  {
    var u := v + r;
    assert u[0] == v[0];
    LeadIs(Regex, pre, u);
    assert (pre + u)[|pre|..] == u;
    BareIs(v, r);
  }

  /** The value is read without its quotes. */
  lemma CaptureGiven(ls: seq<string>, i: nat, key: string, v: string)
    requires i < |ls| && Gives(ls[i], key, v)
    ensures HasPrefix(ls[i], key) && Capture(ls, i, key) == Some(v)
  {
    hide InLine, Blank;
    var pre, q, r :| GivesWith(ls[i], key, pre, q, v, r);
    assert ls[i] == key + (pre + (q + v + r));
    if q == "" {
      PlainInLine(pre, v, r);
      assert q + v + r == v + r;
    } else {
      QuotedInLine(pre, v, r);
    }
  }

  /** `u` is a value with a quote in front of it or not, and behind it or not. */
  ghost predicate Wraps(u: string, q: string, v: string, r: string) {
    u == q + v + r && v != "" && '"' !in v && MaybeQuote(q) && MaybeQuote(r)
  }

  lemma {:induction false} FreeIs(u: string)
    ensures '"' !in u[..QuoteFree(u)] && (QuoteFree(u) < |u| ==> u[QuoteFree(u)] == '"')
  {
    if u != "" && u[0] != QUOTE {
      FreeIs(u[1..]);
      assert u[..QuoteFree(u)] == [u[0]] + u[1..][..QuoteFree(u[1..])];
    }
  }

  lemma BareHas(u: string)
    requires Bare(u).Some?
    ensures Wraps(u, "", Bare(u).value, u[QuoteFree(u)..])
  {
    FreeIs(u);
    var n := QuoteFree(u);
    assert u == "" + u[..n] + u[n..];
    if n < |u| {
      assert u[n..] == "\"";
    }
  }

  /** What is read off a line, in all cases: the value without its quotes; from a single quote the white
      character in front of it; nothing from anything else, such as two quotes. */
  lemma InLineIs(pre: string, u: string)
    requires AllWhite(Regex, pre) && u != "" && !White(Regex, u[0])
    ensures forall q, v, r :: Wraps(u, q, v, r) ==> InLine(pre + u) == Some(v)
    ensures (forall q, v, r :: !Wraps(u, q, v, r)) ==>
      InLine(pre + u) == if u == "\"" && pre != "" then Some([pre[|pre| - 1]]) else None
  {
    hide Bare;
    LeadIs(Regex, pre, u);
    assert (pre + u)[|pre|..] == u;
    forall q, v, r | Wraps(u, q, v, r) ensures InLine(pre + u) == Some(v) {
      if q == "" {
        assert u == v + r;
        PlainInLine(pre, v, r);
      } else {
        QuotedInLine(pre, v, r);
      }
    }
    if Bare(u).Some? {
      BareHas(u);
    }
    if u[0] == QUOTE && Bare(u[1..]).Some? {
      BareHas(u[1..]);
      assert Wraps(u, "\"", Bare(u[1..]).value, u[1..][QuoteFree(u[1..])..]);
    }
    assert pre != "" ==> (pre + u)[|pre| - 1] == pre[|pre| - 1];
  }

  /** Where the line of the key has nothing but white space, the first line below that is not white is
      read; if there is nothing to read, the last white character in between is the value, if there is
      one. */
  lemma CaptureBelow(ls: seq<string>, i: nat, j: nat, key: string, t: nat)
    requires i < j <= |ls| && HasPrefix(ls[i], key) && AllWhite(Regex, ls[i][|key|..])
    requires (forall k :: i < k < j ==> AllWhite(Regex, ls[k])) && (j < |ls| ==> !AllWhite(Regex, ls[j]))
    ensures j < |ls| && InLine(ls[j]).Some? ==> Capture(ls, i, key) == InLine(ls[j])
    ensures var w := [ls[i][|key|..]] + ls[i + 1..j];
      (j < |ls| ==> InLine(ls[j]).None?) ==>
        && ((forall k :: 0 <= k < |w| ==> w[k] == "") ==> Capture(ls, i, key) == None)
        && (t < |w| && w[t] != "" && (forall k :: t < k < |w| ==> w[k] == "") ==>
              Capture(ls, i, key) == Some([w[t][|w[t]| - 1]]))
  {
    hide InLine, Lead;
    LeadFull(Regex, ls[i][|key|..]);
    forall k | i < k < j ensures Blank(ls[k]) {
      LeadFull(Regex, ls[k]);
    }
    if j < |ls| {
      LeadFull(Regex, ls[j]);
    }
    NextNonBlankIs(ls, i + 1, j);
    LastCharIs([ls[i][|key|..]] + ls[i + 1..j], t);
  }

  lemma {:induction false} LastCharIs(w: seq<string>, t: nat)
    ensures (forall k :: 0 <= k < |w| ==> w[k] == "") ==> LastChar(w) == None
    ensures t < |w| && w[t] != "" && (forall k :: t < k < |w| ==> w[k] == "") ==>
      LastChar(w) == Some([w[t][|w[t]| - 1]])
  {
    if w != [] && w[|w| - 1] == "" {
      LastCharIs(w[..|w| - 1], t);
    }
  }

  /** The first line with the key and something to read decides. */
  lemma {:induction false} FirstGiven(ls: seq<string>, m: nat, i: nat, key: string, v: string)
    requires m <= i < |ls| && Gives(ls[i], key, v)
    requires forall k :: m <= k < i && HasPrefix(ls[k], key) ==> Capture(ls, k, key).None?
    ensures FirstField(ls, m, key) == Some(v)
    decreases i - m
  {
    hide Capture, Gives, HasPrefix;
    if m == i {
      CaptureGiven(ls, i, key, v);
    } else {
      FirstGiven(ls, m + 1, i, key, v);
    }
  }

  lemma {:induction false} NoneGiven(ls: seq<string>, m: nat, key: string)
    requires forall k :: m <= k < |ls| && HasPrefix(ls[k], key) ==> Capture(ls, k, key).None?
    ensures FirstField(ls, m, key) == None
    decreases |ls| - m
  {
    hide HasPrefix;
    if m < |ls| {
      NoneGiven(ls, m + 1, key);
    }
  }

  // ---------------------------------------------------------------- the header

  /** The line ends a `kind: Cluster`. */
  predicate KindOfCluster(l: string) {
    || TrimLeft(Regex, l) == "Cluster"
    || (HasPrefix(l, "kind:") && TrimLeft(Regex, l[5..]) == "Cluster")
  }

  /** Lines `a` to `a + 3` start a Cluster of the CAPI group. */
  ghost predicate StartsCluster(ls: seq<string>, a: nat) {
    && a + 3 < |ls|
    && (exists pre, version :: AllWhite(Regex, pre) && version != "" &&
          ls[a] == "apiVersion:" + pre + ("cluster.x-k8s.io/" + version))
    && HasPrefix(ls[a + 1], "kind:") && TrimLeft(Regex, ls[a + 1][5..]) == "Cluster"
    && ls[a + 2] == "metadata:" && HasPrefix(ls[a + 3], "  ")
  }

  /** Line `k` is no metadata line of a Cluster. */
  predicate OtherMetadata(ls: seq<string>, k: nat)
    requires k < |ls|
  {
    ls[k] == "metadata:" && k > 0 ==> !KindOfCluster(ls[k - 1])
  }

  lemma VersionLine(pre: string, version: string)
    requires AllWhite(Regex, pre) && version != ""
    ensures VersionIn("apiVersion:" + pre + ("cluster.x-k8s.io/" + version))
  {
    var u := GROUP + version;
    var l := API + pre + u;
    GroupedVersion(version);
    LeadIs(Regex, pre, u);
    assert l == API + (pre + u);
    assert l[|API|..] == pre + u && TrimLeft(Regex, pre + u) == u;
    assert l[0..] == l && l[..|API|] == API;
    assert ApiAt(l, 0);
  }

  lemma KindIsCluster(ls: seq<string>, m: nat)
    requires HeaderEnds(ls, m)
    ensures m >= 3 && ls[m - 1] == "metadata:" && KindOfCluster(ls[m - 2])
  {
    hide VersionEnds, BlankBetween, Blank, TrimLeft, HasPrefix;
    var a :| 1 <= a <= m - 2 && KindEnds(ls, a, m);
  }

  /** The first Cluster of the text is the one that is read. */
  lemma HeaderIs(ls: seq<string>, a: nat)
    requires StartsCluster(ls, a) && forall k :: 0 <= k < a + 2 ==> OtherMetadata(ls, k)
    ensures FindHeader(ls, 0) == Some(a + 3)
  {
    hide VersionIn, TrimLeft, HasPrefix, HeaderEnds;
    HeaderHere(ls, a);
    forall k | 0 <= k < a + 3 ensures !HeaderEnds(ls, k) {
      if k > 0 {
        assert OtherMetadata(ls, k - 1);
      }
      if HeaderEnds(ls, k) {
        KindIsCluster(ls, k);
      }
    }
    FindHeaderIs(ls, 0, Some(a + 3));
  }

  lemma HeaderHere(ls: seq<string>, a: nat)
    requires StartsCluster(ls, a)
    ensures HeaderEnds(ls, a + 3)
  {
    hide VersionIn, TrimLeft, HasPrefix;
    var pre, version :| AllWhite(Regex, pre) && version != "" &&
      ls[a] == "apiVersion:" + pre + ("cluster.x-k8s.io/" + version);
    VersionLine(pre, version);
    assert KindEnds(ls, a + 1, a + 3);
  }

  // ---------------------------------------------------------------- the identity

  lemma FieldKeys()
    ensures NAME == "  name:" && NAMESPACE == "  namespace:"
  {
  }

  /** A Cluster with both fields, in whatever order, quoted or not: its identity is what the first lines say
      that say something. */
  lemma IdentityIsGiven(ls: seq<string>, a: nat, i: nat, name: string, j: nat, space: string)
    requires StartsCluster(ls, a) && forall k :: 0 <= k < a + 2 ==> OtherMetadata(ls, k)
    requires a + 3 <= i < |ls| && Gives(ls[i], "  name:", name)
    requires a + 3 <= j < |ls| && Gives(ls[j], "  namespace:", space)
    requires forall k :: a + 3 <= k < i && HasPrefix(ls[k], "  name:") ==> Capture(ls, k, "  name:").None?
    requires forall k :: a + 3 <= k < j && HasPrefix(ls[k], "  namespace:") ==> Capture(ls, k, "  namespace:").None?
    ensures Discover(ls) == Some(Cluster(name, space))
  {
    hide StartsCluster, OtherMetadata, Gives, HasPrefix, FirstField, Capture;
    HeaderIs(ls, a);
    FieldKeys();
    FirstGiven(ls, a + 3, i, NAME, name);
    FirstGiven(ls, a + 3, j, NAMESPACE, space);
  }

  /** Without a namespace on any line below, it is "default". */
  lemma DefaultIsGiven(ls: seq<string>, a: nat, i: nat, name: string)
    requires StartsCluster(ls, a) && forall k :: 0 <= k < a + 2 ==> OtherMetadata(ls, k)
    requires a + 3 <= i < |ls| && Gives(ls[i], "  name:", name)
    requires forall k :: a + 3 <= k < i && HasPrefix(ls[k], "  name:") ==> Capture(ls, k, "  name:").None?
    requires forall k :: a + 3 <= k < |ls| && HasPrefix(ls[k], "  namespace:") ==>
      Capture(ls, k, "  namespace:").None?
    ensures Discover(ls) == Some(Cluster(name, "default"))
  {
    hide StartsCluster, OtherMetadata, Gives, HasPrefix, FirstField, Capture;
    HeaderIs(ls, a);
    FieldKeys();
    FirstGiven(ls, a + 3, i, NAME, name);
    NoneGiven(ls, a + 3, NAMESPACE);
  }

  /** The version of the CAPI group, alone on the line or behind its key. */
  ghost predicate HasGroup(l: string) {
    exists c :: 0 <= c <= |l| && HasPrefix(l[c..], "cluster.x-k8s.io/") && |l| > c + 17 && Introduced(l[..c])
  }

  ghost predicate Introduced(h: string) {
    AllWhite(Regex, h) || exists d :: 0 <= d <= |h| && HasPrefix(h[d..], "apiVersion:") && AllWhite(Regex, h[d + 11..])
  }

  /** Where the function does not give up, there are a Cluster of the CAPI group and a name. */
  lemma IdentityNeeds(ls: seq<string>) returns (v: nat, k: nat, i: nat)
    requires Discover(ls).Some?
    ensures v + 1 < k < i < |ls| && HasGroup(ls[v]) && KindOfCluster(ls[k - 1]) && ls[k] == "metadata:"
    ensures HasPrefix(ls[k + 1], "  ") && HasPrefix(ls[i], "  name:")
  {
    hide VersionEnds, KindLines, TrimLeft, HasGroup, FirstField, HasPrefix, KindOfCluster;
    var m := FindHeader(ls, 0).value;
    KindIsCluster(ls, m);
    var a :| 1 <= a <= m - 2 && KindEnds(ls, a, m);
    GroupIsThere(ls, a - 1);
    v, k := a - 1, m - 1;
    i := NameIsThere(ls, m);
  }

  lemma {:induction false} NameIsThere(ls: seq<string>, m: nat) returns (i: nat)
    requires FirstField(ls, m, NAME).Some?
    ensures m <= i < |ls| && HasPrefix(ls[i], "  name:")
    decreases |ls| - m
  {
    hide Capture, HasPrefix;
    FieldKeys();
    i := m;
    if !HasPrefix(ls[m], NAME) || Capture(ls, m, NAME).None? {
      i := NameIsThere(ls, m + 1);
    }
  }

  lemma GroupIsThere(ls: seq<string>, v: nat)
    requires v < |ls| && VersionEnds(ls, v)
    ensures HasGroup(ls[v])
  {
    hide HasGroup, Grouped, TrimLeft, Introduced;
    var l := ls[v];
    if VersionIn(l) {
      var d :| 0 <= d <= |l| && ApiAt(l, d) && Grouped(TrimLeft(Regex, l[d + |API|..]));
      KeyBefore(l, d);
      GroupBehind(l, d + |API|);
    } else {
      assert l[0..] == l;
      WhiteBefore(l[..Lead(Regex, l)]);
      GroupBehind(l, 0);
    }
  }

  lemma WhiteBefore(h: string)
    requires AllWhite(Regex, h)
    ensures Introduced(h)
  {
  }

  lemma KeyBefore(l: string, d: nat)
    requires d <= |l| && ApiAt(l, d)
    ensures d + |API| <= |l| && Introduced(l[..d + |API| + Lead(Regex, l[d + |API|..])])
  {
    hide Lead;
    var n := Lead(Regex, l[d + |API|..]);
    var h := l[..d + |API| + n];
    assert h[d..][..|API|] == l[d..][..|API|];
    assert h[d + |API|..] == l[d + |API|..][..n];
  }

  lemma GroupBehind(l: string, n: nat)
    requires n <= |l| && Grouped(TrimLeft(Regex, l[n..])) && Introduced(l[..n + Lead(Regex, l[n..])])
    ensures HasGroup(l)
  {
    hide Introduced, Lead;
    var c := n + Lead(Regex, l[n..]);
    assert l[n..][Lead(Regex, l[n..])..] == l[c..];
  }
}
