/** Reading the workload cluster's name and namespace off the manifest
    (DiscoverWorkloadClusterIdentity in internal/capi/manifest/generate.go). */
module Identity {
  import opened Wrappers
  import opened Text

  const API := "apiVersion:"
  const GROUP := "cluster.x-k8s.io/"
  const KIND := "kind:"
  const CLUSTER_WORD := "Cluster"
  const METADATA := "metadata:"
  const NAME := "  " + "name:"
  const NAMESPACE := "  " + "namespace:"
  const QUOTE := '"'

  // ---------------------------------------------------------------- the header

  /** What `\s*cluster\.x-k8s\.io/[^\n]+` accepts, after the white space. */
  predicate Grouped(u: string) { HasPrefix(u, GROUP) && |u| > |GROUP| }

  predicate ApiAt(l: string, c: nat) { c <= |l| && HasPrefix(l[c..], API) }

  /** The key may stand anywhere in a line: the expression is not anchored. */
  predicate HasApi(l: string) { exists c :: 0 <= c <= |l| && ApiAt(l, c) }

  /** The key and the version on one line. */
  predicate VersionIn(l: string) {
    exists c :: 0 <= c <= |l| && ApiAt(l, c) && Grouped(TrimLeft(Regex, l[c + |API|..]))
  }

  /** The key at the end of a line, with the version still to come. */
  predicate OpensVersion(l: string) {
    exists c :: 0 <= c <= |l| && ApiAt(l, c) && Blank(l[c + |API|..])
  }

  predicate BlankBetween(ls: seq<string>, i: int, j: int) {
    forall k :: i < k < j && 0 <= k < |ls| ==> Blank(ls[k])
  }

  /** `apiVersion:\s*cluster\.x-k8s\.io/[^\n]+` ends with line `v`. */
  predicate VersionEnds(ls: seq<string>, v: nat)
    requires v < |ls|
  {
    || VersionIn(ls[v])
    || (Grouped(TrimLeft(Regex, ls[v])) && exists i :: 0 <= i < v && OpensVersion(ls[i]) && BlankBetween(ls, i, v))
  }

  /** `kind:\s*Cluster` is the whole of the lines from `a` to `k`. */
  predicate KindLines(ls: seq<string>, a: nat, k: nat)
    requires a <= k < |ls|
  {
    HasPrefix(ls[a], KIND) &&
    (if a == k then TrimLeft(Regex, ls[a][|KIND|..]) == CLUSTER_WORD
     else Blank(ls[a][|KIND|..]) && TrimLeft(Regex, ls[k]) == CLUSTER_WORD && BlankBetween(ls, a, k))
  }

  predicate KindEnds(ls: seq<string>, a: nat, m: nat)
    requires 1 <= a && a + 2 <= m < |ls|
  {
    KindLines(ls, a, m - 2) && VersionEnds(ls, a - 1)
  }

  /** A match of the header expression whose last group starts with line `m`. That group is then
      the whole rest of the text: with `(?s)`, its `.*` runs over line ends. */
  predicate HeaderEnds(ls: seq<string>, m: nat) {
    && m < |ls| && HasPrefix(ls[m], "  ") && m >= 1 && ls[m - 1] == METADATA
    && exists a :: 1 <= a <= m - 2 && KindEnds(ls, a, m)
  }

  /** The leftmost match: a match that starts further left ends no further right. */
  function FindHeader(ls: seq<string>, m: nat): (r: Option<nat>)
    ensures r.Some? ==> m <= r.value < |ls| && HeaderEnds(ls, r.value)
    ensures forall k :: m <= k < (if r.Some? then r.value else |ls|) ==> !HeaderEnds(ls, k)
    decreases |ls| - m
  {
    if m >= |ls| then None
    else if HeaderEnds(ls, m) then Some(m)
    else FindHeader(ls, m + 1)
  }

  // ---------------------------------------------------------------- the fields

  /** The length of `u` up to its first quote. */
  function QuoteFree(u: string): (n: nat)
    ensures n <= |u|
  {
    if u == "" || u[0] == QUOTE then 0 else 1 + QuoteFree(u[1..])
  }

  /** `([^"\n]+)"?$` on a line. */
  function Bare(u: string): Option<string> {
    var n := QuoteFree(u);
    if n > 0 && n + 1 >= |u| then Some(u[..n]) else None
  }

  /** `\s*"?([^"\n]+)"?$` on a line that is not white. Giving white space back can only help when
      the line holds a single quote. */
  function InLine(r: string): Option<string> {
    var w := Lead(Regex, r);
    var u := r[w..];
    var x := if u != "" && u[0] == QUOTE && Bare(u[1..]).Some? then Bare(u[1..]) else Bare(u);
    if x.Some? then x
    else if u == [QUOTE] && w > 0 then Some([r[w - 1]])
    else None
  }

  /** The last character of the last line that has one. */
  function LastChar(ls: seq<string>): Option<string> {
    if ls == [] then None
    else
      var l := ls[|ls| - 1];
      if l == "" then LastChar(ls[..|ls| - 1]) else Some([l[|l| - 1]])
  }

  /** `^key\s*"?([^"\n]+)"?$` at line `i`: the value is on the line, or on the next line that is not
      white, or else it is the last white character before that. */
  function Capture(ls: seq<string>, i: nat, key: string): Option<string>
    requires i < |ls| && HasPrefix(ls[i], key)
  {
    var r := ls[i][|key|..];
    if !Blank(r) then InLine(r)
    else
      var j := NextNonBlank(ls, i + 1);
      var x := if j < |ls| then InLine(ls[j]) else None;
      if x.Some? then x else LastChar([r] + ls[i + 1..j])
  }

  /** The first match from line `i` on. */
  function FirstField(ls: seq<string>, i: nat, key: string): Option<string>
    decreases |ls| - i
  {
    if i >= |ls| then None
    else if HasPrefix(ls[i], key) && Capture(ls, i, key).Some? then Capture(ls, i, key)
    else FirstField(ls, i + 1, key)
  }

  datatype Cluster = Cluster(name: string, namespace_: string)

  /** The cluster's identity; None where the source gives up. */
  function Discover(ls: seq<string>): Option<Cluster> {
    var m := FindHeader(ls, 0);
    if m.None? then None
    else
      var name := FirstField(ls, m.value, NAME);
      var space := FirstField(ls, m.value, NAMESPACE);
      if name.None? then None
      else Some(Cluster(name.value, if space.Some? then space.value else "default"))
  }

  // ---------------------------------------------------------------- insertions that do not matter

  /** A line that starts none of what is looked for, except the version. */
  predicate Unseen(l: string) { l != METADATA && !HasPrefix(l, NAME) && !HasPrefix(l, NAMESPACE) }

  /** A line that ends whatever it is in: nothing runs on from it, or over it, to the lines below. */
  predicate Stops(l: string) { !Blank(l) && !OpensVersion(l) && !HasPrefix(l, KIND) }

  /** Lines that can go in below `prev`, or be taken out there. */
  ghost predicate Inert(prev: string, f: seq<string>) {
    && f != [] && (forall k :: 0 <= k < |f| ==> Unseen(f[k])) && Stops(f[|f| - 1])
    && (prev == METADATA ==> HasPrefix(f[0], "  "))
  }

  /** A line that can go in anywhere: indented, not white, and none of the two fields. */
  predicate Harmless(l: string) {
    HasPrefix(l, "  ") && !Blank(l) && !OpensVersion(l) && !HasPrefix(l, NAME) && !HasPrefix(l, NAMESPACE)
  }

  lemma HarmlessIsInert(prev: string, f: seq<string>)
    requires f != [] && forall k :: 0 <= k < |f| ==> Harmless(f[k])
    ensures Inert(prev, f)
  {
    hide Blank, OpensVersion, HasPrefix;
    forall k | 0 <= k < |f| ensures Unseen(f[k]) {
      IndentedIsNot(f[k]);
    }
    IndentedIsNot(f[|f| - 1]);
  }

  predicate OpenField(l: string, key: string) { HasPrefix(l, key) && Blank(l[|key|..]) }

  /** A place that is inside neither a header nor a field: it is enough to look at the line before
      and the line after. */
  predicate Quiet(ls: seq<string>, p: nat)
    requires 0 < p <= |ls|
  {
    var prev := ls[p - 1];
    && Stops(prev) && !OpenField(prev, NAME) && !OpenField(prev, NAMESPACE)
    && (prev == METADATA ==> p < |ls| && HasPrefix(ls[p], "  "))
    && (p < |ls| ==> !HasPrefix(ls[p], KIND) && ls[p] != METADATA)
  }

  lemma OpensHasApi(l: string)
    ensures OpensVersion(l) || VersionIn(l) ==> HasApi(l)
  {
  }

  lemma IndentedIsNot(l: string)
    requires HasPrefix(l, "  ")
    ensures !HasPrefix(l, KIND) && l != METADATA
  {
    PrefixChar(l, "  ", 0);
    PrefixChar(l, KIND, 0);
  }

  /** In the text a version ends where it ends without the new lines, and not on them, if a `kind:`
      line follows. */
  lemma VersionMoved(ls: seq<string>, p: nat, f: seq<string>, v: nat)
    requires 0 < p <= |ls| && Inert(ls[p - 1], f) && Quiet(ls, p)
    ensures v < p ==> VersionEnds(InsertAll(ls, p, f), v) == VersionEnds(ls, v)
    ensures p <= v < |ls| ==> VersionEnds(InsertAll(ls, p, f), v + |f|) == VersionEnds(ls, v)
  {
    hide Inert, Quiet, VersionIn, OpensVersion, Grouped, Blank, TrimLeft;
    var out := InsertAll(ls, p, f);
    InsertAllAt(ls, p, f);
    if v < p {
      forall i | 0 <= i < v ensures BlankBetween(out, i, v) == BlankBetween(ls, i, v) {
        BlankKept(ls, p, f, i, v);
      }
      assert VersionEnds(out, v) == VersionEnds(ls, v) by {
        assert forall i :: 0 <= i < v ==> out[i] == ls[i];
      }
    } else if v < |ls| {
      VersionBelow(ls, p, f, v);
    }
  }

  /** No version opens above a quiet place and ends below it. */
  lemma NoVersionAcross(ls: seq<string>, p: nat, i: nat, v: nat)
    requires 0 < p <= v < |ls| && !Blank(ls[p - 1]) && !OpensVersion(ls[p - 1])
    ensures i < p && OpensVersion(ls[i]) ==> !BlankBetween(ls, i, v)
  {
    hide Blank, OpensVersion;
  }

  lemma BlankMoved(ls: seq<string>, p: nat, f: seq<string>, i: nat, v: nat)
    requires p <= i <= v <= |ls|
    ensures BlankBetween(InsertAll(ls, p, f), i + |f|, v + |f|) == BlankBetween(ls, i, v)
  {
    hide Blank;
    var out, n := InsertAll(ls, p, f), |f|;
    InsertAllAt(ls, p, f);
    assert forall k :: i < k < v ==> out[k + n] == ls[k];
    assert forall k :: i + n < k < v + n ==> out[k] == ls[k - n];
  }

  lemma BlankKept(ls: seq<string>, p: nat, f: seq<string>, i: nat, v: nat)
    requires i <= v < p <= |ls|
    ensures BlankBetween(InsertAll(ls, p, f), i, v) == BlankBetween(ls, i, v)
  {
    hide Blank;
    InsertAllAt(ls, p, f);
  }

  lemma VersionBelow(ls: seq<string>, p: nat, f: seq<string>, v: nat)
    requires 0 < p <= v < |ls| && Inert(ls[p - 1], f) && Quiet(ls, p)
    ensures VersionEnds(InsertAll(ls, p, f), v + |f|) == VersionEnds(ls, v)
  {
    hide VersionIn, OpensVersion, Grouped, TrimLeft, Blank, BlankBetween;
    var out, n := InsertAll(ls, p, f), |f|;
    InsertAllAt(ls, p, f);
    forall i | 0 <= i < v && OpensVersion(ls[i]) && BlankBetween(ls, i, v)
      ensures OpensVersion(out[i + n]) && BlankBetween(out, i + n, v + n)
    {
      NoVersionAcross(ls, p, i, v);
      BlankMoved(ls, p, f, i, v);
    }
    forall i | 0 <= i < v + n && OpensVersion(out[i]) && BlankBetween(out, i, v + n)
      ensures i >= p + n && OpensVersion(ls[i - n]) && BlankBetween(ls, i - n, v)
    {
      NoVersionAcross(out, p + n, i, v + n);
      BlankMoved(ls, p, f, i - n, v);
    }
  }

  lemma KindMoved(ls: seq<string>, p: nat, f: seq<string>, a: nat, k: nat)
    requires p <= a <= k < |ls|
    ensures KindLines(InsertAll(ls, p, f), a + |f|, k + |f|) == KindLines(ls, a, k)
  {
    hide Blank, TrimLeft;
    InsertAllAt(ls, p, f);
    BlankMoved(ls, p, f, a, k);
  }

  lemma KindKept(ls: seq<string>, p: nat, f: seq<string>, a: nat, k: nat)
    requires a <= k < p <= |ls|
    ensures KindLines(InsertAll(ls, p, f), a, k) == KindLines(ls, a, k)
  {
    hide Blank, TrimLeft;
    InsertAllAt(ls, p, f);
    BlankKept(ls, p, f, a, k);
  }

  /** No kind starts above a quiet place and ends below it. */
  lemma NoKindAcross(ls: seq<string>, p: nat, a: nat, m: nat)
    requires 0 < p < m && a + 2 <= m < |ls| && a <= p && ls[m - 1] == METADATA
    requires !Blank(ls[p - 1]) && !HasPrefix(ls[p - 1], KIND) && !HasPrefix(ls[p], KIND) && ls[p] != METADATA
    ensures !KindLines(ls, a, m - 2)
  {
    hide Blank, TrimLeft;
  }

  lemma HeaderKept(ls: seq<string>, p: nat, f: seq<string>, m: nat)
    requires 0 < p <= |ls| && Inert(ls[p - 1], f) && Quiet(ls, p) && m <= p
    ensures HeaderEnds(InsertAll(ls, p, f), m) == HeaderEnds(ls, m)
  {
    hide KindLines, VersionEnds;
    var out := InsertAll(ls, p, f);
    InsertAllAt(ls, p, f);
    forall a | 1 <= a <= m - 2 && m < |ls| ensures KindEnds(out, a, m) == KindEnds(ls, a, m) {
      KindKept(ls, p, f, a, m - 2);
      VersionMoved(ls, p, f, a - 1);
    }
  }

  lemma HeaderMoved(ls: seq<string>, p: nat, f: seq<string>, m: nat)
    requires 0 < p <= |ls| && Inert(ls[p - 1], f) && Quiet(ls, p) && p < m < |ls|
    ensures HeaderEnds(InsertAll(ls, p, f), m + |f|) == HeaderEnds(ls, m)
  {
    hide KindLines, VersionEnds, Blank, OpensVersion;
    var out, n := InsertAll(ls, p, f), |f|;
    InsertAllAt(ls, p, f);
    assert out[p + n - 1] == f[n - 1] && out[p + n] == ls[p];
    if HeaderEnds(ls, m) {
      var a :| 1 <= a <= m - 2 && KindEnds(ls, a, m);
      if a <= p {
        NoKindAcross(ls, p, a, m);
      }
      KindMoved(ls, p, f, a, m - 2);
      VersionMoved(ls, p, f, a - 1);
      assert KindEnds(out, a + n, m + n);
    }
    if HeaderEnds(out, m + n) {
      var a :| 1 <= a <= m + n - 2 && KindEnds(out, a, m + n);
      if a <= p + n {
        NoKindAcross(out, p + n, a, m + n);
      }
      KindMoved(ls, p, f, a - n, m - 2);
      VersionMoved(ls, p, f, a - n - 1);
      assert KindEnds(ls, a - n, m);
    }
  }

  /** New lines do not end a header: the line after a `metadata:` line is never one of the later
      new lines or the line below them. */
  lemma NoHeaderInside(ls: seq<string>, p: nat, f: seq<string>, m: nat)
    requires p <= |ls| && (forall k :: 0 <= k < |f| ==> Unseen(f[k])) && p < m <= p + |f|
    ensures !HeaderEnds(InsertAll(ls, p, f), m)
  {
    hide KindEnds;
    InsertAllAt(ls, p, f);
  }

  lemma {:induction false} FindHeaderIs(ls: seq<string>, i: nat, r: Option<nat>)
    requires i <= |ls|
    requires r.Some? ==> i <= r.value < |ls| && HeaderEnds(ls, r.value)
    requires forall k :: i <= k < (if r.Some? then r.value else |ls|) ==> !HeaderEnds(ls, k)
    ensures FindHeader(ls, i) == r
    decreases |ls| - i
  {
    hide HeaderEnds;
    if i < |ls| && r != Some(i) {
      FindHeaderIs(ls, i + 1, r);
    }
  }

  /** Every header of the new text is one of the old text. */
  lemma HeaderWasThere(ls: seq<string>, p: nat, f: seq<string>, k: nat)
    requires 0 < p <= |ls| && Inert(ls[p - 1], f) && Quiet(ls, p)
    requires HeaderEnds(InsertAll(ls, p, f), k)
    ensures if k <= p then k < |ls| && HeaderEnds(ls, k) else k > p + |f| && k - |f| < |ls| && HeaderEnds(ls, k - |f|)
  {
    hide Unseen, Stops, Quiet, KindEnds;
    if k <= p {
      HeaderKept(ls, p, f, k);
    } else if k <= p + |f| {
      NoHeaderInside(ls, p, f, k);
    } else {
      HeaderMoved(ls, p, f, k - |f|);
    }
  }

  /** The header stays where it is, or moves down with its line. */
  lemma HeaderFound(ls: seq<string>, p: nat, f: seq<string>)
    requires 0 < p <= |ls| && Inert(ls[p - 1], f) && Quiet(ls, p)
    ensures var m := FindHeader(ls, 0);
      FindHeader(InsertAll(ls, p, f), 0)
        == if m.None? then None else Some(if m.value <= p then m.value else m.value + |f|)
  {
    hide HeaderEnds, Inert, Quiet;
    var out, n := InsertAll(ls, p, f), |f|;
    var m := FindHeader(ls, 0);
    var r := if m.None? then None else Some(if m.value <= p then m.value else m.value + n);
    forall k | 0 <= k < (if r.Some? then r.value else |out|) ensures !HeaderEnds(out, k) {
      if HeaderEnds(out, k) {
        HeaderWasThere(ls, p, f, k);
      }
    }
    if m.Some? {
      if m.value <= p {
        HeaderKept(ls, p, f, m.value);
      } else {
        HeaderMoved(ls, p, f, m.value);
      }
    }
    FindHeaderIs(out, 0, r);
  }

  // The fields.

  /** A capture depends on its line and what follows up to the next line that is not white. */
  lemma CaptureSame(a: seq<string>, i: nat, b: seq<string>, j: nat, key: string)
    requires i < |a| && j < |b| && a[i] == b[j] && HasPrefix(a[i], key)
    requires var x, y := NextNonBlank(a, i + 1), NextNonBlank(b, j + 1);
      a[i + 1..x] == b[j + 1..y] && (x == |a| <==> y == |b|) && (x < |a| ==> a[x] == b[y])
    ensures Capture(a, i, key) == Capture(b, j, key)
  {
    hide NextNonBlank, Blank, InLine, LastChar;
  }

  lemma CaptureOnLine(a: seq<string>, i: nat, b: seq<string>, j: nat, key: string)
    requires i < |a| && j < |b| && a[i] == b[j] && HasPrefix(a[i], key) && !OpenField(a[i], key)
    ensures Capture(a, i, key) == Capture(b, j, key)
  {
    hide NextNonBlank, Blank, InLine, LastChar;
  }

  lemma CaptureAbove(ls: seq<string>, p: nat, f: seq<string>, i: nat, key: string)
    requires i < p <= |ls| && HasPrefix(ls[i], key) && !Blank(ls[p - 1]) && !OpenField(ls[p - 1], key)
    ensures var out := InsertAll(ls, p, f); out[i] == ls[i] && Capture(out, i, key) == Capture(ls, i, key)
  {
    hide Capture, NextNonBlank, Blank;
    var out := InsertAll(ls, p, f);
    InsertAllAt(ls, p, f);
    if i == p - 1 {
      CaptureOnLine(out, i, ls, i, key);
    } else {
      NextNonBlankKept(ls, p, f, i + 1, p - 1);
      var x := NextNonBlank(ls, i + 1);
      assert out[i + 1..x] == ls[i + 1..x];
      CaptureSame(out, i, ls, i, key);
    }
  }

  lemma CaptureBelow(ls: seq<string>, p: nat, f: seq<string>, i: nat, key: string)
    requires p <= i < |ls| && HasPrefix(ls[i], key)
    ensures var out := InsertAll(ls, p, f);
      out[i + |f|] == ls[i] && Capture(out, i + |f|, key) == Capture(ls, i, key)
  {
    hide Capture, NextNonBlank, InsertAll, Blank, HasPrefix;
    var out, n := InsertAll(ls, p, f), |f|;
    InsertAllAt(ls, p, f);
    NextNonBlankMoved(ls, p, f, i + 1);
    var x := NextNonBlank(ls, i + 1);
    InsertTail(ls, p, f, i + 1, x);
    CaptureSame(out, i + n, ls, i, key);
  }

  lemma InsertTail(ls: seq<string>, p: nat, f: seq<string>, i: nat, x: nat)
    requires p <= i <= x <= |ls|
    ensures InsertAll(ls, p, f)[i + |f|..x + |f|] == ls[i..x]
  {
    InsertAllAt(ls, p, f);
  }

  lemma {:induction false} FieldBelowSame(ls: seq<string>, p: nat, f: seq<string>, i: nat, key: string)
    requires p <= i <= |ls|
    ensures FirstField(InsertAll(ls, p, f), i + |f|, key) == FirstField(ls, i, key)
    decreases |ls| - i
  {
    hide Capture;
    InsertAllAt(ls, p, f);
    if i < |ls| {
      if HasPrefix(ls[i], key) {
        CaptureBelow(ls, p, f, i, key);
      }
      FieldBelowSame(ls, p, f, i + 1, key);
    }
  }

  lemma {:induction false} FieldSkipsNew(ls: seq<string>, p: nat, f: seq<string>, k: nat, key: string)
    requires p <= |ls| && k <= |f| && forall j :: 0 <= j < |f| ==> !HasPrefix(f[j], key)
    ensures FirstField(InsertAll(ls, p, f), p + k, key) == FirstField(ls, p, key)
    decreases |f| - k
  {
    hide Capture;
    InsertAllAt(ls, p, f);
    if k < |f| {
      FieldSkipsNew(ls, p, f, k + 1, key);
    } else {
      FieldBelowSame(ls, p, f, p, key);
    }
  }

  lemma {:induction false} FieldKept(ls: seq<string>, p: nat, f: seq<string>, i: nat, key: string)
    requires 0 < p <= |ls| && i <= p && !Blank(ls[p - 1]) && !OpenField(ls[p - 1], key)
    requires forall j :: 0 <= j < |f| ==> !HasPrefix(f[j], key)
    ensures FirstField(InsertAll(ls, p, f), i, key) == FirstField(ls, i, key)
    decreases p - i
  {
    hide Capture, Blank;
    InsertAllAt(ls, p, f);
    if i == p {
      FieldSkipsNew(ls, p, f, 0, key);
    } else {
      if HasPrefix(ls[i], key) {
        CaptureAbove(ls, p, f, i, key);
      }
      FieldKept(ls, p, f, i + 1, key);
    }
  }

  /** New lines at a quiet place change neither the name nor the namespace that is read. */
  lemma InsertionKeepsIdentity(ls: seq<string>, p: nat, f: seq<string>)
    requires 0 < p <= |ls| && Inert(ls[p - 1], f) && Quiet(ls, p)
    ensures Discover(InsertAll(ls, p, f)) == Discover(ls)
  {
    hide FirstField, FindHeader, Inert, Quiet, HeaderEnds, InsertAll;
    HeaderFound(ls, p, f);
    var m := FindHeader(ls, 0);
    if m.Some? {
      FieldFrom(ls, p, f, m.value, NAME);
      FieldFrom(ls, p, f, m.value, NAMESPACE);
    }
  }

  lemma FieldFrom(ls: seq<string>, p: nat, f: seq<string>, m: nat, key: string)
    requires 0 < p <= |ls| && Inert(ls[p - 1], f) && Quiet(ls, p) && m <= |ls|
    requires key == NAME || key == NAMESPACE
    ensures FirstField(InsertAll(ls, p, f), if m <= p then m else m + |f|, key) == FirstField(ls, m, key)
  {
    hide Blank, OpensVersion, FirstField, TrimLeft;
    if m <= p {
      FieldKept(ls, p, f, m, key);
    } else {
      FieldBelowSame(ls, p, f, m, key);
    }
  }

  lemma SeparatorIsQuiet()
    ensures !HasPrefix(SEPARATOR, KIND) && SEPARATOR != METADATA
  {
    PrefixChar(SEPARATOR, KIND, 0);
  }

  /** The same for new lines in one document of the text. */
  lemma InsertionInDocKeepsIdentity(docs: seq<seq<string>>, k: nat, p: nat, f: seq<string>)
    requires k < |docs| && 0 < p <= |docs[k]|
    requires Inert(docs[k][p - 1], f) && Quiet(docs[k], p)
    ensures Discover(JoinDocs(docs[k := InsertAll(docs[k], p, f)])) == Discover(JoinDocs(docs))
  {
    hide Discover, Inert, InsertAll, JoinDocs, OpensVersion, Blank;
    var at := InsertInDoc(docs, k, p, f);
    SeparatorIsQuiet();
    InsertionKeepsIdentity(JoinDocs(docs), at, f);
  }

  // ---------------------------------------------------------------- whose namespace is it

  lemma CaptureCut(ls: seq<string>, e: nat, i: nat, key: string)
    requires i < e <= |ls| && HasPrefix(ls[i], key) && !Blank(ls[e - 1]) && !OpenField(ls[e - 1], key)
    ensures Capture(ls[..e], i, key) == Capture(ls, i, key)
  {
    hide Capture, Blank, NextNonBlank;
    if i == e - 1 {
      CaptureOnLine(ls[..e], i, ls, i, key);
    } else {
      NextCut(ls, e, i + 1);
      var x := NextNonBlank(ls, i + 1);
      assert ls[..e][i + 1..x] == ls[i + 1..x];
      CaptureSame(ls[..e], i, ls, i, key);
    }
  }

  lemma {:induction false} NextCut(ls: seq<string>, e: nat, i: nat)
    requires i < e <= |ls| && !Blank(ls[e - 1])
    ensures NextNonBlank(ls[..e], i) == NextNonBlank(ls, i) < e
    decreases e - i
  {
    hide Blank;
    if i < e - 1 && Blank(ls[i]) {
      NextCut(ls, e, i + 1);
    }
  }

  /** Reading a field from line `m` on is reading it up to line `e`, and if it is not there, from
      line `e` on. */
  lemma {:induction false} FieldSplit(ls: seq<string>, m: nat, e: nat, key: string)
    requires m <= e <= |ls| && 0 < e && !Blank(ls[e - 1]) && !OpenField(ls[e - 1], key)
    ensures FirstField(ls, m, key)
      == if FirstField(ls[..e], m, key).Some? then FirstField(ls[..e], m, key) else FirstField(ls, e, key)
    decreases e - m
  {
    hide Capture, Blank;
    if m < e {
      if HasPrefix(ls[m], key) {
        CaptureCut(ls, e, m, key);
      }
      FieldSplit(ls, m + 1, e, key);
    }
  }

  /** The end of the metadata block that starts at line `m`. */
  function MetaEnd(ls: seq<string>, m: nat): (e: nat)
    requires m <= |ls|
    ensures m <= e <= |ls| && (m < |ls| && HasPrefix(ls[m], "  ") ==> m < e)
    decreases |ls| - m
  {
    if m == |ls| || !HasPrefix(ls[m], "  ") then m else MetaEnd(ls, m + 1)
  }

  /** What the metadata block of the Cluster itself says. */
  function Own(ls: seq<string>, m: nat, key: string): Option<string>
    requires m <= |ls|
  {
    FirstField(ls[..MetaEnd(ls, m)], m, key)
  }

  function OrDefault(v: Option<string>): string { if v.Some? then v.value else "default" }

  /** The function is described as reading the metadata block, but it reads on to the end of the
      text. The namespace it returns is the Cluster's own one, or the default, exactly when the
      block names a namespace, or no later line of any document does, or that line says
      "default". */
  lemma NamespaceIsOwnIff(ls: seq<string>, m: nat)
    requires FindHeader(ls, 0) == Some(m) && Discover(ls).Some?
    requires var e := MetaEnd(ls, m); !Blank(ls[e - 1]) && !OpenField(ls[e - 1], NAMESPACE)
    ensures Discover(ls).value.namespace_ == OrDefault(Own(ls, m, NAMESPACE))
      <==> Own(ls, m, NAMESPACE).Some? || OrDefault(FirstField(ls, MetaEnd(ls, m), NAMESPACE)) == "default"
  {
    hide FirstField, Blank;
    FieldSplit(ls, m, MetaEnd(ls, m), NAMESPACE);
  }

  /** Likewise the name: where the block has none, the function does not give up, as long as some
      later line has one. */
  lemma NameIsOwnIff(ls: seq<string>, m: nat)
    requires FindHeader(ls, 0) == Some(m)
    requires var e := MetaEnd(ls, m); !Blank(ls[e - 1]) && !OpenField(ls[e - 1], NAME)
    ensures (if Discover(ls).Some? then Some(Discover(ls).value.name) else None) == Own(ls, m, NAME)
      <==> Own(ls, m, NAME).Some? || FirstField(ls, MetaEnd(ls, m), NAME).None?
  {
    hide FirstField, Blank;
    FieldSplit(ls, m, MetaEnd(ls, m), NAME);
  }

  /** The lines of a Cluster named `a` without a namespace. */
  const LONE: seq<string> := [API + " " + (GROUP + "v1beta1"), KIND + " " + CLUSTER_WORD, METADATA, NAME + " " + "a"]

  lemma VersionOnLine(u: string)
    requires Grouped(u) && u[0] == GROUP[0]
    ensures VersionIn(API + " " + u)
  {
    var l := API + " " + u;
    LeadIs(Regex, " ", u);
    assert l[|API|..] == " " + u && TrimLeft(Regex, l[|API|..]) == u;
    assert l[0..] == l && l[..|API|] == API;
    assert ApiAt(l, 0);
  }

  lemma KindOnLine(ls: seq<string>, a: nat)
    requires a < |ls| && ls[a] == KIND + " " + CLUSTER_WORD
    ensures KindLines(ls, a, a)
  {
    var l := ls[a];
    LeadIs(Regex, " ", CLUSTER_WORD);
    assert l[|KIND|..] == " " + CLUSTER_WORD && l[..|KIND|] == KIND;
  }

  lemma GroupedVersion(v: string)
    requires v != ""
    ensures Grouped(GROUP + v) && (GROUP + v)[0] == GROUP[0]
  {
    assert (GROUP + v)[..|GROUP|] == GROUP;
  }

  /** The first lines of a Cluster, with any metadata. */
  lemma HeaderOfThree(ls: seq<string>)
    requires |ls| > 3 && ls[..3] == LONE[..3] && HasPrefix(ls[3], "  ")
    ensures FindHeader(ls, 0) == Some(3)
  {
    hide VersionIn, KindLines, FindHeader, Grouped;
    var l, k := API + " " + (GROUP + "v1beta1"), KIND + " " + CLUSTER_WORD;
    assert ls[0] == ls[..3][0] == l && ls[1] == ls[..3][1] == k && ls[2] == ls[..3][2] == METADATA;
    GroupedVersion("v1beta1");
    VersionOnLine(GROUP + "v1beta1");
    KindOnLine(ls, 1);
    assert KindEnds(ls, 1, 3);
    assert HeaderEnds(ls, 3);
    PrefixChar(l, "  ", 0);
    PrefixChar(k, "  ", 0);
    PrefixChar(METADATA, "  ", 0);
    hide HeaderEnds;
    FindHeaderIs(ls, 0, Some(3));
  }

  lemma LoneHeader(rest: seq<string>)
    ensures FindHeader(LONE + rest, 0) == Some(3)
  {
    var ls := LONE + rest;
    assert ls[3] == NAME + " " + "a" && ls[3][..2] == "  ";
    HeaderOfThree(ls);
  }

  lemma SpacedCapture(ls: seq<string>, i: nat, key: string, v: string)
    requires i < |ls| && ls[i] == key + " " + v && v != "" && QUOTE !in v && !White(Regex, v[0])
    ensures HasPrefix(ls[i], key) && Capture(ls, i, key) == Some(v)
  {
    hide Blank;
    assert ls[i] == key + (" " + v);
    var r := ls[i][|key|..];
    assert r == " " + v;
    LeadIs(Regex, " ", v);
    assert r[1..] == v;
    QuoteFreeAll(v);
    assert v[..|v|] == v;
    assert !Blank(r) by { NotBlank(r); }
  }

  lemma NotBlank(r: string)
    ensures Lead(Regex, r) < |r| ==> !Blank(r)
  {}

  lemma {:induction false} QuoteFreeAll(u: string)
    requires QUOTE !in u
    ensures QuoteFree(u) == |u|
  {
    if u != "" {
      QuoteFreeAll(u[1..]);
    }
  }

  /** A manifest for which the namespace is not the Cluster's: the Cluster has none, and a later
      document has one. */
  lemma ForeignNamespace(v: string)
    requires v != "" && QUOTE !in v && !White(Regex, v[0])
    ensures var ls := LONE + [SEPARATOR, METADATA, NAMESPACE + " " + v];
      Discover(ls) == Some(Cluster("a", v)) && FindHeader(ls, 0) == Some(3) && Own(ls, 3, NAMESPACE) == None
  {
    var ls := LONE + [SEPARATOR, METADATA, NAMESPACE + " " + v];
    LoneHeader([SEPARATOR, METADATA, NAMESPACE + " " + v]);
    assert ls[3] == NAME + " " + "a" && ls[4] == SEPARATOR && ls[5] == METADATA && ls[6] == NAMESPACE + " " + v;
    hide Capture, FindHeader;
    SpacedCapture(ls, 3, NAME, "a");
    SpacedCapture(ls, 6, NAMESPACE, v);
    PrefixChar(ls[3], NAMESPACE, 4);
    PrefixChar(SEPARATOR, NAMESPACE, 0);
    PrefixChar(METADATA, NAMESPACE, 0);
    PrefixChar(SEPARATOR, "  ", 0);
    assert FirstField(ls, 3, NAMESPACE) == FirstField(ls, 4, NAMESPACE) == FirstField(ls, 5, NAMESPACE)
      == FirstField(ls, 6, NAMESPACE);
    assert MetaEnd(ls, 4) == 4 && MetaEnd(ls, 3) <= 4;
    var cut := ls[..MetaEnd(ls, 3)];
    assert |cut| <= 4 && (|cut| == 4 ==> cut[3] == ls[3] && FirstField(cut, 4, NAMESPACE) == None);
  }
}
