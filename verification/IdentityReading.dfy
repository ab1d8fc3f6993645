/** How the identity is read off a manifest, document by document: the reading of a text is put
    together from the readings of its documents (DiscoverWorkloadClusterIdentity in
    internal/capi/manifest/generate.go). */
module IdentityReading {
  import opened Wrappers
  import opened Text
  import opened Identity

  // ---------------------------------------------------------------- values on their lines

  /** Every name and namespace has its value on its line. */
  predicate OnLine(ls: seq<string>) {
    forall i :: 0 <= i < |ls| ==> LineOnLine(ls[i])
  }

  predicate LineOnLine(l: string) { !OpenField(l, NAME) && !OpenField(l, NAMESPACE) }

  /** What a line says for a key. */
  function LineValue(l: string, key: string): Option<string> {
    if HasPrefix(l, key) then InLine(l[|key|..]) else None
  }

  function FirstValue(ls: seq<string>, key: string): Option<string> {
    if ls == [] then None
    else if LineValue(ls[0], key).Some? then LineValue(ls[0], key)
    else FirstValue(ls[1..], key)
  }

  lemma {:induction false} FieldIsValue(ls: seq<string>, i: nat, key: string)
    requires OnLine(ls) && i <= |ls| && (key == NAME || key == NAMESPACE)
    ensures FirstField(ls, i, key) == FirstValue(ls[i..], key)
    decreases |ls| - i
  {
    hide InLine, Blank, NextNonBlank, LastChar;
    if i < |ls| {
      FieldIsValue(ls, i + 1, key);
      assert ls[i..][1..] == ls[i + 1..];
    }
  }

  function OrElse(a: Option<string>, b: Option<string>): Option<string> { if a.Some? then a else b }

  lemma {:induction false} ValueCat(a: seq<string>, b: seq<string>, key: string)
    ensures FirstValue(a + b, key) == OrElse(FirstValue(a, key), FirstValue(b, key))
  {
    hide LineValue;
    if a == [] {
      assert a + b == b;
    } else {
      ValueCat(a[1..], b, key);
      assert (a + b)[1..] == a[1..] + b;
    }
  }

  // ---------------------------------------------------------------- readings

  /** The first name and the first namespace of some lines. */
  datatype Said = Said(name: Option<string>, space: Option<string>)

  function Says(ls: seq<string>): Said { Said(FirstValue(ls, NAME), FirstValue(ls, NAMESPACE)) }

  function Or(a: Said, b: Said): Said { Said(OrElse(a.name, b.name), OrElse(a.space, b.space)) }

  lemma SaysCat(a: seq<string>, b: seq<string>)
    ensures Says(a + b) == Or(Says(a), Says(b))
  {
    ValueCat(a, b, NAME);
    ValueCat(a, b, NAMESPACE);
  }

  /** What is read off some lines: what they say, and what they say from the header on. */
  datatype Reading = Reading(all: Said, header: Option<Said>)

  const NOTHING := Reading(Said(None, None), None)

  /** The header is looked for in some lines and the values in others, at the same places. */
  function ReadWith(head: seq<string>, vals: seq<string>): Reading
    requires |head| <= |vals|
  {
    var m := FindHeader(head, 0);
    Reading(Says(vals), if m.None? then None else Some(Says(vals[m.value..])))
  }

  function ReadLines(ls: seq<string>): Reading { ReadWith(ls, ls) }

  /** One after the other. */
  function Then(a: Reading, b: Reading): Reading {
    Reading(Or(a.all, b.all), if a.header.Some? then Some(Or(a.header.value, b.all)) else b.header)
  }

  function Whole(rs: seq<Reading>): Reading {
    if rs == [] then NOTHING else Then(rs[0], Whole(rs[1..]))
  }

  /** The identity that a reading stands for. */
  function Identify(r: Reading): Option<Cluster> {
    if r.header.None? || r.header.value.name.None? then None
    else Some(Cluster(r.header.value.name.value, OrDefault(r.header.value.space)))
  }

  lemma DiscoverReads(ls: seq<string>)
    requires OnLine(ls)
    ensures Discover(ls) == Identify(ReadLines(ls))
  {
    hide FirstField, FirstValue, FindHeader, OnLine;
    var m := FindHeader(ls, 0);
    if m.Some? {
      FieldIsValue(ls, m.value, NAME);
      FieldIsValue(ls, m.value, NAMESPACE);
    }
  }

  // ---------------------------------------------------------------- a header does not cross a line

  /** A line that is no part of a header. */
  predicate Dull(l: string) {
    && l != METADATA && !HasPrefix(l, KIND) && TrimLeft(Regex, l) != CLUSTER_WORD
    && !VersionIn(l) && !OpensVersion(l) && !Grouped(TrimLeft(Regex, l))
  }

  /** Nothing reaches from these lines into what stands below them. */
  predicate Sealed(top: seq<string>) {
    top != [] && Dull(top[|top| - 1]) && (|top| == 1 || !Blank(top[|top| - 1]))
  }

  lemma BlankBelow(top: seq<string>, ls: seq<string>, i: nat, j: nat)
    requires i <= j <= |ls|
    ensures BlankBetween(top + ls, |top| + i, |top| + j) == BlankBetween(ls, i, j)
  {
    hide Blank;
    var out, n := top + ls, |top|;
    assert forall k :: i < k < j ==> out[k + n] == ls[k];
    assert forall k :: i + n < k < j + n ==> out[k] == ls[k - n];
  }

  lemma NotAcross(top: seq<string>, ls: seq<string>, i: nat, j: nat)
    requires Sealed(top) && i < |top| - 1 && |top| <= j <= |top + ls|
    ensures !BlankBetween(top + ls, i, j)
  {
    hide Blank, Dull;
    assert (top + ls)[|top| - 1] == top[|top| - 1];
  }

  lemma VersionBelowTop(top: seq<string>, ls: seq<string>, v: nat)
    requires Sealed(top) && v < |ls|
    ensures VersionEnds(top + ls, |top| + v) == VersionEnds(ls, v)
  {
    hide VersionIn, OpensVersion, Grouped, TrimLeft, Blank, BlankBetween;
    var out, n := top + ls, |top|;
    forall i | 0 <= i < v && OpensVersion(ls[i]) && BlankBetween(ls, i, v)
      ensures OpensVersion(out[i + n]) && BlankBetween(out, i + n, v + n)
    {
      BlankBelow(top, ls, i, v);
    }
    forall i | 0 <= i < v + n && OpensVersion(out[i]) && BlankBetween(out, i, v + n)
      ensures i >= n && OpensVersion(ls[i - n]) && BlankBetween(ls, i - n, v)
    {
      if i < n - 1 {
        NotAcross(top, ls, i, v + n);
      }
      assert i != n - 1;
      BlankBelow(top, ls, i - n, v);
    }
  }

  lemma KindBelowTop(top: seq<string>, ls: seq<string>, a: nat, k: nat)
    requires a <= k < |ls|
    ensures KindLines(top + ls, |top| + a, |top| + k) == KindLines(ls, a, k)
  {
    hide Blank, TrimLeft;
    BlankBelow(top, ls, a, k);
  }

  lemma KindStartsBelow(top: seq<string>, ls: seq<string>, a: nat, m: nat)
    requires Sealed(top) && 1 <= a <= m - 2 && |top| < m < |top + ls| && KindEnds(top + ls, a, m)
    requires (top + ls)[m - 1] == METADATA
    ensures a > |top|
  {
    hide Blank, TrimLeft, VersionIn, OpensVersion, Grouped;
    var out, n := top + ls, |top|;
    assert out[n - 1] == top[n - 1];
    if a == n {
      TopEndsNoVersion(top, ls);
    }
  }

  lemma TopEndsNoVersion(top: seq<string>, ls: seq<string>)
    requires Sealed(top)
    ensures !VersionEnds(top + ls, |top| - 1)
  {
    hide Blank, TrimLeft, VersionIn, OpensVersion, Grouped;
    assert (top + ls)[|top| - 1] == top[|top| - 1];
  }

  lemma HeaderBelowTop(top: seq<string>, ls: seq<string>, m: nat)
    requires Sealed(top) && m < |ls|
    ensures HeaderEnds(top + ls, |top| + m) == HeaderEnds(ls, m)
  {
    hide KindLines, VersionEnds, Sealed;
    var out, n := top + ls, |top|;
    if HeaderEnds(ls, m) {
      var a :| 1 <= a <= m - 2 && KindEnds(ls, a, m);
      KindBelowTop(top, ls, a, m - 2);
      VersionBelowTop(top, ls, a - 1);
      assert KindEnds(out, a + n, m + n);
    }
    if HeaderEnds(out, m + n) {
      SealedNoMeta(top, ls, m);
      var a :| 1 <= a <= m + n - 2 && KindEnds(out, a, m + n);
      KindStartsBelow(top, ls, a, m + n);
      KindBelowTop(top, ls, a - n, m - 2);
      VersionBelowTop(top, ls, a - n - 1);
      assert KindEnds(ls, a - n, m);
    }
  }

  lemma SealedNoMeta(top: seq<string>, ls: seq<string>, m: nat)
    requires Sealed(top) && m < |ls| && HeaderEnds(top + ls, |top| + m)
    ensures m > 0 && ls[m - 1] == METADATA
  {
    hide KindEnds, Blank, TrimLeft, VersionIn, OpensVersion, Grouped;
    assert (top + ls)[|top| - 1] == top[|top| - 1];
  }

  /** A header depends on the lines up to its end. */
  lemma HeaderByPrefix(a: seq<string>, b: seq<string>, m: nat)
    requires m < |a| && m < |b| && a[..m] == b[..m] && (HasPrefix(a[m], "  ") <==> HasPrefix(b[m], "  "))
    ensures HeaderEnds(a, m) == HeaderEnds(b, m)
  {
    HeaderFromPrefix(a, b, m);
    HeaderFromPrefix(b, a, m);
  }

  lemma HeaderFromPrefix(a: seq<string>, b: seq<string>, m: nat)
    requires m < |a| && m < |b| && a[..m] == b[..m] && (HasPrefix(a[m], "  ") <==> HasPrefix(b[m], "  "))
    ensures HeaderEnds(a, m) ==> HeaderEnds(b, m)
  {
    hide Blank, TrimLeft, VersionIn, OpensVersion, Grouped, HasPrefix;
    assert forall i :: 0 <= i < m ==> a[i] == a[..m][i] && b[i] == b[..m][i];
    if HeaderEnds(a, m) {
      var s :| 1 <= s <= m - 2 && KindEnds(a, s, m);
      assert KindLines(b, s, m - 2);
      VersionByPrefix(a, b, m, s - 1);
      assert KindEnds(b, s, m);
    }
  }

  lemma VersionByPrefix(a: seq<string>, b: seq<string>, m: nat, v: nat)
    requires v < m <= |a| && m <= |b| && (forall i :: 0 <= i < m ==> a[i] == b[i]) && VersionEnds(a, v)
    ensures VersionEnds(b, v)
  {
    hide Blank, TrimLeft, VersionIn, OpensVersion, Grouped;
    if !VersionIn(a[v]) {
      var i :| 0 <= i < v && OpensVersion(a[i]) && BlankBetween(a, i, v);
      assert BlankBetween(b, i, v);
    }
  }

  // ---------------------------------------------------------------- documents are read one by one

  lemma SeparatorIsDull()
    ensures Dull(SEPARATOR) && !Blank(SEPARATOR)
    ensures LineValue(SEPARATOR, NAME).None? && LineValue(SEPARATOR, NAMESPACE).None?
  {
    PrefixChar(SEPARATOR, KIND, 0);
    assert Lead(Regex, SEPARATOR) == 0;
    assert TrimLeft(Regex, SEPARATOR) == SEPARATOR;
    PrefixChar(SEPARATOR, GROUP, 0);
    PrefixChar(SEPARATOR, NAME, 0);
    PrefixChar(SEPARATOR, NAMESPACE, 0);
    assert |SEPARATOR| < |API|;
  }

  /** The reading of lines below a seal is that of the lines. */
  lemma FindBelow(top: seq<string>, ls: seq<string>)
    requires Sealed(top) && FindHeader(top, 0).None?
    ensures var m := FindHeader(ls, 0);
      FindHeader(top + ls, 0) == if m.None? then None else Some(|top| + m.value)
  {
    hide HeaderEnds, Sealed;
    var m := FindHeader(ls, 0);
    var r := if m.None? then None else Some(|top| + m.value);
    forall k | 0 <= k < (if r.Some? then r.value else |top + ls|) ensures !HeaderEnds(top + ls, k) {
      if k < |top| {
        HeaderByPrefix(top + ls, top, k);
      } else {
        HeaderBelowTop(top, ls, k - |top|);
      }
    }
    if m.Some? {
      HeaderBelowTop(top, ls, m.value);
    }
    FindHeaderIs(top + ls, 0, r);
  }

  lemma FindAbove(top: seq<string>, ls: seq<string>)
    requires FindHeader(top, 0).Some?
    ensures FindHeader(top + ls, 0) == FindHeader(top, 0)
  {
    hide HeaderEnds;
    var m := FindHeader(top, 0);
    forall k | 0 <= k <= m.value ensures HeaderEnds(top + ls, k) == HeaderEnds(top, k) {
      HeaderByPrefix(top + ls, top, k);
    }
    FindHeaderIs(top + ls, 0, m);
  }

  lemma ReadSealed(top: seq<string>, ls: seq<string>)
    requires Sealed(top)
    ensures ReadLines(top + ls) == Then(ReadLines(top), ReadLines(ls))
  {
    hide FindHeader, Says, Sealed;
    SaysCat(top, ls);
    var m := FindHeader(top, 0);
    if m.Some? {
      FindAbove(top, ls);
      assert (top + ls)[m.value..] == top[m.value..] + ls;
      SaysCat(top[m.value..], ls);
    } else {
      FindBelow(top, ls);
      var n := FindHeader(ls, 0);
      if n.Some? {
        assert (top + ls)[|top| + n.value..] == ls[n.value..];
      }
    }
  }

  /** A separator below a document is not read. */
  lemma ReadMarker(d: seq<string>)
    ensures ReadLines(d + [SEPARATOR]) == ReadLines(d)
  {
    ReadSilent(d, SEPARATOR);
  }

  predicate Silent(l: string) {
    !HasPrefix(l, "  ") && LineValue(l, NAME).None? && LineValue(l, NAMESPACE).None?
  }

  lemma SilentLines()
    ensures Silent(SEPARATOR) && Silent("")
  {
    SeparatorIsDull();
    PrefixChar(SEPARATOR, "  ", 0);
  }

  lemma ReadSilent(d: seq<string>, l: string)
    requires l == SEPARATOR || l == ""
    ensures ReadLines(d + [l]) == ReadLines(d)
  {
    hide HeaderEnds, InLine;
    SilentLines();
    SaysCat(d, [l]);
    SaysOne(l);
    var m := FindHeader(d, 0);
    if m.Some? {
      FindAbove(d, [l]);
      assert (d + [l])[m.value..] == d[m.value..] + [l];
      SaysCat(d[m.value..], [l]);
    } else {
      forall k | 0 <= k <= |d| ensures !HeaderEnds(d + [l], k) {
        if k < |d| {
          HeaderByPrefix(d + [l], d, k);
        } else {
          NotIndented(d + [l], k);
        }
      }
      FindHeaderIs(d + [l], 0, None);
    }
  }

  lemma NotIndented(ls: seq<string>, m: nat)
    requires m < |ls| && !HasPrefix(ls[m], "  ")
    ensures !HeaderEnds(ls, m)
  {}

  lemma SaysOne(l: string)
    requires Silent(l)
    ensures Says([l]) == Said(None, None)
  {
    hide LineValue;
    assert FirstValue([l][1..], NAME) == None && FirstValue([l][1..], NAMESPACE) == None;
  }

  function Readings(docs: seq<seq<string>>): (rs: seq<Reading>)
    ensures |rs| == |docs|
  {
    if docs == [] then [] else [ReadLines(docs[0])] + Readings(docs[1..])
  }

  lemma ThenNothing(r: Reading)
    ensures Then(r, NOTHING) == r && Then(NOTHING, r) == r
  {}

  /** A text is read as its documents are read, one after the other. */
  lemma {:induction false} ReadJoined(docs: seq<seq<string>>)
    requires docs != []
    ensures ReadLines(JoinDocs(docs)) == Whole(Readings(docs))
  {
    hide ReadLines;
    var rs := Readings(docs);
    if |docs| == 1 {
      ThenNothing(rs[0]);
      assert rs[1..] == [];
    } else {
      ReadJoined(docs[1..]);
      SeparatorIsDull();
      var top := docs[0] + [SEPARATOR];
      assert Sealed(top) by { SealedByMarker(docs[0]); }
      ReadSealed(top, JoinDocs(docs[1..]));
      ReadMarker(docs[0]);
      assert rs[1..] == Readings(docs[1..]);
    }
  }

  lemma SealedByMarker(d: seq<string>)
    ensures Sealed(d + [SEPARATOR])
  {
    SeparatorIsDull();
  }
}
