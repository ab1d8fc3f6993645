/** The template patch trims every document of the manifest before it does anything else
    (internal/capi/manifest/patches.go:322-330). What that does to the identity that is read off the
    manifest: a trimmed document is read like the original, except for its first and its last line. */
module IdentityTrim {
  import opened Wrappers
  import opened Text
  import opened Identity
  import opened IdentityReading
  import R = TemplateRevision
  import TemplateText

  // ---------------------------------------------------------------- what trimming leaves of a document

  predicate Hollow(l: string) { Trail(Unicode, l) == 0 }

  lemma HollowIs(l: string)
    ensures Hollow(l) <==> AllWhite(Unicode, l)
    ensures Hollow(l) <==> TrimLeft(Unicode, l) == []
    ensures Hollow(l) <==> TrimRight(Unicode, l) == []
  {
    TrailEmpty(Unicode, l);
    LeadFull(Unicode, l);
  }

  /** The number of white lines at the start. */
  function Top(p: seq<string>): (h: nat)
    ensures h <= |p| && (forall i :: 0 <= i < h ==> Hollow(p[i])) && (h < |p| ==> !Hollow(p[h]))
  {
    if p == [] || !Hollow(p[0]) then 0 else 1 + Top(p[1..])
  }

  /** The number of lines without the white ones at the end. */
  function Bottom(p: seq<string>): (e: nat)
    ensures e <= |p| && (forall i :: e <= i < |p| ==> Hollow(p[i])) && (e > 0 ==> !Hollow(p[e - 1]))
  {
    if p == [] || !Hollow(p[|p| - 1]) then |p| else Bottom(p[..|p| - 1])
  }

  /** The lines as far as they can say something afterwards: the first one is no longer indented, and
      the last one has lost the white space at its end. */
  function Left(p: seq<string>): (r: seq<string>)
    ensures |r| == Bottom(p)
  {
    var e, h := Bottom(p), Top(p);
    if e == 0 || h >= e then p[..e]
    else p[..e][e - 1 := TrimRight(Unicode, p[e - 1])][h := ""]
  }

  /** The reading of the trimmed document, in terms of the original. */
  function TrimmedReading(p: seq<string>): Reading {
    ReadWith(p[..Bottom(p)], Left(p))
  }

  function TrimmedReadings(parts: seq<seq<string>>): (rs: seq<Reading>)
    ensures |rs| == |parts|
  {
    if parts == [] then [] else [TrimmedReading(parts[0])] + TrimmedReadings(parts[1..])
  }

  lemma {:induction false} DropHeadIs(p: seq<string>)
    ensures var h := Top(p);
      DropHead(p) == if h == |p| then [] else [TrimLeft(Unicode, p[h])] + p[h + 1..]
  {
    if p != [] {
      HollowIs(p[0]);
      DropHeadIs(p[1..]);
    }
  }

  lemma {:induction false} DropTailIs(p: seq<string>)
    ensures var e := Bottom(p);
      DropTail(p) == if e == 0 then [] else p[..e - 1] + [TrimRight(Unicode, p[e - 1])]
  {
    hide Hollow, TrimRight;
    if p != [] {
      hide DropTail, Bottom;
      var top := p[..|p| - 1];
      HollowIs(p[|p| - 1]);
      DropTailIs(top);
      DropTailStep(p);
      BottomStep(p);
      var e := Bottom(top);
      assert e > 0 ==> top[..e - 1] == p[..e - 1] && top[e - 1] == p[e - 1];
    }
  }

  lemma DropTailStep(p: seq<string>)
    requires p != []
    ensures var n := |p| - 1; var l := TrimRight(Unicode, p[n]);
      DropTail(p) == if l == [] then DropTail(p[..n]) else p[..n] + [l]
  {
    hide TrimRight;
  }

  lemma BottomStep(p: seq<string>)
    requires p != []
    ensures Bottom(p) == if Hollow(p[|p| - 1]) then Bottom(p[..|p| - 1]) else |p|
  {
    hide Hollow;
  }

  lemma {:induction false} BottomIs(p: seq<string>, e: nat)
    requires e <= |p| && (forall i :: e <= i < |p| ==> Hollow(p[i])) && (e > 0 ==> !Hollow(p[e - 1]))
    ensures Bottom(p) == e
  {
    hide Hollow;
  }

  lemma TrimLeftFull(l: string)
    requires !Hollow(l)
    ensures !Hollow(TrimLeft(Unicode, l))
  {
    HollowIs(l);
    HollowIs(TrimLeft(Unicode, l));
    var n := Lead(Unicode, l);
    assert !White(Unicode, TrimLeft(Unicode, l)[0]);
  }

  lemma TopBottom(p: seq<string>)
    ensures if Top(p) == |p| then Bottom(p) == 0 else Top(p) < Bottom(p)
  {
    hide Hollow;
  }

  /** The lines between the white ones, with the first and the last one trimmed. */
  function Edged(q: seq<string>): (t: seq<string>)
    requires q != []
    ensures |t| == |q|
  {
    var l := q[0 := TrimLeft(Unicode, q[0])];
    l[|q| - 1 := TrimRight(Unicode, l[|q| - 1])]
  }

  lemma Slices(p: seq<string>, h: nat, e: nat, x: string, y: string)
    requires h < e <= |p|
    ensures var d, l := [x] + p[h + 1..], p[h..e][0 := x];
      |d| >= e - h && d[e - h - 1] == l[e - h - 1] && d[..e - h - 1] + [y] == l[e - h - 1 := y]
  {}

  lemma DropTailEdged(p: seq<string>, h: nat, e: nat, d: seq<string>)
    requires h < e <= |p| && d == [TrimLeft(Unicode, p[h])] + p[h + 1..] && Bottom(d) == e - h
    ensures DropTail(d) == Edged(p[h..e])
  {
    hide TrimLeft, TrimRight, Bottom, DropTail;
    DropTailIs(d);
    Slices(p, h, e, TrimLeft(Unicode, p[h]), TrimRight(Unicode, d[e - h - 1]));
  }

  lemma BottomOfDropped(p: seq<string>, h: nat, e: nat, d: seq<string>)
    requires h < e <= |p| && !Hollow(p[h]) && !Hollow(p[e - 1]) && forall i :: e <= i < |p| ==> Hollow(p[i])
    requires d == [TrimLeft(Unicode, p[h])] + p[h + 1..]
    ensures Bottom(d) == e - h
  {
    hide Hollow, TrimLeft, Bottom;
    TrimLeftFull(p[h]);
    forall i | 1 <= i < |d| ensures d[i] == p[h + i] {}
    forall i | e - h <= i < |d| ensures Hollow(d[i]) {
      assert d[i] == p[h + i];
    }
    BottomIs(d, e - h);
  }

  /** The lines of a trimmed document. */
  lemma TrimTextIs(p: seq<string>)
    ensures var h, e := Top(p), Bottom(p);
      if h == |p| then e == 0 && TrimText(p) == [] else h < e && TrimText(p) == Edged(p[h..e])
  {
    hide Hollow, Edged, Top, Bottom;
    TopBottom(p);
    if Top(p) < |p| {
      TrimBetween(p, Top(p), Bottom(p));
    } else {
      hide DropTail;
      DropHeadIs(p);
      EmptyTail();
    }
  }

  lemma TrimBetween(p: seq<string>, h: nat, e: nat)
    requires h == Top(p) && e == Bottom(p) && h < e
    ensures TrimText(p) == Edged(p[h..e])
  {
    hide Hollow, Edged, Top, Bottom, DropTail, DropHead, TrimLeft, Lead, Trail;
    var d := [TrimLeft(Unicode, p[h])] + p[h + 1..];
    assert DropHead(p) == d by { DropHeadIs(p); }
    BottomOfDropped(p, h, e, d);
    DropTailEdged(p, h, e, d);
  }

  lemma EmptyTail()
    ensures DropTail([]) == []
  {}

  // ---------------------------------------------------------------- the trimmed document is read

  /** A white line does not start with, or hold, a character that is not white. */
  lemma WhiteHolds(l: string, p: string, i: nat)
    requires AllWhite(Unicode, l) && i < |p| && !White(Unicode, p[i])
    ensures !HasPrefix(l, p)
  {
    if i < |l| {
      PrefixChar(l, p, i);
    }
  }

  lemma WhiteTail(l: string, n: nat)
    requires AllWhite(Unicode, l) && n <= |l|
    ensures AllWhite(Unicode, l[n..])
  {}

  lemma WhiteHasNoApi(l: string)
    requires AllWhite(Unicode, l)
    ensures !VersionIn(l) && !OpensVersion(l)
  {
    hide AllWhite, Grouped, Blank, HasPrefix, Lead;
    forall c | 0 <= c <= |l| ensures !ApiAt(l, c) {
      WhiteTail(l, c);
      WhiteHolds(l[c..], API, 0);
    }
  }

  lemma WhiteIsDull(l: string)
    requires Hollow(l)
    ensures Dull(l) && LineValue(l, NAME).None? && LineValue(l, NAMESPACE).None?
  {
    hide Hollow, VersionIn, OpensVersion, AllWhite, HasPrefix, Lead;
    HollowIs(l);
    WhiteHolds(l, KIND, 0);
    WhiteHolds(l, METADATA, 0);
    WhiteHolds(l, NAME, 2);
    WhiteHolds(l, NAMESPACE, 2);
    WhiteHasNoApi(l);
    var n := Lead(Regex, l);
    WhiteTail(l, n);
    WhiteHolds(l[n..], GROUP, 0);
    WhiteHolds(l[n..], CLUSTER_WORD, 0);
    PrefixSelf(METADATA);
    PrefixSelf(CLUSTER_WORD);
  }

  lemma PrefixSelf(s: string)
    ensures HasPrefix(s, s)
  {}

  /** White lines on top are not read. */
  lemma {:induction false} FindBelowWhite(p: seq<string>, h: nat)
    requires h <= |p| && forall i :: 0 <= i < h ==> Hollow(p[i])
    ensures var m := FindHeader(p[h..], 0); FindHeader(p, 0) == if m.None? then None else Some(h + m.value)
  {
    hide Hollow, FindHeader, HeaderEnds;
    if h == 0 {
      assert p[0..] == p;
    } else {
      var rest := p[1..];
      forall i | 0 <= i < h - 1 ensures Hollow(rest[i]) {
        assert rest[i] == p[i + 1];
      }
      FindBelowWhite(rest, h - 1);
      assert rest[h - 1..] == p[h..];
      FindBelowOne(p[0], rest);
      assert p == [p[0]] + rest;
    }
  }

  lemma FindBelowOne(l: string, ls: seq<string>)
    requires Hollow(l)
    ensures var m := FindHeader(ls, 0); FindHeader([l] + ls, 0) == if m.None? then None else Some(1 + m.value)
  {
    hide Hollow, FindHeader, Sealed;
    SealedByWhite(l);
    NoHeaderInOne(l);
    FindBelow([l], ls);
  }

  lemma SealedByWhite(l: string)
    requires Hollow(l)
    ensures Sealed([l])
  {
    hide Hollow, Dull;
    WhiteIsDull(l);
  }

  lemma NoHeaderInOne(l: string)
    ensures FindHeader([l], 0) == None
  {
    assert FindHeader([l], 1) == None;
  }

  lemma {:induction false} SaysBelowWhite(p: seq<string>, h: nat)
    requires h <= |p| && forall i :: 0 <= i < h ==> Hollow(p[i])
    ensures Says(p) == Says(p[h..])
  {
    hide Hollow, LineValue, Dull;
    if h == 0 {
      assert p[0..] == p;
    } else {
      WhiteIsDull(p[0]);
      SaysBelowWhite(p[1..], h - 1);
      assert p[1..][h - 1..] == p[h..];
    }
  }

  lemma ReadBelowWhite(head: seq<string>, vals: seq<string>, h: nat)
    requires h <= |head| <= |vals| && forall i :: 0 <= i < h ==> Hollow(head[i]) && Hollow(vals[i])
    ensures ReadWith(head, vals) == ReadWith(head[h..], vals[h..])
  {
    hide Hollow, Says, FindHeader;
    FindBelowWhite(head, h);
    SaysBelowWhite(vals, h);
    var m := FindHeader(head[h..], 0);
    if m.Some? {
      assert vals[h..][m.value..] == vals[h + m.value..];
    }
  }

  lemma Tails(w: string, t: string, c: nat)
    requires c <= |t|
    ensures (w + t)[|w| + c..] == t[c..]
  {}

  lemma VersionShifted(w: string, t: string)
    ensures VersionIn(t) ==> VersionIn(w + t)
    ensures OpensVersion(t) ==> OpensVersion(w + t)
  {
    hide Grouped, Blank, TrimLeft;
    var l := w + t;
    if VersionIn(t) {
      var c :| 0 <= c <= |t| && ApiAt(t, c) && Grouped(TrimLeft(Regex, t[c + |API|..]));
      Tails(w, t, c);
      Tails(w, t, c + |API|);
      assert ApiAt(l, |w| + c);
    }
    if OpensVersion(t) {
      var c :| 0 <= c <= |t| && ApiAt(t, c) && Blank(t[c + |API|..]);
      Tails(w, t, c);
      Tails(w, t, c + |API|);
      assert ApiAt(l, |w| + c);
    }
  }

  lemma ApiBehind(w: string, t: string, c: nat)
    requires AllWhite(Unicode, w) && c <= |w + t| && ApiAt(w + t, c)
    ensures c >= |w|
  {
    PrefixChar((w + t)[c..], API, 0);
  }

  lemma VersionUnshifted(w: string, t: string)
    requires AllWhite(Unicode, w)
    ensures VersionIn(w + t) ==> VersionIn(t)
    ensures OpensVersion(w + t) ==> OpensVersion(t)
  {
    hide Grouped, Blank, TrimLeft, AllWhite;
    var l := w + t;
    if VersionIn(l) {
      var c :| 0 <= c <= |l| && ApiAt(l, c) && Grouped(TrimLeft(Regex, l[c + |API|..]));
      ApiBehind(w, t, c);
      Tails(w, t, c - |w|);
      Tails(w, t, c - |w| + |API|);
      assert ApiAt(t, c - |w|);
    }
    if OpensVersion(l) {
      var c :| 0 <= c <= |l| && ApiAt(l, c) && Blank(l[c + |API|..]);
      ApiBehind(w, t, c);
      Tails(w, t, c - |w|);
      Tails(w, t, c - |w| + |API|);
      assert ApiAt(t, c - |w|);
    }
  }

  lemma VersionTrimmed(l: string)
    ensures VersionIn(TrimLeft(Unicode, l)) <==> VersionIn(l)
    ensures OpensVersion(TrimLeft(Unicode, l)) <==> OpensVersion(l)
  {
    hide Lead, VersionIn, OpensVersion;
    var n := Lead(Unicode, l);
    assert l == l[..n] + l[n..];
    VersionShifted(l[..n], l[n..]);
    VersionUnshifted(l[..n], l[n..]);
  }

  /** The first line counts only as the start of a version. */
  lemma HeaderFirstLine(a: seq<string>, b: seq<string>, m: nat)
    requires a != [] && |b| == |a| && a[1..] == b[1..] && m < |a|
    requires (VersionIn(a[0]) <==> VersionIn(b[0])) && (OpensVersion(a[0]) <==> OpensVersion(b[0]))
    ensures HeaderEnds(a, m) ==> HeaderEnds(b, m)
  {
    hide Blank, TrimLeft, VersionIn, OpensVersion, Grouped, HasPrefix;
    assert forall i :: 1 <= i < |a| ==> a[i] == a[1..][i - 1] && b[i] == b[1..][i - 1];
    if HeaderEnds(a, m) {
      var s :| 1 <= s <= m - 2 && KindEnds(a, s, m);
      assert KindLines(b, s, m - 2);
      VersionFirstLine(a, b, s - 1);
      assert KindEnds(b, s, m);
    }
  }

  lemma VersionFirstLine(a: seq<string>, b: seq<string>, v: nat)
    requires v < |a| == |b| && (forall i :: 1 <= i < |a| ==> a[i] == b[i]) && VersionEnds(a, v)
    requires (VersionIn(a[0]) <==> VersionIn(b[0])) && (OpensVersion(a[0]) <==> OpensVersion(b[0]))
    ensures VersionEnds(b, v)
  {
    hide Blank, TrimLeft, VersionIn, OpensVersion, Grouped;
    if !VersionIn(a[v]) {
      var i :| 0 <= i < v && OpensVersion(a[i]) && BlankBetween(a, i, v);
      assert BlankBetween(b, i, v);
    }
  }

  lemma IndentKept(l: string)
    requires !Hollow(l)
    ensures HasPrefix(l, "  ") <==> HasPrefix(TrimRight(Unicode, l), "  ")
  {
    HollowIs(l);
    var n := Trail(Unicode, l);
    assert !White(Unicode, l[n - 1]);
    if HasPrefix(l, "  ") {
      PrefixChar(l, "  ", 0);
      PrefixChar(l, "  ", 1);
      assert n > 2;
      assert l[..n][..2] == l[..2];
    }
    if HasPrefix(l[..n], "  ") {
      assert l[..n][..2] == l[..2];
    }
  }

  /** The headers of a trimmed document. */
  lemma EdgedHeader(q: seq<string>, m: nat)
    requires q != [] && !Hollow(q[0]) && !Hollow(q[|q| - 1]) && m < |q|
    ensures HeaderEnds(Edged(q), m) == HeaderEnds(q, m)
  {
    hide HeaderEnds, Hollow, TrimLeft, TrimRight, VersionIn, OpensVersion, HasPrefix;
    var l, n := q[0 := TrimLeft(Unicode, q[0])], |q| - 1;
    VersionTrimmed(q[0]);
    HeaderFirstLine(q, l, m);
    HeaderFirstLine(l, q, m);
    var t := Edged(q);
    assert t[..n] == l[..n];
    assert t[..m] == t[..n][..m] && l[..m] == l[..n][..m];
    TrimLeftFull(q[0]);
    IndentKept(l[n]);
    HeaderByPrefix(t, l, m);
  }

  /** The lines of a document without white edges, as far as they say something when it is trimmed. */
  function Saying(q: seq<string>): (r: seq<string>)
    requires q != []
    ensures |r| == |q|
  {
    q[|q| - 1 := TrimRight(Unicode, q[|q| - 1])][0 := ""]
  }

  lemma {:induction false} SaysSame(a: seq<string>, b: seq<string>)
    requires |a| == |b|
    requires forall i :: 0 <= i < |a| ==>
      LineValue(a[i], NAME) == LineValue(b[i], NAME) && LineValue(a[i], NAMESPACE) == LineValue(b[i], NAMESPACE)
    ensures Says(a) == Says(b)
  {
    hide LineValue;
    if a != [] {
      SaysSame(a[1..], b[1..]);
    }
  }

  lemma UnindentedSaysNothing(l: string)
    requires l == "" || !White(Unicode, l[0])
    ensures LineValue(l, NAME).None? && LineValue(l, NAMESPACE).None?
  {
    hide InLine;
    if HasPrefix(l, NAME) { PrefixChar(l, NAME, 0); }
    if HasPrefix(l, NAMESPACE) { PrefixChar(l, NAMESPACE, 0); }
  }

  lemma FirstTrimmed(q: seq<string>)
    requires q != [] && !Hollow(q[0])
    ensures var l := Edged(q)[0]; l == "" || !White(Unicode, l[0])
  {
    hide Lead, Trail;
    var l := TrimLeft(Unicode, q[0]);
    var t := TrimRight(Unicode, l);
    assert t != "" ==> t[0] == l[0];
  }

  lemma EdgedSays(q: seq<string>, m: nat)
    requires q != [] && !Hollow(q[0]) && m <= |q|
    ensures Says(Edged(q)[m..]) == Says(Saying(q)[m..])
  {
    hide LineValue, Hollow, TrimLeft, TrimRight;
    var a, b := Edged(q), Saying(q);
    FirstTrimmed(q);
    UnindentedSaysNothing(a[0]);
    UnindentedSaysNothing("");
    assert forall i :: 1 <= i < |q| ==> a[i] == b[i];
    SaysSame(a[m..], b[m..]);
  }

  lemma EdgedReads(q: seq<string>)
    requires q != [] && !Hollow(q[0]) && !Hollow(q[|q| - 1])
    ensures ReadLines(Edged(q) + [[]]) == ReadWith(q, Saying(q))
  {
    hide HeaderEnds, Hollow, Edged, Saying, Says;
    var t := Edged(q);
    ReadSilent(t, "");
    forall m | 0 <= m < |q| ensures HeaderEnds(t, m) == HeaderEnds(q, m) {
      EdgedHeader(q, m);
    }
    var m := FindHeader(q, 0);
    FindHeaderIs(t, 0, m);
    EdgedSays(q, 0);
    assert t[0..] == t && Saying(q)[0..] == Saying(q);
    if m.Some? {
      EdgedSays(q, m.value);
    }
  }

  lemma LeftParts(p: seq<string>)
    requires Top(p) < Bottom(p)
    ensures var h, e := Top(p), Bottom(p);
      && p[..e][h..] == p[h..e] && Left(p)[h..] == Saying(p[h..e])
      && forall i :: 0 <= i < h ==> Hollow(p[..e][i]) && Left(p)[i] == p[i]
  {
    hide Hollow, TrimRight, Top, Bottom;
    var h, e := Top(p), Bottom(p);
    assert p[h..e][|p[h..e]| - 1] == p[e - 1];
  }

  /** A trimmed document is read as the lines that trimming leaves of it; a white one says nothing. */
  lemma ReadTrimmed(p: seq<string>)
    ensures var t := TrimText(p);
      TrimmedReading(p) == if t == [] then NOTHING else ReadLines(t + [[]])
  {
    hide Hollow, Edged, Saying, Left, ReadWith, TrimText;
    var h, e := Top(p), Bottom(p);
    TrimTextIs(p);
    if h < |p| {
      LeftParts(p);
      ReadBelowWhite(p[..e], Left(p), h);
      EdgedReads(p[h..e]);
    } else {
      NothingLeft(p);
    }
  }

  lemma NothingLeft(p: seq<string>)
    requires Bottom(p) == 0
    ensures TrimmedReading(p) == NOTHING
  {
    assert p[..0] == [];
    assert Left(p) == [];
    assert FindHeader([], 0) == None;
  }

  // ---------------------------------------------------------------- the trimmed text is read

  lemma WholeCat(a: Reading, rs: seq<Reading>)
    ensures Whole([a] + rs) == Then(a, Whole(rs))
  {
    assert ([a] + rs)[1..] == rs;
  }

  lemma KeptReading(p: seq<string>)
    ensures Whole(Readings(TemplateText.Kept(p))) == TrimmedReading(p)
  {
    hide ReadLines, TrimmedReading, TrimText;
    ReadTrimmed(p);
    var t := TrimText(p);
    if t != [] {
      var rs := Readings([t + [[]]]);
      assert rs == [ReadLines(t + [[]])] + [];
      WholeCat(rs[0], []);
      ThenNothing(rs[0]);
    }
  }

  lemma {:induction false} ReadingsCat(a: seq<seq<string>>, b: seq<seq<string>>)
    ensures Readings(a + b) == Readings(a) + Readings(b)
  {
    hide ReadLines;
    if a == [] {
      assert a + b == b;
    } else {
      ReadingsCat(a[1..], b);
      assert (a + b)[1..] == a[1..] + b && (a + b)[0] == a[0];
      assert Readings(a + b) == [ReadLines(a[0])] + Readings(a[1..] + b);
    }
  }

  lemma {:induction false} WholeOfCat(a: seq<Reading>, b: seq<Reading>)
    ensures Whole(a + b) == Then(Whole(a), Whole(b))
  {
    if a == [] {
      assert a + b == b;
      ThenNothing(Whole(b));
    } else {
      WholeOfCat(a[1..], b);
      assert (a + b)[1..] == a[1..] + b;
      ThenThen(a[0], Whole(a[1..]), Whole(b));
    }
  }

  lemma ThenThen(a: Reading, b: Reading, c: Reading)
    ensures Then(Then(a, b), c) == Then(a, Then(b, c))
  {}

  lemma {:induction false} ParsedReads(parts: seq<seq<string>>)
    ensures Whole(Readings(R.Parse(parts))) == Whole(TrimmedReadings(parts))
  {
    hide ReadLines, TrimmedReading, R.Parse, TemplateText.Kept;
    if parts == [] {
      TemplateText.EmptyParse();
    } else {
      var p, rest := parts[0], parts[1..];
      ParsedReads(rest);
      TemplateText.ParseCat([p], rest);
      assert [p] + rest == parts;
      TemplateText.ParseLast([p]);
      assert [p][..0] == [];
      TemplateText.EmptyParse();
      assert R.Parse([p]) == TemplateText.Kept(p);
      ReadingsCat(R.Parse([p]), R.Parse(rest));
      WholeOfCat(Readings(R.Parse([p])), Readings(R.Parse(rest)));
      KeptReading(p);
      WholeCat(TrimmedReading(p), TrimmedReadings(rest));
    }
  }

  /** The trimmed text is read as its documents are read when they are trimmed. */
  lemma TrimmedTextReads(text: seq<string>)
    requires text != []
    ensures ReadLines(text) == Whole(Readings(SplitDocs(text)))
    ensures ReadLines(R.JoinOrEmpty(R.Parse(SplitDocs(text)))) == Whole(TrimmedReadings(SplitDocs(text)))
  {
    hide ReadLines, R.Parse;
    var parts := SplitDocs(text);
    var docs := R.Parse(parts);
    JoinOfSplit(text);
    ReadJoined(parts);
    ParsedReads(parts);
    if docs == [] {
      UnindentedSaysNothing("");
      ReadOne("");
    } else {
      ReadJoined(docs);
    }
  }

  lemma ReadOne(l: string)
    requires LineValue(l, NAME).None? && LineValue(l, NAMESPACE).None?
    ensures ReadLines([l]) == NOTHING
  {
    hide LineValue, FindHeader;
    NoHeaderInOne(l);
    assert FirstValue([l][1..], NAME) == None && FirstValue([l][1..], NAMESPACE) == None;
  }

  // ---------------------------------------------------------------- when trimming is not noticed

  /** The line of a document that a key is read off, from line `i` on, or the end. */
  function ValueLine(ls: seq<string>, i: nat, key: string): (j: nat)
    requires i <= |ls|
    ensures i <= j <= |ls| && (j < |ls| ==> LineValue(ls[j], key).Some?)
    ensures forall k :: i <= k < j ==> LineValue(ls[k], key).None?
    decreases |ls| - i
  {
    if i == |ls| || LineValue(ls[i], key).Some? then i else ValueLine(ls, i + 1, key)
  }

  lemma {:induction false} ValueIs(ls: seq<string>, i: nat, key: string)
    requires i <= |ls|
    ensures var j := ValueLine(ls, i, key);
      FirstValue(ls[i..], key) == if j < |ls| then LineValue(ls[j], key) else None
    decreases |ls| - i
  {
    hide LineValue;
    if i < |ls| {
      assert ls[i..][1..] == ls[i + 1..];
      if LineValue(ls[i], key).None? {
        ValueIs(ls, i + 1, key);
      }
    }
  }

  /** The last line of the document that is not white says the same without the white space at its
      end. */
  predicate LastSays(p: seq<string>, key: string) {
    var e := Bottom(p); e > 0 ==> LineValue(TrimRight(Unicode, p[e - 1]), key) == LineValue(p[e - 1], key)
  }

  /** The first line that is not white says nothing. */
  predicate FirstSilent(p: seq<string>, key: string) {
    Top(p) < |p| ==> LineValue(p[Top(p)], key).None?
  }

  /** The metadata block behind a header is not white down to the end of the document. */
  predicate HeaderFilled(p: seq<string>) {
    var m := FindHeader(p, 0); m.Some? ==> m.value < Bottom(p)
  }

  predicate EdgesKept(p: seq<string>) {
    && HeaderFilled(p)
    && LastSays(p, NAME) && LastSays(p, NAMESPACE) && FirstSilent(p, NAME) && FirstSilent(p, NAMESPACE)
  }

  /** The header of a document without the white lines at its end. */
  lemma HeaderAbove(p: seq<string>)
    ensures var m := FindHeader(p, 0);
      FindHeader(p[..Bottom(p)], 0) == if m.Some? && m.value < Bottom(p) then m else None
  {
    hide HeaderEnds, Bottom;
    var e, m := Bottom(p), FindHeader(p, 0);
    forall k | 0 <= k < e ensures HeaderEnds(p[..e], k) == HeaderEnds(p, k) {
      HeaderByPrefix(p[..e], p, k);
    }
    FindHeaderIs(p[..e], 0, if m.Some? && m.value < e then m else None);
  }

  lemma {:induction false} SaysAbove(p: seq<string>, i: nat, e: nat)
    requires i <= e <= |p| && forall k :: e <= k < |p| ==> Hollow(p[k])
    ensures Says(p[i..]) == Says(p[..e][i..])
    decreases e - i
  {
    hide Hollow, LineValue;
    if i == e {
      SaysBelowWhite(p[i..], |p| - i);
      assert p[i..][|p| - i..] == [] && p[..e][i..] == [];
    } else {
      SaysAbove(p, i + 1, e);
      assert p[i..][1..] == p[i + 1..] && p[..e][i..][1..] == p[..e][i + 1..];
    }
  }

  lemma EdgesSay(p: seq<string>, i: nat)
    requires EdgesKept(p) && i <= Bottom(p)
    ensures Says(Left(p)[i..]) == Says(p[i..])
  {
    hide Hollow, LineValue, TrimRight, FindHeader, Top, Bottom;
    var e, h := Bottom(p), Top(p);
    TopBottom(p);
    SaysAbove(p, i, e);
    UnindentedSaysNothing("");
    var a, b := Left(p), p[..e];
    forall k | 0 <= k < e
      ensures LineValue(a[k], NAME) == LineValue(b[k], NAME) && LineValue(a[k], NAMESPACE) == LineValue(b[k], NAMESPACE)
    {
      assert b[k] == p[k];
    }
    SaysSame(a[i..], b[i..]);
  }

  /** A document with such a first and last line is read as it was. */
  lemma EdgesRead(p: seq<string>)
    requires EdgesKept(p)
    ensures TrimmedReading(p) == ReadLines(p)
  {
    hide FindHeader, Says, Left, Bottom, LastSays, FirstSilent;
    HeaderAbove(p);
    EdgesSay(p, 0);
    assert p[0..] == p && Left(p)[0..] == Left(p);
    var m := FindHeader(p, 0);
    if m.Some? {
      EdgesSay(p, m.value);
    }
  }

  lemma {:induction false} AllEdgesRead(parts: seq<seq<string>>)
    requires forall k :: 0 <= k < |parts| ==> EdgesKept(parts[k])
    ensures TrimmedReadings(parts) == Readings(parts)
  {
    hide EdgesKept, TrimmedReading, ReadLines;
    if parts != [] {
      EdgesRead(parts[0]);
      AllEdgesRead(parts[1..]);
    }
  }

  // ---------------------------------------------------------------- a Cluster that names itself

  /** From line `m` on the document says something for the key, also when it is trimmed. */
  predicate SaysOwn(p: seq<string>, m: nat, key: string)
    requires m <= |p|
  {
    var j := ValueLine(p, m, key);
    j < |p| && (j + 1 == Bottom(p) ==> LineValue(TrimRight(Unicode, p[j]), key).Some?)
  }

  /** Document `k` holds the first header, and its own name and namespace below it. */
  ghost predicate NamesItself(parts: seq<seq<string>>, k: nat) {
    && k < |parts|
    && (forall j :: 0 <= j < k ==> FindHeader(parts[j], 0).None?)
    && var m := FindHeader(parts[k], 0);
       m.Some? && SaysOwn(parts[k], m.value, NAME) && SaysOwn(parts[k], m.value, NAMESPACE)
  }

  /** If the key is read off the last line, that line says the same when it is trimmed. */
  predicate LastReads(p: seq<string>, key: string) {
    var m := FindHeader(p, 0);
    m.Some? && ValueLine(p, m.value, key) + 1 == Bottom(p) ==> LastSays(p, key)
  }

  lemma ValueInside(p: seq<string>, i: nat, key: string)
    requires i <= |p| && (key == NAME || key == NAMESPACE) && ValueLine(p, i, key) < |p|
    ensures ValueLine(p, i, key) < Bottom(p)
  {
    hide Hollow, LineValue, Bottom;
    var j := ValueLine(p, i, key);
    if Hollow(p[j]) {
      WhiteIsDull(p[j]);
    }
  }

  lemma {:induction false} ValueLineIs(ls: seq<string>, i: nat, key: string, j: nat)
    requires i <= j < |ls| && LineValue(ls[j], key).Some? && forall k :: i <= k < j ==> LineValue(ls[k], key).None?
    ensures ValueLine(ls, i, key) == j
    decreases j - i
  {
    hide LineValue;
    if i < j {
      ValueLineIs(ls, i + 1, key, j);
    }
  }

  lemma OnlyLast(ls: seq<string>, i: nat, key: string)
    requires i + 1 == |ls|
    ensures FirstValue(ls[i..], key) == LineValue(ls[i], key)
  {
    hide LineValue;
    assert ls[i..] == [ls[i]];
    assert FirstValue([ls[i]][1..], key) == None;
  }

  lemma {:induction false} ValueKept(a: seq<string>, b: seq<string>, i: nat, key: string)
    requires i < |a| == |b| && forall k :: i <= k < |a| - 1 ==> a[k] == b[k]
    requires FirstValue(a[i..], key).Some?
    ensures FirstValue(b[i..], key)
      == if ValueLine(a, i, key) == |a| - 1 then LineValue(b[|a| - 1], key) else FirstValue(a[i..], key)
    decreases |a| - i
  {
    hide LineValue;
    if i < |a| - 1 {
      assert a[i..][1..] == a[i + 1..] && b[i..][1..] == b[i + 1..];
      if LineValue(a[i], key).None? {
        ValueKept(a, b, i + 1, key);
      }
    } else {
      OnlyLast(a, i, key);
      OnlyLast(b, i, key);
    }
  }

  lemma HeaderIsDeep(p: seq<string>)
    ensures var m := FindHeader(p, 0); m.Some? ==> m.value >= 3 && Top(p) < m.value
  {
    hide KindEnds, Hollow;
    var m := FindHeader(p, 0);
    if m.Some? && Top(p) >= m.value {
      assert Hollow(p[m.value - 1]);
      WhiteIsDull(METADATA);
    }
  }

  lemma LeftBelowTop(p: seq<string>, m: nat)
    requires Top(p) < m < Bottom(p)
    ensures var e := Bottom(p);
      && (forall k :: m <= k < e - 1 ==> Left(p)[k] == p[..e][k])
      && Left(p)[e - 1] == TrimRight(Unicode, p[e - 1])
  {
    hide TrimRight, Top, Bottom;
  }

  lemma OwnValue(p: seq<string>, m: nat, key: string)
    requires FindHeader(p, 0) == Some(m) && SaysOwn(p, m, key) && (key == NAME || key == NAMESPACE)
    ensures m < Bottom(p) && FirstValue(p[m..], key).Some? && FirstValue(Left(p)[m..], key).Some?
    ensures FirstValue(Left(p)[m..], key) == FirstValue(p[m..], key) <==> LastReads(p, key)
  {
    hide Hollow, LineValue, TrimRight, FindHeader, Top, Bottom, HeaderEnds, Left;
    var e, j := Bottom(p), ValueLine(p, m, key);
    ValueInside(p, m, key);
    HeaderIsDeep(p);
    SaysAbove(p, m, e);
    ValueIs(p, m, key);
    CutValueLine(p, m, key, e);
    LeftBelowTop(p, m);
    ValueKept(p[..e], Left(p), m, key);
  }

  lemma CutValueLine(p: seq<string>, m: nat, key: string, e: nat)
    requires m <= e <= |p| && ValueLine(p, m, key) < e
    ensures ValueLine(p[..e], m, key) == ValueLine(p, m, key)
  {
    hide LineValue;
    var j := ValueLine(p, m, key);
    assert forall k :: 0 <= k < e ==> p[..e][k] == p[k];
    ValueLineIs(p[..e], m, key, j);
  }

  lemma {:induction false} WholeFrom(rs: seq<Reading>, k: nat)
    requires k < |rs| && rs[k].header.Some? && forall j :: 0 <= j < k ==> rs[j].header.None?
    ensures Whole(rs).header == Some(Or(rs[k].header.value, Whole(rs[k + 1..]).all))
  {
    if k > 0 {
      WholeFrom(rs[1..], k - 1);
      assert rs[1..][k..] == rs[k + 1..];
    }
  }

  lemma {:induction false} ReadingsAt(parts: seq<seq<string>>, k: nat)
    requires k < |parts|
    ensures Readings(parts)[k] == ReadLines(parts[k]) && TrimmedReadings(parts)[k] == TrimmedReading(parts[k])
  {
    hide ReadLines, TrimmedReading;
    if k > 0 {
      ReadingsAt(parts[1..], k - 1);
    }
  }

  lemma NoHeaderTrimmed(p: seq<string>)
    requires FindHeader(p, 0).None?
    ensures ReadLines(p).header.None? && TrimmedReading(p).header.None?
  {
    HeaderAbove(p);
  }

  lemma TrimmedFrom(parts: seq<seq<string>>, k: nat)
    requires NamesItself(parts, k)
    ensures var p, m := parts[k], FindHeader(parts[k], 0).value;
      && m < Bottom(p)
      && Whole(Readings(parts)).header == Some(Or(Says(p[m..]), Whole(Readings(parts)[k + 1..]).all))
      && Whole(TrimmedReadings(parts)).header
        == Some(Or(Says(Left(p)[m..]), Whole(TrimmedReadings(parts)[k + 1..]).all))
  {
    hide FindHeader, LineValue, Left, Bottom, Whole, HeaderEnds, Says, ValueLine;
    var p, rs, ts := parts[k], Readings(parts), TrimmedReadings(parts);
    var m := FindHeader(p, 0).value;
    ValueInside(p, m, NAME);
    HeaderAbove(p);
    forall j | 0 <= j < k ensures rs[j].header.None? && ts[j].header.None? {
      NoHeaderTrimmed(parts[j]);
      ReadingsAt(parts, j);
    }
    ReadingsAt(parts, k);
    WholeFrom(rs, k);
    WholeFrom(ts, k);
  }

  /** Trimming leaves the identity of a Cluster that names itself exactly when neither the name nor
      the namespace is read off the last line of its document and says something else without the
      white space at the end of that line. */
  lemma OwnIdentityKept(parts: seq<seq<string>>, k: nat)
    requires NamesItself(parts, k)
    ensures Identify(Whole(TrimmedReadings(parts))) == Identify(Whole(Readings(parts)))
      <==> LastReads(parts[k], NAME) && LastReads(parts[k], NAMESPACE)
  {
    hide FindHeader, LineValue, Left, Bottom, LastReads, Whole, HeaderEnds, SaysOwn, FirstValue;
    var m := FindHeader(parts[k], 0).value;
    TrimmedFrom(parts, k);
    OwnValue(parts[k], m, NAME);
    OwnValue(parts[k], m, NAMESPACE);
  }

  // ---------------------------------------------------------------- values stay on their lines

  /** The last line that is not white has its value on it when it is trimmed, too. */
  predicate EndOnLine(p: seq<string>) {
    var e := Bottom(p); e > 0 ==> LineOnLine(TrimRight(Unicode, p[e - 1]))
  }

  lemma UnindentedOnLine(l: string)
    requires l == "" || !White(Unicode, l[0])
    ensures LineOnLine(l)
  {
    if HasPrefix(l, NAME) { PrefixChar(l, NAME, 0); }
    if HasPrefix(l, NAMESPACE) { PrefixChar(l, NAMESPACE, 0); }
  }

  lemma EdgedOnLine(q: seq<string>)
    requires q != [] && !Hollow(q[0]) && OnLine(q) && LineOnLine(TrimRight(Unicode, q[|q| - 1]))
    ensures OnLine(Edged(q) + [[]])
  {
    hide Hollow, TrimLeft, TrimRight, LineOnLine;
    FirstTrimmed(q);
    UnindentedOnLine(Edged(q)[0]);
    UnindentedOnLine("");
  }

  lemma KeptOnLine(p: seq<string>)
    requires OnLine(p) && EndOnLine(p)
    ensures forall k :: 0 <= k < |TemplateText.Kept(p)| ==> OnLine(TemplateText.Kept(p)[k])
  {
    hide Hollow, TrimText, Edged, LineOnLine, Top, Bottom, TrimRight;
    TrimTextIs(p);
    var h, e := Top(p), Bottom(p);
    if h < |p| {
      var q := p[h..e];
      assert q[|q| - 1] == p[e - 1];
      EdgedOnLine(q);
    }
  }

  lemma {:induction false} ParseOnLine(parts: seq<seq<string>>)
    requires forall k :: 0 <= k < |parts| ==> OnLine(parts[k]) && EndOnLine(parts[k])
    ensures forall k :: 0 <= k < |R.Parse(parts)| ==> OnLine(R.Parse(parts)[k])
  {
    hide OnLine, EndOnLine, R.Parse, TemplateText.Kept;
    if parts == [] {
      TemplateText.EmptyParse();
    } else {
      var n := |parts| - 1;
      ParseOnLine(parts[..n]);
      TemplateText.ParseLast(parts);
      KeptOnLine(parts[n]);
    }
  }

  lemma {:induction false} JoinOnLine(docs: seq<seq<string>>)
    requires docs != []
    ensures OnLine(JoinDocs(docs)) <==> forall k :: 0 <= k < |docs| ==> OnLine(docs[k])
  {
    hide LineOnLine;
    if |docs| > 1 {
      JoinOnLine(docs[1..]);
      MarkerOnLine(docs[0], JoinDocs(docs[1..]));
      assert forall k :: 0 <= k < |docs| - 1 ==> docs[1..][k] == docs[k + 1];
      assert docs[1..][0] == docs[1];
      if OnLine(docs[0]) && forall k :: 0 <= k < |docs[1..]| ==> OnLine(docs[1..][k]) {
        forall k | 0 <= k < |docs| ensures OnLine(docs[k]) {
          assert k > 0 ==> docs[1..][k - 1] == docs[k];
        }
      }
    }
  }

  lemma MarkerOnLine(a: seq<string>, b: seq<string>)
    ensures OnLine(a + [SEPARATOR] + b) <==> OnLine(a) && OnLine(b)
  {
    hide LineOnLine;
    var out := a + [SEPARATOR] + b;
    UnindentedOnLine(SEPARATOR);
    assert out[|a|] == SEPARATOR;
    assert forall i :: 0 <= i < |a| ==> out[i] == a[i];
    assert forall i :: 0 <= i < |b| ==> out[|a| + 1 + i] == b[i];
    forall i | 0 <= i < |out|
      ensures LineOnLine(out[i]) <==> i == |a| || LineOnLine(if i < |a| then a[i] else b[i - |a| - 1])
    {
    }
  }

  /** When the values of a text are on their lines, so are those of the trimmed text. */
  lemma TrimmedOnLine(text: seq<string>)
    requires text != [] && OnLine(text)
    requires forall k :: 0 <= k < |SplitDocs(text)| ==> EndOnLine(SplitDocs(text)[k])
    ensures OnLine(R.JoinOrEmpty(R.Parse(SplitDocs(text))))
  {
    hide OnLine, EndOnLine, R.Parse;
    var parts := SplitDocs(text);
    JoinOfSplit(text);
    JoinOnLine(parts);
    ParseOnLine(parts);
    var docs := R.Parse(parts);
    if docs == [] {
      EmptyOnLine();
    } else {
      JoinOnLine(docs);
    }
  }

  lemma EmptyOnLine()
    ensures OnLine([[]])
  {
    UnindentedOnLine("");
  }
}
