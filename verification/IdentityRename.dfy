/** The template patch and the identity of the cluster: what is read off the patched manifest is what
    is read off the documents as trimming leaves them, unless the cluster is named like a template
    (internal/capi/manifest/patches.go and generate.go). */
module IdentityRename {
  import opened Wrappers
  import opened Text
  import opened Identity
  import opened IdentityReading
  import opened IdentityTrim
  import opened TemplateLines
  import R = TemplateRevision
  import TemplateTheorems

  // ---------------------------------------------------------------- name lines and headers

  lemma NameLikeStarts(l: string)
    requires NameLike(l)
    ensures var t := TrimLeft(Regex, l); HasPrefix(t, R.NAME)
  {
    hide Lead, Trail, Trim;
    var a, b := TrimParts(Regex, l);
    var m := Trim(Regex, l);
    assert m[0] == R.NAME[0] by { PrefixChar(m, R.NAME, 0); }
    LeadIs(Regex, a, m + b);
    assert l == a + (m + b);
    assert TrimLeft(Regex, l) == m + b;
    assert (m + b)[..|R.NAME|] == m[..|R.NAME|];
  }

  /** A name line is no part of a header. */
  lemma NameLikeIsNoHeader(l: string)
    requires NameLike(l)
    ensures !Blank(l) && !HasPrefix(l, KIND) && l != METADATA && !HasPrefix(l, NAMESPACE)
    ensures !Grouped(TrimLeft(Regex, l)) && TrimLeft(Regex, l) != CLUSTER_WORD
  {
    NameLikeFacts(l);
    NameLikeStarts(l);
    var t := TrimLeft(Regex, l);
    PrefixChar(t, R.NAME, 0);
    PrefixChar(t, GROUP, 0);
    MetadataIsNoName();
    NamespaceIsNoName(l);
  }

  lemma MetadataIsNoName()
    ensures !HasPrefix(TrimLeft(Regex, METADATA), R.NAME)
  {
    PrefixChar(METADATA, R.NAME, 0);
    assert Lead(Regex, METADATA) == 0;
    assert METADATA[0..] == METADATA;
  }

  lemma NamespaceIsNoName(l: string)
    ensures HasPrefix(l, NAMESPACE) ==> !HasPrefix(TrimLeft(Regex, l), R.NAME)
  {
    if HasPrefix(l, NAMESPACE) {
      var rest := "namespace:" + l[|NAMESPACE|..];
      assert l == "  " + rest;
      LeadIs(Regex, "  ", rest);
      assert TrimLeft(Regex, l) == rest;
      PrefixChar(rest, R.NAME, 4);
    }
  }

  /** The two texts differ in name lines only, and these do not look like API versions. */
  ghost predicate Renamed(a: seq<string>, b: seq<string>) {
    && AllAlike(a, b)
    && forall i :: 0 <= i < |a| && a[i] != b[i] ==>
         !HasApi(a[i]) && !HasApi(b[i]) && (HasPrefix(a[i], "  ") <==> HasPrefix(b[i], "  "))
  }

  lemma RenamedSym(a: seq<string>, b: seq<string>)
    requires Renamed(a, b)
    ensures Renamed(b, a)
  {
    hide Alike;
    AlikeSym(a, b);
  }

  /** What a header can see of a line is the same. */
  lemma LooksSame(a: seq<string>, b: seq<string>, i: nat)
    requires Renamed(a, b) && i < |a|
    ensures (Blank(a[i]) <==> Blank(b[i])) && (HasPrefix(a[i], "  ") <==> HasPrefix(b[i], "  "))
    ensures VersionIn(a[i]) <==> VersionIn(b[i])
    ensures OpensVersion(a[i]) <==> OpensVersion(b[i])
    ensures Grouped(TrimLeft(Regex, a[i])) <==> Grouped(TrimLeft(Regex, b[i]))
    ensures TrimLeft(Regex, a[i]) == CLUSTER_WORD <==> TrimLeft(Regex, b[i]) == CLUSTER_WORD
    ensures HasPrefix(a[i], KIND) || HasPrefix(b[i], KIND) || a[i] == METADATA || b[i] == METADATA ==> a[i] == b[i]
    ensures HasPrefix(a[i], NAMESPACE) || HasPrefix(b[i], NAMESPACE) ==> a[i] == b[i]
    ensures HasPrefix(a[i], NAME) <==> HasPrefix(b[i], NAME)
  {
    hide Blank, TrimLeft, VersionIn, OpensVersion, HasApi, Grouped, NameLike;
    if a[i] != b[i] {
      assert Alike(a[i], b[i]);
      NameLikeIsNoHeader(a[i]);
      NameLikeIsNoHeader(b[i]);
      OpensHasApi(a[i]);
      OpensHasApi(b[i]);
      assert NAME == R.META_NAME;
    }
  }

  lemma HeaderFrom(a: seq<string>, b: seq<string>, m: nat)
    requires Renamed(a, b) && HeaderEnds(a, m)
    ensures HeaderEnds(b, m)
  {
    hide Blank, TrimLeft, VersionIn, OpensVersion, Grouped, Renamed;
    assert |a| == |b| by { SameLength(a, b); }
    forall i | 0 <= i < |a| ensures Blank(a[i]) <==> Blank(b[i]) {
      LooksSame(a, b, i);
    }
    LooksSame(a, b, m);
    LooksSame(a, b, m - 1);
    var s :| 1 <= s <= m - 2 && KindEnds(a, s, m);
    LooksSame(a, b, s);
    LooksSame(a, b, m - 2);
    VersionFrom(a, b, s - 1);
    assert KindEnds(b, s, m);
  }

  lemma SameLength(a: seq<string>, b: seq<string>)
    ensures Renamed(a, b) ==> |a| == |b|
  {}

  lemma VersionFrom(a: seq<string>, b: seq<string>, v: nat)
    requires Renamed(a, b) && v < |a| && VersionEnds(a, v)
    ensures v < |b| && VersionEnds(b, v)
  {
    hide Blank, TrimLeft, VersionIn, OpensVersion, Grouped, Renamed;
    assert |a| == |b| by { SameLength(a, b); }
    LooksSame(a, b, v);
    if !VersionIn(a[v]) {
      var i :| 0 <= i < v && OpensVersion(a[i]) && BlankBetween(a, i, v);
      LooksSame(a, b, i);
      forall k | 0 <= k < |a| ensures Blank(a[k]) <==> Blank(b[k]) {
        LooksSame(a, b, k);
      }
    }
  }

  lemma HeaderSame(a: seq<string>, b: seq<string>)
    requires Renamed(a, b)
    ensures FindHeader(a, 0) == FindHeader(b, 0)
  {
    hide HeaderEnds, Renamed;
    assert |a| == |b| by { SameLength(a, b); }
    RenamedSym(a, b);
    forall m | 0 <= m < |a| ensures HeaderEnds(a, m) <==> HeaderEnds(b, m) {
      if HeaderEnds(a, m) {
        HeaderFrom(a, b, m);
      }
      if HeaderEnds(b, m) {
        HeaderFrom(b, a, m);
      }
    }
    FindHeaderIs(b, 0, FindHeader(a, 0));
  }

  // ---------------------------------------------------------------- the fields

  lemma {:induction false} NamespaceSame(a: seq<string>, b: seq<string>, i: nat)
    requires Renamed(a, b) && OnLine(a) && i <= |a|
    ensures FirstField(a, i, NAMESPACE) == FirstField(b, i, NAMESPACE)
    decreases |a| - i
  {
    hide Capture, OpenField, Renamed;
    assert |a| == |b| by { SameLength(a, b); }
    if i < |a| {
      LooksSame(a, b, i);
      if HasPrefix(a[i], NAMESPACE) {
        CaptureOnLine(a, i, b, i, NAMESPACE);
      }
      NamespaceSame(a, b, i + 1);
    }
  }

  /** No name line from line `i` on is a renamed one, down to the one that the name is read off. */
  predicate NamesUntouched(a: seq<string>, b: seq<string>, i: nat)
    requires i <= |a| == |b|
  {
    forall k :: i <= k < |a| && k <= ValueLine(a, i, NAME) && HasPrefix(a[k], NAME) ==> a[k] == b[k]
  }

  lemma CaptureIsValue(a: seq<string>, i: nat)
    requires OnLine(a) && i < |a| && HasPrefix(a[i], NAME)
    ensures Capture(a, i, NAME) == LineValue(a[i], NAME)
  {
    hide InLine, Blank, NextNonBlank, LastChar;
  }

  lemma {:induction false} NameSame(a: seq<string>, b: seq<string>, i: nat)
    requires Renamed(a, b) && OnLine(a) && i <= |a| == |b| && NamesUntouched(a, b, i)
    ensures FirstField(a, i, NAME) == FirstField(b, i, NAME)
    decreases |a| - i
  {
    hide Capture, OpenField, Renamed, LineValue;
    if i < |a| {
      LooksSame(a, b, i);
      if HasPrefix(a[i], NAME) {
        CaptureIsValue(a, i);
        CaptureOnLine(a, i, b, i, NAME);
      } else {
        NoValueWithoutKey(a[i]);
      }
      if LineValue(a[i], NAME).None? {
        NameSame(a, b, i + 1);
      }
    }
  }

  lemma NoValueWithoutKey(l: string)
    requires !HasPrefix(l, NAME)
    ensures LineValue(l, NAME).None?
  {}

  /** The lines that the cluster's name is read off are not renamed. */
  predicate ClusterUntouched(a: seq<string>, b: seq<string>) {
    |a| == |b| && var m := FindHeader(a, 0); m.Some? ==> NamesUntouched(a, b, m.value)
  }

  lemma RenamingKeepsIdentity(a: seq<string>, b: seq<string>)
    requires Renamed(a, b) && OnLine(a) && ClusterUntouched(a, b)
    ensures Discover(a) == Discover(b)
  {
    hide Renamed, OnLine, FirstField, FindHeader, NamesUntouched;
    HeaderSame(a, b);
    var m := FindHeader(a, 0);
    if m.Some? {
      NamespaceSame(a, b, m.value);
      NameSame(a, b, m.value);
    }
  }

  // ---------------------------------------------------------------- where an API key can be

  lemma ApiInside(a: string, s: string, b: string)
    ensures HasApi(s) ==> HasApi(a + s + b)
  {
    if HasApi(s) {
      var c :| 0 <= c <= |s| && ApiAt(s, c);
      assert (a + s + b)[|a| + c..][..|API|] == s[c..][..|API|];
      assert ApiAt(a + s + b, |a| + c);
    }
  }

  lemma ApiChar(l: string, c: nat, e: nat)
    requires ApiAt(l, c) && c <= e < c + |API|
    ensures e < |l| && l[e] == API[e - c]
  {
    PrefixChar(l[c..], API, e - c);
  }

  lemma ApiHasNoWhite(i: nat)
    requires i < |API|
    ensures !White(Regex, API[i]) && API[i] != '-' && API[0] == 'a' && API[1] == 'p' && API[|API| - 1] == ':'
  {}

  /** A key that starts in front of the value would have to start inside `name:`. */
  lemma ApiStartsInValue(indent: string, lead: string, v: string, post: string, c: nat)
    requires AllWhite(Regex, indent) && AllWhite(Regex, lead)
    requires var l := indent + R.NAME + lead + v + post; c <= |l| && ApiAt(l, c)
    ensures c >= |indent + R.NAME + lead|
  {
    var l, n := indent + R.NAME + lead + v + post, |indent|;
    ApiHasNoWhite(0);
    ApiHasNoWhite(1);
    ApiChar(l, c, c);
    ApiChar(l, c, c + 1);
    assert forall i :: 0 <= i < n ==> l[i] == indent[i];
    assert forall i :: 0 <= i < |R.NAME| ==> l[n + i] == R.NAME[i];
    assert forall i :: 0 <= i < |lead| ==> l[n + |R.NAME| + i] == lead[i];
    if n <= c < n + |R.NAME| {
      NameLetters(c - n);
    }
  }

  lemma NameLetters(i: nat)
    requires i < |R.NAME|
    ensures R.NAME[i] == 'a' ==> i == 1
    ensures R.NAME[2] == 'm'
  {}

  lemma ApiEndsInValue(pre: string, v: string, post: string, c: nat)
    requires AllWhite(Regex, post) && c <= |pre + v + post| && ApiAt(pre + v + post, c)
    ensures c + |API| <= |pre + v|
  {
    var l, e := pre + v + post, c + |API| - 1;
    ApiChar(l, c, e);
    ApiHasNoWhite(|API| - 1);
    assert forall i :: 0 <= i < |post| ==> l[|pre + v| + i] == post[i];
  }

  lemma ApiInValue(pre: string, v: string, post: string, c: nat)
    requires |pre| <= c && c + |API| <= |pre + v| && ApiAt(pre + v + post, c)
    ensures HasApi(v)
  {
    var l := pre + v + post;
    assert v[c - |pre|..][..|API|] == l[c..][..|API|];
    assert ApiAt(v, c - |pre|);
  }

  /** A name line holds the key only inside its value. */
  lemma NameLineApi(indent: string, lead: string, v: string, post: string)
    requires AllWhite(Regex, indent) && AllWhite(Regex, lead) && AllWhite(Regex, post)
    ensures HasApi(indent + R.NAME + lead + v + post) ==> HasApi(v)
  {
    hide AllWhite;
    var l := indent + R.NAME + lead + v + post;
    if HasApi(l) {
      var c :| 0 <= c <= |l| && ApiAt(l, c);
      ApiStartsInValue(indent, lead, v, post, c);
      ApiEndsInValue(indent + R.NAME + lead, v, post, c);
      ApiInValue(indent + R.NAME + lead, v, post, c);
    }
  }

  lemma RefLineApi(l: string, w: string)
    requires R.ParseRef(l).Ref?
    ensures var r := R.ParseRef(l);
      (HasApi(l) ==> HasApi(r.value)) && (HasApi(r.pre + w + r.post) ==> HasApi(w))
  {
    hide HasApi, Lead, AllWhite, R.SplitPadding;
    var n := Lead(Tab, l);
    var p := R.SplitPadding(l[n + |R.NAME|..]);
    R.CutAtName(l, n);
    R.PaddingParts(l[n + |R.NAME|..]);
    TabIsRegex(l[..n]);
    TabIsRegex(p.lead);
    TabIsRegex(p.post);
    R.Regroup(l[..n] + R.NAME, p);
    NameLineApi(l[..n], p.lead, p.value, p.post);
    NameLineApi(l[..n], p.lead, w, p.post);
  }

  lemma NewLineApi(name: string)
    ensures HasApi(R.META_NAME + " " + name) ==> HasApi(name)
  {
    hide HasApi;
    IndentIsWhite();
    NameLineApi("  ", " ", name, "");
    assert R.META_NAME == "  " + R.NAME;
    assert "  " + R.NAME + " " + name + "" == R.META_NAME + " " + name;
  }

  lemma SuffixApi(stem: string, digest: string)
    requires R.IsDigest(digest)
    ensures HasApi(R.WithSuffix(stem, digest)) ==> HasApi(stem)
  {
    var l := R.WithSuffix(stem, digest);
    if HasApi(l) {
      var c :| 0 <= c <= |l| && ApiAt(l, c);
      var e := c + |API| - 1;
      ApiChar(l, c, e);
      ApiHasNoWhite(|API| - 1);
      SuffixChar(stem, digest, e);
      assert stem[c..][..|API|] == l[c..][..|API|];
      assert ApiAt(stem, c);
    }
  }

  lemma SuffixChar(stem: string, digest: string, e: nat)
    requires R.IsDigest(digest) && e < |R.WithSuffix(stem, digest)| && R.WithSuffix(stem, digest)[e] == ':'
    ensures e < |stem|
  {
    var l := R.WithSuffix(stem, digest);
    assert forall i :: 0 <= i < |digest| ==> l[|stem| + 2 + i] == digest[i];
  }

  // ---------------------------------------------------------------- the template patch

  /** No metadata name of a template holds the key. */
  ghost predicate NoApiNames(hash: R.Hash, docs: seq<seq<string>>) {
    forall k, i :: 0 <= k < |docs| && 0 <= i < |docs[k]| && MetaOf(hash, docs[k], i) ==> !HasApi(docs[k][i])
  }

  predicate MetaOf(hash: R.Hash, doc: seq<string>, i: nat)
    requires i < |doc|
  {
    var r := R.Read(hash, doc);
    r.Revision? && i < r.spec && IsMetaName(doc[i])
  }

  lemma MetaNameApi(l: string)
    requires IsMetaName(l)
    ensures HasApi(MetaName(l)) ==> HasApi(l)
  {
    hide HasApi, Lead, Trail, Trim;
    var rest := l[|R.META_NAME|..];
    var a, b := TrimParts(Regex, rest);
    ApiInside(l[..|R.META_NAME|] + a, MetaName(l), b);
    assert l == l[..|R.META_NAME|] + a + MetaName(l) + b;
  }

  lemma StemApi(name: string)
    ensures HasApi(R.StemOf(name)) ==> HasApi(name)
  {
    hide HasApi;
    var n := |R.StemOf(name)|;
    ApiInside("", name[..n], name[n..]);
    assert name == "" + name[..n] + name[n..];
  }

  /** Then no stem and no new name holds it. */
  lemma MapHasNoApi(hash: R.Hash, docs: seq<seq<string>>, s: string)
    requires R.HexDigest(hash) && TemplateTheorems.AllRegular(hash, docs) && NoApiNames(hash, docs)
    requires s in R.RefMap(hash, docs)
    ensures !HasApi(s) && !HasApi(R.RefMap(hash, docs)[s])
  {
    hide HasApi, R.Read, R.Entries, TemplateTheorems.AllRegular, NoApiNames, R.HexDigest;
    var revs := R.ReadAll(hash, docs);
    TemplateTheorems.EntriesValues(revs, s);
    var k :| 0 <= k < |revs| && revs[k].Revision? && revs[k].stem == s && revs[k].newName == R.Entries(revs)[s];
    R.AllAt(hash, docs, k);
    NamesHaveNoApi(hash, docs, k);
  }

  lemma NamesHaveNoApi(hash: R.Hash, docs: seq<seq<string>>, k: nat)
    requires R.HexDigest(hash) && TemplateTheorems.AllRegular(hash, docs) && NoApiNames(hash, docs)
    requires k < |docs| && R.Read(hash, docs[k]).Revision?
    ensures var r := R.Read(hash, docs[k]); !HasApi(r.stem) && !HasApi(r.newName)
  {
    hide HasApi, R.Read, IsMetaName, R.IsDigest, R.WithSuffix, R.StemOf, Tidy;
    var r := R.Read(hash, docs[k]);
    assert TemplateTheorems.Regular(hash, docs[k]);
    var j := TemplateTheorems.NameLine(hash, docs[k]);
    assert MetaOf(hash, docs[k], j);
    MetaNameApi(docs[k][j]);
    R.ReadNames(hash, docs[k]);
    StemApi(r.readName);
    SuffixApi(r.stem, hash(docs[k][r.spec..]));
  }

  type Pairs = (string, string) -> bool

  /** What holds of all pairs of lines in the documents holds of all pairs in the texts. */
  lemma {:induction false} JoinPointwise(a: seq<seq<string>>, b: seq<seq<string>>, p: Pairs)
    requires a != [] && |a| == |b| && p(SEPARATOR, SEPARATOR)
    requires forall k :: 0 <= k < |a| ==> |a[k]| == |b[k]|
    requires forall k, i :: 0 <= k < |a| && 0 <= i < |a[k]| ==> p(a[k][i], b[k][i])
    ensures |JoinDocs(a)| == |JoinDocs(b)|
    ensures forall j :: 0 <= j < |JoinDocs(a)| ==> p(JoinDocs(a)[j], JoinDocs(b)[j])
    decreases |a|
  {
    if |a| > 1 {
      JoinPointwise(a[1..], b[1..], p);
    }
  }

  lemma SameIndent(pre: string, v: string, post: string, w: string)
    requires |pre| >= 2
    ensures HasPrefix(pre + v + post, "  ") <==> HasPrefix(pre + w + post, "  ")
  {
    assert (pre + v + post)[..2] == pre[..2] == (pre + w + post)[..2];
  }

  lemma RefIndentKept(m: map<string, string>, l: string)
    ensures HasPrefix(l, "  ") <==> HasPrefix(R.MapRef(m, l), "  ")
  {
    hide Lead, HasPrefix, R.ParseRef;
    var r := R.ParseRef(l);
    if r.Ref? && r.value in m {
      R.RefParts(l);
      PreHasName(l);
      SameIndent(r.pre, r.value, r.post, m[r.value]);
    }
  }

  lemma RenameIndentKept(l: string, name: string)
    ensures HasPrefix(l, "  ") <==> HasPrefix(RenameLine(l, name), "  ")
  {
    var out := RenameLine(l, name);
    if out != l {
      assert out == R.META_NAME + (" " + name);
      assert l[..7][..2] == l[..2] && R.META_NAME[..2] == "  ";
    }
  }

  /** The line is neither a reference to a template stem nor the metadata name of a template. */
  ghost predicate NotATemplate(hash: R.Hash, docs: seq<seq<string>>, l: string) {
    && R.MapRef(R.RefMap(hash, docs), l) == l
    && forall k :: 0 <= k < |docs| ==>
         var r := R.Read(hash, docs[k]);
         r.Revision? && l in docs[k][..r.spec] ==> RenameLine(l, r.newName) == l
  }

  /** One line, before and after. */
  ghost predicate Step(hash: R.Hash, docs: seq<seq<string>>, l: string, out: string) {
    && Alike(l, out) && (HasPrefix(l, "  ") <==> HasPrefix(out, "  "))
    && (l != out ==> !HasApi(l) && !HasApi(out))
    && (NotATemplate(hash, docs, l) ==> out == l)
  }

  lemma ReviseStep(hash: R.Hash, docs: seq<seq<string>>, k: nat, i: nat)
    requires R.HexDigest(hash) && TemplateTheorems.AllRegular(hash, docs) && NoApiNames(hash, docs)
    requires k < |docs| && i < |docs[k]|
    ensures |R.Revise(hash, docs[k])| == |docs[k]| && Step(hash, docs, docs[k][i], R.Revise(hash, docs[k])[i])
  {
    hide Alike, HasPrefix, HasApi, R.Read, IsMetaName, R.RefMap, R.MapRef, Tidy;
    var doc := docs[k];
    var r := R.Read(hash, doc);
    assert TemplateTheorems.Regular(hash, doc);
    TemplateTheorems.ReviseAlike(hash, doc);
    if r.Revision? {
      TemplateTheorems.ReviseTidy(hash, doc);
      if i < r.spec && r.readName != r.newName {
        RenameLinesAt(doc[..r.spec], r.newName, i);
        RenameIndentKept(doc[i], r.newName);
        assert doc[i] in doc[..r.spec];
        if IsMetaName(doc[i]) {
          assert MetaOf(hash, doc, i);
          NamesHaveNoApi(hash, docs, k);
          NewLineApi(r.newName);
        }
      }
    } else {
      TemplateTheorems.OtherStays(hash, doc);
    }
  }

  /** The substitution on a line that the rename may have touched before. */
  lemma MapStep(hash: R.Hash, docs: seq<seq<string>>, l: string, l': string)
    requires R.HexDigest(hash) && TemplateTheorems.AllRegular(hash, docs) && NoApiNames(hash, docs)
    requires Step(hash, docs, l, l')
    ensures Step(hash, docs, l, R.MapRef(R.RefMap(hash, docs), l'))
  {
    hide HasPrefix, HasApi, R.RefMap, NameLike, R.Read, R.ParseRef;
    var m := R.RefMap(hash, docs);
    TemplateTheorems.RefMapIsRevisionMap(hash, docs);
    MapRefAlike(m, l');
    RefIndentKept(m, l');
    var r := R.ParseRef(l');
    if r.Ref? && r.value in m {
      MapHasNoApi(hash, docs, r.value);
      RefLineApi(l', m[r.value]);
    }
  }

  lemma PatchStep(hash: R.Hash, docs: seq<seq<string>>, k: nat, i: nat)
    requires R.HexDigest(hash) && TemplateTheorems.AllRegular(hash, docs) && NoApiNames(hash, docs)
    requires k < |docs| && i < |docs[k]|
    ensures |R.PatchDocs(hash, docs)[k]| == |docs[k]| && Step(hash, docs, docs[k][i], R.PatchDocs(hash, docs)[k][i])
  {
    hide R.Revise, R.RefMap, R.MapRef, Step, NoApiNames;
    ReviseStep(hash, docs, k, i);
    TemplateTheorems.PatchDocAt(hash, docs, k);
    MapStep(hash, docs, docs[k][i], R.Revise(hash, docs[k])[i]);
  }

  lemma SeparatorSteps(hash: R.Hash, docs: seq<seq<string>>)
    ensures Step(hash, docs, SEPARATOR, SEPARATOR) && Step(hash, docs, "", "")
  {}

  lemma EmptyStays(hash: R.Hash, docs: seq<seq<string>>, k: nat)
    requires k < |docs| && docs[k] == []
    ensures R.PatchDocs(hash, docs)[k] == []
  {
    TemplateTheorems.PatchDocAt(hash, docs, k);
    TemplateTheorems.OtherStays(hash, []);
  }

  lemma PatchSteps(hash: R.Hash, docs: seq<seq<string>>)
    requires R.HexDigest(hash) && TemplateTheorems.AllRegular(hash, docs) && NoApiNames(hash, docs) && docs != []
    ensures var a, b := JoinDocs(docs), JoinDocs(R.PatchDocs(hash, docs));
      |a| == |b| && forall j :: 0 <= j < |a| ==> Step(hash, docs, a[j], b[j])
  {
    hide Step, NoApiNames, R.PatchDocs, JoinDocs;
    var out := R.PatchDocs(hash, docs);
    forall k | 0 <= k < |docs| ensures |out[k]| == |docs[k]| {
      if docs[k] == [] {
        EmptyStays(hash, docs, k);
      } else {
        PatchStep(hash, docs, k, 0);
      }
    }
    forall k, i | 0 <= k < |docs| && 0 <= i < |docs[k]| ensures Step(hash, docs, docs[k][i], out[k][i]) {
      PatchStep(hash, docs, k, i);
    }
    SeparatorSteps(hash, docs);
    JoinPointwise(docs, out, (l, x) => Step(hash, docs, l, x));
  }

  /** The name of the cluster is not a template's. */
  ghost predicate ClusterIsNoTemplate(hash: R.Hash, docs: seq<seq<string>>, a: seq<string>) {
    var m := FindHeader(a, 0);
    m.Some? ==>
      forall k :: m.value <= k < |a| && k <= ValueLine(a, m.value, NAME) && HasPrefix(a[k], NAME) ==>
        NotATemplate(hash, docs, a[k])
  }

  /** Renaming the templates among some documents and rewriting the references to them. */
  lemma DocsPatchKeepsIdentity(hash: R.Hash, docs: seq<seq<string>>)
    requires R.HexDigest(hash) && TemplateTheorems.AllRegular(hash, docs) && NoApiNames(hash, docs)
    requires OnLine(R.JoinOrEmpty(docs)) && ClusterIsNoTemplate(hash, docs, R.JoinOrEmpty(docs))
    ensures Discover(R.JoinOrEmpty(R.PatchDocs(hash, docs))) == Discover(R.JoinOrEmpty(docs))
  {
    hide OnLine, FindHeader, JoinDocs, R.PatchDocs, NotATemplate, Discover, HasPrefix, Alike, HasApi, NoApiNames;
    if docs != [] {
      var a, b := JoinDocs(docs), JoinDocs(R.PatchDocs(hash, docs));
      PatchSteps(hash, docs);
      assert Renamed(a, b);
      assert ClusterUntouched(a, b);
      RenamingKeepsIdentity(a, b);
    }
  }

  /** What the patch asks of the text: values on their lines, and the cluster not named like a
      template. */
  ghost predicate Plain(hash: R.Hash, text: seq<string>)
    requires text != []
  {
    var parts := SplitDocs(text);
    var docs := R.Parse(parts);
    && TemplateTheorems.AllRegular(hash, docs) && NoApiNames(hash, docs)
    && ClusterIsNoTemplate(hash, docs, R.JoinOrEmpty(docs))
    && OnLine(text) && forall k :: 0 <= k < |parts| ==> EndOnLine(parts[k])
  }

  /** The identity read off the patched text is the one read off the documents as trimming leaves
      them. */
  lemma TemplatePatchReads(hash: R.Hash, text: seq<string>)
    requires text != [] && R.HexDigest(hash) && Plain(hash, text)
    ensures Discover(text) == Identify(Whole(Readings(SplitDocs(text))))
    ensures Discover(R.Patch(hash, text)) == Identify(Whole(TrimmedReadings(SplitDocs(text))))
  {
    hide OnLine, Discover, ClusterIsNoTemplate, NoApiNames, R.PatchDocs, R.Parse, ReadLines, EndOnLine;
    var docs := R.Parse(SplitDocs(text));
    TrimmedOnLine(text);
    DocsPatchKeepsIdentity(hash, docs);
    DiscoverReads(text);
    DiscoverReads(R.JoinOrEmpty(docs));
    TrimmedTextReads(text);
  }

  /** The whole patch on a text. It keeps the identity when the first and the last line of every
      document are read alike before and after trimming. For a Cluster that names itself it keeps it
      exactly when neither its name nor its namespace stands on the last line of the document and is
      read with white space at its end. */
  lemma TemplatePatchKeepsIdentity(hash: R.Hash, text: seq<string>)
    requires text != [] && R.HexDigest(hash) && Plain(hash, text)
    ensures (forall k :: 0 <= k < |SplitDocs(text)| ==> EdgesKept(SplitDocs(text)[k])) ==>
      Discover(R.Patch(hash, text)) == Discover(text)
    ensures forall k: nat :: NamesItself(SplitDocs(text), k) ==>
      var p := SplitDocs(text)[k];
      (Discover(R.Patch(hash, text)) == Discover(text) <==> LastReads(p, NAME) && LastReads(p, NAMESPACE))
  {
    hide Discover, Plain, R.Patch, EdgesKept, NamesItself, LastReads, Readings, TrimmedReadings, Identify, Whole;
    var parts := SplitDocs(text);
    TemplatePatchReads(hash, text);
    if forall k :: 0 <= k < |parts| ==> EdgesKept(parts[k]) {
      AllEdgesRead(parts);
    }
    forall k: nat | NamesItself(parts, k)
      ensures k < |parts|
      ensures Discover(R.Patch(hash, text)) == Discover(text)
        <==> LastReads(parts[k], NAME) && LastReads(parts[k], NAMESPACE)
    {
      NamesRange(parts, k);
      OwnIdentityKept(parts, k);
    }
  }

  lemma NamesRange(parts: seq<seq<string>>, k: nat)
    ensures NamesItself(parts, k) ==> k < |parts|
  {}

  // ---------------------------------------------------------------- a name with a blank at its end

  /** A Cluster without a spec, with `name` at the end of its last line. */
  function Spaced(name: string): seq<string> { LONE[..3] + [NAMESPACE + " " + "b", NAME + " " + name] }

  lemma SpacedLines(name: string, rest: seq<string>)
    ensures var ls := Spaced(name) + rest;
      |Spaced(name)| == 5 && ls[..3] == LONE[..3] && ls[3] == NAMESPACE + " " + "b" && ls[4] == NAME + " " + name
  {}

  lemma SpacedReads(name: string, rest: seq<string>)
    requires name != "" && QUOTE !in name && !White(Regex, name[0])
    ensures Discover(Spaced(name) + rest) == Some(Cluster(name, "b"))
  {
    hide FindHeader, Capture;
    var ls := Spaced(name) + rest;
    SpacedLines(name, rest);
    NamespaceIndented();
    HeaderOfThree(ls);
    SpacedCapture(ls, 3, NAMESPACE, "b");
    SpacedCapture(ls, 4, NAME, name);
    assert FirstField(ls, 3, NAME) == FirstField(ls, 4, NAME) == Some(name);
    assert FirstField(ls, 3, NAMESPACE) == Some("b");
  }

  lemma NamespaceIndented()
    ensures HasPrefix(NAMESPACE + " " + "b", "  ") && !HasPrefix(NAMESPACE + " " + "b", NAME)
  {
    var l := NAMESPACE + " " + "b";
    assert l[..2] == "  " && l[6] == 's' && NAME[6] == ':';
    PrefixChar(l, NAME, 6);
  }

  lemma TrimBlankEnd(top: seq<string>, l: string)
    requires top != [] && top[0] != "" && !White(Unicode, top[0][0]) && l != "" && !White(Unicode, l[|l| - 1])
    ensures TrimText(top + [l + " "]) == top + [l]
  {
    hide Lead, Trail;
    var ls := top + [l + " "];
    LeadIs(Unicode, "", top[0]);
    assert "" + top[0] == top[0] && top[0][0..] == top[0];
    assert ls[0] == top[0] && [ls[0]] + ls[1..] == ls;
    TrailIs(Unicode, l, " ");
    assert (l + " ")[..|l|] == l;
    assert ls[..|ls| - 1] == top;
  }

  lemma SpacedTrims(name: string)
    requires name != "" && !White(Unicode, name[|name| - 1])
    ensures TrimText(Spaced(name + " ")) == Spaced(name)
  {
    hide TrimText;
    var top, l := LONE[..3] + [NAMESPACE + " " + "b"], NAME + " " + name;
    FirstLineSolid();
    assert top[0] == LONE[..3][0];
    TrimBlankEnd(top, l);
    assert NAME + " " + (name + " ") == l + " ";
    assert Spaced(name + " ") == top + [l + " "] && Spaced(name) == top + [l];
  }

  lemma FirstLineSolid()
    ensures var l := LONE[..3][0]; l != "" && l[0] == 'a'
  {}

  lemma SpacedIsOther(hash: R.Hash, name: string)
    ensures R.Read(hash, Spaced(name) + [[]]).Other?
  {
    hide Lead, Trail, NextNonBlank;
    var ls := Spaced(name) + [[]];
    SpacedLines(name, [[]]);
    assert ls[1] == ls[..3][1] == KIND + " " + CLUSTER_WORD && ls[2] == ls[..3][2] == METADATA;
    assert ls[0] == ls[..3][0] && ls[0][0] == 'a';
    KeyedField(ls, 1, R.KIND, CLUSTER_WORD);
    forall i | 0 <= i < |ls| && HasPrefix(ls[i], R.KIND) ensures i == 1 {
      PrefixChar(ls[i], R.KIND, 0);
    }
  }

  lemma OtherUnpatched(hash: R.Hash, doc: seq<string>)
    requires R.Read(hash, doc).Other?
    ensures R.PatchDocs(hash, [doc]) == [doc]
  {
    hide R.Read;
    R.AllAt(hash, [doc], 0);
    var revs := R.ReadAll(hash, [doc]);
    assert revs[..0] == [] && R.Entries(revs[..0]) == map[];
    assert R.Entries(revs) == map[];
    TemplateTheorems.OtherStays(hash, doc);
    R.MapNothing(doc);
  }

  /** A name that stands last in its document, with a blank behind it: the patch, which finds no
      template here, changes it. */
  lemma TrailingBlankIsLost(hash: R.Hash)
    ensures Discover(Spaced("a ")) == Some(Cluster("a ", "b"))
    ensures Discover(R.Patch(hash, Spaced("a "))) == Some(Cluster("a", "b"))
  {
    hide Discover, TrimText, Spaced, R.PatchDocs;
    var text := Spaced("a ");
    assert "a" + " " == "a ";
    SpacedReads("a ", []);
    assert text + [] == text;
    SpacedReads("a", [[]]);
    SpacedTrims("a");
    OneDocument("a ");
    NotEmpty("a");
    ParseAlone(text);
    SpacedIsOther(hash, "a");
    OtherUnpatched(hash, Spaced("a") + [[]]);
  }

  lemma NotEmpty(name: string)
    ensures |Spaced(name)| == 5
  {}

  lemma ParseAlone(p: seq<string>)
    requires TrimText(p) != []
    ensures R.Parse([p]) == [TrimText(p) + [[]]]
  {
    assert [p][..0] == [] && R.Parse([p][..0]) == [];
  }

  lemma OneDocument(name: string)
    ensures SplitDocs(Spaced(name)) == [Spaced(name)]
  {
    var ls := Spaced(name);
    SpacedLines(name, []);
    assert ls + [] == ls;
    assert ls[1] == ls[..3][1] && ls[1][0] == 'k' && ls[2] == ls[..3][2] && ls[3][0] == ' ';
    assert FirstSeparator(ls, 4) == -1;
    assert FirstSeparator(ls, 1) == -1;
  }
}
