/** The template-revision patch in terms of the text (PatchProxmoxMachineTemplateSpecRevisions in
    internal/capi/manifest/patches.go): which documents are templates, what becomes of their names,
    and what happens to all other lines. */
module TemplateFrame {
  import opened Text
  import opened TemplateRevision
  import opened TemplateLines
  import opened TemplateTheorems
  import TemplateText

  // ---------------------------------------------------------------- the documents

  /** A part of the text is a document without the white space around it and with one final newline; a
      part that is all white is none. */
  lemma {:induction false} EachPart(a: seq<seq<string>>, p: seq<string>, b: seq<seq<string>>)
    ensures Parse([]) == []
    ensures Parse(a + [p] + b) ==
      Parse(a) + (if AllWhite(Unicode, Bytes(p)) then [] else [TrimText(p) + [""]]) + Parse(b)
    ensures Bytes(TrimText(p)) == Trim(Unicode, Bytes(p))
    decreases |b|
  {
    hide TrimText, Trim, Bytes, AllWhite, Parse, TemplateText.Kept;
    TrimTextIsTrim(p);
    PartIsKept(p);
    ParseNothing();
    if b == [] {
      assert a + [p] + b == a + [p];
      LastPart(a, p);
    } else {
      var n := |b| - 1;
      EachPart(a, p, b[..n]);
      assert b == b[..n] + [b[n]];
      LastPart(b[..n], b[n]);
      LastPart(a + [p] + b[..n], b[n]);
      assert a + [p] + b == a + [p] + b[..n] + [b[n]];
    }
  }

  lemma ParseNothing()
    ensures Parse([]) == []
  {
  }

  lemma LastPart(a: seq<seq<string>>, p: seq<string>)
    ensures Parse(a + [p]) == Parse(a) + TemplateText.Kept(p)
  {
    hide Parse, TemplateText.Kept;
    TemplateText.ParseLast(a + [p]);
    assert (a + [p])[..|a|] == a;
  }

  lemma PartIsKept(p: seq<string>)
    ensures TemplateText.Kept(p) == if AllWhite(Unicode, Bytes(p)) then [] else [TrimText(p) + [""]]
  {
    hide TrimText, Trim, Bytes, AllWhite;
    TrimTextIsTrim(p);
    TrimEmptyOrSolid(Unicode, Bytes(p));
    NoBytes(p);
  }

  lemma NoBytes(p: seq<string>)
    ensures TrimText(p) == [] <==> Bytes(TrimText(p)) == ""
  {
    TrimTextTight(p);
    if TrimText(p) != [] {
      TightIsSolid(TrimText(p));
    }
  }

  // ---------------------------------------------------------------- templates and stems

  /** The document has both fields of a template. */
  predicate TwoFields(doc: seq<string>) {
    && (exists i :: 0 <= i < |doc| && HasPrefix(doc[i], "kind:")
          && FieldValue(doc, i, "kind:") == "ProxmoxMachineTemplate")
    && (exists i :: 0 <= i < |doc| && HasPrefix(doc[i], "apiVersion:")
          && HasPrefix(FieldValue(doc, i, "apiVersion:"), "infrastructure.cluster.x-k8s.io/"))
  }

  lemma TemplateIs(doc: seq<string>)
    ensures IsTemplate(doc) <==> TwoFields(doc)
  {
    hide FieldValue, HasPrefix;
  }

  predicate HexEight(d: string) {
    |d| == 8 && forall i :: 0 <= i < 8 ==> '0' <= d[i] <= '9' || 'a' <= d[i] <= 'f'
  }

  /** `s` is `v` without `-t` and eight hex digits, or `v` itself where it does not end so. */
  ghost predicate StemIs(v: string, s: string) {
    || (exists d :: HexEight(d) && v == s + "-t" + d)
    || (v == s && forall x, d :: HexEight(d) ==> v != x + "-t" + d)
  }

  lemma SuffixedIs(v: string, x: string, d: string)
    requires HexEight(d) && v == x + "-t" + d
    ensures Suffixed(v) && StemOf(v) == x
  {
    assert v[|v| - 8..] == d && v[..|v| - 10] == x;
  }

  lemma StemOfIs(v: string, s: string)
    ensures StemIs(v, s) <==> s == StemOf(v)
  {
    if Suffixed(v) {
      var x, d := v[..|v| - 10], v[|v| - 8..];
      assert HexEight(d) && v == x + "-t" + d;
      if exists d :: HexEight(d) && v == s + "-t" + d {
        var d :| HexEight(d) && v == s + "-t" + d;
        SuffixedIs(v, s, d);
      }
    } else {
      forall x, d | HexEight(d) ensures v != x + "-t" + d {
        if v == x + "-t" + d {
          SuffixedIs(v, x, d);
        }
      }
    }
  }

  lemma {:induction false} SpecLineIs(doc: seq<string>, i: nat, b: nat)
    requires i <= b < |doc| - 1 && doc[b] == "spec:" && forall k :: i <= k < b ==> doc[k] != "spec:"
    ensures SpecLine(doc, i) == b
    decreases b - i
  {
    if i < b {
      SpecLineIs(doc, i + 1, b);
    }
  }

  lemma {:induction false} WhereFirst(ls: seq<string>, i: nat) returns (j: nat)
    requires i <= |ls| && FirstName(ls, i).Hit?
    ensures i <= j < |ls| && HasPrefix(ls[j], "  name:") && FirstName(ls, i).name == FieldValue(ls, j, "  name:")
    decreases |ls| - i
  {
    hide FieldValue, HasPrefix;
    j := i;
    if NameAt(ls, i).Miss? {
      j := WhereFirst(ls, i + 1);
    }
  }

  /** Every stem of the reference map is read off a document that has both fields: off the value of a
      `  name:` line above its `spec:` line. What it stands for is the stem with the hash of the text
      from the `spec:` line on. */
  lemma StemsAreRead(hash: Hash, docs: seq<seq<string>>, s: string) returns (k: nat, b: nat, j: nat)
    requires s in RefMap(hash, docs)
    ensures k < |docs| && TwoFields(docs[k]) && j < b < |docs[k]| - 1
    ensures docs[k][b] == "spec:" && forall i :: 0 <= i < b ==> docs[k][i] != "spec:"
    ensures HasPrefix(docs[k][j], "  name:") && StemIs(FieldValue(docs[k][..b] + [""], j, "  name:"), s)
    ensures RefMap(hash, docs)[s] == s + "-t" + hash(docs[k][b..])
  {
    hide Read, FieldValue, HasPrefix, StemIs, StemOf;
    var revs := ReadAll(hash, docs);
    k := LastRevision(revs, s);
    AllAt(hash, docs, k);
    b, j := RevisionIsRead(hash, docs[k]);
  }

  lemma {:induction false} LastRevision(revs: seq<Revision>, s: string) returns (k: nat)
    requires s in Entries(revs)
    ensures k < |revs| && revs[k].Revision? && revs[k].stem == s && revs[k].newName == Entries(revs)[s]
  {
    k := |revs| - 1;
    if revs[k].Other? || revs[k].stem != s {
      k := LastRevision(revs[..k], s);
    }
  }

  lemma RevisionIsRead(hash: Hash, doc: seq<string>) returns (b: nat, j: nat)
    requires Read(hash, doc).Revision?
    ensures TwoFields(doc) && j < b < |doc| - 1 && b == Read(hash, doc).spec
    ensures doc[b] == "spec:" && forall i :: 0 <= i < b ==> doc[i] != "spec:"
    ensures HasPrefix(doc[j], "  name:") && StemIs(FieldValue(doc[..b] + [""], j, "  name:"), Read(hash, doc).stem)
    ensures Read(hash, doc).newName == Read(hash, doc).stem + "-t" + hash(doc[b..])
  {
    hide FieldValue, StemOf, Suffixed, IsTemplate, TwoFields, StemIs;
    TemplateIs(doc);
    b := SpecLine(doc, 0);
    j := WhereFirst(Meta(doc, b), 0);
    StemOfIs(FirstName(Meta(doc, b), 0).name, Read(hash, doc).stem);
    NoNameBelow(doc, b, j);
  }

  lemma NoNameBelow(doc: seq<string>, b: nat, j: nat)
    requires b <= |doc| && j <= b && HasPrefix(Meta(doc, b)[j], "  name:")
    ensures j < b && Meta(doc, b)[j] == doc[j]
  {
  }

  // ---------------------------------------------------------------- the lines of other documents

  /** The line is a reference to a stem, and only the stem changes, to the name it stands for. */
  ghost predicate Redirected(m: map<string, string>, l: string, l': string) {
    exists indent, lead, s, post :: AllWhite(Tab, indent) && AllWhite(Tab, lead) && AllWhite(Tab, post) && s in m
      && l == indent + "name:" + lead + s + post && l' == indent + "name:" + lead + m[s] + post
  }

  lemma MappedLine(m: map<string, string>, l: string)
    ensures MapRef(m, l) == l || Redirected(m, l, MapRef(m, l))
  {
    hide SplitPadding;
    var r := ParseRef(l);
    if r.Ref? && r.value in m {
      var n := Lead(Tab, l);
      var p := SplitPadding(l[n + |NAME|..]);
      CutAtName(l, n);
      PaddingParts(l[n + |NAME|..]);
      assert l == l[..n] + NAME + p.lead + p.value + p.post;
      assert MapRef(m, l) == l[..n] + NAME + p.lead + m[p.value] + p.post;
    }
  }

  /** A document without the two fields, without a `spec:` line, or without a metadata name keeps its
      lines, except that references to stems are redirected. */
  lemma OthersKeepTheirLines(hash: Hash, docs: seq<seq<string>>, k: nat)
    requires k < |docs|
    requires || !TwoFields(docs[k])
             || (forall i :: 0 <= i < |docs[k]| - 1 ==> docs[k][i] != "spec:")
             || (forall i :: 0 <= i < |docs[k]| ==> !HasPrefix(docs[k][i], "  name:"))
    ensures var doc, out := docs[k], PatchDocs(hash, docs)[k];
      && |out| == |doc|
      && forall i :: 0 <= i < |doc| ==> out[i] == doc[i] || Redirected(RefMap(hash, docs), doc[i], out[i])
  {
    hide Read, TwoFields, HasPrefix, MapRef, Redirected, RefMap;
    var doc := docs[k];
    if Read(hash, doc).Revision? {
      var b, j := RevisionIsRead(hash, doc);
      assert false;
    }
    OtherStays(hash, doc);
    PatchDocAt(hash, docs, k);
    forall i | 0 <= i < |doc| {
      MappedLine(RefMap(hash, docs), doc[i]);
    }
  }

  /** And every reference to a stem is redirected, whatever its indentation and padding. */
  lemma ReferencesAreRedirected(hash: Hash, docs: seq<seq<string>>, k: nat, i: nat, indent: string, lead: string,
    s: string, post: string)
    requires k < |docs| && !TwoFields(docs[k]) && i < |docs[k]| && docs[k][i] == indent + "name:" + lead + s + post
    requires AllWhite(Tab, indent) && AllWhite(Tab, lead) && AllWhite(Tab, post)
    requires s in RefMap(hash, docs) && Solid(Tab, s)
    ensures var out := PatchDocs(hash, docs)[k];
      |out| == |docs[k]| && out[i] == indent + "name:" + lead + RefMap(hash, docs)[s] + post
  {
    hide Read, TwoFields, RefMap, MapRef;
    if Read(hash, docs[k]).Revision? {
      var b, j := RevisionIsRead(hash, docs[k]);
      assert false;
    }
    OtherStays(hash, docs[k]);
    PatchDocAt(hash, docs, k);
    ReferenceMapped(RefMap(hash, docs), indent, lead, s, post);
  }

  lemma ReferenceMapped(m: map<string, string>, indent: string, lead: string, s: string, post: string)
    requires AllWhite(Tab, indent) && AllWhite(Tab, lead) && AllWhite(Tab, post) && s in m && Solid(Tab, s)
    ensures MapRef(m, indent + "name:" + lead + s + post) == indent + "name:" + lead + m[s] + post
  {
    hide ParseRef, SplitPadding;
    PaddingOf(lead, s, post);
    ParseOf(indent, lead + s + post);
    assert indent + "name:" + lead + s + post == indent + NAME + (lead + s + post);
  }

  // ---------------------------------------------------------------- the names of templates

  /** A metadata name as clusterctl writes it. */
  ghost predicate Named(l: string, v: string) {
    && SingleToken(v)
    && exists lead, post :: AllWhite(Tab, lead) && AllWhite(Tab, post) && l == "  name:" + lead + v + post
  }

  lemma NamedIs(l: string, v: string)
    requires Named(l, v)
    ensures IsMetaName(l) && MetaName(l) == v && ParseRef(l).Ref? && ParseRef(l).value == v
  {
    var lead, post :| AllWhite(Tab, lead) && AllWhite(Tab, post) && l == "  name:" + lead + v + post;
    hide *;
    TokenIsSolid(v);
    PaddingOf(lead, v, post);
    NameLineParses(lead + v + post);
    Glued(lead, v, post);
    MetaRef(l);
  }

  lemma Glued(lead: string, v: string, post: string)
    ensures "  name:" + lead + v + post == "  name:" + (lead + v + post)
  {
  }

  lemma NameLineParses(rest: string)
    ensures var l := "  name:" + rest;
      HasPrefix(l, META_NAME) && ParseRef(l).Ref? && ParseRef(l).value == SplitPadding(rest).value
  {
    hide ParseRef, SplitPadding, Lead;
    IndentIsWhite();
    ParseOf("  ", rest);
    assert "  name:" + rest == "  " + NAME + rest;
  }

  /** The metadata of a template: its names have their values on their lines, and a line below. */
  ghost predicate CleanMetadata(doc: seq<string>, b: nat)
    requires b <= |doc|
  {
    forall i :: 0 <= i < b && HasPrefix(doc[i], "  name:") ==>
      (exists v :: Named(doc[i], v)) && i + 1 < b && !Blank(doc[i + 1])
  }

  lemma CleanIsTidy(doc: seq<string>, b: nat)
    requires b <= |doc| && CleanMetadata(doc, b)
    ensures Tidy(doc, b)
    ensures forall i :: 0 <= i < b ==> (IsMetaName(doc[i]) <==> HasPrefix(doc[i], "  name:"))
  {
    hide Named;
    forall i | 0 <= i < b && HasPrefix(doc[i], "  name:") ensures IsMetaName(doc[i]) {
      var v :| Named(doc[i], v);
      NamedIs(doc[i], v);
    }
  }

  /** What a template is called afterwards, unless its new name is itself a stem: the stem of its first
      name with the hash of its text from the `spec:` line on, on every name line of its metadata; no
      line changes if it was called so. */
  lemma TemplateIsRenamed(hash: Hash, docs: seq<seq<string>>, k: nat, b: nat, j: nat, v: string, s: string)
    requires HexDigest(hash) && k < |docs| && TwoFields(docs[k]) && j < b < |docs[k]| - 1
    requires docs[k][b] == "spec:" && forall i :: 0 <= i < b ==> docs[k][i] != "spec:"
    requires CleanMetadata(docs[k], b) && Named(docs[k][j], v) && StemIs(v, s)
    requires forall i :: 0 <= i < j ==> !HasPrefix(docs[k][i], "  name:")
    ensures var doc, out, m := docs[k], PatchDocs(hash, docs)[k], RefMap(hash, docs);
      var name := s + "-t" + hash(doc[b..]);
      && s in m && |out| == |doc|
      && (forall i :: 0 <= i < |doc| && (i >= b || v == name || !HasPrefix(doc[i], "  name:")) ==>
            out[i] == doc[i] || Redirected(m, doc[i], out[i]))
      && (name !in m && v == name ==> out[j] == doc[j])
      && (name !in m && v != name ==>
            forall i :: 0 <= i < b && HasPrefix(doc[i], "  name:") ==> out[i] == "  name: " + name)
  {
    hide Read, TwoFields, HasPrefix, MapRef, Redirected, RefMap, Named, CleanMetadata, StemIs, IsMetaName, ParseRef;
    var doc, m := docs[k], RefMap(hash, docs);
    var name := s + "-t" + hash(doc[b..]);
    ReadIs(hash, doc, b, j, v, s);
    CleanIsTidy(doc, b);
    ReadNames(hash, doc);
    StemsAreKeys(hash, docs, s);
    PatchDocAt(hash, docs, k);
    ReviseTidy(hash, doc);
    NamedIs(doc[j], v);
    if v !in m {
      MapMiss(m, doc[j]);
    }
    NameMapped(m, name);
    assert META_NAME + " " + name == "  name: " + name;
    var revised := Revise(hash, doc);
    forall i | 0 <= i < |doc|
      ensures i < |revised| && revised[i] ==
        if i < b && v != name && HasPrefix(doc[i], "  name:") then META_NAME + " " + name else doc[i]
      ensures MapRef(m, revised[i]) == revised[i] || Redirected(m, revised[i], MapRef(m, revised[i]))
    {
      if i < b && v != name {
        RenameLinesAt(doc[..b], name, i);
      }
      MappedLine(m, revised[i]);
    }
  }

  lemma NameMapped(m: map<string, string>, name: string)
    requires SingleToken(name)
    ensures name !in m ==> MapRef(m, META_NAME + " " + name) == META_NAME + " " + name
  {
    NewLineParses(name);
    if name !in m {
      MapMiss(m, META_NAME + " " + name);
    }
  }

  lemma ReadIs(hash: Hash, doc: seq<string>, b: nat, j: nat, v: string, s: string)
    requires TwoFields(doc) && j < b < |doc| - 1 && StemIs(v, s)
    requires doc[b] == "spec:" && forall i :: 0 <= i < b ==> doc[i] != "spec:"
    requires CleanMetadata(doc, b) && Named(doc[j], v) && forall i :: 0 <= i < j ==> !HasPrefix(doc[i], "  name:")
    ensures Read(hash, doc) == Revision(s, v, s + "-t" + hash(doc[b..]), b)
  {
    hide HasPrefix, Named, IsTemplate, TwoFields, FirstName, StemIs, StemOf, IsMetaName;
    TemplateIs(doc);
    SpecLineIs(doc, 0, b);
    CleanIsTidy(doc, b);
    NamedIs(doc[j], v);
    TidyFirst(doc, b, 0, j);
    StemOfIs(v, s);
  }
}
