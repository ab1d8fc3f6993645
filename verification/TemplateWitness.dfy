/** Manifests on which the template patch does not do what one would expect of it. */
module TemplateWitness {
  import opened Text
  import opened TemplateRevision
  import opened TemplateLines
  import opened TemplateTheorems
  import opened TemplateText
  import opened TemplateReferences

  // ---------------------------------------------------------------- a template

  const KIND_LINE := KIND + " " + TEMPLATE
  const API_LINE := API + " " + (INFRA + "v1alpha1")
  const METADATA := "metadata:"
  const LABELS := "  labels:"

  /** A template with a name; with `more`, a metadata line behind it; and a body. */
  function TemplateDoc(name: string, more: bool, body: seq<string>): (doc: seq<string>)
    ensures |doc| >= 6 + |body|
  {
    [KIND_LINE, API_LINE, METADATA, META_NAME + " " + name] + (if more then [LABELS] else []) + [SPEC] + body + [[]]
  }

  function SpecAt(more: bool): nat { if more then 5 else 4 }

  lemma TemplateLinesAt(name: string, more: bool, body: seq<string>)
    ensures var doc, s := TemplateDoc(name, more, body), SpecAt(more);
      && doc[0] == KIND_LINE && doc[1] == API_LINE && doc[2] == METADATA && doc[3] == META_NAME + " " + name
      && (more ==> doc[4] == LABELS) && doc[s] == SPEC && |doc| == s + |body| + 2
      && doc[s..] == [SPEC] + body + [[]]
  {}

  lemma IsTemplateDoc(name: string, more: bool, body: seq<string>)
    ensures IsTemplate(TemplateDoc(name, more, body))
  {
    hide FieldValue, Trim;
    var doc := TemplateDoc(name, more, body);
    TemplateLinesAt(name, more, body);
    KeyedField(doc, 0, KIND, TEMPLATE);
    KeyedField(doc, 1, API, INFRA + "v1alpha1");
    assert (INFRA + "v1alpha1")[..|INFRA|] == INFRA;
  }

  lemma SpecLineIs(doc: seq<string>, s: nat)
    requires s + 1 < |doc| && doc[s] == SPEC && forall i :: 0 <= i < s ==> doc[i] != SPEC
    ensures SpecLine(doc, 0) == s
  {}

  lemma NoNames(more: bool)
    ensures !HasPrefix(KIND_LINE, META_NAME) && !HasPrefix(API_LINE, META_NAME) && !HasPrefix(METADATA, META_NAME)
    ensures !HasPrefix(LABELS, META_NAME) && !HasPrefix("", META_NAME)
  {
    PrefixChar(KIND_LINE, META_NAME, 0);
    PrefixChar(API_LINE, META_NAME, 0);
    PrefixChar(METADATA, META_NAME, 0);
    PrefixChar(LABELS, META_NAME, 2);
  }

  lemma NoSpecs(name: string)
    ensures KIND_LINE != SPEC && API_LINE != SPEC && METADATA != SPEC && LABELS != SPEC
    ensures META_NAME + " " + name != SPEC
  {
    assert (META_NAME + " " + name)[0] == ' ' && KIND_LINE[0] == 'k' && API_LINE[0] == 'a';
  }

  /** What the patch reads off it. */
  lemma ReadTemplate(hash: Hash, name: string, more: bool, body: seq<string>)
    requires SingleToken(name)
    ensures var stem := StemOf(name);
      Read(hash, TemplateDoc(name, more, body))
        == Revision(stem, name, WithSuffix(stem, hash([SPEC] + body + [[]])), SpecAt(more))
  {
    hide IsTemplate, StemOf, WithSuffix, NameAt;
    var doc, s := TemplateDoc(name, more, body), SpecAt(more);
    TemplateLinesAt(name, more, body);
    IsTemplateDoc(name, more, body);
    NoSpecs(name);
    SpecLineIs(doc, s);
    var meta := Meta(doc, s);
    assert forall i :: 0 <= i < s ==> meta[i] == doc[i];
    NoNames(more);
    MissWithoutKey(meta, 0);
    MissWithoutKey(meta, 1);
    MissWithoutKey(meta, 2);
    NameAtLine(meta, 3, name);
    assert FirstName(meta, 3) == NameAt(meta, 3);
    assert FirstName(meta, 0) == FirstName(meta, 1) == FirstName(meta, 2) == FirstName(meta, 3);
  }

  lemma MissWithoutKey(ls: seq<string>, i: nat)
    requires i < |ls| && !HasPrefix(ls[i], META_NAME)
    ensures NameAt(ls, i).Miss?
  {}

  /** With a line behind the name its metadata is tidy. */
  lemma TemplateRegular(hash: Hash, name: string, body: seq<string>)
    requires SingleToken(name) && StemOf(name) != []
    ensures Regular(hash, TemplateDoc(name, true, body)) && Plain(hash, TemplateDoc(name, true, body))
  {
    hide IsTemplate, StemOf, WithSuffix, IsMetaName, Blank, Read, ParseRef;
    var doc := TemplateDoc(name, true, body);
    ReadTemplate(hash, name, true, body);
    TemplateLinesAt(name, true, body);
    NoNames(true);
    NewLineIsMeta(name);
    NewLineParses(name);
    NameRest(name);
    LabelsNotBlank();
    forall i | 0 <= i < 5 ensures TidyLine(doc, 5, i) {}
    forall i | 0 <= i < 5 && IsMetaName(doc[i]) ensures i == 3 {
      MetaStarts(doc[i]);
    }
  }

  lemma NameRest(name: string)
    requires SingleToken(name)
    ensures !Blank((META_NAME + " " + name)[|META_NAME|..])
  {
    assert (META_NAME + " " + name)[|META_NAME|..] == " " + name;
    LeadIs(Regex, " ", name);
  }

  lemma LabelsNotBlank()
    ensures !Blank(LABELS)
  {
    LeadIs(Regex, "  ", "labels:");
    assert LABELS == "  " + "labels:";
  }

  // ---------------------------------------------------------------- a plain document

  /** A document that is no template. */
  function OtherDoc(l: string): seq<string> { [l, []] }

  lemma OtherIsOther(hash: Hash, l: string)
    requires !HasPrefix(l, KIND)
    ensures Read(hash, OtherDoc(l)).Other?
  {
    hide FieldValue;
    assert !HasField(OtherDoc(l), KIND, TEMPLATE);
  }

  /** A line that refers to `v`. */
  function RefTo(v: string): string { NAME + (" " + v) }

  lemma NameLineIsRef(v: string)
    requires SingleToken(v)
    ensures ParseRef(RefTo(v)) == Ref(NAME + " ", v, "")
  {
    hide Lead, Trail;
    TokenIsSolid(v);
    Padded1(v);
    ParseOf("", " " + v);
    assert RefTo(v) == "" + NAME + (" " + v);
    assert "" + NAME + " " == NAME + " ";
  }

  lemma Padded1(v: string)
    requires Solid(Tab, v)
    ensures SplitPadding(" " + v) == Padded(" ", v, "")
  {
    PaddingOf(" ", v, "");
    assert " " + v + "" == " " + v;
  }

  lemma RefIsNoKind(v: string)
    ensures !HasPrefix(RefTo(v), KIND) && RefTo(v) != SEPARATOR && RefTo(v) != ""
  {
    assert RefTo(v)[0] == 'n';
    PrefixChar(RefTo(v), KIND, 0);
  }

  // ---------------------------------------------------------------- texts

  lemma DocNormal(name: string, more: bool, l: string)
    requires SingleToken(name) && l != "" && !White(Unicode, l[|l| - 1]) && l != SEPARATOR
    ensures var doc := TemplateDoc(name, more, [l]); Normal(doc) && Separable(doc)
  {
    var doc := TemplateDoc(name, more, [l]);
    TemplateLinesAt(name, more, [l]);
    var s := SpecAt(more);
    assert doc[s + 1] == l && doc[s + 2] == [];
    assert KIND_LINE[0] == 'k';
    NoMarkers(name);
    forall i | 1 <= i < |doc| ensures doc[i] != SEPARATOR {
      assert i <= 3 || i == 4 || i == s || i == s + 1 || i == s + 2;
    }
  }

  lemma NoMarkers(name: string)
    ensures API_LINE != SEPARATOR && METADATA != SEPARATOR && LABELS != SEPARATOR && SPEC != SEPARATOR
    ensures META_NAME + " " + name != SEPARATOR && [] != SEPARATOR
  {
    assert (META_NAME + " " + name)[0] == ' ' && API_LINE[0] == 'a';
  }

  // ---------------------------------------------------------------- a body that holds a stem

  /** The digest tells the two bodies apart. */
  function ByLength(b: seq<string>): string { if |b| >= 2 && |b[1]| == 7 then "00000000" else "11111111" }

  const OWN_BODY: seq<string> := [RefTo("x")]

  /** A template that names itself in its own body. */
  function SelfNamed(): seq<string> { TemplateDoc("x", true, OWN_BODY) }

  lemma DigestsOfLength()
    ensures HexDigest(ByLength)
  {
    assert IsDigest("00000000") && IsDigest("11111111");
  }

  lemma ShortNames()
    ensures SingleToken("x") && StemOf("x") == "x"
  {}

  lemma EntriesOne(r: Revision)
    ensures Entries([r]) == if r.Other? then map[] else map[r.stem := r.newName]
  {
    assert [r][..0] == [] && Entries([r][..0]) == map[];
  }

  lemma SelfRead()
    ensures Read(ByLength, SelfNamed()) == Revision("x", "x", WithSuffix("x", "00000000"), 5)
    ensures RefMap(ByLength, [SelfNamed()]) == map["x" := WithSuffix("x", "00000000")]
  {
    hide Read, WithSuffix;
    ShortNames();
    ReadTemplate(ByLength, "x", true, OWN_BODY);
    assert ([SPEC] + OWN_BODY + [[]])[1] == RefTo("x") && |RefTo("x")| == 7;
    var r := Read(ByLength, SelfNamed());
    AllAt(ByLength, [SelfNamed()], 0);
    var revs := ReadAll(ByLength, [SelfNamed()]);
    assert revs == [r];
    EntriesOne(r);
  }

  lemma SelfUnsettled()
    ensures !NameSettles(ByLength, [SelfNamed()], 0)
  {
    hide Read, RefMap, StemOf, SeenAsRef, HexDigest, WithSuffix, ByLength, TemplateDoc;
    var doc, m := SelfNamed(), RefMap(ByLength, [SelfNamed()]);
    var n := WithSuffix("x", "00000000");
    SelfRead();
    DigestsOfLength();
    ReadNames(ByLength, doc);
    assert |n| == 11 && n != "x";
    assert CarriedBy(ByLength, [doc], 0) == n;
    SelfBody(m);
    SuffixInjective("x", "00000000", "11111111");
  }

  /** The rewritten body has another digest. */
  lemma SelfBody(m: map<string, string>)
    requires m == map["x" := WithSuffix("x", "00000000")]
    ensures ByLength(MapLines(m, SelfNamed()[5..])) == "11111111"
  {
    hide ParseRef, WithSuffix;
    TemplateLinesAt("x", true, OWN_BODY);
    ShortNames();
    NameLineIsRef("x");
    StemOfNew("x", "00000000");
    var body := SelfNamed()[5..];
    assert body[1] == RefTo("x");
    assert |MapLines(m, body)[1]| == |NAME + " "| + |WithSuffix("x", "00000000")| + 0 == 17;
  }

  /** The second run of the patch renames this template again. */
  lemma SecondRunRenames()
    ensures var text := SelfNamed();
      text != [] && Patch(ByLength, text) != [] && Patch(ByLength, Patch(ByLength, text)) != Patch(ByLength, text)
  {
    hide Patch, NameSettles, Normal, Separable;
    var docs := [SelfNamed()];
    ShortNames();
    DigestsOfLength();
    RefIsNoKind("x");
    DocNormal("x", true, RefTo("x"));
    ReparseClosed(docs);
    assert JoinOrEmpty(docs) == SelfNamed();
    TemplateRegular(ByLength, "x", OWN_BODY);
    SelfUnsettled();
    PatchIdempotent(ByLength, SelfNamed());
  }

  // ---------------------------------------------------------------- a new name that is a stem

  function BySize(b: seq<string>): string { if |b| >= 2 && |b[1]| == 6 then "12345678" else "abcdef01" }

  const FIRST := WithSuffix("x", "12345678")
  const SECOND := WithSuffix(FIRST, "abcdef01")

  /** A template, another one named like its new name with an older suffix, and a reference. */
  function ChainDocs(): seq<seq<string>> {
    [TemplateDoc("x", true, ["  a: b"]), TemplateDoc(WithSuffix(FIRST, "00000000"), true, ["  c: dd"]),
      OtherDoc(RefTo("x"))]
  }

  lemma ChainNames()
    ensures HexDigest(BySize) && SingleToken("x") && SingleToken(WithSuffix(FIRST, "00000000")) && StemOf("x") == "x"
    ensures StemOf(WithSuffix(FIRST, "00000000")) == FIRST && StemOf(SECOND) == FIRST
    ensures |FIRST| == 11 && |SECOND| == 21 && WithSuffix(FIRST, "00000000") != SECOND
  {
    assert IsDigest("12345678") && IsDigest("abcdef01") && IsDigest("00000000");
    ShortNames();
    StemOfNew("x", "12345678");
    StemOfNew(FIRST, "00000000");
    StemOfNew(FIRST, "abcdef01");
    NewNameIsToken("x", "x", "12345678");
    FirstHasNoSuffix();
    SuffixInjective(FIRST, "00000000", "abcdef01");
  }

  lemma FirstHasNoSuffix()
    ensures SingleToken(WithSuffix(FIRST, "00000000"))
  {
    var name := WithSuffix(FIRST, "00000000");
    assert name == "x-t12345678-t00000000";
  }

  lemma ChainReads()
    ensures var docs := ChainDocs();
      && Read(BySize, docs[0]) == Revision("x", "x", FIRST, 5)
      && Read(BySize, docs[1]) == Revision(FIRST, WithSuffix(FIRST, "00000000"), SECOND, 5)
      && Read(BySize, docs[2]).Other?
      && RefMap(BySize, docs) == map["x" := FIRST, FIRST := SECOND]
  {
    hide Read, WithSuffix, StemOf, HexDigest, SingleToken, TemplateDoc, OtherDoc;
    ChainNames();
    var docs := ChainDocs();
    ReadTemplate(BySize, "x", true, ["  a: b"]);
    ReadTemplate(BySize, WithSuffix(FIRST, "00000000"), true, ["  c: dd"]);
    assert ([SPEC] + ["  a: b"] + [[]])[1] == "  a: b" && ([SPEC] + ["  c: dd"] + [[]])[1] == "  c: dd";
    RefIsNoKind("x");
    OtherIsOther(BySize, RefTo("x"));
    AllAt(BySize, docs, 0);
    AllAt(BySize, docs, 1);
    AllAt(BySize, docs, 2);
    var revs := ReadAll(BySize, docs);
    EntriesThree(revs);
  }

  lemma EntriesThree(revs: seq<Revision>)
    requires |revs| == 3 && revs[0].Revision? && revs[1].Revision? && revs[2].Other?
    ensures Entries(revs) == map[revs[0].stem := revs[0].newName][revs[1].stem := revs[1].newName]
  {
    EntriesOne(revs[0]);
    assert revs[..2][..1] == [revs[0]];
    assert Entries(revs) == Entries(revs[..2]);
  }

  lemma ChainRegular()
    ensures AllRegular(BySize, ChainDocs())
  {
    hide Regular, TemplateDoc, OtherDoc, Read;
    var docs := ChainDocs();
    ChainNames();
    TemplateRegular(BySize, "x", ["  a: b"]);
    TemplateRegular(BySize, WithSuffix(FIRST, "00000000"), ["  c: dd"]);
    RefIsNoKind("x");
    OtherIsOther(BySize, RefTo("x"));
    OtherIsRegular(BySize, docs[2]);
    forall k | 0 <= k < |docs| ensures Regular(BySize, docs[k]) {
      assert k == 0 || k == 1 || k == 2;
    }
  }

  lemma OtherIsRegular(hash: Hash, doc: seq<string>)
    requires Read(hash, doc).Other?
    ensures Regular(hash, doc)
  {}

  lemma ChainClosed()
    ensures Closed(ChainDocs())
  {
    hide TemplateDoc, Normal, Separable;
    var docs := ChainDocs();
    ChainNames();
    DocNormal("x", true, "  a: b");
    DocNormal(WithSuffix(FIRST, "00000000"), true, "  c: dd");
    RefIsNoKind("x");
    OtherNormal(RefTo("x"));
    forall k | 0 <= k < |docs| ensures Normal(docs[k]) && Separable(docs[k]) {
      assert k == 0 || k == 1 || k == 2;
    }
  }

  lemma OtherNormal(l: string)
    requires l != "" && !White(Unicode, l[0]) && !White(Unicode, l[|l| - 1])
    ensures Normal(OtherDoc(l)) && Separable(OtherDoc(l))
  {
    assert OtherDoc(l)[..1] == [l];
  }

  lemma ChainBreaks()
    ensures !NoChain(BySize, ChainDocs())
  {
    hide Read, RefMap, StemOf, SeenAsRef, HexDigest, WithSuffix, TemplateDoc, SingleToken;
    var docs, m := ChainDocs(), RefMap(BySize, ChainDocs());
    ChainReads();
    ChainNames();
    assert FIRST != SECOND && SECOND != "x";
    assert CarriedBy(BySize, docs, 1) == SECOND;
    assert SecondStem(BySize, docs, FIRST);
    NameLineIsRef("x");
    OtherStays(BySize, docs[2]);
    assert docs[2][0] == RefTo("x");
    assert Chained(BySize, docs, Revise(BySize, docs[2])[0]);
  }

  lemma BodyIsNoRef(l: string, indent: string, t: string)
    requires l == indent + t && AllWhite(Tab, indent) && t != "" && !White(Tab, t[0]) && t[0] != 'n'
    ensures ParseRef(l).NoRef?
  {
    LeadIs(Tab, indent, t);
    assert l[|indent|..] == t;
    PrefixChar(t, NAME, 0);
  }

  lemma PlainBody(m: map<string, string>, l: string)
    requires ParseRef(l).NoRef?
    ensures NoStemIn(m, [SPEC] + [l] + [[]])
  {
    hide ParseRef;
    BodyIsNoRef(SPEC, "", SPEC);
    EmptyIsNoRef();
    var body := [SPEC] + [l] + [[]];
    assert body[0] == SPEC && body[1] == l && body[2] == [];
  }

  lemma EmptyIsNoRef()
    ensures ParseRef([]).NoRef?
  {}

  /** No body holds a reference, and yet the second run of the patch changes the text: it takes the
      name that the first run wrote for a stem. */
  lemma SecondRunRewrites()
    ensures var docs, text := ChainDocs(), JoinOrEmpty(ChainDocs());
      && text != [] && Parse(SplitDocs(text)) == docs
      && (forall k :: 0 <= k < 2 ==> NoStemIn(RefMap(BySize, docs), docs[k][5..]))
      && Patch(BySize, text) != [] && Patch(BySize, Patch(BySize, text)) != Patch(BySize, text)
  {
    hide *;
    var docs := ChainDocs();
    ChainClosed();
    ReparseClosed(docs);
    ChainRegular();
    ChainBreaks();
    ChainNames();
    PatchIdempotent(BySize, JoinOrEmpty(docs));
    ChainBodies(RefMap(BySize, docs));
  }

  lemma ChainBodies(m: map<string, string>)
    ensures forall k :: 0 <= k < 2 ==> NoStemIn(m, ChainDocs()[k][5..])
  {
    hide NoStemIn, TemplateDoc, WithSuffix;
    BodyIsNoRef("  a: b", "  ", "a: b");
    BodyIsNoRef("  c: dd", "  ", "c: dd");
    PlainBody(m, "  a: b");
    PlainBody(m, "  c: dd");
    TemplateLinesAt("x", true, ["  a: b"]);
    TemplateLinesAt(WithSuffix(FIRST, "00000000"), true, ["  c: dd"]);
    forall k | 0 <= k < 2 ensures NoStemIn(m, ChainDocs()[k][5..]) {
      assert k == 0 || k == 1;
    }
  }

  // ---------------------------------------------------------------- a reference that stays behind

  function Always(b: seq<string>): string { "11111111" }

  const OLD := WithSuffix("x", "00000000")

  /** A template that carries an old suffix, and a reference to it. */
  function StaleDocs(): seq<seq<string>> { [TemplateDoc(OLD, true, ["  a: b"]), OtherDoc(RefTo(OLD))] }

  lemma OldNames()
    ensures HexDigest(Always) && SingleToken(OLD) && StemOf(OLD) == "x"
    ensures OLD != "x" && WithSuffix("x", "11111111") != OLD && WithSuffix("x", "11111111") != "x"
  {
    assert IsDigest("00000000") && IsDigest("11111111");
    StemOfNew("x", "00000000");
    ShortNames();
    NewNameIsToken("x", "x", "00000000");
    SuffixInjective("x", "00000000", "11111111");
    assert |OLD| == 11 && |WithSuffix("x", "11111111")| == 11;
  }

  lemma StaleReads()
    ensures var docs := StaleDocs();
      && Read(Always, docs[0]) == Revision("x", OLD, WithSuffix("x", "11111111"), 5) && Read(Always, docs[1]).Other?
      && RefMap(Always, docs) == map["x" := WithSuffix("x", "11111111")]
      && AllPlain(Always, docs)
  {
    hide Read, WithSuffix, StemOf, HexDigest, SingleToken, TemplateDoc, OtherDoc, Regular, Plain;
    OldNames();
    var docs := StaleDocs();
    ReadTemplate(Always, OLD, true, ["  a: b"]);
    TemplateRegular(Always, OLD, ["  a: b"]);
    RefIsNoKind(OLD);
    OtherIsOther(Always, RefTo(OLD));
    OtherIsRegular(Always, docs[1]);
    OtherIsPlain(Always, docs[1]);
    AllAt(Always, docs, 0);
    AllAt(Always, docs, 1);
    var revs := ReadAll(Always, docs);
    EntriesOne(revs[0]);
    assert revs[..1] == [revs[0]];
    forall k | 0 <= k < |docs| ensures Regular(Always, docs[k]) && Plain(Always, docs[k]) {
      assert k == 0 || k == 1;
    }
  }

  lemma OtherIsPlain(hash: Hash, doc: seq<string>)
    requires Read(hash, doc).Other?
    ensures Plain(hash, doc)
  {}

  /** The reference of the second document still names the old suffix; the template does not. */
  lemma ReferenceStays()
    ensures var docs, out := StaleDocs(), PatchDocs(Always, StaleDocs());
      && Read(Always, docs[0]).Revision? && !AllFollow(Always, docs, 0) && |out| == 2 && out[1] == docs[1]
      && CarriedBy(Always, docs, 0) == WithSuffix("x", "11111111")
  {
    hide Read, WithSuffix, StemOf, HexDigest, SingleToken, TemplateDoc, PatchDocs, RefMap, AllFollow, AllPlain;
    hide SeenAsRef, ParseRef, IsRenamed;
    var docs := StaleDocs();
    OldNames();
    StaleReads();
    NameLineIsRef(OLD);
    assert docs[1][0] == RefTo(OLD);
    assert Names(Always, docs, 0, 1, 0);
    NotRenamed(Always, docs, 1, 0);
    assert !Current(Always, docs, 0);
    RenamingFollowed(Always, docs, 0);
    StaleReferences(Always, docs, 0, 1, 0);
    PatchDocAt(Always, docs, 1);
    OtherStays(Always, docs[1]);
    EmptyLineKept(RefMap(Always, docs));
    assert MapLines(RefMap(Always, docs), docs[1])[1] == MapLines(RefMap(Always, docs), [[]])[0];
  }

  lemma NotRenamed(hash: Hash, docs: seq<seq<string>>, l: nat, i: nat)
    requires l < |docs| && i < |docs[l]| && Read(hash, docs[l]).Other?
    ensures !IsRenamed(hash, docs, l, i)
  {}

  // ---------------------------------------------------------------- a name at the end of the metadata

  /** A template whose name is its last metadata line. */
  function NameLast(): seq<string> { TemplateDoc("x", false, ["  a: b"]) }

  /** The rename glues its header to its name, and the result is no template. */
  lemma HeaderIsLost()
    ensures Read(Always, NameLast()).Revision? && Read(Always, Revise(Always, NameLast())).Other?
  {
    hide Read, WithSuffix, StemOf, TemplateDoc, NameAt, RunsOut, Revise;
    var doc := NameLast();
    ShortNames();
    OldNames();
    ReadTemplate(Always, "x", false, ["  a: b"]);
    TemplateLinesAt("x", false, ["  a: b"]);
    var meta := Meta(doc, 4);
    NameRunsOut(meta, "x");
    HeaderSwallowed(Always, doc);
    NoSpecs("x");
    assert doc[5..] == doc[4..][1..] && doc[4..][1] == "  a: b" && doc[4..][2] == [];
    assert forall l :: l in doc[5..] ==> l == "  a: b" || l == [];
    assert forall l :: l in doc[..4] ==> l == doc[0] || l == doc[1] || l == doc[2] || l == doc[3];
  }

  lemma NameRunsOut(meta: seq<string>, name: string)
    requires |meta| == 5 && meta[0] == KIND_LINE && meta[1] == API_LINE && meta[2] == METADATA
    requires meta[3] == META_NAME + " " + name && meta[4] == [] && SingleToken(name)
    ensures RunsOut(meta, 0)
  {
    hide NameAt, RunsOut;
    NoNames(false);
    MissWithoutKey(meta, 0);
    MissWithoutKey(meta, 1);
    MissWithoutKey(meta, 2);
    NameAtLine(meta, 3, name);
    EmptyIsBlank();
    assert NextNonBlank(meta, 4) == NextNonBlank(meta, 5) == 5;
    RunsOutStep(meta, 3);
    RunsOutStep(meta, 2);
    RunsOutStep(meta, 1);
    RunsOutStep(meta, 0);
  }

  lemma EmptyIsBlank()
    ensures Blank([])
  {}
}
