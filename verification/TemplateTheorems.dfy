/** What the template-revision patch keeps: it can be run twice, its renaming is consistent, and
    references go on resolving to the same documents. */
module TemplateTheorems {
  import opened Text
  import opened TemplateRevision
  import opened TemplateLines

  // ---------------------------------------------------------------- one document, read again

  /** The lines of a revised document, position by position. */
  lemma ReviseTidy(hash: Hash, doc: seq<string>)
    requires HexDigest(hash)
    requires var r := Read(hash, doc); r.Revision? && Tidy(doc, r.spec)
    ensures var r := Read(hash, doc);
      Revise(hash, doc) ==
        (if r.readName == r.newName then doc[..r.spec] else RenameLines(doc[..r.spec], r.newName)) + doc[r.spec..]
  {
    hide Read, Tidy, RenameNames, RenameLines, Cat;
    var r := Read(hash, doc);
    var s := r.spec;
    if r.readName == r.newName {
      assert doc == doc[..s] + doc[s..];
    } else {
      TidyRename(doc, s, 0, r.newName);
      assert doc[0..s] == doc[..s];
      CatAtHeader(RenameLines(doc[..s], r.newName), doc[s..]);
    }
  }

  lemma CatAtHeader(head: seq<string>, body: seq<string>)
    requires body != []
    ensures Cat(head + [[]], body) == head + body
  {
    assert [] + body[0] == body[0];
    assert body == [body[0]] + body[1..];
  }

  lemma HeadAlike(ls: seq<string>, name: string)
    requires SingleToken(name)
    ensures AllAlike(ls, RenameLines(ls, name))
  {
    forall i | 0 <= i < |ls|
      ensures Alike(ls[i], RenameLines(ls, name)[i])
    {
      RenameLinesAt(ls, name, i);
      RenameLineAlike(ls[i], name);
    }
  }

  lemma ReviseAlike(hash: Hash, doc: seq<string>)
    requires HexDigest(hash)
    requires var r := Read(hash, doc); r.Revision? ==> Tidy(doc, r.spec)
    ensures AllAlike(doc, Revise(hash, doc))
  {
    hide Read, Tidy, Alike, AllAlike, RenameLines, HexDigest;
    var r := Read(hash, doc);
    if r.Revision? {
      var head, body := doc[..r.spec], doc[r.spec..];
      ReviseTidy(hash, doc);
      ReadNames(hash, doc);
      HeadAlike(head, r.newName);
      SelfAlike(head);
      AlikeJoined(head, if r.readName == r.newName then head else RenameLines(head, r.newName), body);
      assert head + body == doc;
    } else {
      OtherStays(hash, doc);
      SelfAlike(doc);
    }
  }

  lemma SelfAlike(ls: seq<string>)
    ensures AllAlike(ls, ls)
  {
  }

  lemma AlikeJoined(a: seq<string>, b: seq<string>, c: seq<string>)
    requires AllAlike(a, b)
    ensures AllAlike(a + c, b + c)
  {
    hide NameLike, HasPrefix;
  }

  lemma MapSlice(m: map<string, string>, ls: seq<string>, s: nat)
    requires s <= |ls|
    ensures MapLines(m, ls)[..s] == MapLines(m, ls[..s]) && MapLines(m, ls)[s..] == MapLines(m, ls[s..])
  {
  }

  function MapName(m: map<string, string>, v: string): string {
    if v in m then m[v] else v
  }

  /** Line `j` is the first metadata name of the document. */
  predicate FirstMeta(doc: seq<string>, j: nat) {
    j < |doc| && IsMetaName(doc[j]) && forall k :: 0 <= k < j ==> !IsMetaName(doc[k])
  }

  /** The reference pattern, too, reads the name of the document off its first metadata name. */
  predicate SeenAsRef(doc: seq<string>, s: nat)
    requires s <= |doc|
  {
    exists j :: 0 <= j < s && FirstMeta(doc, j) && ParseRef(doc[j]).Ref? && ParseRef(doc[j]).value == MetaName(doc[j])
  }

  /** The name that a template carries after the patch: its new name, unless that is a stem itself
      and the references to it are rewritten, the template's own name included. */
  function Carried(m: map<string, string>, doc: seq<string>, r: Revision): string
    requires r.Revision? && r.spec <= |doc|
  {
    if r.readName != r.newName || SeenAsRef(doc, r.spec) then MapName(m, r.newName) else r.newName
  }

  /** A metadata name after a substitution. */
  lemma MetaMapped(m: map<string, string>, l: string)
    requires TokenMap(m) && IsMetaName(l)
    ensures var v, out := MetaName(l), MapRef(m, l);
      IsMetaName(out) && MetaName(out) == if ParseRef(l).Ref? && ParseRef(l).value == v then MapName(m, v) else v
  {
    hide IsMetaName, ParseRef;
    MetaRef(l);
    var r := ParseRef(l);
    if r.Ref? && r.value in m {
      TokenMapIsSolid(m);
      MapRefParses(m, l);
      MetaPrefixKept(m, l);
      MetaStarts(l);
      MetaRef(MapRef(m, l));
    }
  }

  lemma MetaStarts(l: string)
    ensures IsMetaName(l) ==> HasPrefix(l, META_NAME)
  {
  }

  /** The name line after the rename and the substitution. */
  lemma CarriedLine(hash: Hash, m: map<string, string>, doc: seq<string>, r: Revision, j: nat, l: string)
    requires HexDigest(hash) && TokenMap(m) && r == Read(hash, doc)
    requires r.Revision? && Tidy(doc, r.spec) && j < r.spec && FirstMeta(doc, j) && MetaName(doc[j]) == r.readName
    requires j < |Revise(hash, doc)| && l == Revise(hash, doc)[j]
    ensures IsMetaName(MapRef(m, l)) && MetaName(MapRef(m, l)) == Carried(m, doc, r)
  {
    hide IsMetaName, ParseRef, Read, MapRef, Tidy, Revise, TokenMap, HexDigest, RenameLines, MapName, Suffixed, StemOf;
    ReviseTidy(hash, doc);
    ReadNames(hash, doc);
    if r.readName != r.newName {
      RenameLinesAt(doc[..r.spec], r.newName, j);
      NewLineIsMeta(r.newName);
      NewLineParses(r.newName);
      MetaMapped(m, META_NAME + " " + r.newName);
    } else {
      MetaMapped(m, doc[j]);
      SeenAt(doc, r.spec, j);
    }
  }

  lemma SeenAt(doc: seq<string>, s: nat, j: nat)
    requires j < s <= |doc| && FirstMeta(doc, j)
    ensures SeenAsRef(doc, s) <==> ParseRef(doc[j]).Ref? && ParseRef(doc[j]).value == MetaName(doc[j])
  {
    hide IsMetaName, ParseRef;
  }

  lemma NoMetaBefore(hash: Hash, m: map<string, string>, doc: seq<string>, j: nat, k: nat)
    requires HexDigest(hash) && TokenMap(m)
    requires var r := Read(hash, doc); r.Revision? && Tidy(doc, r.spec) && k < j < r.spec && FirstMeta(doc, j)
    ensures |Revise(hash, doc)| == |doc| && !IsMetaName(MapRef(m, Revise(hash, doc)[k]))
  {
    hide IsMetaName, Read, MapRef, Tidy;
    var r := Read(hash, doc);
    ReviseTidy(hash, doc);
    if r.readName != r.newName {
      RenameLinesAt(doc[..r.spec], r.newName, k);
    }
    NotMetaKept(m, doc[k]);
  }

  /** Where the name of a template is read. */
  lemma NameLine(hash: Hash, doc: seq<string>) returns (j: nat)
    requires var r := Read(hash, doc); r.Revision? && Tidy(doc, r.spec)
    ensures j < Read(hash, doc).spec && FirstMeta(doc, j) && MetaName(doc[j]) == Read(hash, doc).readName
  {
    j := TidyFirstAt(doc, Read(hash, doc).spec, 0);
  }

  lemma OutAlike(hash: Hash, m: map<string, string>, doc: seq<string>)
    requires HexDigest(hash) && TokenMap(m)
    requires var r := Read(hash, doc); r.Revision? ==> Tidy(doc, r.spec)
    ensures AllAlike(doc, MapLines(m, Revise(hash, doc)))
  {
    hide Alike, Read, Revise;
    ReviseAlike(hash, doc);
    MapLinesAlike(m, Revise(hash, doc));
    AlikeTrans(doc, Revise(hash, doc), MapLines(m, Revise(hash, doc)));
  }

  /** Reading a patched document: the name it carries, and the hash of the body as it now is. */
  lemma Reread(hash: Hash, m: map<string, string>, doc: seq<string>, out: seq<string>)
    requires HexDigest(hash) && TokenMap(m)
    requires var r := Read(hash, doc); r.Revision? && Tidy(doc, r.spec)
    requires out == MapLines(m, Revise(hash, doc))
    ensures var r := Read(hash, doc);
      var c := Carried(m, doc, r);
      && |out| == |doc|
      && out[r.spec..] == MapLines(m, doc[r.spec..])
      && Read(hash, out) == Revision(StemOf(c), c, WithSuffix(StemOf(c), hash(out[r.spec..])), r.spec)
      && Tidy(out, r.spec)
  {
    hide IsMetaName, Tidy, Revise, IsTemplate, MapRef, Carried;
    var r := Read(hash, doc);
    var s := r.spec;
    OutAlike(hash, m, doc);
    TemplateAlike(doc, out);
    SpecLineAlike(doc, out, 0);
    TidyAlike(doc, out, s);
    var j := NameLine(hash, doc);
    CarriedLine(hash, m, doc, r, j, Revise(hash, doc)[j]);
    forall k | 0 <= k < j ensures !IsMetaName(out[k]) {
      NoMetaBefore(hash, m, doc, j, k);
    }
    TidyFirst(out, s, 0, j);
    BodyAfter(hash, m, doc, out);
  }

  lemma BodyAfter(hash: Hash, m: map<string, string>, doc: seq<string>, out: seq<string>)
    requires HexDigest(hash)
    requires var r := Read(hash, doc); r.Revision? && Tidy(doc, r.spec)
    requires out == MapLines(m, Revise(hash, doc))
    ensures var s := Read(hash, doc).spec; |out| == |doc| && out[s..] == MapLines(m, doc[s..])
  {
    ReviseTidy(hash, doc);
    var s := Read(hash, doc).spec;
    MapSlice(m, Revise(hash, doc), s);
    assert Revise(hash, doc)[s..] == doc[s..];
  }

  // ---------------------------------------------------------------- documents the patch copies

  lemma ChangedToken(m: map<string, string>, l: string)
    requires TokenMap(m) && MapRef(m, l) != l
    ensures SingleToken(Trim(Regex, l)) <==> SingleToken(Trim(Regex, MapRef(m, l)))
  {
    var l' := MapRef(m, l);
    TokenMapIsSolid(m);
    MapRefParses(m, l);
    RefLineTrim(l);
    RefLineTrim(l');
    SamePadding(m, l);
    var p := SplitPadding(AfterName(l));
    TokenGlued(p.lead, p.value);
    TokenGlued(p.lead, m[p.value]);
  }

  lemma SamePadding(m: map<string, string>, l: string)
    requires TokenMap(m) && ParseRef(l).Ref? && ParseRef(l).value in m
    ensures ParseRef(MapRef(m, l)).Ref?
    ensures SplitPadding(AfterName(MapRef(m, l))) == SplitPadding(AfterName(l)).(value := m[ParseRef(l).value])
  {
    TokenMapIsSolid(m);
    MapRefParses(m, l);
    var n := Lead(Tab, l);
    var p, p' := SplitPadding(AfterName(l)), SplitPadding(AfterName(MapRef(m, l)));
    assert ParseRef(l).pre == l[..n] + NAME + p.lead;
    assert ParseRef(MapRef(m, l)).pre == MapRef(m, l)[..n] + NAME + p'.lead;
    SameTail(l[..n] + NAME, p.lead, MapRef(m, l)[..n] + NAME, p'.lead);
  }

  lemma SameTail(a: string, x: string, b: string, y: string)
    requires |a| == |b| && a + x == b + y
    ensures x == y
  {
    assert x == (a + x)[|a|..] && y == (b + y)[|b|..];
  }

  lemma TokenGlued(lead: string, v: string)
    requires AllWhite(Regex, lead) && SingleToken(v)
    ensures SingleToken(NAME + lead + v) <==> lead == []
  {
    var t := NAME + lead + v;
    if lead != [] {
      assert t[|NAME|] == lead[0];
    } else {
      assert t == NAME + v;
      forall i | 0 <= i < |t|
        ensures !White(Regex, t[i])
      {
        if i >= |NAME| {
          assert t[i] == v[i - |NAME|];
        } else {
          assert t[i] == NAME[i];
        }
      }
    }
  }

  lemma MissKept(m: map<string, string>, ls: seq<string>, i: nat)
    requires TokenMap(m) && i < |ls| && NameAt(ls, i).Miss?
    ensures NameAt(MapLines(m, ls), i).Miss?
  {
    var out := MapLines(m, ls);
    var l := ls[i];
    MetaPrefixKept(m, l);
    MapLinesAlike(m, ls);
    NextNonBlankAlike(ls, out, i + 1);
    if HasPrefix(l, META_NAME) {
      MetaRef(l);
      assert out[i] == l;
      var j := NextNonBlank(ls, i + 1);
      if Blank(l[|META_NAME|..]) && j < |ls| && out[j] != ls[j] {
        ChangedToken(m, ls[j]);
      }
    }
  }

  lemma {:induction false} FirstMissKept(m: map<string, string>, ls: seq<string>, i: nat)
    requires TokenMap(m) && i <= |ls| && FirstName(ls, i).Miss?
    ensures FirstName(MapLines(m, ls), i).Miss?
    decreases |ls| - i
  {
    if i < |ls| {
      MissKept(m, ls, i);
      FirstMissKept(m, ls, i + 1);
    }
  }

  lemma EmptyLineKept(m: map<string, string>)
    ensures MapLines(m, [[]]) == [[]]
  {
  }

  lemma OtherReread(hash: Hash, m: map<string, string>, doc: seq<string>)
    requires TokenMap(m) && Read(hash, doc).Other?
    ensures Read(hash, MapLines(m, doc)).Other?
  {
    var out := MapLines(m, doc);
    MapLinesAlike(m, doc);
    TemplateAlike(doc, out);
    SpecLineAlike(doc, out, 0);
    var s := SpecLine(doc, 0);
    if IsTemplate(doc) && s < |doc| {
      FirstMissKept(m, Meta(doc, s), 0);
      MapCat(m, doc[..s], [[]]);
      EmptyLineKept(m);
      MapSlice(m, doc, s);
      assert Meta(out, s) == MapLines(m, Meta(doc, s));
    }
  }

  // ---------------------------------------------------------------- running the patch twice

  /** A document the patch copies, or a template with tidy metadata whose stem is not empty. */
  ghost predicate Regular(hash: Hash, doc: seq<string>) {
    var r := Read(hash, doc);
    r.Revision? ==> Tidy(doc, r.spec) && r.stem != []
  }

  ghost predicate AllRegular(hash: Hash, docs: seq<seq<string>>) {
    forall k :: 0 <= k < |docs| ==> Regular(hash, docs[k])
  }

  /** Every new name is its stem with a suffix. */
  ghost predicate RevisionMap(m: map<string, string>) {
    TokenMap(m) && forall s :: s in m ==> Suffixed(m[s]) && StemOf(m[s]) == s && |m[s]| == |s| + 10
  }

  lemma {:induction false} EntriesRevisionMap(revs: seq<Revision>)
    requires forall k :: 0 <= k < |revs| && revs[k].Revision? ==>
      && SingleToken(revs[k].stem) && SingleToken(revs[k].newName)
      && Suffixed(revs[k].newName) && StemOf(revs[k].newName) == revs[k].stem
        && |revs[k].newName| == |revs[k].stem| + 10
    ensures RevisionMap(Entries(revs))
  {
    hide SingleToken, Suffixed, StemOf;
    if revs != [] {
      EntriesRevisionMap(revs[..|revs| - 1]);
    }
  }

  lemma StemIsToken(hash: Hash, doc: seq<string>)
    requires HexDigest(hash) && Regular(hash, doc)
    ensures var r := Read(hash, doc); r.Revision? ==> SingleToken(r.stem)
  {
    var r := Read(hash, doc);
    if r.Revision? {
      ReadNames(hash, doc);
      assert forall i :: 0 <= i < |r.stem| ==> r.stem[i] == r.readName[i];
    }
  }

  lemma RefMapIsRevisionMap(hash: Hash, docs: seq<seq<string>>)
    requires HexDigest(hash) && AllRegular(hash, docs)
    ensures RevisionMap(RefMap(hash, docs))
  {
    var revs := ReadAll(hash, docs);
    forall k | 0 <= k < |revs| && revs[k].Revision?
      ensures SingleToken(revs[k].stem) && SingleToken(revs[k].newName) && Suffixed(revs[k].newName)
      ensures StemOf(revs[k].newName) == revs[k].stem && |revs[k].newName| == |revs[k].stem| + 10
    {
      AllAt(hash, docs, k);
      assert Regular(hash, docs[k]);
      ReadNames(hash, docs[k]);
      StemIsToken(hash, docs[k]);
    }
    EntriesRevisionMap(revs);
  }

  lemma PatchDocAt(hash: Hash, docs: seq<seq<string>>, k: nat)
    requires k < |docs|
    ensures PatchDocs(hash, docs)[k] == MapLines(RefMap(hash, docs), Revise(hash, docs[k]))
  {
    AllAt(hash, docs, k);
  }

  /** The name that document `k` carries after the patch. */
  ghost function CarriedBy(hash: Hash, docs: seq<seq<string>>, k: nat): string
    requires k < |docs| && Read(hash, docs[k]).Revision?
  {
    Carried(RefMap(hash, docs), docs[k], Read(hash, docs[k]))
  }

  /** What the second run reads off document `k`. */
  lemma SecondRead(hash: Hash, docs: seq<seq<string>>, k: nat)
    requires HexDigest(hash) && AllRegular(hash, docs) && k < |docs|
    ensures var r, out := Read(hash, docs[k]), PatchDocs(hash, docs)[k];
      if r.Other? then Read(hash, out).Other?
      else
        var c := CarriedBy(hash, docs, k);
        && |out| == |docs[k]|
        && out[r.spec..] == MapLines(RefMap(hash, docs), docs[k][r.spec..])
        && Read(hash, out) == Revision(StemOf(c), c, WithSuffix(StemOf(c), hash(out[r.spec..])), r.spec)
        && Tidy(out, r.spec)
  {
    hide Carried, Tidy, StemOf, WithSuffix, RefMap, Revise, PatchDocs;
    assert Regular(hash, docs[k]);
    RefMapIsRevisionMap(hash, docs);
    PatchDocAt(hash, docs, k);
    if Read(hash, docs[k]).Other? {
      assert Revise(hash, docs[k]) == docs[k] by { OtherStays(hash, docs[k]); }
      OtherReread(hash, RefMap(hash, docs), docs[k]);
    } else {
      Reread(hash, RefMap(hash, docs), docs[k], PatchDocs(hash, docs)[k]);
    }
  }

  lemma OtherStays(hash: Hash, doc: seq<string>)
    requires Read(hash, doc).Other?
    ensures Revise(hash, doc) == doc
  {
  }

  lemma SuffixInjective(stem: string, d: string, e: string)
    ensures WithSuffix(stem, d) == WithSuffix(stem, e) <==> d == e
  {
    assert WithSuffix(stem, d)[|stem| + 2..] == d;
    assert WithSuffix(stem, e)[|stem| + 2..] == e;
  }

  // The reference maps of the two runs.

  lemma {:induction false} EntriesKeys(revs: seq<Revision>)
    ensures forall s :: s in Entries(revs) <==> exists k :: 0 <= k < |revs| && revs[k].Revision? && revs[k].stem == s
  {
    if revs != [] {
      var n := |revs| - 1;
      EntriesKeys(revs[..n]);
      forall s ensures s in Entries(revs) <==> exists k :: 0 <= k < |revs| && revs[k].Revision? && revs[k].stem == s {
        if s in Entries(revs[..n]) {
          var k :| 0 <= k < n && revs[..n][k].Revision? && revs[..n][k].stem == s;
          assert revs[k] == revs[..n][k];
        }
        if k :| 0 <= k < |revs| && revs[k].Revision? && revs[k].stem == s {
          assert k < n ==> revs[..n][k] == revs[k];
        }
      }
    }
  }

  /** The stems are the keys of the map. */
  lemma StemsAreKeys(hash: Hash, docs: seq<seq<string>>, s: string)
    ensures s in RefMap(hash, docs) <==>
      exists k :: 0 <= k < |docs| && Read(hash, docs[k]).Revision? && Read(hash, docs[k]).stem == s
  {
    hide Read;
    var revs := ReadAll(hash, docs);
    EntriesKeys(revs);
    forall k | 0 <= k < |docs| ensures revs[k] == Read(hash, docs[k]) {
      AllAt(hash, docs, k);
    }
    if s in RefMap(hash, docs) {
      var k :| 0 <= k < |revs| && revs[k].Revision? && revs[k].stem == s;
      assert Read(hash, docs[k]).stem == s;
    }
    if k :| 0 <= k < |docs| && Read(hash, docs[k]).Revision? && Read(hash, docs[k]).stem == s {
      assert revs[k].stem == s;
    }
  }

  /** The stem of some name that a template carries after the patch. */
  ghost predicate SecondStem(hash: Hash, docs: seq<seq<string>>, s: string) {
    exists k :: 0 <= k < |docs| && Read(hash, docs[k]).Revision? && StemOf(CarriedBy(hash, docs, k)) == s
  }

  lemma SecondKeys(hash: Hash, docs: seq<seq<string>>, s: string)
    requires HexDigest(hash) && AllRegular(hash, docs)
    ensures s in RefMap(hash, PatchDocs(hash, docs)) <==> SecondStem(hash, docs, s)
  {
    hide Read, PatchDocs, CarriedBy, StemOf, RefMap, AllRegular;
    var out := PatchDocs(hash, docs);
    StemsAreKeys(hash, out, s);
    forall k | 0 <= k < |docs|
      ensures Read(hash, out[k]).Revision? <==> Read(hash, docs[k]).Revision?
      ensures Read(hash, docs[k]).Revision? ==> Read(hash, out[k]).stem == StemOf(CarriedBy(hash, docs, k))
    {
      SecondRead(hash, docs, k);
    }
  }

  /** No stem is new. */
  lemma SecondStemIsKey(hash: Hash, docs: seq<seq<string>>, s: string)
    requires HexDigest(hash) && AllRegular(hash, docs)
    ensures SecondStem(hash, docs, s) ==> s in RefMap(hash, docs)
  {
    hide Read, SeenAsRef, RefMap, StemOf;
    if SecondStem(hash, docs, s) {
      var k :| 0 <= k < |docs| && Read(hash, docs[k]).Revision? && StemOf(CarriedBy(hash, docs, k)) == s;
      ReadNames(hash, docs[k]);
      RefMapIsRevisionMap(hash, docs);
      StemsAreKeys(hash, docs, s);
    }
  }

  /** A carried name ends in a suffix, and its stem is not empty. */
  lemma CarriedName(hash: Hash, docs: seq<seq<string>>, k: nat)
    requires HexDigest(hash) && AllRegular(hash, docs) && k < |docs| && Read(hash, docs[k]).Revision?
    ensures var c := CarriedBy(hash, docs, k); |c| == |StemOf(c)| + 10 && StemOf(c) != []
  {
    hide Read, SeenAsRef, RefMap, StemOf;
    assert Regular(hash, docs[k]);
    ReadNames(hash, docs[k]);
    RefMapIsRevisionMap(hash, docs);
  }

  lemma SecondRegular(hash: Hash, docs: seq<seq<string>>)
    requires HexDigest(hash) && AllRegular(hash, docs)
    ensures AllRegular(hash, PatchDocs(hash, docs))
  {
    hide Read, PatchDocs, CarriedBy, StemOf;
    forall k | 0 <= k < |docs|
      ensures Regular(hash, PatchDocs(hash, docs)[k])
    {
      SecondRead(hash, docs, k);
      if Read(hash, docs[k]).Revision? {
        CarriedName(hash, docs, k);
      }
    }
  }

  // The exact condition.

  /** The name that template `k` carries fits its body as it is after the patch. */
  ghost predicate NameSettles(hash: Hash, docs: seq<seq<string>>, k: nat)
    requires k < |docs|
  {
    var r := Read(hash, docs[k]);
    r.Revision? ==>
      var c := CarriedBy(hash, docs, k);
      WithSuffix(StemOf(c), hash(MapLines(RefMap(hash, docs), docs[k][r.spec..]))) == c
  }

  /** No reference of the renamed documents is rewritten to a name that is a stem afterwards. */
  ghost predicate NoChain(hash: Hash, docs: seq<seq<string>>) {
    forall k, i :: 0 <= k < |docs| && 0 <= i < |Revise(hash, docs[k])| ==>
      !Chained(hash, docs, Revise(hash, docs[k])[i])
  }

  ghost predicate Chained(hash: Hash, docs: seq<seq<string>>, l: string) {
    var v, m := ParseRef(l), RefMap(hash, docs);
    v.Ref? && v.value in m && SecondStem(hash, docs, m[v.value])
  }

  /** What the second substitution does to a line of the first. */
  lemma SecondSubstitution(hash: Hash, docs: seq<seq<string>>, l: string)
    requires HexDigest(hash) && AllRegular(hash, docs)
    ensures var m, m' := RefMap(hash, docs), RefMap(hash, PatchDocs(hash, docs));
      MapRef(m', MapRef(m, l)) == MapRef(m, l) <==> !Chained(hash, docs, l)
  {
    hide PatchDocs, RefMap, ParseRef, SecondStem, RevisionMap, MapRef, AllRegular;
    var m, m' := RefMap(hash, docs), RefMap(hash, PatchDocs(hash, docs));
    RefMapIsRevisionMap(hash, docs);
    SecondRegular(hash, docs);
    RefMapIsRevisionMap(hash, PatchDocs(hash, docs));
    TwoMaps(m, m', l);
    if ParseRef(l).Ref? {
      var v := MapName(m, ParseRef(l).value);
      SecondKeys(hash, docs, v);
      SecondStemIsKey(hash, docs, v);
    }
  }

  lemma TwoMaps(m: map<string, string>, m': map<string, string>, l: string)
    requires RevisionMap(m) && RevisionMap(m')
    ensures MapRef(m', MapRef(m, l)) == MapRef(m, l)
      <==> !(ParseRef(l).Ref? && MapName(m, ParseRef(l).value) in m')
  {
    hide ParseRef;
    TokenMapIsSolid(m);
    TokenMapIsSolid(m');
    MapRefParses(m, l);
    MapRefParses(m', MapRef(m, l));
  }

  lemma SettledStays(hash: Hash, docs: seq<seq<string>>, k: nat)
    requires HexDigest(hash) && AllRegular(hash, docs) && k < |docs| && NameSettles(hash, docs, k)
    ensures Revise(hash, PatchDocs(hash, docs)[k]) == PatchDocs(hash, docs)[k]
  {
    hide Read, PatchDocs, RefMap, CarriedBy, StemOf, WithSuffix;
    SecondRead(hash, docs, k);
  }

  /** A template whose name does not fit its body is renamed by the second run. */
  lemma SecondRunMoves(hash: Hash, docs: seq<seq<string>>, k: nat)
    requires HexDigest(hash) && AllRegular(hash, docs) && k < |docs| && !NameSettles(hash, docs, k)
    ensures PatchDocs(hash, PatchDocs(hash, docs))[k] != PatchDocs(hash, docs)[k]
  {
    hide Read, PatchDocs, RefMap, SeenAsRef, StemOf, WithSuffix;
    var out := PatchDocs(hash, docs);
    SecondRead(hash, docs, k);
    SecondRegular(hash, docs);
    SecondRead(hash, out, k);
    CarriedName(hash, docs, k);
    RefMapIsRevisionMap(hash, out);
    ReadNames(hash, out[k]);
  }

  /** Patching the documents twice is patching them once exactly when every template carries the
      name that fits its body, and no reference was rewritten to a stem. */
  lemma DocsIdempotent(hash: Hash, docs: seq<seq<string>>)
    requires HexDigest(hash) && AllRegular(hash, docs)
    ensures PatchDocs(hash, PatchDocs(hash, docs)) == PatchDocs(hash, docs)
      <==> (forall k :: 0 <= k < |docs| ==> NameSettles(hash, docs, k)) && NoChain(hash, docs)
  {
    hide PatchDocs, RefMap, NameSettles, Revise, Chained, MapRef, AllRegular;
    var out := PatchDocs(hash, docs);
    if k :| 0 <= k < |docs| && !NameSettles(hash, docs, k) {
      SecondRunMoves(hash, docs, k);
    } else {
      forall k | 0 <= k < |docs|
        ensures PatchDocs(hash, out)[k] == out[k]
          <==> forall i :: 0 <= i < |Revise(hash, docs[k])| ==> !Chained(hash, docs, Revise(hash, docs[k])[i])
      {
        DocSettles(hash, docs, k);
      }
      if NoChain(hash, docs) {
        assert PatchDocs(hash, out) == out;
      }
    }
  }

  lemma DocSettles(hash: Hash, docs: seq<seq<string>>, k: nat)
    requires HexDigest(hash) && AllRegular(hash, docs) && k < |docs| && NameSettles(hash, docs, k)
    ensures PatchDocs(hash, PatchDocs(hash, docs))[k] == PatchDocs(hash, docs)[k]
      <==> forall i :: 0 <= i < |Revise(hash, docs[k])| ==> !Chained(hash, docs, Revise(hash, docs[k])[i])
  {
    hide PatchDocs, RefMap, NameSettles, Revise, Chained, MapRef, AllRegular;
    var out := PatchDocs(hash, docs);
    var m, m', revised := RefMap(hash, docs), RefMap(hash, out), Revise(hash, docs[k]);
    SettledStays(hash, docs, k);
    PatchDocAt(hash, docs, k);
    PatchDocAt(hash, out, k);
    var twice := PatchDocs(hash, out)[k];
    forall i | 0 <= i < |revised| ensures twice[i] == out[k][i] <==> !Chained(hash, docs, revised[i]) {
      SecondSubstitution(hash, docs, revised[i]);
    }
    if forall i :: 0 <= i < |revised| ==> !Chained(hash, docs, revised[i]) {
      assert twice == out[k];
    }
  }

  // ---------------------------------------------------------------- when no new name is a stem

  /** Rewriting the references inside the spec body of document `k` does not change its hash. */
  ghost predicate BodyKeepsHash(hash: Hash, docs: seq<seq<string>>, k: nat)
    requires k < |docs|
  {
    var r := Read(hash, docs[k]);
    r.Revision? ==>
      hash(MapLines(RefMap(hash, docs), docs[k][r.spec..])) == hash(docs[k][r.spec..])
  }

  /** No template gets a name that is the stem of a template. */
  ghost predicate Unchained(hash: Hash, docs: seq<seq<string>>) {
    forall k :: 0 <= k < |docs| && Read(hash, docs[k]).Revision? ==> Read(hash, docs[k]).newName !in RefMap(hash, docs)
  }

  lemma UnchainedSettles(hash: Hash, docs: seq<seq<string>>, k: nat)
    requires HexDigest(hash) && Unchained(hash, docs) && k < |docs|
    ensures NameSettles(hash, docs, k) <==> BodyKeepsHash(hash, docs, k)
  {
    hide RefMap, StemOf, SeenAsRef, Read;
    var r := Read(hash, docs[k]);
    if r.Revision? {
      ReadNames(hash, docs[k]);
      SuffixInjective(r.stem, hash(MapLines(RefMap(hash, docs), docs[k][r.spec..])), hash(docs[k][r.spec..]));
    }
  }

  lemma {:induction false} EntriesValues(revs: seq<Revision>, s: string)
    requires s in Entries(revs)
    ensures exists k :: 0 <= k < |revs| && revs[k].Revision? && revs[k].stem == s && revs[k].newName == Entries(revs)[s]
  {
    var n := |revs| - 1;
    if !(revs[n].Revision? && revs[n].stem == s) {
      EntriesValues(revs[..n], s);
      var k :| 0 <= k < n && revs[..n][k].Revision? && revs[..n][k].stem == s
        && revs[..n][k].newName == Entries(revs[..n])[s];
      assert revs[k] == revs[..n][k];
    }
  }

  lemma UnchainedHasNoChain(hash: Hash, docs: seq<seq<string>>)
    requires HexDigest(hash) && AllRegular(hash, docs) && Unchained(hash, docs)
    ensures NoChain(hash, docs)
  {
    hide RefMap, Revise, ParseRef, SecondStem, AllRegular;
    var m := RefMap(hash, docs);
    forall k, i | 0 <= k < |docs| && 0 <= i < |Revise(hash, docs[k])|
      ensures !Chained(hash, docs, Revise(hash, docs[k])[i])
    {
      var v := ParseRef(Revise(hash, docs[k])[i]);
      if v.Ref? && v.value in m {
        NewNameIsNoKey(hash, docs, v.value);
        SecondStemIsKey(hash, docs, m[v.value]);
      }
    }
  }

  lemma NewNameIsNoKey(hash: Hash, docs: seq<seq<string>>, s: string)
    requires Unchained(hash, docs) && s in RefMap(hash, docs)
    ensures RefMap(hash, docs)[s] !in RefMap(hash, docs)
  {
    hide Read;
    var revs := ReadAll(hash, docs);
    EntriesValues(revs, s);
    var k :| 0 <= k < |revs| && revs[k].Revision? && revs[k].stem == s && revs[k].newName == Entries(revs)[s];
    AllAt(hash, docs, k);
  }

  /** In the usual case, patching twice is patching once exactly when no template body changes its
      hash by the references inside it being rewritten. */
  lemma UnchainedIdempotent(hash: Hash, docs: seq<seq<string>>)
    requires HexDigest(hash) && AllRegular(hash, docs) && Unchained(hash, docs)
    ensures PatchDocs(hash, PatchDocs(hash, docs)) == PatchDocs(hash, docs)
      <==> forall k :: 0 <= k < |docs| ==> BodyKeepsHash(hash, docs, k)
  {
    hide PatchDocs, NameSettles, BodyKeepsHash, NoChain, Unchained, AllRegular;
    DocsIdempotent(hash, docs);
    UnchainedHasNoChain(hash, docs);
    forall k | 0 <= k < |docs| ensures NameSettles(hash, docs, k) <==> BodyKeepsHash(hash, docs, k) {
      UnchainedSettles(hash, docs, k);
    }
  }
}
