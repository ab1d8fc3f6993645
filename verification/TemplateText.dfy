/** The template-revision patch on whole texts: splitting the output gives its documents back, so
    the results about documents are results about bytes. */
module TemplateText {
  import opened Text
  import opened TemplateRevision
  import opened TemplateLines
  import opened TemplateTheorems

  // ---------------------------------------------------------------- documents of a text

  /** A trimmed document with its final newline. */
  ghost predicate Normal(doc: seq<string>) {
    |doc| >= 2 && doc[|doc| - 1] == [] && Tight(doc[..|doc| - 1])
  }

  ghost predicate Closed(docs: seq<seq<string>>) {
    forall k :: 0 <= k < |docs| ==> Normal(docs[k]) && Separable(docs[k])
  }

  /** A last line `---` below other lines: what is left of a text that stops right at a separator. */
  ghost predicate EndsInMarker(doc: seq<string>) {
    |doc| >= 3 && doc[|doc| - 2] == SEPARATOR
  }

  ghost predicate NoMarkerEnds(docs: seq<seq<string>>) {
    forall k :: 0 <= k < |docs| ==> !EndsInMarker(docs[k])
  }

  lemma {:induction false} DropHeadInterior(p: seq<string>)
    requires Interior(p)
    ensures Interior(DropHead(p))
  {
    if p != [] && TrimLeft(Unicode, p[0]) == [] {
      DropHeadInterior(p[1..]);
    }
  }

  lemma {:induction false} DropTailInterior(p: seq<string>)
    requires Interior(p)
    ensures Interior(DropTail(p))
  {
    if p != [] && TrimRight(Unicode, p[|p| - 1]) == [] {
      DropTailInterior(p[..|p| - 1]);
    }
  }

  lemma TrimmedNormal(p: seq<string>)
    requires Interior(p) && TrimText(p) != []
    ensures Normal(TrimText(p) + [[]]) && Interior(TrimText(p))
  {
    TrimTextTight(p);
    DropHeadInterior(p);
    DropTailInterior(DropHead(p));
    var t := TrimText(p);
    assert (t + [[]])[..|t|] == t;
  }

  ghost predicate Parsed(doc: seq<string>) {
    Normal(doc) && Interior(doc[..|doc| - 1])
  }

  lemma {:induction false} AllParsed(parts: seq<seq<string>>)
    requires forall k :: 0 <= k < |parts| ==> Interior(parts[k])
    ensures forall k :: 0 <= k < |Parse(parts)| ==> Parsed(Parse(parts)[k])
  {
    if parts != [] {
      AllParsed(parts[..|parts| - 1]);
      var p := parts[|parts| - 1];
      if TrimText(p) != [] {
        TrimmedNormal(p);
        assert (TrimText(p) + [[]])[..|TrimText(p)|] == TrimText(p);
        assert Parsed(TrimText(p) + [[]]);
      }
    }
  }

  lemma ParsedSeparable(doc: seq<string>)
    requires Parsed(doc) && !EndsInMarker(doc)
    ensures Separable(doc)
  {
    var t := doc[..|doc| - 1];
    forall i | 1 <= i < |doc|
      ensures doc[i] != SEPARATOR
    {
      if i < |doc| - 2 {
        assert t[i] == doc[i];
      }
    }
  }

  lemma ParsedClosed(text: seq<string>)
    requires text != []
    requires NoMarkerEnds(Parse(SplitDocs(text)))
    ensures Closed(Parse(SplitDocs(text)))
  {
    SplitYieldsForm(text);
    AllParsed(SplitDocs(text));
    var docs := Parse(SplitDocs(text));
    forall k | 0 <= k < |docs|
      ensures Normal(docs[k]) && Separable(docs[k])
    {
      assert Parsed(docs[k]) && !EndsInMarker(docs[k]);
      ParsedSeparable(docs[k]);
    }
  }

  function Kept(part: seq<string>): seq<seq<string>> {
    if TrimText(part) == [] then [] else [TrimText(part) + [[]]]
  }

  lemma ParseLast(parts: seq<seq<string>>)
    requires parts != []
    ensures Parse(parts) == Parse(parts[..|parts| - 1]) + Kept(parts[|parts| - 1])
  {
    hide TrimText;
  }

  lemma KeptNormal(doc: seq<string>)
    requires Normal(doc)
    ensures Kept(doc) == [doc]
  {
    TrimTextOfTight(doc[..|doc| - 1]);
    assert doc[..|doc| - 1] + [[]] == doc;
  }

  lemma {:induction false} ParseOfNormal(docs: seq<seq<string>>)
    requires forall k :: 0 <= k < |docs| ==> Normal(docs[k])
    ensures Parse(docs) == docs
  {
    hide Kept, Normal;
    if docs != [] {
      var n := |docs| - 1;
      ParseOfNormal(docs[..n]);
      ParseLast(docs);
      KeptNormal(docs[n]);
      assert docs[..n] + [docs[n]] == docs;
    }
  }

  lemma ReparseClosed(docs: seq<seq<string>>)
    requires Closed(docs)
    ensures JoinOrEmpty(docs) != [] && Parse(SplitDocs(JoinOrEmpty(docs))) == docs
  {
    if docs == [] {
      assert SplitDocs([[]]) == [[[]]];
      assert TrimText([[]]) == [];
      assert Parse([[[]]]) == Parse([[[]]][..0]) == [];
    } else {
      assert Normal(docs[|docs| - 1]) && Separable(docs[|docs| - 1]);
      SplitOfJoin(docs);
      ParseOfNormal(docs);
    }
  }

  // ---------------------------------------------------------------- the output is closed again

  lemma FirstCharKept(m: map<string, string>, l: string)
    requires l != [] && !White(Unicode, l[0])
    ensures MapRef(m, l) != [] && MapRef(m, l)[0] == l[0]
  {
    var r := ParseRef(l);
    if r.Ref? && r.value in m {
      RefParts(l);
      PreHasName(l);
      assert l[0] == r.pre[0];
    }
  }

  lemma SuffixedEnd(v: string)
    requires Suffixed(v)
    ensures !White(Unicode, v[|v| - 1])
  {
    assert IsHex(v[|v| - 8..][7]);
  }

  lemma LastOf(pre: string, v: string, post: string)
    requires v != []
    ensures var l := pre + v + post;
      l[|l| - 1] == if post == [] then v[|v| - 1] else post[|post| - 1]
  {
  }

  lemma LastCharKept(m: map<string, string>, l: string)
    requires RevisionMap(m) && l != [] && !White(Unicode, l[|l| - 1])
    ensures var l' := MapRef(m, l); l' != [] && !White(Unicode, l'[|l'| - 1])
  {
    var r := ParseRef(l);
    if r.Ref? && r.value in m {
      RefParts(l);
      assert SingleToken(r.value);
      LastOf(r.pre, r.value, r.post);
      LastOf(r.pre, m[r.value], r.post);
      SuffixedEnd(m[r.value]);
    }
  }

  lemma MarkerAlike(l: string, l': string)
    requires Alike(l, l') && l' == SEPARATOR
    ensures l == SEPARATOR
  {
    FirstCharOfTrim(l');
    PrefixChar(Trim(Regex, l'), NAME, 0);
  }

  lemma SeparableAlike(a: seq<string>, b: seq<string>)
    requires AllAlike(a, b) && Separable(a)
    ensures Separable(b)
  {
    forall i | 1 <= i < |b|
      ensures b[i] != SEPARATOR
    {
      assert Alike(a[i], b[i]);
      if b[i] == SEPARATOR {
        MarkerAlike(a[i], b[i]);
      }
    }
  }

  /** The rename leaves the first line and everything from the spec header on as it is. */
  lemma ReviseEnds(hash: Hash, doc: seq<string>)
    requires HexDigest(hash) && Regular(hash, doc) && Normal(doc)
    ensures var out := Revise(hash, doc);
      |out| == |doc| && out[0] == doc[0] && out[|doc| - 1] == doc[|doc| - 1] && out[|doc| - 2] == doc[|doc| - 2]
  {
    hide Read, Tidy, HexDigest, Revise, RenameLines;
    var r := Read(hash, doc);
    if r.Revision? {
      ReviseTidy(hash, doc);
      if r.spec > 0 && r.readName != r.newName {
        RenameLinesAt(doc[..r.spec], r.newName, 0);
        FirstIsNoMeta(doc);
      }
    } else {
      OtherStays(hash, doc);
    }
  }

  lemma FirstIsNoMeta(doc: seq<string>)
    requires Normal(doc)
    ensures !IsMetaName(doc[0])
  {
    assert doc[..|doc| - 1][0] == doc[0];
    if HasPrefix(doc[0], META_NAME) {
      PrefixChar(doc[0], META_NAME, 0);
    }
  }

  lemma EndsKept(m: map<string, string>, a: seq<string>, b: seq<string>)
    requires RevisionMap(m) && Normal(a) && |b| == |a|
    requires b[0] == a[0] && b[|a| - 2] == a[|a| - 2] && b[|a| - 1] == a[|a| - 1]
    ensures Normal(MapLines(m, b))
  {
    hide MapRef, RevisionMap;
    EmptyLineKept(m);
    assert MapRef(m, []) == MapLines(m, [[]])[0];
    NormalEnds(a);
    FirstCharKept(m, a[0]);
    LastCharKept(m, a[|a| - 2]);
    NormalEnds(MapLines(m, b));
  }

  lemma NormalEnds(a: seq<string>)
    requires |a| >= 2
    ensures Normal(a) <==>
      a[|a| - 1] == [] && a[0] != [] && !White(Unicode, a[0][0])
      && var l := a[|a| - 2]; l != [] && !White(Unicode, l[|l| - 1])
  {
    var t := a[..|a| - 1];
    assert t[0] == a[0] && t[|t| - 1] == a[|a| - 2];
  }

  lemma OutNormal(hash: Hash, m: map<string, string>, doc: seq<string>)
    requires HexDigest(hash) && Regular(hash, doc) && Normal(doc) && RevisionMap(m)
    ensures Normal(MapLines(m, Revise(hash, doc)))
  {
    ReviseEnds(hash, doc);
    EndsKept(m, doc, Revise(hash, doc));
  }

  lemma OutClosed(hash: Hash, docs: seq<seq<string>>)
    requires HexDigest(hash) && AllRegular(hash, docs) && Closed(docs)
    ensures Closed(PatchDocs(hash, docs))
  {
    var m := RefMap(hash, docs);
    RefMapIsRevisionMap(hash, docs);
    var out := PatchDocs(hash, docs);
    forall k | 0 <= k < |docs|
      ensures Normal(out[k]) && Separable(out[k])
    {
      assert Regular(hash, docs[k]);
      PatchDocAt(hash, docs, k);
      OutNormal(hash, m, docs[k]);
      ReviseAlike(hash, docs[k]);
      MapLinesAlike(m, Revise(hash, docs[k]));
      AlikeTrans(docs[k], Revise(hash, docs[k]), out[k]);
      SeparableAlike(docs[k], out[k]);
    }
  }

  // ---------------------------------------------------------------- a text that stops at a separator

  /** Two documents where one ends in a marker: what is above it, and nothing. */
  function ApartOne(doc: seq<string>): (r: seq<seq<string>>)
    ensures r != []
  {
    if |doc| >= 3 && doc[|doc| - 2] == SEPARATOR then [doc[..|doc| - 2], [[]]] else [doc]
  }

  function Apart(docs: seq<seq<string>>): (r: seq<seq<string>>)
    ensures docs != [] ==> r != []
  {
    if docs == [] then [] else ApartOne(docs[0]) + Apart(docs[1..])
  }

  lemma ApartOneForm(doc: seq<string>)
    requires Parsed(doc)
    ensures forall k :: 0 <= k < |ApartOne(doc)| ==> Separable(ApartOne(doc)[k])
    ensures JoinDocs(ApartOne(doc)) == doc
  {
    if EndsInMarker(doc) {
      var above := doc[..|doc| - 2];
      assert forall i :: 1 <= i < |above| ==> above[i] == doc[..|doc| - 1][i];
      assert [above, [[]]][1..] == [[[]]];
      assert doc == above + [SEPARATOR] + [[]];
    } else {
      ParsedSeparable(doc);
    }
  }

  lemma {:induction false} JoinCat(a: seq<seq<string>>, b: seq<seq<string>>)
    requires a != [] && b != []
    ensures JoinDocs(a + b) == JoinDocs(a) + [SEPARATOR] + JoinDocs(b)
  {
    if |a| == 1 {
      assert (a + b)[1..] == b;
    } else {
      JoinCat(a[1..], b);
      assert (a + b)[1..] == a[1..] + b;
    }
  }

  lemma {:induction false} ApartForm(docs: seq<seq<string>>)
    requires docs != [] && forall k :: 0 <= k < |docs| ==> Parsed(docs[k])
    ensures forall k :: 0 <= k < |Apart(docs)| ==> Separable(Apart(docs)[k])
    ensures JoinDocs(Apart(docs)) == JoinDocs(docs)
  {
    hide Parsed, Separable, ApartOne;
    var one, rest := ApartOne(docs[0]), docs[1..];
    ApartOneForm(docs[0]);
    if rest == [] {
      assert Apart(docs) == one;
    } else {
      ApartForm(rest);
      JoinCat(one, Apart(rest));
    }
  }

  lemma SplitApart(docs: seq<seq<string>>)
    requires docs != [] && forall k :: 0 <= k < |docs| ==> Parsed(docs[k])
    ensures JoinDocs(docs) != [] && SplitDocs(JoinDocs(docs)) == Apart(docs)
  {
    hide Parsed, Apart;
    ApartForm(docs);
    SplitOfJoin(Apart(docs));
  }

  /** The lines of the documents, and one separator for each. */
  function Size(docs: seq<seq<string>>): nat {
    if docs == [] then 0 else |docs[0]| + 1 + Size(docs[1..])
  }

  lemma {:induction false} SizeCat(a: seq<seq<string>>, b: seq<seq<string>>)
    ensures Size(a + b) == Size(a) + Size(b)
  {
    if a == [] {
      assert a + b == b;
    } else {
      SizeCat(a[1..], b);
      assert (a + b)[1..] == a[1..] + b;
    }
  }

  lemma {:induction false} JoinSize(docs: seq<seq<string>>)
    requires docs != []
    ensures |JoinDocs(docs)| + 1 == Size(docs)
  {
    if |docs| > 1 {
      JoinSize(docs[1..]);
    }
  }

  lemma {:induction false} ParseCat(a: seq<seq<string>>, b: seq<seq<string>>)
    ensures Parse(a + b) == Parse(a) + Parse(b)
  {
    hide Parse, Kept;
    if b == [] {
      assert a + b == a;
      EmptyParse();
    } else {
      var n := |b| - 1;
      ParseCat(a, b[..n]);
      assert (a + b)[..|a + b| - 1] == a + b[..n] && (a + b)[|a + b| - 1] == b[n];
      ParseLast(a + b);
      ParseLast(b);
    }
  }

  lemma {:induction false} TrimShortens(ls: seq<string>)
    ensures |DropHead(ls)| <= |ls| && |DropTail(ls)| <= |ls|
    decreases |ls|
  {
    if ls != [] {
      TrimShortens(ls[1..]);
      TrimShortens(ls[..|ls| - 1]);
    }
  }

  lemma ParseOne(doc: seq<string>)
    ensures Size(Parse([doc])) <= |doc| + 2
  {
    TrimShortens(doc);
    TrimShortens(DropHead(doc));
    assert [doc][..0] == [];
  }

  lemma ApartShrinks(doc: seq<string>)
    requires Parsed(doc)
    ensures Size(Parse(ApartOne(doc))) <= |doc| + 1
    ensures EndsInMarker(doc) ==> Size(Parse(ApartOne(doc))) < |doc| + 1
  {
    hide Parsed, Parse, Normal;
    if EndsInMarker(doc) {
      var above := doc[..|doc| - 2];
      var nothing: seq<seq<string>> := [[[]]];
      ParseCat([above], nothing);
      assert [above] + nothing == [above, [[]]];
      ParseOne(above);
      SizeCat(Parse([above]), Parse(nothing));
      ParseNothing();
    } else {
      ParsedNormal(doc);
      ParseOfNormal([doc]);
      assert [doc][1..] == [];
    }
  }

  lemma ParseNothing()
    ensures Parse([[[]]]) == []
  {
    assert TrimText([[]]) == [];
    ParseLast([[[]]]);
    var nothing: seq<seq<string>> := [[[]]];
    assert nothing[..0] == [];
  }

  lemma ParsedNormal(doc: seq<string>)
    requires Parsed(doc)
    ensures Normal(doc)
  {}

  lemma {:induction false} ParseShrinks(docs: seq<seq<string>>)
    requires forall k :: 0 <= k < |docs| ==> Parsed(docs[k])
    ensures Size(Parse(Apart(docs))) <= Size(docs)
    ensures !NoMarkerEnds(docs) ==> Size(Parse(Apart(docs))) < Size(docs)
  {
    hide Parsed, ApartOne, EndsInMarker, Parse;
    if docs == [] {
      EmptyParse();
    } else {
      ApartShrinks(docs[0]);
      ParseShrinks(docs[1..]);
      ParseCat(ApartOne(docs[0]), Apart(docs[1..]));
      SizeCat(Parse(ApartOne(docs[0])), Parse(Apart(docs[1..])));
      if !NoMarkerEnds(docs) && !EndsInMarker(docs[0]) {
        var k :| 0 <= k < |docs| && EndsInMarker(docs[k]);
        assert docs[1..][k - 1] == docs[k];
      }
    }
  }

  lemma EmptyParse()
    ensures Parse([]) == []
  {}

  lemma ReviseShortens(hash: Hash, doc: seq<string>)
    ensures |Revise(hash, doc)| <= |doc|
  {
    hide IsTemplate, FirstName, SpecLine, RenameNames;
    var r := Read(hash, doc);
    if r.Revision? && r.readName != r.newName {
      RenameShortens(Meta(doc, r.spec), 0, r.newName);
      RenamedNotEmpty(Meta(doc, r.spec), r.newName);
    }
  }

  lemma RenamedNotEmpty(ls: seq<string>, name: string)
    requires ls != []
    ensures RenameNames(ls, 0, name) != []
  {}

  lemma {:induction false} SizeLess(a: seq<seq<string>>, b: seq<seq<string>>)
    requires |a| == |b| && forall k :: 0 <= k < |a| ==> |a[k]| <= |b[k]|
    ensures Size(a) <= Size(b)
  {
    if a != [] {
      SizeLess(a[1..], b[1..]);
    }
  }

  /** The patch makes no text longer than its trimmed documents are. */
  lemma PatchShortens(hash: Hash, text: seq<string>)
    requires text != []
    ensures var docs := Parse(SplitDocs(text)); |Patch(hash, text)| <= if docs == [] then 1 else Size(docs) - 1
  {
    hide Revise, RefMap;
    var docs := Parse(SplitDocs(text));
    var out := PatchDocs(hash, docs);
    forall k | 0 <= k < |docs| ensures |out[k]| <= |docs[k]| {
      PatchDocAt(hash, docs, k);
      ReviseShortens(hash, docs[k]);
    }
    SizeLess(out, docs);
    if docs != [] {
      JoinSize(out);
    }
  }

  /** A text whose documents end in a marker gets shorter when it is patched. */
  lemma MarkerShrinks(hash: Hash, docs: seq<seq<string>>)
    requires (forall k :: 0 <= k < |docs| ==> Parsed(docs[k])) && !NoMarkerEnds(docs)
    ensures JoinOrEmpty(docs) != [] && |Patch(hash, JoinOrEmpty(docs))| < |JoinOrEmpty(docs)|
  {
    hide Parsed, Patch, Parse, Apart;
    var k :| 0 <= k < |docs| && EndsInMarker(docs[k]);
    SplitApart(docs);
    ParseShrinks(docs);
    JoinSize(docs);
    SizeAbove(docs, k);
    PatchShortens(hash, JoinDocs(docs));
  }

  lemma {:induction false} SizeAbove(docs: seq<seq<string>>, k: nat)
    requires k < |docs|
    ensures Size(docs) > |docs[k]|
  {
    if k > 0 {
      SizeAbove(docs[1..], k - 1);
    }
  }

  // The documents of the output end in a marker where those of the input do.

  lemma InteriorAlike(a: seq<string>, b: seq<string>)
    requires AllAlike(a, b) && a != [] && Interior(a[..|a| - 1])
    ensures Interior(b[..|b| - 1])
  {
    hide Alike;
    var c, d := a[..|a| - 1], b[..|b| - 1];
    forall i | 1 <= i < |d| - 1 ensures d[i] != SEPARATOR {
      assert Alike(a[i], b[i]) && c[i] == a[i];
      if b[i] == SEPARATOR {
        MarkerAlike(a[i], b[i]);
      }
    }
  }

  lemma OutParsed(hash: Hash, docs: seq<seq<string>>, k: nat)
    requires HexDigest(hash) && AllRegular(hash, docs) && k < |docs| && Parsed(docs[k])
    ensures var out := PatchDocs(hash, docs)[k]; Parsed(out) && (EndsInMarker(docs[k]) ==> EndsInMarker(out))
  {
    hide RefMap, Revise, Normal, AllAlike, Interior, MapRef, Tidy;
    var m := RefMap(hash, docs);
    RefMapIsRevisionMap(hash, docs);
    PatchDocAt(hash, docs, k);
    assert Regular(hash, docs[k]);
    OutNormal(hash, m, docs[k]);
    OutAlike(hash, m, docs[k]);
    assert docs[k] != [] by { NormalShape(docs[k]); }
    InteriorAlike(docs[k], PatchDocs(hash, docs)[k]);
    ReviseEnds(hash, docs[k]);
    SeparatorIsNoRef(m);
  }

  lemma NormalShape(doc: seq<string>)
    requires Normal(doc)
    ensures |doc| >= 2
  {}

  // ---------------------------------------------------------------- idempotence, byte for byte

  lemma AllDocsParsed(text: seq<string>)
    requires text != []
    ensures forall k :: 0 <= k < |Parse(SplitDocs(text))| ==> Parsed(Parse(SplitDocs(text))[k])
  {
    hide Parsed;
    SplitYieldsForm(text);
    AllParsed(SplitDocs(text));
  }

  lemma MarkerIsCut(hash: Hash, text: seq<string>)
    requires text != [] && HexDigest(hash)
    requires var docs := Parse(SplitDocs(text)); AllRegular(hash, docs) && !NoMarkerEnds(docs)
    ensures Patch(hash, text) != [] && Patch(hash, Patch(hash, text)) != Patch(hash, text)
  {
    hide Parsed, PatchDocs, AllRegular, EndsInMarker;
    var docs := Parse(SplitDocs(text));
    var out := PatchDocs(hash, docs);
    AllDocsParsed(text);
    forall k | 0 <= k < |docs| ensures Parsed(out[k]) && (EndsInMarker(docs[k]) ==> EndsInMarker(out[k])) {
      OutParsed(hash, docs, k);
    }
    MarkerShrinks(hash, out);
  }

  /** Running the patch on its own output changes no byte, exactly when no document ends in a
      separator without text behind it, every template carries the name that fits its body, and no
      reference was rewritten to a stem. */
  lemma PatchIdempotent(hash: Hash, text: seq<string>)
    requires text != [] && HexDigest(hash) && AllRegular(hash, Parse(SplitDocs(text)))
    ensures var docs := Parse(SplitDocs(text));
      && Patch(hash, text) != []
      && (Patch(hash, Patch(hash, text)) == Patch(hash, text)
          <==>
          NoMarkerEnds(docs) && NoChain(hash, docs) && forall k :: 0 <= k < |docs| ==> NameSettles(hash, docs, k))
  {
    hide PatchDocs, AllRegular, Closed, NameSettles, NoChain, NoMarkerEnds;
    var docs := Parse(SplitDocs(text));
    if !NoMarkerEnds(docs) {
      MarkerIsCut(hash, text);
    } else {
      ParsedClosed(text);
      OutClosed(hash, docs);
      var out := PatchDocs(hash, docs);
      ReparseClosed(out);
      SecondRegular(hash, docs);
      OutClosed(hash, out);
      ReparseClosed(PatchDocs(hash, out));
      DocsIdempotent(hash, docs);
    }
  }

  /** The condition in terms of lines: no `name: <stem>` inside the body of a template. */
  ghost predicate NoStemIn(m: map<string, string>, body: seq<string>) {
    forall i :: 0 <= i < |body| ==> !(ParseRef(body[i]).Ref? && ParseRef(body[i]).value in m)
  }

  /** A body is left as it is exactly when it holds no reference to a stem. */
  lemma BodyUntouched(hash: Hash, docs: seq<seq<string>>, body: seq<string>)
    requires HexDigest(hash)
    ensures MapLines(RefMap(hash, docs), body) == body <==> NoStemIn(RefMap(hash, docs), body)
  {
    hide RefMap, ParseRef;
    var m := RefMap(hash, docs);
    RefMapNames(hash, docs);
    if !NoStemIn(m, body) {
      var i :| 0 <= i < |body| && ParseRef(body[i]).Ref? && ParseRef(body[i]).value in m;
      MapRefParses(m, body[i]);
      assert MapLines(m, body)[i] != body[i];
    }
  }

  /** The rewritten body of document `k` does not hash like the body it was, unless it is that body. */
  ghost predicate NoCollision(hash: Hash, docs: seq<seq<string>>, k: nat)
    requires k < |docs|
  {
    var r := Read(hash, docs[k]);
    r.Revision? ==>
      var body := docs[k][r.spec..];
      var after := MapLines(RefMap(hash, docs), body);
      hash(after) == hash(body) ==> after == body
  }

  /** `NameSettles` in terms of lines, for a template that carries its own new name. */
  ghost predicate BodyHasNoStem(hash: Hash, docs: seq<seq<string>>, k: nat)
    requires k < |docs|
  {
    var r := Read(hash, docs[k]);
    r.Revision? ==>
      if CarriedBy(hash, docs, k) == r.newName then NoStemIn(RefMap(hash, docs), docs[k][r.spec..])
      else NameSettles(hash, docs, k)
  }

  lemma SettlesByLines(hash: Hash, docs: seq<seq<string>>, k: nat)
    requires HexDigest(hash) && k < |docs| && NoCollision(hash, docs, k)
    ensures NameSettles(hash, docs, k) <==> BodyHasNoStem(hash, docs, k)
  {
    hide Read, RefMap, CarriedBy, StemOf, NoStemIn;
    var r := Read(hash, docs[k]);
    if r.Revision? && CarriedBy(hash, docs, k) == r.newName {
      var body := docs[k][r.spec..];
      ReadNames(hash, docs[k]);
      BodyUntouched(hash, docs, body);
      SuffixInjective(r.stem, hash(MapLines(RefMap(hash, docs), body)), hash(body));
    }
  }

  /** In terms of lines: when no rewritten body collides with its own hash, the second run is a
      no-op exactly when no template body holds a `name: <stem>` line, apart from the two causes
      that have nothing to do with bodies. */
  lemma PatchIdempotentLines(hash: Hash, text: seq<string>)
    requires text != [] && HexDigest(hash) && AllRegular(hash, Parse(SplitDocs(text)))
    requires var docs := Parse(SplitDocs(text)); forall k :: 0 <= k < |docs| ==> NoCollision(hash, docs, k)
    ensures var docs := Parse(SplitDocs(text));
      && Patch(hash, text) != []
      && (Patch(hash, Patch(hash, text)) == Patch(hash, text)
          <==>
          NoMarkerEnds(docs) && NoChain(hash, docs) && forall k :: 0 <= k < |docs| ==> BodyHasNoStem(hash, docs, k))
  {
    hide Patch, AllRegular, NoCollision, NameSettles, BodyHasNoStem, NoChain, NoMarkerEnds;
    var docs := Parse(SplitDocs(text));
    PatchIdempotent(hash, text);
    forall k | 0 <= k < |docs| ensures NameSettles(hash, docs, k) <==> BodyHasNoStem(hash, docs, k) {
      SettlesByLines(hash, docs, k);
    }
  }
}
