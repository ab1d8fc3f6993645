/** The rename as seen by the references: which `name:` lines follow it, which still agree, and
    what the metadata pattern does to a document whose name is the last metadata line. */
module TemplateReferences {
  import opened Text
  import opened TemplateRevision
  import opened TemplateLines
  import opened TemplateTheorems

  // ---------------------------------------------------------------- lookup in the reference map

  /** Revision `k` is the last one with its stem. */
  predicate LastOf(revs: seq<Revision>, k: nat) {
    k < |revs| && revs[k].Revision? && forall l :: k < l < |revs| && revs[l].Revision? ==> revs[l].stem != revs[k].stem
  }

  /** The last template with a stem wins. */
  lemma {:induction false} LastWins(revs: seq<Revision>, k: nat)
    requires LastOf(revs, k)
    ensures revs[k].stem in Entries(revs) && Entries(revs)[revs[k].stem] == revs[k].newName
  {
    if k < |revs| - 1 {
      LastWins(revs[..|revs| - 1], k);
    }
  }

  // ---------------------------------------------------------------- consistent renaming

  /** A template with one metadata name, written so that the reference pattern also reads it. */
  ghost predicate Plain(hash: Hash, doc: seq<string>) {
    var r := Read(hash, doc);
    r.Revision? ==> forall i :: 0 <= i < r.spec && IsMetaName(doc[i]) ==>
      ParseRef(doc[i]).Ref? && ParseRef(doc[i]).value == r.readName
  }

  ghost predicate AllPlain(hash: Hash, docs: seq<seq<string>>) {
    AllRegular(hash, docs) && forall k :: 0 <= k < |docs| ==> Plain(hash, docs[k])
  }

  /** The line is a metadata name of a template, and its name changes. */
  predicate IsRenamed(hash: Hash, docs: seq<seq<string>>, k: nat, i: nat)
    requires k < |docs| && i < |docs[k]|
  {
    var r := Read(hash, docs[k]);
    r.Revision? && i < r.spec && IsMetaName(docs[k][i]) && r.readName != r.newName
  }

  /** What a reference line says after the patch. */
  function ValueAfter(hash: Hash, docs: seq<seq<string>>, k: nat, i: nat): string
    requires k < |docs| && i < |docs[k]| && ParseRef(docs[k][i]).Ref?
  {
    var m := RefMap(hash, docs);
    if IsRenamed(hash, docs, k, i) then MapName(m, Read(hash, docs[k]).newName)
    else MapName(m, ParseRef(docs[k][i]).value)
  }

  lemma KeptLine(hash: Hash, docs: seq<seq<string>>, k: nat, i: nat)
    requires HexDigest(hash) && AllRegular(hash, docs) && k < |docs| && i < |docs[k]| && !IsRenamed(hash, docs, k, i)
    ensures |Revise(hash, docs[k])| == |docs[k]| && Revise(hash, docs[k])[i] == docs[k][i]
  {
    hide Read, IsMetaName, Tidy;
    var r, doc := Read(hash, docs[k]), docs[k];
    assert Regular(hash, doc);
    if r.Revision? {
      ReviseTidy(hash, doc);
      if i < r.spec && r.readName != r.newName {
        RenameLinesAt(doc[..r.spec], r.newName, i);
      }
    } else {
      OtherStays(hash, doc);
    }
  }

  lemma RenamedLine(hash: Hash, docs: seq<seq<string>>, k: nat, i: nat)
    requires HexDigest(hash) && AllRegular(hash, docs) && k < |docs| && i < |docs[k]| && IsRenamed(hash, docs, k, i)
    ensures |Revise(hash, docs[k])| == |docs[k]|
    ensures Revise(hash, docs[k])[i] == META_NAME + " " + Read(hash, docs[k]).newName
    ensures SingleToken(Read(hash, docs[k]).newName)
  {
    hide Read, IsMetaName, Tidy;
    var r, doc := Read(hash, docs[k]), docs[k];
    assert Regular(hash, doc);
    ReviseTidy(hash, doc);
    ReadNames(hash, doc);
    RenameLinesAt(doc[..r.spec], r.newName, i);
  }

  /** After the patch the reference lines are the same lines, and this is what they say. */
  lemma LineAfter(hash: Hash, docs: seq<seq<string>>, k: nat, i: nat)
    requires HexDigest(hash) && AllPlain(hash, docs) && k < |docs| && i < |docs[k]|
    ensures |PatchDocs(hash, docs)[k]| == |docs[k]|
    ensures var a, b := ParseRef(docs[k][i]), ParseRef(PatchDocs(hash, docs)[k][i]);
      (a.Ref? <==> b.Ref?) && (a.Ref? ==> b.value == ValueAfter(hash, docs, k, i))
  {
    hide Read, IsMetaName, ParseRef, Revise, PatchDocs, Regular, AllRegular;
    var m := RefMap(hash, docs);
    RefMapIsRevisionMap(hash, docs);
    TokenMapIsSolid(m);
    PatchDocAt(hash, docs, k);
    if IsRenamed(hash, docs, k, i) {
      assert Plain(hash, docs[k]);
      RenamedLine(hash, docs, k, i);
      var n := Read(hash, docs[k]).newName;
      NewLineParses(n);
      MapRefParses(m, META_NAME + " " + n);
    } else {
      KeptLine(hash, docs, k, i);
      MapRefParses(m, docs[k][i]);
    }
  }

  lemma TokenMapOf(hash: Hash, docs: seq<seq<string>>, k: nat)
    requires HexDigest(hash) && AllRegular(hash, docs) && k < |docs| && Read(hash, docs[k]).Revision?
    ensures var r, m := Read(hash, docs[k]), RefMap(hash, docs);
      && r.stem in m && |m[r.stem]| == |r.newName| == |r.stem| + 10
      && (r.readName != r.stem ==> |r.readName| == |r.newName|)
  {
    hide Read, RefMap, StemOf;
    StemsAreKeys(hash, docs, Read(hash, docs[k]).stem);
    RefMapIsRevisionMap(hash, docs);
    ReadNames(hash, docs[k]);
    NameLength(Read(hash, docs[k]).readName);
  }

  lemma NameLength(name: string)
    ensures StemOf(name) != name ==> |name| == |StemOf(name)| + 10
  {
  }

  /** The renaming of values keeps values of one length apart. */
  lemma MapNameApart(m: map<string, string>, x: string, y: string)
    requires RevisionMap(m) && |x| == |y|
    ensures MapName(m, x) == MapName(m, y) <==> x == y
  {
    hide Suffixed, StemOf;
  }

  // ---------------------------------------------------------------- who follows a renamed template

  predicate IsName(docs: seq<seq<string>>, k: nat, i: nat) {
    k < |docs| && i < |docs[k]| && ParseRef(docs[k][i]).Ref?
  }

  function NameOf(docs: seq<seq<string>>, k: nat, i: nat): string
    requires IsName(docs, k, i)
  {
    ParseRef(docs[k][i]).value
  }

  /** Line `i` of document `l` names template `k`. */
  predicate Names(hash: Hash, docs: seq<seq<string>>, k: nat, l: nat, i: nat)
    requires k < |docs| && Read(hash, docs[k]).Revision?
  {
    IsName(docs, l, i) && NameOf(docs, l, i) == Read(hash, docs[k]).readName
  }

  /** The line is a metadata name of template `k` itself. */
  predicate IsOwn(hash: Hash, docs: seq<seq<string>>, k: nat, l: nat, i: nat)
    requires k < |docs| && Read(hash, docs[k]).Revision?
  {
    l == k && i < Read(hash, docs[k]).spec && i < |docs[k]| && IsMetaName(docs[k][i])
  }

  /** The template is up to date, or bare and the last one with its stem that counts, its new name
      being no stem. */
  predicate Current(hash: Hash, docs: seq<seq<string>>, k: nat)
    requires k < |docs|
  {
    var r, m := Read(hash, docs[k]), RefMap(hash, docs);
    r.Revision? ==>
      r.readName == r.newName
      || (r.readName == r.stem && r.stem in m && m[r.stem] == r.newName && r.newName !in m)
  }

  /** Every line that names template `k` names it after the patch. */
  ghost predicate AllFollow(hash: Hash, docs: seq<seq<string>>, k: nat)
    requires k < |docs| && Read(hash, docs[k]).Revision?
  {
    var out := PatchDocs(hash, docs);
    forall l, i | Names(hash, docs, k, l, i) :: IsName(out, l, i) && NameOf(out, l, i) == CarriedBy(hash, docs, k)
  }

  /** The line is renamed with its own template, and to the name that template `k` gets. */
  predicate RenamedAlike(hash: Hash, docs: seq<seq<string>>, k: nat, l: nat, i: nat)
    requires k < |docs| && Read(hash, docs[k]).Revision? && l < |docs| && i < |docs[l]|
  {
    IsRenamed(hash, docs, l, i) && Read(hash, docs[l]).newName == Read(hash, docs[k]).newName
  }

  lemma PlainCarries(hash: Hash, docs: seq<seq<string>>, k: nat)
    requires HexDigest(hash) && AllPlain(hash, docs) && k < |docs| && Read(hash, docs[k]).Revision?
    ensures CarriedBy(hash, docs, k) == MapName(RefMap(hash, docs), Read(hash, docs[k]).newName)
  {
    hide Read, IsMetaName, ParseRef, Tidy;
    assert Regular(hash, docs[k]) && Plain(hash, docs[k]);
    var j := NameLine(hash, docs[k]);
  }

  /** Templates of one name have one stem, so their new names are of one length. */
  lemma SameLengths(hash: Hash, docs: seq<seq<string>>, k: nat, l: nat, i: nat)
    requires HexDigest(hash) && AllPlain(hash, docs)
    requires k < |docs| && Read(hash, docs[k]).Revision? && Names(hash, docs, k, l, i) && IsRenamed(hash, docs, l, i)
    ensures |Read(hash, docs[l]).newName| == |Read(hash, docs[k]).newName|
  {
    hide Read, IsMetaName, ParseRef, StemOf;
    assert Plain(hash, docs[l]);
    ReadNames(hash, docs[l]);
    ReadNames(hash, docs[k]);
  }

  /** Whether a line that is not renamed gets the name that the template carries. */
  lemma SameNameIffCurrent(hash: Hash, docs: seq<seq<string>>, k: nat)
    requires HexDigest(hash) && AllPlain(hash, docs) && k < |docs| && Read(hash, docs[k]).Revision?
    ensures MapName(RefMap(hash, docs), Read(hash, docs[k]).readName) == CarriedBy(hash, docs, k)
      <==> Current(hash, docs, k)
  {
    hide Read, RefMap, Suffixed, StemOf;
    var r, m := Read(hash, docs[k]), RefMap(hash, docs);
    TokenMapOf(hash, docs, k);
    RefMapIsRevisionMap(hash, docs);
    PlainCarries(hash, docs, k);
    if r.readName != r.stem {
      MapNameApart(m, r.readName, r.newName);
    }
  }

  /** A line that names template `k`: what it says after the patch, and when that is the name the
      template carries. */
  lemma ReferenceAfter(hash: Hash, docs: seq<seq<string>>, k: nat, l: nat, i: nat)
    requires HexDigest(hash) && AllPlain(hash, docs)
    requires k < |docs| && Read(hash, docs[k]).Revision? && Names(hash, docs, k, l, i)
    ensures var out := PatchDocs(hash, docs);
      && IsName(out, l, i)
      && (IsRenamed(hash, docs, l, i) ==>
           (NameOf(out, l, i) == CarriedBy(hash, docs, k) <==> RenamedAlike(hash, docs, k, l, i)))
      && (!IsRenamed(hash, docs, l, i) ==>
           && NameOf(out, l, i) == MapName(RefMap(hash, docs), Read(hash, docs[k]).readName)
           && (NameOf(out, l, i) == CarriedBy(hash, docs, k) <==> Current(hash, docs, k)))
  {
    hide Read, IsMetaName, ParseRef, PatchDocs, RefMap, AllPlain, MapName, Current, CarriedBy, IsRenamed;
    LineAfter(hash, docs, l, i);
    if IsRenamed(hash, docs, l, i) {
      RenamedAfter(hash, docs, k, l, i);
    } else {
      SameNameIffCurrent(hash, docs, k);
    }
  }

  lemma RenamedAfter(hash: Hash, docs: seq<seq<string>>, k: nat, l: nat, i: nat)
    requires HexDigest(hash) && AllPlain(hash, docs)
    requires k < |docs| && Read(hash, docs[k]).Revision? && Names(hash, docs, k, l, i) && IsRenamed(hash, docs, l, i)
    ensures ValueAfter(hash, docs, l, i) == CarriedBy(hash, docs, k) <==> RenamedAlike(hash, docs, k, l, i)
  {
    hide Read, IsMetaName, ParseRef, RefMap, MapName, CarriedBy, RevisionMap;
    PlainCarries(hash, docs, k);
    RefMapIsRevisionMap(hash, docs);
    SameLengths(hash, docs, k, l, i);
    MapNameApart(RefMap(hash, docs), Read(hash, docs[l]).newName, Read(hash, docs[k]).newName);
  }

  /** The rename of a template is followed by every line of the manifest that names it exactly when
      each such line is renamed with a template of that name that gets the same new name, or the
      template is current: up to date, or bare, the one whose new name its stem stands for, and this
      name no stem. */
  lemma RenamingFollowed(hash: Hash, docs: seq<seq<string>>, k: nat)
    requires HexDigest(hash) && AllPlain(hash, docs) && k < |docs| && Read(hash, docs[k]).Revision?
    ensures AllFollow(hash, docs, k) <==>
      forall l, i | Names(hash, docs, k, l, i) ::
        if IsRenamed(hash, docs, l, i) then RenamedAlike(hash, docs, k, l, i) else Current(hash, docs, k)
  {
    hide Read, PatchDocs, RefMap, ParseRef, CarriedBy, AllPlain, IsRenamed, RenamedAlike, Current;
    forall l, i | Names(hash, docs, k, l, i)
      ensures var out := PatchDocs(hash, docs);
        && IsName(out, l, i)
        && (NameOf(out, l, i) == CarriedBy(hash, docs, k) <==>
             if IsRenamed(hash, docs, l, i) then RenamedAlike(hash, docs, k, l, i) else Current(hash, docs, k))
    {
      ReferenceAfter(hash, docs, k, l, i);
    }
  }

  /** With one template for every stem, the condition is about the template alone: it is current, or
      nothing but its own metadata names it. */
  lemma DistinctFollowed(hash: Hash, docs: seq<seq<string>>, k: nat)
    requires HexDigest(hash) && AllPlain(hash, docs) && k < |docs| && Read(hash, docs[k]).Revision?
    requires forall l :: 0 <= l < |docs| && l != k && Read(hash, docs[l]).Revision? ==>
      Read(hash, docs[l]).stem != Read(hash, docs[k]).stem
    ensures AllFollow(hash, docs, k) <==>
      Current(hash, docs, k) || forall l, i | Names(hash, docs, k, l, i) :: IsOwn(hash, docs, k, l, i)
  {
    hide Read, PatchDocs, RefMap, CarriedBy, AllFollow, ParseRef, IsMetaName;
    RenamingFollowed(hash, docs, k);
    forall l: nat, i: nat | Names(hash, docs, k, l, i)
      ensures IsRenamed(hash, docs, l, i) ==> l == k && RenamedAlike(hash, docs, k, l, i)
      ensures IsRenamed(hash, docs, l, i)
        <==> IsOwn(hash, docs, k, l, i) && Read(hash, docs[k]).readName != Read(hash, docs[k]).newName
    {
      if IsRenamed(hash, docs, l, i) {
        assert Plain(hash, docs[l]);
        ReadNames(hash, docs[l]);
        ReadNames(hash, docs[k]);
      }
    }
  }

  /** A template that carries the suffix of an older spec leaves its references behind: a line that
      names it elsewhere does not name it afterwards, and if the old name is not a stem itself, the
      line stays as it is. */
  lemma StaleReferences(hash: Hash, docs: seq<seq<string>>, k: nat, l: nat, i: nat)
    requires HexDigest(hash) && AllPlain(hash, docs) && k < |docs| && Read(hash, docs[k]).Revision?
    requires Names(hash, docs, k, l, i) && !IsRenamed(hash, docs, l, i)
    requires var r := Read(hash, docs[k]); r.readName != r.stem && r.readName != r.newName
    ensures var out, r := PatchDocs(hash, docs), Read(hash, docs[k]);
      && IsName(out, l, i) && NameOf(out, l, i) != CarriedBy(hash, docs, k)
      && (r.readName !in RefMap(hash, docs) ==> out[l][i] == docs[l][i])
  {
    hide Read, ParseRef, PatchDocs, RefMap, IsRenamed, CarriedBy, AllPlain, AllRegular, Revise;
    assert AllRegular(hash, docs) by { PlainRegular(hash, docs); }
    ReferenceAfter(hash, docs, k, l, i);
    KeptLine(hash, docs, l, i);
    PatchDocAt(hash, docs, l);
  }

  lemma PlainRegular(hash: Hash, docs: seq<seq<string>>)
    ensures AllPlain(hash, docs) ==> AllRegular(hash, docs)
  {}

  /** Where several templates share a stem, a reference to the stem takes the new name of the last. */
  lemma StemTakesTheLast(hash: Hash, docs: seq<seq<string>>, k: nat, l: nat, i: nat)
    requires HexDigest(hash) && AllPlain(hash, docs) && LastOf(ReadAll(hash, docs), k) && k < |docs|
    requires IsName(docs, l, i) && !IsRenamed(hash, docs, l, i)
    requires NameOf(docs, l, i) == ReadAll(hash, docs)[k].stem
    ensures var out := PatchDocs(hash, docs);
      IsName(out, l, i) && NameOf(out, l, i) == ReadAll(hash, docs)[k].newName
  {
    hide Read, ParseRef, PatchDocs, IsRenamed, AllPlain;
    LineAfter(hash, docs, l, i);
    LastWins(ReadAll(hash, docs), k);
  }

  // ---------------------------------------------------------------- references go on resolving

  /** Two name lines, anywhere in the manifest, agree after the patch exactly when they did before. */
  ghost predicate AgreementKept(hash: Hash, docs: seq<seq<string>>) {
    var out := PatchDocs(hash, docs);
    forall k, i, l, j | IsName(docs, k, i) && IsName(docs, l, j) ::
      IsName(out, k, i) && IsName(out, l, j)
      && (NameOf(docs, k, i) == NameOf(docs, l, j) <==> NameOf(out, k, i) == NameOf(out, l, j))
  }

  /** Some name of the manifest is the new name of another, and stays. */
  ghost predicate Captures(hash: Hash, docs: seq<seq<string>>) {
    var m := RefMap(hash, docs);
    exists k, i, l, j :: IsName(docs, k, i) && IsName(docs, l, j) && Captured(m, NameOf(docs, k, i), NameOf(docs, l, j))
  }

  predicate Captured(m: map<string, string>, x: string, y: string) { x in m && y !in m && y == m[x] }

  /** The renaming of values is injective on a pair exactly when neither is the new name of the other
      and stays. */
  lemma MapNameInjective(m: map<string, string>, x: string, y: string)
    requires RevisionMap(m)
    ensures (MapName(m, x) == MapName(m, y) <==> x == y) <==> !Captured(m, x, y) && !Captured(m, y, x)
  {
    hide Suffixed, StemOf;
  }

  /** What a line says when the templates are renamed and no reference has been rewritten yet. */
  function SaysFirst(hash: Hash, docs: seq<seq<string>>, k: nat, i: nat): string
    requires IsName(docs, k, i)
  {
    if IsRenamed(hash, docs, k, i) then Read(hash, docs[k]).newName else NameOf(docs, k, i)
  }

  /** Two names are made one by rewriting: they are one already, or one of them is rewritten to the
      other and that one stays. */
  predicate Meet(m: map<string, string>, x: string, y: string) { x == y || Captured(m, x, y) || Captured(m, y, x) }

  lemma MeetIff(m: map<string, string>, x: string, y: string)
    requires RevisionMap(m)
    ensures MapName(m, x) == MapName(m, y) <==> Meet(m, x, y)
  {
    hide Suffixed, StemOf;
  }

  lemma SaysAfter(hash: Hash, docs: seq<seq<string>>, k: nat, i: nat)
    requires HexDigest(hash) && AllPlain(hash, docs) && IsName(docs, k, i)
    ensures var out := PatchDocs(hash, docs);
      IsName(out, k, i) && NameOf(out, k, i) == MapName(RefMap(hash, docs), SaysFirst(hash, docs, k, i))
  {
    hide Read, ParseRef, PatchDocs, RefMap, IsRenamed, AllPlain, MapName;
    LineAfter(hash, docs, k, i);
  }

  lemma PairAgrees(hash: Hash, docs: seq<seq<string>>, k: nat, i: nat, l: nat, j: nat)
    requires HexDigest(hash) && AllPlain(hash, docs) && IsName(docs, k, i) && IsName(docs, l, j)
    ensures var out, m := PatchDocs(hash, docs), RefMap(hash, docs);
      && IsName(out, k, i) && IsName(out, l, j)
      && (NameOf(out, k, i) == NameOf(out, l, j) <==>
           Meet(m, SaysFirst(hash, docs, k, i), SaysFirst(hash, docs, l, j)))
  {
    hide Read, ParseRef, PatchDocs, RefMap, Meet, SaysFirst, RevisionMap, IsName, NameOf, AllPlain, MapName;
    SaysAfter(hash, docs, k, i);
    SaysAfter(hash, docs, l, j);
    assert RevisionMap(RefMap(hash, docs)) by {
      PlainRegular(hash, docs);
      RefMapIsRevisionMap(hash, docs);
    }
    MeetIff(RefMap(hash, docs), SaysFirst(hash, docs, k, i), SaysFirst(hash, docs, l, j));
  }

  /** Names that agreed are still made one, and no others are. */
  ghost predicate MeetAsBefore(hash: Hash, docs: seq<seq<string>>) {
    forall k, i, l, j | IsName(docs, k, i) && IsName(docs, l, j) ::
      NameOf(docs, k, i) == NameOf(docs, l, j) <==>
        Meet(RefMap(hash, docs), SaysFirst(hash, docs, k, i), SaysFirst(hash, docs, l, j))
  }

  /** References keep resolving to the documents they resolved to, and to no others, exactly when the
      renames of the templates and the rewriting of the references bring the same names together as
      before. This holds of all manifests, old suffixes and shared stems included. */
  lemma AgreementIff(hash: Hash, docs: seq<seq<string>>)
    requires HexDigest(hash) && AllPlain(hash, docs)
    ensures AgreementKept(hash, docs) <==> MeetAsBefore(hash, docs)
  {
    hide Read, ParseRef, PatchDocs, RefMap, Meet, SaysFirst, AllPlain, IsName, NameOf;
    var out := PatchDocs(hash, docs);
    forall k, i, l, j | IsName(docs, k, i) && IsName(docs, l, j)
      ensures IsName(out, k, i) && IsName(out, l, j)
      ensures NameOf(out, k, i) == NameOf(out, l, j) <==>
        Meet(RefMap(hash, docs), SaysFirst(hash, docs, k, i), SaysFirst(hash, docs, l, j))
    {
      PairAgrees(hash, docs, k, i, l, j);
    }
  }

  /** A line of a manifest of current templates: what it says first is rewritten to the image of what
      it said. */
  lemma CurrentLine(hash: Hash, docs: seq<seq<string>>, k: nat, i: nat)
    requires AllPlain(hash, docs) && IsName(docs, k, i) && Current(hash, docs, k)
    ensures var m := RefMap(hash, docs); MapName(m, SaysFirst(hash, docs, k, i)) == MapName(m, NameOf(docs, k, i))
  {
    hide Read, ParseRef, RefMap, IsMetaName;
    if IsRenamed(hash, docs, k, i) {
      assert Plain(hash, docs[k]);
    }
  }

  /** When all templates are current, references keep resolving exactly when no name in the manifest is
      already the new name of a template named in it. */
  lemma ReferencesResolve(hash: Hash, docs: seq<seq<string>>)
    requires HexDigest(hash) && AllPlain(hash, docs)
    requires forall k :: 0 <= k < |docs| ==> Current(hash, docs, k)
    ensures AgreementKept(hash, docs) <==> !Captures(hash, docs)
  {
    hide Read, ParseRef, PatchDocs, RefMap, Current, Captured, AllPlain, IsName, NameOf, SaysFirst, Meet, AgreementKept;
    var m := RefMap(hash, docs);
    AgreementIff(hash, docs);
    forall k, i, l, j | IsName(docs, k, i) && IsName(docs, l, j)
      ensures var x, y := NameOf(docs, k, i), NameOf(docs, l, j);
        (x == y <==> Meet(m, SaysFirst(hash, docs, k, i), SaysFirst(hash, docs, l, j)))
          <==> !Captured(m, x, y) && !Captured(m, y, x)
    {
      CurrentPair(hash, docs, k, i, l, j);
    }
    if k, i, l, j :| IsName(docs, k, i) && IsName(docs, l, j) && Captured(m, NameOf(docs, k, i), NameOf(docs, l, j)) {
      assert !MeetAsBefore(hash, docs);
    }
  }

  lemma CurrentPair(hash: Hash, docs: seq<seq<string>>, k: nat, i: nat, l: nat, j: nat)
    requires HexDigest(hash) && AllPlain(hash, docs) && forall n :: 0 <= n < |docs| ==> Current(hash, docs, n)
    requires IsName(docs, k, i) && IsName(docs, l, j)
    ensures var x, y, m := NameOf(docs, k, i), NameOf(docs, l, j), RefMap(hash, docs);
      (x == y <==> Meet(m, SaysFirst(hash, docs, k, i), SaysFirst(hash, docs, l, j)))
        <==> !Captured(m, x, y) && !Captured(m, y, x)
  {
    hide Read, ParseRef, RefMap, Current, Captured, Meet, SaysFirst, RevisionMap, NameOf, AllPlain, MapName;
    var m := RefMap(hash, docs);
    NameInRange(docs, k, i);
    NameInRange(docs, l, j);
    CurrentLine(hash, docs, k, i);
    CurrentLine(hash, docs, l, j);
    PlainRegular(hash, docs);
    RefMapIsRevisionMap(hash, docs);
    MeetIff(m, SaysFirst(hash, docs, k, i), SaysFirst(hash, docs, l, j));
    MapNameInjective(m, NameOf(docs, k, i), NameOf(docs, l, j));
  }

  lemma NameInRange(docs: seq<seq<string>>, k: nat, i: nat)
    ensures IsName(docs, k, i) ==> k < |docs|
  {}

  // ---------------------------------------------------------------- a name at the end of the metadata

  /** The lines on which the replaced matches start: the leftmost ones that do not overlap. */
  function Matches(ls: seq<string>, i: nat): seq<nat>
    requires i <= |ls|
    decreases |ls| - i
  {
    if i == |ls| then []
    else if NameAt(ls, i).Hit? then [i] + Matches(ls, NameAt(ls, i).next)
    else Matches(ls, i + 1)
  }

  lemma {:induction false} MatchesHit(ls: seq<string>, i: nat)
    requires i <= |ls|
    ensures forall j :: j in Matches(ls, i) ==> i <= j < |ls| && NameAt(ls, j).Hit?
    decreases |ls| - i
  {
    hide NameAt;
    if i < |ls| {
      NameAtNext(ls, i);
      MatchesHit(ls, if NameAt(ls, i).Hit? then NameAt(ls, i).next else i + 1);
    }
  }

  /** Some replaced match runs to the end of the lines. */
  predicate RunsOut(ls: seq<string>, i: nat)
    requires i <= |ls|
  {
    exists j :: j in Matches(ls, i) && i <= j < |ls| && NameAt(ls, j).Hit? && NameAt(ls, j).next == |ls|
  }

  lemma RunsOutStep(ls: seq<string>, i: nat)
    requires i < |ls|
    ensures var m := NameAt(ls, i);
      var n := if m.Hit? then m.next else i + 1;
      i < n <= |ls| && (RunsOut(ls, i) <==> (m.Hit? && n == |ls|) || RunsOut(ls, n))
  {
    hide NameAt;
    NameAtNext(ls, i);
    var m := NameAt(ls, i);
    var n := if m.Hit? then m.next else i + 1;
    MatchesHit(ls, n);
    assert forall j :: j in Matches(ls, i) <==> j in Matches(ls, n) || (m.Hit? && j == i);
  }

  /** The pattern ends in `\s*$`, so a match also eats the white lines below the name: the rename
      keeps the number of lines exactly when no matched name is followed by a white line. */
  lemma {:induction false} RenameKeepsLines(ls: seq<string>, i: nat, name: string)
    requires i <= |ls|
    ensures |RenameNames(ls, i, name)| == |ls| - i
      <==> forall j :: i <= j < |ls| && NameAt(ls, j).Hit? ==> NameAt(ls, j).next == j + 1
    decreases |ls| - i
  {
    hide NameAt;
    if i < |ls| {
      NameAtNext(ls, i);
      var n := if NameAt(ls, i).Hit? then NameAt(ls, i).next else i + 1;
      RenameShortens(ls, n, name);
      RenameKeepsLines(ls, n, name);
    }
  }

  lemma NothingRunsOut(ls: seq<string>)
    ensures !RunsOut(ls, |ls|)
  {}

  /** A match that runs out is the last one, and its name line the last line. */
  lemma {:induction false} LastLine(ls: seq<string>, i: nat, name: string)
    requires ls != [] && ls[|ls| - 1] == [] && i < |ls|
    ensures var out := RenameNames(ls, i, name);
      && out != []
      && (RunsOut(ls, i) <==> out[|out| - 1] == META_NAME + " " + name)
      && (out[|out| - 1] == [] || out[|out| - 1] == META_NAME + " " + name)
    decreases |ls| - i
  {
    hide NameAt, RunsOut;
    RunsOutStep(ls, i);
    var m := NameAt(ls, i);
    var n := if m.Hit? then m.next else i + 1;
    if n < |ls| {
      LastLine(ls, n, name);
    } else {
      NothingRunsOut(ls);
    }
  }

  /** The `spec:` line keeps a line of its own exactly when no replaced match runs to the end of the
      metadata: behind every name there is a line that is not white. */
  lemma HeaderSurvives(ls: seq<string>, name: string)
    requires EndsOpen(ls)
    ensures EndsOpen(RenameNames(ls, 0, name)) <==> !RunsOut(ls, 0)
  {
    hide RenameNames, NameAt, Matches;
    LastLine(ls, 0, name);
  }

  lemma {:induction false} RenamedLines(ls: seq<string>, i: nat, name: string)
    requires i <= |ls|
    ensures forall l :: l in RenameNames(ls, i, name) ==> l in ls || l == META_NAME + " " + name
    decreases |ls| - i
  {
    hide NameAt;
    if i < |ls| {
      NameAtNext(ls, i);
      RenamedLines(ls, if NameAt(ls, i).Hit? then NameAt(ls, i).next else i + 1, name);
    }
  }

  lemma {:induction false} NoSpecLine(doc: seq<string>, i: nat)
    requires i <= |doc| && SPEC !in doc
    ensures SpecLine(doc, i) == |doc|
    decreases |doc| - i
  {
    if i + 1 < |doc| {
      assert doc[i] in doc;
      NoSpecLine(doc, i + 1);
    }
  }

  lemma GluedIsNoSpec(name: string)
    ensures META_NAME + " " + name != SPEC && META_NAME + " " + name + SPEC != SPEC
  {
    assert META_NAME[0] == ' ' && (META_NAME + " " + name)[0] == ' ' && (META_NAME + " " + name + SPEC)[0] == ' ';
  }

  /** What is left of a renamed template when a match runs out: its header is glued to the new name.
      If it was the only one, the document is no template any more. */
  lemma HeaderSwallowed(hash: Hash, doc: seq<string>)
    requires var r := Read(hash, doc); r.Revision? && r.readName != r.newName && RunsOut(Meta(doc, r.spec), 0)
    ensures var r := Read(hash, doc);
      var head := RenameNames(Meta(doc, r.spec), 0, r.newName);
      && head != []
      && Revise(hash, doc) == head[..|head| - 1] + [META_NAME + " " + r.newName + SPEC] + doc[r.spec + 1..]
      && (SPEC !in doc[..r.spec] && SPEC !in doc[r.spec + 1..] ==> Read(hash, Revise(hash, doc)).Other?)
  {
    hide RenameNames, NameAt, Matches, IsTemplate, FirstName, SpecLine;
    var r := Read(hash, doc);
    var meta := Meta(doc, r.spec);
    assert meta[|meta| - 1] == [];
    LastLine(meta, 0, r.newName);
    var head := RenameNames(meta, 0, r.newName);
    var out := Revise(hash, doc);
    assert doc[r.spec..][1..] == doc[r.spec + 1..] && doc[r.spec..][0] == SPEC by { HeaderAt(doc); }
    if SPEC !in doc[..r.spec] && SPEC !in doc[r.spec + 1..] {
      RenamedLines(meta, 0, r.newName);
      GluedIsNoSpec(r.newName);
      forall l | l in out ensures l != SPEC {
        GluedMember(head[..|head| - 1], META_NAME + " " + r.newName + SPEC, doc[r.spec + 1..], l);
        assert l in head[..|head| - 1] ==> l in head;
      }
      NoSpecLine(out, 0);
    }
  }

  lemma HeaderAt(doc: seq<string>)
    ensures var s := SpecLine(doc, 0); s < |doc| ==> doc[s] == SPEC
  {}

  lemma GluedMember(a: seq<string>, x: string, b: seq<string>, l: string)
    ensures l in a + [x] + b <==> l in a || l == x || l in b
  {}
}
