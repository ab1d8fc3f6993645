/** What renaming does to single lines, and why it cannot turn one document kind into another. */
module TemplateLines {
  import opened Text
  import opened TemplateRevision

  /** Keys and values without white space: what the patch puts into its map, for named templates. */
  ghost predicate TokenMap(m: map<string, string>) {
    forall s :: s in m ==> SingleToken(s) && SingleToken(m[s])
  }

  lemma TokenIsSolid(v: string)
    requires SingleToken(v)
    ensures Solid(Tab, v) && Solid(Regex, v)
  {
  }

  // ---------------------------------------------------------------- name-like lines

  /** A line that reads `name:` and something, at any indentation. */
  ghost predicate NameLike(l: string) {
    HasPrefix(Trim(Regex, l), NAME) && |Trim(Regex, l)| > |NAME|
  }

  /** The two lines are equal, or both are name-like at the same side of the metadata indent. */
  ghost predicate Alike(l: string, l': string) {
    l == l' || (NameLike(l) && NameLike(l') && (HasPrefix(l, META_NAME) <==> HasPrefix(l', META_NAME)))
  }

  ghost predicate AllAlike(a: seq<string>, b: seq<string>) {
    |a| == |b| && forall i :: 0 <= i < |a| ==> Alike(a[i], b[i])
  }

  lemma FirstCharOfTrim(l: string)
    requires l != [] && !White(Regex, l[0])
    ensures Trim(Regex, l) != [] && Trim(Regex, l)[0] == l[0]
  {
    TrailEmpty(Regex, l);
    assert TrimRight(Regex, l)[0] == l[0];
  }

  lemma BlankTrims(l: string)
    requires Blank(l)
    ensures Trim(Regex, l) == []
  {
    LeadFull(Regex, l);
    TrimEmptyOrSolid(Regex, l);
  }

  lemma NameLikeFacts(l: string)
    requires NameLike(l)
    ensures !Blank(l) && !HasPrefix(l, KIND) && !HasPrefix(l, API) && l != SPEC
  {
    var t := Trim(Regex, l);
    assert t[..|NAME|][0] == 'n';
    if Blank(l) {
      BlankTrims(l);
    }
    if l != [] {
      if !White(Regex, l[0]) {
        FirstCharOfTrim(l);
      }
      PrefixChar(l, KIND, 0);
      PrefixChar(l, API, 0);
    }
  }

  lemma TrimNamePadded(indent: string, lead: string, v: string, post: string)
    requires AllWhite(Regex, indent) && AllWhite(Regex, post) && Solid(Regex, v)
    ensures Trim(Regex, indent + NAME + lead + v + post) == NAME + lead + v
  {
    var m := NAME + lead + v;
    assert Solid(Regex, m) by {
      assert m[0] == 'n' && m[|m| - 1] == v[|v| - 1];
    }
    assert indent + NAME + lead + v + post == indent + m + post;
    hide Trim, Lead, Trail, Solid;
    TrimPadded(Regex, indent, m, post);
  }

  lemma TabIsRegex(s: string)
    requires AllWhite(Tab, s)
    ensures AllWhite(Regex, s)
  {
  }

  /** The part of a reference line after `name:`. */
  function AfterName(l: string): string
    requires ParseRef(l).Ref?
  {
    l[Lead(Tab, l) + |NAME|..]
  }

  /** Where a reference line with a token value starts and ends, for the other white-space class. */
  lemma RefLineTrim(l: string)
    requires ParseRef(l).Ref? && SingleToken(ParseRef(l).value)
    ensures var p := SplitPadding(AfterName(l));
      && Trim(Regex, l) == NAME + p.lead + p.value
      && Trim(Regex, AfterName(l)) == p.value
      && AllWhite(Regex, p.lead)
  {
    var n := Lead(Tab, l);
    var rest := l[n + |NAME|..];
    var p := SplitPadding(rest);
    CutAtName(l, n);
    PaddingParts(rest);
    TabIsRegex(l[..n]);
    TabIsRegex(p.lead);
    TabIsRegex(p.post);
    TokenIsSolid(p.value);
    TrimNamePadded(l[..n], p.lead, p.value, p.post);
    Regroup(l[..n] + NAME, p);
    TrimPadded(Regex, p.lead, p.value, p.post);
  }

  lemma MetaPrefixByPre(pre: string, n: nat, a: string, b: string)
    requires n + |NAME| <= |pre| && pre[n] == 'n'
    ensures HasPrefix(pre + a, META_NAME) <==> HasPrefix(pre + b, META_NAME)
  {
    if n >= 2 {
      assert (pre + a)[..7] == pre[..7] && (pre + b)[..7] == pre[..7];
    } else {
      PrefixChar(pre + a, META_NAME, n);
      PrefixChar(pre + b, META_NAME, n);
    }
  }

  lemma PreHasName(l: string)
    requires ParseRef(l).Ref?
    ensures var n := Lead(Tab, l); n + |NAME| <= |ParseRef(l).pre| && ParseRef(l).pre[n] == 'n'
  {
    var n := Lead(Tab, l);
    assert (l[..n] + NAME)[n] == NAME[0];
  }

  lemma MetaPrefixKept(m: map<string, string>, l: string)
    ensures HasPrefix(l, META_NAME) <==> HasPrefix(MapRef(m, l), META_NAME)
  {
    var r := ParseRef(l);
    if r.Ref? && r.value in m {
      RefParts(l);
      PreHasName(l);
      MetaPrefixOf(r, m[r.value], Lead(Tab, l));
    }
  }

  lemma MetaPrefixOf(r: Ref, v: string, n: nat)
    requires r.Ref? && n + |NAME| <= |r.pre| && r.pre[n] == 'n'
    ensures HasPrefix(r.pre + r.value + r.post, META_NAME) <==> HasPrefix(r.pre + v + r.post, META_NAME)
  {
    MetaPrefixByPre(r.pre, n, r.value + r.post, v + r.post);
    assert r.pre + r.value + r.post == r.pre + (r.value + r.post);
    assert r.pre + v + r.post == r.pre + (v + r.post);
  }

  lemma TokenMapIsSolid(m: map<string, string>)
    requires TokenMap(m)
    ensures SolidValues(m)
  {
    forall s | s in m
      ensures Solid(Tab, m[s])
    {
      TokenIsSolid(m[s]);
    }
  }

  lemma RefLineNameLike(l: string)
    requires ParseRef(l).Ref? && SingleToken(ParseRef(l).value)
    ensures NameLike(l)
  {
    RefLineTrim(l);
  }

  lemma MapRefAlike(m: map<string, string>, l: string)
    requires TokenMap(m)
    ensures Alike(l, MapRef(m, l))
  {
    TokenMapIsSolid(m);
    var r := ParseRef(l);
    if r.Ref? && r.value in m {
      MapRefParses(m, l);
      MetaPrefixKept(m, l);
      RefLineNameLike(l);
      RefLineNameLike(MapRef(m, l));
    }
  }

  // ---------------------------------------------------------------- documents line by line

  lemma AlikeBlank(l: string, l': string)
    requires Alike(l, l')
    ensures Blank(l) <==> Blank(l')
  {
    if l != l' {
      NameLikeFacts(l);
      NameLikeFacts(l');
    }
  }

  lemma {:induction false} NextNonBlankAlike(a: seq<string>, b: seq<string>, i: nat)
    requires AllAlike(a, b) && i <= |a|
    ensures NextNonBlank(a, i) == NextNonBlank(b, i)
    decreases |a| - i
  {
    if i < |a| {
      assert Alike(a[i], b[i]);
      AlikeBlank(a[i], b[i]);
      if Blank(a[i]) {
        NextNonBlankAlike(a, b, i + 1);
      }
    }
  }

  /** A `kind:` or `apiVersion:` field keeps its value, unless the value was a name line of some
      other key, before and after. */
  lemma FieldAlike(a: seq<string>, b: seq<string>, i: nat, key: string)
    requires AllAlike(a, b) && i < |a| && (key == KIND || key == API) && HasPrefix(a[i], key)
    ensures HasPrefix(b[i], key)
    ensures FieldValue(a, i, key) == FieldValue(b, i, key)
      || (HasPrefix(FieldValue(a, i, key), NAME) && HasPrefix(FieldValue(b, i, key), NAME))
  {
    hide Trim, Blank;
    assert Alike(a[i], b[i]);
    if NameLike(a[i]) {
      NameLikeFacts(a[i]);
    }
    NextNonBlankAlike(a, b, i + 1);
    var j := NextNonBlank(a, i + 1);
    if j < |a| {
      assert Alike(a[j], b[j]);
    }
  }

  lemma AlikeSym(a: seq<string>, b: seq<string>)
    requires AllAlike(a, b)
    ensures AllAlike(b, a)
  {
    forall i | 0 <= i < |a|
      ensures Alike(b[i], a[i])
    {
      assert Alike(a[i], b[i]);
    }
  }

  lemma KindAlike(a: seq<string>, b: seq<string>)
    requires AllAlike(a, b) && HasField(a, KIND, TEMPLATE)
    ensures HasField(b, KIND, TEMPLATE)
  {
    var i :| 0 <= i < |a| && HasPrefix(a[i], KIND) && FieldValue(a, i, KIND) == TEMPLATE;
    FieldAlike(a, b, i, KIND);
    PrefixChar(TEMPLATE, NAME, 0);
  }

  lemma ApiAlike(a: seq<string>, b: seq<string>)
    requires AllAlike(a, b) && HasFieldPrefix(a, API, INFRA)
    ensures HasFieldPrefix(b, API, INFRA)
  {
    var i :| 0 <= i < |a| && HasPrefix(a[i], API) && HasPrefix(FieldValue(a, i, API), INFRA);
    FieldAlike(a, b, i, API);
    PrefixChar(FieldValue(a, i, API), INFRA, 0);
    PrefixChar(FieldValue(a, i, API), NAME, 0);
  }

  lemma TemplateAlike(a: seq<string>, b: seq<string>)
    requires AllAlike(a, b)
    ensures IsTemplate(a) <==> IsTemplate(b)
  {
    AlikeSym(a, b);
    if IsTemplate(a) {
      KindAlike(a, b);
      ApiAlike(a, b);
    }
    if IsTemplate(b) {
      KindAlike(b, a);
      ApiAlike(b, a);
    }
  }

  lemma {:induction false} SpecLineAlike(a: seq<string>, b: seq<string>, i: nat)
    requires AllAlike(a, b) && i <= |a|
    ensures SpecLine(a, i) == SpecLine(b, i)
    decreases |a| - i
  {
    if i + 1 < |a| {
      assert Alike(a[i], b[i]);
      if a[i] != b[i] {
        NameLikeFacts(a[i]);
        NameLikeFacts(b[i]);
      }
      if a[i] != SPEC {
        SpecLineAlike(a, b, i + 1);
      }
    }
  }

  lemma MapLinesAlike(m: map<string, string>, ls: seq<string>)
    requires TokenMap(m)
    ensures AllAlike(ls, MapLines(m, ls))
  {
    forall i | 0 <= i < |ls|
      ensures Alike(ls[i], MapLines(m, ls)[i])
    {
      MapRefAlike(m, ls[i]);
    }
  }

  // ---------------------------------------------------------------- the rename makes nothing longer

  lemma {:induction false} RenameShortens(ls: seq<string>, i: nat, name: string)
    requires i <= |ls|
    ensures |RenameNames(ls, i, name)| <= |ls| - i
    decreases |ls| - i
  {
    hide NameAt;
    if i < |ls| {
      NameAtNext(ls, i);
      RenameShortens(ls, if NameAt(ls, i).Hit? then NameAt(ls, i).next else i + 1, name);
    }
  }

  lemma NameAtNext(ls: seq<string>, i: nat)
    requires i < |ls|
    ensures NameAt(ls, i).Hit? ==> i < NameAt(ls, i).next <= |ls|
  {}

  // ---------------------------------------------------------------- renaming metadata line by line

  /** A metadata name with its value on the same line. */
  predicate IsMetaName(l: string) {
    HasPrefix(l, META_NAME) && !Blank(l[|META_NAME|..]) && SingleToken(Trim(Regex, l[|META_NAME|..]))
  }

  function MetaName(l: string): string
    requires IsMetaName(l)
  {
    Trim(Regex, l[|META_NAME|..])
  }

  function RenameLine(l: string, name: string): string {
    if IsMetaName(l) then META_NAME + " " + name else l
  }

  function RenameLines(ls: seq<string>, name: string): (r: seq<string>)
    ensures |r| == |ls|
  {
    if ls == [] then [] else [RenameLine(ls[0], name)] + RenameLines(ls[1..], name)
  }

  lemma {:induction false} RenameLinesAt(ls: seq<string>, name: string, i: nat)
    requires i < |ls|
    ensures RenameLines(ls, name)[i] == RenameLine(ls[i], name)
  {
    if i > 0 {
      RenameLinesAt(ls[1..], name, i - 1);
    }
  }

  /** Every `name:` of the metadata has its value on its line and is followed by another metadata
      line that is not white. Manifests that clusterctl generates have this form. */
  ghost predicate TidyLine(doc: seq<string>, s: nat, i: nat)
    requires i < s <= |doc|
  {
    HasPrefix(doc[i], META_NAME) ==>
      !Blank(doc[i][|META_NAME|..]) && i + 1 < s && !Blank(doc[i + 1])
  }

  ghost predicate Tidy(doc: seq<string>, s: nat)
    requires s <= |doc|
  {
    forall i :: 0 <= i < s ==> TidyLine(doc, s, i)
  }

  lemma TidyNameAt(doc: seq<string>, s: nat, i: nat)
    requires i < s <= |doc| && Tidy(doc, s)
    ensures NameAt(Meta(doc, s), i) == if IsMetaName(doc[i]) then Hit(MetaName(doc[i]), i + 1) else Miss
  {
    assert TidyLine(doc, s, i);
    var meta := Meta(doc, s);
    assert meta[i] == doc[i];
    if i + 1 < s {
      assert meta[i + 1] == doc[i + 1];
    }
  }

  lemma LastLineNoName(doc: seq<string>, s: nat)
    requires s <= |doc|
    ensures NameAt(Meta(doc, s), s) == Miss
  {
  }

  lemma NoNameAtEnd(doc: seq<string>, s: nat)
    requires s <= |doc|
    ensures FirstName(Meta(doc, s), s) == Miss
  {
    LastLineNoName(doc, s);
    assert FirstName(Meta(doc, s), s + 1) == Miss;
  }

  /** On tidy metadata the rename touches single lines and nothing else. */
  lemma {:induction false} TidyRename(doc: seq<string>, s: nat, i: nat, name: string)
    requires i <= s <= |doc| && Tidy(doc, s)
    ensures RenameNames(Meta(doc, s), i, name) == RenameLines(doc[i..s], name) + [[]]
    decreases s - i
  {
    hide IsMetaName, NameAt;
    var meta := Meta(doc, s);
    if i == s {
      LastLineNoName(doc, s);
      assert RenameNames(meta, s + 1, name) == [];
    } else {
      TidyNameAt(doc, s, i);
      TidyRename(doc, s, i + 1, name);
      assert doc[i..s][1..] == doc[i + 1..s];
    }
  }

  lemma {:induction false} TidyFirst(doc: seq<string>, s: nat, i: nat, j: nat)
    requires i <= j < s <= |doc| && Tidy(doc, s)
    requires IsMetaName(doc[j]) && forall k :: i <= k < j ==> !IsMetaName(doc[k])
    ensures FirstName(Meta(doc, s), i) == Hit(MetaName(doc[j]), j + 1)
    decreases j - i
  {
    TidyNameAt(doc, s, i);
    if i < j {
      TidyFirst(doc, s, i + 1, j);
    }
  }

  lemma {:induction false} TidyFirstAt(doc: seq<string>, s: nat, i: nat) returns (j: nat)
    requires i <= s <= |doc| && Tidy(doc, s) && FirstName(Meta(doc, s), i).Hit?
    ensures i <= j < s && IsMetaName(doc[j]) && FirstName(Meta(doc, s), i).name == MetaName(doc[j])
    ensures forall k :: i <= k < j ==> !IsMetaName(doc[k])
    decreases s - i
  {
    NoNameAtEnd(doc, s);
    TidyNameAt(doc, s, i);
    if IsMetaName(doc[i]) {
      j := i;
    } else {
      j := TidyFirstAt(doc, s, i + 1);
    }
  }

  // ---------------------------------------------------------------- one renamed line

  lemma MetaSplit(l: string)
    requires HasPrefix(l, META_NAME)
    ensures l == "  " + NAME + l[|META_NAME|..]
  {
    assert META_NAME == "  " + NAME;
    assert l == l[..|META_NAME|] + l[|META_NAME|..];
  }

  lemma IndentIsWhite()
    ensures AllWhite(Tab, "  ") && AllWhite(Regex, "  ")
  {
  }

  /** A reference line at the metadata indent whose value is a token is a metadata name. */
  lemma MetaRef(l: string)
    ensures HasPrefix(l, META_NAME) && ParseRef(l).Ref? && SingleToken(ParseRef(l).value) ==>
      IsMetaName(l) && MetaName(l) == ParseRef(l).value
  {
    if HasPrefix(l, META_NAME) && ParseRef(l).Ref? && SingleToken(ParseRef(l).value) {
      var rest := l[|META_NAME|..];
      MetaSplit(l);
      IndentIsWhite();
      ParseOf("  ", rest);
      RefLineTrim(l);
      assert AfterName(l) == rest;
      LeadFull(Regex, rest);
      TrimEmptyOrSolid(Regex, rest);
    }
  }

  lemma MetaNameLike(l: string)
    requires IsMetaName(l)
    ensures NameLike(l)
  {
    hide Lead, Trail, Trim, Solid;
    var rest := l[|META_NAME|..];
    var v := Trim(Regex, rest);
    MetaSplit(l);
    IndentIsWhite();
    var lead, post := TrimParts(Regex, rest);
    TokenIsSolid(v);
    TrimNamePadded("  ", lead, v, post);
    Regroup("  " + NAME, Padded(lead, v, post));
    NameThen(lead + v);
    assert NAME + lead + v == NAME + (lead + v);
  }

  lemma NameThen(r: string)
    requires r != ""
    ensures HasPrefix(NAME + r, NAME) && |NAME + r| > |NAME|
  {
  }

  lemma NewLineIsMeta(name: string)
    requires SingleToken(name)
    ensures IsMetaName(META_NAME + " " + name) && MetaName(META_NAME + " " + name) == name
  {
    var l := META_NAME + " " + name;
    var rest := l[|META_NAME|..];
    assert rest == " " + name + "";
    TokenIsSolid(name);
    TrimPadded(Regex, " ", name, "");
    LeadFull(Regex, rest);
    assert rest[1] == name[0];
  }

  lemma RenameLineAlike(l: string, name: string)
    requires SingleToken(name)
    ensures Alike(l, RenameLine(l, name))
  {
    if IsMetaName(l) {
      NewLineIsMeta(name);
      MetaNameLike(l);
      MetaNameLike(META_NAME + " " + name);
    }
  }

  /** A name line as the patch writes it is matched, and its name is read. */
  lemma NameAtLine(ls: seq<string>, i: nat, name: string)
    requires i < |ls| && ls[i] == META_NAME + " " + name && SingleToken(name)
    ensures NameAt(ls, i) == Hit(name, NextNonBlank(ls, i + 1))
  {
    hide NextNonBlank, Trim, Blank;
    NewLineIsMeta(name);
  }

  lemma NewLineParses(name: string)
    requires SingleToken(name)
    ensures ParseRef(META_NAME + " " + name) == Ref(META_NAME + " ", name, "")
  {
    TokenIsSolid(name);
    IndentIsWhite();
    PaddingOf(" ", name, "");
    ParseOf("  ", " " + name + "");
    assert META_NAME + " " + name == "  " + NAME + (" " + name + "");
    assert META_NAME + " " == "  " + NAME + " ";
  }

  /** A line that is no metadata name does not become one. */
  lemma NotMetaKept(m: map<string, string>, l: string)
    requires TokenMap(m) && !IsMetaName(l)
    ensures !IsMetaName(MapRef(m, l))
  {
    MetaRef(l);
    MetaPrefixKept(m, l);
  }

  /** Tidiness survives: the rest of a renamed line is not white. */
  lemma NameLikeRest(l: string)
    requires NameLike(l) && HasPrefix(l, META_NAME)
    ensures !Blank(l[|META_NAME|..])
  {
    var rest := l[|META_NAME|..];
    if Blank(rest) {
      MetaSplit(l);
      LeadFull(Regex, rest);
      IndentIsWhite();
      TrimPadded(Regex, "  ", NAME, rest);
    }
  }

  lemma TidyAlike(a: seq<string>, b: seq<string>, s: nat)
    requires AllAlike(a, b) && s <= |a| && Tidy(a, s)
    ensures Tidy(b, s)
  {
    forall i | 0 <= i < s
      ensures TidyLine(b, s, i)
    {
      assert TidyLine(a, s, i) && Alike(a[i], b[i]);
      if HasPrefix(b[i], META_NAME) {
        assert i + 1 < s && Alike(a[i + 1], b[i + 1]);
        AlikeBlank(a[i + 1], b[i + 1]);
        if a[i] != b[i] {
          NameLikeRest(b[i]);
        }
      }
    }
  }

  lemma AlikeTrans(a: seq<string>, b: seq<string>, c: seq<string>)
    requires AllAlike(a, b) && AllAlike(b, c)
    ensures AllAlike(a, c)
  {
    forall i | 0 <= i < |a|
      ensures Alike(a[i], c[i])
    {
      assert Alike(a[i], b[i]) && Alike(b[i], c[i]);
    }
  }
}
