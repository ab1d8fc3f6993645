/** Content-addressed names for machine templates (internal/capi/manifest/patches.go).

    Every ProxmoxMachineTemplate document is renamed to `<stem>-t<first 8 hex digits of the hash
    of its spec>`, and every `name: <stem>` line of the manifest follows. The hash is a parameter;
    all that is known of it is that it yields eight lower-case hex digits. */
module TemplateRevision {
  import opened Text

  type Hash = seq<string> -> string

  const NAME := "name:"
  const META_NAME := "  name:"
  const KIND := "kind:"
  const API := "apiVersion:"
  const TEMPLATE := "ProxmoxMachineTemplate"
  const INFRA := "infrastructure.cluster.x-k8s.io/"
  const SPEC := "spec:"

  // ---------------------------------------------------------------- reference lines

  datatype Padded = Padded(lead: string, value: string, post: string)

  /** The groups of `([ \t]*)value([ \t]*)$`; a value that is empty leaves all blanks to the first. */
  function SplitPadding(rest: string): Padded {
    var t := Trail(Tab, rest);
    var l := Lead(Tab, rest[..t]);
    if t == 0 then Padded(rest, [], []) else Padded(rest[..l], rest[l..t], rest[t..])
  }

  datatype Ref = NoRef | Ref(pre: string, value: string, post: string)

  /** The groups of `^([ \t]*name:[ \t]*)value([ \t]*)$`. */
  function ParseRef(line: string): Ref {
    var n := Lead(Tab, line);
    if !HasPrefix(line[n..], NAME) then NoRef
    else
      var p := SplitPadding(line[n + |NAME|..]);
      Ref(line[..n] + NAME + p.lead, p.value, p.post)
  }

  /** The substitution of all keys of `m` at once, on one line. */
  function MapRef(m: map<string, string>, line: string): string {
    var r := ParseRef(line);
    if r.Ref? && r.value in m then r.pre + m[r.value] + r.post else line
  }

  function MapLines(m: map<string, string>, ls: seq<string>): (r: seq<string>)
    ensures |r| == |ls| && forall i :: 0 <= i < |ls| ==> r[i] == MapRef(m, ls[i])
  {
    seq(|ls|, i requires 0 <= i < |ls| => MapRef(m, ls[i]))
  }

  // ---------------------------------------------------------------- names

  predicate IsHex(c: char) { '0' <= c <= '9' || 'a' <= c <= 'f' }

  predicate IsDigest(h: string) { |h| == 8 && forall i :: 0 <= i < 8 ==> IsHex(h[i]) }

  ghost predicate HexDigest(hash: Hash) { forall b :: IsDigest(hash(b)) }

  predicate Suffixed(name: string) {
    && |name| >= 10
    && name[|name| - 10] == '-' && name[|name| - 9] == 't'
    && IsDigest(name[|name| - 8..])
  }

  function StemOf(name: string): string {
    if Suffixed(name) then name[..|name| - 10] else name
  }

  function WithSuffix(stem: string, digest: string): string { stem + "-t" + digest }

  // ---------------------------------------------------------------- the metadata name

  datatype Match = Miss | Hit(name: string, next: nat)

  /** `^  name:\s*(\S+)\s*$` at line `i`. The trailing `\s*` is greedy and also takes the white
      lines that follow; `next` is the first line it leaves. */
  function NameAt(ls: seq<string>, i: nat): Match
    requires i < |ls|
  {
    if !HasPrefix(ls[i], META_NAME) then Miss
    else
      var v := FieldValue(ls, i, META_NAME);
      if !SingleToken(v) then Miss
      else if !Blank(ls[i][|META_NAME|..]) then Hit(v, NextNonBlank(ls, i + 1))
      else
        var j := NextNonBlank(ls, i + 1);
        if j < |ls| then Hit(v, NextNonBlank(ls, j + 1)) else Miss
  }

  function FirstName(ls: seq<string>, i: nat): Match
    requires i <= |ls|
    decreases |ls| - i
  {
    if i == |ls| then Miss
    else if NameAt(ls, i).Hit? then NameAt(ls, i)
    else FirstName(ls, i + 1)
  }

  /** ReplaceAllString with the metadata name pattern, from line `i` on. */
  function RenameNames(ls: seq<string>, i: nat, name: string): (r: seq<string>)
    requires i <= |ls|
    ensures i < |ls| ==> r != []
    decreases |ls| - i
  {
    if i == |ls| then []
    else
      var m := NameAt(ls, i);
      if m.Hit? then [META_NAME + " " + name] + RenameNames(ls, m.next, name)
      else [ls[i]] + RenameNames(ls, i + 1, name)
  }

  // ---------------------------------------------------------------- one document

  predicate IsTemplate(doc: seq<string>) {
    HasField(doc, KIND, TEMPLATE) && HasFieldPrefix(doc, API, INFRA)
  }

  /** The first line that is `spec:` and ends in a newline, or |doc|. */
  function SpecLine(doc: seq<string>, i: nat): (s: nat)
    requires i <= |doc|
    ensures i <= s <= |doc|
    ensures s < |doc| ==> s < |doc| - 1 && doc[s] == SPEC
    ensures forall j :: i <= j < s && j < |doc| - 1 ==> doc[j] != SPEC
    decreases |doc| - i
  {
    if i + 1 >= |doc| then |doc|
    else if doc[i] == SPEC then i
    else SpecLine(doc, i + 1)
  }

  /** The metadata part of a document as a text of its own: everything before the `spec:` line. */
  function Meta(doc: seq<string>, s: nat): seq<string>
    requires s <= |doc|
  {
    doc[..s] + [[]]
  }

  datatype Revision = Other | Revision(stem: string, readName: string, newName: string, spec: nat)

  /** What the patch reads off one document: `Other` for a document that it copies. */
  function Read(hash: Hash, doc: seq<string>): (r: Revision)
    ensures r.Revision? ==> r.spec == SpecLine(doc, 0) < |doc|
  {
    var s := SpecLine(doc, 0);
    if !IsTemplate(doc) || s == |doc| then Other
    else
      var m := FirstName(Meta(doc, s), 0);
      if m.Miss? then Other
      else
        var stem := StemOf(m.name);
        Revision(stem, m.name, WithSuffix(stem, hash(doc[s..])), s)
  }

  function Revise(hash: Hash, doc: seq<string>): seq<string> {
    var r := Read(hash, doc);
    if r.Other? || r.readName == r.newName then doc
    else Cat(RenameNames(Meta(doc, r.spec), 0, r.newName), doc[r.spec..])
  }

  // ---------------------------------------------------------------- the whole manifest

  /** Documents as the patch sees them: trimmed, with one final newline, the empty ones dropped. */
  function Parse(parts: seq<seq<string>>): (docs: seq<seq<string>>)
    ensures |docs| <= |parts|
  {
    if parts == [] then []
    else
      var rest := Parse(parts[..|parts| - 1]);
      var t := TrimText(parts[|parts| - 1]);
      if t == [] then rest else rest + [t + [[]]]
  }

  function ReadAll(hash: Hash, docs: seq<seq<string>>): (r: seq<Revision>)
    ensures |r| == |docs|
  {
    if docs == [] then [] else ReadAll(hash, docs[..|docs| - 1]) + [Read(hash, docs[|docs| - 1])]
  }

  /** Stem to new name; the last document with a stem wins. */
  function Entries(revs: seq<Revision>): map<string, string> {
    if revs == [] then map[]
    else
      var r := revs[|revs| - 1];
      var m := Entries(revs[..|revs| - 1]);
      if r.Other? then m else m[r.stem := r.newName]
  }

  function RefMap(hash: Hash, docs: seq<seq<string>>): map<string, string> {
    Entries(ReadAll(hash, docs))
  }

  function ReviseAll(hash: Hash, docs: seq<seq<string>>): (r: seq<seq<string>>)
    ensures |r| == |docs|
  {
    if docs == [] then [] else ReviseAll(hash, docs[..|docs| - 1]) + [Revise(hash, docs[|docs| - 1])]
  }

  lemma {:induction false} AllAt(hash: Hash, docs: seq<seq<string>>, k: nat)
    requires k < |docs|
    ensures ReadAll(hash, docs)[k] == Read(hash, docs[k])
    ensures ReviseAll(hash, docs)[k] == Revise(hash, docs[k])
  {
    if k < |docs| - 1 {
      AllAt(hash, docs[..|docs| - 1], k);
    }
  }

  function MapDocs(m: map<string, string>, docs: seq<seq<string>>): (r: seq<seq<string>>)
    ensures |r| == |docs| && forall k :: 0 <= k < |docs| ==> r[k] == MapLines(m, docs[k])
  {
    seq(|docs|, k requires 0 <= k < |docs| => MapLines(m, docs[k]))
  }

  /** The documents after the patch. */
  function PatchDocs(hash: Hash, docs: seq<seq<string>>): (r: seq<seq<string>>)
    ensures |r| == |docs|
  {
    MapDocs(RefMap(hash, docs), ReviseAll(hash, docs))
  }

  function JoinOrEmpty(docs: seq<seq<string>>): seq<string> {
    if docs == [] then [[]] else JoinDocs(docs)
  }

  /** The specification of the patch: rename every template, and substitute all stems at once. */
  function Patch(hash: Hash, text: seq<string>): seq<string>
    requires text != []
  {
    JoinOrEmpty(PatchDocs(hash, Parse(SplitDocs(text))))
  }

  // ---------------------------------------------------------------- reference lines: laws

  lemma PaddingParts(rest: string)
    ensures var p := SplitPadding(rest);
      && rest == p.lead + p.value + p.post
      && AllWhite(Tab, p.lead) && AllWhite(Tab, p.post)
      && (p.value != [] ==> Solid(Tab, p.value))
  {
    hide Lead, Trail;
    var t := Trail(Tab, rest);
    if t == 0 {
      assert rest[0..] == rest;
    } else {
      var r := rest[..t];
      var l := Lead(Tab, r);
      LeadFull(Tab, r);
      assert !White(Tab, r[t - 1]);
      assert r == r[..l] + r[l..] && rest == r + rest[t..];
      assert r[..l] == rest[..l] && r[l..] == rest[l..t];
    }
  }

  lemma PaddingOf(lead: string, value: string, post: string)
    requires AllWhite(Tab, lead) && AllWhite(Tab, post) && Solid(Tab, value)
    ensures SplitPadding(lead + value + post) == Padded(lead, value, post)
  {
    var rest := lead + value + post;
    TrimPadded(Tab, lead, value, post);
    LeadIs(Tab, lead, value);
    PaddingSlices(lead, value, post);
  }

  lemma PaddingSlices(lead: string, value: string, post: string)
    ensures var rest := lead + value + post;
      var t := |lead + value|;
      rest[..t] == lead + value && rest[..|lead|] == lead && rest[|lead|..t] == value && rest[t..] == post
  {
  }

  lemma CutAtName(line: string, n: nat)
    requires n <= |line| && HasPrefix(line[n..], NAME)
    ensures n + |NAME| <= |line| && line == line[..n] + NAME + line[n + |NAME|..]
  {
  }

  lemma RefParts(line: string)
    ensures var r := ParseRef(line); r.Ref? ==>
      && line == r.pre + r.value + r.post
      && (r.value != [] ==> Solid(Tab, r.value))
      && AllWhite(Tab, r.post)
  {
    var n := Lead(Tab, line);
    if HasPrefix(line[n..], NAME) {
      CutAtName(line, n);
      PaddingParts(line[n + |NAME|..]);
      Regroup(line[..n] + NAME, SplitPadding(line[n + |NAME|..]));
    }
  }

  lemma Regroup(a: string, p: Padded)
    ensures a + (p.lead + p.value + p.post) == (a + p.lead) + p.value + p.post
  {
  }

  lemma ParseOf(indent: string, rest: string)
    requires AllWhite(Tab, indent)
    ensures var line := indent + NAME + rest;
      var p := SplitPadding(rest);
      Lead(Tab, line) == |indent| && ParseRef(line) == Ref(indent + NAME + p.lead, p.value, p.post)
  {
    var line := indent + NAME + rest;
    var tail := NAME + rest;
    assert line == indent + tail && tail[0] == 'n';
    LeadIs(Tab, indent, tail);
    assert line[|indent|..] == tail && tail[..|NAME|] == NAME;
    assert line[|indent| + |NAME|..] == rest;
    assert line[..|indent|] == indent;
  }

  /** All replacement values start and end with a character that is not white. */
  ghost predicate SolidValues(m: map<string, string>) {
    forall s :: s in m ==> Solid(Tab, m[s])
  }

  /** A substituted line is still a reference line, with the same surroundings. */
  lemma MapRefParses(m: map<string, string>, line: string)
    requires SolidValues(m)
    ensures var r := ParseRef(line);
      if r.NoRef? then MapRef(m, line) == line
      else ParseRef(MapRef(m, line)) == r.(value := if r.value in m then m[r.value] else r.value)
    ensures Lead(Tab, MapRef(m, line)) == Lead(Tab, line)
  {
    var r := ParseRef(line);
    if r.Ref? && r.value in m {
      var n := Lead(Tab, line);
      PaddingParts(line[n + |NAME|..]);
      NewValueParses(line[..n], SplitPadding(line[n + |NAME|..]), m[r.value]);
    }
  }

  lemma NewValueParses(indent: string, p: Padded, v: string)
    requires AllWhite(Tab, indent) && AllWhite(Tab, p.lead) && AllWhite(Tab, p.post) && Solid(Tab, v)
    ensures var line := indent + NAME + p.lead + v + p.post;
      Lead(Tab, line) == |indent| && ParseRef(line) == Ref(indent + NAME + p.lead, v, p.post)
  {
    PaddingOf(p.lead, v, p.post);
    ParseOf(indent, p.lead + v + p.post);
    Regroup(indent + NAME, p.(value := v));
  }

  // ---------------------------------------------------------------- one stem after another

  function Only(m: map<string, string>, stems: seq<string>): map<string, string> {
    map s | s in stems && s in m :: m[s]
  }

  /** The new names are longer than their stems. */
  ghost predicate Lengthening(m: map<string, string>) {
    forall s :: s in m ==> |m[s]| > |s|
  }

  ghost predicate LongestFirst(stems: seq<string>) {
    forall i, j :: 0 <= i < j < |stems| ==> |stems[i]| >= |stems[j]|
  }

  /** One more pass after the passes for `stems[..k]`: a line that an earlier pass rewrote is left
      alone, because its value is now longer than every stem still to come. */
  lemma NextPass(m: map<string, string>, stems: seq<string>, k: nat, line: string)
    requires k < |stems| && LongestFirst(stems) && stems[k] !in stems[..k]
    requires forall s :: s in stems ==> s in m
    requires SolidValues(m) && Lengthening(m)
    ensures MapRef(map[stems[k] := m[stems[k]]], MapRef(Only(m, stems[..k]), line))
      == MapRef(Only(m, stems[..k + 1]), line)
  {
    hide MapRef, ParseRef, Only, Lead;
    var before, after, next := Only(m, stems[..k]), Only(m, stems[..k + 1]), map[stems[k] := m[stems[k]]];
    OnlyNext(m, stems, k);
    var r := ParseRef(line);
    if r.NoRef? {
      MapMiss(before, line);
      MapMiss(next, line);
      MapMiss(after, line);
    } else if r.value in before {
      LaterStem(m, stems, k, r.value);
      MapRefParses(before, line);
      MapMiss(next, MapRef(before, line));
      MapAgree(before, after, line);
    } else {
      MapMiss(before, line);
      MapAgree(next, after, line);
    }
  }

  /** A substitution depends on the value of the line only. */
  lemma MapAgree(m: map<string, string>, m': map<string, string>, line: string)
    requires ParseRef(line).Ref?
    requires var v := ParseRef(line).value; (v in m <==> v in m') && (v in m ==> m[v] == m'[v])
    ensures MapRef(m, line) == MapRef(m', line)
  {
    hide ParseRef;
  }

  lemma MapMiss(m: map<string, string>, line: string)
    requires ParseRef(line).Ref? ==> ParseRef(line).value !in m
    ensures MapRef(m, line) == line
  {
    hide ParseRef;
  }

  lemma OnlyNext(m: map<string, string>, stems: seq<string>, k: nat)
    requires k < |stems| && stems[k] in m
    ensures Only(m, stems[..k + 1]) == Only(m, stems[..k])[stems[k] := m[stems[k]]]
    ensures forall s :: s in Only(m, stems[..k]) ==> Only(m, stems[..k])[s] == m[s] && s in stems[..k]
  {
    assert stems[..k + 1] == stems[..k] + [stems[k]];
  }

  /** The new name of an earlier stem is not the next stem. */
  lemma LaterStem(m: map<string, string>, stems: seq<string>, k: nat, s: string)
    requires k < |stems| && LongestFirst(stems) && stems[k] !in stems[..k]
    requires Lengthening(m) && s in m && s in stems[..k]
    ensures m[s] != stems[k] && s != stems[k]
  {
    var i :| 0 <= i < k && stems[..k][i] == s;
    assert |stems[i]| >= |stems[k]|;
  }

  lemma NextPassLines(m: map<string, string>, stems: seq<string>, k: nat, ls: seq<string>)
    requires k < |stems| && LongestFirst(stems) && stems[k] !in stems[..k]
    requires forall s :: s in stems ==> s in m
    requires SolidValues(m) && Lengthening(m)
    ensures MapLines(map[stems[k] := m[stems[k]]], MapLines(Only(m, stems[..k]), ls))
      == MapLines(Only(m, stems[..k + 1]), ls)
  {
    forall i | 0 <= i < |ls|
      ensures MapRef(map[stems[k] := m[stems[k]]], MapRef(Only(m, stems[..k]), ls[i]))
        == MapRef(Only(m, stems[..k + 1]), ls[i])
    {
      NextPass(m, stems, k, ls[i]);
    }
  }

  lemma MapNothing(ls: seq<string>)
    ensures MapLines(map[], ls) == ls
  {
  }

  lemma SeparatorIsNoRef(m: map<string, string>)
    ensures MapRef(m, SEPARATOR) == SEPARATOR
  {
    assert Lead(Tab, SEPARATOR) == 0;
  }

  lemma MapCat(m: map<string, string>, a: seq<string>, b: seq<string>)
    ensures MapLines(m, a + b) == MapLines(m, a) + MapLines(m, b)
  {
  }

  /** Substituting in the joined text is substituting in every document. */
  lemma {:induction false} MapJoined(m: map<string, string>, docs: seq<seq<string>>)
    requires docs != []
    ensures MapLines(m, JoinDocs(docs)) == JoinDocs(MapDocs(m, docs))
  {
    var mapped := MapDocs(m, docs);
    if |docs| > 1 {
      MapJoined(m, docs[1..]);
      assert mapped[1..] == MapDocs(m, docs[1..]);
      SeparatorIsNoRef(m);
      assert MapLines(m, [SEPARATOR]) == [SEPARATOR];
      MapCat(m, docs[0] + [SEPARATOR], JoinDocs(docs[1..]));
      MapCat(m, docs[0], [SEPARATOR]);
    }
  }

  // ---------------------------------------------------------------- stems and new names

  lemma StemOfNew(stem: string, digest: string)
    requires IsDigest(digest)
    ensures var name := WithSuffix(stem, digest);
      && Suffixed(name) && StemOf(name) == stem && |name| == |stem| + 10
      && (stem != [] && !White(Tab, stem[0]) ==> Solid(Tab, name))
      && (stem == [] ==> Solid(Tab, name))
  {
    var name := WithSuffix(stem, digest);
    assert name[..|stem|] == stem;
    assert name[|stem| + 2..] == digest;
    assert IsHex(digest[7]);
    assert name[|name| - 1] == digest[7];
  }

  lemma {:induction false} FirstNameIsToken(ls: seq<string>, i: nat)
    requires i <= |ls|
    ensures FirstName(ls, i).Hit? ==> SingleToken(FirstName(ls, i).name)
    decreases |ls| - i
  {
    if i < |ls| && NameAt(ls, i).Miss? {
      FirstNameIsToken(ls, i + 1);
    }
  }

  lemma ReadNames(hash: Hash, doc: seq<string>)
    requires HexDigest(hash)
    ensures var r := Read(hash, doc); r.Revision? ==>
      && SingleToken(r.readName)
      && r.stem == StemOf(r.readName)
      && r.newName == WithSuffix(r.stem, hash(doc[r.spec..]))
      && Suffixed(r.newName) && StemOf(r.newName) == r.stem
      && |r.newName| == |r.stem| + 10 && Solid(Tab, r.newName)
      && SingleToken(r.newName)
  {
    var r := Read(hash, doc);
    if r.Revision? {
      FirstNameIsToken(Meta(doc, r.spec), 0);
      assert IsDigest(hash(doc[r.spec..]));
      StemOfNew(r.stem, hash(doc[r.spec..]));
      NewNameIsToken(r.stem, r.readName, hash(doc[r.spec..]));
    }
  }

  lemma NewNameIsToken(stem: string, readName: string, digest: string)
    requires SingleToken(readName) && stem == StemOf(readName) && IsDigest(digest)
    ensures SingleToken(WithSuffix(stem, digest))
    ensures stem != [] ==> !White(Tab, stem[0])
  {
    var name := WithSuffix(stem, digest);
    assert forall i :: 0 <= i < |stem| ==> name[i] == readName[i];
    assert forall i :: 0 <= i < 8 ==> name[|stem| + 2 + i] == digest[i];
    forall i | 0 <= i < |name|
      ensures !White(Regex, name[i])
    {
      if i >= |stem| + 2 {
        assert IsHex(digest[i - |stem| - 2]);
      }
    }
  }

  lemma {:induction false} EntriesNames(revs: seq<Revision>)
    requires forall k :: 0 <= k < |revs| && revs[k].Revision? ==>
      Solid(Tab, revs[k].newName) && |revs[k].newName| > |revs[k].stem|
    ensures SolidValues(Entries(revs)) && Lengthening(Entries(revs))
  {
    if revs != [] {
      EntriesNames(revs[..|revs| - 1]);
    }
  }

  lemma RefMapNames(hash: Hash, docs: seq<seq<string>>)
    requires HexDigest(hash)
    ensures var m := RefMap(hash, docs); SolidValues(m) && Lengthening(m)
  {
    var revs := ReadAll(hash, docs);
    forall k | 0 <= k < |revs| && revs[k].Revision?
      ensures Solid(Tab, revs[k].newName) && |revs[k].newName| > |revs[k].stem|
    {
      AllAt(hash, docs, k);
      ReadNames(hash, docs[k]);
    }
    EntriesNames(revs);
  }

  // ---------------------------------------------------------------- the patch itself

  lemma {:induction false} LongestExists(keys: set<string>)
    requires keys != {}
    ensures exists s :: s in keys && forall t :: t in keys ==> |t| <= |s|
  {
    var s :| s in keys;
    var rest := keys - {s};
    if rest != {} {
      LongestExists(rest);
      var l :| l in rest && forall t :: t in rest ==> |t| <= |l|;
      assert forall t :: t in keys ==> t == s || t in rest;
      if |s| <= |l| {
        assert forall t :: t in keys ==> |t| <= |l|;
      } else {
        assert forall t :: t in keys ==> |t| <= |s|;
      }
    } else {
      assert keys == {s};
    }
  }

  /** sort.Slice by descending length over the keys of a map: any order that is longest first,
      whichever way the sort places keys of one length. */
  method SortLongestFirst(keys: set<string>) returns (stems: seq<string>)
    ensures LongestFirst(stems)
    ensures forall i, j :: 0 <= i < j < |stems| ==> stems[i] != stems[j]
    ensures forall s :: s in stems <==> s in keys
  {
    stems := [];
    var rest := keys;
    while rest != {}
      invariant Picked(keys, stems, rest)
      decreases rest
    {
      LongestExists(rest);
      var s :| s in rest && forall t :: t in rest ==> |t| <= |s|;
      PickNext(keys, stems, rest, s);
      hide Picked;
      stems := stems + [s];
      rest := rest - {s};
    }
  }

  /** The longest keys are picked, in order, and these are left. */
  ghost predicate Picked(keys: set<string>, stems: seq<string>, rest: set<string>) {
    && LongestFirst(stems)
    && (forall i, j :: 0 <= i < j < |stems| ==> stems[i] != stems[j])
    && (forall s :: s in keys <==> s in stems || s in rest)
    && (forall i, s :: 0 <= i < |stems| && s in rest ==> stems[i] != s && |stems[i]| >= |s|)
  }

  lemma PickNext(keys: set<string>, stems: seq<string>, rest: set<string>, s: string)
    requires Picked(keys, stems, rest) && s in rest && forall t :: t in rest ==> |t| <= |s|
    ensures Picked(keys, stems + [s], rest - {s})
  {
  }

  method TrimmedDocs(text: seq<string>) returns (docs: seq<seq<string>>)
    requires text != []
    ensures docs == Parse(SplitDocs(text))
  {
    var pieces := SplitDocs(text);
    docs := [];
    for i := 0 to |pieces|
      invariant docs == Parse(pieces[..i])
    {
      assert pieces[..i + 1][..i] == pieces[..i];
      var t := TrimText(pieces[i]);
      if t != [] {
        docs := docs + [t + [[]]];
      }
    }
    assert pieces[..|pieces|] == pieces;
  }

  method RenameTemplates(hash: Hash, docs: seq<seq<string>>)
    returns (newParts: seq<seq<string>>, refMap: map<string, string>)
    ensures newParts == ReviseAll(hash, docs) && refMap == RefMap(hash, docs)
  {
    newParts, refMap := [], map[];
    for i := 0 to |docs|
      invariant newParts == ReviseAll(hash, docs[..i]) && refMap == RefMap(hash, docs[..i])
    {
      assert docs[..i + 1][..i] == docs[..i];
      var newDoc, r := RenameTemplate(hash, docs[i]);
      newParts := newParts + [newDoc];
      if r.Revision? {
        refMap := refMap[r.stem := r.newName];
      }
      RefMapNext(hash, docs[..i + 1], r);
    }
    assert docs[..|docs|] == docs;
  }

  lemma RefMapNext(hash: Hash, docs: seq<seq<string>>, r: Revision)
    requires docs != [] && r == Read(hash, docs[|docs| - 1])
    ensures RefMap(hash, docs)
      == if r.Other? then RefMap(hash, docs[..|docs| - 1]) else RefMap(hash, docs[..|docs| - 1])[r.stem := r.newName]
  {
    var before := ReadAll(hash, docs[..|docs| - 1]);
    assert (before + [r])[..|before|] == before;
  }

  method RenameTemplate(hash: Hash, doc: seq<string>) returns (newDoc: seq<string>, r: Revision)
    ensures newDoc == Revise(hash, doc) && r == Read(hash, doc)
  {
    r := Read(hash, doc);
    if r.Other? || r.readName == r.newName {
      newDoc := doc;
    } else {
      newDoc := Cat(RenameNames(Meta(doc, r.spec), 0, r.newName), doc[r.spec..]);
    }
  }

  /** The reference passes, stem by stem, longest first. Whatever order the stems of one length
      come in, the result is that of one simultaneous substitution. */
  method RewriteReferences(refMap: map<string, string>, joined: seq<string>) returns (out: seq<string>)
    requires SolidValues(refMap) && Lengthening(refMap)
    ensures out == MapLines(refMap, joined)
  {
    var stems := SortLongestFirst(refMap.Keys);
    out := joined;
    MapNothing(joined);
    assert Only(refMap, stems[..0]) == map[];
    for k := 0 to |stems|
      invariant out == MapLines(Only(refMap, stems[..k]), joined)
    {
      var stem := stems[k];
      NextPassLines(refMap, stems, k, joined);
      if stem != refMap[stem] {
        out := MapLines(map[stem := refMap[stem]], out);
      }
    }
    assert Only(refMap, stems[..|stems|]) == refMap;
  }

  /** PatchProxmoxMachineTemplateSpecRevisions: rename each template document, then rewrite the
      references in the joined text. */
  method PatchSpecRevisions(enabled: bool, hash: Hash, text: seq<string>) returns (out: seq<string>)
    requires text != [] && HexDigest(hash)
    ensures out == if enabled then Patch(hash, text) else text
  {
    if !enabled {
      return text;
    }
    var docs := TrimmedDocs(text);
    var newParts, refMap := RenameTemplates(hash, docs);
    RefMapNames(hash, docs);
    out := RewriteReferences(refMap, JoinOrEmpty(newParts));
    if docs == [] {
      MapNothing([[]]);
    } else {
      MapJoined(refMap, newParts);
    }
  }
}
