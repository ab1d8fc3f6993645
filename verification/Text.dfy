/** Manifest text.

    A text is kept as the list of its lines, that is, the bytes split at every newline: a text
    always has at least one line, and a text that ends in a newline has an empty last line.
    `Unlines` gives the bytes back. The regular expressions of the patches are anchored at line
    starts, so each one is a function on lines; where a `\s` of an expression can run over a
    newline, the function looks at the following lines as well. */
module Text {

  // ---------------------------------------------------------------- lower case

  /** strings.ToLower, as far as the result is an ASCII letter: the capital I with a dot and the
      Kelvin sign have ASCII lower-case forms. Other letters beyond ASCII are kept as they are. */
  function LowerChar(c: char): char {
    if 'A' <= c <= 'Z' then c - 'A' + 'a'
    else if c == '\U{130}' then 'i'
    else if c == '\U{212A}' then 'k'
    else c
  }

  function Lower(s: string): (r: string)
    ensures |r| == |s|
  {
    if s == "" then "" else [LowerChar(s[0])] + Lower(s[1..])
  }

  // ---------------------------------------------------------------- white space

  /** The three white-space classes the patches use: `[ \t]`, the `\s` of a regular expression,
      and the Unicode spaces that strings.TrimSpace removes. */
  datatype Class = Tab | Regex | Unicode

  predicate White(k: Class, c: char) {
    match k
    case Tab => c == ' ' || c == '\t'
    case Regex => c == ' ' || c == '\t' || c == '\n' || c == '\r' || c == '\U{0C}'
    case Unicode =>
      || c == ' ' || ('\t' <= c <= '\r') || c == '\U{85}' || c == '\U{A0}' || c == '\U{1680}'
      || ('\U{2000}' <= c <= '\U{200A}') || c == '\U{2028}' || c == '\U{2029}'
      || c == '\U{202F}' || c == '\U{205F}' || c == '\U{3000}'
  }

  ghost predicate AllWhite(k: Class, s: string) {
    forall i :: 0 <= i < |s| ==> White(k, s[i])
  }

  ghost predicate NoWhite(k: Class, s: string) {
    forall i :: 0 <= i < |s| ==> !White(k, s[i])
  }

  /** The number of white characters `s` starts with. */
  function Lead(k: Class, s: string): (n: nat)
    ensures n <= |s| && AllWhite(k, s[..n])
    ensures n < |s| ==> !White(k, s[n])
  {
    if s == [] || !White(k, s[0]) then 0
    else
      assert s[..1 + Lead(k, s[1..])] == [s[0]] + s[1..][..Lead(k, s[1..])];
      1 + Lead(k, s[1..])
  }

  /** The length of `s` without the white characters it ends with. */
  function Trail(k: Class, s: string): (n: nat)
    ensures n <= |s| && AllWhite(k, s[n..])
    ensures n > 0 ==> !White(k, s[n - 1])
  {
    if s == [] || !White(k, s[|s| - 1]) then |s|
    else
      var m := Trail(k, s[..|s| - 1]);
      assert s[m..] == s[..|s| - 1][m..] + [s[|s| - 1]];
      m
  }

  function TrimLeft(k: Class, s: string): string { s[Lead(k, s)..] }

  function TrimRight(k: Class, s: string): string { s[..Trail(k, s)] }

  function Trim(k: Class, s: string): string { TrimLeft(k, TrimRight(k, s)) }

  /** `s` has an end that trimming cannot touch: it is not empty and neither starts nor ends
      with a white character. */
  ghost predicate Solid(k: Class, s: string) {
    s != [] && !White(k, s[0]) && !White(k, s[|s| - 1])
  }

  predicate Blank(s: string) { Lead(Regex, s) == |s| }

  lemma {:induction false} LeadIs(k: Class, a: string, b: string)
    requires AllWhite(k, a) && (b == [] || !White(k, b[0]))
    ensures Lead(k, a + b) == |a|
  {
    if a == [] {
      assert a + b == b;
    } else {
      LeadIs(k, a[1..], b);
      assert (a + b)[1..] == a[1..] + b;
      assert White(k, a[0]);
    }
  }

  lemma {:induction false} TrailIs(k: Class, a: string, b: string)
    requires AllWhite(k, b) && (a == [] || !White(k, a[|a| - 1]))
    ensures Trail(k, a + b) == |a|
  {
    if b == [] {
      assert a + b == a;
    } else {
      TrailIs(k, a, b[..|b| - 1]);
      assert (a + b)[..|a + b| - 1] == a + b[..|b| - 1];
      assert White(k, b[|b| - 1]);
    }
  }

  /** Trimming finds the solid middle of a padded string. */
  lemma TrimPadded(k: Class, a: string, m: string, b: string)
    requires AllWhite(k, a) && AllWhite(k, b) && Solid(k, m)
    ensures Trim(k, a + m + b) == m
    ensures Lead(k, a + m + b) == |a| && Trail(k, a + m + b) == |a + m|
  {
    TrailPadded(k, a, m, b);
    LeadPadded(k, a, m, b);
    LeadIs(k, a, m);
    TrimSlices(k, a, m, b);
  }

  lemma TrailPadded(k: Class, a: string, m: string, b: string)
    requires AllWhite(k, b) && Solid(k, m)
    ensures Trail(k, a + m + b) == |a + m|
  {
    assert (a + m)[|a + m| - 1] == m[|m| - 1];
    TrailIs(k, a + m, b);
  }

  lemma LeadPadded(k: Class, a: string, m: string, b: string)
    requires AllWhite(k, a) && Solid(k, m)
    ensures Lead(k, a + m + b) == |a|
  {
    assert a + m + b == a + (m + b);
    LeadIs(k, a, m + b);
  }

  lemma TrimSlices(k: Class, a: string, m: string, b: string)
    requires Trail(k, a + m + b) == |a + m| && Lead(k, a + m) == |a|
    ensures Trim(k, a + m + b) == m
  {
    assert (a + m + b)[..|a + m|] == a + m;
    assert (a + m)[|a|..] == m;
  }

  lemma {:induction false} LeadFull(k: Class, s: string)
    ensures Lead(k, s) == |s| <==> AllWhite(k, s)
  {
    var n := Lead(k, s);
    assert n == |s| ==> s[..n] == s;
    assert n < |s| ==> !White(k, s[n]);
  }

  lemma TrailEmpty(k: Class, s: string)
    ensures Trail(k, s) == 0 <==> AllWhite(k, s)
  {
    var n := Trail(k, s);
    assert s[0..] == s;
    assert n > 0 ==> !White(k, s[n - 1]);
  }

  /** A trimmed string is empty exactly when the string is white, and solid otherwise. */
  lemma TrimEmptyOrSolid(k: Class, s: string)
    ensures Trim(k, s) == [] <==> AllWhite(k, s)
    ensures Trim(k, s) != [] ==> Solid(k, Trim(k, s))
  {
    TrailEmpty(k, s);
    var r := TrimRight(k, s);
    LeadFull(k, r);
    if r != [] {
      assert !White(k, r[|r| - 1]);
      assert Lead(k, r) < |r|;
    }
  }

  /** What trimming takes off each end. */
  lemma TrimParts(k: Class, s: string) returns (a: string, b: string)
    ensures s == a + Trim(k, s) + b && AllWhite(k, a) && AllWhite(k, b)
  {
    var r := TrimRight(k, s);
    a, b := r[..Lead(k, r)], s[Trail(k, s)..];
    assert s == r + b && r == a + Trim(k, s);
  }

  // ---------------------------------------------------------------- prefixes

  predicate HasPrefix(s: string, p: string) { |p| <= |s| && s[..|p|] == p }

  predicate HasSuffix(s: string, p: string) { |p| <= |s| && s[|s| - |p|..] == p }

  lemma PrefixChar(s: string, p: string, i: nat)
    requires i < |s| && i < |p|
    ensures HasPrefix(s, p) ==> s[i] == p[i]
  {
    assert |p| <= |s| ==> s[..|p|][i] == s[i];
  }

  // ---------------------------------------------------------------- lines and bytes

  ghost predicate NewlineFree(ls: seq<string>) {
    forall i :: 0 <= i < |ls| ==> '\n' !in ls[i]
  }

  function Unlines(ls: seq<string>): string
    requires ls != []
  {
    if |ls| == 1 then ls[0] else ls[0] + "\n" + Unlines(ls[1..])
  }

  /** strings.Split(s, "\n"). */
  function Lines(s: string): (ls: seq<string>)
    ensures ls != [] && NewlineFree(ls)
  {
    if s == [] then [[]]
    else
      var rest := Lines(s[1..]);
      if s[0] == '\n' then [[]] + rest else [[s[0]] + rest[0]] + rest[1..]
  }

  /** Byte concatenation of two texts: the last line of one and the first line of the other meet. */
  function Cat(a: seq<string>, b: seq<string>): (r: seq<string>)
    requires a != [] && b != []
    ensures |r| == |a| + |b| - 1
  {
    a[..|a| - 1] + [a[|a| - 1] + b[0]] + b[1..]
  }

  /** The text ends in a newline. */
  predicate EndsOpen(ls: seq<string>) { ls != [] && ls[|ls| - 1] == [] }

  lemma {:induction false} LinesOfUnlines(ls: seq<string>)
    requires ls != [] && NewlineFree(ls)
    ensures Lines(Unlines(ls)) == ls
    decreases |ls|, |ls[0]|
  {
    if ls[0] == [] {
      if |ls| > 1 {
        assert Unlines(ls)[1..] == Unlines(ls[1..]);
        LinesOfUnlines(ls[1..]);
      }
    } else {
      var short := [ls[0][1..]] + ls[1..];
      assert short[1..] == ls[1..];
      assert Unlines(ls)[1..] == Unlines(short);
      LinesOfUnlines(short);
      assert [ls[0][0]] + ls[0][1..] == ls[0];
    }
  }

  lemma {:induction false} UnlinesOfLines(s: string)
    ensures Unlines(Lines(s)) == s
  {
    if s != [] {
      UnlinesOfLines(s[1..]);
      var rest := Lines(s[1..]);
      var ls := Lines(s);
      if s[0] == '\n' {
        assert ls[1..] == rest;
      } else {
        assert ls[1..] == rest[1..];
      }
      assert s == [s[0]] + s[1..];
    }
  }

  lemma {:induction false} UnlinesCat(a: seq<string>, b: seq<string>)
    requires a != [] && b != []
    ensures Unlines(Cat(a, b)) == Unlines(a) + Unlines(b)
    ensures Unlines(a + b) == Unlines(a) + "\n" + Unlines(b)
  {
    if |a| == 1 {
      assert Cat(a, b)[1..] == b[1..] && (a + b)[1..] == b;
    } else {
      hide Unlines, Cat;
      UnlinesCat(a[1..], b);
      CatTails(a, b);
      UnlinesHead(a);
      UnlinesHead(Cat(a, b));
      UnlinesHead(a + b);
      Regroups(a[0] + "\n", Unlines(a[1..]), Unlines(b));
    }
  }

  lemma CatTails(a: seq<string>, b: seq<string>)
    requires |a| > 1 && b != []
    ensures Cat(a, b)[0] == a[0] && Cat(a, b)[1..] == Cat(a[1..], b)
    ensures (a + b)[0] == a[0] && (a + b)[1..] == a[1..] + b
  {
  }

  lemma Regroups(x: string, y: string, z: string)
    ensures x + (y + z) == x + y + z && x + (y + "\n" + z) == x + y + "\n" + z
  {
  }

  lemma UnlinesHead(ls: seq<string>)
    requires ls != []
    ensures Unlines(ls) == if |ls| == 1 then ls[0] else ls[0] + "\n" + Unlines(ls[1..])
  {
  }

  // ---------------------------------------------------------------- documents

  const SEPARATOR := "---"

  /** The line of the first "\n---\n" in the text, or -1: a line `---` with a line on each side. */
  function FirstSeparator(ls: seq<string>, from: nat): (i: int)
    requires 1 <= from
    ensures i == -1 || from <= i < |ls| - 1
    ensures i != -1 ==> ls[i] == SEPARATOR
    ensures forall j :: from <= j < (if i == -1 then |ls| - 1 else i) ==> ls[j] != SEPARATOR
    decreases |ls| - from
  {
    if from >= |ls| - 1 then -1
    else if ls[from] == SEPARATOR then from
    else FirstSeparator(ls, from + 1)
  }

  /** strings.Split(text, "\n---\n"). */
  function SplitDocs(ls: seq<string>): (docs: seq<seq<string>>)
    requires ls != []
    ensures docs != [] && forall k :: 0 <= k < |docs| ==> docs[k] != []
    decreases |ls|
  {
    var i := FirstSeparator(ls, 1);
    if i == -1 then [ls] else [ls[..i]] + SplitDocs(ls[i + 1..])
  }

  /** strings.Join(docs, "\n---\n"). */
  function JoinDocs(docs: seq<seq<string>>): (ls: seq<string>)
    requires docs != []
    ensures docs[0] <= ls
  {
    if |docs| == 1 then docs[0] else docs[0] + [SEPARATOR] + JoinDocs(docs[1..])
  }

  /** No "\n---\n" can be found inside the document, nor across its end when a separator follows. */
  ghost predicate Separable(doc: seq<string>) {
    doc != [] && forall i :: 1 <= i < |doc| ==> doc[i] != SEPARATOR
  }

  lemma {:induction false} JoinOfSplit(ls: seq<string>)
    requires ls != []
    ensures JoinDocs(SplitDocs(ls)) == ls
    decreases |ls|
  {
    var i := FirstSeparator(ls, 1);
    if i != -1 {
      JoinOfSplit(ls[i + 1..]);
      var docs := SplitDocs(ls);
      assert docs[1..] == SplitDocs(ls[i + 1..]);
      assert ls == ls[..i] + [ls[i]] + ls[i + 1..];
    }
  }

  /** No "\n---\n" inside the document, though its last line may be `---`. */
  ghost predicate Interior(doc: seq<string>) {
    forall i :: 1 <= i < |doc| - 1 ==> doc[i] != SEPARATOR
  }

  type DocPatch = seq<string> -> seq<string>

  /** Every document, patched. */
  function Each(f: DocPatch, docs: seq<seq<string>>): (r: seq<seq<string>>)
    ensures |r| == |docs| && forall k :: 0 <= k < |docs| ==> r[k] == f(docs[k])
  {
    seq(|docs|, k requires 0 <= k < |docs| => f(docs[k]))
  }

  /** The documents of a text, as splitting yields them: only the last may end in `---`. */
  ghost predicate SplitForm(docs: seq<seq<string>>) {
    && docs != []
    && (forall k :: 0 <= k < |docs| - 1 ==> Separable(docs[k]))
    && docs[|docs| - 1] != [] && Interior(docs[|docs| - 1])
  }

  lemma {:induction false} SplitYieldsForm(ls: seq<string>)
    requires ls != []
    ensures SplitForm(SplitDocs(ls))
    decreases |ls|
  {
    var i := FirstSeparator(ls, 1);
    if i != -1 {
      SplitYieldsForm(ls[i + 1..]);
      hide SplitForm, FirstSeparator;
      FormMore(ls[..i], SplitDocs(ls[i + 1..]));
    }
  }

  lemma FormMore(d: seq<string>, docs: seq<seq<string>>)
    requires Separable(d) && SplitForm(docs)
    ensures SplitForm([d] + docs)
  {
    hide Separable, Interior;
    var more := [d] + docs;
    assert forall k :: 1 <= k < |more| ==> more[k] == docs[k - 1];
  }

  lemma SplitFirst(d: seq<string>, rest: seq<string>)
    requires Separable(d) && rest != []
    ensures SplitDocs(d + [SEPARATOR] + rest) == [d] + SplitDocs(rest)
  {
    var ls := d + [SEPARATOR] + rest;
    assert ls[|d|] == SEPARATOR;
    assert forall j :: 1 <= j < |d| ==> ls[j] == d[j];
    assert FirstSeparator(ls, 1) == |d|;
    assert ls[..|d|] == d && ls[|d| + 1..] == rest;
  }

  lemma {:induction false} SplitOfJoin(docs: seq<seq<string>>)
    requires SplitForm(docs)
    ensures JoinDocs(docs) != [] && SplitDocs(JoinDocs(docs)) == docs
  {
    var d := docs[0];
    if |docs| > 1 {
      TailForm(docs);
      SplitOfJoin(docs[1..]);
      SplitFirst(d, JoinDocs(docs[1..]));
      assert docs == [d] + docs[1..];
    } else {
      assert FirstSeparator(d, 1) == -1;
      assert docs == [d];
    }
  }

  lemma TailForm(docs: seq<seq<string>>)
    requires SplitForm(docs) && |docs| > 1
    ensures SplitForm(docs[1..]) && Separable(docs[0])
  {
    var t := docs[1..];
    forall k | 0 <= k < |t| - 1
      ensures Separable(t[k])
    {
      assert Separable(docs[k + 1]);
    }
  }

  /** What a document separator is in bytes. */
  lemma {:induction false} JoinInBytes(d: seq<string>, docs: seq<seq<string>>)
    requires d != [] && docs != [] && forall k :: 0 <= k < |docs| ==> docs[k] != []
    ensures Unlines(JoinDocs([d] + docs)) == Unlines(d) + "\n---\n" + Unlines(JoinDocs(docs))
  {
    assert ([d] + docs)[1..] == docs;
    assert docs[0] != [];
    var rest := JoinDocs(docs);
    UnlinesCat(d, [SEPARATOR] + rest);
    UnlinesCat([SEPARATOR], rest);
    assert d + [SEPARATOR] + rest == d + ([SEPARATOR] + rest);
    assert "\n---\n" == "\n" + SEPARATOR + "\n";
    calc {
      Unlines(d) + "\n" + (SEPARATOR + "\n" + Unlines(rest));
      Unlines(d) + ("\n" + SEPARATOR + "\n") + Unlines(rest);
    }
  }

  // ---------------------------------------------------------------- TrimSpace on a text

  function DropHead(ls: seq<string>): seq<string> {
    if ls == [] then []
    else if TrimLeft(Unicode, ls[0]) == [] then DropHead(ls[1..])
    else [TrimLeft(Unicode, ls[0])] + ls[1..]
  }

  function DropTail(ls: seq<string>): seq<string> {
    if ls == [] then []
    else if TrimRight(Unicode, ls[|ls| - 1]) == [] then DropTail(ls[..|ls| - 1])
    else ls[..|ls| - 1] + [TrimRight(Unicode, ls[|ls| - 1])]
  }

  /** strings.TrimSpace(text), with no line at all for the empty result. */
  function TrimText(ls: seq<string>): seq<string> { DropTail(DropHead(ls)) }

  ghost predicate Tight(ls: seq<string>) {
    && ls != []
    && ls[0] != [] && !White(Unicode, ls[0][0])
    && ls[|ls| - 1] != [] && !White(Unicode, ls[|ls| - 1][|ls[|ls| - 1]| - 1])
  }

  lemma {:induction false} DropTailTight(ls: seq<string>)
    requires ls != [] ==> ls[0] != [] && !White(Unicode, ls[0][0])
    ensures ls != [] ==> Tight(DropTail(ls))
  {
    if ls != [] {
      var last := ls[|ls| - 1];
      if TrimRight(Unicode, last) == [] {
        TrimEmptyOrSolid(Unicode, last);
        DropTailTight(ls[..|ls| - 1]);
      } else if |ls| == 1 {
        assert TrimRight(Unicode, last)[0] == last[0];
      }
    }
  }

  lemma {:induction false} DropHeadTight(ls: seq<string>)
    ensures var h := DropHead(ls); h != [] ==> h[0] != [] && !White(Unicode, h[0][0])
  {
    if ls != [] && TrimLeft(Unicode, ls[0]) == [] {
      DropHeadTight(ls[1..]);
    }
  }

  lemma TrimTextTight(ls: seq<string>)
    ensures TrimText(ls) == [] || Tight(TrimText(ls))
  {
    DropHeadTight(ls);
    DropTailTight(DropHead(ls));
  }

  /** The bytes of a text that may have no line at all. */
  function Bytes(ls: seq<string>): string { if ls == [] then "" else Unlines(ls) }

  lemma {:induction false} HeadDropped(ls: seq<string>) returns (a: string)
    ensures AllWhite(Unicode, a) && Bytes(ls) == a + Bytes(DropHead(ls))
  {
    a := "";
    if ls != [] {
      var l := ls[0];
      var n := Lead(Unicode, l);
      DropHeadStep(ls);
      UnlinesHead(ls);
      hide White, AllWhite, Lead, Unlines, DropHead;
      if n == |l| {
        assert l[..n] == l;
        var rest := HeadDropped(ls[1..]);
        a := l;
        if |ls| > 1 {
          a := l + "\n" + rest;
          WhiteJoined(l, rest);
          JoinedAgain(l, rest, Bytes(DropHead(ls[1..])));
        }
      } else {
        a := l[..n];
        assert l == l[..n] + l[n..];
        HeadReplaced(ls, l[..n], l[n..]);
      }
    }
  }

  lemma JoinedAgain(x: string, y: string, z: string)
    ensures x + "\n" + (y + z) == x + "\n" + y + z
  {
  }

  lemma DropHeadStep(ls: seq<string>)
    requires ls != []
    ensures var n := Lead(Unicode, ls[0]);
      && AllWhite(Unicode, ls[0][..n])
      && DropHead(ls) == if n == |ls[0]| then DropHead(ls[1..]) else [ls[0][n..]] + ls[1..]
  {
  }

  lemma DropTailStep(ls: seq<string>)
    requires ls != []
    ensures var l := ls[|ls| - 1];
      var n := Trail(Unicode, l);
      && AllWhite(Unicode, l[n..])
      && DropTail(ls) == if n == 0 then DropTail(ls[..|ls| - 1]) else ls[..|ls| - 1] + [l[..n]]
  {
  }

  lemma WhiteJoined(a: string, b: string)
    requires AllWhite(Unicode, a) && AllWhite(Unicode, b)
    ensures AllWhite(Unicode, a + "\n" + b)
  {
    hide White;
    WhiteNewline();
  }

  lemma WhiteNewline()
    ensures AllWhite(Unicode, "\n")
  {
  }

  lemma HeadReplaced(ls: seq<string>, a: string, l: string)
    requires ls != [] && ls[0] == a + l
    ensures Unlines(ls) == a + Unlines([l] + ls[1..])
  {
    assert ([l] + ls[1..])[1..] == ls[1..];
    if |ls| > 1 {
      assert a + l + "\n" + Unlines(ls[1..]) == a + (l + "\n" + Unlines(ls[1..]));
    }
  }

  lemma {:induction false} TailDropped(ls: seq<string>) returns (b: string)
    ensures AllWhite(Unicode, b) && Bytes(ls) == Bytes(DropTail(ls)) + b
  {
    b := "";
    if ls != [] {
      var p, l := ls[..|ls| - 1], ls[|ls| - 1];
      var n := Trail(Unicode, l);
      DropTailStep(ls);
      hide White, AllWhite, Trail, Unlines, DropTail;
      assert l == l[..n] + l[n..] && l[0..] == l && ls == p + [l];
      LastLine(p, l);
      if n == 0 {
        var rest := TailDropped(p);
        b := l;
        if p != [] {
          b := rest + "\n" + l;
          WhiteJoined(rest, l);
          Regroups(Bytes(DropTail(p)), rest, l);
        }
      } else {
        b := l[n..];
        LastLine(p, l[..n]);
        assert p != [] ==> Unlines(p) + "\n" + l == Unlines(p) + "\n" + l[..n] + l[n..];
      }
    }
  }

  lemma LastLine(p: seq<string>, l: string)
    ensures Unlines(p + [l]) == if p == [] then l else Unlines(p) + "\n" + l
  {
    if p == [] {
      assert p + [l] == [l];
    } else {
      UnlinesCat(p, [l]);
    }
  }

  lemma {:induction false} TightIsSolid(ls: seq<string>)
    requires Tight(ls)
    ensures Solid(Unicode, Unlines(ls))
  {
    var p, l := ls[..|ls| - 1], ls[|ls| - 1];
    assert ls == p + [l];
    LastLine(p, l);
    UnlinesHead(ls);
    assert Unlines(ls)[0] == ls[0][0];
  }

  /** Trimming by lines is strings.TrimSpace on the bytes. */
  lemma TrimTextIsTrim(ls: seq<string>)
    ensures Bytes(TrimText(ls)) == Trim(Unicode, Bytes(ls))
  {
    hide Unlines, Trim, DropHead, DropTail;
    var a := HeadDropped(ls);
    var b := TailDropped(DropHead(ls));
    var t := TrimText(ls);
    assert Bytes(ls) == a + Bytes(t) + b;
    if t == [] {
      assert a + "" + b == a + b;
      TrimEmptyOrSolid(Unicode, a + b);
    } else {
      TrimTextTight(ls);
      TightIsSolid(t);
      TrimPadded(Unicode, a, Bytes(t), b);
    }
  }

  /** A tight text with its final newline trims back to itself. */
  lemma TrimTextOfTight(ls: seq<string>)
    requires Tight(ls)
    ensures TrimText(ls + [[]]) == ls
  {
    var t := ls + [[]];
    assert Lead(Unicode, t[0]) == 0;
    assert DropHead(t) == [t[0]] + t[1..] == t;
    assert t[|t| - 1] == [] && TrimRight(Unicode, t[|t| - 1]) == [];
    assert t[..|t| - 1] == ls;
    assert DropTail(t) == DropTail(ls);
    var last := ls[|ls| - 1];
    assert Trail(Unicode, last) == |last|;
    assert TrimRight(Unicode, last) == last;
    assert ls[..|ls| - 1] + [last] == ls;
  }

  // ---------------------------------------------------------------- keys and their values

  /** The first line from `i` on that is not white, or |ls|. */
  function NextNonBlank(ls: seq<string>, i: nat): (j: nat)
    requires i <= |ls|
    ensures i <= j <= |ls|
    ensures forall k :: i <= k < j ==> Blank(ls[k])
    ensures j < |ls| ==> !Blank(ls[j])
    decreases |ls| - i
  {
    if i == |ls| || !Blank(ls[i]) then i else NextNonBlank(ls, i + 1)
  }

  /** What follows `^key\s*` when line `i` starts with `key`, up to the end of that line and
      without trailing white space: the rest of the line, or, when that is white, the next line
      that is not. */
  function FieldValue(ls: seq<string>, i: nat, key: string): string
    requires i < |ls| && HasPrefix(ls[i], key)
  {
    var rest := ls[i][|key|..];
    if !Blank(rest) then Trim(Regex, rest)
    else
      var j := NextNonBlank(ls, i + 1);
      if j < |ls| then Trim(Regex, ls[j]) else []
  }

  /** One run of non-white characters: what `(\S+)\s*$` accepts. */
  predicate SingleToken(v: string) {
    v != [] && forall i :: 0 <= i < |v| ==> !White(Regex, v[i])
  }

  /** `^key\s*value\s*$` matches somewhere. */
  predicate HasField(ls: seq<string>, key: string, value: string) {
    exists i :: 0 <= i < |ls| && HasPrefix(ls[i], key) && FieldValue(ls, i, key) == value
  }

  /** `^key\s*prefix` matches somewhere, for a prefix without white space. */
  predicate HasFieldPrefix(ls: seq<string>, key: string, prefix: string) {
    exists i :: 0 <= i < |ls| && HasPrefix(ls[i], key) && HasPrefix(FieldValue(ls, i, key), prefix)
  }

  /** The value of a field: what stands behind the key, without the white space around it, or on the
      next line that is not white. */
  lemma FieldIs(ls: seq<string>, i: nat, j: nat, key: string, pre: string, v: string, post: string)
    requires i <= j < |ls| && AllWhite(Regex, pre) && Solid(Regex, v) && AllWhite(Regex, post)
    requires i == j ==> ls[i] == key + (pre + v + post)
    requires i < j ==> HasPrefix(ls[i], key) && AllWhite(Regex, ls[i][|key|..]) && ls[j] == pre + v + post
    requires forall k :: i < k < j ==> AllWhite(Regex, ls[k])
    ensures HasPrefix(ls[i], key) && FieldValue(ls, i, key) == v
  {
    hide Lead, Trim, NextNonBlank;
    TrimPadded(Regex, pre, v, post);
    LeadFull(Regex, pre + v + post);
    if i < j {
      LeadFull(Regex, ls[i][|key|..]);
      forall k | i < k < j ensures Blank(ls[k]) {
        LeadFull(Regex, ls[k]);
      }
      NextNonBlankIs(ls, i + 1, j);
    }
  }

  lemma {:induction false} NextNonBlankIs(ls: seq<string>, i: nat, j: nat)
    requires i <= j <= |ls| && (forall k :: i <= k < j ==> Blank(ls[k])) && (j < |ls| ==> !Blank(ls[j]))
    ensures NextNonBlank(ls, i) == j
    decreases j - i
  {
    hide Blank;
    if i < j {
      NextNonBlankIs(ls, i + 1, j);
    }
  }

  lemma KeyedField(ls: seq<string>, i: nat, key: string, v: string)
    requires i < |ls| && ls[i] == key + " " + v && Solid(Regex, v)
    ensures HasPrefix(ls[i], key) && FieldValue(ls, i, key) == v
  {
    hide Lead, Trail, NextNonBlank;
    assert ls[i] == key + (" " + v);
    assert ls[i][|key|..] == " " + v && ls[i][..|key|] == key;
    LeadIs(Regex, " ", v);
    assert " " + v + "" == " " + v;
    TrimPadded(Regex, " ", v, "");
  }

  // ---------------------------------------------------------------- inserting lines

  /** The text with the lines `f` put in front of line `p`. */
  function InsertAll(ls: seq<string>, p: nat, f: seq<string>): (r: seq<string>)
    requires p <= |ls|
    ensures |r| == |ls| + |f|
  {
    ls[..p] + f + ls[p..]
  }

  lemma InsertAllAt(ls: seq<string>, p: nat, f: seq<string>)
    requires p <= |ls|
    ensures var out := InsertAll(ls, p, f);
      && (forall k :: 0 <= k < p ==> out[k] == ls[k])
      && (forall k :: p <= k < p + |f| ==> out[k] == f[k - p])
      && (forall k :: p + |f| <= k < |out| ==> out[k] == ls[k - |f|])
  {
  }

  lemma InsertAllMembers(ls: seq<string>, p: nat, f: seq<string>)
    requires p <= |ls|
    ensures forall l :: l in InsertAll(ls, p, f) <==> l in ls || l in f
  {
    assert ls == ls[..p] + ls[p..];
    forall l
      ensures l in InsertAll(ls, p, f) <==> l in ls || l in f
    {
      assert l in ls <==> l in ls[..p] || l in ls[p..];
    }
  }

  /** Lines that go into one document go into the text; next to them are the same lines. */
  lemma {:induction false} InsertInDoc(docs: seq<seq<string>>, k: nat, p: nat, f: seq<string>) returns (at: nat)
    requires k < |docs| && 0 < p <= |docs[k]|
    ensures 0 < at <= |JoinDocs(docs)|
    ensures JoinDocs(docs[k := InsertAll(docs[k], p, f)]) == InsertAll(JoinDocs(docs), at, f)
    ensures JoinDocs(docs)[at - 1] == docs[k][p - 1]
    ensures at < |JoinDocs(docs)| ==> JoinDocs(docs)[at] == if p < |docs[k]| then docs[k][p] else SEPARATOR
    ensures p < |docs[k]| ==> at < |JoinDocs(docs)|
  {
    var more := docs[k := InsertAll(docs[k], p, f)];
    if k == 0 {
      at := p;
      if |docs| > 1 {
        assert more[1..] == docs[1..];
        InsertFirst(docs[0], JoinDocs(docs[1..]), p, f);
      }
    } else {
      var rest := docs[1..];
      var below := InsertInDoc(rest, k - 1, p, f);
      var head := docs[0] + [SEPARATOR];
      at := |head| + below;
      assert more[1..] == rest[k - 1 := InsertAll(rest[k - 1], p, f)];
      InsertAfter(head, JoinDocs(rest), below, f);
    }
  }

  lemma InsertFirst(d: seq<string>, rest: seq<string>, p: nat, f: seq<string>)
    requires p <= |d|
    ensures InsertAll(d, p, f) + [SEPARATOR] + rest == InsertAll(d + [SEPARATOR] + rest, p, f)
  {
    InsertBefore(d + [SEPARATOR], rest, p, f);
    InsertBefore(d, [SEPARATOR], p, f);
  }

  lemma InsertBefore(a: seq<string>, b: seq<string>, p: nat, f: seq<string>)
    requires p <= |a|
    ensures InsertAll(a + b, p, f) == InsertAll(a, p, f) + b
  {
    assert (a + b)[..p] == a[..p] && (a + b)[p..] == a[p..] + b;
  }

  lemma InsertAfter(a: seq<string>, b: seq<string>, p: nat, f: seq<string>)
    requires p <= |b|
    ensures InsertAll(a + b, |a| + p, f) == a + InsertAll(b, p, f)
  {
    assert (a + b)[..|a| + p] == a + b[..p] && (a + b)[|a| + p..] == b[p..];
  }

  /** A field keeps its value when lines go in elsewhere: below it, with a non-white line of its
      own in between, or above it. */
  lemma {:induction false} NextNonBlankKept(ls: seq<string>, p: nat, f: seq<string>, i: nat, k: nat)
    requires i <= k < p <= |ls| && !Blank(ls[k])
    ensures NextNonBlank(InsertAll(ls, p, f), i) == NextNonBlank(ls, i) <= k
    decreases k - i
  {
    InsertAllAt(ls, p, f);
    if i < k && Blank(ls[i]) {
      NextNonBlankKept(ls, p, f, i + 1, k);
    }
  }

  lemma {:induction false} NextNonBlankMoved(ls: seq<string>, p: nat, f: seq<string>, i: nat)
    requires p <= i <= |ls|
    ensures NextNonBlank(InsertAll(ls, p, f), i + |f|) == NextNonBlank(ls, i) + |f|
    decreases |ls| - i
  {
    InsertAllAt(ls, p, f);
    if i < |ls| && Blank(ls[i]) {
      NextNonBlankMoved(ls, p, f, i + 1);
    }
  }

  /** A field is read off its own line and the next line that is not white. */
  lemma FieldSame(a: seq<string>, i: nat, b: seq<string>, j: nat, key: string)
    requires i < |a| && j < |b| && a[i] == b[j] && HasPrefix(a[i], key)
    requires var x, y := NextNonBlank(a, i + 1), NextNonBlank(b, j + 1);
      (x == |a| <==> y == |b|) && (x < |a| ==> a[x] == b[y])
    ensures FieldValue(a, i, key) == FieldValue(b, j, key)
  {
    hide NextNonBlank, Blank, Trim;
  }

  lemma FieldBelow(ls: seq<string>, p: nat, f: seq<string>, i: nat, key: string)
    requires p <= i < |ls| && HasPrefix(ls[i], key)
    ensures var out := InsertAll(ls, p, f);
      out[i + |f|] == ls[i] && FieldValue(out, i + |f|, key) == FieldValue(ls, i, key)
  {
    hide FieldValue;
    InsertAllAt(ls, p, f);
    NextNonBlankMoved(ls, p, f, i + 1);
    FieldSame(InsertAll(ls, p, f), i + |f|, ls, i, key);
  }

  lemma FieldAbove(ls: seq<string>, p: nat, f: seq<string>, i: nat, key: string, k: nat)
    requires i < k < p <= |ls| && HasPrefix(ls[i], key) && !Blank(ls[k])
    ensures var out := InsertAll(ls, p, f);
      out[i] == ls[i] && FieldValue(out, i, key) == FieldValue(ls, i, key)
  {
    hide FieldValue;
    InsertAllAt(ls, p, f);
    NextNonBlankKept(ls, p, f, i + 1, k);
    FieldSame(InsertAll(ls, p, f), i, ls, i, key);
  }
}
