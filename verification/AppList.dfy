/** The list of application groups as one line of text (internal/config/snapshot.go, the field
    XAPIRI_WORKLOAD_APPS). */
module AppList {
  import opened Wrappers
  import opened Numbers
  import opened Text

  datatype AppGroup = AppGroup(count: int, template: string, customCores: int, customMem: int)

  // ---------------------------------------------------------------- words

  function WordEnd(s: string): (n: nat)
    ensures n <= |s| && NoWhite(Unicode, s[..n])
    ensures n < |s| ==> White(Unicode, s[n])
  {
    if s == "" || White(Unicode, s[0]) then 0
    else
      assert s[..1 + WordEnd(s[1..])] == [s[0]] + s[1..][..WordEnd(s[1..])];
      1 + WordEnd(s[1..])
  }

  /** strings.Fields. */
  function Fields(s: string): seq<string>
    decreases |s|
  {
    if s == "" then []
    else if White(Unicode, s[0]) then Fields(s[1..])
    else [s[..WordEnd(s)]] + Fields(s[WordEnd(s)..])
  }

  predicate Mark(c: char) { c == ',' || c == 'x' || c == '\U{D7}' }

  /** The replacer: commas and both multiplication signs become spaces. */
  function Spaced(s: string): (r: string)
    ensures |r| == |s|
  {
    if s == "" then "" else [if Mark(s[0]) then ' ' else s[0]] + Spaced(s[1..])
  }

  function Tokens(s: string): seq<string> { Fields(Spaced(s)) }

  // ---------------------------------------------------------------- printing and parsing

  predicate Printable(g: AppGroup) { g.count > 0 && g.template != "" }

  function Part(g: AppGroup): string
    requires Printable(g)
  {
    Itoa(g.count) + " " + g.template
  }

  function Parts(gs: seq<AppGroup>): seq<string> {
    if gs == [] then []
    else (if Printable(gs[0]) then [Part(gs[0])] else []) + Parts(gs[1..])
  }

  /** strings.Join with single spaces. */
  function Joined(parts: seq<string>): string {
    if parts == [] then ""
    else if |parts| == 1 then parts[0]
    else parts[0] + " " + Joined(parts[1..])
  }

  function Print(gs: seq<AppGroup>): string { Joined(Parts(gs)) }

  predicate KnownTemplate(t: string) { t == "light" || t == "medium" || t == "heavy" }

  function ParsePair(count: string, template: string): seq<AppGroup> {
    var n := Atoi(count);
    var t := Lower(template);
    if n.None? || n.value <= 0 || !KnownTemplate(t) then [] else [AppGroup(n.value, t, 0, 0)]
  }

  function ParsePairs(tokens: seq<string>): seq<AppGroup> {
    if |tokens| < 2 then [] else ParsePair(tokens[0], tokens[1]) + ParsePairs(tokens[2..])
  }

  /** What reading `v` makes of a list: the groups of the text, or the old list if there is none. */
  function Reread(before: seq<AppGroup>, v: string): seq<AppGroup> {
    var gs := ParsePairs(Tokens(v));
    if gs == [] then before else gs
  }

  method PrintApps(gs: seq<AppGroup>) returns (v: string)
    ensures v == Print(gs)
  {
    hide Joined, Part, Printable;
    if |gs| == 0 {
      JoinedEmpty();
      return "";
    }
    var parts := [];
    for i := 0 to |gs|
      invariant parts + Parts(gs[i..]) == Parts(gs)
    {
      if Printable(gs[i]) {
        parts := parts + [Part(gs[i])];
      }
      assert gs[i..][1..] == gs[i + 1..];
    }
    assert gs[|gs|..] == [] && parts + [] == parts;
    return Joined(parts);
  }

  lemma JoinedEmpty()
    ensures Joined(Parts([])) == ""
  {}

  method SetApps(before: seq<AppGroup>, v: string) returns (apps: seq<AppGroup>)
    ensures apps == Reread(before, v)
  {
    if v == "" {
      NoTokens();
      return before;
    }
    hide Tokens, ParsePair, ParsePairs;
    var tokens := Tokens(v);
    apps := [];
    var i := 0;
    while i + 1 < |tokens|
      invariant i <= |tokens|
      invariant apps + ParsePairs(tokens[i..]) == ParsePairs(tokens)
    {
      PairsFrom(tokens, i);
      var pair := ParsePair(tokens[i], tokens[i + 1]);
      Regrouped(apps, pair, ParsePairs(tokens[i + 2..]));
      apps := apps + pair;
      i := i + 2;
    }
    PairsFrom(tokens, i);
    assert apps + [] == apps;
    if |apps| == 0 {
      apps := before;
    }
  }

  lemma Regrouped<T>(a: seq<T>, b: seq<T>, c: seq<T>)
    ensures a + (b + c) == (a + b) + c
  {}

  lemma PairsFrom(tokens: seq<string>, i: nat)
    requires i <= |tokens|
    ensures i + 1 < |tokens| ==>
      ParsePairs(tokens[i..]) == ParsePair(tokens[i], tokens[i + 1]) + ParsePairs(tokens[i + 2..])
    ensures i + 1 >= |tokens| ==> ParsePairs(tokens[i..]) == []
  {
    if i + 1 < |tokens| {
      assert tokens[i..][2..] == tokens[i + 2..];
    }
  }

  lemma NoTokens()
    ensures Tokens("") == [] && ParsePairs([]) == []
  {}

  // ---------------------------------------------------------------- words of a joined text

  lemma {:induction false} SpacedCat(a: string, b: string)
    ensures Spaced(a + b) == Spaced(a) + Spaced(b)
  {
    if a == "" {
      assert a + b == b;
    } else {
      SpacedCat(a[1..], b);
      assert (a + b)[1..] == a[1..] + b;
    }
  }

  lemma {:induction false} WordEndCat(a: string, c: char, b: string)
    requires White(Unicode, c)
    ensures WordEnd(a + [c] + b) == WordEnd(a)
  {
    hide White;
    var s := a + [c] + b;
    if a != "" && !White(Unicode, a[0]) {
      WordEndCat(a[1..], c, b);
      assert s[1..] == a[1..] + [c] + b;
    }
  }

  /** The words of two texts with a white character between them. */
  lemma {:induction false} FieldsCat(a: string, c: char, b: string)
    requires White(Unicode, c)
    ensures Fields(a + [c] + b) == Fields(a) + Fields(b)
    decreases |a|
  {
    hide Fields, WordEnd, White;
    var s := a + [c] + b;
    FieldsHead(s);
    FieldsHead(a);
    if a == "" {
      assert s[1..] == b;
    } else if White(Unicode, a[0]) {
      FieldsCat(a[1..], c, b);
      assert s[1..] == a[1..] + [c] + b;
    } else {
      WordEndCat(a, c, b);
      WordIsNotEmpty(a);
      var k := WordEnd(a);
      FieldsCat(a[k..], c, b);
      assert s[..k] == a[..k] && s[k..] == a[k..] + [c] + b;
      Regrouped([a[..k]], Fields(a[k..]), Fields(b));
    }
  }

  lemma WordIsNotEmpty(a: string)
    requires a != "" && !White(Unicode, a[0])
    ensures WordEnd(a) > 0
  {
  }

  lemma FieldsHead(s: string)
    ensures Fields(s) == if s == "" then []
      else if White(Unicode, s[0]) then Fields(s[1..])
      else [s[..WordEnd(s)]] + Fields(s[WordEnd(s)..])
  {
  }

  lemma TokensCat(a: string, b: string)
    ensures Tokens(a + " " + b) == Tokens(a) + Tokens(b)
  {
    SpacedCat(a + " ", b);
    SpacedCat(a, " ");
    assert Spaced(" ") == " ";
    FieldsCat(Spaced(a), ' ', Spaced(b));
  }

  /** The separators of the list: white space, a comma, and both ways to write a multiplication. */
  predicate Separates(c: char) { White(Unicode, c) || c in {',', 'x', '\U{D7}'} }

  lemma {:induction false} SpacedSeparators(sep: string)
    requires forall i :: 0 <= i < |sep| ==> Separates(sep[i])
    ensures AllWhite(Unicode, Spaced(sep))
  {
    if sep != "" {
      SpacedSeparators(sep[1..]);
    }
  }

  lemma {:induction false} FieldsBehind(w: string, b: string)
    requires AllWhite(Unicode, w)
    ensures Fields(w + b) == Fields(b)
  {
    hide White;
    if w == "" {
      assert w + b == b;
    } else {
      assert (w + b)[1..] == w[1..] + b;
      FieldsBehind(w[1..], b);
    }
  }

  /** Separators stand between words and mean nothing else. */
  lemma TokensApart(a: string, sep: string, b: string)
    requires sep != "" && forall i :: 0 <= i < |sep| ==> Separates(sep[i])
    ensures Tokens(a + sep + b) == Tokens(a) + Tokens(b)
  {
    hide Fields, Spaced, White, Separates;
    SpacedCat(a + sep, b);
    SpacedCat(a, sep);
    SpacedSeparators(sep);
    var w := Spaced(sep);
    FieldsCat(Spaced(a), w[0], w[1..] + Spaced(b));
    assert Spaced(a) + [w[0]] + (w[1..] + Spaced(b)) == Spaced(a) + w + Spaced(b);
    FieldsBehind(w[1..], Spaced(b));
  }

  lemma {:induction false} OneWord(w: string)
    requires w != "" && NoWhite(Unicode, w)
    ensures WordEnd(w) == |w|
  {
    if |w| > 1 {
      OneWord(w[1..]);
    }
  }

  predicate Clean(w: string) { w != "" && forall i :: 0 <= i < |w| ==> !White(Unicode, w[i]) && !Mark(w[i]) }

  lemma {:induction false} SpacedClean(w: string)
    requires forall i :: 0 <= i < |w| ==> !Mark(w[i])
    ensures Spaced(w) == w
  {
    if w != "" {
      SpacedClean(w[1..]);
    }
  }

  lemma TokensOfClean(w: string)
    requires Clean(w)
    ensures Tokens(w) == [w]
  {
    SpacedClean(w);
    OneWord(w);
    assert w[..|w|] == w && w[|w|..] == "";
    assert Fields("") == [];
    assert Fields(w) == [w[..|w|]] + Fields(w[|w|..]);
  }

  lemma DigitsAreClean(s: string)
    requires s != "" && AllDigits(s)
    ensures Clean(s)
  {
    forall i | 0 <= i < |s| ensures !White(Unicode, s[i]) && !Mark(s[i]) {
      assert Digit(s[i]);
    }
  }

  lemma TokensOfNumber(n: nat)
    ensures Tokens(Itoa(n)) == [Itoa(n)]
  {
    hide Itoa, Tokens, Decimal;
    ItoaDigits(n);
    DigitsAreClean(Itoa(n));
    TokensOfClean(Itoa(n));
  }

  // ---------------------------------------------------------------- the round trip

  /** The tokens of a printed list: for each printed group its count and the words of its
      template. */
  function PrintedTokens(gs: seq<AppGroup>): seq<string> {
    if gs == [] then []
    else
      (if gs[0].count > 0 && gs[0].template != "" then [Itoa(gs[0].count)] + Tokens(gs[0].template) else [])
        + PrintedTokens(gs[1..])
  }

  lemma TokensOfPart(g: AppGroup)
    requires Printable(g)
    ensures Tokens(Part(g)) == [Itoa(g.count)] + Tokens(g.template)
  {
    TokensCat(Itoa(g.count), g.template);
    TokensOfNumber(g.count);
  }

  /** For any templates at all: this is what reading a printed list sees. */
  lemma {:induction false} TokensOfPrint(gs: seq<AppGroup>)
    ensures Tokens(Print(gs)) == PrintedTokens(gs)
  {
    hide Tokens, Joined, Part;
    NoTokens();
    JoinedEmpty();
    if gs != [] {
      TokensOfPrint(gs[1..]);
      if Printable(gs[0]) {
        TokensOfPart(gs[0]);
        TokensOfJoin(Part(gs[0]), Parts(gs[1..]));
      } else {
        assert Parts(gs) == Parts(gs[1..]);
      }
    }
  }

  lemma TokensOfJoin(part: string, rest: seq<string>)
    ensures Tokens(Joined([part] + rest)) == Tokens(part) + Tokens(Joined(rest))
  {
    hide Tokens;
    NoTokens();
    if rest != [] {
      assert ([part] + rest)[1..] == rest;
      TokensCat(part, Joined(rest));
    }
  }

  /** The template is one word, also after the replacements. */
  predicate OneToken(g: AppGroup) { |Tokens(g.template)| == 1 && g.count <= MAX }

  /** What survives of one group: a positive count and a known template, in lower case and without
      custom sizes. */
  function Survivor(g: AppGroup): seq<AppGroup>
    requires OneToken(g)
  {
    var t := Lower(Tokens(g.template)[0]);
    if g.count > 0 && KnownTemplate(t) then [AppGroup(g.count, t, 0, 0)] else []
  }

  function Survivors(gs: seq<AppGroup>): seq<AppGroup>
    requires forall g :: g in gs && Printable(g) ==> OneToken(g)
  {
    if gs == [] then []
    else (if Printable(gs[0]) then Survivor(gs[0]) else []) + Survivors(gs[1..])
  }

  lemma PairOfPrinted(g: AppGroup)
    requires Printable(g) && OneToken(g)
    ensures ParsePair(Itoa(g.count), Tokens(g.template)[0]) == Survivor(g)
  {
    hide Tokens, Itoa, Atoi, Lower;
    AtoiOfItoa(g.count);
  }

  lemma {:induction false} PairsOfPrinted(gs: seq<AppGroup>)
    requires forall g :: g in gs && Printable(g) ==> OneToken(g)
    ensures ParsePairs(PrintedTokens(gs)) == Survivors(gs)
  {
    hide Tokens, Itoa, ParsePair, Survivor;
    if gs != [] {
      PairsOfPrinted(gs[1..]);
      if Printable(gs[0]) {
        assert gs[0] in gs;
        PairOfPrinted(gs[0]);
        var rest := PrintedTokens(gs[1..]);
        var ts := PrintedTokens(gs);
        assert ts == [Itoa(gs[0].count), Tokens(gs[0].template)[0]] + rest;
        assert ts[2..] == rest;
      } else {
        assert PrintedTokens(gs) == PrintedTokens(gs[1..]);
      }
    }
  }

  /** The list that is read back is the list of survivors, in order; the old list is kept if
      nothing survives. No group shifts the pairing of the others. */
  lemma ReadBack(before: seq<AppGroup>, gs: seq<AppGroup>)
    requires forall g :: g in gs && Printable(g) ==> OneToken(g)
    ensures Reread(before, Print(gs)) == if Survivors(gs) == [] then before else Survivors(gs)
  {
    TokensOfPrint(gs);
    PairsOfPrinted(gs);
  }

  predicate Letters(s: string) {
    s != "" && forall i :: 0 <= i < |s| ==> 'a' <= s[i] <= 'w' || s[i] == 'y' || s[i] == 'z'
  }

  /** A word holds no separator. */
  predicate Unseparated(w: string) { w != "" && forall i :: 0 <= i < |w| ==> !Separates(w[i]) }

  /** A count and a word are read as a group when the count is a positive number and the word is one of
      three templates, in any case; otherwise they are passed over. Reading goes on behind them. */
  lemma GroupIsRead(count: string, sep: string, word: string, sep': string, rest: string)
    requires Unseparated(count) && Unseparated(word)
    requires sep != "" && forall i :: 0 <= i < |sep| ==> Separates(sep[i])
    requires sep' != "" && forall i :: 0 <= i < |sep'| ==> Separates(sep'[i])
    ensures var n, t := Atoi(count), Lower(word);
      ParsePairs(Tokens(count + sep + word + sep' + rest)) ==
        (if n.Some? && n.value > 0 && t in {"light", "medium", "heavy"} then [AppGroup(n.value, t, 0, 0)] else [])
          + ParsePairs(Tokens(rest))
  {
    hide Atoi, Lower, Tokens, ParsePairs, Separates, Unseparated;
    CleanIs(count);
    CleanIs(word);
    TokensApart(count + sep + word, sep', rest);
    TokensApart(count, sep, word);
    TokensOfClean(count);
    TokensOfClean(word);
    assert [count] + [word] == [count, word];
    PairFirst(count, word, Tokens(rest));
  }

  lemma CleanIs(w: string)
    ensures Clean(w) <==> Unseparated(w)
  {
    hide White;
  }

  lemma PairFirst(count: string, word: string, rest: seq<string>)
    ensures ParsePairs([count, word] + rest) == ParsePair(count, word) + ParsePairs(rest)
  {
    hide ParsePair;
    assert ([count, word] + rest)[2..] == rest;
  }

  lemma {:induction false} LowerLetters(s: string)
    requires Letters(s)
    ensures Lower(s) == s
  {
    if |s| > 1 {
      LowerLetters(s[1..]);
    }
  }

  lemma WordOfLetters(s: string)
    requires Letters(s)
    ensures Lower(s) == s && Clean(s) && Tokens(s) == [s]
  {
    hide Tokens, Lower;
    LowerLetters(s);
    TokensOfClean(s);
  }

  lemma TemplateWords(t: string)
    requires KnownTemplate(t) || t == "custom"
    ensures Letters(t)
  {}

  /** A template that the configuration documents; the empty one stands for medium there. */
  predicate Documented(g: AppGroup) {
    g.template in {"", "light", "medium", "heavy", "custom"} && g.count <= MAX
  }

  /** A group that is restored as it was. */
  predicate Restorable(g: AppGroup) {
    g.count > 0 && g.template in {"light", "medium", "heavy"} && g.customCores == 0 && g.customMem == 0
  }

  lemma DocumentedIsOneToken(g: AppGroup)
    requires Documented(g) && Printable(g)
    ensures OneToken(g)
    ensures Survivor(g) == [g] <==> Restorable(g)
    ensures |Survivor(g)| <= 1
  {
    hide Tokens, Lower, Letters, Clean;
    TemplateWords(g.template);
    WordOfLetters(g.template);
  }

  lemma {:induction false} SurvivorsOf(gs: seq<AppGroup>)
    requires forall g :: g in gs ==> Documented(g)
    ensures forall g :: g in gs && Printable(g) ==> OneToken(g)
    ensures Survivors(gs) == gs <==> forall g :: g in gs ==> Restorable(g)
    ensures |Survivors(gs)| <= |gs|
  {
    hide Tokens, Documented, Survivor, OneToken, Restorable;
    forall g | g in gs && Printable(g) ensures OneToken(g) {
      DocumentedIsOneToken(g);
    }
    if gs != [] {
      SurvivorsOf(gs[1..]);
      assert gs == [gs[0]] + gs[1..];
      assert (forall g :: g in gs ==> Restorable(g))
        <==> Restorable(gs[0]) && forall g :: g in gs[1..] ==> Restorable(g);
      if Printable(gs[0]) {
        DocumentedIsOneToken(gs[0]);
        SurvivorsHead(gs);
      } else {
        NotRestorable(gs[0]);
      }
    }
  }

  lemma NotRestorable(g: AppGroup)
    requires !Printable(g)
    ensures !Restorable(g)
  {}

  lemma SurvivorsHead(gs: seq<AppGroup>)
    requires gs != [] && Printable(gs[0])
    requires forall g :: g in gs && Printable(g) ==> OneToken(g)
    requires |Survivor(gs[0])| <= 1 && |Survivors(gs[1..])| <= |gs| - 1
    ensures |Survivors(gs)| <= |gs|
    ensures Survivors(gs) == gs <==> Survivor(gs[0]) == [gs[0]] && Survivors(gs[1..]) == gs[1..]
  {
    hide Survivor, OneToken;
    var a, b := Survivor(gs[0]), Survivors(gs[1..]);
    assert Survivors(gs) == a + b;
    assert [gs[0]] + gs[1..] == gs;
    if a + b == gs {
      assert |a| == 1;
      assert a[0] == gs[0] && b == (a + b)[1..];
    }
  }

  /** A list of documented templates comes back as it was, whatever it is read over, exactly when
      it is not empty and every group is light, medium or heavy with a positive count and no custom
      size: custom groups and groups with the default template are lost. */
  lemma RestoredIff(gs: seq<AppGroup>)
    requires forall g :: g in gs ==> Documented(g)
    ensures (forall before :: Reread(before, Print(gs)) == gs) <==> gs != [] && forall g :: g in gs ==> Restorable(g)
  {
    hide Documented, Restorable, Survivors, OneToken, Reread, Print;
    SurvivorsOf(gs);
    forall before ensures Reread(before, Print(gs)) == if Survivors(gs) == [] then before else Survivors(gs) {
      ReadBack(before, gs);
    }
    assert |Survivors(gs)| <= |gs|;
    if forall before :: Reread(before, Print(gs)) == gs {
      var other := gs + [AppGroup(1, "light", 0, 0)];
      assert Reread(other, Print(gs)) == gs;
      assert other != gs;
    }
  }

  // ---------------------------------------------------------------- when the pairing drifts

  lemma {:induction false} PairsSplit(a: seq<string>, b: seq<string>)
    requires |a| % 2 == 0
    ensures ParsePairs(a + b) == ParsePairs(a) + ParsePairs(b)
  {
    hide ParsePair;
    if a == [] {
      assert a + b == b;
    } else {
      PairsSplit(a[2..], b);
      assert (a + b)[2..] == a[2..] + b;
      Regrouped(ParsePair(a[0], a[1]), ParsePairs(a[2..]), ParsePairs(b));
    }
  }

  lemma OddEnd(p: seq<string>, x: string, b: seq<string>)
    requires |p| % 2 == 0
    ensures ParsePairs(p + [x] + b) == ParsePairs(p + [x]) + ParsePairs([x] + b)
  {
    hide ParsePair;
    assert ParsePairs([x]) == [];
    hide ParsePairs;
    PairsSplit(p, [x]);
    var head := ParsePairs(p);
    assert head + [] == head;
    var rest := [x] + b;
    PairsSplit(p, rest);
    Regrouped(p, [x], b);
  }

  /** The words that one printed group takes up. */
  function GroupTokens(g: AppGroup): seq<string>
    requires Printable(g)
  {
    [Itoa(g.count)] + Tokens(g.template)
  }

  /** Whatever follows a group is read as if the group were not there exactly when its template is
      an odd number of words. */
  lemma PairingKeptIff(g: AppGroup)
    requires Printable(g)
    ensures (forall gs :: ParsePairs(GroupTokens(g) + PrintedTokens(gs))
                          == ParsePairs(GroupTokens(g)) + ParsePairs(PrintedTokens(gs)))
      <==> |Tokens(g.template)| % 2 == 1
  {
    hide ParsePairs, PrintedTokens, Tokens;
    var mine := GroupTokens(g);
    if |Tokens(g.template)| % 2 == 1 {
      forall gs ensures ParsePairs(mine + PrintedTokens(gs)) == ParsePairs(mine) + ParsePairs(PrintedTokens(gs)) {
        PairsSplit(mine, PrintedTokens(gs));
      }
    } else {
      var next := [AppGroup(1, "light", 0, 0)];
      var n := |mine| - 1;
      assert mine[..n] + [mine[n]] == mine;
      OddEnd(mine[..n], mine[n], PrintedTokens(next));
      LightTokens(mine[n]);
      assert ParsePairs(mine + PrintedTokens(next)) != ParsePairs(mine) + ParsePairs(PrintedTokens(next));
    }
  }

  lemma LightTokens(before: string)
    ensures var ts := PrintedTokens([AppGroup(1, "light", 0, 0)]);
      ParsePairs([before] + ts) == [] && ParsePairs(ts) == [AppGroup(1, "light", 0, 0)]
  {
    hide Tokens, Itoa, Lower, ParsePair;
    var g := AppGroup(1, "light", 0, 0);
    WordOfLetters("light");
    var one := Itoa(1);
    assert [g][1..] == [] && PrintedTokens([]) == [];
    assert Printable(g);
    var ts := PrintedTokens([g]);
    assert ts == ([one] + Tokens("light")) + [];
    assert ts == [one, "light"];
    LightPair(before);
    assert ParsePairs([before, one, "light"]) == ParsePair(before, one) + ParsePairs(["light"]);
    assert ([before] + ts) == [before, one, "light"];
    assert ParsePairs(ts) == ParsePair(one, "light") + ParsePairs([]);
  }

  lemma LightPair(before: string)
    ensures ParsePair(before, Itoa(1)) == []
    ensures ParsePair(Itoa(1), "light") == [AppGroup(1, "light", 0, 0)]
  {
    hide Atoi, Itoa, Lower, KnownTemplate;
    AtoiOfItoa(1);
    OneIsNoTemplate();
    LightIsTemplate();
  }

  lemma OneIsNoTemplate()
    ensures !KnownTemplate(Lower(Itoa(1)))
  {
    hide Itoa;
    ItoaDigits(1);
    assert Digit(Itoa(1)[0]);
    assert Lower(Itoa(1))[0] == Itoa(1)[0];
  }

  lemma LightIsTemplate()
    ensures Lower("light") == "light" && KnownTemplate("light")
  {
    LowerLetters("light");
  }
}
