/** The label patches and the kube-proxy patch leave the identity of the cluster alone, in any
    order (internal/capi/manifest/generate.go, patches.go and internal/capi/caaph/caaph.go). */
module IdentityEdits {
  import opened Text
  import opened Identity
  import Labels
  import ClusterLabel
  import ControlPlane

  // ---------------------------------------------------------------- the new lines are harmless

  lemma ApiLetters(l: string, c: nat)
    requires c + 1 < |l| && ApiAt(l, c)
    ensures l[c] == 'a' && l[c + 1] == 'p'
  {
    PrefixChar(l[c..], API, 0);
    PrefixChar(l[c..], API, 1);
  }

  lemma NoApi(l: string)
    requires forall c :: 0 <= c < |l| - 1 ==> !(l[c] == 'a' && l[c + 1] == 'p')
    ensures !OpensVersion(l)
  {
    forall c | 0 <= c <= |l| ensures !ApiAt(l, c) {
      if ApiAt(l, c) {
        assert |l[c..]| >= |API|;
        ApiLetters(l, c);
      }
    }
  }

  /** A line that ends in a character of its own is not the start of a version. */
  lemma ClosedLine(l: string)
    requires l != "" && !White(Regex, l[|l| - 1]) && l[|l| - 1] != ':'
    ensures !Blank(l) && !OpensVersion(l)
  {
    LeadFull(Regex, l);
    forall c | 0 <= c <= |l| && ApiAt(l, c) ensures !Blank(l[c + |API|..]) {
      PrefixChar(l[c..], API, |API| - 1);
      LeadFull(Regex, l[c + |API|..]);
      assert c + |API| < |l| ==> l[c + |API|..][|l| - c - |API| - 1] == l[|l| - 1];
    }
  }

  lemma DeepIsNoField(l: string)
    requires HasPrefix(l, "   ")
    ensures HasPrefix(l, "  ") && !HasPrefix(l, NAME) && !HasPrefix(l, NAMESPACE)
  {
    assert l[..3][..2] == l[..2];
    PrefixChar(l, "   ", 2);
    PrefixChar(l, NAME, 2);
    PrefixChar(l, NAMESPACE, 2);
  }

  lemma DeepIsHarmless(indent: string, t: string)
    requires |indent| >= 3 && forall i :: 0 <= i < |indent| ==> indent[i] == ' '
    requires !Blank(indent + t) && !OpensVersion(indent + t)
    ensures Harmless(indent + t)
  {
    hide OpensVersion, Blank;
    assert (indent + t)[..3] == "   ";
    DeepIsNoField(indent + t);
  }

  lemma SkipLineIsHarmless()
    ensures Harmless(ControlPlane.SKIP_LINE)
  {
    hide OpensVersion, Harmless, Blank, Lead;
    NoApi(ControlPlane.SKIP_LINE);
    ControlPlane.SkipLineShape();
    DeepIsHarmless("      ", ControlPlane.SKIP);
  }

  lemma PhaseLineIsHarmless()
    ensures Harmless(ControlPlane.PHASE_LINE)
  {
    hide OpensVersion, Harmless, Blank, Lead;
    ControlPlane.PhaseLineShape();
    ClosedLine(ControlPlane.PHASE_LINE);
    DeepIsHarmless("        ", ControlPlane.ITEM);
  }

  lemma LabelsLineIsHarmless()
    ensures Harmless(Labels.LABELS_LINE)
  {
    var l := Labels.LABELS_LINE;
    assert l == "  " + Labels.LABELS;
    NoApi(l);
    LeadIs(Regex, "  ", Labels.LABELS);
    assert l[..2] == "  ";
    PrefixChar(l, NAME, 2);
    PrefixChar(l, NAMESPACE, 2);
  }

  /** The label line of any cluster name. */
  lemma LabelLineIsHarmless(name: string)
    ensures Harmless(ClusterLabel.LabelLine(name))
  {
    hide Harmless, OpensVersion, Blank, ClusterLabel.LabelText;
    var t := ClusterLabel.LabelText(name);
    ClusterLabel.LabelTextShape(name);
    assert (Labels.INDENT + t)[|Labels.INDENT + t| - 1] == '"';
    ClosedLine(Labels.INDENT + t);
    DeepIsHarmless(Labels.INDENT, t);
  }

  /** What is known of Go's %q: the result ends in a quote. */
  ghost predicate Quotes(quote: Labels.Quote) {
    forall s :: quote(s) != "" && quote(s)[|quote(s)| - 1] == QUOTE
  }

  lemma EntryIsHarmless(quote: Labels.Quote, lbl: Labels.Label)
    requires Quotes(quote)
    ensures Harmless(Labels.Entry(quote, lbl))
  {
    hide Harmless, OpensVersion, Blank;
    var e := Labels.Entry(quote, lbl);
    assert quote(lbl.value)[|quote(lbl.value)| - 1] == QUOTE;
    if lbl.value == Labels.ENABLED && lbl.key == Labels.CAAPH {
      assert e == Labels.INDENT + (Labels.CAAPH + ": " + Labels.ENABLED);
      assert e[|e| - 1] == 'd';
      ClosedLine(e);
      DeepIsHarmless(Labels.INDENT, Labels.CAAPH + ": " + Labels.ENABLED);
    } else {
      assert e == Labels.INDENT + (lbl.key + ": " + quote(lbl.value));
      ClosedLine(e);
      DeepIsHarmless(Labels.INDENT, lbl.key + ": " + quote(lbl.value));
    }
  }

  // ---------------------------------------------------------------- one document after another

  /** The text in which document `k` is `d`. */
  function WithDoc(docs: seq<seq<string>>, k: nat, d: seq<string>): seq<string>
    requires k < |docs|
  {
    JoinDocs(docs[k := d])
  }

  /** Wherever document `x` stands in a text, `y` in its place leaves the identity alone. */
  ghost predicate SameIdentity(x: seq<string>, y: seq<string>) {
    forall docs: seq<seq<string>>, k: nat :: k < |docs| ==>
      Discover(WithDoc(docs, k, y)) == Discover(WithDoc(docs, k, x))
  }

  lemma {:induction false} DocByDoc(a: seq<seq<string>>, b: seq<seq<string>>, k: nat)
    requires a != [] && |a| == |b| && k <= |a| && forall i :: 0 <= i < |a| ==> SameIdentity(a[i], b[i])
    ensures Discover(JoinDocs(b[..k] + a[k..])) == Discover(JoinDocs(a))
  {
    hide Discover, JoinDocs;
    if k == 0 {
      assert b[..0] + a[0..] == a;
    } else {
      DocByDoc(a, b, k - 1);
      assert SameIdentity(a[k - 1], b[k - 1]);
      var mixed := b[..k - 1] + a[k - 1..];
      assert mixed[k - 1 := a[k - 1]] == mixed;
      assert mixed[k - 1 := b[k - 1]] == b[..k] + a[k..];
      assert Discover(WithDoc(mixed, k - 1, b[k - 1])) == Discover(WithDoc(mixed, k - 1, a[k - 1]));
    }
  }

  lemma AllDocs(a: seq<seq<string>>, b: seq<seq<string>>)
    requires a != [] && |a| == |b| && forall i :: 0 <= i < |a| ==> SameIdentity(a[i], b[i])
    ensures Discover(JoinDocs(b)) == Discover(JoinDocs(a))
  {
    hide Discover, JoinDocs, SameIdentity;
    DocByDoc(a, b, |a|);
    assert b[..|a|] + a[|a|..] == b;
  }

  lemma Untouched(x: seq<string>)
    ensures SameIdentity(x, x)
  {}

  lemma InsertionSame(doc: seq<string>, p: nat, f: seq<string>)
    requires 0 < p <= |doc| && Quiet(doc, p) && forall i :: 0 <= i < |f| ==> Harmless(f[i])
    ensures SameIdentity(doc, InsertAll(doc, p, f))
  {
    hide Discover, Quiet, Harmless, JoinDocs;
    if f == [] {
      assert InsertAll(doc, p, f) == doc;
    } else {
      HarmlessIsInert(doc[p - 1], f);
      var out := InsertAll(doc, p, f);
      forall docs: seq<seq<string>>, k: nat | k < |docs|
        ensures Discover(WithDoc(docs, k, out)) == Discover(WithDoc(docs, k, doc))
      {
        InsertionInDocKeepsIdentity(docs[k := doc], k, p, f);
        assert docs[k := doc][k := out] == docs[k := out];
      }
    }
  }

  // ---------------------------------------------------------------- the cluster-name label

  /** The place of the label in the first Cluster document is quiet. */
  predicate LabelPlaceQuiet(docs: seq<seq<string>>) {
    var k := ClusterLabel.FirstCluster(docs);
    k < |docs| ==> LabelQuiet(docs[k])
  }

  predicate LabelQuiet(doc: seq<string>) {
    var meta := Labels.IndexOf(doc, Labels.METADATA, 0, |doc|);
    meta != -1 ==> Quiet(doc, ClusterLabel.PlaceOf(doc, meta))
  }

  lemma NewLinesHarmless(name: string, ls: seq<string>, meta: nat)
    requires meta < |ls|
    ensures forall i :: 0 <= i < |ClusterLabel.NewLines(name, ls, meta)| ==>
      Harmless(ClusterLabel.NewLines(name, ls, meta)[i])
  {
    hide Harmless, ClusterLabel.LabelLine;
    LabelsLineIsHarmless();
    LabelLineIsHarmless(name);
  }

  lemma LabelSame(name: string, doc: seq<string>)
    requires LabelQuiet(doc)
    ensures SameIdentity(doc, ClusterLabel.EnsureDoc(name, doc))
  {
    hide SameIdentity, Quiet, Harmless, ClusterLabel.PlaceOf, ClusterLabel.NewLines, ClusterLabel.EnsureLines;
    hide Labels.IndexOf;
    var meta := Labels.IndexOf(doc, Labels.METADATA, 0, |doc|);
    if meta == -1 {
      Untouched(doc);
    } else {
      ClusterLabel.EnsureIsInsertion(name, doc, meta);
      NewLinesHarmless(name, doc, meta);
      InsertionSame(doc, ClusterLabel.PlaceOf(doc, meta), ClusterLabel.NewLines(name, doc, meta));
    }
  }

  lemma LabelKeepsIdentity(name: string, text: seq<string>)
    requires text != [] && LabelPlaceQuiet(SplitDocs(text))
    ensures Discover(ClusterLabel.EnsureText(name, text)) == Discover(text)
  {
    hide Discover, LabelQuiet, SameIdentity, ClusterLabel.EnsureDoc;
    var docs := SplitDocs(text);
    JoinOfSplit(text);
    ClusterLabel.EnsureDocsIs(name, docs);
    var out := ClusterLabel.EnsureDocs(name, docs);
    forall i | 0 <= i < |docs| ensures SameIdentity(docs[i], out[i]) {
      if i == ClusterLabel.FirstCluster(docs) {
        LabelSame(name, docs[i]);
      } else {
        Untouched(docs[i]);
      }
    }
    AllDocs(docs, out);
  }

  // ---------------------------------------------------------------- the Helm labels

  /** The place of the labels in a Cluster document is quiet. */
  predicate HelmQuiet(doc: seq<string>) {
    Labels.IsCluster(doc) ==>
      var meta := Labels.IndexOf(doc, Labels.METADATA, 0, |doc|);
      meta != -1 ==> Quiet(doc, Labels.Place(doc, meta, Labels.Start(doc, meta)))
  }

  lemma {:induction false} EntriesHarmless(quote: Labels.Quote, lbls: seq<Labels.Label>)
    requires Quotes(quote)
    ensures forall i :: 0 <= i < |lbls| ==> Harmless(Labels.Entries(quote, lbls)[i])
  {
    hide Harmless, Labels.Entry;
    if lbls != [] {
      EntryIsHarmless(quote, lbls[0]);
      EntriesHarmless(quote, lbls[1..]);
    }
  }

  lemma FreshHarmless(quote: Labels.Quote, meta: nat, b: Labels.Block, lbls: seq<Labels.Label>)
    requires Labels.InShape(meta, b) && Quotes(quote)
    ensures var f := Labels.Fresh(quote, meta, b, lbls); forall i :: 0 <= i < |f| ==> Harmless(f[i])
  {
    hide Harmless, Labels.Entry, Labels.Missing;
    LabelsLineIsHarmless();
    EntriesHarmless(quote, Labels.Missing(b.lines[meta..b.end], lbls));
  }

  lemma HelmSame(quote: Labels.Quote, lbls: seq<Labels.Label>, doc: seq<string>)
    requires Labels.Keys(lbls) && Quotes(quote) && HelmQuiet(doc)
    ensures SameIdentity(doc, Labels.PatchDoc(quote, lbls, doc))
  {
    hide SameIdentity, Quiet, Harmless, Labels.IsCluster, Labels.Place, Labels.Fresh, Labels.Start, Labels.PatchDoc;
    Labels.PatchIsInsertion(quote, lbls, doc);
    var meta := Labels.IndexOf(doc, Labels.METADATA, 0, |doc|);
    if Labels.IsCluster(doc) && meta != -1 {
      var b := Labels.Start(doc, meta);
      FreshHarmless(quote, meta, b, lbls);
      InsertionSame(doc, Labels.Place(doc, meta, b), Labels.Fresh(quote, meta, b, lbls));
    } else {
      Untouched(doc);
    }
  }

  lemma HelmKeepsIdentity(quote: Labels.Quote, lbls: seq<Labels.Label>, text: seq<string>)
    requires text != [] && Labels.Keys(lbls) && Quotes(quote)
    requires forall i :: 0 <= i < |SplitDocs(text)| ==> HelmQuiet(SplitDocs(text)[i])
    ensures Discover(Labels.PatchText(quote, lbls, text)) == Discover(text)
  {
    hide Discover, HelmQuiet, SameIdentity, Labels.PatchDoc;
    var docs := SplitDocs(text);
    JoinOfSplit(text);
    var out := Labels.PatchDocs(quote, lbls, docs);
    forall i | 0 <= i < |docs| ensures SameIdentity(docs[i], out[i]) {
      Labels.PatchDocsAt(quote, lbls, docs, i);
      HelmSame(quote, lbls, docs[i]);
    }
    AllDocs(docs, out);
  }

  // ---------------------------------------------------------------- the skip phase, added

  lemma InitIsQuiet()
    ensures var l := ControlPlane.INIT; Stops(l) && Unseen(l)
  {
    var l := ControlPlane.INIT;
    NoApi(l);
    assert l[..3] == "   ";
    DeepIsNoField(l);
    IndentedIsNot(l);
    assert "initConfiguration:"[0] == 'i';
    LeadIs(Regex, "    ", "initConfiguration:");
  }

  /** A line that does not go on with a header. */
  predicate NoHeader(l: string) { !HasPrefix(l, KIND) && l != METADATA }

  /** The line below `initConfiguration:` does not belong to a header. */
  predicate InitQuiet(ls: seq<string>) {
    forall i :: 0 <= i < |ls| - 1 && ls[i] == ControlPlane.INIT ==> NoHeader(ls[i + 1])
  }

  /** Lines go in behind an `initConfiguration:` line, or come out. */
  lemma BehindInit(before: seq<string>, f: seq<string>, tail: seq<string>)
    requires tail != [] && NoHeader(tail[0]) && Inert(ControlPlane.INIT, f)
    ensures Discover(before + [ControlPlane.INIT] + f + tail) == Discover(before + [ControlPlane.INIT] + tail)
  {
    hide Discover, Stops, Unseen;
    var head := before + [ControlPlane.INIT];
    var ls, p := head + tail, |head|;
    assert ls[p - 1] == ControlPlane.INIT && ls[p] == tail[0];
    InitIsQuiet();
    InitIsNoField();
    assert ls[..p] == head && ls[p..] == tail;
    InsertionKeepsIdentity(ls, p, f);
  }

  lemma InitIsNoField()
    ensures var l := ControlPlane.INIT; l != METADATA && !HasPrefix(l, NAME) && !HasPrefix(l, NAMESPACE)
  {
    hide Stops;
    InitIsQuiet();
  }

  lemma {:induction false} PhaseKeepsIdentity(before: seq<string>, ls: seq<string>, after: seq<string>)
    requires InitQuiet(ls)
    ensures Discover(before + ControlPlane.AddPhase(ls) + after) == Discover(before + ls + after)
    decreases |ls|
  {
    hide Discover, ControlPlane.WithPhase;
    if ls != [] {
      var x, rest := ls[0], ls[1..];
      var grown := ControlPlane.AddPhase(rest);
      assert InitQuiet(rest) by {
        assert forall i :: 0 <= i < |rest| ==> rest[i] == ls[i + 1];
      }
      PhaseKeepsIdentity(before + [x], rest, after);
      assert before + [x] + rest + after == before + ls + after;
      if x == ControlPlane.INIT && |ls| > 1 {
        OnePhase(before, grown, after);
      } else {
        assert before + [x] + grown + after == before + ([x] + grown) + after;
      }
    }
  }

  lemma OnePhase(before: seq<string>, grown: seq<string>, after: seq<string>)
    requires grown != [] && NoHeader(grown[0])
    ensures Discover(before + ControlPlane.WithPhase(grown) + after)
      == Discover(before + [ControlPlane.INIT] + grown + after)
  {
    hide Discover, Harmless, Inert;
    var f := [ControlPlane.SKIP_LINE, ControlPlane.PHASE_LINE];
    SkipLineIsHarmless();
    PhaseLineIsHarmless();
    HarmlessIsInert(ControlPlane.INIT, f);
    BehindInit(before, f, grown + after);
    assert before + ControlPlane.WithPhase(grown) + after == before + [ControlPlane.INIT] + f + (grown + after);
    assert before + [ControlPlane.INIT] + grown + after == before + [ControlPlane.INIT] + (grown + after);
  }

  // ---------------------------------------------------------------- the skip phase, removed

  /** A white line, or one that starts like one of the lines of a skip phase. */
  predicate SkipLike(l: string) {
    Blank(l) || (TrimLeft(Regex, l) != "" && TrimLeft(Regex, l)[0] in {'s', '-', 'a'})
  }

  lemma FirstLetter(l: string, p: string, i: nat)
    requires i < |p| && HasPrefix(l, p) && AllWhite(Regex, p[..i]) && !White(Regex, p[i])
    ensures !Blank(l) && TrimLeft(Regex, l) != "" && TrimLeft(Regex, l)[0] == p[i]
  {
    PrefixChar(l, p, i);
    assert l == l[..i] + l[i..] && l[..i] == p[..i];
    LeadIs(Regex, l[..i], l[i..]);
  }

  lemma SkipLikeUnseen(l: string)
    requires SkipLike(l)
    ensures Unseen(l) && !HasPrefix(l, KIND)
  {
    hide Blank, Lead, HasPrefix;
    if HasPrefix(l, NAME) { FirstLetter(l, NAME, 2); }
    if HasPrefix(l, NAMESPACE) { FirstLetter(l, NAMESPACE, 2); }
    if HasPrefix(l, KIND) { FirstLetter(l, KIND, 0); }
    WholePrefix(METADATA);
    FirstLetter(METADATA, METADATA, 0);
  }

  lemma WholePrefix(l: string)
    ensures HasPrefix(l, l)
  {}

  /** The line the match ends on ends in the phase, and nothing else. */
  predicate EndsInPhase(l: string) { !Blank(l) && l != "" && l[|l| - 1] == 'y' }

  lemma PhaseEnd(l: string)
    requires TrimLeft(Regex, l) == ControlPlane.PHASE
    ensures SkipLike(l) && EndsInPhase(l)
  {
    assert l[Lead(Regex, l)..] == ControlPlane.PHASE;
  }

  lemma DashPhase(l: string, t: string)
    requires t == TrimLeft(Regex, l) && t != "" && t[0] == '-' && TrimLeft(Regex, t[1..]) == ControlPlane.PHASE
    ensures SkipLike(l) && EndsInPhase(l)
  {
    var u := t[1..];
    assert u[Lead(Regex, u)..] == ControlPlane.PHASE;
    assert l[|l| - 1] == t[|t| - 1] == u[|u| - 1];
  }

  lemma ItemLines(ls: seq<string>)
    requires ControlPlane.ItemEnd(ls, true) != -1
    ensures var e := ControlPlane.ItemEnd(ls, true);
      EndsInPhase(ls[e]) && forall k :: 0 <= k <= e ==> SkipLike(ls[k])
  {
    hide Lead, Blank, EndsInPhase;
    var j := NextNonBlank(ls, 0);
    var t := TrimLeft(Regex, ls[j]);
    assert SkipLike(ls[j]);
    if Lead(Regex, t[1..]) > 0 && TrimLeft(Regex, t[1..]) == ControlPlane.PHASE {
      DashPhase(ls[j], t);
    } else {
      PhaseEnd(ls[NextNonBlank(ls, j + 1)]);
    }
  }

  lemma BlockLines(ls: seq<string>)
    requires ControlPlane.BlockAt(ls) != -1
    ensures var e := ControlPlane.BlockAt(ls);
      EndsInPhase(ls[e]) && forall k :: 1 <= k <= e ==> SkipLike(ls[k])
  {
    hide ControlPlane.ItemEnd, Lead, EndsInPhase;
    var j := NextNonBlank(ls, 1);
    var tail := ls[j + 1..];
    ItemLines(tail);
    var e := ControlPlane.BlockAt(ls);
    assert SkipLike(ls[j]);
    assert ls[e] == tail[e - j - 1];
    forall k | 1 <= k <= e ensures SkipLike(ls[k]) {
      if k > j {
        assert ls[k] == tail[k - j - 1];
      }
    }
  }

  lemma BlockIsInert(ls: seq<string>)
    requires ControlPlane.BlockAt(ls) != -1
    ensures var e := ControlPlane.BlockAt(ls); Inert(ControlPlane.INIT, ls[1..e + 1])
  {
    hide ControlPlane.BlockAt, Blank, OpensVersion, HasPrefix, SkipLike, Unseen;
    BlockLines(ls);
    var e := ControlPlane.BlockAt(ls);
    var f := ls[1..e + 1];
    forall k | 0 <= k < |f| ensures Unseen(f[k]) && !HasPrefix(f[k], KIND) {
      SkipLikeUnseen(f[k]);
    }
    ClosedLine(ls[e]);
    InitIsNoField();
  }

  /** The line below a block that is cut out does not belong to a header. */
  predicate CutQuiet(ls: seq<string>) {
    forall i :: 0 <= i < |ls| && ControlPlane.BlockAt(ls[i..]) != -1 ==>
      NoHeader(ls[i..][ControlPlane.BlockAt(ls[i..]) + 1])
  }

  lemma CutQuietTail(ls: seq<string>, n: nat)
    requires CutQuiet(ls) && n <= |ls|
    ensures CutQuiet(ls[n..])
  {
    hide ControlPlane.BlockAt, NoHeader;
    forall i | 0 <= i < |ls[n..]| ensures ls[n..][i..] == ls[n + i..] {}
  }

  lemma {:induction false} CutKeepsIdentity(before: seq<string>, ls: seq<string>, after: seq<string>)
    requires CutQuiet(ls)
    ensures Discover(before + ControlPlane.RemovePhase(ls) + after) == Discover(before + ls + after)
    decreases |ls|
  {
    hide Discover, ControlPlane.BlockAt, NoHeader, CutQuiet, Inert;
    if ls != [] {
      var e := ControlPlane.BlockAt(ls);
      var n := if e != -1 then e + 1 else 1;
      CutQuietTail(ls, n);
      var rest := ls[n..];
      CutKeepsIdentity(before + [ls[0]], rest, after);
      assert before + [ls[0]] + ControlPlane.RemovePhase(rest) + after
        == before + ([ls[0]] + ControlPlane.RemovePhase(rest)) + after;
      if e != -1 {
        CutOne(before, ls, after);
      } else {
        assert before + [ls[0]] + rest + after == before + ls + after;
      }
    }
  }

  lemma CutOne(before: seq<string>, ls: seq<string>, after: seq<string>)
    requires ls != [] && CutQuiet(ls) && ControlPlane.BlockAt(ls) != -1
    ensures ls[0] == ControlPlane.INIT
    ensures Discover(before + [ls[0]] + ls[ControlPlane.BlockAt(ls) + 1..] + after) == Discover(before + ls + after)
  {
    hide Discover, NoHeader, Inert, ControlPlane.BlockAt, CutQuiet;
    var e := ControlPlane.BlockAt(ls);
    var f, rest := ls[1..e + 1], ls[e + 1..];
    CutQuietHead(ls);
    BlockIsInert(ls);
    BehindInit(before, f, rest + after);
    CutPieces(before, ls, e, after);
  }

  lemma CutQuietHead(ls: seq<string>)
    requires ls != [] && CutQuiet(ls) && ControlPlane.BlockAt(ls) != -1
    ensures ls[0] == ControlPlane.INIT && NoHeader(ls[ControlPlane.BlockAt(ls) + 1])
  {
    hide ControlPlane.BlockAt, NoHeader;
    ControlPlane.BlockStarts(ls);
    assert ls[0..] == ls;
    assert NoHeader(ls[0..][ControlPlane.BlockAt(ls) + 1]);
  }

  lemma CutPieces(before: seq<string>, ls: seq<string>, e: nat, after: seq<string>)
    requires e < |ls|
    ensures before + [ls[0]] + ls[1..e + 1] + (ls[e + 1..] + after) == before + ls + after
    ensures before + [ls[0]] + (ls[e + 1..] + after) == before + [ls[0]] + ls[e + 1..] + after
  {
    assert [ls[0]] + ls[1..e + 1] + ls[e + 1..] == ls;
  }

  // ---------------------------------------------------------------- the kube-proxy patch on a text

  /** Where documents are cut out of a text and put back. */
  lemma {:induction false} AroundDoc(docs: seq<seq<string>>, k: nat) returns (before: seq<string>, after: seq<string>)
    requires k < |docs|
    ensures forall d :: JoinDocs(docs[k := d]) == before + d + after
  {
    if k == 0 {
      before, after := [], if |docs| == 1 then [] else [SEPARATOR] + JoinDocs(docs[1..]);
      forall d ensures JoinDocs(docs[k := d]) == before + d + after {
        FirstDoc(docs, d);
      }
    } else {
      var b, a := AroundDoc(docs[1..], k - 1);
      before, after := docs[0] + [SEPARATOR] + b, a;
      forall d ensures JoinDocs(docs[k := d]) == before + d + after {
        assert docs[k := d][1..] == docs[1..][k - 1 := d];
        assert JoinDocs(docs[k := d]) == docs[0] + [SEPARATOR] + (b + d + a);
      }
    }
  }

  lemma FirstDoc(docs: seq<seq<string>>, d: seq<string>)
    requires docs != []
    ensures JoinDocs(docs[0 := d]) == [] + d + (if |docs| == 1 then [] else [SEPARATOR] + JoinDocs(docs[1..]))
  {
    assert docs[0 := d][1..] == docs[1..];
  }

  /** What the patch asks of a control-plane document; nothing of any other. */
  predicate PhaseQuiet(add: bool, ls: seq<string>) {
    ControlPlane.IsControlPlane(ls) ==> if add then InitQuiet(ls) else CutQuiet(ls)
  }

  lemma PhaseSame(add: bool, doc: seq<string>)
    requires PhaseQuiet(add, doc)
    ensures SameIdentity(doc, ControlPlane.PatchPhase(add, doc))
  {
    hide Discover, JoinDocs, ControlPlane.AddPhase, ControlPlane.RemovePhase, ControlPlane.IsControlPlane;
    hide ControlPlane.HasPhase, InitQuiet, CutQuiet;
    var out := ControlPlane.PatchPhase(add, doc);
    forall docs: seq<seq<string>>, k: nat | k < |docs|
      ensures Discover(WithDoc(docs, k, out)) == Discover(WithDoc(docs, k, doc))
    {
      var before, after := AroundDoc(docs, k);
      assert JoinDocs(docs[k := doc]) == before + doc + after;
      assert JoinDocs(docs[k := out]) == before + out + after;
      if out != doc {
        if add {
          PhaseKeepsIdentity(before, doc, after);
        } else {
          CutKeepsIdentity(before, doc, after);
        }
      }
    }
  }

  /** Adding the skip phase and removing it. */
  lemma SkipPhasesKeepIdentity(add: bool, text: seq<string>)
    requires text != [] && forall i :: 0 <= i < |SplitDocs(text)| ==> PhaseQuiet(add, SplitDocs(text)[i])
    ensures Discover(ControlPlane.PatchPhaseText(add, text)) == Discover(text)
  {
    hide Discover, PhaseQuiet, SameIdentity, ControlPlane.PatchPhase;
    var docs := SplitDocs(text);
    JoinOfSplit(text);
    var out := ControlPlane.PatchPhases(add, docs);
    forall i | 0 <= i < |docs| ensures SameIdentity(docs[i], out[i]) {
      ControlPlane.PatchPhasesAt(add, docs, i);
      PhaseSame(add, docs[i]);
    }
    AllDocs(docs, out);
  }
}
