/** The label patches and the kube-proxy patch in any order and any number: one look at the manifest
    tells that none of them can change the identity of the cluster. */
module IdentityOrder {
  import opened Text
  import opened Identity
  import opened IdentityEdits
  import Labels
  import ClusterLabel
  import ControlPlane

  // ---------------------------------------------------------------- what to look for

  /** A line of a metadata block that nothing runs on from. */
  predicate CalmLine(l: string) {
    !Blank(l) && !OpensVersion(l) && !OpenField(l, NAME) && !OpenField(l, NAMESPACE)
  }

  /** A metadata block without white lines, with its first line indented, that no header follows. */
  predicate Calm(ls: seq<string>, meta: nat, end: nat)
    requires end <= |ls|
  {
    && meta + 1 < end && HasPrefix(ls[meta + 1], "  ")
    && (forall k :: meta < k < end ==> CalmLine(ls[k]))
    && (end < |ls| ==> NoHeader(ls[end]))
  }

  /** No header line below an `initConfiguration:` line. */
  predicate Settled(ls: seq<string>) {
    forall i, j :: 0 <= i < j < |ls| && ls[i] == ControlPlane.INIT ==> NoHeader(ls[j])
  }

  /** One document: a Cluster has a calm block, a control plane is settled, and none is both. */
  predicate Orderly(doc: seq<string>) {
    && !(Labels.IsCluster(doc) && ControlPlane.IsControlPlane(doc))
    && (Labels.IsCluster(doc) ==>
          var meta := Labels.IndexOf(doc, Labels.METADATA, 0, |doc|);
          meta != -1 ==> Calm(doc, meta, Labels.BlockEnd(doc, meta + 1)))
    && (ControlPlane.IsControlPlane(doc) ==> Settled(doc))
  }

  predicate AllOrderly(docs: seq<seq<string>>) { forall k :: 0 <= k < |docs| ==> Orderly(docs[k]) }

  // ---------------------------------------------------------------- a calm block

  lemma InBlock(l: string)
    requires !Labels.Closes(l)
    ensures NoHeader(l)
  {
    if l != "" {
      PrefixChar(l, " ", 0);
      PrefixChar(l, KIND, 0);
    }
  }

  lemma CalmIsQuiet(ls: seq<string>, meta: nat, p: nat)
    requires meta < |ls| && Calm(ls, meta, Labels.BlockEnd(ls, meta + 1))
    requires meta + 1 < p <= Labels.BlockEnd(ls, meta + 1)
    ensures Quiet(ls, p)
  {
    hide Blank, OpensVersion, HasPrefix, Labels.BlockEnd, Labels.Closes;
    var end := Labels.BlockEnd(ls, meta + 1);
    assert CalmLine(ls[p - 1]);
    InBlock(ls[p - 1]);
    if p < end {
      InBlock(ls[p]);
    }
  }

  lemma MetadataLine(l: string)
    requires Labels.Reads(l, Labels.METADATA)
    ensures !Blank(l) && !HasPrefix(l, KIND)
  {
    hide Lead, Trail, Trim;
    var a, b := TrimParts(Unicode, l);
    LeadFull(Regex, l);
    assert l[|a|] == 'm';
    PrefixChar(l, KIND, 0);
    assert a != [] ==> l[0] == a[0];
  }

  /** A `kind:` line of the new text is one of the old text, with its value. */
  lemma KindWasThere(ls: seq<string>, meta: nat, p: nat, f: seq<string>, i: nat) returns (j: nat)
    requires meta < p <= |ls| && !Blank(ls[meta]) && forall k :: meta <= k < p ==> !HasPrefix(ls[k], KIND)
    requires forall k :: 0 <= k < |f| ==> !HasPrefix(f[k], KIND)
    requires i < |ls| + |f| && HasPrefix(InsertAll(ls, p, f)[i], KIND)
    ensures j < |ls| && HasPrefix(ls[j], KIND) && FieldValue(ls, j, KIND) == FieldValue(InsertAll(ls, p, f), i, KIND)
  {
    hide FieldValue, HasPrefix, Blank, InsertAll;
    InsertAllAt(ls, p, f);
    if i < p {
      j := i;
      FieldAbove(ls, p, f, j, KIND, meta);
    } else {
      assert i >= p + |f|;
      j := i - |f|;
      FieldBelow(ls, p, f, j, KIND);
    }
  }

  /** New lines in the block bring no control plane. */
  lemma NoNewControlPlane(ls: seq<string>, meta: nat, p: nat, f: seq<string>)
    requires meta < |ls| && Labels.Reads(ls[meta], Labels.METADATA) && meta < p <= Labels.BlockEnd(ls, meta + 1)
    requires forall i :: 0 <= i < |f| ==> !HasPrefix(f[i], KIND)
    ensures ControlPlane.IsControlPlane(InsertAll(ls, p, f)) ==> ControlPlane.IsControlPlane(ls)
  {
    hide FieldValue, Labels.BlockEnd, Labels.Closes, HasPrefix, Labels.Reads, Blank, InsertAll;
    var out := InsertAll(ls, p, f);
    if ControlPlane.IsControlPlane(out) {
      var i :| 0 <= i < |out| && HasPrefix(out[i], KIND) && FieldValue(out, i, KIND) == ControlPlane.KCP;
      MetadataLine(ls[meta]);
      forall k | meta < k < p ensures !HasPrefix(ls[k], KIND) {
        InBlock(ls[k]);
      }
      var j := KindWasThere(ls, meta, p, f, i);
    }
  }

  lemma InsertCalm(ls: seq<string>, meta: nat, end: nat, p: nat, f: seq<string>)
    requires end <= |ls| && Calm(ls, meta, end) && meta + 1 < p <= end
    requires forall i :: 0 <= i < |f| ==> Harmless(f[i])
    ensures Calm(InsertAll(ls, p, f), meta, end + |f|)
  {
    hide Blank, OpensVersion, HasPrefix, NoHeader, InsertAll;
    var out := InsertAll(ls, p, f);
    InsertAllAt(ls, p, f);
    forall k | meta < k < end + |f| ensures CalmLine(out[k]) {
      if p <= k < p + |f| {
        assert Harmless(f[k - p]);
      } else {
        assert CalmLine(ls[if k < p then k else k - |f|]);
      }
    }
  }

  /** Harmless lines in the block of an orderly Cluster leave it one. */
  lemma InsertOrderly(ls: seq<string>, meta: nat, p: nat, f: seq<string>)
    requires Orderly(ls) && Labels.IsCluster(ls) && meta < |ls|
    requires Labels.IndexOf(ls, Labels.METADATA, 0, |ls|) == meta && meta + 1 < p <= Labels.BlockEnd(ls, meta + 1)
    requires forall i :: 0 <= i < |f| ==> Harmless(f[i])
    ensures Orderly(InsertAll(ls, p, f))
  {
    hide Labels.IsCluster, ControlPlane.IsControlPlane, Labels.IndexOf, Labels.BlockEnd, Calm, InsertAll, Harmless;
    hide Labels.Closes, HasPrefix, NoHeader, Settled;
    forall i | 0 <= i < |f| ensures !Labels.Closes(f[i]) && !HasPrefix(f[i], KIND) {
      HarmlessInBlock(f[i]);
    }
    Labels.InsertKeepsHead(ls, meta, p, f);
    InsertCalm(ls, meta, Labels.BlockEnd(ls, meta + 1), p, f);
    NoNewControlPlane(ls, meta, p, f);
  }

  lemma HarmlessInBlock(l: string)
    requires Harmless(l)
    ensures !Labels.Closes(l) && !HasPrefix(l, KIND)
  {
    IndentedIsNot(l);
    assert l[..2][..1] == l[..1];
  }

  // ---------------------------------------------------------------- the labels

  /** In a calm block both label patches go in below the first line. */
  lemma PlacesBelow(ls: seq<string>, meta: nat)
    requires meta < |ls| && Calm(ls, meta, Labels.BlockEnd(ls, meta + 1))
    ensures meta + 1 < ClusterLabel.PlaceOf(ls, meta)
    ensures meta + 1 < Labels.Place(ls, meta, Labels.Start(ls, meta))
  {
    hide Labels.BlockEnd, CalmLine, Labels.IndexOf;
  }

  lemma LabelOrderly(name: string, doc: seq<string>)
    requires Orderly(doc) && Labels.IsCluster(doc)
    ensures LabelQuiet(doc) && Orderly(ClusterLabel.EnsureDoc(name, doc))
  {
    hide Labels.IsCluster, ControlPlane.IsControlPlane, Labels.IndexOf, Labels.BlockEnd, Calm, InsertAll,
      Harmless, Quiet;
    hide ClusterLabel.PlaceOf, ClusterLabel.NewLines, ClusterLabel.EnsureLines, Settled;
    var meta := Labels.IndexOf(doc, Labels.METADATA, 0, |doc|);
    if meta != -1 {
      PlacesBelow(doc, meta);
      CalmIsQuiet(doc, meta, ClusterLabel.PlaceOf(doc, meta));
      ClusterLabel.EnsureIsInsertion(name, doc, meta);
      NewLinesHarmless(name, doc, meta);
      InsertOrderly(doc, meta, ClusterLabel.PlaceOf(doc, meta), ClusterLabel.NewLines(name, doc, meta));
    }
  }

  lemma HelmOrderly(quote: Labels.Quote, lbls: seq<Labels.Label>, doc: seq<string>)
    requires Labels.Keys(lbls) && Quotes(quote) && Orderly(doc)
    ensures HelmQuiet(doc) && Orderly(Labels.PatchDoc(quote, lbls, doc))
  {
    hide Labels.IsCluster, ControlPlane.IsControlPlane, Labels.BlockEnd, Calm, InsertAll, Harmless, Quiet;
    hide Labels.Place, Labels.Fresh, Labels.PatchDoc, Settled;
    Labels.PatchIsInsertion(quote, lbls, doc);
    var meta := Labels.IndexOf(doc, Labels.METADATA, 0, |doc|);
    if Labels.IsCluster(doc) && meta != -1 {
      var b := Labels.Start(doc, meta);
      var p, f := Labels.Place(doc, meta, b), Labels.Fresh(quote, meta, b, lbls);
      PlacesBelow(doc, meta);
      CalmIsQuiet(doc, meta, p);
      FreshHarmless(quote, meta, b, lbls);
      InsertOrderly(doc, meta, p, f);
    }
  }

  // ---------------------------------------------------------------- the skip phase

  lemma SettledTail(ls: seq<string>, n: nat)
    requires Settled(ls) && n <= |ls|
    ensures Settled(ls[n..])
  {
    hide NoHeader;
    var tail := ls[n..];
    assert forall i :: 0 <= i < |tail| ==> tail[i] == ls[i + n];
  }

  /** A line in front of settled lines. */
  lemma SettledMore(l: string, ls: seq<string>)
    requires Settled(ls) && (l == ControlPlane.INIT ==> forall x :: x in ls ==> NoHeader(x))
    ensures Settled([l] + ls)
  {
    hide NoHeader;
    var out := [l] + ls;
    forall i, j | 0 <= i < j < |out| && out[i] == ControlPlane.INIT ensures NoHeader(out[j]) {
      assert out[j] == ls[j - 1];
      assert i > 0 ==> out[i] == ls[i - 1];
    }
  }

  predicate SkipLines(l: string) { l == ControlPlane.SKIP_LINE || l == ControlPlane.PHASE_LINE }

  lemma SkipLinesAreNoHeader(l: string)
    requires SkipLines(l)
    ensures NoHeader(l) && l != ControlPlane.INIT
  {
    assert l[0] == ' ' && (l[6] == 's' || l[6] == ' ') && ControlPlane.INIT[6] == 'i';
    PrefixChar(l, KIND, 0);
  }

  lemma {:induction false} AddedLines(ls: seq<string>)
    ensures forall l :: l in ControlPlane.AddPhase(ls) ==> l in ls || SkipLines(l)
  {
    if ls != [] {
      AddedLines(ls[1..]);
      forall l | l in ControlPlane.AddPhase(ls) ensures l in ls || SkipLines(l) {
        if l in ControlPlane.AddPhase(ls[1..]) && l !in ls[1..] {
          assert SkipLines(l);
        }
      }
    }
  }

  lemma {:induction false} KeptLines(ls: seq<string>)
    ensures forall l :: l in ControlPlane.RemovePhase(ls) ==> l in ls
    decreases |ls|
  {
    hide ControlPlane.BlockAt;
    if ls != [] {
      var e := ControlPlane.BlockAt(ls);
      var n := if e != -1 then e + 1 else 1;
      KeptLines(ls[n..]);
      assert e != -1 ==> ls[0] == ControlPlane.INIT by { ControlPlane.BlockStarts(ls); }
    }
  }

  lemma BelowInit(ls: seq<string>)
    requires ls != [] && Settled(ls) && ls[0] == ControlPlane.INIT
    ensures forall l :: l in ls[1..] ==> NoHeader(l)
  {
    hide NoHeader;
    forall l | l in ls[1..] ensures NoHeader(l) {
      var j :| 0 <= j < |ls[1..]| && ls[1..][j] == l;
      assert ls[j + 1] == l;
    }
  }

  lemma {:induction false} AddSettled(ls: seq<string>)
    requires Settled(ls)
    ensures Settled(ControlPlane.AddPhase(ls))
  {
    hide Settled, NoHeader, SkipLines;
    if ls != [] {
      var grown := ControlPlane.AddPhase(ls[1..]);
      SettledTail(ls, 1);
      AddSettled(ls[1..]);
      if ls[0] == ControlPlane.INIT {
        BelowInit(ls);
        AddedLines(ls[1..]);
        WithPhaseSettled(ls[1..], grown);
      }
      if ls[0] != ControlPlane.INIT || |ls| == 1 {
        assert ls[0] == ControlPlane.INIT ==> grown == [];
        SettledMore(ls[0], grown);
      }
    }
  }

  lemma WithPhaseSettled(rest: seq<string>, grown: seq<string>)
    requires Settled(grown) && forall l :: l in rest ==> NoHeader(l)
    requires forall l :: l in grown ==> l in rest || SkipLines(l)
    ensures Settled(ControlPlane.WithPhase(grown))
  {
    hide Settled, NoHeader;
    forall l | l in grown ensures NoHeader(l) {
      if l !in rest {
        SkipLinesAreNoHeader(l);
      }
    }
    var x, y := ControlPlane.SKIP_LINE, ControlPlane.PHASE_LINE;
    SkipLinesAreNoHeader(x);
    SkipLinesAreNoHeader(y);
    SettledMore(y, grown);
    SettledMore(x, [y] + grown);
    SettledMore(ControlPlane.INIT, [x] + ([y] + grown));
    assert ControlPlane.WithPhase(grown) == [ControlPlane.INIT] + ([x] + ([y] + grown));
  }

  lemma {:induction false} RemoveSettled(ls: seq<string>)
    requires Settled(ls)
    ensures Settled(ControlPlane.RemovePhase(ls))
    decreases |ls|
  {
    hide Settled, NoHeader, ControlPlane.BlockAt;
    if ls != [] {
      var e := ControlPlane.BlockAt(ls);
      var n := if e != -1 then e + 1 else 1;
      SettledTail(ls, n);
      RemoveSettled(ls[n..]);
      ControlPlane.BlockStarts(ls);
      KeptLines(ls[n..]);
      if ls[0] == ControlPlane.INIT {
        BelowInit(ls);
        forall l | l in ls[n..] ensures l in ls[1..] {
          assert ls[n..] == ls[1..][n - 1..];
        }
      }
      SettledMore(ls[0], ControlPlane.RemovePhase(ls[n..]));
    }
  }

  lemma SettledIsQuiet(ls: seq<string>)
    requires Settled(ls)
    ensures InitQuiet(ls) && CutQuiet(ls)
  {
    hide ControlPlane.BlockAt, NoHeader;
    forall i | 0 <= i < |ls| && ControlPlane.BlockAt(ls[i..]) != -1
      ensures NoHeader(ls[i..][ControlPlane.BlockAt(ls[i..]) + 1])
    {
      ControlPlane.BlockStarts(ls[i..]);
      assert ls[i..][0] == ls[i];
      assert ls[i..][ControlPlane.BlockAt(ls[i..]) + 1] == ls[i + ControlPlane.BlockAt(ls[i..]) + 1];
    }
  }

  lemma NoNewCluster(ls: seq<string>, out: seq<string>)
    requires forall l :: l in out ==> l in ls || SkipLines(l)
    requires Labels.IsCluster(out)
    ensures Labels.IsCluster(ls)
  {
    hide Labels.Reads, HasPrefix, SkipLines;
    var a :| a in out && Labels.Reads(a, Labels.CLUSTER);
    SkipLinesRead(a);
    var b :| b in out && HasPrefix(b, Labels.CAPI);
    SkipLinesRead(b);
    assert a in ls && b in ls;
  }

  lemma SkipLinesRead(l: string)
    ensures SkipLines(l) ==> !Labels.Reads(l, Labels.CLUSTER) && !HasPrefix(l, Labels.CAPI)
  {
    if SkipLines(l) {
      var p := if l == ControlPlane.SKIP_LINE then "      " else "        ";
      var t := if l == ControlPlane.SKIP_LINE then ControlPlane.SKIP else ControlPlane.ITEM;
      assert l == p + t + "";
      TrimPadded(Unicode, p, t, "");
      assert t[0] != Labels.CLUSTER[0];
      PrefixChar(l, Labels.CAPI, 0);
    }
  }

  lemma PhaseOrderly(add: bool, doc: seq<string>)
    requires Orderly(doc)
    ensures PhaseQuiet(add, doc) && Orderly(ControlPlane.PatchPhase(add, doc))
  {
    hide Labels.IsCluster, ControlPlane.IsControlPlane, Settled, InitQuiet, CutQuiet, Calm, SkipLines;
    hide ControlPlane.HasPhase, ControlPlane.AddPhase, ControlPlane.RemovePhase, Labels.IndexOf, Labels.BlockEnd;
    if ControlPlane.IsControlPlane(doc) {
      var out := ControlPlane.PatchPhase(add, doc);
      SettledIsQuiet(doc);
      AddSettled(doc);
      RemoveSettled(doc);
      AddedLines(doc);
      KeptLines(doc);
      if Labels.IsCluster(out) {
        NoNewCluster(doc, out);
      }
    }
  }

  // ---------------------------------------------------------------- any order

  datatype Edit = ClusterName(name: string) | Helm(lbls: seq<Labels.Label>) | AddPhase | RemovePhase

  function Edited(quote: Labels.Quote, e: Edit, text: seq<string>): seq<string>
    requires text != []
  {
    match e
    case ClusterName(name) => ClusterLabel.EnsureText(name, text)
    case Helm(lbls) => Labels.PatchText(quote, lbls, text)
    case AddPhase => ControlPlane.PatchPhaseText(true, text)
    case RemovePhase => ControlPlane.PatchPhaseText(false, text)
  }

  function AllEdited(quote: Labels.Quote, edits: seq<Edit>, text: seq<string>): seq<string> {
    if edits == [] || text == [] then text else AllEdited(quote, edits[1..], Edited(quote, edits[0], text))
  }

  /** The keys of the labels are label names. */
  ghost predicate Proper(e: Edit) { e.Helm? ==> Labels.Keys(e.lbls) }

  lemma LabelsOrderly(name: string, docs: seq<seq<string>>)
    requires AllOrderly(docs)
    ensures LabelPlaceQuiet(docs) && AllOrderly(ClusterLabel.EnsureDocs(name, docs))
  {
    hide Orderly, LabelQuiet, ClusterLabel.EnsureDoc, Labels.IsCluster;
    ClusterLabel.EnsureDocsIs(name, docs);
    var k := ClusterLabel.FirstCluster(docs);
    if k < |docs| {
      LabelOrderly(name, docs[k]);
    }
  }

  lemma HelmsOrderly(quote: Labels.Quote, lbls: seq<Labels.Label>, docs: seq<seq<string>>)
    requires AllOrderly(docs) && Labels.Keys(lbls) && Quotes(quote)
    ensures (forall k :: 0 <= k < |docs| ==> HelmQuiet(docs[k])) && AllOrderly(Labels.PatchDocs(quote, lbls, docs))
  {
    hide Orderly, HelmQuiet, Labels.PatchDoc, Labels.Keys, Quotes;
    forall k | 0 <= k < |docs| ensures HelmQuiet(docs[k]) && Orderly(Labels.PatchDocs(quote, lbls, docs)[k]) {
      HelmOrderly(quote, lbls, docs[k]);
      Labels.PatchDocsAt(quote, lbls, docs, k);
    }
  }

  lemma PhasesOrderly(add: bool, docs: seq<seq<string>>)
    requires AllOrderly(docs)
    ensures (forall k :: 0 <= k < |docs| ==> PhaseQuiet(add, docs[k]))
      && AllOrderly(ControlPlane.PatchPhases(add, docs))
  {
    hide Orderly, PhaseQuiet, ControlPlane.PatchPhase;
    forall k | 0 <= k < |docs| ensures PhaseQuiet(add, docs[k]) && Orderly(ControlPlane.PatchPhases(add, docs)[k]) {
      PhaseOrderly(add, docs[k]);
      ControlPlane.PatchPhasesAt(add, docs, k);
    }
  }

  /** One edit of an orderly text: the identity stays, and so does the order. */
  lemma EditKeeps(quote: Labels.Quote, e: Edit, text: seq<string>)
    requires text != [] && AllOrderly(SplitDocs(text)) && Quotes(quote) && Proper(e)
    ensures var out := Edited(quote, e, text);
      out != [] && AllOrderly(SplitDocs(out)) && Discover(out) == Discover(text)
  {
    hide Discover, AllOrderly, LabelPlaceQuiet, HelmQuiet, PhaseQuiet, SplitForm, Quotes, Labels.Keys;
    var docs := SplitDocs(text);
    SplitYieldsForm(text);
    match e {
      case ClusterName(name) =>
        LabelsOrderly(name, docs);
        LabelKeepsIdentity(name, text);
        ClusterLabel.EnsureDocsForm(name, docs);
        SplitOfJoin(ClusterLabel.EnsureDocs(name, docs));
      case Helm(lbls) =>
        HelmsOrderly(quote, lbls, docs);
        HelmKeepsIdentity(quote, lbls, text);
        Labels.PatchedForm(quote, lbls, docs);
        SplitOfJoin(Labels.PatchDocs(quote, lbls, docs));
      case AddPhase =>
        PhasesOrderly(true, docs);
        SkipPhasesKeepIdentity(true, text);
        ControlPlane.PatchedText(true, text);
      case RemovePhase =>
        PhasesOrderly(false, docs);
        SkipPhasesKeepIdentity(false, text);
        ControlPlane.PatchedText(false, text);
    }
  }

  /** The patches in any order, any number of times, on a text whose documents are orderly before the
      first one. */
  lemma {:induction false} EditsKeepIdentity(quote: Labels.Quote, edits: seq<Edit>, text: seq<string>)
    requires text != [] && AllOrderly(SplitDocs(text)) && Quotes(quote)
    requires forall i :: 0 <= i < |edits| ==> Proper(edits[i])
    ensures Discover(AllEdited(quote, edits, text)) == Discover(text)
  {
    hide Discover, AllOrderly, Edited, Quotes, Proper;
    if edits != [] {
      assert Proper(edits[0]);
      EditKeeps(quote, edits[0], text);
      EditsKeepIdentity(quote, edits[1..], Edited(quote, edits[0], text));
    }
  }
}
