/** The cluster-name label (EnsureWorkloadClusterLabel in internal/capi/manifest/generate.go). */
module ClusterLabel {
  import opened Text
  import opened Labels

  const KEY := "cluster.x-k8s.io/" + "cluster-name:"

  function LabelText(name: string): string { KEY + (" \"" + name + "\"") }

  function LabelLine(name: string): string { INDENT + LabelText(name) }

  predicate HasEntry(run: seq<string>) {
    exists i :: 0 <= i < |run| && HasPrefix(Trim(Unicode, run[i]), KEY)
  }

  /** The label on one Cluster document with its metadata line at `meta`. */
  function EnsureLines(name: string, ls: seq<string>, meta: nat): (r: seq<string>)
    requires meta < |ls|
  {
    var b := Start(ls, meta);
    if b.labels >= 0 then
      var at := RunEnd(Four, ls, b.labels + 1, b.end);
      if HasEntry(ls[b.labels + 1..at]) then ls else InsertAll(ls, at, [LabelLine(name)])
    else
      InsertAll(ls, RunEnd(Two, ls, meta + 1, b.end), [LABELS_LINE, LabelLine(name)])
  }

  function EnsureDoc(name: string, ls: seq<string>): (r: seq<string>) {
    var meta := IndexOf(ls, METADATA, 0, |ls|);
    if meta == -1 then ls else EnsureLines(name, ls, meta)
  }

  /** Only the first Cluster document is touched. */
  function EnsureDocs(name: string, docs: seq<seq<string>>): (r: seq<seq<string>>)
    ensures |r| == |docs|
  {
    if docs == [] then []
    else if IsCluster(docs[0]) then [EnsureDoc(name, docs[0])] + docs[1..]
    else [docs[0]] + EnsureDocs(name, docs[1..])
  }

  function EnsureText(name: string, text: seq<string>): seq<string>
    requires text != []
  {
    JoinDocs(EnsureDocs(name, SplitDocs(text)))
  }

  // ---------------------------------------------------------------- one document

  /** Where the label goes, and what goes in; nothing where the label is there already. */
  function PlaceOf(ls: seq<string>, meta: nat): (p: nat)
    requires meta < |ls|
    ensures meta < p <= |ls| && p <= BlockEnd(ls, meta + 1)
  {
    var b := Start(ls, meta);
    if b.labels >= 0 then RunEnd(Four, ls, b.labels + 1, b.end) else RunEnd(Two, ls, meta + 1, b.end)
  }

  function NewLines(name: string, ls: seq<string>, meta: nat): (f: seq<string>)
    requires meta < |ls|
  {
    var b := Start(ls, meta);
    if b.labels < 0 then [LABELS_LINE, LabelLine(name)]
    else if HasEntry(ls[b.labels + 1..PlaceOf(ls, meta)]) then []
    else [LabelLine(name)]
  }

  lemma EnsureIsInsertion(name: string, ls: seq<string>, meta: nat)
    requires meta < |ls|
    ensures EnsureLines(name, ls, meta) == InsertAll(ls, PlaceOf(ls, meta), NewLines(name, ls, meta))
  {
    hide HasEntry, BlockEnd, IndexOf, RunEnd;
    var p := PlaceOf(ls, meta);
    assert ls[..p] + [] + ls[p..] == ls;
  }

  lemma LabelTextShape(name: string)
    ensures var t := LabelText(name);
      t != "" && t[0] == 'c' && t[|t| - 1] == '"' && HasPrefix(t, KEY)
  {
    var tail := " \"" + name + "\"";
    assert tail[|tail| - 1] == '"';
    assert (KEY + tail)[..|KEY|] == KEY;
  }

  lemma IndentedLine(t: string)
    requires t != ""
    ensures var l := INDENT + t; InRun(Four, l) && InRun(Two, l) && !Closes(l) && l[4] == t[0] && l[4..] == t
  {
    var l := INDENT + t;
    assert l[..4] == INDENT && l[..2] == "  " && l[..1] == " ";
  }

  lemma IndentedTrim(t: string)
    requires t != "" && !White(Unicode, t[0]) && !White(Unicode, t[|t| - 1])
    ensures Trim(Unicode, INDENT + t) == t
  {
    hide Lead, Trail, Trim;
    assert INDENT + t == INDENT + t + "";
    TrimPadded(Unicode, INDENT, t, "");
  }

  lemma LabelLineShape(name: string)
    ensures InRun(Four, LabelLine(name)) && !Closes(LabelLine(name))
    ensures HasPrefix(Trim(Unicode, LabelLine(name)), KEY)
    ensures !Reads(LabelLine(name), LABELS)
  {
    hide LabelText, Lead, Trail, Trim, InRun, Closes;
    LabelTextShape(name);
    IndentedLine(LabelText(name));
    IndentedTrim(LabelText(name));
    assert LABELS[0] == 'l';
  }

  lemma LabelsLineReads()
    ensures Reads(LABELS_LINE, LABELS) && !Closes(LABELS_LINE) && InRun(Two, LABELS_LINE)
  {
    assert LABELS_LINE == "  " + LABELS + "";
    TrimPadded(Unicode, "  ", LABELS, "");
    assert LABELS_LINE[..1] == " ";
  }

  lemma NewLinesIndented(name: string, ls: seq<string>, meta: nat)
    requires meta < |ls|
    ensures forall i :: 0 <= i < |NewLines(name, ls, meta)| ==> !Closes(NewLines(name, ls, meta)[i])
  {
    LabelLineShape(name);
    LabelsLineReads();
  }

  /** The metadata block stays, longer by the new lines. */
  lemma EnsuredHead(name: string, ls: seq<string>, meta: nat)
    requires meta < |ls| && IndexOf(ls, METADATA, 0, |ls|) == meta
    ensures var out := EnsureLines(name, ls, meta);
      && IndexOf(out, METADATA, 0, |out|) == meta && meta < |out|
      && BlockEnd(out, meta + 1) == BlockEnd(ls, meta + 1) + |NewLines(name, ls, meta)|
      && (IsCluster(ls) ==> IsCluster(out))
  {
    hide HasEntry, BlockEnd, IndexOf, RunEnd, IsCluster, Closes, PlaceOf, NewLines, EnsureLines;
    EnsureIsInsertion(name, ls, meta);
    NewLinesIndented(name, ls, meta);
    InsertKeepsHead(ls, meta, PlaceOf(ls, meta), NewLines(name, ls, meta));
  }

  lemma LabelsAtKept(ls: seq<string>, from: nat, end: nat, labels: nat, line: string)
    requires from <= labels < end <= |ls| && IndexOf(ls, LABELS, from, end) == labels
    requires RunEnd(Four, ls, labels + 1, end) <= end
    ensures var p := RunEnd(Four, ls, labels + 1, end);
      var out := InsertAll(ls, p, [line]);
      IndexOf(out, LABELS, from, end + 1) == labels && out[p] == line
      && forall j :: labels < j < p ==> InRun(Four, out[j])
  {
    hide Reads, InRun;
    var p := RunEnd(Four, ls, labels + 1, end);
    InsertAllAt(ls, p, [line]);
    IndexOfIs(InsertAll(ls, p, [line]), LABELS, from, end + 1, labels);
  }

  lemma LabelsAtNew(ls: seq<string>, from: nat, end: nat, p: nat, line: string)
    requires from <= p <= end <= |ls| && IndexOf(ls, LABELS, from, end) == -1
    ensures var out := InsertAll(ls, p, [LABELS_LINE, line]);
      IndexOf(out, LABELS, from, end + 2) == p && out[p + 1] == line
  {
    hide Reads;
    LabelsLineReads();
    InsertAllAt(ls, p, [LABELS_LINE, line]);
    IndexOfIs(InsertAll(ls, p, [LABELS_LINE, line]), LABELS, from, end + 2, p);
  }

  /** The block has a labels line, and the entry is in its run. */
  predicate Labelled(ls: seq<string>, meta: nat, end: nat)
    requires meta < end <= |ls|
  {
    var labels := IndexOf(ls, LABELS, meta + 1, end);
    labels >= 0 && HasEntry(ls[labels + 1..RunEnd(Four, ls, labels + 1, end)])
  }

  lemma NewIsLabelled(name: string, ls: seq<string>, meta: nat, end: nat, p: nat)
    requires meta < p <= end <= |ls| && IndexOf(ls, LABELS, meta + 1, end) == -1
    ensures Labelled(InsertAll(ls, p, [LABELS_LINE, LabelLine(name)]), meta, end + 2)
  {
    hide HasEntry, IndexOf, RunEnd, InsertAll, InRun, LabelLine;
    LabelsAtNew(ls, meta + 1, end, p, LabelLine(name));
    EntryInRun(InsertAll(ls, p, [LABELS_LINE, LabelLine(name)]), p, end + 2, p + 1, name);
  }

  lemma KeptIsLabelled(name: string, ls: seq<string>, meta: nat, end: nat, labels: nat)
    requires meta < labels < end <= |ls| && IndexOf(ls, LABELS, meta + 1, end) == labels
    ensures Labelled(InsertAll(ls, RunEnd(Four, ls, labels + 1, end), [LabelLine(name)]), meta, end + 1)
  {
    hide HasEntry, IndexOf, RunEnd, InsertAll, InRun, LabelLine;
    var p := RunEnd(Four, ls, labels + 1, end);
    LabelsAtKept(ls, meta + 1, end, labels, LabelLine(name));
    EntryInRun(InsertAll(ls, p, [LabelLine(name)]), labels, end + 1, p, name);
  }

  lemma EnsuredNew(name: string, ls: seq<string>, meta: nat)
    requires meta < |ls| && Start(ls, meta).labels < 0
    ensures |EnsureLines(name, ls, meta)| == |ls| + 2
    ensures Labelled(EnsureLines(name, ls, meta), meta, BlockEnd(ls, meta + 1) + 2)
  {
    hide HasEntry, IndexOf, BlockEnd, RunEnd, Labelled, LabelLine, InRun;
    var end := BlockEnd(ls, meta + 1);
    NewIsLabelled(name, ls, meta, end, RunEnd(Two, ls, meta + 1, end));
  }

  lemma KeptIs(name: string, ls: seq<string>, meta: nat)
    requires meta < |ls| && Start(ls, meta).labels >= 0
    requires !Labelled(ls, meta, BlockEnd(ls, meta + 1))
    ensures var labels := Start(ls, meta).labels;
      EnsureLines(name, ls, meta)
        == InsertAll(ls, RunEnd(Four, ls, labels + 1, BlockEnd(ls, meta + 1)), [LabelLine(name)])
  {
    hide HasEntry, IndexOf, BlockEnd, RunEnd, LabelLine, InsertAll;
  }

  lemma EnsuredKept(name: string, ls: seq<string>, meta: nat)
    requires meta < |ls| && Start(ls, meta).labels >= 0
    requires !Labelled(ls, meta, BlockEnd(ls, meta + 1))
    ensures |EnsureLines(name, ls, meta)| == |ls| + 1
    ensures Labelled(EnsureLines(name, ls, meta), meta, BlockEnd(ls, meta + 1) + 1)
  {
    hide IndexOf, BlockEnd, RunEnd, LabelLine, Labelled, EnsureLines;
    KeptIs(name, ls, meta);
    KeptIsLabelled(name, ls, meta, BlockEnd(ls, meta + 1), Start(ls, meta).labels);
  }

  lemma LabelledStays(name: string, ls: seq<string>, meta: nat)
    requires meta < |ls| && Labelled(ls, meta, BlockEnd(ls, meta + 1))
    ensures EnsureLines(name, ls, meta) == ls && NewLines(name, ls, meta) == []
  {
    LabelledIs(ls, meta);
    hide HasEntry, BlockEnd, IndexOf, RunEnd, LabelLine, Labelled, Start, InsertAll;
  }

  /** Being labelled, in the terms of the patch. */
  lemma LabelledIs(ls: seq<string>, meta: nat)
    requires meta < |ls|
    ensures var b := Start(ls, meta);
      Labelled(ls, meta, b.end) == (b.labels >= 0 && HasEntry(ls[b.labels + 1..RunEnd(Four, ls, b.labels + 1, b.end)]))
    ensures Start(ls, meta).end == BlockEnd(ls, meta + 1)
  {
    hide HasEntry, BlockEnd, IndexOf, RunEnd;
  }

  lemma NewLinesCount(name: string, ls: seq<string>, meta: nat)
    requires meta < |ls| && !Labelled(ls, meta, BlockEnd(ls, meta + 1))
    ensures NewLines(name, ls, meta)
      == if Start(ls, meta).labels < 0 then [LABELS_LINE, LabelLine(name)] else [LabelLine(name)]
  {
    LabelledIs(ls, meta);
    hide HasEntry, BlockEnd, IndexOf, RunEnd, LabelLine, Labelled, Start;
  }

  /** Lines `f` go in somewhere in the block; the old lines stay, in their order. */
  ghost predicate GoesIn(ls: seq<string>, meta: nat, f: seq<string>, out: seq<string>)
    requires meta < |ls|
  {
    exists p: nat :: meta < p <= BlockEnd(ls, meta + 1) && out == InsertAll(ls, p, f)
  }

  /** What the label does to a Cluster document: nothing, exactly when the block is labelled. If not,
      one entry goes into the block, below a labels line of its own where the block had none. */
  lemma EnsureFrame(name: string, ls: seq<string>, meta: nat)
    requires meta < |ls|
    ensures var out, end := EnsureLines(name, ls, meta), BlockEnd(ls, meta + 1);
      && (out == ls <==> Labelled(ls, meta, end))
      && (out != ls && IndexOf(ls, LABELS, meta + 1, end) != -1 ==> GoesIn(ls, meta, [LabelLine(name)], out))
      && (out != ls && IndexOf(ls, LABELS, meta + 1, end) == -1 ==>
            GoesIn(ls, meta, [LABELS_LINE, LabelLine(name)], out))
  {
    hide HasEntry, BlockEnd, IndexOf, RunEnd, LabelLine, EnsureLines, NewLines, InsertAll;
    EnsureIsInsertion(name, ls, meta);
    if Labelled(ls, meta, BlockEnd(ls, meta + 1)) {
      LabelledStays(name, ls, meta);
    } else {
      NewLinesCount(name, ls, meta);
      assert EnsureLines(name, ls, meta) == InsertAll(ls, PlaceOf(ls, meta), NewLines(name, ls, meta));
    }
  }

  /** Afterwards the block is labelled. */
  lemma EnsuredBlock(name: string, ls: seq<string>, meta: nat)
    requires meta < |ls| && IndexOf(ls, METADATA, 0, |ls|) == meta
    ensures var out := EnsureLines(name, ls, meta); meta < |out| && Labelled(out, meta, BlockEnd(out, meta + 1))
  {
    hide HasEntry, BlockEnd, IndexOf, RunEnd, LabelLine, Labelled, EnsureLines, NewLines;
    EnsuredHead(name, ls, meta);
    if Labelled(ls, meta, BlockEnd(ls, meta + 1)) {
      LabelledStays(name, ls, meta);
    } else {
      NewLinesCount(name, ls, meta);
      hide Start, InRun, Closes, Reads;
      if Start(ls, meta).labels < 0 {
        EnsuredNew(name, ls, meta);
      } else {
        EnsuredKept(name, ls, meta);
      }
    }
  }

  lemma EntryInRun(out: seq<string>, labels: nat, end: nat, k: nat, name: string)
    requires labels < k < end <= |out| && out[k] == LabelLine(name)
    requires forall j :: labels < j < k ==> InRun(Four, out[j])
    ensures HasEntry(out[labels + 1..RunEnd(Four, out, labels + 1, end)])
  {
    hide InRun, LabelLine, Trim;
    LabelLineShape(name);
    var e := RunEnd(Four, out, labels + 1, end);
    assert e > k;
    var run := out[labels + 1..e];
    assert run[k - labels - 1] == out[k];
  }

  /** A second run on a document changes nothing, even with another name. */
  lemma EnsureDocTwice(name: string, again: string, ls: seq<string>)
    ensures EnsureDoc(again, EnsureDoc(name, ls)) == EnsureDoc(name, ls)
    ensures IsCluster(ls) ==> IsCluster(EnsureDoc(name, ls))
  {
    hide HasEntry, BlockEnd, IndexOf, RunEnd, IsCluster, NewLines, EnsureLines, Labelled;
    var meta := IndexOf(ls, METADATA, 0, |ls|);
    if meta != -1 {
      EnsuredHead(name, ls, meta);
      EnsuredBlock(name, ls, meta);
      LabelledStays(again, EnsureLines(name, ls, meta), meta);
    }
  }

  // ---------------------------------------------------------------- whole texts

  /** The document that is labelled, or |docs|. */
  function FirstCluster(docs: seq<seq<string>>): (k: nat)
    ensures k <= |docs| && (k < |docs| ==> IsCluster(docs[k]))
    ensures forall j :: 0 <= j < k ==> !IsCluster(docs[j])
  {
    if docs == [] || IsCluster(docs[0]) then 0 else 1 + FirstCluster(docs[1..])
  }

  lemma {:induction false} EnsureDocsIs(name: string, docs: seq<seq<string>>)
    ensures var k := FirstCluster(docs);
      EnsureDocs(name, docs) == if k == |docs| then docs else docs[k := EnsureDoc(name, docs[k])]
  {
    hide IsCluster, EnsureDoc;
    if docs != [] {
      assert docs == [docs[0]] + docs[1..];
      if !IsCluster(docs[0]) {
        EnsureDocsIs(name, docs[1..]);
      }
    }
  }

  lemma {:induction false} FirstClusterIs(docs: seq<seq<string>>, k: nat)
    requires k < |docs| && IsCluster(docs[k]) && forall j :: 0 <= j < k ==> !IsCluster(docs[j])
    ensures FirstCluster(docs) == k
  {
    hide IsCluster;
    if k > 0 {
      FirstClusterIs(docs[1..], k - 1);
    }
  }

  lemma EnsureDocSeparable(name: string, ls: seq<string>)
    requires IsCluster(ls)
    ensures Separable(ls) ==> Separable(EnsureDoc(name, ls))
    ensures Interior(ls) ==> Interior(EnsureDoc(name, ls)) && EnsureDoc(name, ls) != []
  {
    assert ls != [];
    hide HasEntry, IsCluster, IndexOf, RunEnd;
    var meta := IndexOf(ls, METADATA, 0, |ls|);
    if meta != -1 {
      EnsureIsInsertion(name, ls, meta);
      NewLinesIndented(name, ls, meta);
      var p := PlaceOf(ls, meta);
      assert p == |ls| && |ls| > meta + 1 ==> !Closes(ls[|ls| - 1]);
      InsertAtEnd(ls, meta, p, NewLines(name, ls, meta));
    }
  }

  lemma EnsureDocsForm(name: string, docs: seq<seq<string>>)
    requires SplitForm(docs)
    ensures SplitForm(EnsureDocs(name, docs))
  {
    hide IsCluster, EnsureDoc, EnsureDocs, FirstCluster, Interior, Separable;
    EnsureDocsIs(name, docs);
    var k := FirstCluster(docs);
    if k < |docs| {
      EnsureDocSeparable(name, docs[k]);
    }
  }

  lemma EnsureDocsTwice(name: string, again: string, docs: seq<seq<string>>)
    ensures EnsureDocs(again, EnsureDocs(name, docs)) == EnsureDocs(name, docs)
  {
    hide IsCluster, EnsureDoc, EnsureDocs;
    var out := EnsureDocs(name, docs);
    EnsureDocsIs(name, docs);
    var k := FirstCluster(docs);
    EnsureDocsIs(again, out);
    if k < |docs| {
      EnsureDocTwice(name, again, docs[k]);
      FirstClusterIs(out, k);
      assert out[k := out[k]] == out;
    }
  }

  /** A second run on the text changes no byte. */
  lemma EnsureTextTwice(name: string, again: string, text: seq<string>)
    requires text != []
    ensures EnsureText(name, text) != []
    ensures EnsureText(again, EnsureText(name, text)) == EnsureText(name, text)
  {
    hide EnsureDocs, SplitForm;
    var docs := SplitDocs(text);
    SplitYieldsForm(text);
    EnsureDocsForm(name, docs);
    SplitOfJoin(EnsureDocs(name, docs));
    EnsureDocsTwice(name, again, docs);
  }

  // ---------------------------------------------------------------- the loops

  lemma InsertKeepsEnd(ls: seq<string>, p: nat, f: seq<string>)
    requires EndsOpen(ls) && p < |ls|
    ensures EndsOpen(InsertAll(ls, p, f))
  {
    InsertAllAt(ls, p, f);
  }

  /** An empty last line is in no run, so the label goes in above it. */
  lemma PlaceAboveEnd(ls: seq<string>, meta: nat)
    requires EndsOpen(ls) && meta < |ls| && Reads(ls[meta], METADATA)
    ensures PlaceOf(ls, meta) < |ls|
  {
    hide Reads, BlockEnd;
    MetadataIsNotEmpty();
    LabelsIsNotEmpty();
  }

  lemma EnsureKeepsEnd(name: string, ls: seq<string>)
    requires EndsOpen(ls)
    ensures EndsOpen(EnsureDoc(name, ls))
  {
    hide HasEntry, IndexOf, EnsureLines, EndsOpen, PlaceOf, InsertAll, NewLines;
    var meta := IndexOf(ls, METADATA, 0, |ls|);
    if meta != -1 {
      EnsureIsInsertion(name, ls, meta);
      PlaceAboveEnd(ls, meta);
      InsertKeepsEnd(ls, PlaceOf(ls, meta), NewLines(name, ls, meta));
    }
  }

  lemma MetadataIsNotEmpty()
    ensures !Reads("", METADATA)
  {}

  lemma LabelsIsNotEmpty()
    ensures !Reads("", LABELS)
  {}

  lemma JoinEnd(docs: seq<seq<string>>)
    requires docs != [] && forall k :: 0 <= k < |docs| ==> docs[k] != []
    ensures JoinDocs(docs) != [] && EndsOpen(JoinDocs(docs)) == EndsOpen(docs[|docs| - 1])
    decreases |docs|
  {
    if |docs| > 1 {
      JoinEnd(docs[1..]);
      CatEnd(docs[0] + [SEPARATOR], JoinDocs(docs[1..]));
    }
  }

  lemma CatEnd(a: seq<string>, b: seq<string>)
    requires b != []
    ensures EndsOpen(a + b) == EndsOpen(b)
  {}

  /** The branch that puts a lost final newline back is never needed. */
  lemma FinalNewlineStays(name: string, text: seq<string>)
    requires EndsOpen(text)
    ensures EndsOpen(EnsureText(name, text))
  {
    hide IsCluster, EnsureDoc, EnsureDocs, FirstCluster, JoinDocs, EndsOpen;
    assert text != [] by { OpenIsNotEmpty(text); }
    var docs := SplitDocs(text);
    var n := |docs| - 1;
    JoinOfSplit(text);
    JoinEnd(docs);
    EnsureDocsEnd(name, docs);
    JoinEnd(EnsureDocs(name, docs));
  }

  lemma OpenIsNotEmpty(ls: seq<string>)
    ensures EndsOpen(ls) ==> ls != []
  {}

  lemma EnsureDocsEnd(name: string, docs: seq<seq<string>>)
    requires docs != [] && (forall k :: 0 <= k < |docs| ==> docs[k] != []) && EndsOpen(docs[|docs| - 1])
    ensures var out := EnsureDocs(name, docs);
      (forall k :: 0 <= k < |out| ==> out[k] != []) && EndsOpen(out[|out| - 1])
  {
    hide IsCluster, EnsureDoc, EnsureDocs, FirstCluster;
    EnsureDocsIs(name, docs);
    EnsureKeepsEnd(name, docs[|docs| - 1]);
    if FirstCluster(docs) < |docs| {
      EnsureDocNotEmpty(name, docs[FirstCluster(docs)]);
    }
  }

  lemma EnsureDocNotEmpty(name: string, ls: seq<string>)
    requires ls != []
    ensures EnsureDoc(name, ls) != []
  {
    hide HasEntry, IndexOf, RunEnd, BlockEnd;
  }

  method FindEntry(ls: seq<string>, from: nat, end: nat) returns (existing: bool)
    requires from <= end <= |ls|
    ensures existing == HasEntry(ls[from..RunEnd(Four, ls, from, end)])
  {
    hide InRun, Trim;
    var j := from;
    while j < end && InRun(Four, ls[j])
      invariant from <= j <= end && !HasEntry(ls[from..j])
      invariant RunEnd(Four, ls, from, end) == RunEnd(Four, ls, j, end)
    {
      if HasPrefix(Trim(Unicode, ls[j]), KEY) {
        var run := ls[from..RunEnd(Four, ls, from, end)];
        assert run[j - from] == ls[j];
        return true;
      }
      assert ls[from..j + 1] == ls[from..j] + [ls[j]];
      j := j + 1;
    }
    return false;
  }

  method LabelDoc(name: string, ls: seq<string>, meta: nat) returns (lines: seq<string>)
    requires meta < |ls|
    ensures lines == EnsureLines(name, ls, meta)
  {
    hide HasEntry, IndexOf, RunEnd, BlockEnd, LabelLine, EnsureLines, Insert, InRun, Closes, Reads, InsertAll;
    var end := FindBlockEnd(ls, meta);
    var labelsIdx := FindLine(ls, LABELS, meta + 1, end);
    EnsureByCases(name, ls, meta, end, labelsIdx);
    lines := ls;
    if labelsIdx >= 0 {
      var existing := FindEntry(ls, labelsIdx + 1, end);
      if !existing {
        var insertAt := SkipRun(Four, ls, labelsIdx + 1, end);
        lines := Insert(lines, insertAt, LabelLine(name));
      }
    } else {
      var insertAt := SkipRun(Two, ls, meta + 1, end);
      lines := Insert(lines, insertAt, LABELS_LINE);
      assert |lines| == |ls| + 1 by { InsertLength(ls, insertAt, LABELS_LINE); }
      lines := Insert(lines, insertAt + 1, LabelLine(name));
    }
  }

  lemma InsertLength(ls: seq<string>, i: nat, l: string)
    requires i <= |ls|
    ensures |Insert(ls, i, l)| == |ls| + 1
  {}

  lemma EnsureByCases(name: string, ls: seq<string>, meta: nat, end: nat, labels: int)
    requires meta < |ls| && end == BlockEnd(ls, meta + 1) && labels == IndexOf(ls, LABELS, meta + 1, end)
    ensures labels >= 0 ==> var at := RunEnd(Four, ls, labels + 1, end);
      EnsureLines(name, ls, meta)
        == if HasEntry(ls[labels + 1..at]) then ls else Insert(ls, at, LabelLine(name))
    ensures labels < 0 ==> var at := RunEnd(Two, ls, meta + 1, end);
      |Insert(ls, at, LABELS_LINE)| == |ls| + 1
      && EnsureLines(name, ls, meta) == Insert(Insert(ls, at, LABELS_LINE), at + 1, LabelLine(name))
  {
    hide HasEntry, IndexOf, RunEnd, BlockEnd, LabelLine, Insert, InsertAll, InRun, Closes, Reads;
    if labels < 0 {
      InsertPair(ls, RunEnd(Two, ls, meta + 1, end), LABELS_LINE, LabelLine(name));
    } else {
      InsertOne(ls, RunEnd(Four, ls, labels + 1, end), LabelLine(name));
    }
  }

  lemma InsertPair(ls: seq<string>, at: nat, a: string, b: string)
    requires at <= |ls|
    ensures |Insert(ls, at, a)| == |ls| + 1
    ensures Insert(Insert(ls, at, a), at + 1, b) == InsertAll(ls, at, [a, b])
  {
    InsertTwo(ls, at, a, b);
    assert [a] + [b] == [a, b];
  }

  lemma InsertOne(ls: seq<string>, i: nat, l: string)
    requires i <= |ls|
    ensures Insert(ls, i, l) == InsertAll(ls, i, [l])
  {}

  /** The loop over the documents: it stops at the first Cluster. */
  method LabelFirst(name: string, input: seq<seq<string>>) returns (docs: seq<seq<string>>)
    ensures docs == EnsureDocs(name, input)
  {
    hide EnsureLines, IsCluster, FirstCluster, EnsureDocs, EnsureDoc, IndexOf;
    docs := input;
    for i := 0 to |docs|
      invariant docs == input
      invariant forall j :: 0 <= j < i ==> !IsCluster(input[j])
    {
      if IsCluster(docs[i]) {
        EnsuredAt(name, input, i);
        var meta := FindLine(docs[i], METADATA, 0, |docs[i]|);
        if meta >= 0 {
          var lines := LabelDoc(name, docs[i], meta);
          docs := docs[i := lines];
        }
        return;
      }
    }
    EnsureDocsIs(name, input);
    NoCluster(input);
  }

  lemma EnsuredAt(name: string, docs: seq<seq<string>>, i: nat)
    requires i < |docs| && IsCluster(docs[i]) && forall j :: 0 <= j < i ==> !IsCluster(docs[j])
    ensures var meta := IndexOf(docs[i], METADATA, 0, |docs[i]|);
      EnsureDocs(name, docs) == if meta == -1 then docs else docs[i := EnsureLines(name, docs[i], meta)]
  {
    hide IsCluster, EnsureDocs, IndexOf, EnsureLines;
    EnsureDocsIs(name, docs);
    FirstClusterIs(docs, i);
    assert docs[i := docs[i]] == docs;
  }

  method EnsureWorkloadClusterLabel(name: string, original: seq<string>) returns (joined: seq<string>)
    requires original != []
    ensures joined == EnsureText(name, original)
  {
    hide EnsureLines, IsCluster, FirstCluster, EnsureDocs, IndexOf, JoinDocs, BlockEnd, Reads;
    var docs := LabelFirst(name, SplitDocs(original));
    joined := JoinDocs(docs);
    if original[|original| - 1] == [] {
      FinalNewlineStays(name, original);
      if joined[|joined| - 1] != [] {
        joined := joined + [[]];
      }
    }
  }

  lemma {:induction false} NoCluster(docs: seq<seq<string>>)
    requires forall j :: 0 <= j < |docs| ==> !IsCluster(docs[j])
    ensures FirstCluster(docs) == |docs|
  {
    hide IsCluster;
    if docs != [] {
      NoCluster(docs[1..]);
    }
  }
}
