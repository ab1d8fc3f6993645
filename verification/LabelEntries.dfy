/** What the label patches write, line for line (internal/capi/caaph/caaph.go and
    internal/capi/pivot/manifest.go, and EnsureWorkloadClusterLabel in internal/capi/manifest/generate.go). */
module LabelEntries {
  import opened Text
  import opened Labels
  import HelmLabels
  import ClusterLabel

  // ---------------------------------------------------------------- the document before the patch

  predicate ClusterDoc(ls: seq<string>) {
    && (exists l :: l in ls && Trim(Unicode, l) == "kind: Cluster")
    && (exists l :: l in ls && HasPrefix(l, "apiVersion: cluster.x-k8s.io/"))
  }

  predicate Inside(l: string) { l == "" || HasPrefix(l, " ") }

  /** Lines `meta` to `end` are the metadata block. */
  predicate MetadataBlock(ls: seq<string>, meta: nat, end: nat) {
    && meta < end <= |ls|
    && Trim(Unicode, ls[meta]) == "metadata:" && (forall k :: 0 <= k < meta ==> Trim(Unicode, ls[k]) != "metadata:")
    && (forall k :: meta < k < end ==> Inside(ls[k])) && (end < |ls| ==> !Inside(ls[end]))
  }

  predicate HasLine(ls: seq<string>, meta: nat, end: nat, key: string)
    requires end <= |ls|
  {
    exists k :: meta <= k < end && HasPrefix(ls[k], "    " + key + ":")
  }

  lemma BlockIs(ls: seq<string>, meta: nat, end: nat)
    requires MetadataBlock(ls, meta, end)
    ensures IndexOf(ls, METADATA, 0, |ls|) == meta && BlockEnd(ls, meta + 1) == end
  {
    hide Trim;
    IndexOfIs(ls, METADATA, 0, |ls|, meta);
    BlockEndIs(ls, meta + 1, end);
  }

  lemma BlockOf(ls: seq<string>, meta: nat)
    requires meta < |ls| && IndexOf(ls, METADATA, 0, |ls|) == meta
    ensures MetadataBlock(ls, meta, BlockEnd(ls, meta + 1))
  {
    hide Trim;
    forall k | 0 <= k < meta ensures Trim(Unicode, ls[k]) != "metadata:" {
      assert !Reads(ls[k], METADATA);
    }
    forall k | meta < k < BlockEnd(ls, meta + 1) ensures Inside(ls[k]) {
      assert !Closes(ls[k]);
    }
  }

  lemma NoLineNoKey(ls: seq<string>, meta: nat, end: nat, key: string)
    requires meta <= end <= |ls|
    ensures HasLine(ls, meta, end, key) <==> HasKey(ls[meta..end], key)
  {
    hide HasPrefix;
    if HasLine(ls, meta, end, key) {
      var k :| meta <= k < end && HasPrefix(ls[k], "    " + key + ":");
      assert ls[meta..end][k - meta] == ls[k] && Keyed(ls[k], key);
    }
  }

  // ---------------------------------------------------------------- the new lines

  /** Where a label's entry stands in the patched document: in the block, in the run of entries below
      a labels line. */
  ghost predicate EntryStands(out: seq<string>, meta: nat, at: nat, j: nat, line: string) {
    && meta < at < j < |out| && Trim(Unicode, out[at]) == "labels:" && out[j] == line
    && (forall k :: meta < k <= j ==> Inside(out[k]))
    && (forall k :: at < k <= j ==> HasPrefix(out[k], "    ") && !HasPrefix(out[k], "      "))
  }

  lemma {:induction false} EntryOf(quote: Quote, lbls: seq<Label>, lbl: Label) returns (t: nat)
    requires lbl in lbls
    ensures t < |lbls| && Entries(quote, lbls)[t] ==
      if lbl.key == "caaph" && lbl.value == "enabled" then "    caaph: enabled"
      else "    " + lbl.key + ": " + quote(lbl.value)
  {
    t := 0;
    if lbl != lbls[0] {
      t := EntryOf(quote, lbls[1..], lbl);
      t := t + 1;
    } else {
      assert INDENT + CAAPH + ": " + ENABLED == "    caaph: enabled";
    }
  }

  lemma FreshInRun(quote: Quote, meta: nat, b: Block, lbls: seq<Label>)
    requires InShape(meta, b) && Keys(lbls)
    ensures var f := Fresh(quote, meta, b, lbls);
      forall i :: (if b.labels < 0 then 1 else 0) <= i < |f| ==> InRun(ExactlyFour, f[i])
  {
    hide InRun, HasKey, GoodKey;
    var missing := Missing(b.lines[meta..b.end], lbls);
    MissingWanted(b.lines[meta..b.end], lbls);
    forall lbl | lbl in missing ensures GoodKey(lbl.key) {
      var i :| 0 <= i < |lbls| && lbls[i] == lbl;
      GoodLabel(lbls, i);
    }
    EntriesIndented(quote, missing);
  }

  lemma FreshEntry(quote: Quote, meta: nat, b: Block, lbls: seq<Label>, lbl: Label) returns (i: nat)
    requires InShape(meta, b) && lbl in lbls && (lbl.value != "" || lbl.key == "caaph")
    requires !HasKey(b.lines[meta..b.end], lbl.key)
    ensures var f := Fresh(quote, meta, b, lbls);
      && i < |f| && (b.labels < 0 ==> i > 0 && f[0] == LABELS_LINE)
      && f[i] == if lbl.key == "caaph" && lbl.value == "enabled" then "    caaph: enabled"
                 else "    " + lbl.key + ": " + quote(lbl.value)
  {
    hide HasKey, Missing, Entries;
    var missing := Missing(b.lines[meta..b.end], lbls);
    MissingWanted(b.lines[meta..b.end], lbls);
    i := EntryOf(quote, missing, lbl);
    if b.labels < 0 {
      i := i + 1;
    }
  }

  /** Every wanted label that no line of the block carried has its entry afterwards. */
  lemma EntryArrives(quote: Quote, lbls: seq<Label>, ls: seq<string>, meta: nat, end: nat, lbl: Label)
    returns (at: nat, j: nat)
    requires Keys(lbls) && lbl in lbls && (lbl.value != "" || lbl.key == "caaph")
    requires ClusterDoc(ls) && MetadataBlock(ls, meta, end) && !HasLine(ls, meta, end, lbl.key)
    ensures EntryStands(PatchDoc(quote, lbls, ls), meta, at, j,
      if lbl.key == "caaph" && lbl.value == "enabled" then "    caaph: enabled"
      else "    " + lbl.key + ": " + quote(lbl.value))
  {
    hide Start, Fresh, Place, PatchDoc, MetadataBlock, HasLine, HasKey, ClusterDoc, Keys, Trim, InsertAll;
    hide HasPrefix, Inside, Closes, InRun, IndexOf, BlockEnd;
    BlockIs(ls, meta, end);
    StartIs(ls, meta);
    NoLineNoKey(ls, meta, end, lbl.key);
    var b := Start(ls, meta);
    var i := FreshEntry(quote, meta, b, lbls, lbl);
    DocIsPatched(quote, lbls, ls, meta);
    var p, f := Place(ls, meta, b), Fresh(quote, meta, b, lbls);
    at, j := if b.labels >= 0 then b.labels else p, p + i;
    FreshInRun(quote, meta, b, lbls);
    Stands(ls, meta, b, p, f, at, j);
    FreshIndented(quote, meta, b, lbls);
    InsideInserted(ls, meta, end, p, f, j);
  }

  lemma StartIs(ls: seq<string>, meta: nat)
    requires meta < |ls|
    ensures Start(ls, meta).end == BlockEnd(ls, meta + 1)
    ensures Start(ls, meta).labels == IndexOf(ls, LABELS, meta + 1, BlockEnd(ls, meta + 1))
  {
  }

  lemma DocIsPatched(quote: Quote, lbls: seq<Label>, ls: seq<string>, meta: nat)
    requires Keys(lbls) && meta < |ls| && IndexOf(ls, METADATA, 0, |ls|) == meta
    ensures var b := Start(ls, meta);
      PatchDoc(quote, lbls, ls) ==
        if ClusterDoc(ls) then InsertAll(ls, Place(ls, meta, b), Fresh(quote, meta, b, lbls)) else ls
  {
    hide PatchDoc, Place, Fresh, Start, InsertAll, Trim;
    PatchIsInsertion(quote, lbls, ls);
  }

  lemma LabelsLineReads()
    ensures Trim(Unicode, LABELS_LINE) == "labels:"
  {
    TrimPadded(Unicode, "  ", "labels:", "");
    assert "  " + "labels:" + "" == LABELS_LINE;
  }

  lemma Stands(ls: seq<string>, meta: nat, b: Block, p: nat, f: seq<string>, at: nat, j: nat)
    requires meta < |ls| && b == Start(ls, meta) && p == Place(ls, meta, b) && p <= j < p + |f|
    requires forall i :: (if b.labels < 0 then 1 else 0) <= i < |f| ==> InRun(ExactlyFour, f[i])
    requires b.labels < 0 ==> f[0] == LABELS_LINE && at == p < j
    requires b.labels >= 0 ==> at == b.labels
    ensures var out := InsertAll(ls, p, f);
      && meta < at < j && Trim(Unicode, out[at]) == "labels:" && out[j] == f[j - p]
      && (forall k :: at < k <= j ==> HasPrefix(out[k], "    ") && !HasPrefix(out[k], "      "))
  {
    hide Trim, BlockEnd, IndexOf, InsertAll, HasPrefix, RunEnd;
    InsertAllAt(ls, p, f);
    LabelsLineReads();
  }

  lemma InsideInserted(ls: seq<string>, meta: nat, end: nat, p: nat, f: seq<string>, j: nat)
    requires MetadataBlock(ls, meta, end) && meta < p <= end && p <= j < p + |f|
    requires forall i :: 0 <= i < |f| ==> !Closes(f[i])
    ensures var out := InsertAll(ls, p, f);
      j < |out| && forall k :: meta < k <= j ==> Inside(out[k])
  {
    hide Trim, Closes, Inside;
    InsertAllAt(ls, p, f);
    forall i | 0 <= i < |f| ensures Inside(f[i]) {
      NotClosing(f[i]);
    }
  }

  lemma NotClosing(l: string)
    ensures Inside(l) <==> !Closes(l)
  {
  }

  function Up(ts: seq<nat>): (r: seq<nat>)
    ensures |r| == |ts| && forall i :: 0 <= i < |ts| ==> r[i] == ts[i] + 1
  {
    seq(|ts|, i requires 0 <= i < |ts| => ts[i] + 1)
  }

  lemma UpHas(ts: seq<nat>, t: nat)
    ensures t in Up(ts) <==> t > 0 && t - 1 in ts
  {
    hide Up;
    if t in Up(ts) {
      var i :| 0 <= i < |ts| && Up(ts)[i] == t;
      assert ts[i] == t - 1;
    }
    if t > 0 && t - 1 in ts {
      var i :| 0 <= i < |ts| && ts[i] == t - 1;
      assert Up(ts)[i] == t;
    }
  }

  ghost predicate Rising(ts: seq<nat>) { forall i, j :: 0 <= i < j < |ts| ==> ts[i] < ts[j] }

  ghost predicate Picks(block: seq<string>, lbls: seq<Label>, ts: seq<nat>) {
    forall t: nat :: t in ts <==> t < |lbls| && Wanted(lbls[t]) && !HasKey(block, lbls[t].key)
  }

  lemma PicksMore(block: seq<string>, lbls: seq<Label>, rest: seq<nat>)
    requires lbls != [] && Picks(block, lbls[1..], rest)
    ensures Picks(block, lbls, (if Wanted(lbls[0]) && !HasKey(block, lbls[0].key) then [0] else []) + Up(rest))
  {
    hide HasKey, Wanted, Up;
    var first := Wanted(lbls[0]) && !HasKey(block, lbls[0].key);
    var ts := (if first then [0] else []) + Up(rest);
    forall t: nat
      ensures t in ts <==> t < |lbls| && Wanted(lbls[t]) && !HasKey(block, lbls[t].key)
    {
      UpHas(rest, t);
      if t > 0 {
        assert t < |lbls| ==> lbls[1..][t - 1] == lbls[t];
      }
    }
  }

  /** The missing labels, by their places. */
  lemma {:induction false} MissingAre(block: seq<string>, lbls: seq<Label>) returns (ts: seq<nat>)
    ensures Rising(ts) && Picks(block, lbls, ts) && |ts| == |Missing(block, lbls)|
    ensures forall i :: 0 <= i < |ts| ==> ts[i] < |lbls| && Missing(block, lbls)[i] == lbls[ts[i]]
  {
    hide HasKey, Wanted, Up, Picks;
    if lbls == [] {
      ts := [];
      assert Picks(block, lbls, ts) by { PicksNothing(block); }
    } else {
      var rest := MissingAre(block, lbls[1..]);
      PicksMore(block, lbls, rest);
      ts := (if Wanted(lbls[0]) && !HasKey(block, lbls[0].key) then [0] else []) + Up(rest);
    }
  }

  lemma PicksNothing(block: seq<string>)
    ensures Picks(block, [], [])
  {
  }

  /** The end of the run that the new lines are placed behind: the entries below the first labels line
      of the block, or the metadata where it has none. */
  ghost predicate Behind(ls: seq<string>, meta: nat, end: nat, p: nat) {
    && meta < p <= end <= |ls|
    && (if exists k :: meta < k < end && Trim(Unicode, ls[k]) == "labels:" then
          exists at :: meta < at < p && Trim(Unicode, ls[at]) == "labels:"
            && (forall k :: meta < k < at ==> Trim(Unicode, ls[k]) != "labels:") && RunBetween(ls, at, p, end)
        else
          && (forall k :: meta < k < p ==> HasPrefix(ls[k], "  ")) && (p < end ==> !HasPrefix(ls[p], "  ")))
  }

  predicate FourDeep(l: string) { HasPrefix(l, "    ") && !HasPrefix(l, "      ") }

  predicate RunBetween(ls: seq<string>, at: nat, p: nat, end: nat)
    requires at < p <= end <= |ls|
  {
    (forall k :: at < k < p ==> FourDeep(ls[k])) && (p < end ==> !FourDeep(ls[p]))
  }

  /** Exactly what is written: behind that run, the entries of the wanted labels that no line of the
      block carried, in their order, below a labels line of their own where the block had none. The old
      lines stay in theirs, and a document that is no Cluster of the CAPI group stays as it is. */
  lemma EntriesAre(quote: Quote, lbls: seq<Label>, ls: seq<string>, meta: nat, end: nat)
    returns (p: nat, ts: seq<nat>, es: seq<string>)
    requires Keys(lbls) && MetadataBlock(ls, meta, end)
    ensures Behind(ls, meta, end, p)
    ensures PatchDoc(quote, lbls, ls) ==
      if !ClusterDoc(ls) || ts == [] then ls
      else if exists k :: meta < k < end && Trim(Unicode, ls[k]) == "labels:" then ls[..p] + es + ls[p..]
      else ls[..p] + (["  labels:"] + es) + ls[p..]
    ensures Rising(ts) && Lacked(lbls, ls, meta, end, ts) && Entered(quote, lbls, ts, es)
  {
    hide Trim, PatchDoc, MetadataBlock, ClusterDoc, BlockEnd, Place, Start, Keys, Missing, Entries, Picks, Lacked;
    hide Behind, IndexOf, InsertAll, Entered, Rising;
    BlockIs(ls, meta, end);
    StartIs(ls, meta);
    DocIsPatched(quote, lbls, ls, meta);
    var b := Start(ls, meta);
    var missing := Missing(ls[meta..end], lbls);
    p, es := Place(ls, meta, b), Entries(quote, missing);
    ts := MissingAre(ls[meta..end], lbls);
    PlaceIsBehind(ls, meta, end);
    HasLabelsLine(ls, meta, end);
    InsertedIs(ls, p, Fresh(quote, meta, b, lbls));
    PicksAreLacked(ls, meta, end, lbls, ts);
    MissingEntered(quote, lbls, missing, ts);
  }

  /** The places of the labels that were wanted and that no line of the block carried. */
  ghost predicate Lacked(lbls: seq<Label>, ls: seq<string>, meta: nat, end: nat, ts: seq<nat>)
    requires end <= |ls|
  {
    forall t: nat :: t in ts <==>
      t < |lbls| && (lbls[t].value != "" || lbls[t].key == "caaph") && !HasLine(ls, meta, end, lbls[t].key)
  }

  /** Each entry has the key and the quoted value of its label. */
  ghost predicate Entered(quote: Quote, lbls: seq<Label>, ts: seq<nat>, es: seq<string>) {
    && |es| == |ts|
    && forall i :: 0 <= i < |ts| ==>
         ts[i] < |lbls| &&
         es[i] == (if lbls[ts[i]].key == "caaph" && lbls[ts[i]].value == "enabled" then "    caaph: enabled"
                   else "    " + lbls[ts[i]].key + ": " + quote(lbls[ts[i]].value))
  }

  lemma PicksAreLacked(ls: seq<string>, meta: nat, end: nat, lbls: seq<Label>, ts: seq<nat>)
    requires meta < end <= |ls| && Picks(ls[meta..end], lbls, ts)
    ensures Lacked(lbls, ls, meta, end, ts)
  {
    hide HasKey, HasLine;
    forall t: nat
      ensures t in ts <==>
        t < |lbls| && (lbls[t].value != "" || lbls[t].key == "caaph") && !HasLine(ls, meta, end, lbls[t].key)
    {
      if t < |lbls| {
        NoLineNoKey(ls, meta, end, lbls[t].key);
      }
    }
  }

  lemma MissingEntered(quote: Quote, lbls: seq<Label>, missing: seq<Label>, ts: seq<nat>)
    requires |ts| == |missing| && forall i :: 0 <= i < |ts| ==> ts[i] < |lbls| && missing[i] == lbls[ts[i]]
    ensures Entered(quote, lbls, ts, Entries(quote, missing))
  {
    hide Entries;
    forall i | 0 <= i < |ts| ensures Entries(quote, missing)[i] ==
      if lbls[ts[i]].key == "caaph" && lbls[ts[i]].value == "enabled" then "    caaph: enabled"
      else "    " + lbls[ts[i]].key + ": " + quote(lbls[ts[i]].value)
    {
      LabelOf(quote, missing, i);
    }
  }

  lemma InsertedIs(ls: seq<string>, p: nat, f: seq<string>)
    requires p <= |ls|
    ensures InsertAll(ls, p, f) == ls[..p] + f + ls[p..] && InsertAll(ls, p, []) == ls
  {
    assert ls[..p] + [] + ls[p..] == ls;
  }

  lemma PlaceIsBehind(ls: seq<string>, meta: nat, end: nat)
    requires meta < end <= |ls| && BlockEnd(ls, meta + 1) == end
    ensures Behind(ls, meta, end, Place(ls, meta, Start(ls, meta)))
  {
    hide Trim, BlockEnd, IndexOf, HasPrefix;
    var b := Start(ls, meta);
    var p := Place(ls, meta, b);
    HasLabelsLine(ls, meta, end);
    if b.labels >= 0 {
      forall k | meta < k < b.labels ensures Trim(Unicode, ls[k]) != "labels:" {
        assert !Reads(ls[k], LABELS);
      }
      assert Reads(ls[b.labels], LABELS);
      forall k | b.labels < k < p ensures FourDeep(ls[k]) {
        assert InRun(ExactlyFour, ls[k]);
      }
      assert p < end ==> !InRun(ExactlyFour, ls[p]);
      assert RunBetween(ls, b.labels, p, end);
    } else {
      forall k | meta < k < p ensures HasPrefix(ls[k], "  ") {
        assert InRun(Two, ls[k]);
      }
      assert p < end ==> !InRun(Two, ls[p]);
    }
  }

  lemma NoLabelsLine(ls: seq<string>, meta: nat, end: nat)
    requires meta < end <= |ls|
    ensures IndexOf(ls, LABELS, meta + 1, end) < 0 ==> forall k :: meta < k < end ==> Trim(Unicode, ls[k]) != "labels:"
  {
    hide Trim;
    if IndexOf(ls, LABELS, meta + 1, end) < 0 {
      forall k | meta < k < end ensures Trim(Unicode, ls[k]) != "labels:" {
        assert !Reads(ls[k], LABELS);
      }
    }
  }

  lemma {:induction false} LabelOf(quote: Quote, lbls: seq<Label>, t: nat)
    requires t < |lbls|
    ensures Entries(quote, lbls)[t] ==
      if lbls[t].key == "caaph" && lbls[t].value == "enabled" then "    caaph: enabled"
      else "    " + lbls[t].key + ": " + quote(lbls[t].value)
  {
    if t > 0 {
      LabelOf(quote, lbls[1..], t - 1);
    } else {
      assert INDENT + CAAPH + ": " + ENABLED == "    caaph: enabled";
    }
  }

  // ---------------------------------------------------------------- the manifest

  /** The patched text has the same documents, each one patched. */
  lemma PatchedDocs(quote: Quote, lbls: seq<Label>, text: seq<string>, k: nat)
    requires text != [] && Keys(lbls) && k < |SplitDocs(text)|
    ensures PatchText(quote, lbls, text) != []
    ensures var out := SplitDocs(PatchText(quote, lbls, text));
      |out| == |SplitDocs(text)| && out[k] == PatchDoc(quote, lbls, SplitDocs(text)[k])
  {
    hide PatchDoc, PatchDocs, Keys, SplitForm, SplitDocs, JoinDocs;
    var docs := SplitDocs(text);
    SplitYieldsForm(text);
    PatchedForm(quote, lbls, docs);
    PatchDocsAt(quote, lbls, docs, k);
    SplitOfJoin(PatchDocs(quote, lbls, docs));
  }

  /** Every Cluster of the manifest says what the configuration does: the four labels, each where the
      block had none of that name, with the identifier and the host only where they are given. */
  lemma HelmEntryArrives(quote: Quote, id: string, host: string, port: string, text: seq<string>, k: nat,
    meta: nat, end: nat, key: string, value: string)
    returns (at: nat, j: nat)
    requires text != [] && k < |SplitDocs(text)|
    requires ClusterDoc(SplitDocs(text)[k]) && MetadataBlock(SplitDocs(text)[k], meta, end)
    requires !HasLine(SplitDocs(text)[k], meta, end, key) && value != ""
    requires || (key == "caaph" && value == "enabled")
             || (key == "caaph" + ".cilium.cluster-id" && value == id)
             || (key == "caaph" + ".cilium.k8s-service-host" && value == host)
             || (key == "caaph" + ".cilium.k8s-service-port" && value == if port == "" then "6443" else port)
    ensures PatchText(quote, HelmLabels.ClusterLabels(id, host, port), text) != []
    ensures var out := SplitDocs(PatchText(quote, HelmLabels.ClusterLabels(id, host, port), text));
      && |out| == |SplitDocs(text)|
      && EntryStands(out[k], meta, at, j,
           if key == "caaph" then "    caaph: enabled" else "    " + key + ": " + quote(value))
  {
    hide SplitDocs, PatchText, PatchDoc, ClusterDoc, MetadataBlock, HasLine, EntryStands, Keys;
    var lbls := HelmLabels.ClusterLabels(id, host, port);
    HelmLabels.ClusterLabelsAreKeys(id, host, port);
    TheFour(id, host, port, key, value);
    PatchedDocs(quote, lbls, text, k);
    at, j := EntryArrives(quote, lbls, SplitDocs(text)[k], meta, end, Label(key, value));
  }

  lemma TheFour(id: string, host: string, port: string, key: string, value: string)
    ensures Label(key, value) in HelmLabels.ClusterLabels(id, host, port) <==>
      || (key == "caaph" && value == "enabled")
      || (key == "caaph" + ".cilium.cluster-id" && value == id)
      || (key == "caaph" + ".cilium.k8s-service-host" && value == host)
      || (key == "caaph" + ".cilium.k8s-service-port" && value == if port == "" then "6443" else port)
  {
    var l := HelmLabels.ClusterLabels(id, host, port);
    assert l == [l[0], l[1], l[2], l[3]];
  }

  // ---------------------------------------------------------------- the cluster-name label

  /** Line `at` is the first labels line of the block, and line `k` of the lines below it is a
      cluster-name entry. */
  predicate NameAt(ls: seq<string>, meta: nat, end: nat, at: nat, k: nat) {
    && meta < at < k < end <= |ls| && Trim(Unicode, ls[at]) == "labels:"
    && (forall m :: meta < m < at ==> Trim(Unicode, ls[m]) != "labels:")
    && (forall m :: at < m <= k ==> HasPrefix(ls[m], "    "))
    && HasPrefix(Trim(Unicode, ls[k]), "cluster.x-k8s.io/" + "cluster-name:")
  }

  ghost predicate IsNamed(ls: seq<string>, meta: nat, end: nat) {
    exists at: nat, k: nat :: NameAt(ls, meta, end, at, k)
  }

  lemma LabelledHasName(ls: seq<string>, meta: nat, end: nat)
    requires meta < end <= |ls| && ClusterLabel.Labelled(ls, meta, end)
    ensures IsNamed(ls, meta, end)
  {
    hide Trim, HasPrefix, ClusterLabel.KEY;
    NameKey();
    var labels := IndexOf(ls, LABELS, meta + 1, end);
    var run := ls[labels + 1..RunEnd(Four, ls, labels + 1, end)];
    var i :| 0 <= i < |run| && HasPrefix(Trim(Unicode, run[i]), ClusterLabel.KEY);
    forall m | meta < m < labels ensures Trim(Unicode, ls[m]) != "labels:" {
      assert !Reads(ls[m], LABELS);
    }
    forall m | labels < m <= labels + 1 + i ensures HasPrefix(ls[m], "    ") {
      assert InRun(Four, ls[m]);
    }
    assert NameAt(ls, meta, end, labels, labels + 1 + i);
  }

  lemma NameIsLabelled(ls: seq<string>, meta: nat, end: nat, at: nat, k: nat)
    requires NameAt(ls, meta, end, at, k)
    ensures ClusterLabel.Labelled(ls, meta, end)
  {
    hide Trim, HasPrefix, ClusterLabel.KEY;
    NameKey();
    IndexOfIs(ls, LABELS, meta + 1, end, at);
    RunReaches(ls, at + 1, end, k);
    assert ls[at + 1..RunEnd(Four, ls, at + 1, end)][k - at - 1] == ls[k];
  }

  lemma LabelledIff(ls: seq<string>, meta: nat, end: nat)
    requires meta < end <= |ls|
    ensures ClusterLabel.Labelled(ls, meta, end) <==> IsNamed(ls, meta, end)
  {
    hide ClusterLabel.Labelled, NameAt;
    if ClusterLabel.Labelled(ls, meta, end) {
      LabelledHasName(ls, meta, end);
    }
    if IsNamed(ls, meta, end) {
      var at: nat, k: nat :| NameAt(ls, meta, end, at, k);
      NameIsLabelled(ls, meta, end, at, k);
    }
  }

  lemma NameKey()
    ensures ClusterLabel.KEY == "cluster.x-k8s.io/" + "cluster-name:"
  {
  }

  lemma RunReaches(ls: seq<string>, from: nat, end: nat, k: nat)
    requires from <= k < end <= |ls| && forall m :: from <= m <= k ==> HasPrefix(ls[m], "    ")
    ensures k < RunEnd(Four, ls, from, end)
  {
    hide HasPrefix;
  }

  /** The entry as it is written. */
  function NameEntry(name: string): string { "    " + ("cluster.x-k8s.io/" + "cluster-name:") + " \"" + name + "\"" }

  /** The cluster-name label on a Cluster document: nothing, if it is there already; otherwise one line
      with the name in quotes goes into the block, below a labels line of its own where there was none,
      and then it is there. */
  lemma ClusterNameArrives(name: string, ls: seq<string>, meta: nat, end: nat) returns (p: nat, f: seq<string>)
    requires MetadataBlock(ls, meta, end)
    ensures meta < p <= end && ClusterLabel.EnsureDoc(name, ls) == ls[..p] + f + ls[p..]
    ensures IsNamed(ls, meta, end) ==> f == []
    ensures !IsNamed(ls, meta, end) ==>
      f == if exists k :: meta < k < end && Trim(Unicode, ls[k]) == "labels:" then [NameEntry(name)]
           else ["  labels:", NameEntry(name)]
    ensures var out := ClusterLabel.EnsureDoc(name, ls);
      MetadataBlock(out, meta, end + |f|) && IsNamed(out, meta, end + |f|)
  {
    hide Trim, IsNamed, MetadataBlock, IndexOf, BlockEnd, ClusterLabel.Labelled, ClusterLabel.GoesIn;
    hide ClusterLabel.EnsureLines, ClusterLabel.LabelLine, InsertAll, NameEntry, ClusterLabel.NewLines, IsCluster;
    BlockIs(ls, meta, end);
    LabelledIff(ls, meta, end);
    NameLine(name);
    HasLabelsLine(ls, meta, end);
    ClusterLabel.EnsureFrame(name, ls, meta);
    var out := ClusterLabel.EnsureLines(name, ls, meta);
    f := if IsNamed(ls, meta, end) then []
         else if IndexOf(ls, LABELS, meta + 1, end) != -1 then [NameEntry(name)] else ["  labels:", NameEntry(name)];
    if IsNamed(ls, meta, end) {
      p := end;
      assert ls[..p] + [] + ls[p..] == ls;
    } else {
      p := PlaceOf(ls, meta, f, out);
    }
    NamedAfter(name, ls, meta, end, p, f);
  }

  lemma NamedAfter(name: string, ls: seq<string>, meta: nat, end: nat, p: nat, f: seq<string>)
    requires meta < end <= |ls| && IndexOf(ls, METADATA, 0, |ls|) == meta && BlockEnd(ls, meta + 1) == end
    requires meta < p <= end && ClusterLabel.EnsureLines(name, ls, meta) == ls[..p] + f + ls[p..]
    ensures var out := ClusterLabel.EnsureLines(name, ls, meta);
      MetadataBlock(out, meta, end + |f|) && IsNamed(out, meta, end + |f|)
  {
    hide *;
    var out := ClusterLabel.EnsureLines(name, ls, meta);
    ClusterLabel.EnsureIsInsertion(name, ls, meta);
    ClusterLabel.EnsuredHead(name, ls, meta);
    ClusterLabel.EnsuredBlock(name, ls, meta);
    LengthGrows(ls, meta, p, f, out);
    BlockOf(out, meta);
    LabelledIff(out, meta, end + |f|);
  }

  lemma LengthGrows(ls: seq<string>, meta: nat, p: nat, f: seq<string>, out: seq<string>)
    requires meta < p <= |ls| && out == ls[..p] + f + ls[p..]
    ensures |out| == |ls| + |f|
  {
  }

  lemma PlaceOf(ls: seq<string>, meta: nat, f: seq<string>, out: seq<string>) returns (p: nat)
    requires meta < |ls| && ClusterLabel.GoesIn(ls, meta, f, out)
    ensures meta < p <= BlockEnd(ls, meta + 1) && out == ls[..p] + f + ls[p..]
  {
    p :| meta < p <= BlockEnd(ls, meta + 1) && out == InsertAll(ls, p, f);
  }

  lemma NameLine(name: string)
    ensures ClusterLabel.LabelLine(name) == NameEntry(name)
  {
    hide ClusterLabel.KEY;
    assert ClusterLabel.KEY == "cluster.x-k8s.io/" + "cluster-name:" by { NameKey(); }
  }

  lemma HasLabelsLine(ls: seq<string>, meta: nat, end: nat)
    requires meta < end <= |ls|
    ensures IndexOf(ls, LABELS, meta + 1, end) != -1 <==>
      exists k :: meta < k < end && Trim(Unicode, ls[k]) == "labels:"
  {
    hide Trim;
    NoLabelsLine(ls, meta, end);
    var j := IndexOf(ls, LABELS, meta + 1, end);
    if j != -1 {
      assert Reads(ls[j], LABELS);
    }
  }

  /** Of all documents only the first Cluster of the CAPI group gets the label. */
  lemma {:induction false} FirstIsNamed(name: string, docs: seq<seq<string>>, k: nat)
    requires k < |docs|
    ensures ClusterLabel.EnsureDocs(name, docs)[k] ==
      if ClusterDoc(docs[k]) && forall j :: 0 <= j < k ==> !ClusterDoc(docs[j])
      then ClusterLabel.EnsureDoc(name, docs[k]) else docs[k]
  {
    hide ClusterDoc, IsCluster, ClusterLabel.EnsureDoc;
    ClusterIs(docs[0]);
    if k > 0 && !ClusterDoc(docs[0]) {
      FirstIsNamed(name, docs[1..], k - 1);
      assert forall j :: 0 <= j < k - 1 ==> docs[1..][j] == docs[j + 1];
      assert forall j :: 1 <= j < k ==> docs[j] == docs[1..][j - 1];
    }
  }

  lemma ClusterIs(ls: seq<string>)
    ensures IsCluster(ls) <==> ClusterDoc(ls)
  {
    hide Trim;
  }
}
