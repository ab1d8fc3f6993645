/** Cluster labels (internal/capi/caaph/caaph.go, internal/capi/pivot/manifest.go and
    internal/capi/manifest/generate.go).

    Label lines are inserted into the `metadata:` block of a Cluster document while three indices
    into the growing list of lines are kept in step: the start of the block, its end, and the
    `labels:` line. The result is shown to be one insertion of one run of lines. */
module Labels {
  import opened Text

  const METADATA := "metadata:"
  const LABELS := "labels:"
  const LABELS_LINE := "  labels:"
  const CLUSTER := "kind: Cluster"
  const CAPI := "apiVersion: cluster.x-k8s.io/"
  const CAAPH := "caaph"
  const ENABLED := "enabled"
  const INDENT := "    "

  datatype Label = Label(key: string, value: string)

  /** Go's %q. */
  type Quote = string -> string

  // ---------------------------------------------------------------- reading the document

  predicate Reads(l: string, want: string) { Trim(Unicode, l) == want }

  predicate IsCluster(ls: seq<string>) {
    (exists l :: l in ls && Reads(l, CLUSTER)) && (exists l :: l in ls && HasPrefix(l, CAPI))
  }

  /** indexOf: the first line that reads `want`, from `i` up to `end`, or -1. */
  function IndexOf(ls: seq<string>, want: string, i: nat, end: nat): (j: int)
    requires i <= end <= |ls|
    ensures j == -1 || i <= j < end
    ensures j != -1 ==> Reads(ls[j], want)
    ensures forall k :: i <= k < (if j == -1 then end else j) ==> !Reads(ls[k], want)
    decreases end - i
  {
    if i == end then -1 else if Reads(ls[i], want) then i else IndexOf(ls, want, i + 1, end)
  }

  predicate Closes(l: string) { l != [] && !HasPrefix(l, " ") }

  /** The end of the block: the first line that is not empty and not indented, or the end. */
  function BlockEnd(ls: seq<string>, i: nat): (e: nat)
    requires i <= |ls|
    ensures i <= e <= |ls|
    ensures forall k :: i <= k < e ==> !Closes(ls[k])
    ensures e < |ls| ==> Closes(ls[e])
    decreases |ls| - i
  {
    if i == |ls| || Closes(ls[i]) then i else BlockEnd(ls, i + 1)
  }

  /** The three runs of lines an insertion is placed after. */
  datatype Run = Two | Four | ExactlyFour

  predicate InRun(r: Run, l: string) {
    match r
    case Two => HasPrefix(l, "  ")
    case Four => HasPrefix(l, "    ")
    case ExactlyFour => HasPrefix(l, "    ") && !HasPrefix(l, "      ")
  }

  function RunEnd(r: Run, ls: seq<string>, i: nat, end: nat): (e: nat)
    requires i <= end <= |ls|
    ensures i <= e <= end
    ensures forall k :: i <= k < e ==> InRun(r, ls[k])
    ensures e < end ==> !InRun(r, ls[e])
    decreases end - i
  {
    if i == end || !InRun(r, ls[i]) then i else RunEnd(r, ls, i + 1, end)
  }

  function Insert(ls: seq<string>, i: nat, l: string): seq<string>
    requires i <= |ls|
  {
    ls[..i] + [l] + ls[i..]
  }

  predicate Keyed(l: string, key: string) { HasPrefix(l, INDENT + key + ":") }

  predicate HasKey(ls: seq<string>, key: string) {
    exists l :: l in ls && Keyed(l, key)
  }

  function Entry(quote: Quote, lbl: Label): string {
    if lbl.value == ENABLED && lbl.key == CAAPH then INDENT + CAAPH + ": " + ENABLED
    else INDENT + lbl.key + ": " + quote(lbl.value)
  }

  /** Labels with an empty value are skipped, the `caaph` label never is. */
  predicate Wanted(lbl: Label) { lbl.value != [] || lbl.key == CAAPH }

  // ---------------------------------------------------------------- the loop over the labels

  /** The variables of the loop: the lines, the end of the block, and the labels line or -1. */
  datatype Block = Block(lines: seq<string>, end: nat, labels: int)

  predicate InShape(meta: nat, b: Block) {
    meta < b.end <= |b.lines| && (b.labels == -1 || meta < b.labels < b.end)
  }

  function AddLabel(quote: Quote, meta: nat, b: Block, lbl: Label): (r: Block)
    requires InShape(meta, b)
    ensures InShape(meta, r)
  {
    if !Wanted(lbl) || HasKey(b.lines[meta..b.end], lbl.key) then b
    else if b.labels >= 0 then
      var at := RunEnd(ExactlyFour, b.lines, b.labels + 1, b.end);
      Block(Insert(b.lines, at, Entry(quote, lbl)), b.end + 1, b.labels)
    else
      var at := RunEnd(Two, b.lines, meta + 1, b.end);
      Block(Insert(Insert(b.lines, at, LABELS_LINE), at + 1, Entry(quote, lbl)), b.end + 2, at)
  }

  function AddLabels(quote: Quote, meta: nat, b: Block, lbls: seq<Label>): (r: Block)
    requires InShape(meta, b)
    ensures InShape(meta, r)
    decreases |lbls|
  {
    if lbls == [] then b else AddLabels(quote, meta, AddLabel(quote, meta, b, lbls[0]), lbls[1..])
  }

  function Start(ls: seq<string>, meta: nat): (b: Block)
    requires meta < |ls|
    ensures InShape(meta, b) && b.lines == ls
  {
    var end := BlockEnd(ls, meta + 1);
    Block(ls, end, IndexOf(ls, LABELS, meta + 1, end))
  }

  /** One document through PatchClusterCAAPHHelmLabels. */
  function PatchDoc(quote: Quote, lbls: seq<Label>, ls: seq<string>): seq<string> {
    var meta := IndexOf(ls, METADATA, 0, |ls|);
    if !IsCluster(ls) || meta == -1 then ls
    else AddLabels(quote, meta, Start(ls, meta), lbls).lines
  }

  function PatchDocs(quote: Quote, lbls: seq<Label>, docs: seq<seq<string>>): (r: seq<seq<string>>)
    ensures |r| == |docs|
  {
    Each(doc => PatchDoc(quote, lbls, doc), docs)
  }

  function PatchText(quote: Quote, lbls: seq<Label>, text: seq<string>): seq<string>
    requires text != []
  {
    JoinDocs(PatchDocs(quote, lbls, SplitDocs(text)))
  }

  // ---------------------------------------------------------------- the closed form

  /** The labels the document lacks, in order. */
  function Missing(block: seq<string>, lbls: seq<Label>): seq<Label> {
    if lbls == [] then []
    else if Wanted(lbls[0]) && !HasKey(block, lbls[0].key) then [lbls[0]] + Missing(block, lbls[1..])
    else Missing(block, lbls[1..])
  }

  function Entries(quote: Quote, lbls: seq<Label>): (r: seq<string>)
    ensures |r| == |lbls|
  {
    if lbls == [] then [] else [Entry(quote, lbls[0])] + Entries(quote, lbls[1..])
  }

  /** Where the new lines go: after the labels that are there, or after the metadata. */
  function Place(ls: seq<string>, meta: nat, b: Block): (p: nat)
    requires InShape(meta, b) && b.lines == ls
    ensures meta < p <= b.end
  {
    if b.labels >= 0 then RunEnd(ExactlyFour, ls, b.labels + 1, b.end) else RunEnd(Two, ls, meta + 1, b.end)
  }

  /** The new lines. */
  function Fresh(quote: Quote, meta: nat, b: Block, lbls: seq<Label>): seq<string>
    requires InShape(meta, b)
  {
    var missing := Missing(b.lines[meta..b.end], lbls);
    if missing == [] then []
    else (if b.labels >= 0 then [] else [LABELS_LINE]) + Entries(quote, missing)
  }

  // ---------------------------------------------------------------- label keys

  ghost predicate GoodKey(key: string) { key != [] && key[0] != ' ' && ':' !in key }

  /** The keys of a call: label names, without repetitions. */
  ghost predicate Keys(lbls: seq<Label>) {
    && (forall i :: 0 <= i < |lbls| ==> GoodKey(lbls[i].key))
    && (forall i, j :: 0 <= i < j < |lbls| ==> lbls[i].key != lbls[j].key)
  }

  lemma KeyedChars(l: string, key: string)
    requires Keyed(l, key)
    ensures |l| >= |key| + 5 && l[..4] == INDENT && l[4..4 + |key|] == key && l[4 + |key|] == ':'
  {
    var x := INDENT + key + ":";
    assert forall i :: 0 <= i < |x| ==> l[i] == x[i];
  }

  lemma EntryKeyed(quote: Quote, lbl: Label)
    requires GoodKey(lbl.key)
    ensures Keyed(Entry(quote, lbl), lbl.key) && InRun(ExactlyFour, Entry(quote, lbl))
  {
    var e := Entry(quote, lbl);
    if lbl.value == ENABLED && lbl.key == CAAPH {
      assert e == INDENT + lbl.key + ":" + (" " + ENABLED);
    } else {
      assert e == INDENT + lbl.key + ":" + (" " + quote(lbl.value));
    }
    KeyedChars(e, lbl.key);
    assert e[4] == e[4..4 + |lbl.key|][0];
    assert |e| >= 6 ==> e[..6][4] == e[4];
  }

  /** A line carries at most one colon-free key. */
  lemma OneKey(l: string, a: string, b: string)
    requires GoodKey(a) && GoodKey(b) && Keyed(l, a) && Keyed(l, b)
    ensures a == b
  {
    KeyedChars(l, a);
    KeyedChars(l, b);
    assert forall i :: 0 <= i < |a| ==> l[4 + i] == l[4..4 + |a|][i] == a[i];
    assert forall i :: 0 <= i < |b| ==> l[4 + i] == l[4..4 + |b|][i] == b[i];
    assert |a| >= |b| && |b| >= |a|;
  }

  // ---------------------------------------------------------------- the loop is one insertion

  lemma {:induction false} RunEndIs(r: Run, ls: seq<string>, i: nat, end: nat, e: nat)
    requires i <= e <= end <= |ls|
    requires forall k :: i <= k < e ==> InRun(r, ls[k])
    requires e < end ==> !InRun(r, ls[e])
    ensures RunEnd(r, ls, i, end) == e
    decreases e - i
  {
    if i < e {
      RunEndIs(r, ls, i + 1, end, e);
    }
  }

  /** The block after some lines `f` went in at `p`. */
  function Grown(b: Block, p: nat, f: seq<string>): Block
    requires p <= |b.lines|
  {
    Block(InsertAll(b.lines, p, f), b.end + |f|, if b.labels >= 0 || f == [] then b.labels else p)
  }

  /** What the inserted lines look like: the labels line, if it was missing, and entries for
      labels that are not among those still to come. */
  ghost predicate Inserted(b: Block, f: seq<string>, rest: seq<Label>) {
    && (b.labels < 0 && f != [] ==> f[0] == LABELS_LINE)
    && (forall i :: (if b.labels < 0 then 1 else 0) <= i < |f| ==> InRun(ExactlyFour, f[i]))
    && (forall i, j :: 0 <= i < |f| && 0 <= j < |rest| ==> !Keyed(f[i], rest[j].key))
  }

  lemma HasKeyGrown(b: Block, meta: nat, p: nat, f: seq<string>, key: string)
    requires meta < p <= b.end <= |b.lines|
    requires forall i :: 0 <= i < |f| ==> !Keyed(f[i], key)
    ensures HasKey(InsertAll(b.lines, p, f)[meta..b.end + |f|], key) <==> HasKey(b.lines[meta..b.end], key)
  {
    hide HasKey, Keyed, InsertAll;
    InsertedSlice(b.lines, meta, p, b.end, f);
    KeyAround(b.lines[meta..p], f, b.lines[p..b.end], key);
    NoKeyIn(f, key);
  }

  lemma NoKeyIn(f: seq<string>, key: string)
    requires forall i :: 0 <= i < |f| ==> !Keyed(f[i], key)
    ensures !HasKey(f, key)
  {
    hide Keyed;
  }

  lemma InsertedSlice(ls: seq<string>, meta: nat, p: nat, end: nat, f: seq<string>)
    requires meta <= p <= end <= |ls|
    ensures InsertAll(ls, p, f)[meta..end + |f|] == ls[meta..p] + f + ls[p..end]
    ensures ls[meta..end] == ls[meta..p] + ls[p..end]
  {
    var x, y, z := ls[..meta], ls[meta..p], ls[p..end];
    assert ls[..p] == x + y;
    assert ls[p..] == z + ls[end..];
    Grouped(x, y, f, z, ls[end..]);
    MiddleSlice(x, y + f + z, ls[end..]);
  }

  lemma Grouped(x: seq<string>, y: seq<string>, f: seq<string>, z: seq<string>, w: seq<string>)
    ensures (x + y) + f + (z + w) == x + (y + f + z) + w
  {
  }

  lemma MiddleSlice(x: seq<string>, y: seq<string>, z: seq<string>)
    ensures (x + y + z)[|x|..|x| + |y|] == y
  {
  }

  lemma KeyAround(a: seq<string>, f: seq<string>, c: seq<string>, key: string)
    ensures HasKey(a + f + c, key) <==> HasKey(a + c, key) || HasKey(f, key)
  {
    hide Keyed;
    if HasKey(a + f + c, key) {
      var l :| l in a + f + c && Keyed(l, key);
      InThree(a, f, c, l);
    }
    if HasKey(a + c, key) {
      var l :| l in a + c && Keyed(l, key);
      InThree(a, f, c, l);
    }
    if HasKey(f, key) {
      var l :| l in f && Keyed(l, key);
      InThree(a, f, c, l);
    }
  }

  lemma InThree(a: seq<string>, f: seq<string>, c: seq<string>, l: string)
    ensures l in a + f + c <==> l in a || l in f || l in c
    ensures l in a + c <==> l in a || l in c
  {
  }

  /** The next label goes right behind the lines that went in before it. */
  lemma NextPlace(meta: nat, b: Block, p: nat, f: seq<string>)
    requires InShape(meta, b) && p == Place(b.lines, meta, b) && Inserted(b, f, [])
    ensures var g := Grown(b, p, f);
      && InShape(meta, g)
      && (g.labels >= 0 ==> RunEnd(ExactlyFour, g.lines, g.labels + 1, g.end) == p + |f|)
      && (g.labels < 0 ==> RunEnd(Two, g.lines, meta + 1, g.end) == p && f == [])
  {
    hide RunEnd, InRun, HasPrefix, InsertAll;
    InsertAllAt(b.lines, p, f);
    if b.labels >= 0 || f != [] {
      NextLabel(meta, b, p, f);
    } else {
      GrowNothing(b, p);
    }
  }

  lemma GrowNothing(b: Block, p: nat)
    requires p <= |b.lines|
    ensures Grown(b, p, []) == b
  {
    assert b.lines[..p] + [] + b.lines[p..] == b.lines;
  }

  lemma NextLabel(meta: nat, b: Block, p: nat, f: seq<string>)
    requires InShape(meta, b) && p == Place(b.lines, meta, b) && Inserted(b, f, []) && (b.labels >= 0 || f != [])
    ensures var g := Grown(b, p, f);
      InShape(meta, g) && g.labels >= 0 && RunEnd(ExactlyFour, g.lines, g.labels + 1, g.end) == p + |f|
  {
    hide RunEnd, InRun, HasPrefix, InsertAll;
    var g := Grown(b, p, f);
    InsertAllAt(b.lines, p, f);
    var next := if p < b.end then b.lines[p] else [];
    NotTwoNotFour(next);
    TwoIsPrefix(next);
    RunEndIs(ExactlyFour, g.lines, g.labels + 1, g.end, p + |f|);
  }

  lemma TwoIsPrefix(l: string)
    ensures InRun(Two, l) <==> HasPrefix(l, "  ")
  {
  }

  lemma NotTwoNotFour(l: string)
    ensures !HasPrefix(l, "  ") ==> !InRun(ExactlyFour, l) && !InRun(Four, l)
  {
    assert |l| >= 4 ==> l[..2] == l[..4][..2];
  }

  function Extend(quote: Quote, b: Block, f: seq<string>, missing: seq<Label>): seq<string> {
    if missing == [] then f
    else (if f == [] && b.labels < 0 then [LABELS_LINE] else f) + Entries(quote, missing)
  }

  lemma ExtendInserted(quote: Quote, b: Block, f: seq<string>, lbls: seq<Label>)
    requires lbls != [] && Keys(lbls) && Inserted(b, f, lbls)
    ensures Inserted(b, Extend(quote, b, f, [lbls[0]]), lbls[1..])
    ensures Inserted(b, f, lbls[1..]) && Inserted(b, f, [])
  {
    hide Entry, Keyed, InRun, GoodKey;
    var e := Entry(quote, lbls[0]);
    GoodLabel(lbls, 0);
    EntryKeyed(quote, lbls[0]);
    assert Entries(quote, [lbls[0]]) == [e] + Entries(quote, []);
    forall j | 1 <= j < |lbls|
      ensures !Keyed(e, lbls[j].key) && !Keyed(LABELS_LINE, lbls[j].key)
    {
      GoodLabel(lbls, j);
      LabelsLineUnkeyed(lbls[j].key);
      if Keyed(e, lbls[j].key) {
        OneKey(e, lbls[0].key, lbls[j].key);
      }
    }
    var rest := lbls[1..];
    assert forall j :: 0 <= j < |rest| ==> rest[j] == lbls[j + 1];
  }

  lemma GoodLabel(lbls: seq<Label>, i: nat)
    requires Keys(lbls) && i < |lbls|
    ensures GoodKey(lbls[i].key)
  {
    hide GoodKey;
  }

  lemma LabelsLineUnkeyed(key: string)
    ensures !Keyed(LABELS_LINE, key)
  {
    assert LABELS_LINE[..4][2] == 'l' && INDENT[2] == ' ';
    if Keyed(LABELS_LINE, key) {
      KeyedChars(LABELS_LINE, key);
    }
  }

  lemma AddLabelAt(quote: Quote, meta: nat, g: Block, lbl: Label, at: nat)
    requires InShape(meta, g) && at <= |g.lines|
    requires g.labels >= 0 ==> RunEnd(ExactlyFour, g.lines, g.labels + 1, g.end) == at
    requires g.labels < 0 ==> RunEnd(Two, g.lines, meta + 1, g.end) == at
    ensures AddLabel(quote, meta, g, lbl) ==
      if !Lacks(g, meta, lbl) then g
      else if g.labels >= 0 then Block(Insert(g.lines, at, Entry(quote, lbl)), g.end + 1, g.labels)
      else Block(Insert(Insert(g.lines, at, LABELS_LINE), at + 1, Entry(quote, lbl)), g.end + 2, at)
  {
    hide RunEnd, HasKey, Insert, Entry, Wanted;
  }

  ghost predicate Lacks(b: Block, meta: nat, lbl: Label)
    requires InShape(meta, b)
  {
    Wanted(lbl) && !HasKey(b.lines[meta..b.end], lbl.key)
  }

  lemma LacksGrown(meta: nat, b: Block, p: nat, f: seq<string>, lbl: Label)
    requires InShape(meta, b) && p == Place(b.lines, meta, b) && Inserted(b, f, [lbl])
    ensures InShape(meta, Grown(b, p, f))
    ensures Lacks(Grown(b, p, f), meta, lbl) <==> Lacks(b, meta, lbl)
  {
    assert forall i :: 0 <= i < |f| ==> !Keyed(f[i], [lbl][0].key);
    HasKeyGrown(b, meta, p, f, lbl.key);
  }

  lemma StepGrown(quote: Quote, meta: nat, b: Block, p: nat, f: seq<string>, lbl: Label)
    requires InShape(meta, b) && p == Place(b.lines, meta, b) && Inserted(b, f, [lbl])
    ensures InShape(meta, Grown(b, p, f))
    ensures AddLabel(quote, meta, Grown(b, p, f), lbl)
      == Grown(b, p, if Lacks(b, meta, lbl) then Extend(quote, b, f, [lbl]) else f)
  {
    hide AddLabel, Lacks, RunEnd, InsertAll, Extend, HasKey, Insert, Entry, Inserted;
    LacksGrown(meta, b, p, f, lbl);
    InsertedFewer(b, f, [lbl]);
    NextPlace(meta, b, p, f);
    if Grown(b, p, f).labels >= 0 {
      AddLabelAt(quote, meta, Grown(b, p, f), lbl, p + |f|);
      GrowEntry(quote, b, p, f, lbl);
    } else {
      AddLabelAt(quote, meta, Grown(b, p, f), lbl, p);
      GrowLabels(quote, b, p, lbl);
    }
  }

  lemma InsertedFewer(b: Block, f: seq<string>, rest: seq<Label>)
    requires Inserted(b, f, rest)
    ensures Inserted(b, f, [])
  {
    hide InRun, Keyed;
  }

  lemma GrowEntry(quote: Quote, b: Block, p: nat, f: seq<string>, lbl: Label)
    requires p <= |b.lines| && (b.labels >= 0 || f != [])
    ensures var g := Grown(b, p, f);
      Block(Insert(g.lines, p + |f|, Entry(quote, lbl)), g.end + 1, g.labels)
        == Grown(b, p, Extend(quote, b, f, [lbl]))
  {
    assert Entries(quote, [lbl]) == [Entry(quote, lbl)];
    InsertBehind(b.lines, p, f, Entry(quote, lbl));
  }

  lemma GrowLabels(quote: Quote, b: Block, p: nat, lbl: Label)
    requires p <= |b.lines| && b.labels < 0
    ensures Grown(b, p, []).lines == b.lines
    ensures Block(Insert(Insert(b.lines, p, LABELS_LINE), p + 1, Entry(quote, lbl)), b.end + 2, p)
      == Grown(b, p, Extend(quote, b, [], [lbl]))
  {
    assert Entries(quote, [lbl]) == [Entry(quote, lbl)];
    InsertTwo(b.lines, p, LABELS_LINE, Entry(quote, lbl));
  }

  lemma InsertBehind(ls: seq<string>, p: nat, f: seq<string>, e: string)
    requires p <= |ls|
    ensures Insert(InsertAll(ls, p, f), p + |f|, e) == InsertAll(ls, p, f + [e])
  {
    var mid := InsertAll(ls, p, f);
    assert mid[..p + |f|] == ls[..p] + f && mid[p + |f|..] == ls[p..];
  }

  lemma InsertTwo(ls: seq<string>, p: nat, a: string, e: string)
    requires p <= |ls|
    ensures InsertAll(ls, p, []) == ls
    ensures Insert(Insert(ls, p, a), p + 1, e) == InsertAll(ls, p, [a] + [e])
  {
    InsertBehind(ls, p, [a], e);
  }

  /** The whole loop, from any point of it. */
  lemma {:induction false} LoopIsInsertion(quote: Quote, meta: nat, b: Block, p: nat, f: seq<string>, lbls: seq<Label>)
    requires InShape(meta, b) && p == Place(b.lines, meta, b) && Keys(lbls) && Inserted(b, f, lbls)
    ensures InShape(meta, Grown(b, p, f))
    ensures AddLabels(quote, meta, Grown(b, p, f), lbls)
      == Grown(b, p, Extend(quote, b, f, Missing(b.lines[meta..b.end], lbls)))
    decreases |lbls|
  {
    if lbls == [] {
      NextPlace(meta, b, p, f);
    } else {
      ExtendInserted(quote, b, f, lbls);
      StepGrown(quote, meta, b, p, f, lbls[0]);
      var block := b.lines[meta..b.end];
      var missing := Lacks(b, meta, lbls[0]);
      var g := if missing then Extend(quote, b, f, [lbls[0]]) else f;
      KeysTail(lbls);
      LoopIsInsertion(quote, meta, b, p, g, lbls[1..]);
      if missing {
        ExtendTwice(quote, b, f, lbls[0], Missing(block, lbls[1..]));
      }
    }
  }

  lemma KeysTail(lbls: seq<Label>)
    requires Keys(lbls) && lbls != []
    ensures Keys(lbls[1..])
  {
  }

  lemma ExtendTwice(quote: Quote, b: Block, f: seq<string>, lbl: Label, more: seq<Label>)
    ensures Extend(quote, b, Extend(quote, b, f, [lbl]), more) == Extend(quote, b, f, [lbl] + more)
  {
    assert Entries(quote, [lbl]) == [Entry(quote, lbl)];
    assert ([lbl] + more)[1..] == more;
  }

  /** PatchClusterCAAPHHelmLabels on one Cluster document is a single insertion: at one place
      inside the metadata block go the labels line, if there was none, and one entry for each
      wanted label that no line of the block carries, in order. */
  lemma PatchIsInsertion(quote: Quote, lbls: seq<Label>, ls: seq<string>)
    requires Keys(lbls)
    ensures var meta := IndexOf(ls, METADATA, 0, |ls|);
      PatchDoc(quote, lbls, ls) ==
        if !IsCluster(ls) || meta == -1 then ls
        else
          var b := Start(ls, meta);
          InsertAll(ls, Place(ls, meta, b), Fresh(quote, meta, b, lbls))
  {
    hide IsCluster, Start, Fresh, InsertAll;
    var meta := IndexOf(ls, METADATA, 0, |ls|);
    if IsCluster(ls) && meta != -1 {
      LoopFromStart(quote, lbls, meta, Start(ls, meta));
    }
  }

  lemma LoopFromStart(quote: Quote, lbls: seq<Label>, meta: nat, b: Block)
    requires Keys(lbls) && InShape(meta, b)
    ensures AddLabels(quote, meta, b, lbls).lines
      == InsertAll(b.lines, Place(b.lines, meta, b), Fresh(quote, meta, b, lbls))
  {
    hide AddLabels, Place, Missing, Entries;
    var p := Place(b.lines, meta, b);
    InsertTwo(b.lines, p, [], []);
    assert Grown(b, p, []) == b;
    LoopIsInsertion(quote, meta, b, p, [], lbls);
  }

  // ---------------------------------------------------------------- what the insertion keeps

  lemma {:induction false} IndexOfIs(ls: seq<string>, want: string, i: nat, end: nat, j: nat)
    requires i <= j < end <= |ls| && Reads(ls[j], want)
    requires forall k :: i <= k < j ==> !Reads(ls[k], want)
    ensures IndexOf(ls, want, i, end) == j
    decreases j - i
  {
    if i < j {
      IndexOfIs(ls, want, i + 1, end, j);
    }
  }

  lemma {:induction false} BlockEndIs(ls: seq<string>, i: nat, e: nat)
    requires i <= e <= |ls|
    requires forall k :: i <= k < e ==> !Closes(ls[k])
    requires e < |ls| ==> Closes(ls[e])
    ensures BlockEnd(ls, i) == e
    decreases e - i
  {
    if i < e {
      BlockEndIs(ls, i + 1, e);
    }
  }

  /** New lines are indented, so they neither end the block nor are taken for its head. */
  lemma FourIsIndented(l: string)
    requires InRun(ExactlyFour, l) || l == LABELS_LINE
    ensures !Closes(l)
  {
    assert InRun(ExactlyFour, l) ==> l[..4][..1] == l[..1] && INDENT[..1] == " ";
    assert l == LABELS_LINE ==> l[..1] == " ";
  }

  /** The head of a patched document: same metadata line, same line closing the block, still a
      Cluster document. */
  lemma InsertKeepsHead(ls: seq<string>, meta: nat, p: nat, f: seq<string>)
    requires meta < |ls| && IndexOf(ls, METADATA, 0, |ls|) == meta
    requires meta < p <= BlockEnd(ls, meta + 1) && forall i :: 0 <= i < |f| ==> !Closes(f[i])
    ensures var out := InsertAll(ls, p, f);
      && IndexOf(out, METADATA, 0, |out|) == meta
      && BlockEnd(out, meta + 1) == BlockEnd(ls, meta + 1) + |f|
      && (IsCluster(ls) ==> IsCluster(out))
  {
    hide Reads, Closes, IsCluster, InsertAll;
    var out := InsertAll(ls, p, f);
    InsertAllAt(ls, p, f);
    IndexOfIs(out, METADATA, 0, |out|, meta);
    BlockEndIs(out, meta + 1, BlockEnd(ls, meta + 1) + |f|);
    if IsCluster(ls) {
      InsertKeepsCluster(ls, p, f);
    }
  }

  lemma InsertKeepsCluster(ls: seq<string>, p: nat, f: seq<string>)
    requires p <= |ls| && IsCluster(ls)
    ensures IsCluster(InsertAll(ls, p, f))
  {
    InsertAllMembers(ls, p, f);
    var a :| a in ls && Reads(a, CLUSTER);
    var b :| b in ls && HasPrefix(b, CAPI);
    assert a in InsertAll(ls, p, f) && b in InsertAll(ls, p, f);
  }

  lemma {:induction false} MissingWanted(block: seq<string>, lbls: seq<Label>)
    ensures forall lbl :: lbl in Missing(block, lbls) ==> lbl in lbls && Wanted(lbl)
    ensures forall lbl :: lbl in lbls && Wanted(lbl) && !HasKey(block, lbl.key) ==> lbl in Missing(block, lbls)
  {
    if lbls != [] {
      MissingWanted(block, lbls[1..]);
      assert lbls == [lbls[0]] + lbls[1..];
    }
  }

  /** Every wanted key is on some line. */
  ghost predicate Covers(block: seq<string>, lbls: seq<Label>) {
    forall lbl :: lbl in lbls && Wanted(lbl) ==> HasKey(block, lbl.key)
  }

  lemma {:induction false} MissingNone(block: seq<string>, lbls: seq<Label>)
    requires Covers(block, lbls)
    ensures Missing(block, lbls) == []
  {
    if lbls != [] {
      assert lbls[0] in lbls;
      MissingNone(block, lbls[1..]);
    }
  }

  lemma {:induction false} EntryIn(quote: Quote, lbls: seq<Label>, lbl: Label)
    requires lbl in lbls
    ensures Entry(quote, lbl) in Entries(quote, lbls)
  {
    if lbl != lbls[0] {
      EntryIn(quote, lbls[1..], lbl);
    }
  }

  lemma {:induction false} EntriesIndented(quote: Quote, lbls: seq<Label>)
    requires forall lbl :: lbl in lbls ==> GoodKey(lbl.key)
    ensures forall i :: 0 <= i < |lbls| ==> InRun(ExactlyFour, Entries(quote, lbls)[i])
  {
    if lbls != [] {
      EntryKeyed(quote, lbls[0]);
      EntriesIndented(quote, lbls[1..]);
    }
  }

  lemma FreshIndented(quote: Quote, meta: nat, b: Block, lbls: seq<Label>)
    requires InShape(meta, b) && Keys(lbls)
    ensures var f := Fresh(quote, meta, b, lbls); forall i :: 0 <= i < |f| ==> !Closes(f[i])
  {
    var missing := Missing(b.lines[meta..b.end], lbls);
    MissingWanted(b.lines[meta..b.end], lbls);
    forall lbl | lbl in missing
      ensures GoodKey(lbl.key)
    {
      assert lbl in lbls;
    }
    EntriesIndented(quote, missing);
    var f := Fresh(quote, meta, b, lbls);
    forall i | 0 <= i < |f|
      ensures !Closes(f[i])
    {
      FourIsIndented(f[i]);
    }
  }

  lemma KeyPresent(quote: Quote, meta: nat, b: Block, lbls: seq<Label>, lbl: Label)
    requires InShape(meta, b) && Keys(lbls) && lbl in lbls && Wanted(lbl)
    ensures var f := Fresh(quote, meta, b, lbls);
      HasKey(InsertAll(b.lines, Place(b.lines, meta, b), f)[meta..b.end + |f|], lbl.key)
  {
    hide Fresh, HasKey, RunEnd, InsertAll;
    var ls := b.lines;
    var p, f := Place(ls, meta, b), Fresh(quote, meta, b, lbls);
    InsertedSlice(ls, meta, p, b.end, f);
    KeyAround(ls[meta..p], f, ls[p..b.end], lbl.key);
    if !HasKey(ls[meta..b.end], lbl.key) {
      FreshHasKey(quote, meta, b, lbls, lbl);
    }
  }

  lemma FreshHasKey(quote: Quote, meta: nat, b: Block, lbls: seq<Label>, lbl: Label)
    requires InShape(meta, b) && Keys(lbls) && lbl in lbls && Wanted(lbl)
    requires !HasKey(b.lines[meta..b.end], lbl.key)
    ensures HasKey(Fresh(quote, meta, b, lbls), lbl.key)
  {
    hide Missing, Entries, Entry, Keyed, GoodKey;
    var block := b.lines[meta..b.end];
    MissingWanted(block, lbls);
    var i :| 0 <= i < |lbls| && lbls[i] == lbl;
    GoodLabel(lbls, i);
    EntryIn(quote, Missing(block, lbls), lbl);
    EntryKeyed(quote, lbl);
    assert Entry(quote, lbl) in Fresh(quote, meta, b, lbls);
  }

  lemma CompleteStays(quote: Quote, lbls: seq<Label>, ls: seq<string>, meta: nat, e: nat)
    requires Keys(lbls) && meta < |ls| && IndexOf(ls, METADATA, 0, |ls|) == meta
    requires e == BlockEnd(ls, meta + 1) && Covers(ls[meta..e], lbls)
    ensures PatchDoc(quote, lbls, ls) == ls
  {
    hide PatchDoc, Covers, Missing, RunEnd, IsCluster, BlockEnd, IndexOf;
    PatchIsInsertion(quote, lbls, ls);
    MissingNone(ls[meta..e], lbls);
    InsertTwo(ls, Place(ls, meta, Start(ls, meta)), [], []);
  }

  /** The patched document, named. */
  function Patched(quote: Quote, lbls: seq<Label>, meta: nat, b: Block): (out: seq<string>)
    requires InShape(meta, b)
    ensures |out| == |b.lines| + |Fresh(quote, meta, b, lbls)|
  {
    InsertAll(b.lines, Place(b.lines, meta, b), Fresh(quote, meta, b, lbls))
  }

  /** The metadata line, the line that closes the block, and the kind of the document stay. */
  lemma PatchedHead(quote: Quote, lbls: seq<Label>, ls: seq<string>, meta: nat)
    requires Keys(lbls) && meta < |ls| && IndexOf(ls, METADATA, 0, |ls|) == meta
    ensures var b := Start(ls, meta);
      var out := Patched(quote, lbls, meta, b);
      && IndexOf(out, METADATA, 0, |out|) == meta
      && BlockEnd(out, meta + 1) == b.end + |Fresh(quote, meta, b, lbls)|
      && (IsCluster(ls) ==> IsCluster(out))
  {
    var b := Start(ls, meta);
    FreshIndented(quote, meta, b, lbls);
    InsertKeepsHead(ls, meta, Place(ls, meta, b), Fresh(quote, meta, b, lbls));
  }

  /** After the patch every wanted key is on some line of the metadata block. */
  lemma PatchedComplete(quote: Quote, lbls: seq<Label>, meta: nat, b: Block)
    requires InShape(meta, b) && Keys(lbls)
    ensures Covers(Patched(quote, lbls, meta, b)[meta..b.end + |Fresh(quote, meta, b, lbls)|], lbls)
  {
    forall lbl | lbl in lbls && Wanted(lbl)
      ensures HasKey(Patched(quote, lbls, meta, b)[meta..b.end + |Fresh(quote, meta, b, lbls)|], lbl.key)
    {
      KeyPresent(quote, meta, b, lbls, lbl);
    }
  }

  lemma PatchedStays(quote: Quote, lbls: seq<Label>, meta: nat, b: Block, out: seq<string>, e: nat)
    requires InShape(meta, b) && Keys(lbls)
    requires out == Patched(quote, lbls, meta, b) && e == b.end + |Fresh(quote, meta, b, lbls)|
    requires IndexOf(out, METADATA, 0, |out|) == meta && BlockEnd(out, meta + 1) == e
    ensures PatchDoc(quote, lbls, out) == out
  {
    hide *;
    PatchedComplete(quote, lbls, meta, b);
    CompleteStays(quote, lbls, out, meta, e);
  }

  lemma PatchedCluster(quote: Quote, lbls: seq<Label>, ls: seq<string>, meta: nat)
    requires Keys(lbls) && meta < |ls| && IndexOf(ls, METADATA, 0, |ls|) == meta
    ensures var out := Patched(quote, lbls, meta, Start(ls, meta)); PatchDoc(quote, lbls, out) == out
  {
    var b := Start(ls, meta);
    PatchedHead(quote, lbls, ls, meta);
    PatchedStays(quote, lbls, meta, b, Patched(quote, lbls, meta, b), b.end + |Fresh(quote, meta, b, lbls)|);
  }

  /** A second run finds nothing to do. */
  lemma PatchTwice(quote: Quote, lbls: seq<Label>, ls: seq<string>)
    requires Keys(lbls)
    ensures PatchDoc(quote, lbls, PatchDoc(quote, lbls, ls)) == PatchDoc(quote, lbls, ls)
  {
    var meta := IndexOf(ls, METADATA, 0, |ls|);
    PatchIsInsertion(quote, lbls, ls);
    if IsCluster(ls) && meta != -1 {
      PatchedCluster(quote, lbls, ls, meta);
    }
  }

  // ---------------------------------------------------------------- whole texts

  lemma PatchDocsAt(quote: Quote, lbls: seq<Label>, docs: seq<seq<string>>, k: nat)
    requires k < |docs|
    ensures PatchDocs(quote, lbls, docs)[k] == PatchDoc(quote, lbls, docs[k])
  {
    hide PatchDoc;
  }

  lemma InsertSeparable(ls: seq<string>, p: nat, f: seq<string>)
    requires 1 <= p <= |ls| && forall i :: 0 <= i < |f| ==> !Closes(f[i])
    ensures Separable(ls) ==> Separable(InsertAll(ls, p, f))
    ensures (p < |ls| || !Closes(ls[|ls| - 1])) && Interior(ls) ==> Interior(InsertAll(ls, p, f))
  {
    var out := InsertAll(ls, p, f);
    InsertAllAt(ls, p, f);
    assert SEPARATOR[..1][0] == '-';
    assert forall i :: p <= i < p + |f| ==> out[i] != SEPARATOR;
  }

  /** Patching a document leaves it a document: no separator appears in it. */
  lemma PatchSeparable(quote: Quote, lbls: seq<Label>, ls: seq<string>)
    requires Keys(lbls)
    ensures Separable(ls) ==> Separable(PatchDoc(quote, lbls, ls))
    ensures Interior(ls) && ls != [] ==> Interior(PatchDoc(quote, lbls, ls)) && PatchDoc(quote, lbls, ls) != []
  {
    var meta := IndexOf(ls, METADATA, 0, |ls|);
    PatchIsInsertion(quote, lbls, ls);
    if IsCluster(ls) && meta != -1 {
      var b := Start(ls, meta);
      FreshIndented(quote, meta, b, lbls);
      var p := Place(ls, meta, b);
      if p == |ls| && |ls| > meta + 1 {
        assert !Closes(ls[|ls| - 1]);
      }
      InsertAtEnd(ls, meta, p, Fresh(quote, meta, b, lbls));
    }
  }

  lemma InsertAtEnd(ls: seq<string>, meta: nat, p: nat, f: seq<string>)
    requires meta < |ls| && meta < p <= |ls| && forall i :: 0 <= i < |f| ==> !Closes(f[i])
    requires Reads(ls[meta], METADATA)
    requires p == |ls| && |ls| > meta + 1 ==> !Closes(ls[|ls| - 1])
    ensures Separable(ls) ==> Separable(InsertAll(ls, p, f))
    ensures Interior(ls) ==> Interior(InsertAll(ls, p, f))
  {
    InsertSeparable(ls, p, f);
    InsertAllAt(ls, p, f);
    MarkerIsNotMetadata();
  }

  lemma MarkerIsNotMetadata()
    ensures !Reads(SEPARATOR, METADATA)
  {
    TrimPadded(Unicode, "", SEPARATOR, "");
    assert "" + SEPARATOR + "" == SEPARATOR;
  }

  lemma PatchedForm(quote: Quote, lbls: seq<Label>, docs: seq<seq<string>>)
    requires Keys(lbls) && SplitForm(docs)
    ensures SplitForm(PatchDocs(quote, lbls, docs))
  {
    hide PatchDoc, PatchDocs, Keys;
    var out := PatchDocs(quote, lbls, docs);
    var n := |docs| - 1;
    PatchDocsAt(quote, lbls, docs, n);
    PatchSeparable(quote, lbls, docs[n]);
    forall k | 0 <= k < n
      ensures Separable(out[k])
    {
      assert Separable(docs[k]);
      PatchDocsAt(quote, lbls, docs, k);
      PatchSeparable(quote, lbls, docs[k]);
    }
  }

  /** Running the label patch on its own output changes no byte. */
  lemma PatchTextTwice(quote: Quote, lbls: seq<Label>, text: seq<string>)
    requires text != [] && Keys(lbls)
    ensures PatchText(quote, lbls, text) != []
    ensures PatchText(quote, lbls, PatchText(quote, lbls, text)) == PatchText(quote, lbls, text)
  {
    hide PatchDoc, PatchDocs, Keys, SplitForm;
    var docs := SplitDocs(text);
    var out := PatchDocs(quote, lbls, docs);
    SplitYieldsForm(text);
    PatchedForm(quote, lbls, docs);
    SplitOfJoin(out);
    forall k | 0 <= k < |docs|
      ensures PatchDocs(quote, lbls, out)[k] == out[k]
    {
      PatchDocsAt(quote, lbls, out, k);
      PatchDocsAt(quote, lbls, docs, k);
      PatchTwice(quote, lbls, docs[k]);
    }
    assert PatchDocs(quote, lbls, out) == out;
  }

  // ---------------------------------------------------------------- the loops

  method FindLine(ls: seq<string>, want: string, from: nat, end: nat) returns (at: int)
    requires from <= end <= |ls|
    ensures at == IndexOf(ls, want, from, end)
  {
    at := -1;
    var j := from;
    while j < end
      invariant from <= j <= end && IndexOf(ls, want, from, end) == IndexOf(ls, want, j, end)
    {
      if Reads(ls[j], want) {
        return j;
      }
      j := j + 1;
    }
  }

  method FindBlockEnd(ls: seq<string>, meta: nat) returns (end: nat)
    requires meta < |ls|
    ensures end == BlockEnd(ls, meta + 1)
  {
    end := |ls|;
    var j := meta + 1;
    while j < |ls|
      invariant meta + 1 <= j <= |ls| && end == |ls|
      invariant BlockEnd(ls, meta + 1) == BlockEnd(ls, j)
    {
      if ls[j] != [] && !HasPrefix(ls[j], " ") {
        end := j;
        break;
      }
      j := j + 1;
    }
  }

  method SkipRun(r: Run, ls: seq<string>, from: nat, end: nat) returns (insertAt: nat)
    requires from <= end <= |ls|
    ensures insertAt == RunEnd(r, ls, from, end)
  {
    insertAt := from;
    while insertAt < end && InRun(r, ls[insertAt])
      invariant from <= insertAt <= end && RunEnd(r, ls, from, end) == RunEnd(r, ls, insertAt, end)
    {
      insertAt := insertAt + 1;
    }
  }

  /** One label: the entry is inserted into the growing list of lines, and the end of the block and
      the position of the labels line move along. */
  method InsertLabel(quote: Quote, meta: nat, lbl: Label, lines: seq<string>, end0: nat, labels0: int)
    returns (newLines: seq<string>, end: nat, labelsIdx: int)
    requires InShape(meta, Block(lines, end0, labels0))
    ensures Block(newLines, end, labelsIdx) == AddLabel(quote, meta, Block(lines, end0, labels0), lbl)
  {
    hide RunEnd, HasKey, Entry;
    newLines, end, labelsIdx := lines, end0, labels0;
    if !Wanted(lbl) || HasKey(newLines[meta..end], lbl.key) {
      return;
    }
    if labelsIdx >= 0 {
      var insertAt := SkipRun(ExactlyFour, newLines, labelsIdx + 1, end);
      newLines := Insert(newLines, insertAt, Entry(quote, lbl));
      end := end + 1;
    } else {
      var insertAt := SkipRun(Two, newLines, meta + 1, end);
      newLines := Insert(newLines, insertAt, LABELS_LINE);
      newLines := Insert(newLines, insertAt + 1, Entry(quote, lbl));
      labelsIdx := insertAt;
      end := end + 2;
    }
  }

  method InsertLabels(quote: Quote, lbls: seq<Label>, ls: seq<string>, meta: nat) returns (newLines: seq<string>)
    requires meta < |ls|
    ensures newLines == AddLabels(quote, meta, Start(ls, meta), lbls).lines
  {
    var end: nat := FindBlockEnd(ls, meta);
    var labelsIdx := FindLine(ls, LABELS, meta + 1, end);
    newLines := ls;
    ghost var b := Start(ls, meta);
    for k := 0 to |lbls|
      invariant InShape(meta, b) && b == Block(newLines, end, labelsIdx)
      invariant AddLabels(quote, meta, b, lbls[k..]) == AddLabels(quote, meta, Start(ls, meta), lbls)
    {
      assert lbls[k..][0] == lbls[k] && lbls[k..][1..] == lbls[k + 1..];
      b := AddLabel(quote, meta, b, lbls[k]);
      newLines, end, labelsIdx := InsertLabel(quote, meta, lbls[k], newLines, end, labelsIdx);
    }
  }

  method PatchOne(quote: Quote, lbls: seq<Label>, doc: seq<string>) returns (newDoc: seq<string>)
    ensures newDoc == PatchDoc(quote, lbls, doc)
  {
    var meta := FindLine(doc, METADATA, 0, |doc|);
    if !IsCluster(doc) || meta < 0 {
      return doc;
    }
    newDoc := InsertLabels(quote, lbls, doc, meta);
  }

  /** PatchClusterCAAPHHelmLabels and patchMgmtClusterCAAPHLabels on the manifest text. */
  method PatchClusterLabels(quote: Quote, lbls: seq<Label>, text: seq<string>) returns (out: seq<string>)
    requires text != []
    ensures out == PatchText(quote, lbls, text)
  {
    hide PatchDoc, PatchDocs;
    var docs := SplitDocs(text);
    ghost var want := PatchDocs(quote, lbls, docs);
    ghost var input := docs;
    var i := 0;
    while i < |docs|
      invariant 0 <= i <= |docs| == |input| == |want|
      invariant forall k :: 0 <= k < i ==> docs[k] == want[k]
      invariant forall k :: i <= k < |docs| ==> docs[k] == input[k]
    {
      PatchDocsAt(quote, lbls, input, i);
      var newDoc := PatchOne(quote, lbls, docs[i]);
      docs := docs[i := newDoc];
      i := i + 1;
    }
    assert docs == want;
    out := JoinDocs(docs);
  }
}
