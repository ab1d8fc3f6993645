/** What the two patches of `ControlPlane` write, line for line (internal/capi/manifest/patches.go). */
module ControlPlaneLines {
  import opened Text
  import opened ControlPlane

  lemma InitLine()
    ensures INIT == "    initConfiguration:"
  {
  }

  lemma SkipLine()
    ensures SKIP_LINE == "      skipPhases:"
  {
  }

  lemma PhaseLine()
    ensures PHASE_LINE == "        - addon/kube-proxy"
  {
  }

  // ---------------------------------------------------------------- the item and the block

  predicate ControlPlaneDoc(ls: seq<string>) {
    exists i :: 0 <= i < |ls| && HasPrefix(ls[i], "kind:") && FieldValue(ls, i, "kind:") == "KubeadmControlPlane"
  }

  predicate White(ls: seq<string>, i: nat, j: nat) { forall k :: i <= k < j && k < |ls| ==> Blank(ls[k]) }

  predicate IsPhase(w: string, bare: bool) {
    if bare then w == "addon/kube-proxy" else TrimRight(Regex, w) == "addon/kube-proxy"
  }

  /** Behind line `from - 1`, the lines up to `d` are white, and a list item `- addon/kube-proxy` starts
      on line `d` and ends on line `e`; a bare one has nothing behind it on its line. */
  predicate Item(ls: seq<string>, from: nat, d: nat, e: nat, bare: bool) {
    && from <= d <= e < |ls| && White(ls, from, d) && (from < d || Lead(Regex, ls[d]) > 0)
    && var t := TrimLeft(Regex, ls[d]);
       && t != "" && t[0] == '-'
       && (if d == e then Lead(Regex, t[1..]) > 0 && IsPhase(TrimLeft(Regex, t[1..]), bare)
           else Blank(t[1..]) && White(ls, d + 1, e) && IsPhase(TrimLeft(Regex, ls[e]), bare))
  }

  /** A skip phase under the init configuration of line `i`, alone in its list up to line `e`. */
  predicate SkipBlock(ls: seq<string>, i: nat, s: nat, d: nat, e: nat) {
    && i < s < d <= e < |ls| - 1 && ls[i] == "    initConfiguration:"
    && White(ls, i + 1, s) && (i + 1 < s || Lead(Regex, ls[s]) > 0) && TrimLeft(Regex, ls[s]) == "skipPhases:"
    && Item(ls, s + 1, d, e, true)
  }

  lemma PhaseIs(w: string, bare: bool)
    ensures Phase(w, bare) <==> IsPhase(w, bare)
    ensures IsPhase(w, bare) ==> w != ""
  {
  }

  lemma TrimmedBlank(l: string)
    ensures Blank(l) <==> TrimLeft(Regex, l) == ""
  {
  }

  lemma NextIsWhite(ls: seq<string>, i: nat)
    requires i <= |ls|
    ensures White(ls, i, NextNonBlank(ls, i))
  {
    hide Blank;
  }

  /** The first line that is not white, from line `i` on. */
  lemma NextIs(ls: seq<string>, i: nat, j: nat)
    requires i <= j < |ls| && White(ls, i, j) && !Blank(ls[j])
    ensures NextNonBlank(ls, i) == j
  {
    hide Blank;
    NextNonBlankIs(ls, i, j);
  }

  lemma ItemFound(ls: seq<string>, bare: bool)
    requires ItemEnd(ls, bare) != -1
    ensures Item(ls, 0, NextNonBlank(ls, 0), ItemEnd(ls, bare), bare)
  {
    hide Lead, TrimLeft, Blank, Phase, IsPhase;
    var j := NextNonBlank(ls, 0);
    NextIsWhite(ls, 0);
    var t := TrimLeft(Regex, ls[j]);
    PhaseIs(TrimLeft(Regex, t[1..]), bare);
    var k := NextNonBlank(ls, j + 1);
    NextIsWhite(ls, j + 1);
    if k < |ls| {
      PhaseIs(TrimLeft(Regex, ls[k]), bare);
    }
  }

  lemma ItemIsFound(ls: seq<string>, d: nat, e: nat, bare: bool)
    requires Item(ls, 0, d, e, bare)
    ensures ItemEnd(ls, bare) == e
  {
    hide Lead, TrimLeft, Blank, Phase, IsPhase;
    var t := TrimLeft(Regex, ls[d]);
    TrimmedBlank(ls[d]);
    NextIs(ls, 0, d);
    PhaseIs(TrimLeft(Regex, t[1..]), bare);
    TrimmedBlank(t[1..]);
    if d < e {
      PhaseIs(TrimLeft(Regex, ls[e]), bare);
      TrimmedBlank(ls[e]);
      NextIs(ls, d + 1, e);
    }
  }

  lemma ItemShift(ls: seq<string>, i: nat, from: nat, d: nat, e: nat, bare: bool)
    requires i <= |ls|
    ensures Item(ls[i..], from, d, e, bare) <==> Item(ls, from + i, d + i, e + i, bare)
  {
    hide Lead, TrimLeft, Blank, IsPhase;
    WhiteShift(ls, i, from, d);
    WhiteShift(ls, i, d + 1, e);
  }

  lemma WhiteShift(ls: seq<string>, i: nat, a: nat, b: nat)
    requires i <= |ls|
    ensures White(ls[i..], a, b) <==> White(ls, a + i, b + i)
  {
    hide Blank;
    if White(ls[i..], a, b) {
      forall k | a + i <= k < b + i && k < |ls| ensures Blank(ls[k]) {
        assert ls[i..][k - i] == ls[k];
      }
    }
  }

  /** The document carries the phase. */
  lemma CarriedIff(ls: seq<string>)
    ensures HasPhase(ls) <==> exists from: nat, d: nat, e: nat :: Item(ls, from, d, e, false)
  {
    hide ItemEnd, Item;
    if HasPhase(ls) {
      var i :| 0 <= i < |ls| && ItemEnd(ls[i..], false) != -1;
      ItemFound(ls[i..], false);
      ItemShift(ls, i, 0, NextNonBlank(ls[i..], 0), ItemEnd(ls[i..], false), false);
    }
    if exists from: nat, d: nat, e: nat :: Item(ls, from, d, e, false) {
      var from: nat, d: nat, e: nat :| Item(ls, from, d, e, false);
      ItemInRange(ls, from, d, e);
      ItemShift(ls, from, 0, d - from, e - from, false);
      ItemIsFound(ls[from..], d - from, e - from, false);
    }
  }

  lemma ItemInRange(ls: seq<string>, from: nat, d: nat, e: nat)
    requires Item(ls, from, d, e, false)
    ensures from <= d <= e < |ls|
  {
  }

  lemma BlockFoundAt(ls: seq<string>)
    requires BlockAt(ls) != -1
    ensures exists s: nat, d: nat :: SkipBlock(ls, 0, s, d, BlockAt(ls))
  {
    hide Lead, TrimLeft, Blank, ItemEnd, Item;
    var j := NextNonBlank(ls, 1);
    NextIsWhite(ls, 1);
    var rest := ls[j + 1..];
    ItemFound(rest, true);
    var d := NextNonBlank(rest, 0);
    ItemShift(ls, j + 1, 0, d, ItemEnd(rest, true), true);
    FoundInRange(rest, 0, d, ItemEnd(rest, true));
    assert SkipBlock(ls, 0, j, d + j + 1, BlockAt(ls));
  }

  lemma FoundInRange(ls: seq<string>, from: nat, d: nat, e: nat)
    requires Item(ls, from, d, e, true)
    ensures from <= d <= e < |ls|
  {
  }

  lemma BlockIsFound(ls: seq<string>, s: nat, d: nat, e: nat)
    requires SkipBlock(ls, 0, s, d, e)
    ensures BlockAt(ls) == e
  {
    hide Lead, TrimLeft, Blank, ItemEnd, Item;
    TrimmedBlank(ls[s]);
    NextIs(ls, 1, s);
    ItemShift(ls, s + 1, 0, d - s - 1, e - s - 1, true);
    ItemIsFound(ls[s + 1..], d - s - 1, e - s - 1, true);
  }

  lemma BlockShift(ls: seq<string>, i: nat, s: nat, d: nat, e: nat)
    requires i <= |ls| && i <= s && i <= d && i <= e
    ensures SkipBlock(ls[i..], 0, s - i, d - i, e - i) <==> SkipBlock(ls, i, s, d, e)
  {
    hide Lead, TrimLeft, Item, White;
    if s < d {
      ItemShift(ls, i, s - i + 1, d - i, e - i, true);
    }
    WhiteShift(ls, i, 1, s - i);
  }

  lemma RemovedHead(ls: seq<string>)
    requires ls != []
    ensures RemovePhase(ls) ==
      if BlockAt(ls) != -1 then [INIT] + RemovePhase(ls[BlockAt(ls) + 1..]) else [ls[0]] + RemovePhase(ls[1..])
  {
    hide BlockAt, INIT;
  }

  ghost predicate NoBlockAbove(ls: seq<string>, i: nat) {
    forall k: nat, s: nat, d: nat, e: nat :: k < i ==> !SkipBlock(ls, k, s, d, e)
  }

  /** Removing the phase takes out the first block, except for its init configuration, and goes on
      behind it. */
  lemma {:induction false} FirstBlockGoes(ls: seq<string>, i: nat, s: nat, d: nat, e: nat)
    requires SkipBlock(ls, i, s, d, e) && NoBlockAbove(ls, i)
    ensures RemovePhase(ls) == ls[..i + 1] + RemovePhase(ls[e + 1..])
  {
    hide SkipBlock, BlockAt, INIT, RemovePhase;
    InRange(ls, i, s, d, e);
    RemovedHead(ls);
    if i == 0 {
      BlockIsFound(ls, s, d, e);
      InitLine();
      assert ls[..1] == [INIT];
    } else {
      if BlockAt(ls) != -1 {
        BlockFoundAt(ls);
      }
      var rest := ls[1..];
      BlockBehind(ls, i, s, d, e);
      forall k: nat, s': nat, d': nat, e': nat | k < i - 1 ensures !SkipBlock(rest, k, s', d', e') {
        NoBlockBehind(ls, k, s', d', e');
      }
      FirstBlockGoes(rest, i - 1, s - 1, d - 1, e - 1);
      assert rest[e..] == ls[e + 1..];
      assert [ls[0]] + rest[..i] == ls[..i + 1];
      assert [ls[0]] + (rest[..i] + RemovePhase(rest[e..])) == [ls[0]] + rest[..i] + RemovePhase(rest[e..]);
    }
  }

  lemma InRange(ls: seq<string>, i: nat, s: nat, d: nat, e: nat)
    requires SkipBlock(ls, i, s, d, e)
    ensures i < s < d <= e < |ls| - 1 && ls[i] == "    initConfiguration:"
  {
  }

  lemma BlockBehind(ls: seq<string>, i: nat, s: nat, d: nat, e: nat)
    requires 0 < i < s < d <= e < |ls| - 1 && SkipBlock(ls, i, s, d, e)
    ensures SkipBlock(ls[1..], i - 1, s - 1, d - 1, e - 1)
  {
    hide SkipBlock;
    BlockShift(ls, i, s, d, e);
    BlockShift(ls[1..], i - 1, s - 1, d - 1, e - 1);
    assert ls[1..][i - 1..] == ls[i..];
  }

  lemma NoBlockBehind(ls: seq<string>, k: nat, s: nat, d: nat, e: nat)
    requires ls != [] && !SkipBlock(ls, k + 1, s + 1, d + 1, e + 1)
    ensures !SkipBlock(ls[1..], k, s, d, e)
  {
    hide SkipBlock;
    if SkipBlock(ls[1..], k, s, d, e) {
      InRange(ls[1..], k, s, d, e);
      BlockShift(ls, k + 1, s + 1, d + 1, e + 1);
      BlockShift(ls[1..], k, s, d, e);
    }
  }

  /** Without such a block, removing it changes nothing. */
  lemma {:induction false} NoBlockStays(ls: seq<string>)
    requires forall k: nat, s: nat, d: nat, e: nat :: !SkipBlock(ls, k, s, d, e)
    ensures RemovePhase(ls) == ls
  {
    hide SkipBlock, BlockAt;
    if ls != [] {
      if BlockAt(ls) != -1 {
        BlockFoundAt(ls);
      }
      forall k: nat, s: nat, d: nat, e: nat ensures !SkipBlock(ls[1..], k, s, d, e) {
        NoBlockBehind(ls, k, s, d, e);
      }
      NoBlockStays(ls[1..]);
      assert ls == [ls[0]] + ls[1..];
    }
  }

  // ---------------------------------------------------------------- the lines that are added

  /** The number of init configurations. */
  function Inits(ls: seq<string>): nat {
    if ls == [] then 0 else (if ls[0] == "    initConfiguration:" then 1 else 0) + Inits(ls[1..])
  }

  /** Where each line goes, and what stands behind an init configuration that is not the last line. */
  lemma {:induction false} AddedAt(ls: seq<string>, i: nat)
    requires i < |ls|
    ensures var out, p := AddPhase(ls), i + 2 * Inits(ls[..i]);
      && |out| == |ls| + 2 * Inits(ls[..|ls| - 1]) && p < |out| && out[p] == ls[i]
      && (ls[i] == "    initConfiguration:" && i < |ls| - 1 ==>
            p + 2 < |out| && out[p + 1] == "      skipPhases:" && out[p + 2] == "        - addon/kube-proxy")
  {
    hide Inits, AddPhase;
    InitsStep(ls, |ls| - 1);
    InitsStep(ls, i);
    if |ls| == 1 {
      AddedToOne(ls);
    } else {
      AddedAt(ls[1..], if i == 0 then 0 else i - 1);
      AddedHead(ls);
    }
  }

  lemma InitsStep(ls: seq<string>, i: nat)
    requires i < |ls|
    ensures Inits(ls[..i]) ==
      if i == 0 then 0 else (if ls[0] == "    initConfiguration:" then 1 else 0) + Inits(ls[1..][..i - 1])
  {
    if i > 0 {
      assert ls[..i][1..] == ls[1..][..i - 1];
    }
  }

  lemma AddedToOne(ls: seq<string>)
    requires |ls| == 1
    ensures AddPhase(ls) == ls
  {
  }

  lemma AddedHead(ls: seq<string>)
    requires |ls| > 1
    ensures AddPhase(ls) ==
      (if ls[0] == "    initConfiguration:"
       then ["    initConfiguration:", "      skipPhases:", "        - addon/kube-proxy"] else [ls[0]])
        + AddPhase(ls[1..])
  {
    hide INIT, SKIP_LINE, PHASE_LINE;
    InitLine();
    SkipLine();
    PhaseLine();
  }

  /** Adding the phase to a document: nothing, if it is no control plane or carries the phase; otherwise
      the two lines behind every init configuration, and every line in its order. */
  lemma PhaseIsAdded(ls: seq<string>, i: nat)
    requires i < |ls|
    ensures var out, p := PatchPhase(true, ls), i + 2 * Inits(ls[..i]);
      if !ControlPlaneDoc(ls) || exists from: nat, d: nat, e: nat :: Item(ls, from, d, e, false) then out == ls
      else
        && |out| == |ls| + 2 * Inits(ls[..|ls| - 1]) && p < |out| && out[p] == ls[i]
        && (ls[i] == "    initConfiguration:" && i < |ls| - 1 ==>
              p + 2 < |out| && out[p + 1] == "      skipPhases:" && out[p + 2] == "        - addon/kube-proxy")
  {
    hide Item, HasPhase, AddPhase, FieldValue;
    CarriedIff(ls);
    AddedAt(ls, i);
    DocIs(ls);
  }

  lemma DocIs(ls: seq<string>)
    ensures IsControlPlane(ls) <==> ControlPlaneDoc(ls)
  {
    hide FieldValue, HasPrefix;
  }

  /** Removing the phase from a document: nothing, if it is no control plane or has no such block;
      otherwise its first block goes, except for the init configuration, and so on behind it. */
  lemma PhaseIsRemoved(ls: seq<string>, i: nat, s: nat, d: nat, e: nat)
    ensures !ControlPlaneDoc(ls) ==> PatchPhase(false, ls) == ls
    ensures (forall k: nat, s': nat, d': nat, e': nat :: !SkipBlock(ls, k, s', d', e')) ==> PatchPhase(false, ls) == ls
    ensures ControlPlaneDoc(ls) && SkipBlock(ls, i, s, d, e) && NoBlockAbove(ls, i) ==>
      i < e < |ls| - 1 && PatchPhase(false, ls) == ls[..i + 1] + RemovePhase(ls[e + 1..])
  {
    hide SkipBlock, RemovePhase, FieldValue;
    DocIs(ls);
    if forall k: nat, s': nat, d': nat, e': nat :: !SkipBlock(ls, k, s', d', e') {
      NoBlockStays(ls);
    }
    if SkipBlock(ls, i, s, d, e) && NoBlockAbove(ls, i) {
      InRange(ls, i, s, d, e);
      FirstBlockGoes(ls, i, s, d, e);
    }
  }

  // ---------------------------------------------------------------- the memory adjustment

  predicate InfraCluster(ls: seq<string>) {
    && (exists i :: 0 <= i < |ls| && HasPrefix(ls[i], "kind:") && FieldValue(ls, i, "kind:") == "ProxmoxCluster")
    && (exists i :: 0 <= i < |ls| && HasPrefix(ls[i], "apiVersion:")
          && HasPrefix(FieldValue(ls, i, "apiVersion:"), "infrastructure.cluster.x-k8s.io/"))
  }

  lemma InfraIs(ls: seq<string>)
    ensures IsProxmoxCluster(ls) <==> InfraCluster(ls)
  {
    hide FieldValue, HasPrefix;
  }

  /** Line `s` starts a spec block of complete lines; it ends in front of line `p`. */
  predicate SpecLines(ls: seq<string>, s: nat, p: nat) {
    && s + 1 < p < |ls| && ls[s] == "spec:" && (forall k :: s < k < p ==> HasPrefix(ls[k], "  "))
    && (p < |ls| - 1 ==> !HasPrefix(ls[p], "  "))
  }

  lemma {:induction false} SpecBlockIs(ls: seq<string>, i: nat, s: nat, p: nat)
    requires i <= s && SpecLines(ls, s, p)
    requires forall k: nat, q: nat :: i <= k < s ==> !SpecLines(ls, k, q)
    ensures SpecBlock(ls, i) == s
    decreases s - i
  {
    hide SpecLines;
    SpecInRange(ls, s, p);
    if i < s {
      if ls[i] == SPEC && HasPrefix(ls[i + 1], "  ") {
        SpecHere(ls, i);
      }
      SpecBlockIs(ls, i + 1, s, p);
    }
  }

  lemma SpecInRange(ls: seq<string>, s: nat, p: nat)
    requires SpecLines(ls, s, p)
    ensures s + 1 < p < |ls| && ls[s] == SPEC && HasPrefix(ls[s + 1], "  ")
  {
  }

  lemma SpecHere(ls: seq<string>, s: nat)
    requires s + 2 < |ls| && ls[s] == SPEC && HasPrefix(ls[s + 1], "  ")
    ensures SpecLines(ls, s, SpecEnd(ls, s + 1))
  {
    hide HasPrefix;
  }

  lemma {:induction false} SpecEndIs(ls: seq<string>, i: nat, p: nat)
    requires i <= p < |ls| && (forall k :: i <= k < p ==> HasPrefix(ls[k], "  "))
    requires p < |ls| - 1 ==> !HasPrefix(ls[p], "  ")
    ensures SpecEnd(ls, i) == p
    decreases p - i
  {
    hide HasPrefix;
    if i < p {
      SpecEndIs(ls, i + 1, p);
    }
  }

  lemma InjectedIs(mem: string, ls: seq<string>)
    requires ls != []
    ensures var doc := if |ls| > 1 && ls[|ls| - 1] == "" then ls else ls + [""];
      var s := SpecBlock(doc, 0);
      doc == Terminated(ls) && Inject(mem, ls) ==
        if (exists i :: 0 <= i < |ls| && HasPrefix(ls[i], "  schedulerHints:")) || s == -1 then ls
        else
          var p := SpecEnd(doc, s + 1);
          doc[..p] + ["  schedulerHints:", "    memoryAdjustment: " + mem] + doc[p..]
  {
    hide SpecBlock, SpecEnd, HasPrefix;
  }

  /** The hints go behind the first spec block of the document, which gets a final newline if it has
      none; a document with hints or without such a block stays. */
  lemma HintsAreInjected(mem: string, ls: seq<string>, s: nat, p: nat)
    requires ls != []
    ensures var doc := if |ls| > 1 && ls[|ls| - 1] == "" then ls else ls + [""];
      var has := exists i :: 0 <= i < |ls| && HasPrefix(ls[i], "  schedulerHints:");
      && (has ==> Inject(mem, ls) == ls)
      && ((forall k: nat, q: nat :: !SpecLines(doc, k, q)) ==> Inject(mem, ls) == ls)
      && (!has && SpecLines(doc, s, p) && (forall k: nat, q: nat :: k < s ==> !SpecLines(doc, k, q)) ==>
            p < |doc| &&
            Inject(mem, ls) == doc[..p] + ["  schedulerHints:", "    memoryAdjustment: " + mem] + doc[p..])
  {
    hide SpecLines, HasPrefix, Inject, SpecBlock, SpecEnd;
    InjectedIs(mem, ls);
    var doc := Terminated(ls);
    if SpecBlock(doc, 0) != -1 {
      SpecHere(doc, SpecBlock(doc, 0));
    }
    if SpecLines(doc, s, p) && (forall k: nat, q: nat :: k < s ==> !SpecLines(doc, k, q)) {
      SpecInRange(doc, s, p);
      SpecBlockIs(doc, 0, s, p);
      SpecEndHere(doc, s, p);
    }
  }

  lemma SpecEndHere(ls: seq<string>, s: nat, p: nat)
    requires SpecLines(ls, s, p)
    ensures s + 1 < p < |ls| && SpecEnd(ls, s + 1) == p
  {
    SpecEndIs(ls, s + 1, p);
  }

  /** Of all documents only the first ProxmoxCluster of the infrastructure group is treated, and none
      where no adjustment is asked for. */
  lemma {:induction false} FirstIsInjected(mem: string, docs: seq<seq<string>>, k: nat)
    requires (forall j :: 0 <= j < |docs| ==> docs[j] != []) && k < |docs|
    ensures InjectFirst(mem, docs)[k] ==
      if mem != "" && InfraCluster(docs[k]) && forall j :: 0 <= j < k ==> !InfraCluster(docs[j])
      then Inject(mem, docs[k]) else docs[k]
  {
    hide IsProxmoxCluster, InfraCluster, Inject;
    InfraIs(docs[0]);
    if mem != "" && k > 0 && !InfraCluster(docs[0]) {
      FirstIsInjected(mem, docs[1..], k - 1);
      assert forall j :: 0 <= j < k - 1 ==> docs[1..][j] == docs[j + 1];
      assert forall j :: 1 <= j < k ==> docs[j] == docs[1..][j - 1];
    }
  }
}
