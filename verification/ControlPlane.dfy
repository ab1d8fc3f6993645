/** Two patches that add lines to a manifest and must be able to meet them again: the kube-proxy
    skip phase and the memory adjustment hint (internal/capi/manifest/patches.go). */
module ControlPlane {
  import opened Text

  const KCP := "KubeadmControlPlane"
  const PROXMOX_CLUSTER := "ProxmoxCluster"
  const INFRA := "infrastructure.cluster.x-k8s.io/"
  const KIND := "kind:"
  const API := "apiVersion:"
  const SPEC := "spec:"
  const INIT := "    " + "initConfiguration:"
  const SKIP := "skipPhases:"
  const PHASE := "addon/kube-proxy"
  const ITEM := "-" + (" " + PHASE)
  const SKIP_LINE := "      " + SKIP
  const PHASE_LINE := "        " + ITEM
  const HINTS := "  schedulerHints:"
  const ADJUSTMENT := "    memoryAdjustment: "

  // ---------------------------------------------------------------- the skip phase

  predicate Phase(s: string, bare: bool) {
    if bare then s == PHASE else TrimRight(Regex, s) == PHASE
  }

  /** `\s+-\s+addon/kube-proxy` from the start of the text: the line it ends on, or -1. The white
      space in front may run over lines, and so may the white space after the dash. `bare` asks for
      nothing behind the item on its line. */
  function ItemEnd(ls: seq<string>, bare: bool): (e: int)
    ensures e == -1 || 0 <= e < |ls|
  {
    var j := NextNonBlank(ls, 0);
    if j == |ls| || (j == 0 && Lead(Regex, ls[0]) == 0) then -1
    else
      var t := TrimLeft(Regex, ls[j]);
      if t == [] || t[0] != '-' then -1
      else if Lead(Regex, t[1..]) > 0 && Phase(TrimLeft(Regex, t[1..]), bare) then j
      else if !Blank(t[1..]) then -1
      else
        var k := NextNonBlank(ls, j + 1);
        if k < |ls| && Phase(TrimLeft(Regex, ls[k]), bare) then k else -1
  }

  /** `^\s+-\s+addon/kube-proxy\s*$` matches somewhere. */
  predicate HasPhase(ls: seq<string>) {
    exists i :: 0 <= i < |ls| && ItemEnd(ls[i..], false) != -1
  }

  /** `^    initConfiguration:\n\s+skipPhases:\n\s+-\s+addon/kube-proxy\n` at the start of the text:
      the line that ends the match, or -1. */
  function BlockAt(ls: seq<string>): (e: int)
    ensures e == -1 || 0 < e < |ls| - 1
  {
    if ls == [] || ls[0] != INIT then -1
    else
      var j := NextNonBlank(ls, 1);
      if j == |ls| || (j == 1 && Lead(Regex, ls[1]) == 0) || TrimLeft(Regex, ls[j]) != SKIP then -1
      else
        var e := ItemEnd(ls[j + 1..], true);
        if e == -1 || e + j + 1 >= |ls| - 1 then -1 else e + j + 1
  }

  lemma BlockStarts(ls: seq<string>)
    requires ls != []
    ensures BlockAt(ls) != -1 ==> ls[0] == INIT
  {}

  /** initRE.ReplaceAllString: the two lines go behind every `initConfiguration:` line that ends in
      a newline. */
  function AddPhase(ls: seq<string>): (r: seq<string>)
    ensures ls != [] ==> r != [] && r[0] == ls[0]
  {
    if ls == [] then []
    else if ls[0] == INIT && |ls| > 1 then WithPhase(AddPhase(ls[1..]))
    else [ls[0]] + AddPhase(ls[1..])
  }

  function WithPhase(rest: seq<string>): (r: seq<string>)
    ensures |r| == |rest| + 3 && r[0] == INIT && r[3..] == rest && r[2..] == [PHASE_LINE] + rest
  {
    [INIT, SKIP_LINE] + ([PHASE_LINE] + rest)
  }

  /** removeRE.ReplaceAllString: of every match only the `initConfiguration:` line stays. */
  function RemovePhase(ls: seq<string>): seq<string>
    decreases |ls|
  {
    if ls == [] then []
    else
      var e := BlockAt(ls);
      if e != -1 then [INIT] + RemovePhase(ls[e + 1..]) else [ls[0]] + RemovePhase(ls[1..])
  }

  predicate IsControlPlane(ls: seq<string>) { HasField(ls, KIND, KCP) }

  /** One document through PatchKubeadmSkipKubeProxyForCilium. */
  function PatchPhase(add: bool, ls: seq<string>): seq<string> {
    if !IsControlPlane(ls) then ls
    else if add then (if HasPhase(ls) then ls else AddPhase(ls))
    else RemovePhase(ls)
  }

  /** Some block of the document would be removed. */
  predicate Removable(ls: seq<string>) {
    exists i :: 0 <= i < |ls| && BlockAt(ls[i..]) != -1
  }

  // ---------------------------------------------------------------- adding and removing

  lemma Indented(a: string, b: string)
    requires AllWhite(Regex, a) && b != [] && !White(Regex, b[0])
    ensures Lead(Regex, a + b) == |a| && TrimLeft(Regex, a + b) == b && !Blank(a + b)
  {
    LeadIs(Regex, a, b);
  }

  lemma SkipLineShape()
    ensures Lead(Regex, SKIP_LINE) == 6 && TrimLeft(Regex, SKIP_LINE) == SKIP && !Blank(SKIP_LINE)
  {
    Indented("      ", SKIP);
  }

  lemma PhaseLineShape()
    ensures Lead(Regex, PHASE_LINE) == 8 && TrimLeft(Regex, PHASE_LINE) == ITEM && !Blank(PHASE_LINE)
  {
    Indented("        ", ITEM);
  }

  lemma ItemShape(bare: bool)
    ensures Lead(Regex, " " + PHASE) > 0 && Phase(TrimLeft(Regex, " " + PHASE), bare)
  {
    Indented(" ", PHASE);
    assert !White(Regex, PHASE[|PHASE| - 1]);
    assert Trail(Regex, PHASE) == |PHASE|;
    assert PHASE[..|PHASE|] == PHASE;
  }

  lemma ItemHere(l: string, rest: seq<string>, bare: bool, t: string, u: string)
    requires !Blank(l) && Lead(Regex, l) > 0 && TrimLeft(Regex, l) == t
    requires t == "-" + u && Lead(Regex, u) > 0 && Phase(TrimLeft(Regex, u), bare)
    ensures ItemEnd([l] + rest, bare) == 0
  {
  }

  /** The inserted item is found again. */
  lemma PhaseFound(rest: seq<string>, bare: bool)
    ensures ItemEnd([PHASE_LINE] + rest, bare) == 0
  {
    PhaseLineShape();
    ItemShape(bare);
    ItemHere(PHASE_LINE, rest, bare, ITEM, " " + PHASE);
  }

  lemma BlockHere(ls: seq<string>)
    requires |ls| > 3 && ls[0] == INIT && !Blank(ls[1]) && Lead(Regex, ls[1]) > 0
    requires TrimLeft(Regex, ls[1]) == SKIP && ItemEnd(ls[2..], true) == 0
    ensures BlockAt(ls) == 2
  {
    assert NextNonBlank(ls, 1) == 1;
  }

  lemma BlockFound(rest: seq<string>)
    requires rest != []
    ensures BlockAt(WithPhase(rest)) == 2
  {
    SkipLineShape();
    assert WithPhase(rest)[1] == SKIP_LINE;
    PhaseFound(rest, true);
    BlockHere(WithPhase(rest));
  }

  lemma {:induction false} RemoveOfAdd(ls: seq<string>)
    ensures RemovePhase(AddPhase(ls)) == ls
  {
    if ls != [] {
      RemoveOfAdd(ls[1..]);
      var out, rest := AddPhase(ls), AddPhase(ls[1..]);
      if ls[0] == INIT && |ls| > 1 {
        BlockFound(rest);
      } else {
        assert out[1..] == rest && BlockAt(out) == -1;
      }
      ConsEqual(ls[0], ls[1..], ls);
    }
  }

  lemma {:induction false} RemoveShortens(ls: seq<string>)
    ensures |RemovePhase(ls)| <= |ls|
    decreases |ls|
  {
    hide BlockAt;
    if ls != [] {
      var e := BlockAt(ls);
      if e != -1 {
        RemoveShortens(ls[e + 1..]);
      } else {
        RemoveShortens(ls[1..]);
      }
    }
  }

  lemma RemoveCuts(ls: seq<string>)
    requires ls != [] && BlockAt(ls) != -1
    ensures RemovePhase(ls) != ls && Removable(ls)
  {
    assert ls[0..] == ls;
    RemoveShortens(ls[BlockAt(ls) + 1..]);
    assert |RemovePhase(ls)| < |ls|;
  }

  lemma RemoveGoesOn(ls: seq<string>)
    requires ls != [] && BlockAt(ls) == -1
    ensures RemovePhase(ls) == ls <==> RemovePhase(ls[1..]) == ls[1..]
  {
    ConsEqual(ls[0], RemovePhase(ls[1..]), ls);
  }

  lemma {:induction false} RemoveIsIdentity(ls: seq<string>)
    ensures RemovePhase(ls) == ls <==> !Removable(ls)
    decreases |ls|
  {
    if ls != [] {
      if BlockAt(ls) != -1 {
        RemoveCuts(ls);
      } else {
        RemoveIsIdentity(ls[1..]);
        RemovableTail(ls);
        RemoveGoesOn(ls);
      }
    }
  }

  lemma ConsEqual(x: string, r: seq<string>, ls: seq<string>)
    requires ls != [] && x == ls[0]
    ensures [x] + r == ls <==> r == ls[1..]
  {
    assert ls == [ls[0]] + ls[1..];
    assert ([x] + r)[1..] == r;
  }

  lemma RemovableTail(ls: seq<string>)
    requires ls != [] && BlockAt(ls) == -1
    ensures Removable(ls) <==> Removable(ls[1..])
  {
    assert ls[0..] == ls;
    forall i | 0 <= i < |ls| - 1
      ensures ls[1..][i..] == ls[i + 1..]
    {
    }
    if Removable(ls) {
      var i :| 0 <= i < |ls| && BlockAt(ls[i..]) != -1;
      assert ls[1..][i - 1..] == ls[i..];
    }
    if Removable(ls[1..]) {
      var i :| 0 <= i < |ls[1..]| && BlockAt(ls[1..][i..]) != -1;
      assert ls[1..][i..] == ls[i + 1..];
    }
  }

  lemma PhaseInTail(ls: seq<string>, n: nat)
    requires n <= |ls| && HasPhase(ls[n..])
    ensures HasPhase(ls)
  {
    var i :| 0 <= i < |ls[n..]| && ItemEnd(ls[n..][i..], false) != -1;
    assert ls[n..][i..] == ls[n + i..];
  }

  lemma WithPhaseHasPhase(rest: seq<string>)
    ensures HasPhase(WithPhase(rest))
  {
    PhaseFound(rest, false);
    HeadPhase([PHASE_LINE] + rest);
    PhaseInTail(WithPhase(rest), 2);
  }

  lemma HeadPhase(ls: seq<string>)
    requires ls != [] && ItemEnd(ls, false) != -1
    ensures HasPhase(ls)
  {
    assert ls[0..] == ls;
  }

  lemma {:induction false} AddedPhaseFound(ls: seq<string>)
    ensures AddPhase(ls) == ls || HasPhase(AddPhase(ls))
  {
    if ls != [] {
      AddedPhaseFound(ls[1..]);
      var rest := AddPhase(ls[1..]);
      if ls[0] == INIT && |ls| > 1 {
        WithPhaseHasPhase(rest);
      } else {
        assert AddPhase(ls)[1..] == rest;
        if HasPhase(rest) {
          PhaseInTail(AddPhase(ls), 1);
        } else {
          ConsEqual(ls[0], rest, ls);
        }
      }
    }
  }

  // A field of the document keeps its value: new lines stand behind a line that is not white.

  lemma InitNotBlank()
    ensures !Blank(INIT) && !HasPrefix(INIT, KIND)
  {
    Indented("    ", "initConfiguration:");
    assert INIT[..|KIND|][0] == ' ';
  }

  lemma {:induction false} NextKept(ls: seq<string>)
    ensures var out := AddPhase(ls);
      var a, b := NextNonBlank(ls, 0), NextNonBlank(out, 0);
      (a == |ls| <==> b == |out|) && (a < |ls| ==> ls[a] == out[b])
  {
    if ls != [] && Blank(ls[0]) {
      InitNotBlank();
      NextKept(ls[1..]);
      NextShift(ls, 1);
      NextShift(AddPhase(ls), 1);
      assert AddPhase(ls)[1..] == AddPhase(ls[1..]);
    }
  }

  lemma {:induction false} NextShift(ls: seq<string>, i: nat)
    requires 1 <= i <= |ls|
    ensures NextNonBlank(ls, i) == NextNonBlank(ls[1..], i - 1) + 1
    decreases |ls| - i
  {
    if i < |ls| && Blank(ls[i]) {
      NextShift(ls, i + 1);
    }
  }

  lemma ShiftField(ls: seq<string>, i: nat, key: string)
    requires 1 <= i < |ls| && HasPrefix(ls[i], key)
    ensures ls[1..][i - 1] == ls[i] && FieldValue(ls[1..], i - 1, key) == FieldValue(ls, i, key)
  {
    hide FieldValue;
    NextShift(ls, i + 1);
    FieldSame(ls[1..], i - 1, ls, i, key);
  }

  lemma FieldInTail(ls: seq<string>, key: string, value: string)
    requires ls != [] && HasField(ls[1..], key, value)
    ensures HasField(ls, key, value)
  {
    hide HasPrefix, FieldValue;
    var i :| 0 <= i < |ls[1..]| && HasPrefix(ls[1..][i], key) && FieldValue(ls[1..], i, key) == value;
    ShiftField(ls, i + 1, key);
  }

  lemma FieldsIn(ls: seq<string>, n: nat, key: string, value: string)
    requires n <= |ls| && HasField(ls[n..], key, value)
    ensures HasField(ls, key, value)
    decreases n
  {
    if n == 0 {
      assert ls[0..] == ls;
    } else {
      assert ls[n - 1..][1..] == ls[n..];
      FieldInTail(ls[n - 1..], key, value);
      FieldsIn(ls, n - 1, key, value);
    }
  }

  lemma AddPhaseTail(ls: seq<string>)
    requires ls != [] && ls[0] != INIT
    ensures AddPhase(ls)[0] == ls[0] && AddPhase(ls)[1..] == AddPhase(ls[1..])
  {
  }

  lemma HeadFieldKept(ls: seq<string>, key: string)
    requires ls != [] && ls[0] != INIT && HasPrefix(ls[0], key)
    ensures FieldValue(AddPhase(ls), 0, key) == FieldValue(ls, 0, key)
  {
    hide FieldValue, Blank, AddPhase;
    var out := AddPhase(ls);
    AddPhaseTail(ls);
    NextShift(ls, 1);
    NextShift(out, 1);
    NextKept(ls[1..]);
    FieldSame(out, 0, ls, 0, key);
  }

  lemma TailAdded(ls: seq<string>, value: string)
    requires ls != [] && HasField(AddPhase(ls[1..]), KIND, value)
    ensures HasField(AddPhase(ls), KIND, value)
  {
    var n := if ls[0] == INIT && |ls| > 1 then 3 else 1;
    assert AddPhase(ls)[n..] == AddPhase(ls[1..]);
    FieldsIn(AddPhase(ls), n, KIND, value);
  }

  lemma HeadAdded(ls: seq<string>, value: string)
    requires ls != [] && HasPrefix(ls[0], KIND) && FieldValue(ls, 0, KIND) == value
    ensures HasField(AddPhase(ls), KIND, value)
  {
    InitNotBlank();
    HeadFieldKept(ls, KIND);
    assert AddPhase(ls)[0] == ls[0];
  }

  lemma {:induction false} KindKept(ls: seq<string>, i: nat, value: string)
    requires i < |ls| && HasPrefix(ls[i], KIND) && FieldValue(ls, i, KIND) == value
    ensures HasField(AddPhase(ls), KIND, value)
  {
    if i == 0 {
      HeadAdded(ls, value);
    } else {
      ShiftField(ls, i, KIND);
      KindKept(ls[1..], i - 1, value);
      TailAdded(ls, value);
    }
  }

  /** On a control-plane document, removing the phase undoes adding it exactly when the document did
      not carry the phase before, or carried it in a place the removal does not reach. */
  lemma RemoveUndoesAdd(ls: seq<string>)
    requires IsControlPlane(ls)
    ensures PatchPhase(false, PatchPhase(true, ls)) == ls <==> !HasPhase(ls) || !Removable(ls)
  {
    var i :| 0 <= i < |ls| && HasPrefix(ls[i], KIND) && FieldValue(ls, i, KIND) == KCP;
    KindKept(ls, i, KCP);
    RemoveOfAdd(ls);
    RemoveIsIdentity(ls);
  }

  /** A control plane that carries the phase already. */
  const CARRIED: seq<string> := [KIND + " " + KCP, INIT, SKIP_LINE, PHASE_LINE, []]

  /** Adding the phase leaves it alone, and removing it takes the phase that was there before. */
  lemma RemovalTakesMore()
    ensures IsControlPlane(CARRIED) && PatchPhase(true, CARRIED) == CARRIED && PatchPhase(false, CARRIED) != CARRIED
  {
    hide FieldValue, ItemEnd, BlockAt, WithPhase, RemovePhase, AddPhase;
    var rest := [[]];
    assert CARRIED[1..] == WithPhase(rest) by {
      assert WithPhase(rest)[3..] == rest;
      CarriedTail();
    }
    KeyedField(CARRIED, 0, KIND, KCP);
    BlockFound(rest);
    WithPhaseHasPhase(rest);
    PhaseInTail(CARRIED, 1);
    RemoveUndoesAdd(CARRIED);
  }

  lemma CarriedTail()
    ensures CARRIED[1..] == WithPhase([[]])
  {
    ThreeLines(INIT, SKIP_LINE, PHASE_LINE, [[]]);
  }

  /** Adding the phase is idempotent, on every document. */
  lemma AddTwice(ls: seq<string>)
    ensures PatchPhase(true, PatchPhase(true, ls)) == PatchPhase(true, ls)
  {
    AddedPhaseFound(ls);
  }

  function PatchPhases(add: bool, docs: seq<seq<string>>): (r: seq<seq<string>>)
    ensures |r| == |docs|
  {
    Each(doc => PatchPhase(add, doc), docs)
  }

  lemma PatchPhasesAt(add: bool, docs: seq<seq<string>>, k: nat)
    requires k < |docs|
    ensures PatchPhases(add, docs)[k] == PatchPhase(add, docs[k])
  {
    hide PatchPhase;
  }

  // The patched text splits into the patched documents again.

  /** No separator, except perhaps for the last line. */
  ghost predicate Unbroken(ls: seq<string>) {
    forall i :: 0 <= i < |ls| - 1 ==> ls[i] != SEPARATOR
  }

  lemma NewLinesBreakNothing()
    ensures INIT != SEPARATOR && SKIP_LINE != SEPARATOR && PHASE_LINE != SEPARATOR
  {}

  lemma Glued(head: seq<string>, tail: seq<string>)
    requires tail != [] && Unbroken(tail) && forall i :: 0 <= i < |head| ==> head[i] != SEPARATOR
    ensures var out := head + tail; Unbroken(out) && out[|out| - 1] == tail[|tail| - 1]
  {}

  lemma UnbrokenTail(ls: seq<string>, n: nat)
    requires 0 < n <= |ls| && Interior(ls)
    ensures Unbroken(ls[n..])
  {
    var tail := ls[n..];
    assert forall i :: 0 <= i < |tail| ==> tail[i] == ls[i + n];
  }

  function AddHead(l: string): seq<string> {
    if l == INIT then [INIT, SKIP_LINE, PHASE_LINE] else [l]
  }

  lemma AddHeadForm(l: string)
    ensures var h := AddHead(l); h != [] && h[0] == l && forall i :: 1 <= i < |h| ==> h[i] != SEPARATOR
  {
    NewLinesBreakNothing();
  }

  lemma AddStep(ls: seq<string>)
    requires |ls| > 1
    ensures AddPhase(ls) == AddHead(ls[0]) + AddPhase(ls[1..])
  {
    var rest := AddPhase(ls[1..]);
    hide AddPhase;
    ThreeLines(INIT, SKIP_LINE, PHASE_LINE, rest);
    AddUnfolds(ls);
  }

  lemma AddUnfolds(ls: seq<string>)
    requires |ls| > 1
    ensures var rest := AddPhase(ls[1..]);
      AddPhase(ls) == if ls[0] == INIT then WithPhase(rest) else [ls[0]] + rest
  {
    hide WithPhase;
  }

  lemma ThreeLines(a: string, b: string, c: string, rest: seq<string>)
    ensures [a, b] + ([c] + rest) == [a, b, c] + rest
  {}

  function CutTo(ls: seq<string>): (n: nat)
    requires |ls| > 1
    ensures 0 < n < |ls|
  {
    if BlockAt(ls) != -1 then BlockAt(ls) + 1 else 1
  }

  lemma RemoveStep(ls: seq<string>)
    requires |ls| > 1
    ensures RemovePhase(ls) == [ls[0]] + RemovePhase(ls[CutTo(ls)..])
  {
    if BlockAt(ls) != -1 {
      assert ls[0] == INIT;
    }
  }

  lemma AloneStays(ls: seq<string>)
    requires |ls| == 1
    ensures AddPhase(ls) == ls && RemovePhase(ls) == ls
  {
    hide BlockAt, WithPhase;
    assert ls == [ls[0]] + [];
    assert ls[1..] == [] && AddPhase([]) == [];
    OneIsNoBlock(ls);
    assert RemovePhase([]) == [];
  }

  lemma OneIsNoBlock(ls: seq<string>)
    requires |ls| == 1
    ensures BlockAt(ls) == -1
  {
    hide BlockAt;
  }

  lemma {:induction false} AddUnbroken(ls: seq<string>)
    requires ls != [] && Unbroken(ls)
    ensures var out := AddPhase(ls); out != [] && Unbroken(out) && out[|out| - 1] == ls[|ls| - 1]
  {
    hide AddPhase, AddHead;
    if |ls| > 1 {
      UnbrokenTail(ls, 1);
      AddUnbroken(ls[1..]);
      AddStep(ls);
      AddHeadForm(ls[0]);
      Glued(AddHead(ls[0]), AddPhase(ls[1..]));
    } else {
      AloneStays(ls);
    }
  }

  lemma {:induction false} RemoveUnbroken(ls: seq<string>)
    requires ls != [] && Unbroken(ls)
    ensures var out := RemovePhase(ls); out != [] && Unbroken(out) && out[|out| - 1] == ls[|ls| - 1]
    decreases |ls|
  {
    hide RemovePhase, CutTo;
    if |ls| > 1 {
      var n := CutTo(ls);
      UnbrokenTail(ls, n);
      RemoveUnbroken(ls[n..]);
      RemoveStep(ls);
      Glued([ls[0]], RemovePhase(ls[n..]));
    } else {
      AloneStays(ls);
    }
  }

  lemma FormOfTail(ls: seq<string>, head: seq<string>, tail: seq<string>)
    requires |ls| > 1 && head != [] && tail != [] && head[0] == ls[0] && tail[|tail| - 1] == ls[|ls| - 1]
    requires Unbroken(tail) && forall i :: 1 <= i < |head| ==> head[i] != SEPARATOR
    ensures Separable(ls) ==> Separable(head + tail)
    ensures Interior(head + tail)
  {}

  lemma AddForm(ls: seq<string>)
    requires |ls| > 1 && Interior(ls)
    ensures var out := AddPhase(ls); out != [] && (Separable(ls) ==> Separable(out)) && Interior(out)
  {
    hide AddPhase, AddHead, Separable, Interior, Unbroken;
    UnbrokenTail(ls, 1);
    AddUnbroken(ls[1..]);
    AddStep(ls);
    AddHeadForm(ls[0]);
    FormOfTail(ls, AddHead(ls[0]), AddPhase(ls[1..]));
  }

  lemma RemoveForm(ls: seq<string>)
    requires |ls| > 1 && Interior(ls)
    ensures var out := RemovePhase(ls); out != [] && (Separable(ls) ==> Separable(out)) && Interior(out)
  {
    hide RemovePhase, CutTo, Separable, Interior, Unbroken;
    var n := CutTo(ls);
    UnbrokenTail(ls, n);
    RemoveUnbroken(ls[n..]);
    RemoveStep(ls);
    FormOfTail(ls, [ls[0]], RemovePhase(ls[n..]));
  }

  lemma PhaseForm(add: bool, ls: seq<string>)
    requires ls != [] && Interior(ls)
    ensures var out := PatchPhase(add, ls); out != [] && (Separable(ls) ==> Separable(out)) && Interior(out)
  {
    hide IsControlPlane, HasPhase, AddPhase, RemovePhase, Separable, Interior;
    if |ls| > 1 {
      AddForm(ls);
      RemoveForm(ls);
    } else {
      AloneStays(ls);
    }
  }

  lemma PhasesForm(add: bool, docs: seq<seq<string>>)
    requires SplitForm(docs)
    ensures SplitForm(PatchPhases(add, docs))
  {
    hide PatchPhase;
    var out := PatchPhases(add, docs);
    forall k | 0 <= k < |docs|
      ensures out[k] != [] && (Separable(docs[k]) ==> Separable(out[k])) && Interior(out[k])
    {
      PatchPhasesAt(add, docs, k);
      assert docs[k] != [] && Interior(docs[k]);
      PhaseForm(add, docs[k]);
    }
  }

  /** PatchKubeadmSkipKubeProxyForCilium on a text. */
  function PatchPhaseText(add: bool, text: seq<string>): (r: seq<string>)
    requires text != []
  {
    JoinDocs(PatchPhases(add, SplitDocs(text)))
  }

  lemma PatchedText(add: bool, text: seq<string>)
    requires text != []
    ensures PatchPhaseText(add, text) != []
    ensures SplitDocs(PatchPhaseText(add, text)) == PatchPhases(add, SplitDocs(text))
  {
    SplitYieldsForm(text);
    PhasesForm(add, SplitDocs(text));
    SplitOfJoin(PatchPhases(add, SplitDocs(text)));
  }

  /** Adding the phase to a text is idempotent: the second run changes no byte. */
  lemma AddTextTwice(text: seq<string>)
    requires text != []
    ensures PatchPhaseText(true, text) != []
    ensures PatchPhaseText(true, PatchPhaseText(true, text)) == PatchPhaseText(true, text)
  {
    hide PatchPhase;
    var docs := SplitDocs(text);
    var out := PatchPhases(true, docs);
    PatchedText(true, text);
    forall k | 0 <= k < |docs| ensures PatchPhases(true, out)[k] == out[k] {
      PatchPhasesAt(true, out, k);
      PatchPhasesAt(true, docs, k);
      AddTwice(docs[k]);
    }
    assert PatchPhases(true, out) == out;
  }

  /** Removing the phase from a text undoes adding it exactly when every control-plane document
      lacked the phase, or carried it where the removal does not reach. */
  lemma RemoveTextUndoesAdd(text: seq<string>)
    requires text != []
    ensures PatchPhaseText(true, text) != []
    ensures PatchPhaseText(false, PatchPhaseText(true, text)) == text
      <==> forall k :: 0 <= k < |SplitDocs(text)| ==> Undone(SplitDocs(text)[k])
  {
    hide PatchPhase, Undone;
    var docs := SplitDocs(text);
    var out := PatchPhases(true, docs);
    var back := PatchPhases(false, out);
    PatchedText(true, text);
    PatchedText(false, PatchPhaseText(true, text));
    JoinOfSplit(text);
    forall k | 0 <= k < |docs| ensures back[k] == docs[k] <==> Undone(docs[k]) {
      PatchPhasesAt(true, docs, k);
      PatchPhasesAt(false, out, k);
      UndoneIff(docs[k]);
    }
    if forall k :: 0 <= k < |docs| ==> Undone(docs[k]) {
      assert back == docs;
    }
  }

  ghost predicate Undone(ls: seq<string>) { IsControlPlane(ls) ==> !HasPhase(ls) || !Removable(ls) }

  lemma UndoneIff(ls: seq<string>)
    ensures PatchPhase(false, PatchPhase(true, ls)) == ls <==> Undone(ls)
  {
    if IsControlPlane(ls) {
      RemoveUndoesAdd(ls);
    }
  }

  /** PatchKubeadmSkipKubeProxyForCilium: every control-plane document, in place. */
  method PatchSkipPhases(add: bool, text: seq<string>) returns (out: seq<string>)
    requires text != []
    ensures out == PatchPhaseText(add, text)
  {
    hide PatchPhase, PatchPhases;
    var docs := SplitDocs(text);
    ghost var input, want := docs, PatchPhases(add, docs);
    var i := 0;
    while i < |docs|
      invariant 0 <= i <= |docs| == |input| == |want|
      invariant forall k :: 0 <= k < i ==> docs[k] == want[k]
      invariant forall k :: i <= k < |docs| ==> docs[k] == input[k]
    {
      PatchPhasesAt(add, input, i);
      docs := docs[i := PatchPhase(add, docs[i])];
      i := i + 1;
    }
    assert docs == want;
    out := JoinDocs(docs);
  }

  // ---------------------------------------------------------------- the memory adjustment

  predicate IsProxmoxCluster(ls: seq<string>) {
    HasField(ls, KIND, PROXMOX_CLUSTER) && HasFieldPrefix(ls, API, INFRA)
  }

  predicate HasHints(ls: seq<string>) {
    exists i :: 0 <= i < |ls| && HasPrefix(ls[i], HINTS)
  }

  /** The text with a final newline. */
  function Terminated(ls: seq<string>): (r: seq<string>)
    requires ls != []
    ensures |r| >= 2
  {
    if |ls| > 1 && ls[|ls| - 1] == [] then ls else ls + [[]]
  }

  /** The first match of `^(spec:\n(?:  .*\n)+)`: the line it starts on, or -1. */
  function SpecBlock(ls: seq<string>, i: nat): (s: int)
    requires i <= |ls|
    ensures s == -1 || i <= s < |ls| - 2
    ensures s != -1 ==> ls[s] == SPEC && HasPrefix(ls[s + 1], "  ")
    decreases |ls| - i
  {
    if i + 2 >= |ls| then -1
    else if ls[i] == SPEC && HasPrefix(ls[i + 1], "  ") then i
    else SpecBlock(ls, i + 1)
  }

  /** The line behind the indented lines from `i` on; the last line of the text is not one of them,
      as it has no newline. */
  function SpecEnd(ls: seq<string>, i: nat): (e: nat)
    requires i < |ls|
    ensures i <= e < |ls|
    ensures forall k :: i <= k < e ==> HasPrefix(ls[k], "  ")
    ensures e < |ls| - 1 ==> !HasPrefix(ls[e], "  ")
    decreases |ls| - i
  {
    if i == |ls| - 1 || !HasPrefix(ls[i], "  ") then i else SpecEnd(ls, i + 1)
  }

  function HintLines(mem: string): seq<string> { [HINTS, ADJUSTMENT + mem] }

  /** What happens to the first ProxmoxCluster document. */
  function Inject(mem: string, ls: seq<string>): seq<string>
    requires ls != []
  {
    var doc := Terminated(ls);
    var s := SpecBlock(doc, 0);
    if HasHints(ls) || s == -1 then ls else InsertAll(doc, SpecEnd(doc, s + 1), HintLines(mem))
  }

  /** injectMemoryAdjustment: the first ProxmoxCluster document, and no other. */
  function InjectFirst(mem: string, docs: seq<seq<string>>): (r: seq<seq<string>>)
    requires forall k :: 0 <= k < |docs| ==> docs[k] != []
    ensures |r| == |docs|
  {
    if mem == [] || docs == [] then docs
    else if IsProxmoxCluster(docs[0]) then [Inject(mem, docs[0])] + docs[1..]
    else [docs[0]] + InjectFirst(mem, docs[1..])
  }

  method InjectMemoryAdjustment(mem: string, text: seq<string>) returns (out: seq<string>)
    requires text != []
    ensures out == InjectText(mem, text)
  {
    hide Inject, IsProxmoxCluster, SplitDocs, JoinDocs;
    if mem == [] {
      JoinOfSplit(text);
      return text;
    }
    var parts := SplitDocs(text);
    ghost var input := parts;
    var i := 0;
    InjectNone(mem, input);
    hide InjectFirst;
    while i < |parts|
      invariant 0 <= i <= |parts| && parts == input
      invariant InjectFirst(mem, input) == input[..i] + InjectFirst(mem, input[i..])
      invariant i == |parts| ==> InjectFirst(mem, input) == parts
    {
      InjectNext(mem, input, i);
      if IsProxmoxCluster(parts[i]) {
        parts := parts[i := Inject(mem, parts[i])];
        break;
      }
      i := i + 1;
    }
    out := JoinDocs(parts);
  }

  lemma InjectNone(mem: string, docs: seq<seq<string>>)
    requires forall k :: 0 <= k < |docs| ==> docs[k] != []
    ensures InjectFirst(mem, docs) == docs[..0] + InjectFirst(mem, docs[0..])
    ensures docs == [] ==> InjectFirst(mem, docs) == docs
  {
    hide Inject, IsProxmoxCluster;
    assert docs[0..] == docs;
  }

  /** One more document is looked at. */
  lemma InjectNext(mem: string, docs: seq<seq<string>>, i: nat)
    requires mem != [] && i < |docs| && forall k :: 0 <= k < |docs| ==> docs[k] != []
    requires InjectFirst(mem, docs) == docs[..i] + InjectFirst(mem, docs[i..])
    ensures IsProxmoxCluster(docs[i]) ==> InjectFirst(mem, docs) == docs[i := Inject(mem, docs[i])]
    ensures !IsProxmoxCluster(docs[i]) ==>
              && InjectFirst(mem, docs) == docs[..i + 1] + InjectFirst(mem, docs[i + 1..])
              && (i + 1 == |docs| ==> InjectFirst(mem, docs) == docs)
  {
    hide InjectFirst, Inject, IsProxmoxCluster;
    InjectHead(mem, docs, i);
    if IsProxmoxCluster(docs[i]) {
      PutAt(docs, i, Inject(mem, docs[i]));
    } else {
      OneFurther(docs, i, InjectFirst(mem, docs[i + 1..]));
    }
  }

  lemma InjectHead(mem: string, docs: seq<seq<string>>, i: nat)
    requires mem != [] && i < |docs| && forall k :: 0 <= k < |docs| ==> docs[k] != []
    ensures InjectFirst(mem, docs[i..]) ==
      if IsProxmoxCluster(docs[i]) then [Inject(mem, docs[i])] + docs[i + 1..]
      else [docs[i]] + InjectFirst(mem, docs[i + 1..])
  {
    hide Inject, IsProxmoxCluster;
    assert docs[i..][1..] == docs[i + 1..];
  }

  lemma PutAt<T>(s: seq<T>, i: nat, x: T)
    requires i < |s|
    ensures s[..i] + ([x] + s[i + 1..]) == s[i := x]
  {
  }

  lemma OneFurther<T>(s: seq<T>, i: nat, r: seq<T>)
    requires i < |s|
    ensures s[..i] + ([s[i]] + r) == s[..i + 1] + r
    ensures i + 1 == |s| && r == [] ==> s[..i + 1] + r == s
  {
    assert s[..i] + [s[i]] == s[..i + 1];
  }

  // The insertion stands behind a line of the spec block, so no field of the document changes.

  lemma HintFound(mem: string, doc: seq<string>, p: nat)
    requires p <= |doc|
    ensures HasHints(InsertAll(doc, p, HintLines(mem)))
  {
    InsertAllAt(doc, p, HintLines(mem));
    assert InsertAll(doc, p, HintLines(mem))[p] == HintLines(mem)[0];
  }

  /** Every field line of a document is above the header of the spec block or behind the block. */
  lemma FieldOutside(doc: seq<string>, s: nat, p: nat, i: nat, key: string)
    requires s < |doc| && s + 1 <= p <= |doc| && i < |doc| && HasPrefix(doc[i], key)
    requires doc[s] == SPEC && (key == KIND || key == API)
    requires forall k :: s + 1 <= k < p ==> HasPrefix(doc[k], "  ")
    ensures i < s || p <= i
  {
    assert key[0] == 'k' || key[0] == 'a';
    assert SPEC[0] == 's';
    PrefixChar(doc[i], key, 0);
    PrefixChar(doc[i], "  ", 0);
  }

  lemma SpecNotBlank()
    ensures !Blank(SPEC)
  {
    assert Lead(Regex, SPEC) == 0;
  }

  lemma FieldSurvives(doc: seq<string>, s: nat, p: nat, f: seq<string>, i: nat, key: string) returns (j: nat)
    requires s < |doc| && s + 1 <= p <= |doc| && i < |doc| && HasPrefix(doc[i], key)
    requires doc[s] == SPEC && (key == KIND || key == API)
    requires forall k :: s + 1 <= k < p ==> HasPrefix(doc[k], "  ")
    ensures var out := InsertAll(doc, p, f);
      j < |out| && HasPrefix(out[j], key) && FieldValue(out, j, key) == FieldValue(doc, i, key)
  {
    hide FieldValue, InsertAll;
    FieldOutside(doc, s, p, i, key);
    SpecNotBlank();
    if i < s {
      FieldAbove(doc, p, f, i, key, s);
      j := i;
    } else {
      FieldBelow(doc, p, f, i, key);
      j := i + |f|;
    }
  }

  lemma ClusterSurvives(doc: seq<string>, s: nat, p: nat, f: seq<string>)
    requires IsProxmoxCluster(doc) && s < |doc| && s + 1 <= p <= |doc| && doc[s] == SPEC
    requires forall k :: s + 1 <= k < p ==> HasPrefix(doc[k], "  ")
    ensures IsProxmoxCluster(InsertAll(doc, p, f))
  {
    var i :| 0 <= i < |doc| && HasPrefix(doc[i], KIND) && FieldValue(doc, i, KIND) == PROXMOX_CLUSTER;
    var i' := FieldSurvives(doc, s, p, f, i, KIND);
    var j :| 0 <= j < |doc| && HasPrefix(doc[j], API) && HasPrefix(FieldValue(doc, j, API), INFRA);
    var j' := FieldSurvives(doc, s, p, f, j, API);
  }

  /** A document that got its hints is still the ProxmoxCluster document, and has its hints. */
  lemma InjectedStays(mem: string, ls: seq<string>)
    requires ls != [] && IsProxmoxCluster(ls)
    ensures var out := Inject(mem, ls);
      out != [] && IsProxmoxCluster(out) && (out == ls || HasHints(out))
  {
    hide IsProxmoxCluster, HasHints;
    var doc := Terminated(ls);
    var s := SpecBlock(doc, 0);
    if !HasHints(ls) && s != -1 {
      TerminatedKeepsKind(ls);
      ClusterSurvives(doc, s, SpecEnd(doc, s + 1), HintLines(mem));
      HintFound(mem, doc, SpecEnd(doc, s + 1));
    }
  }

  lemma {:induction false} NextTerminated(ls: seq<string>, i: nat)
    requires i <= |ls|
    ensures var n := NextNonBlank(ls + [[]], i);
      if NextNonBlank(ls, i) == |ls| then n == |ls| + 1 else n == NextNonBlank(ls, i)
    decreases |ls| - i
  {
    if i < |ls| {
      if Blank(ls[i]) {
        NextTerminated(ls, i + 1);
      }
    } else {
      assert Lead(Regex, []) == 0;
    }
  }

  lemma TerminatedField(ls: seq<string>, i: nat, key: string)
    requires i < |ls| && HasPrefix(ls[i], key)
    ensures FieldValue(ls + [[]], i, key) == FieldValue(ls, i, key)
  {
    hide FieldValue;
    NextTerminated(ls, i + 1);
    FieldSame(ls + [[]], i, ls, i, key);
  }

  lemma TerminatedKeepsKind(ls: seq<string>)
    requires ls != [] && IsProxmoxCluster(ls)
    ensures IsProxmoxCluster(Terminated(ls))
  {
    hide FieldValue;
    var out := ls + [[]];
    var i :| 0 <= i < |ls| && HasPrefix(ls[i], KIND) && FieldValue(ls, i, KIND) == PROXMOX_CLUSTER;
    TerminatedField(ls, i, KIND);
    assert out[i] == ls[i];
    var j :| 0 <= j < |ls| && HasPrefix(ls[j], API) && HasPrefix(FieldValue(ls, j, API), INFRA);
    TerminatedField(ls, j, API);
    assert out[j] == ls[j];
  }

  ghost predicate NonEmpty(docs: seq<seq<string>>) { forall k :: 0 <= k < |docs| ==> docs[k] != [] }

  // The injection, repeated. An inserted final newline can turn a last line `---` into a separator;
  // the document in front of it then has the hints.

  /** injectMemoryAdjustment on a text. */
  function InjectText(mem: string, text: seq<string>): seq<string>
    requires text != []
  {
    JoinDocs(InjectFirst(mem, SplitDocs(text)))
  }

  /** The first ProxmoxCluster document, or |docs|. */
  lemma {:induction false} FindProxmox(docs: seq<seq<string>>) returns (k: nat)
    ensures k <= |docs| && (k < |docs| ==> IsProxmoxCluster(docs[k]))
    ensures forall j :: 0 <= j < k ==> !IsProxmoxCluster(docs[j])
  {
    hide IsProxmoxCluster;
    if docs == [] || IsProxmoxCluster(docs[0]) {
      k := 0;
    } else {
      k := FindProxmox(docs[1..]);
      assert forall j :: 0 <= j < |docs[1..]| ==> docs[1..][j] == docs[j + 1];
      k := k + 1;
    }
  }

  lemma {:induction false} InjectIs(mem: string, docs: seq<seq<string>>, k: nat)
    requires NonEmpty(docs) && mem != [] && k <= |docs|
    requires (k < |docs| ==> IsProxmoxCluster(docs[k])) && forall j :: 0 <= j < k ==> !IsProxmoxCluster(docs[j])
    ensures InjectFirst(mem, docs) == if k == |docs| then docs else docs[k := Inject(mem, docs[k])]
  {
    hide IsProxmoxCluster, Inject;
    if docs != [] {
      assert docs == [docs[0]] + docs[1..];
      if k > 0 {
        assert forall j :: 0 <= j < |docs[1..]| ==> docs[1..][j] == docs[j + 1];
        InjectIs(mem, docs[1..], k - 1);
      }
    }
  }

  lemma {:induction false} NextAbove(ls: seq<string>, i: nat)
    requires i < |ls|
    ensures var n := |ls| - 1; var j := NextNonBlank(ls[..n], i);
      NextNonBlank(ls, i) >= n || (NextNonBlank(ls, i) == j && j < n)
    decreases |ls| - i
  {
    if i < |ls| - 1 && Blank(ls[i]) {
      NextAbove(ls, i + 1);
    }
  }

  /** A field does not take its value from a last line `---`. */
  lemma FieldAboveMarker(ls: seq<string>, i: nat, key: string)
    requires i < |ls| && ls[|ls| - 1] == SEPARATOR && HasPrefix(ls[i], key) && !HasPrefix(SEPARATOR, key)
    requires FieldValue(ls, i, key) != SEPARATOR && FieldValue(ls, i, key) != []
    ensures i < |ls| - 1 && FieldValue(ls[..|ls| - 1], i, key) == FieldValue(ls, i, key)
  {
    hide FieldValue, NextNonBlank, Blank, Trim;
    var n := |ls| - 1;
    MarkerTrims();
    if Blank(ls[i][|key|..]) {
      ValueBelow(ls, i, key);
      ValueBelow(ls[..n], i, key);
      if i + 1 <= n {
        NextAbove(ls, i + 1);
      }
    } else {
      ValueHere(ls, i, ls[..n], i, key);
    }
  }

  lemma MarkerTrims()
    ensures Trim(Regex, SEPARATOR) == SEPARATOR
  {
    TrimPadded(Regex, "", SEPARATOR, "");
    assert "" + SEPARATOR + "" == SEPARATOR;
  }

  lemma ValueBelow(ls: seq<string>, i: nat, key: string)
    requires i < |ls| && HasPrefix(ls[i], key) && Blank(ls[i][|key|..])
    ensures var j := NextNonBlank(ls, i + 1); FieldValue(ls, i, key) == if j < |ls| then Trim(Regex, ls[j]) else []
  {}

  lemma ValueHere(a: seq<string>, i: nat, b: seq<string>, j: nat, key: string)
    requires i < |a| && j < |b| && a[i] == b[j] && HasPrefix(a[i], key) && !Blank(a[i][|key|..])
    ensures FieldValue(a, i, key) == FieldValue(b, j, key)
  {}

  lemma ClusterAboveMarker(ls: seq<string>)
    requires ls != [] && ls[|ls| - 1] == SEPARATOR && IsProxmoxCluster(ls)
    ensures IsProxmoxCluster(ls[..|ls| - 1])
  {
    hide FieldValue;
    var n := |ls| - 1;
    PrefixChar(SEPARATOR, KIND, 0);
    PrefixChar(SEPARATOR, API, 0);
    PrefixChar(SEPARATOR, INFRA, 0);
    var i :| 0 <= i < |ls| && HasPrefix(ls[i], KIND) && FieldValue(ls, i, KIND) == PROXMOX_CLUSTER;
    FieldAboveMarker(ls, i, KIND);
    assert ls[..n][i] == ls[i];
    var j :| 0 <= j < |ls| && HasPrefix(ls[j], API) && HasPrefix(FieldValue(ls, j, API), INFRA);
    FieldAboveMarker(ls, j, API);
    assert ls[..n][j] == ls[j];
  }

  /** What the injection makes of a document that ends in `---`: two documents. */
  lemma InjectAboveMarker(mem: string, ls: seq<string>) returns (above: seq<string>)
    requires |ls| > 1 && ls[|ls| - 1] == SEPARATOR && Interior(ls) && IsProxmoxCluster(ls)
    requires Inject(mem, ls) != ls
    ensures Separable(above) && IsProxmoxCluster(above) && HasHints(above)
    ensures Inject(mem, ls) == above + [SEPARATOR] + [[]]
  {
    hide IsProxmoxCluster, HasHints, HintLines, SpecBlock, SpecEnd, InsertAll, Separable, Inject;
    var head := ls[..|ls| - 1];
    var doc := head + [SEPARATOR, []];
    assert ls == head + [SEPARATOR];
    InjectInto(mem, head);
    var s := SpecBlock(doc, 0);
    var p := SpecEnd(doc, s + 1);
    SpecAboveMarker(head);
    above := InsertAll(head, p, HintLines(mem));
    ClusterAboveMarker(ls);
    ClusterSurvives(head, s, p, HintLines(mem));
    HintFound(mem, head, p);
    InsertBefore(head, [SEPARATOR, []], p, HintLines(mem));
    HintsApart(mem, head, p);
  }

  lemma SpecAboveMarker(head: seq<string>)
    ensures var doc := head + [SEPARATOR, []];
      var s := SpecBlock(doc, 0);
      s != -1 ==>
        var p := SpecEnd(doc, s + 1);
        s < |head| && p <= |head| && head[s] == SPEC && forall k :: s + 1 <= k < p ==> HasPrefix(head[k], "  ")
  {
    var doc := head + [SEPARATOR, []];
    MarkerNotIndented();
    assert doc[|head|] == SEPARATOR && SPEC != SEPARATOR;
    var s := SpecBlock(doc, 0);
    if s != -1 {
      var p := SpecEnd(doc, s + 1);
      forall k | s + 1 <= k < p && k < |head| ensures HasPrefix(head[k], "  ") {
        assert doc[k] == head[k];
      }
    }
  }

  lemma InjectInto(mem: string, head: seq<string>)
    ensures var ls, doc := head + [SEPARATOR], head + [SEPARATOR, []];
      var s := SpecBlock(doc, 0);
      Inject(mem, ls) == if HasHints(ls) || s == -1 then ls else InsertAll(doc, SpecEnd(doc, s + 1), HintLines(mem))
  {
    hide HasHints, SpecBlock, SpecEnd, InsertAll, HintLines;
    assert Terminated(head + [SEPARATOR]) == head + [SEPARATOR, []];
  }

  lemma HintsApart(mem: string, head: seq<string>, p: nat)
    requires 0 < p <= |head| && forall i :: 1 <= i < |head| ==> head[i] != SEPARATOR
    ensures Separable(InsertAll(head, p, HintLines(mem)))
  {
    InsertAllAt(head, p, HintLines(mem));
    HintsAreNoMarkers(mem);
  }

  lemma MarkerNotIndented()
    ensures !HasPrefix(SEPARATOR, "  ")
  {
    PrefixChar(SEPARATOR, "  ", 0);
  }

  lemma HintsAreNoMarkers(mem: string)
    ensures forall i :: 0 <= i < 2 ==> HintLines(mem)[i] != SEPARATOR
  {
    assert SEPARATOR[0] == '-' && HINTS[0] == ' ' && (ADJUSTMENT + mem)[0] == ' ';
  }

  lemma InjectSeparable(mem: string, ls: seq<string>)
    requires Separable(ls)
    ensures Separable(Inject(mem, ls))
  {
    hide HasHints;
    var doc := Terminated(ls);
    var s := SpecBlock(doc, 0);
    if Inject(mem, ls) != ls {
      HintsAreNoMarkers(mem);
      InsertAllAt(doc, SpecEnd(doc, s + 1), HintLines(mem));
    }
  }

  lemma InjectStaysText(mem: string, docs: seq<seq<string>>, k: nat)
    requires SplitForm(docs) && NonEmpty(docs) && mem != [] && k < |docs| && IsProxmoxCluster(docs[k])
    requires HasHints(docs[k]) && forall j :: 0 <= j < k ==> !IsProxmoxCluster(docs[j])
    ensures JoinDocs(docs) != [] && InjectText(mem, JoinDocs(docs)) == JoinDocs(docs)
  {
    hide IsProxmoxCluster, HasHints;
    SplitOfJoin(docs);
    InjectIs(mem, docs, k);
    assert docs[k := docs[k]] == docs;
  }

  lemma {:induction false} JoinApart(docs: seq<seq<string>>, a: seq<string>, b: seq<string>)
    ensures JoinDocs(docs + [a, b]) == JoinDocs(docs + [a + [SEPARATOR] + b])
  {
    if docs == [] {
      assert (docs + [a, b])[1..] == [b];
    } else {
      JoinApart(docs[1..], a, b);
      assert (docs + [a, b])[1..] == docs[1..] + [a, b];
      assert (docs + [a + [SEPARATOR] + b])[1..] == docs[1..] + [a + [SEPARATOR] + b];
    }
  }

  lemma InjectLast(mem: string, docs: seq<seq<string>>)
    requires SplitForm(docs) && NonEmpty(docs) && mem != [] && IsProxmoxCluster(docs[|docs| - 1])
    requires !Separable(docs[|docs| - 1]) && Inject(mem, docs[|docs| - 1]) != docs[|docs| - 1]
    requires forall j :: 0 <= j < |docs| - 1 ==> !IsProxmoxCluster(docs[j])
    ensures var out := JoinDocs(docs[|docs| - 1 := Inject(mem, docs[|docs| - 1])]);
      out != [] && InjectText(mem, out) == out
  {
    hide IsProxmoxCluster, HasHints, Inject;
    var k := |docs| - 1;
    var above := InjectAboveMarker(mem, docs[k]);
    var apart := docs[..k] + [above, [[]]];
    JoinApart(docs[..k], above, [[]]);
    assert docs[k := Inject(mem, docs[k])] == docs[..k] + [above + [SEPARATOR] + [[]]];
    assert SplitForm(apart) by {
      assert forall j :: 0 <= j < k ==> apart[j] == docs[j];
      assert apart[k] == above;
    }
    assert apart[k] == above;
    InjectStaysText(mem, apart, k);
  }

  lemma InjectOne(mem: string, docs: seq<seq<string>>, k: nat)
    requires SplitForm(docs) && NonEmpty(docs) && mem != [] && k < |docs| && IsProxmoxCluster(docs[k])
    requires Separable(docs[k]) && Inject(mem, docs[k]) != docs[k]
    requires forall j :: 0 <= j < k ==> !IsProxmoxCluster(docs[j])
    ensures var out := JoinDocs(docs[k := Inject(mem, docs[k])]); out != [] && InjectText(mem, out) == out
  {
    hide IsProxmoxCluster, HasHints, Inject;
    InjectedStays(mem, docs[k]);
    InjectSeparable(mem, docs[k]);
    var more := docs[k := Inject(mem, docs[k])];
    assert SplitForm(more);
    InjectStaysText(mem, more, k);
  }

  /** Running the injection on its own output changes no byte, whatever the text. */
  lemma InjectTextTwice(mem: string, text: seq<string>)
    requires text != []
    ensures InjectText(mem, text) != []
    ensures InjectText(mem, InjectText(mem, text)) == InjectText(mem, text)
  {
    hide IsProxmoxCluster, HasHints, Inject, InjectFirst, SplitForm;
    var docs := SplitDocs(text);
    JoinOfSplit(text);
    SplitYieldsForm(text);
    assert docs[|docs| - 1] != [];
    if mem == [] {
      assert InjectFirst(mem, docs) == docs by { InjectNothing(mem, docs); }
    } else {
      var k := FindProxmox(docs);
      InjectIs(mem, docs, k);
      if k < |docs| {
        if Inject(mem, docs[k]) == docs[k] {
          assert docs[k := docs[k]] == docs;
        } else if Separable(docs[k]) {
          InjectOne(mem, docs, k);
        } else {
          assert k == |docs| - 1 by { FormSeparable(docs, k); }
          InjectLast(mem, docs);
        }
      }
    }
  }

  lemma InjectNothing(mem: string, docs: seq<seq<string>>)
    requires NonEmpty(docs) && mem == []
    ensures InjectFirst(mem, docs) == docs
  {}

  lemma FormSeparable(docs: seq<seq<string>>, k: nat)
    requires SplitForm(docs) && k < |docs|
    ensures k < |docs| - 1 ==> Separable(docs[k])
  {}

  ghost predicate Hinted(mem: string, ls: seq<string>, out: seq<string>)
    requires ls != []
  {
    var doc := Terminated(ls);
    exists s, p :: 0 <= s && s + 1 < p < |doc| && doc[s] == SPEC
      && (forall i :: s < i < p ==> HasPrefix(doc[i], "  "))
      && out == InsertAll(doc, p, HintLines(mem))
  }

  lemma InjectShape(mem: string, ls: seq<string>)
    requires ls != []
    ensures Inject(mem, ls) == ls || (!HasHints(ls) && Hinted(mem, ls, Inject(mem, ls)))
  {
    hide HasHints, InsertAll;
    var doc := Terminated(ls);
    var s := SpecBlock(doc, 0);
    if s != -1 {
      assert SpecEnd(doc, s + 1) > s + 1;
    }
  }

  /** The frame: at most one document changes, and that one only by the two hint lines behind its
      spec block and by a final newline, if it had none. */
  lemma {:induction false} InjectFrame(mem: string, docs: seq<seq<string>>, k: nat)
    requires NonEmpty(docs) && k < |docs|
    ensures var out := InjectFirst(mem, docs)[k];
      out == docs[k] || (
        && mem != [] && IsProxmoxCluster(docs[k]) && !HasHints(docs[k])
        && (forall j :: 0 <= j < k ==> !IsProxmoxCluster(docs[j]))
        && Hinted(mem, docs[k], out))
  {
    hide IsProxmoxCluster, HasHints, InsertAll, Inject, Terminated;
    if mem != [] {
      if IsProxmoxCluster(docs[0]) {
        InjectShape(mem, docs[0]);
      } else if k > 0 {
        InjectFrame(mem, docs[1..], k - 1);
        assert forall j :: 0 <= j < k - 1 ==> docs[1..][j] == docs[j + 1];
      }
    }
  }
}
