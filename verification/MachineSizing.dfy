/** The sizing of machine templates (patchPMTBlock in internal/capi/manifest/patches.go): one
    substitution for each sizing key, in the templates whose name contains a role. */
module MachineSizing {
  import opened Text
  import R = TemplateRevision
  import TemplateLines

  // ---------------------------------------------------------------- one substitution

  predicate At(l: string, c: nat, key: string) { c <= |l| && HasPrefix(l[c..], key) }

  /** The first place of `key` in a line, or -1. */
  function Find(l: string, key: string, from: nat): (c: int)
    requires from <= |l|
    ensures c == -1 || (from <= c <= |l| && At(l, c, key))
    ensures forall k :: from <= k < (if c == -1 then |l| + 1 else c) ==> !At(l, k, key)
    decreases |l| - from
  {
    if At(l, from, key) then from else if from == |l| then -1 else Find(l, key, from + 1)
  }

  predicate HasKey(l: string, key: string) { Find(l, key, 0) != -1 }

  /** What follows the key. */
  function After(l: string, key: string): (r: string)
    requires HasKey(l, key)
    ensures |r| <= |l| && l[|l| - |r|..] == r
  {
    l[Find(l, key, 0) + |key|..]
  }

  /** The key and its value are on the line. */
  predicate Holds(l: string, key: string) { HasKey(l, key) && !Blank(After(l, key)) }

  /** The line with another value. */
  function SetLine(key: string, v: string, l: string): string
    requires Holds(l, key)
  {
    var r := After(l, key);
    l[..|l| - |r| + Lead(Regex, r)] + v
  }

  /** A line that is nothing but a value. */
  function SetValue(v: string, l: string): string { l[..Lead(Regex, l)] + v }

  /** The last line that is not empty, the first one counting in any case. */
  function LastFull(ls: seq<string>): (t: nat)
    requires ls != []
    ensures t < |ls| && (t > 0 ==> ls[t] != "") && forall k :: t < k < |ls| ==> ls[k] == ""
  {
    if |ls| == 1 || ls[|ls| - 1] != "" then |ls| - 1 else LastFull(ls[..|ls| - 1])
  }

  /** Behind the key there is only white space to the end of the text: its last character on a line
      is taken for the value, if there is one. */
  function AtEnd(key: string, v: string, ls: seq<string>): seq<string>
    requires ls != [] && HasKey(ls[0], key)
  {
    var t := LastFull(ls);
    if t == 0 && After(ls[0], key) == "" then ls
    else if ls[t] == "" then ls
    else ls[t := ls[t][..|ls[t]| - 1] + v]
  }

  /** ReplaceAllString of `(key\s*)[^\n]+` by the first group and `v`. The white space behind the key
      may run over lines, and then the value is what the next line that is not white holds. */
  function Sub(key: string, v: string, ls: seq<string>): seq<string>
    decreases |ls|
  {
    if ls == [] then []
    else if !HasKey(ls[0], key) then [ls[0]] + Sub(key, v, ls[1..])
    else if Holds(ls[0], key) then [SetLine(key, v, ls[0])] + Sub(key, v, ls[1..])
    else
      var j := NextNonBlank(ls, 1);
      if j < |ls| then ls[..j] + ([SetValue(v, ls[j])] + Sub(key, v, ls[j + 1..]))
      else AtEnd(key, v, ls)
  }

  // ---------------------------------------------------------------- when it can be repeated

  /** A value that stays in its place: it starts with something that is not white. */
  predicate Settles(v: string) { v != "" && !White(Regex, v[0]) }

  lemma {:induction false} FindIs(l: string, key: string, from: nat, c: nat)
    requires from <= c <= |l| && At(l, c, key) && forall k :: from <= k < c ==> !At(l, k, key)
    ensures Find(l, key, from) == c
    decreases c - from
  {
    hide At;
    if from < c {
      FindIs(l, key, from + 1, c);
    }
  }

  lemma AtSame(l: string, out: string, k: nat, key: string, n: nat)
    requires k + |key| <= n <= |l| && n <= |out| && l[..n] == out[..n]
    ensures At(out, k, key) == At(l, k, key)
  {
    assert l[..n][k..k + |key|] == l[k..][..|key|];
    assert out[..n][k..k + |key|] == out[k..][..|key|];
  }

  /** The key is found where it was when only what follows it changes. */
  lemma FindKept(l: string, out: string, key: string, n: nat)
    requires HasKey(l, key) && n <= |l| && n <= |out| && l[..n] == out[..n]
    requires Find(l, key, 0) + |key| <= n
    ensures Find(out, key, 0) == Find(l, key, 0)
  {
    hide At;
    var c := Find(l, key, 0);
    forall k | 0 <= k <= c ensures At(out, k, key) == At(l, k, key) {
      AtSame(l, out, k, key, n);
    }
    FindIs(out, key, 0, c);
  }

  lemma SettledLead(w: string, v: string)
    requires AllWhite(Regex, w) && Settles(v)
    ensures Lead(Regex, w + v) == |w| && !Blank(w + v) && (w + v)[..|w|] == w
  {
    LeadIs(Regex, w, v);
  }

  /** The line up to the value, the white space in front of it, and the rest. */
  lemma SetLineParts(key: string, v: string, l: string) returns (head: string, w: string)
    requires Holds(l, key)
    ensures SetLine(key, v, l) == head + w + v && After(l, key)[..Lead(Regex, After(l, key))] == w
    ensures |head| == Find(l, key, 0) + |key| <= |l| && l[..|head|] == head
    ensures AllWhite(Regex, w)
  {
    var r := After(l, key);
    head, w := l[..|l| - |r|], r[..Lead(Regex, r)];
    assert l == head + r;
    assert l[..|head| + |w|] == head + w;
  }

  lemma SetLineOf(key: string, v: string, head: string, w: string)
    requires AllWhite(Regex, w) && Settles(v)
    requires var l := head + w + v; HasKey(l, key) && Find(l, key, 0) + |key| == |head|
    ensures var l := head + w + v; After(l, key) == w + v && Holds(l, key) && SetLine(key, v, l) == l
  {
    hide Find, AllWhite, Settles, Lead, At, Blank;
    var l := head + w + v;
    BothSlices(head, w, v);
    assert After(l, key) == l[|head|..];
    SettledLead(w, v);
  }

  lemma BothSlices(head: string, w: string, v: string)
    ensures var l := head + w + v; l[|head|..] == w + v && l[..|head| + |w|] == head + w
  {}

  /** A line that was set holds its value, and setting it again changes nothing. */
  lemma SetLineAgain(key: string, v: string, l: string)
    requires Settles(v) && Holds(l, key)
    ensures Holds(SetLine(key, v, l), key) && SetLine(key, v, SetLine(key, v, l)) == SetLine(key, v, l)
    ensures After(SetLine(key, v, l), key) == After(l, key)[..Lead(Regex, After(l, key))] + v
  {
    hide Find, AllWhite, Settles, Lead, SetLine, Blank;
    var head, w := SetLineParts(key, v, l);
    var out := head + w + v;
    assert out[..|head|] == head;
    FindKept(l, out, key, |head|);
    SetLineOf(key, v, head, w);
  }

  lemma SetValueAgain(v: string, l: string)
    requires Settles(v)
    ensures !Blank(SetValue(v, l)) && SetValue(v, SetValue(v, l)) == SetValue(v, l)
  {
    SettledLead(l[..Lead(Regex, l)], v);
  }

  lemma SubBelow(key: string, v: string, ls: seq<string>, j: nat)
    requires ls != [] && HasKey(ls[0], key) && !Holds(ls[0], key)
    requires 1 <= j < |ls| && (forall k :: 1 <= k < j ==> Blank(ls[k])) && !Blank(ls[j])
    ensures Sub(key, v, ls) == ls[..j] + ([SetValue(v, ls[j])] + Sub(key, v, ls[j + 1..]))
  {
    hide Blank, HasKey, Holds, SetLine, SetValue, AtEnd;
    NextNonBlankIs(ls, 1, j);
  }

  lemma SettledHere(key: string, v: string, l: string, rest: seq<string>)
    requires Settles(v) && Holds(l, key) && Sub(key, v, rest) == rest
    ensures var out := [SetLine(key, v, l)] + rest; Sub(key, v, out) == out
  {
    hide HasKey, Holds, SetLine, AtEnd, SetValue, Settles, Blank;
    SetLineAgain(key, v, l);
    var out := [SetLine(key, v, l)] + rest;
    assert out[1..] == rest;
  }

  lemma EndBlank(key: string, v: string, ls: seq<string>)
    requires ls != [] && HasKey(ls[0], key) && !Holds(ls[0], key) && forall k :: 1 <= k < |ls| ==> Blank(ls[k])
    ensures Sub(key, v, ls) == AtEnd(key, v, ls)
  {
    hide Blank, AtEnd, After;
    NextNonBlankIs(ls, 1, |ls|);
  }

  lemma FirstFilled(key: string, v: string, l: string)
    requires Settles(v) && HasKey(l, key) && !Holds(l, key) && After(l, key) != ""
    ensures var out := l[..|l| - 1] + v; Holds(out, key) && SetLine(key, v, out) == out
  {
    hide Find, Lead, Settles, SetLine;
    var r := After(l, key);
    var head, w := l[..|l| - |r|], r[..|r| - 1];
    LeadFull(Regex, r);
    assert l[..|l| - 1] == head + w;
    assert (head + w + v)[..|head|] == head;
    FindKept(l, head + w + v, key, |head|);
    SetLineOf(key, v, head, w);
  }

  lemma LastFilled(v: string, l: string)
    requires Settles(v) && Blank(l) && l != ""
    ensures var out := l[..|l| - 1] + v; !Blank(out) && SetValue(v, out) == out
  {
    LeadFull(Regex, l);
    SettledLead(l[..|l| - 1], v);
  }

  lemma SubFirst(key: string, v: string, l: string, rest: seq<string>)
    requires Holds(l, key) && SetLine(key, v, l) == l && Sub(key, v, rest) == rest
    ensures Sub(key, v, [l] + rest) == [l] + rest
  {
    hide HasKey, SetLine, AtEnd, SetValue, Blank;
    assert ([l] + rest)[1..] == rest;
  }

  lemma {:induction false} EmptyRest(key: string, v: string, ls: seq<string>)
    requires key != "" && forall k :: 0 <= k < |ls| ==> ls[k] == ""
    ensures Sub(key, v, ls) == ls
  {
    if ls != [] {
      EmptyRest(key, v, ls[1..]);
    }
  }

  /** At the end of the text the value is either on the line of the key or below it. */
  lemma SettledAtEnd(key: string, v: string, ls: seq<string>)
    requires Settles(v) && key != "" && ls != [] && HasKey(ls[0], key) && !Holds(ls[0], key)
    requires forall k :: 1 <= k < |ls| ==> Blank(ls[k])
    ensures var out := AtEnd(key, v, ls); Sub(key, v, out) == out
  {
    hide Blank, HasKey, SetLine, SetValue, Sub, After, Settles;
    var t := LastFull(ls);
    if t == 0 {
      if After(ls[0], key) == "" {
        EndBlank(key, v, ls);
      } else {
        FirstFilled(key, v, ls[0]);
        EmptyRest(key, v, ls[1..]);
        assert ls[0 := ls[0][..|ls[0]| - 1] + v] == [ls[0][..|ls[0]| - 1] + v] + ls[1..];
        SubFirst(key, v, ls[0][..|ls[0]| - 1] + v, ls[1..]);
      }
    } else {
      var out := AtEnd(key, v, ls);
      LastFilled(v, ls[t]);
      EmptyRest(key, v, ls[t + 1..]);
      assert out == out[..t] + ([out[t]] + ls[t + 1..]) && out[t + 1..] == ls[t + 1..];
      SubBelow(key, v, out, t);
    }
  }

  /** The substitution, repeated. */
  lemma {:induction false} SubSettles(key: string, v: string, ls: seq<string>)
    requires Settles(v) && key != ""
    ensures Sub(key, v, Sub(key, v, ls)) == Sub(key, v, ls)
    decreases |ls|
  {
    hide Blank, HasKey, SetLine, SetValue, After, Settles, AtEnd, Holds;
    if ls != [] {
      if !HasKey(ls[0], key) {
        SubSettles(key, v, ls[1..]);
        assert ([ls[0]] + Sub(key, v, ls[1..]))[1..] == Sub(key, v, ls[1..]);
      } else if Holds(ls[0], key) {
        SubSettles(key, v, ls[1..]);
        SettledHere(key, v, ls[0], Sub(key, v, ls[1..]));
      } else {
        var j := NextNonBlank(ls, 1);
        if j < |ls| {
          SubSettles(key, v, ls[j + 1..]);
          var rest := Sub(key, v, ls[j + 1..]);
          var out := ls[..j] + ([SetValue(v, ls[j])] + rest);
          SetValueAgain(v, ls[j]);
          assert out[j] == SetValue(v, ls[j]) && out[j + 1..] == rest && out[..j] == ls[..j];
          SubBelow(key, v, out, j);
        } else {
          SettledAtEnd(key, v, ls);
        }
      }
    }
  }

  lemma NoRoom(l: string, key: string)
    requires |l| < |key|
    ensures !HasKey(l, key)
  {
    forall c | 0 <= c <= |l| ensures !At(l, c, key) {}
  }

  lemma KeyFirst(key: string, r: string)
    ensures HasKey(key + r, key) && Find(key + r, key, 0) == 0 && After(key + r, key) == r
  {
    var l := key + r;
    assert l[0..] == l && l[..|key|] == key;
    assert At(l, 0, key);
    FindIs(l, key, 0, 0);
  }

  /** One line with the key and a value, one line without. */
  function Witness(key: string): seq<string> { [key + "a", "b"] }

  lemma WitnessOnce(key: string, v: string)
    requires |key| >= 2
    ensures Sub(key, v, Witness(key)) == [key + v, "b"]
  {
    hide Find, Blank, Lead;
    KeyFirst(key, "a");
    NoRoom("b", key);
    LeadOfLetter();
    assert (key + "a")[..|key| + 0] == key;
    assert Sub(key, v, ["b"]) == ["b"];
    assert Witness(key)[1..] == ["b"];
  }

  lemma LeadOfLetter()
    ensures Lead(Regex, "a") == 0 && !Blank("a") && Lead(Regex, "b") == 0 && !Blank("b")
  {}

  lemma WitnessBlank(key: string, v: string)
    requires |key| >= 2 && Blank(v)
    ensures Sub(key, v, [key + v, "b"]) == [key + v, v]
  {
    hide Find, Blank, Lead;
    KeyFirst(key, v);
    LeadOfLetter();
    var ls := [key + v, "b"];
    NextNonBlankIs(ls, 1, 1);
    assert SetValue(v, "b") == v;
    assert ls[..1] + ([v] + Sub(key, v, ls[2..])) == [key + v, v];
  }

  lemma SetKeyed(key: string, v: string, r: string)
    requires !Blank(r)
    ensures Holds(key + r, key) && SetLine(key, v, key + r) == key + r[..Lead(Regex, r)] + v
  {
    hide Find, Blank, Lead;
    KeyFirst(key, r);
    assert (key + r)[..|key| + Lead(Regex, r)] == key + r[..Lead(Regex, r)];
  }

  lemma WitnessGrows(key: string, v: string)
    requires |key| >= 2 && !Blank(v)
    ensures Sub(key, v, [key + v, "b"]) == [key + v[..Lead(Regex, v)] + v, "b"]
  {
    hide HasKey, Holds, SetLine, Blank, Lead, Sub;
    SetKeyed(key, v, v);
    NoRoom("b", key);
    SubLacks(key, v, "b", []);
    SubHolds(key, v, key + v, ["b"]);
    assert Sub(key, v, []) == [] by { SubEmpty(key, v); }
    assert ["b"] + [] == ["b"] && [key + v] + ["b"] == [key + v, "b"];
  }

  lemma SubEmpty(key: string, v: string)
    ensures Sub(key, v, []) == []
  {}

  lemma SubHolds(key: string, v: string, l: string, rest: seq<string>)
    requires Holds(l, key)
    ensures Sub(key, v, [l] + rest) == [SetLine(key, v, l)] + Sub(key, v, rest)
  {
    hide HasKey, SetLine, AtEnd, SetValue, Blank;
    assert ([l] + rest)[1..] == rest;
  }

  lemma SubLacks(key: string, v: string, l: string, rest: seq<string>)
    requires !HasKey(l, key)
    ensures Sub(key, v, [l] + rest) == [l] + Sub(key, v, rest)
  {
    hide HasKey, Holds, SetLine, AtEnd, SetValue, Blank;
    assert ([l] + rest)[1..] == rest;
  }

  /** A sizing substitution can be repeated on every text exactly when its value starts with
      something that is not white. With an empty value, which the configuration does not rule out,
      the second run takes the next line of the template for the value. */
  lemma RepeatableIff(key: string, v: string)
    requires |key| >= 2
    ensures (forall ls :: Sub(key, v, Sub(key, v, ls)) == Sub(key, v, ls)) <==> Settles(v)
  {
    if Settles(v) {
      forall ls ensures Sub(key, v, Sub(key, v, ls)) == Sub(key, v, ls) {
        SubSettles(key, v, ls);
      }
    } else {
      WitnessOnce(key, v);
      if Blank(v) {
        WitnessBlank(key, v);
        BlankIsNotB(v);
      } else {
        WitnessGrows(key, v);
        assert Lead(Regex, v) > 0;
        assert |key + v[..Lead(Regex, v)] + v| > |key + v|;
      }
      assert Sub(key, v, Sub(key, v, Witness(key))) != Sub(key, v, Witness(key));
    }
  }

  lemma BlankIsNotB(v: string)
    requires Blank(v)
    ensures v != "b"
  {}

  // ---------------------------------------------------------------- all sizing keys

  datatype Sizing = Sizing(disk: string, size: string, sockets: string, cores: string, mem: string, template: string)

  type Field = (string, string)

  /** The keys in the order they are substituted; an empty template is left alone. */
  function FieldsOf(h: Sizing): seq<Field> {
    [("disk:", h.disk), ("sizeGb:", h.size), ("numSockets:", h.sockets), ("numCores:", h.cores), ("memoryMiB:", h.mem)]
      + (if h.template == "" then [] else [("templateID:", h.template)])
  }

  function SubAll(fields: seq<Field>, ls: seq<string>): seq<string> {
    if fields == [] then ls else SubAll(fields[1..], Sub(fields[0].0, fields[0].1, ls))
  }

  /** A key as it is used here, and a value that cannot be taken for one. */
  predicate GoodField(f: Field) {
    GoodKey(f.0) && Settles(f.1) && ':' !in f.1
  }

  predicate GoodKey(key: string) {
    |key| >= 2 && key[|key| - 1] == ':' && forall i :: 0 <= i < |key| - 1 ==> key[i] != ':'
  }

  /** The keys are different, and none is the end of another. */
  predicate GoodFields(fields: seq<Field>) {
    && (forall i :: 0 <= i < |fields| ==> GoodField(fields[i]))
    && (forall i, j :: 0 <= i < |fields| && 0 <= j < |fields| && i != j ==> !HasSuffix(fields[i].0, fields[j].0))
  }

  /** Every key on the line has its value there. */
  predicate InOrder(fields: seq<Field>, l: string) {
    forall i :: 0 <= i < |fields| && HasKey(l, fields[i].0) ==> Holds(l, fields[i].0)
  }

  predicate AllInOrder(fields: seq<Field>, ls: seq<string>) { forall l :: l in ls ==> InOrder(fields, l) }

  function SetIf(f: Field, l: string): string {
    if Holds(l, f.0) then SetLine(f.0, f.1, l) else l
  }

  /** The substitutions on one line, one after another. */
  function SizeLine(fields: seq<Field>, l: string): string {
    if fields == [] then l else SizeLine(fields[1..], SetIf(fields[0], l))
  }

  function SizeLines(fields: seq<Field>, ls: seq<string>): (r: seq<string>)
    ensures |r| == |ls|
  {
    if ls == [] then [] else [SizeLine(fields, ls[0])] + SizeLines(fields, ls[1..])
  }

  lemma {:induction false} SizeLinesAt(fields: seq<Field>, ls: seq<string>, i: nat)
    requires i < |ls|
    ensures SizeLines(fields, ls)[i] == SizeLine(fields, ls[i])
  {
    if i > 0 {
      SizeLinesAt(fields, ls[1..], i - 1);
    }
  }

  lemma {:induction false} SizeNothing(ls: seq<string>)
    ensures SizeLines([], ls) == ls
  {
    if ls != [] {
      SizeNothing(ls[1..]);
    }
  }

  lemma HoldsHasKey(l: string, key: string)
    ensures Holds(l, key) ==> HasKey(l, key)
  {}

  lemma GoodFieldsTail(fields: seq<Field>)
    requires GoodFields(fields) && fields != []
    ensures GoodFields(fields[1..]) && GoodField(fields[0])
  {
    hide GoodField, HasSuffix;
    var rest := fields[1..];
    assert forall i :: 0 <= i < |rest| ==> rest[i] == fields[i + 1];
  }

  lemma SizeOne(f: Field, l: string)
    ensures SizeLine([f], l) == SetIf(f, l)
  {
    hide SetIf;
    assert [f][1..] == [];
  }

  /** With the value on the line of its key, a substitution works line by line. */
  lemma {:induction false} SubByLine(f: Field, ls: seq<string>)
    requires forall l :: l in ls && HasKey(l, f.0) ==> Holds(l, f.0)
    ensures Sub(f.0, f.1, ls) == SizeLines([f], ls)
  {
    hide HasKey, Holds, SetLine, Sub, SizeLine;
    if ls == [] {
      SubEmpty(f.0, f.1);
    } else {
      assert ls[0] in ls && ls == [ls[0]] + ls[1..];
      SubByLine(f, ls[1..]);
      SizeOne(f, ls[0]);
      HoldsHasKey(ls[0], f.0);
      if HasKey(ls[0], f.0) {
        SubHolds(f.0, f.1, ls[0], ls[1..]);
      } else {
        SubLacks(f.0, f.1, ls[0], ls[1..]);
      }
    }
  }

  // Where keys stand on a line.

  lemma ColonInside(a: string, v: string, c: nat, key: string)
    requires At(a + v, c, key) && key != "" && key[|key| - 1] == ':'
    ensures ':' !in v ==> c + |key| <= |a|
  {
    var out := a + v;
    var e := c + |key| - 1;
    assert out[c..][|key| - 1] == out[e] == ':';
    if e >= |a| {
      assert out[e] in v;
    }
  }

  lemma LinePrefix(key: string, v: string, l: string)
    requires Holds(l, key)
    ensures var n := |l| - |After(l, key)| + Lead(Regex, After(l, key));
      var out := SetLine(key, v, l); n <= |l| && n <= |out| && out[..n] == l[..n]
  {}

  lemma FindLeast(l: string, key: string, c: nat)
    requires c <= |l| && At(l, c, key)
    ensures HasKey(l, key) && Find(l, key, 0) <= c
  {}

  lemma NoColonInWhite(w: string)
    requires AllWhite(Regex, w)
    ensures ':' !in w
  {}

  lemma KeyInHead(head: string, w: string, v: string, c: nat, key: string)
    requires At(head + w + v, c, key) && GoodKey(key) && AllWhite(Regex, w) && ':' !in v
    ensures c + |key| <= |head|
  {
    NoColonInWhite(w);
    assert head + w + v == head + (w + v);
    ColonInside(head, w + v, c, key);
  }

  /** A key on a line that was set stands in the part that stayed. */
  lemma KeyStayed(f: Field, l: string, c: nat, key: string)
    requires GoodField(f) && GoodKey(key) && Holds(l, f.0) && At(SetLine(f.0, f.1, l), c, key)
    ensures c <= |l| && At(l, c, key) && c + |key| <= Find(l, f.0, 0) + |f.0|
  {
    hide Find, Settles, Lead, At, GoodKey, SetLine, Blank;
    var head, w := SetLineParts(f.0, f.1, l);
    KeyInHead(head, w, f.1, c, key);
    var out := head + w + f.1;
    assert out[..|head|] == head;
    AtSame(out, l, c, key, |head|);
  }

  lemma CharAt(l: string, c: nat, key: string, e: nat)
    requires c <= |l| && At(l, c, key) && c <= e < c + |key|
    ensures e < |l| && l[e] == key[e - c]
  {
    assert l[c..][..|key|][e - c] == l[e];
  }

  /** Keys that overlap end together. */
  lemma EndTogether(l: string, c: nat, key: string, d: nat, other: string)
    requires GoodKey(key) && GoodKey(other) && c <= |l| && At(l, c, key) && d <= |l| && At(l, d, other)
    requires c < d < c + |key|
    ensures c + |key| == d + |other| && HasSuffix(key, other)
  {
    hide At;
    var e, e' := c + |key| - 1, d + |other| - 1;
    CharAt(l, c, key, e);
    CharAt(l, d, other, e');
    if e' < e {
      CharAt(l, c, key, e');
    }
    if e < e' {
      CharAt(l, d, other, e);
    }
    forall i | 0 <= i < |other| ensures key[d - c..][i] == other[i] {
      CharAt(l, c, key, d + i);
      CharAt(l, d, other, d + i);
    }
    assert key[d - c..] == other;
  }

  /** Two keys on a line do not overlap. */
  lemma Apart(l: string, c: nat, key: string, d: nat, other: string)
    requires GoodKey(key) && GoodKey(other) && !HasSuffix(key, other)
    requires c < d <= |l| && At(l, c, key) && At(l, d, other)
    ensures c + |key| <= d
  {
    hide At, HasSuffix, GoodKey;
    if d < c + |key| {
      EndTogether(l, c, key, d, other);
    }
  }

  lemma OneAtAPlace(l: string, c: nat, key: string, other: string)
    requires GoodKey(key) && GoodKey(other) && At(l, c, key) && At(l, c, other)
    ensures key == other
  {
    var n := if |key| < |other| then |key| else |other|;
    assert key[..n] == l[c..][..n] == other[..n];
    assert key[n - 1] == other[n - 1];
  }

  /** The line still holds every key that is left on it. */
  lemma StillHolds(f: Field, l: string, key: string)
    requires GoodField(f) && GoodKey(key) && Holds(l, f.0) && HasKey(SetLine(f.0, f.1, l), key)
    ensures Holds(SetLine(f.0, f.1, l), key) && HasKey(l, key) && Find(SetLine(f.0, f.1, l), key, 0) >= Find(l, key, 0)
  {
    hide Find, Lead, At;
    var head, w := SetLineParts(f.0, f.1, l);
    var out := head + w + f.1;
    var c := Find(out, key, 0);
    KeyStayed(f, l, c, key);
    FindLeast(l, key, c);
    var r := After(out, key);
    LeadFull(Regex, r);
    assert r[|head| + |w| - c - |key|] == out[|head| + |w|] == f.1[0];
  }

  lemma InOrderStep(fields: seq<Field>, l: string)
    requires fields != [] && GoodFields(fields) && InOrder(fields, l)
    ensures InOrder(fields[1..], SetIf(fields[0], l))
  {
    hide HasKey, Holds, SetLine, HasSuffix;
    var rest, out := fields[1..], SetIf(fields[0], l);
    forall i | 0 <= i < |rest| && HasKey(out, rest[i].0) ensures Holds(out, rest[i].0) {
      assert rest[i] == fields[i + 1];
      if out != l {
        StillHolds(fields[0], l, rest[i].0);
      }
    }
  }

  /** The whole patch of a template works line by line, when no key is without its value. */
  lemma {:induction false} SubAllByLine(fields: seq<Field>, ls: seq<string>)
    requires GoodFields(fields) && AllInOrder(fields, ls)
    ensures SubAll(fields, ls) == SizeLines(fields, ls)
    decreases |fields|
  {
    hide InOrder, SizeLine, Sub, GoodFields, SetIf;
    if fields == [] {
      SizeNothing(ls);
      assert forall l :: SizeLine([], l) == l by { SizeByNone(); }
    } else {
      var f := fields[0];
      forall l | l in ls && HasKey(l, f.0) ensures Holds(l, f.0) {
        InOrderHolds(fields, l);
      }
      SubByLine(f, ls);
      var out := SizeLines([f], ls);
      GoodFieldsTail(fields);
      forall i | 0 <= i < |ls|
        ensures InOrder(fields[1..], out[i]) && SizeLine(fields[1..], out[i]) == SizeLine(fields, ls[i])
      {
        assert ls[i] in ls;
        SizeLinesAt([f], ls, i);
        SizeOne(f, ls[i]);
        InOrderStep(fields, ls[i]);
        SizeStep(fields, ls[i]);
      }
      SubAllByLine(fields[1..], out);
      forall i | 0 <= i < |ls| ensures SizeLines(fields[1..], out)[i] == SizeLines(fields, ls)[i] {
        SizeLinesAt(fields[1..], out, i);
        SizeLinesAt(fields, ls, i);
      }
    }
  }

  lemma SizeByNone()
    ensures forall l :: SizeLine([], l) == l
  {}

  lemma SizeStep(fields: seq<Field>, l: string)
    requires fields != []
    ensures SizeLine(fields, l) == SizeLine(fields[1..], SetIf(fields[0], l))
  {}

  lemma InOrderHolds(fields: seq<Field>, l: string)
    requires fields != [] && InOrder(fields, l)
    ensures HasKey(l, fields[0].0) ==> Holds(l, fields[0].0)
  {}

  lemma {:induction false} Untouched(fields: seq<Field>, l: string)
    requires forall i :: 0 <= i < |fields| ==> !HasKey(l, fields[i].0)
    ensures SizeLine(fields, l) == l
  {
    hide HasKey, SetLine;
    if fields != [] {
      HoldsHasKey(l, fields[0].0);
      Untouched(fields[1..], l);
    }
  }

  // ---------------------------------------------------------------- several keys on one line

  /** Key `k` is the first of the keys on the line. */
  predicate IsFirst(fields: seq<Field>, l: string, k: nat) {
    && k < |fields| && HasKey(l, fields[k].0)
    && (forall i :: 0 <= i < |fields| && i != k && HasKey(l, fields[i].0) ==>
          Find(l, fields[k].0, 0) < Find(l, fields[i].0, 0))
  }

  predicate Ahead(fields: seq<Field>, l: string, i: nat, j: nat)
    requires i < |fields|
  {
    && j < |fields| && j != i && HasKey(l, fields[i].0) && HasKey(l, fields[j].0)
    && Find(l, fields[j].0, 0) <= Find(l, fields[i].0, 0)
  }

  lemma {:induction false} FirstExists(fields: seq<Field>, l: string, i: nat) returns (k: nat)
    requires GoodFields(fields) && i < |fields| && HasKey(l, fields[i].0)
    ensures IsFirst(fields, l, k)
    decreases Find(l, fields[i].0, 0)
  {
    hide HasKey, At, GoodField, HasSuffix;
    if j: nat :| Ahead(fields, l, i, j) {
      assert GoodField(fields[i]) && GoodField(fields[j]);
      Different(fields[i], fields[j], l);
      k := FirstExists(fields, l, j);
    } else {
      k := i;
      forall j | 0 <= j < |fields| && j != i && HasKey(l, fields[j].0)
        ensures Find(l, fields[i].0, 0) < Find(l, fields[j].0, 0)
      {
        assert !Ahead(fields, l, i, j);
      }
    }
  }

  lemma SelfSuffix(s: string)
    ensures HasSuffix(s, s)
  {}

  lemma Different(f: Field, g: Field, l: string)
    requires GoodField(f) && GoodField(g) && HasKey(l, f.0) && HasKey(l, g.0) && !HasSuffix(f.0, g.0)
    ensures Find(l, f.0, 0) != Find(l, g.0, 0)
  {
    hide Find, Settles, At;
    SelfSuffix(f.0);
    if Find(l, f.0, 0) == Find(l, g.0, 0) {
      OneAtAPlace(l, Find(l, f.0, 0), f.0, g.0);
    }
  }

  /** Setting the first key cuts the others off. */
  lemma OthersGone(f: Field, l: string, key: string)
    requires GoodField(f) && GoodKey(key) && !HasSuffix(f.0, key) && Holds(l, f.0)
    requires HasKey(l, key) ==> Find(l, f.0, 0) < Find(l, key, 0)
    ensures !HasKey(SetLine(f.0, f.1, l), key)
  {
    hide Find, Settles, Lead, SetLine, At, GoodKey, Blank;
    var out := SetLine(f.0, f.1, l);
    if HasKey(out, key) {
      var c := Find(out, key, 0);
      KeyStayed(f, l, c, key);
      FindLeast(l, key, c);
      Apart(l, Find(l, f.0, 0), f.0, c, key);
      assert |key| >= 2 by { LongKey(key); }
    }
  }

  lemma LongKey(key: string)
    ensures GoodKey(key) ==> |key| >= 2
  {}

  lemma {:induction false} LeadBound(s: string, j: nat)
    requires j < |s| && !White(Regex, s[j])
    ensures Lead(Regex, s) <= j
  {
    if j > 0 {
      LeadBound(s[1..], j - 1);
    }
  }

  lemma LeadSame(a: string, b: string, n: nat, j: nat)
    requires j < n <= |a| && n <= |b| && a[..n] == b[..n] && !White(Regex, a[j])
    ensures Lead(Regex, a) == Lead(Regex, b) <= j
  {
    hide Lead;
    var p := Lead(Regex, a);
    LeadBound(a, j);
    assert a[..p] == a[..n][..p] == b[..n][..p] == b[..p];
    assert b == b[..p] + b[p..] && a[..n][p] == b[..n][p];
    LeadIs(Regex, b[..p], b[p..]);
  }

  /** Setting a key that stands behind another one is undone when that one is set. */
  lemma SetBehind(f: Field, g: Field, l: string)
    requires GoodField(f) && GoodField(g) && !HasSuffix(g.0, f.0) && Holds(l, f.0) && Holds(l, g.0)
    requires Find(l, g.0, 0) < Find(l, f.0, 0)
    ensures var out := SetLine(f.0, f.1, l);
      && Holds(out, g.0) && Find(out, g.0, 0) == Find(l, g.0, 0)
      && SetLine(g.0, g.1, out) == SetLine(g.0, g.1, l)
  {
    hide Find, Settles, Lead, SetLine, At, Blank;
    var out := SetLine(f.0, f.1, l);
    var head, w := SetLineParts(f.0, f.1, l);
    assert out[..|head|] == head == l[..|head|];
    var c, d := Find(l, g.0, 0), Find(l, f.0, 0);
    Apart(l, c, g.0, d, f.0);
    FindKept(l, out, g.0, |head|);
    StillHolds(f, l, g.0);
    ColonAt(l, d, f.0);
    var from := c + |g.0|;
    var j := |head| - 1 - from;
    assert l[from..][..j + 1] == out[from..][..j + 1] by {
      assert l[from..][..j + 1] == l[..|head|][from..];
      assert out[from..][..j + 1] == out[..|head|][from..];
    }
    LeadSame(l[from..], out[from..], j + 1, j);
    SetByLead(g, l, out, from, Lead(Regex, l[from..]), |head|);
  }

  lemma ColonAt(l: string, d: nat, key: string)
    requires d <= |l| && At(l, d, key) && GoodKey(key)
    ensures l[d + |key| - 1] == ':'
  {
    assert l[d..][..|key|][|key| - 1] == l[d + |key| - 1];
  }

  lemma SetLineAt(key: string, v: string, l: string, from: nat, w: nat)
    requires Holds(l, key) && from == Find(l, key, 0) + |key| && from <= |l| && w == Lead(Regex, l[from..])
    ensures from + w <= |l| && SetLine(key, v, l) == l[..from + w] + v
  {
    hide Find, Lead, Blank;
    assert After(l, key) == l[from..];
  }

  lemma SetByLead(g: Field, l: string, out: string, from: nat, w: nat, n: nat)
    requires Holds(l, g.0) && from == Find(l, g.0, 0) + |g.0| && from <= |l| && w == Lead(Regex, l[from..])
    requires Holds(out, g.0) && from == Find(out, g.0, 0) + |g.0| && from <= |out| && w == Lead(Regex, out[from..])
    requires from + w <= n <= |l| && n <= |out| && l[..n] == out[..n]
    ensures SetLine(g.0, g.1, out) == SetLine(g.0, g.1, l)
  {
    hide Find, Lead, Blank, SetLine, Holds;
    SetLineAt(g.0, g.1, l, from, w);
    SetLineAt(g.0, g.1, out, from, w);
    ShorterPrefix(l, out, n, from + w);
  }

  lemma ShorterPrefix(l: string, out: string, n: nat, e: nat)
    requires e <= n <= |l| && n <= |out| && l[..n] == out[..n]
    ensures l[..e] == out[..e]
  {
    assert l[..e] == l[..n][..e] && out[..e] == out[..n][..e];
  }

  lemma FirstStays(fields: seq<Field>, l: string, k: nat)
    requires GoodFields(fields) && InOrder(fields, l) && IsFirst(fields, l, k) && k > 0
    ensures var out := SetIf(fields[0], l);
      && IsFirst(fields[1..], out, k - 1) && Holds(l, fields[k].0) && Holds(out, fields[k].0)
      && SetLine(fields[k].0, fields[k].1, out) == SetLine(fields[k].0, fields[k].1, l)
  {
    hide Find, HasSuffix, SetLine, Holds, Settles, GoodKey;
    var f, g, out, rest := fields[0], fields[k], SetIf(fields[0], l), fields[1..];
    assert GoodField(f) && GoodField(g) && !HasSuffix(g.0, f.0);
    assert rest[k - 1] == g;
    if out != l {
      HoldsHasKey(l, f.0);
      SetBehind(f, g, l);
      HoldsHasKey(out, g.0);
      forall i | 0 <= i < |rest| && i != k - 1 && HasKey(out, rest[i].0)
        ensures Find(out, g.0, 0) < Find(out, rest[i].0, 0)
      {
        assert rest[i] == fields[i + 1] && GoodField(fields[i + 1]);
        StillHolds(f, l, rest[i].0);
      }
    } else {
      assert forall i :: 0 <= i < |rest| ==> rest[i] == fields[i + 1];
    }
  }

  /** The result on a line with several keys: the first one gets its value, and what follows it,
      other keys included, is gone. */
  lemma {:induction false} FirstKeyWins(fields: seq<Field>, l: string, k: nat)
    requires GoodFields(fields) && InOrder(fields, l) && IsFirst(fields, l, k)
    ensures Holds(l, fields[k].0) && SizeLine(fields, l) == SetLine(fields[k].0, fields[k].1, l)
    decreases |fields|
  {
    hide Find, HasSuffix, SetLine, Holds, HasKey, GoodField;
    assert Holds(l, fields[k].0) by { FirstHolds(fields, l, k); }
    var rest := fields[1..];
    if k == 0 {
      var out := SetLine(fields[0].0, fields[0].1, l);
      forall i | 0 <= i < |rest| ensures !HasKey(out, rest[i].0) {
        assert rest[i] == fields[i + 1] && GoodField(fields[0]) && GoodField(fields[i + 1]);
        GoodFieldKey(fields[i + 1]);
        FirstBefore(fields, l, i + 1);
        OthersGone(fields[0], l, rest[i].0);
      }
      Untouched(rest, out);
    } else {
      FirstStays(fields, l, k);
      InOrderStep(fields, l);
      GoodFieldsTail(fields);
      FirstKeyWins(rest, SetIf(fields[0], l), k - 1);
    }
  }

  lemma FirstHolds(fields: seq<Field>, l: string, k: nat)
    requires InOrder(fields, l) && IsFirst(fields, l, k)
    ensures Holds(l, fields[k].0)
  {
    hide HasKey, Holds;
  }

  lemma FirstBefore(fields: seq<Field>, l: string, i: nat)
    requires IsFirst(fields, l, 0) && 0 < i < |fields|
    ensures HasKey(l, fields[i].0) ==> Find(l, fields[0].0, 0) < Find(l, fields[i].0, 0)
  {}

  lemma GoodFieldKey(f: Field)
    ensures GoodField(f) ==> GoodKey(f.0) && Settles(f.1)
  {}

  // ---------------------------------------------------------------- two sizings of one template

  /** The same keys in the same order, except that one may lack the last ones of the other. */
  predicate SameKeys(a: seq<Field>, b: seq<Field>) {
    forall i :: 0 <= i < |a| && i < |b| ==> a[i].0 == b[i].0
  }

  /** The values of the later sizing, and those of the earlier one for the keys it lacks. */
  function Later(a: seq<Field>, b: seq<Field>): (c: seq<Field>)
    ensures |c| == if |a| <= |b| then |b| else |a|
    ensures forall i :: 0 <= i < |c| ==> c[i] == if i < |b| then b[i] else a[i]
  {
    if |a| <= |b| then b else b + a[|b|..]
  }

  lemma LaterGood(a: seq<Field>, b: seq<Field>)
    requires GoodFields(a) && GoodFields(b) && SameKeys(a, b)
    ensures GoodFields(Later(a, b))
    ensures forall i :: 0 <= i < |a| ==> a[i].0 == Later(a, b)[i].0
  {
    hide GoodField, HasSuffix;
    var c := Later(a, b);
    assert forall i :: 0 <= i < |c| && i < |a| ==> c[i].0 == a[i].0;
  }

  lemma SetLineOver(key: string, v: string, u: string, l: string)
    requires Settles(v) && Holds(l, key)
    ensures Holds(SetLine(key, v, l), key) && SetLine(key, u, SetLine(key, v, l)) == SetLine(key, u, l)
  {
    hide Find, AllWhite, Settles, Lead, SetLine, Blank;
    var head, w := SetLineParts(key, v, l);
    var head1, w1 := SetLineParts(key, u, l);
    assert head1 == head && w1 == w;
    var out := head + w + v;
    assert out[..|head|] == head;
    FindKept(l, out, key, |head|);
    SetLineOf(key, v, head, w);
    var head2, w2 := SetLineParts(key, u, out);
    assert head2 == head;
    AfterLead(key, v, head, w);
  }

  lemma AfterLead(key: string, v: string, head: string, w: string)
    requires AllWhite(Regex, w) && Settles(v)
    requires var l := head + w + v; HasKey(l, key) && After(l, key) == w + v
    ensures var l := head + w + v; After(l, key)[..Lead(Regex, After(l, key))] == w
  {
    hide Find, After;
    SettledLead(w, v);
  }

  /** The first key of all is one of the first sizing. */
  lemma AgainSame(a: seq<Field>, b: seq<Field>, c: seq<Field>, l: string, k: nat)
    requires GoodFields(a) && GoodFields(b) && GoodFields(c) && SameKeys(a, b) && c == Later(a, b)
    requires k < |a| && IsFirst(c, l, k) && InOrder(c, l)
    ensures var m := SetLine(a[k].0, a[k].1, l);
      && Holds(l, c[k].0) && SizeLine(a, l) == m && InOrder(b, m)
      && SizeLine(b, m) == SetLine(c[k].0, c[k].1, l)
  {
    hide Find, HasSuffix, SetLine, Holds, HasKey, GoodField;
    LaterGood(a, b);
    FirstHolds(c, l, k);
    FirstOfFewer(a, c, l, k);
    FirstKeyWins(a, l, k);
    var m := SetLine(a[k].0, a[k].1, l);
    assert GoodField(a[k]);
    GoodFieldKey(a[k]);
    forall i | 0 <= i < |b| && i != k ensures !HasKey(m, b[i].0) {
      assert c[i] == b[i] && GoodField(c[i]) && GoodField(c[k]);
      GoodFieldKey(c[i]);
      FirstOrder(c, l, k, i);
      OthersGone(a[k], l, b[i].0);
    }
    if k < |b| {
      assert b[k] == c[k];
      SetLineOver(a[k].0, a[k].1, b[k].1, l);
      OnlyKey(b, m, k);
      FirstKeyWins(b, m, k);
    } else {
      Untouched(b, m);
    }
  }

  lemma OnlyKey(b: seq<Field>, m: string, k: nat)
    requires k < |b| && Holds(m, b[k].0) && forall i :: 0 <= i < |b| && i != k ==> !HasKey(m, b[i].0)
    ensures InOrder(b, m) && IsFirst(b, m, k)
  {
    HoldsHasKey(m, b[k].0);
    hide Holds, HasKey;
  }

  lemma FirstOrder(c: seq<Field>, l: string, k: nat, i: nat)
    requires IsFirst(c, l, k) && i < |c| && i != k
    ensures HasKey(l, c[i].0) ==> Find(l, c[k].0, 0) < Find(l, c[i].0, 0)
  {}

  lemma FirstOfFewer(a: seq<Field>, c: seq<Field>, l: string, k: nat)
    requires |a| <= |c| && (forall i :: 0 <= i < |a| ==> a[i].0 == c[i].0)
    requires k < |a| && IsFirst(c, l, k) && InOrder(c, l)
    ensures IsFirst(a, l, k) && InOrder(a, l)
  {
    hide HasKey, Holds;
  }

  /** The first key of all is one that the first sizing lacks. */
  lemma AgainBehind(a: seq<Field>, b: seq<Field>, l: string, k: nat, n: nat)
    requires GoodFields(a) && GoodFields(b) && SameKeys(a, b) && |a| <= k < |b|
    requires IsFirst(b, l, k) && InOrder(b, l) && IsFirst(a, l, n)
    ensures var m := SizeLine(a, l);
      Holds(l, b[k].0) && InOrder(b, m) && SizeLine(b, m) == SetLine(b[k].0, b[k].1, l)
  {
    hide Find, HasSuffix, SetLine, Holds, HasKey, GoodField;
    FirstHolds(b, l, k);
    assert InOrder(a, l) by {
      forall i | 0 <= i < |a| && HasKey(l, a[i].0) ensures Holds(l, a[i].0) {
        assert a[i].0 == b[i].0;
      }
    }
    FirstKeyWins(a, l, n);
    var m := SetLine(a[n].0, a[n].1, l);
    assert GoodField(a[n]) && GoodField(b[k]) && GoodField(b[n]) && a[n].0 == b[n].0;
    FirstHolds(a, l, n);
    FirstOrder(b, l, k, n);
    HoldsHasKey(l, a[n].0);
    SetBehind(a[n], b[k], l);
    BehindFirst(a[n], b, l, k);
    FirstKeyWins(b, m, k);
  }

  lemma BehindFirst(f: Field, b: seq<Field>, l: string, k: nat)
    requires GoodFields(b) && GoodField(f) && Holds(l, f.0) && IsFirst(b, l, k)
    requires var m := SetLine(f.0, f.1, l); Holds(m, b[k].0) && Find(m, b[k].0, 0) == Find(l, b[k].0, 0)
    ensures IsFirst(b, SetLine(f.0, f.1, l), k) && InOrder(b, SetLine(f.0, f.1, l))
  {
    hide Find, HasSuffix, SetLine, Holds, HasKey, GoodField;
    var m := SetLine(f.0, f.1, l);
    HoldsHasKey(m, b[k].0);
    forall i | 0 <= i < |b| && HasKey(m, b[i].0)
      ensures Holds(m, b[i].0) && (i != k ==> Find(m, b[k].0, 0) < Find(m, b[i].0, 0))
    {
      assert GoodField(b[i]);
      GoodFieldKey(b[i]);
      StillHolds(f, l, b[i].0);
      if i != k {
        FirstOrder(b, l, k, i);
      }
    }
  }

  /** A line that was sized is in order for sizing, and takes the later value. */
  lemma SizeAgain(a: seq<Field>, b: seq<Field>, l: string)
    requires GoodFields(a) && GoodFields(b) && SameKeys(a, b) && InOrder(Later(a, b), l)
    ensures InOrder(a, l) && InOrder(b, SizeLine(a, l))
    ensures SizeLine(b, SizeLine(a, l)) == SizeLine(Later(a, b), l)
  {
    hide Find, HasSuffix, SetLine, Holds, HasKey, GoodFields, IsFirst, SizeLine;
    var c := Later(a, b);
    LaterGood(a, b);
    assert InOrder(a, l) && InOrder(b, l) by {
      assert forall i :: 0 <= i < |b| ==> b[i] == c[i];
    }
    if i :| 0 <= i < |c| && HasKey(l, c[i].0) {
      var k := FirstExists(c, l, i);
      assert k < |c| by { FirstInRange(c, l, k); }
      FirstKeyWins(c, l, k);
      if k < |a| {
        AgainSame(a, b, c, l, k);
      } else {
        assert c == b;
        if n :| 0 <= n < |a| && HasKey(l, a[n].0) {
          var n' := FirstExists(a, l, n);
          AgainBehind(a, b, l, k, n');
        } else {
          Untouched(a, l);
        }
      }
    } else {
      assert forall i :: 0 <= i < |b| ==> b[i] == c[i];
      Untouched(a, l);
      Untouched(b, l);
      Untouched(c, l);
    }
  }

  lemma FirstInRange(c: seq<Field>, l: string, k: nat)
    ensures IsFirst(c, l, k) ==> k < |c|
  {}

  lemma InOrderMember(fields: seq<Field>, ls: seq<string>, i: nat)
    requires i < |ls| && AllInOrder(fields, ls)
    ensures InOrder(fields, ls[i])
  {
    assert ls[i] in ls;
  }

  /** Sizing a template again gives what one sizing would have given, with the values of the later
      one and those of the earlier one for a key that the later one lacks. */
  lemma LaterSizingWins(a: seq<Field>, b: seq<Field>, ls: seq<string>)
    requires GoodFields(a) && GoodFields(b) && SameKeys(a, b) && AllInOrder(Later(a, b), ls)
    ensures GoodFields(Later(a, b)) && AllInOrder(a, ls) && AllInOrder(b, SubAll(a, ls))
    ensures SubAll(b, SubAll(a, ls)) == SubAll(Later(a, b), ls)
  {
    hide InOrder, SizeLine, GoodFields, SubAll, Later, SameKeys;
    var c := Later(a, b);
    LaterGood(a, b);
    forall i | 0 <= i < |ls| ensures InOrder(a, ls[i]) {
      InOrderMember(c, ls, i);
      SizeAgain(a, b, ls[i]);
    }
    SubAllByLine(a, ls);
    SubAllByLine(c, ls);
    var out := SizeLines(a, ls);
    forall i | 0 <= i < |ls| ensures InOrder(b, out[i]) && SizeLine(b, out[i]) == SizeLine(c, ls[i]) {
      InOrderMember(c, ls, i);
      SizeLinesAt(a, ls, i);
      SizeAgain(a, b, ls[i]);
    }
    SubAllByLine(b, out);
    forall i | 0 <= i < |ls| ensures SizeLines(b, out)[i] == SizeLines(c, ls)[i] {
      SizeLinesAt(b, out, i);
      SizeLinesAt(c, ls, i);
    }
  }

  /** The later sizing has nothing to change on the line: its value for the first key is the earlier
      one's, or, where the earlier sizing lacks the key, the one that is there. */
  predicate Agrees(a: seq<Field>, c: seq<Field>, l: string) {
    forall k :: 0 <= k < |c| && IsFirst(c, l, k) && Holds(l, c[k].0) ==>
      if k < |a| then c[k].1 == a[k].1 else SetLine(c[k].0, c[k].1, l) == l
  }

  lemma SetLineInjective(key: string, u: string, v: string, l: string)
    requires Holds(l, key)
    ensures SetLine(key, u, l) == SetLine(key, v, l) <==> u == v
  {
    hide Find, Lead, Blank;
    var n := |l| - |After(l, key)| + Lead(Regex, After(l, key));
    assert SetLine(key, u, l)[n..] == u && SetLine(key, v, l)[n..] == v;
  }

  /** A key behind the first one is on the line if that is not set, and gone if it is. */
  lemma LaterKeyTells(f: Field, g: Field, l: string)
    requires GoodField(f) && GoodField(g) && !HasSuffix(g.0, f.0) && Holds(l, f.0) && Holds(l, g.0)
    requires Find(l, g.0, 0) < Find(l, f.0, 0)
    ensures SetLine(f.0, f.1, l) != SetLine(g.0, g.1, l) && SetLine(g.0, g.1, l) != l
  {
    hide Find, HasSuffix, SetLine, Holds, Settles;
    GoodFieldKey(f);
    OthersGone(g, l, f.0);
    SetLineAgain(f.0, f.1, l);
    HoldsHasKey(SetLine(f.0, f.1, l), f.0);
    HoldsHasKey(l, f.0);
  }

  lemma AgreesIff(a: seq<Field>, b: seq<Field>, l: string)
    requires GoodFields(a) && GoodFields(b) && SameKeys(a, b) && InOrder(Later(a, b), l)
    ensures SizeLine(Later(a, b), l) == SizeLine(a, l) <==> Agrees(a, Later(a, b), l)
  {
    hide Find, HasSuffix, SetLine, Holds, HasKey, GoodField, SizeLine, IsFirst;
    var c := Later(a, b);
    LaterGood(a, b);
    if i :| 0 <= i < |c| && HasKey(l, c[i].0) {
      var k := FirstExists(c, l, i);
      FirstInRange(c, l, k);
      FirstKeyWins(c, l, k);
      FirstIsOne(c, l, k);
      if k < |a| {
        FirstOfFewer(a, c, l, k);
        FirstKeyWins(a, l, k);
        SetLineInjective(c[k].0, c[k].1, a[k].1, l);
      } else {
        AgreesBehind(a, c, l, k);
      }
    } else {
      Untouched(a, l);
      Untouched(c, l);
      forall k | 0 <= k < |c| ensures !IsFirst(c, l, k) {
        FirstHasKey(c, l, k);
      }
    }
  }

  lemma AgreesBehind(a: seq<Field>, c: seq<Field>, l: string, k: nat)
    requires GoodFields(a) && GoodFields(c) && InOrder(c, l) && |a| <= k < |c| && IsFirst(c, l, k) && Holds(l, c[k].0)
    requires forall i :: 0 <= i < |a| ==> a[i].0 == c[i].0
    ensures SetLine(c[k].0, c[k].1, l) == SizeLine(a, l) <==> SetLine(c[k].0, c[k].1, l) == l
  {
    hide Find, HasSuffix, SetLine, Holds, HasKey, GoodField, SizeLine, IsFirst;
    assert InOrder(a, l);
    if n :| 0 <= n < |a| && HasKey(l, a[n].0) {
      var j := FirstExists(a, l, n);
      FirstInRange(a, l, j);
      FirstHolds(a, l, j);
      FirstKeyWins(a, l, j);
      HoldsHasKey(l, c[j].0);
      FirstOrder(c, l, k, j);
      assert GoodField(a[j]) && GoodField(c[k]) && !HasSuffix(c[k].0, c[j].0);
      LaterKeyTells(a[j], c[k], l);
    } else {
      Untouched(a, l);
    }
  }

  lemma FirstHasKey(c: seq<Field>, l: string, k: nat)
    ensures IsFirst(c, l, k) ==> k < |c| && HasKey(l, c[k].0)
  {}

  lemma FirstIsOne(c: seq<Field>, l: string, k: nat)
    requires IsFirst(c, l, k)
    ensures forall j :: 0 <= j < |c| && IsFirst(c, l, j) ==> j == k
  {}

  /** A second sizing changes nothing exactly when it agrees with the first on every line. */
  lemma SecondSizing(a: seq<Field>, b: seq<Field>, ls: seq<string>)
    requires GoodFields(a) && GoodFields(b) && SameKeys(a, b) && AllInOrder(Later(a, b), ls)
    ensures SubAll(b, SubAll(a, ls)) == SubAll(a, ls) <==> forall l :: l in ls ==> Agrees(a, Later(a, b), l)
  {
    hide InOrder, SizeLine, GoodFields, SubAll, Later, SameKeys, Agrees;
    var c := Later(a, b);
    LaterSizingWins(a, b, ls);
    SubAllByLine(a, ls);
    SubAllByLine(c, ls);
    forall i | 0 <= i < |ls| ensures SizeLines(c, ls)[i] == SizeLines(a, ls)[i] <==> Agrees(a, c, ls[i]) {
      InOrderMember(c, ls, i);
      SizeLinesAt(a, ls, i);
      SizeLinesAt(c, ls, i);
      AgreesIff(a, b, ls[i]);
    }
    if forall l :: l in ls ==> Agrees(a, c, l) {
      assert forall i :: 0 <= i < |ls| ==> ls[i] in ls;
      assert SizeLines(c, ls) == SizeLines(a, ls);
    }
  }

  // ---------------------------------------------------------------- roles

  const KIND_TEXT := "kind" + ":" + " ProxmoxMachineTemplate"

  /** A machine template whose metadata name contains the role. */
  predicate HasRole(doc: seq<string>, role: string) {
    && (exists l :: l in doc && HasKey(l, KIND_TEXT))
    && R.FirstName(doc, 0).Hit? && HasKey(R.FirstName(doc, 0).name, role)
  }

  function SizeDoc(role: string, h: Sizing, doc: seq<string>): seq<string> {
    if HasRole(doc, role) then SubAll(FieldsOf(h), doc) else doc
  }

  function SizeDocs(role: string, h: Sizing, docs: seq<seq<string>>): (r: seq<seq<string>>)
    ensures |r| == |docs|
  {
    Each(doc => SizeDoc(role, h, doc), docs)
  }

  lemma SizeDocsAt(role: string, h: Sizing, docs: seq<seq<string>>, k: nat)
    requires k < |docs|
    ensures SizeDocs(role, h, docs)[k] == SizeDoc(role, h, docs[k])
  {
    hide SizeDoc;
  }

  method ReplaceFields(fields: seq<Field>, doc: seq<string>) returns (out: seq<string>)
    ensures out == SubAll(fields, doc)
  {
    hide Sub;
    out := doc;
    for i := 0 to |fields|
      invariant SubAll(fields[i..], out) == SubAll(fields, doc)
    {
      assert fields[i..][1..] == fields[i + 1..];
      out := Sub(fields[i].0, fields[i].1, out);
    }
  }

  method SizeOneDoc(role: string, h: Sizing, doc: seq<string>) returns (out: seq<string>)
    ensures out == SizeDoc(role, h, doc)
  {
    hide HasRole, SubAll;
    out := doc;
    if HasRole(doc, role) {
      out := ReplaceFields(FieldsOf(h), doc);
    }
  }

  method PatchPMTBlock(text: seq<string>, role: string, h: Sizing) returns (out: seq<string>)
    requires text != []
    ensures out == JoinDocs(SizeDocs(role, h, SplitDocs(text)))
  {
    hide SizeDoc, SizeDocs;
    var parts := SplitDocs(text);
    ghost var input, want := parts, SizeDocs(role, h, parts);
    var i := 0;
    while i < |parts|
      invariant 0 <= i <= |parts| == |input| == |want|
      invariant forall k :: 0 <= k < i ==> parts[k] == want[k]
      invariant forall k :: i <= k < |parts| ==> parts[k] == input[k]
    {
      SizeDocsAt(role, h, input, i);
      var doc := SizeOneDoc(role, h, parts[i]);
      parts := parts[i := doc];
      i := i + 1;
    }
    assert parts == want;
    out := JoinDocs(parts);
  }

  /** The name lines of the template carry their value, and neither they nor its kind line carry a
      sizing key. */
  predicate PlainName(fields: seq<Field>, doc: seq<string>) {
    forall l :: l in doc && (HasPrefix(l, R.META_NAME) || HasKey(l, KIND_TEXT)) ==>
      (HasPrefix(l, R.META_NAME) ==> !Blank(l[|R.META_NAME|..])) && forall f :: f in fields ==> !HasKey(l, f.0)
  }

  /** Sizing a line does not make it a name line. */
  lemma NoNewName(f: Field, l: string)
    requires GoodField(f) && Holds(l, f.0) && HasPrefix(SetLine(f.0, f.1, l), R.META_NAME)
    ensures HasPrefix(l, R.META_NAME)
  {
    hide Find, Settles, Lead;
    var head, w := SetLineParts(f.0, f.1, l);
    var out := head + w + f.1;
    LinePrefix(f.0, f.1, l);
    assert head[|head| - 1] == ':' by { HeadEnds(f.0, l, head); }
    assert out[|head| - 1] == ':';
    assert |head| >= 7 by {
      if |head| - 1 < 6 {
        PrefixChar(out, R.META_NAME, |head| - 1);
      }
    }
    assert out[..7] == l[..7];
  }

  lemma HeadEnds(key: string, l: string, head: string)
    requires HasKey(l, key) && key != "" && |head| == Find(l, key, 0) + |key| <= |l| && l[..|head|] == head
    ensures head[|head| - 1] == key[|key| - 1]
  {
    var c := Find(l, key, 0);
    assert l[c..][..|key|] == key;
    assert head[|head| - 1] == l[c..][|key| - 1];
  }

  lemma NoKeyStays(fields: seq<Field>, l: string)
    requires forall f :: f in fields ==> !HasKey(l, f.0)
    ensures SizeLine(fields, l) == l
  {
    hide HasKey, SizeLine;
    assert forall i :: 0 <= i < |fields| ==> fields[i] in fields;
    Untouched(fields, l);
  }

  lemma {:induction false} NameFromName(fields: seq<Field>, l: string)
    requires GoodFields(fields) && HasPrefix(SizeLine(fields, l), R.META_NAME)
    ensures HasPrefix(l, R.META_NAME)
  {
    hide HasKey, Holds, SetLine, GoodFields, HasPrefix;
    if fields != [] {
      GoodFieldsTail(fields);
      NameFromName(fields[1..], SetIf(fields[0], l));
      if Holds(l, fields[0].0) {
        NoNewName(fields[0], l);
      }
    }
  }

  /** The name lines of a sized template are those it had. */
  lemma NameLineKept(fields: seq<Field>, doc: seq<string>, i: nat)
    requires GoodFields(fields) && PlainName(fields, doc) && i < |doc|
    ensures var l := SizeLine(fields, doc[i]);
      (HasPrefix(l, R.META_NAME) <==> HasPrefix(doc[i], R.META_NAME))
      && (HasPrefix(doc[i], R.META_NAME) ==> l == doc[i] && !Blank(doc[i][|R.META_NAME|..]))
  {
    hide HasKey, SizeLine, GoodField, Blank;
    assert doc[i] in doc;
    if HasPrefix(doc[i], R.META_NAME) {
      NoKeyStays(fields, doc[i]);
    } else if HasPrefix(SizeLine(fields, doc[i]), R.META_NAME) {
      NameFromName(fields, doc[i]);
    }
  }

  predicate SameMatch(a: R.Match, b: R.Match) { (a.Hit? <==> b.Hit?) && (a.Hit? ==> a.name == b.name) }

  lemma NameOnLine(a: seq<string>, b: seq<string>, i: nat)
    requires i < |a| && i < |b| && (HasPrefix(a[i], R.META_NAME) <==> HasPrefix(b[i], R.META_NAME))
    requires HasPrefix(a[i], R.META_NAME) ==> a[i] == b[i] && !Blank(a[i][|R.META_NAME|..])
    ensures SameMatch(R.NameAt(a, i), R.NameAt(b, i))
  {
    hide Blank, NextNonBlank, Trim;
  }

  lemma {:induction false} FirstNameKept(fields: seq<Field>, doc: seq<string>, i: nat)
    requires GoodFields(fields) && PlainName(fields, doc) && i <= |doc|
    ensures SameMatch(R.FirstName(doc, i), R.FirstName(SizeLines(fields, doc), i))
    decreases |doc| - i
  {
    hide GoodField, SizeLine, PlainName, R.NameAt;
    if i < |doc| {
      SizeLinesAt(fields, doc, i);
      NameLineKept(fields, doc, i);
      NameOnLine(doc, SizeLines(fields, doc), i);
      FirstNameKept(fields, doc, i + 1);
    }
  }

  /** Sizing a template leaves its roles. */
  lemma RoleKept(fields: seq<Field>, doc: seq<string>, role: string, later: string)
    requires GoodFields(fields) && AllInOrder(fields, doc) && PlainName(fields, doc) && HasRole(doc, role)
    ensures HasRole(SubAll(fields, doc), later) <==> HasRole(doc, later)
  {
    hide HasKey, GoodFields, SizeLine, SubAll, R.FirstName, AllInOrder;
    SubAllByLine(fields, doc);
    var out := SizeLines(fields, doc);
    FirstNameKept(fields, doc, 0);
    var l :| l in doc && HasKey(l, KIND_TEXT);
    var i :| 0 <= i < |doc| && doc[i] == l;
    SizeLinesAt(fields, doc, i);
    NoKeyStays(fields, l);
    assert out[i] == l;
  }

  /** A template that is sized with one role and then with another keeps its first sizes exactly when
      its name does not contain the second role, or the two sizings agree on it. A control-plane
      template of a cluster with "worker" in its name is sized as a worker. With one role, this says
      that the patch can be repeated. */
  lemma OverlappingRoles(role: string, h: Sizing, later: string, g: Sizing, doc: seq<string>)
    requires GoodSizing(h) && GoodSizing(g) && HasRole(doc, role)
    requires AllInOrder(Later(FieldsOf(h), FieldsOf(g)), doc) && PlainName(FieldsOf(h), doc)
    ensures SizeDoc(later, g, SizeDoc(role, h, doc)) == SizeDoc(role, h, doc)
      <==> !HasRole(doc, later) || forall l :: l in doc ==> Agrees(FieldsOf(h), Later(FieldsOf(h), FieldsOf(g)), l)
  {
    hide GoodFields, AllInOrder, PlainName, HasRole, SubAll, Agrees, Later;
    FieldsAreGood(h);
    FieldsAreGood(g);
    FieldsSameKeys(h, g);
    hide FieldsOf, SameKeys;
    LaterSizingWins(FieldsOf(h), FieldsOf(g), doc);
    SecondSizing(FieldsOf(h), FieldsOf(g), doc);
    RoleKept(FieldsOf(h), doc, role, later);
  }

  /** Values that stay in their place and cannot be taken for keys; the template may be left out. */
  predicate GoodSizing(h: Sizing) {
    forall f :: f in FieldsOf(h) ==> Settles(f.1) && ':' !in f.1
  }

  /** The keys of the patch are good keys, whatever the values. */
  lemma FieldsAreGood(h: Sizing)
    requires GoodSizing(h)
    ensures GoodFields(FieldsOf(h))
  {
    hide Settles, HasSuffix, FieldsOf;
    var fields := FieldsOf(h);
    forall i | 0 <= i < |fields| ensures GoodField(fields[i]) {
      assert fields[i] in fields;
      TheKeys(h, i);
    }
    forall i, j | 0 <= i < |fields| && 0 <= j < |fields| && i != j ensures !HasSuffix(fields[i].0, fields[j].0) {
      KeysEndApart(h, i, j);
    }
  }

  lemma KeysEndApart(h: Sizing, i: nat, j: nat)
    requires i < |FieldsOf(h)| && j < |FieldsOf(h)| && i != j
    ensures !HasSuffix(FieldsOf(h)[i].0, FieldsOf(h)[j].0)
  {
    hide HasSuffix, GoodKey;
    TheKeys(h, i);
    TheKeys(h, j);
    SuffixLetters(FieldsOf(h)[i].0, FieldsOf(h)[j].0);
  }

  lemma TheKeys(h: Sizing, i: nat)
    requires i < |FieldsOf(h)|
    ensures var key := FieldsOf(h)[i].0; GoodKey(key) && |key| >= (if i == 0 then 5 else 7)
    ensures var key := FieldsOf(h)[i].0; key[0] == 'd' || key[0] == 's' || |key| > 7
    ensures var key := FieldsOf(h)[i].0;
      key[|key| - 2] == ['k', 'b', 's', 's', 'B', 'D'][i] && key[|key| - 3] == ['s', 'G', 't', 'e', 'i', 'I'][i]
  {
    var key := FieldsOf(h)[i].0;
    if i == 5 {
      assert key == "templateID:";
    } else {
      assert key == ["disk:", "sizeGb:", "numSockets:", "numCores:", "memoryMiB:"][i];
    }
  }

  lemma SuffixLetters(a: string, b: string)
    requires |a| >= 3 && |b| >= 3
    ensures HasSuffix(a, b) ==> a[|a| - 2] == b[|b| - 2] && a[|a| - 3] == b[|b| - 3]
  {
    if HasSuffix(a, b) {
      assert a[|a| - |b|..][|b| - 2] == a[|a| - 2] && a[|a| - |b|..][|b| - 3] == a[|a| - 3];
    }
  }

  lemma FieldsSameKeys(h: Sizing, g: Sizing)
    ensures SameKeys(FieldsOf(h), FieldsOf(g))
  {
    assert FieldsOf(h)[..5] == FieldsOf(Sizing(h.disk, h.size, h.sockets, h.cores, h.mem, ""));
  }

  // ---------------------------------------------------------------- a template with both roles

  const BOTH := "control-plane" + "-worker"

  /** A template of a cluster whose name brings the other role in. */
  function BothRoles(disk: string): seq<string> {
    [KIND_TEXT, R.META_NAME + " " + BOTH, "disk:" + " " + disk]
  }

  lemma KeyAlone(l: string, p: nat, key: string)
    requires p < |l| && ':' !in l[..p] && ':' !in l[p + 1..] && GoodKey(key)
    requires p + 1 < |key| || l[p + 1 - |key|] != key[0]
    ensures !HasKey(l, key)
  {
    hide At;
    forall e | 0 <= e < |l| && e != p ensures l[e] != ':' {
      assert l[e] == if e < p then l[..p][e] else l[p + 1..][e - p - 1];
    }
    forall c | 0 <= c <= |l| ensures !At(l, c, key) {
      if At(l, c, key) {
        CharAt(l, c, key, c + |key| - 1);
        CharAt(l, c, key, c);
      }
    }
  }

  lemma KindColon()
    ensures var l := KIND_TEXT; |l| > 4 && l[4] == ':' && l[0] == 'k' && ':' !in l[..4] && ':' !in l[5..]
  {
    ColonBetween("kind", " ProxmoxMachineTemplate");
  }

  lemma ColonBetween(a: string, b: string)
    ensures var l := a + ":" + b; l[|a|] == ':' && l[..|a|] == a && l[|a| + 1..] == b
  {}

  lemma KindKeys(i: nat, h: Sizing)
    requires i < |FieldsOf(h)|
    ensures !HasKey(KIND_TEXT, FieldsOf(h)[i].0)
  {
    KindColon();
    TheKeys(h, i);
    NotOnShort(KIND_TEXT, FieldsOf(h)[i].0);
  }

  lemma NotOnShort(l: string, key: string)
    requires |l| > 4 && l[4] == ':' && l[0] == 'k' && ':' !in l[..4] && ':' !in l[5..]
    requires GoodKey(key) && |key| >= 5 && (key[0] == 'd' || key[0] == 's' || |key| > 7)
    ensures !HasKey(l, key)
  {
    hide HasKey, GoodKey;
    KeyAlone(l, 4, key);
  }

  lemma NameColon()
    ensures var l := R.META_NAME + " " + BOTH;
      && |l| > 6 && l[6] == ':' && l[0] == ' ' && l[1] == ' ' && l[2] == 'n' && ':' !in l[..6] && ':' !in l[7..]
  {
    ColonBetween("  name", " " + BOTH);
    assert R.META_NAME == "  name" + ":";
    assert R.META_NAME + " " + BOTH == "  name" + ":" + (" " + BOTH);
  }

  lemma NameKeys(i: nat, h: Sizing)
    requires i < |FieldsOf(h)|
    ensures !HasKey(R.META_NAME + " " + BOTH, FieldsOf(h)[i].0)
  {
    NameColon();
    TheKeys(h, i);
    NotOnName(R.META_NAME + " " + BOTH, FieldsOf(h)[i].0);
  }

  lemma NotOnName(l: string, key: string)
    requires |l| > 6 && l[6] == ':' && l[0] == ' ' && l[1] == ' ' && l[2] == 'n' && ':' !in l[..6] && ':' !in l[7..]
    requires GoodKey(key) && |key| >= 5 && (key[0] == 'd' || key[0] == 's' || |key| > 7)
    ensures !HasKey(l, key)
  {
    hide HasKey, GoodKey;
    KeyAlone(l, 6, key);
  }

  lemma DiskKeys(i: nat, h: Sizing, disk: string)
    requires 0 < i < |FieldsOf(h)| && GoodKey(FieldsOf(h)[i].0) && ':' !in disk
    ensures !HasKey("disk:" + " " + disk, FieldsOf(h)[i].0)
  {
    hide HasKey, GoodKey;
    var l := "disk:" + " " + disk;
    assert l[..4] == "disk" && l[4] == ':' && l[5..] == " " + disk;
    KeyAlone(l, 4, FieldsOf(h)[i].0);
  }

  lemma DiskHolds(disk: string)
    requires Settles(disk)
    ensures Holds("disk:" + " " + disk, "disk:")
  {
    hide Find, Lead, Blank;
    SettledLead(" ", disk);
    KeyFirst("disk:", " " + disk);
    assert "disk:" + (" " + disk) == "disk:" + " " + disk;
  }

  lemma HasPart(a: string, key: string, b: string)
    ensures HasKey(a + key + b, key)
  {
    assert (a + key + b)[|a|..][..|key|] == key;
    FindLeast(a + key + b, key, |a|);
  }

  lemma BothNamed(disk: string)
    ensures HasRole(BothRoles(disk), "control-plane") && HasRole(BothRoles(disk), "worker")
  {
    hide Find, R.FirstName;
    var doc := BothRoles(disk);
    BothFirstName(disk);
    assert BOTH == "" + "control-plane" + "-worker" && BOTH == "control-plane-" + "worker" + "";
    HasPart("", "control-plane", "-worker");
    HasPart("control-plane-", "worker", "");
    HasPart("", KIND_TEXT, "");
    assert "" + KIND_TEXT + "" == KIND_TEXT;
    assert doc[0] in doc;
  }

  lemma BothFirstName(disk: string)
    ensures R.FirstName(BothRoles(disk), 0).Hit? && R.FirstName(BothRoles(disk), 0).name == BOTH
  {
    hide R.NameAt, SingleToken;
    var doc := BothRoles(disk);
    BothIsToken();
    TemplateLines.NameAtLine(doc, 1, BOTH);
    KindIsNoName(doc);
  }

  lemma KindIsNoName(doc: seq<string>)
    requires doc != [] && doc[0] == KIND_TEXT
    ensures R.NameAt(doc, 0).Miss?
  {
    PrefixChar(KIND_TEXT, R.META_NAME, 0);
  }

  lemma BothIsToken()
    ensures SingleToken(BOTH)
  {}

  lemma BothInOrder(h: Sizing, disk: string)
    requires GoodFields(FieldsOf(h)) && Settles(disk) && ':' !in disk
    ensures AllInOrder(FieldsOf(h), BothRoles(disk))
    ensures SizeLines(FieldsOf(h), BothRoles(disk)) == BothRoles(h.disk)
  {
    hide Find, Lead, Blank, GoodFields, SizeLine, Settles;
    var fields, doc := FieldsOf(h), BothRoles(disk);
    assert fields[0] == ("disk:", h.disk);
    forall i | 0 <= i < |fields| ensures GoodKey(fields[i].0) {
      GoodFieldAt(fields, i);
    }
    forall i | 0 <= i < |fields|
      ensures !HasKey(doc[0], fields[i].0) && !HasKey(doc[1], fields[i].0) && (i > 0 ==> !HasKey(doc[2], fields[i].0))
    {
      KindKeys(i, h);
      NameKeys(i, h);
      if i > 0 {
        DiskKeys(i, h, disk);
      }
    }
    DiskHolds(disk);
    Untouched(fields, doc[0]);
    Untouched(fields, doc[1]);
    OnlyKey(fields, doc[2], 0);
    FirstKeyWins(fields, doc[2], 0);
    DiskSet(h.disk, disk);
    BothSized(fields, doc, h.disk);
  }

  lemma BothSized(fields: seq<Field>, doc: seq<string>, disk: string)
    requires |doc| == 3 && SizeLine(fields, doc[0]) == doc[0] && SizeLine(fields, doc[1]) == doc[1]
    requires SizeLine(fields, doc[2]) == "disk:" + " " + disk && doc[..2] == BothRoles(disk)[..2]
    ensures SizeLines(fields, doc) == BothRoles(disk)
  {
    hide SizeLine;
    var out := SizeLines(fields, doc);
    SizeLinesAt(fields, doc, 0);
    SizeLinesAt(fields, doc, 1);
    SizeLinesAt(fields, doc, 2);
    assert doc[0] == doc[..2][0] && doc[1] == doc[..2][1];
    assert out == [out[0], out[1], out[2]];
  }

  lemma DiskSet(v: string, disk: string)
    requires Settles(disk)
    ensures Holds("disk:" + " " + disk, "disk:") && SetLine("disk:", v, "disk:" + " " + disk) == "disk:" + " " + v
  {
    hide Find, Lead, Blank, SetLine;
    SettledLead(" ", disk);
    SetKeyed("disk:", v, " " + disk);
    assert "disk:" + (" " + disk) == "disk:" + " " + disk;
    assert (" " + disk)[..1] == " ";
  }

  lemma GoodFieldAt(fields: seq<Field>, i: nat)
    requires GoodFields(fields) && i < |fields|
    ensures GoodKey(fields[i].0) && Settles(fields[i].1) && ':' !in fields[i].1
  {
    hide HasSuffix;
    assert GoodField(fields[i]);
  }

  lemma SizeBoth(role: string, h: Sizing, disk: string)
    requires GoodSizing(h) && Settles(disk) && ':' !in disk && role in {"control-plane", "worker"}
    ensures SizeDoc(role, h, BothRoles(disk)) == BothRoles(h.disk)
  {
    hide HasRole, SubAll, GoodFields, AllInOrder, SizeLines, Settles;
    BothNamed(disk);
    FieldsAreGood(h);
    BothInOrder(h, disk);
    SubAllByLine(FieldsOf(h), BothRoles(disk));
  }

  /** On that template the control-plane sizes do not stay: the worker disk replaces the other one. */
  lemma WorkerSizesControlPlane()
    ensures var h, g := Sizing("a", "1", "1", "1", "1", ""), Sizing("b", "1", "1", "1", "1", "");
      var doc := BothRoles("c");
      && SizeDoc("control-plane", h, doc) == BothRoles("a")
      && SizeDoc("worker", g, SizeDoc("control-plane", h, doc)) == BothRoles("b") != BothRoles("a")
  {
    hide SizeDoc;
    SizeBoth("control-plane", Sizing("a", "1", "1", "1", "1", ""), "c");
    SizeBoth("worker", Sizing("b", "1", "1", "1", "1", ""), "a");
    var l, l' := BothRoles("a")[2], BothRoles("b")[2];
    assert l[6] == 'a' && l'[6] == 'b';
  }
}
