/** What the sizing of a machine template writes, line for line (patchPMTBlock in
    internal/capi/manifest/patches.go). */
module SizingLines {
  import opened Text
  import opened MachineSizing
  import R = TemplateRevision

  ghost predicate Contains(l: string, part: string) { exists c :: 0 <= c <= |l| && HasPrefix(l[c..], part) }

  lemma ContainsIs(l: string, part: string)
    ensures HasKey(l, part) <==> Contains(l, part)
  {
    hide HasPrefix;
    if Contains(l, part) {
      var c :| 0 <= c <= |l| && HasPrefix(l[c..], part);
      assert At(l, c, part);
    }
  }

  /** Some line holds the kind, and the value of the first metadata name contains the role. */
  ghost predicate Plays(doc: seq<string>, role: string) {
    && (exists l :: l in doc && Contains(l, "kind: ProxmoxMachineTemplate"))
    && R.FirstName(doc, 0).Hit? && Contains(R.FirstName(doc, 0).name, role)
  }

  lemma KindText()
    ensures KIND_TEXT == "kind: ProxmoxMachineTemplate"
  {
    assert "kind" + ":" == "kind:";
    assert "kind:" + " ProxmoxMachineTemplate" == "kind: ProxmoxMachineTemplate";
  }

  lemma RoleIs(doc: seq<string>, role: string)
    ensures HasRole(doc, role) <==> Plays(doc, role)
  {
    hide HasKey, Contains, R.FirstName, KIND_TEXT;
    KindText();
    forall l { ContainsIs(l, "kind: ProxmoxMachineTemplate"); }
    if R.FirstName(doc, 0).Hit? {
      ContainsIs(R.FirstName(doc, 0).name, role);
    }
  }

  /** A document that does not play the role stays. */
  lemma OthersKeepTheirSizes(role: string, h: Sizing, doc: seq<string>)
    requires !Plays(doc, role)
    ensures SizeDoc(role, h, doc) == doc
  {
    hide HasRole, Plays;
    RoleIs(doc, role);
  }

  /** The sizes as they are written: which value goes with which key. */
  predicate Sets(h: Sizing, key: string, v: string) {
    || (key == "disk:" && v == h.disk)
    || (key == "sizeGb:" && v == h.size)
    || (key == "numSockets:" && v == h.sockets)
    || (key == "numCores:" && v == h.cores)
    || (key == "memoryMiB:" && v == h.mem)
    || (key == "templateID:" && v == h.template && h.template != "")
  }

  lemma FieldIn(h: Sizing, key: string, v: string) returns (k: nat)
    requires Sets(h, key, v)
    ensures k < |FieldsOf(h)| && FieldsOf(h)[k] == (key, v)
  {
    var fields := FieldsOf(h);
    k := if key == "disk:" then 0 else if key == "sizeGb:" then 1 else if key == "numSockets:" then 2
         else if key == "numCores:" then 3 else if key == "memoryMiB:" then 4 else 5;
  }

  lemma FieldSets(h: Sizing, k: nat)
    requires k < |FieldsOf(h)|
    ensures Sets(h, FieldsOf(h)[k].0, FieldsOf(h)[k].1)
  {
  }

  /** No sizing key starts on the line in front of column `n`. */
  ghost predicate NoKeyBefore(h: Sizing, l: string, n: nat) {
    forall c, key, v :: 0 <= c < n && c <= |l| && Sets(h, key, v) ==> !HasPrefix(l[c..], key)
  }

  lemma FoundAt(l: string, n: nat, key: string)
    requires n <= |l| && HasPrefix(l[n..], key) && forall c :: 0 <= c < n ==> !HasPrefix(l[c..], key)
    ensures Find(l, key, 0) == n && HasKey(l, key)
  {
    hide HasPrefix;
    assert At(l, n, key);
  }

  lemma FoundBehind(l: string, n: nat, key: string)
    requires n <= |l| && HasKey(l, key) && forall c :: 0 <= c < n ==> !HasPrefix(l[c..], key)
    ensures Find(l, key, 0) >= n && At(l, Find(l, key, 0), key)
  {
    hide HasPrefix;
  }

  lemma FirstIs(h: Sizing, l: string, n: nat, k: nat)
    requires GoodSizing(h) && k < |FieldsOf(h)| && n <= |l| && HasPrefix(l[n..], FieldsOf(h)[k].0)
    requires NoKeyBefore(h, l, n)
    ensures IsFirst(FieldsOf(h), l, k) && Find(l, FieldsOf(h)[k].0, 0) == n
  {
    hide FieldsOf, HasPrefix, Find, HasKey, GoodField, Settles, HasSuffix, At, GoodKey, Sets;
    var fields := FieldsOf(h);
    FieldsAreGood(h);
    FieldSets(h, k);
    FoundAt(l, n, fields[k].0);
    forall i | 0 <= i < |fields| && i != k && HasKey(l, fields[i].0) ensures n < Find(l, fields[i].0, 0) {
      FieldSets(h, i);
      FoundBehind(l, n, fields[i].0);
      FoundBehind(l, n, fields[k].0);
      if Find(l, fields[i].0, 0) == n {
        FieldGoodKey(fields, i);
        FieldGoodKey(fields, k);
        OneAtAPlace(l, n, fields[k].0, fields[i].0);
        SuffixOfItself(fields[k].0);
      }
    }
  }

  lemma SuffixOfItself(key: string)
    ensures HasSuffix(key, key)
  {
  }

  lemma FieldGoodKey(fields: seq<Field>, i: nat)
    requires GoodFields(fields) && i < |fields|
    ensures GoodKey(fields[i].0)
  {
    hide GoodKey, Settles, HasSuffix;
    assert GoodField(fields[i]);
  }

  /** What becomes of a line of a template that plays the role: behind the first sizing key stands the
      size for that key, and nothing else; a line without a sizing key stays. */
  lemma SizedLine(role: string, h: Sizing, doc: seq<string>, i: nat, head: string, key: string, lead: string,
    rest: string, v: string)
    requires Plays(doc, role) && GoodSizing(h) && AllInOrder(FieldsOf(h), doc) && i < |doc|
    ensures |SizeDoc(role, h, doc)| == |doc|
    ensures NoKeyBefore(h, doc[i], |doc[i]| + 1) ==> SizeDoc(role, h, doc)[i] == doc[i]
    ensures (&& doc[i] == head + key + lead + rest && Sets(h, key, v) && NoKeyBefore(h, doc[i], |head|)
             && AllWhite(Regex, lead) && rest != "" && !White(Regex, rest[0])) ==>
      SizeDoc(role, h, doc)[i] == head + key + lead + v
  {
    hide Plays, HasRole, GoodSizing, FieldsOf, AllInOrder, SizeLine, SubAll, Sets, NoKeyBefore, GoodFields, InOrder;
    hide HasPrefix, IsFirst, SetLine, Holds;
    RoleIs(doc, role);
    FieldsAreGood(h);
    var l := doc[i];
    SubAllByLine(FieldsOf(h), doc);
    SizeLinesAt(FieldsOf(h), doc, i);
    InOrderAt(FieldsOf(h), doc, i);
    if NoKeyBefore(h, l, |l| + 1) {
      NoKeyAtAll(h, l);
      Untouched(FieldsOf(h), l);
    }
    if l == head + key + lead + rest && Sets(h, key, v) && NoKeyBefore(h, l, |head|)
      && AllWhite(Regex, lead) && rest != "" && !White(Regex, rest[0])
    {
      var k := FieldIn(h, key, v);
      KeyThere(head, key, lead + rest);
      assert l == head + key + (lead + rest);
      FirstIs(h, l, |head|, k);
      FirstKeyWins(FieldsOf(h), l, k);
      SetBehind(head, key, lead, rest, v);
    }
  }

  lemma InOrderAt(fields: seq<Field>, doc: seq<string>, i: nat)
    requires AllInOrder(fields, doc) && i < |doc|
    ensures InOrder(fields, doc[i])
  {
    hide InOrder;
  }

  lemma NoKeyAtAll(h: Sizing, l: string)
    requires NoKeyBefore(h, l, |l| + 1)
    ensures forall k :: 0 <= k < |FieldsOf(h)| ==> !HasKey(l, FieldsOf(h)[k].0)
  {
    hide FieldsOf, HasPrefix, Sets;
    forall k | 0 <= k < |FieldsOf(h)| ensures !HasKey(l, FieldsOf(h)[k].0) {
      FieldSets(h, k);
    }
  }

  lemma KeyThere(head: string, key: string, rest: string)
    ensures HasPrefix((head + key + rest)[|head|..], key)
  {
    assert (head + key + rest)[|head|..] == key + rest;
  }

  lemma SetBehind(head: string, key: string, lead: string, rest: string, v: string)
    requires AllWhite(Regex, lead) && rest != "" && !White(Regex, rest[0])
    requires var l := head + key + lead + rest; Holds(l, key) && Find(l, key, 0) == |head|
    ensures SetLine(key, v, head + key + lead + rest) == head + key + lead + v
  {
    hide Lead, Find;
    var l := head + key + lead + rest;
    var r := After(l, key);
    assert r == lead + rest;
    LeadIs(Regex, lead, rest);
    assert l[..|l| - |r| + |lead|] == head + key + lead;
  }

  // ---------------------------------------------------------------- one substitution

  ghost predicate FirstAt(l: string, n: nat, key: string) {
    n <= |l| && HasPrefix(l[n..], key) && forall c :: 0 <= c < n ==> !HasPrefix(l[c..], key)
  }

  ghost predicate Without(l: string, key: string) { forall c :: 0 <= c <= |l| ==> !HasPrefix(l[c..], key) }

  lemma WithoutIs(l: string, key: string)
    requires Without(l, key)
    ensures !HasKey(l, key)
  {
    hide HasPrefix;
  }

  /** Lines without the key stay. */
  lemma {:induction false} LinesAbove(key: string, v: string, a: seq<string>, ls: seq<string>)
    requires forall k :: 0 <= k < |a| ==> Without(a[k], key)
    ensures Sub(key, v, a + ls) == a + Sub(key, v, ls)
  {
    hide Sub, Without;
    if a == [] {
      assert a + ls == ls && a + Sub(key, v, ls) == Sub(key, v, ls);
    } else {
      WithoutIs(a[0], key);
      LinesAbove(key, v, a[1..], ls);
      SubLacks(key, v, a[0], a[1..] + ls);
      assert a + ls == [a[0]] + (a[1..] + ls);
      assert a + Sub(key, v, ls) == [a[0]] + (a[1..] + Sub(key, v, ls));
    }
  }

  /** A value on the line of its key is replaced, up to the end of the line. */
  lemma ValueOnLine(key: string, v: string, head: string, w: string, rest: string, more: seq<string>)
    requires FirstAt(head + key + w + rest, |head|, key)
    requires AllWhite(Regex, w) && rest != "" && !White(Regex, rest[0])
    ensures Sub(key, v, [head + key + w + rest] + more) == [head + key + w + v] + Sub(key, v, more)
  {
    hide Sub, SetLine, Lead, Find;
    var l := head + key + w + rest;
    FoundAt(l, |head|, key);
    assert l[|head| + |key|..] == w + rest;
    LeadFull(Regex, w + rest);
    assert (w + rest)[|w|] == rest[0];
    SubHolds(key, v, l, more);
    SetBehind(head, key, w, rest, v);
  }

  /** A value on a later line is replaced there: on the first one that is not white. */
  lemma ValueOnLaterLine(key: string, v: string, head: string, w: string, blanks: seq<string>, lead: string,
    rest: string, more: seq<string>)
    requires FirstAt(head + key + w, |head|, key)
    requires AllWhite(Regex, w) && AllWhite(Regex, lead) && rest != "" && !White(Regex, rest[0])
    requires forall k :: 0 <= k < |blanks| ==> AllWhite(Regex, blanks[k])
    ensures Sub(key, v, [head + key + w] + blanks + [lead + rest] + more)
      == [head + key + w] + blanks + [lead + v] + Sub(key, v, more)
  {
    hide Sub, Lead, Find;
    var l, j := head + key + w, |blanks| + 1;
    var ls := [l] + blanks + [lead + rest] + more;
    FoundAt(l, |head|, key);
    assert l[|head| + |key|..] == w;
    LeadFull(Regex, w);
    forall k | 1 <= k < j ensures Blank(ls[k]) {
      assert ls[k] == blanks[k - 1];
      LeadFull(Regex, ls[k]);
    }
    LeadIs(Regex, lead, rest);
    assert (lead + rest)[..|lead|] == lead;
    assert ls[j] == lead + rest && ls[..j] == [l] + blanks && ls[j + 1..] == more;
    SubBelow(key, v, ls, j);
  }

  /** Where only white space follows the key, the last character of it takes the place of the value. */
  lemma NoValue(key: string, v: string, head: string, w: string, blanks: seq<string>, t: nat)
    requires FirstAt(head + key + w, |head|, key) && AllWhite(Regex, w)
    requires forall k :: 0 <= k < |blanks| ==> AllWhite(Regex, blanks[k])
    ensures var ls := [head + key + w] + blanks;
      && ((w == "" && forall k :: 0 <= k < |blanks| ==> blanks[k] == "") ==> Sub(key, v, ls) == ls)
      && (t < |ls| && ls[t] != "" && (t == 0 ==> w != "") && (forall k :: t < k < |ls| ==> ls[k] == "") ==>
            Sub(key, v, ls) == ls[t := ls[t][..|ls[t]| - 1] + v])
  {
    hide Sub, Lead, Find;
    var l := head + key + w;
    var ls := [l] + blanks;
    FoundAt(l, |head|, key);
    assert l[|head| + |key|..] == w;
    LeadFull(Regex, w);
    forall k | 1 <= k < |ls| ensures Blank(ls[k]) {
      assert ls[k] == blanks[k - 1];
      LeadFull(Regex, ls[k]);
    }
    EndBlank(key, v, ls);
  }
}
