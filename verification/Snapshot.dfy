/** The configuration snapshot and its overlays (internal/config/snapshot.go, yaml.go). A slot of
    the configuration is named by the key that sets it. */
module Snapshot {
  import opened Wrappers
  import opened Numbers
  import opened AppList
  import T = Text

  /** A configuration value. The constructor is the codec the field uses. */
  datatype Value = Str(s: string) | Flag(on: bool) | Count(n: int) | Apps(groups: seq<AppGroup>)

  /** One row of the schema; `guard` is the name of its explicit flag, or empty. */
  datatype Field = Field(env: string, guard: string)

  type Slots = map<string, Value>
  type KV = map<string, string>

  // ---------------------------------------------------------------- the codecs

  function Get(v: Value): string {
    match v
    case Str(s) => s
    case Flag(on) => if on then "true" else "false"
    case Count(n) => if n <= 0 then "" else Itoa(n)
    case Apps(groups) => Print(groups)
  }

  const YES: set<string> := {"1", "true", "yes", "y", "on"}
  const NO: set<string> := {"0", "false", "no", "n", "off"}

  function Set(v: Value, text: string): Value {
    match v
    case Str(_) => Str(text)
    case Flag(_) =>
      var word := T.Lower(T.Trim(T.Unicode, text));
      if word in YES then Flag(true) else if word in NO then Flag(false) else v
    case Count(_) =>
      var n := Atoi(T.Trim(T.Unicode, text));
      if n.Some? && n.value > 0 then Count(n.value) else v
    case Apps(groups) => Apps(Reread(groups, text))
  }

  predicate SameCodec(a: Value, b: Value) {
    (a.Str? <==> b.Str?) && (a.Flag? <==> b.Flag?) && (a.Count? <==> b.Count?) && (a.Apps? <==> b.Apps?)
  }

  /** The counts fit Go's int, and every printed template is one word. */
  ghost predicate Storable(v: Value) {
    (v.Count? ==> v.n <= MAX) && (v.Apps? ==> forall g :: g in v.groups && Printable(g) ==> OneToken(g))
  }

  /** What is left of `v` after printing and reading it over `before`: everything, except for the
      groups that do not survive. */
  function Normal(v: Value, before: Value): Value
    requires Storable(v)
  {
    match v
    case Apps(groups) => if Survivors(groups) == [] then before else Apps(Survivors(groups))
    case _ => v
  }

  lemma SetOfGet(before: Value, v: Value)
    requires SameCodec(before, v) && Storable(v) && Get(v) != ""
    ensures Set(before, Get(v)) == Normal(v, before)
  {
    match v {
      case Str(_) =>
      case Flag(on) => FlagWords();
      case Count(n) =>
        hide Itoa, Atoi, T.Trim;
        AtoiOfItoa(n);
        TrimNumber(n);
      case Apps(groups) =>
        hide Reread, Print, Survivors, OneToken, Printable;
        ReadBack(before.groups, groups);
    }
  }

  lemma TrimClean(s: string)
    requires s != "" && T.NoWhite(T.Unicode, s)
    ensures T.Trim(T.Unicode, s) == s
  {
    hide T.Lead, T.Trail, T.Trim;
    T.TrimPadded(T.Unicode, "", s, "");
    assert "" + s + "" == s;
  }

  lemma TrimNumber(n: nat)
    ensures T.Trim(T.Unicode, Itoa(n)) == Itoa(n)
  {
    hide Itoa, Decimal, T.Trim;
    ItoaDigits(n);
    DigitsAreClean(Itoa(n));
    TrimClean(Itoa(n));
  }

  /** Which values are printed, and as what: a count that is not positive is printed as nothing, and a
      positive one as its number. */
  lemma PrintsAs(s: string, on: bool, n: int)
    ensures Get(Str(s)) == s && Get(Flag(on)) == (if on then "true" else "false")
    ensures Get(Count(n)) == "" <==> n <= 0
    ensures 0 < n <= MAX ==> Atoi(Get(Count(n))) == Some(n)
  {
    hide Itoa, Atoi;
    if 0 < n <= MAX {
      AtoiOfItoa(n);
    }
  }

  /** A flag is read off a word in any case, with white space around it; any other text leaves it. */
  lemma FlagReads(on: bool, pre: string, word: string, post: string)
    requires T.AllWhite(T.Unicode, pre) && T.AllWhite(T.Unicode, post) && T.Solid(T.Unicode, word)
    ensures var out, w := Set(Flag(on), pre + word + post), T.Lower(word);
      && (w in {"1", "true", "yes", "y", "on"} ==> out == Flag(true))
      && (w in {"0", "false", "no", "n", "off"} ==> out == Flag(false))
      && (w !in {"1", "true", "yes", "y", "on", "0", "false", "no", "n", "off"} ==> out == Flag(on))
  {
    hide T.Lower, T.Trim;
    T.TrimPadded(T.Unicode, pre, word, post);
  }

  /** A count is read off a positive number; zero leaves it. */
  lemma CountReads(n: int, pre: string, m: nat, post: string)
    requires T.AllWhite(T.Unicode, pre) && T.AllWhite(T.Unicode, post) && m <= MAX
    ensures Set(Count(n), pre + Itoa(m) + post) == Count(if m > 0 then m else n)
  {
    hide Itoa, Atoi, T.Trim;
    AtoiOfItoa(m);
    ItoaDigits(m);
    DigitsAreClean(Itoa(m));
    T.TrimPadded(T.Unicode, pre, Itoa(m), post);
  }

  lemma FlagWords()
    ensures T.Lower(T.Trim(T.Unicode, "true")) == "true" && T.Lower(T.Trim(T.Unicode, "false")) == "false"
    ensures "true" !in NO && "false" !in YES
  {
    hide T.Lower, T.Trim;
    TrimClean("true");
    TrimClean("false");
    LowerLetters("true");
    LowerLetters("false");
  }

  lemma SetTwice(v: Value, text: string)
    ensures Set(Set(v, text), text) == Set(v, text)
    ensures SameCodec(Set(v, text), v)
  {
    hide T.Lower, T.Trim, Atoi, Tokens, ParsePairs;
  }

  // ---------------------------------------------------------------- the snapshot

  /** The index over the schema: a later row takes the place of an earlier one. */
  function FieldAt(schema: seq<Field>, key: string): Option<Field> {
    if schema == [] then None
    else if schema[|schema| - 1].env == key then Some(schema[|schema| - 1])
    else FieldAt(schema[..|schema| - 1], key)
  }

  /** Row `i` is the one the key stands for. */
  predicate LastRow(schema: seq<Field>, i: int, key: string) {
    0 <= i < |schema| && schema[i].env == key && forall j :: i < j < |schema| ==> schema[j].env != key
  }

  lemma {:induction false} IndexIs(schema: seq<Field>, key: string)
    ensures forall i :: LastRow(schema, i, key) ==> FieldAt(schema, key) == Some(schema[i])
    ensures FieldAt(schema, key).Some? ==> exists i :: LastRow(schema, i, key)
  {
    if schema != [] {
      var n := |schema| - 1;
      if schema[n].env == key {
        assert LastRow(schema, n, key);
      } else {
        IndexIs(schema[..n], key);
        forall i | LastRow(schema, i, key) ensures FieldAt(schema, key) == Some(schema[i]) {
          assert LastRow(schema[..n], i, key);
        }
        if FieldAt(schema, key).Some? {
          var i :| LastRow(schema[..n], i, key);
          assert LastRow(schema, i, key);
        }
      }
    }
  }

  ghost predicate HasSlots(schema: seq<Field>, slots: Slots) {
    forall f :: f in schema ==> f.env in slots
  }

  /** The lines of the snapshot: the fields that are not empty, in the order of the schema. */
  function Lines(schema: seq<Field>, slots: Slots): seq<(string, string)>
    requires HasSlots(schema, slots)
  {
    if schema == [] then []
    else
      var n := |schema| - 1;
      assert schema[n] in schema;
      var v := Get(slots[schema[n].env]);
      Lines(schema[..n], slots) + (if v == "" then [] else [(schema[n].env, v)])
  }

  /** The lines as a map, as they are read back. */
  function AsMap(lines: seq<(string, string)>): KV {
    if lines == [] then map[]
    else AsMap(lines[..|lines| - 1])[lines[|lines| - 1].0 := lines[|lines| - 1].1]
  }

  lemma AsMapMore(lines: seq<(string, string)>, key: string, v: string)
    ensures AsMap(lines + [(key, v)]) == AsMap(lines)[key := v]
  {
    assert (lines + [(key, v)])[..|lines|] == lines;
  }

  lemma {:induction false} LinesAreFields(schema: seq<Field>, slots: Slots, key: string)
    requires HasSlots(schema, slots)
    ensures var kv := AsMap(Lines(schema, slots));
      && (key in kv <==> FieldAt(schema, key).Some? && key in slots && Get(slots[key]) != "")
      && (key in kv ==> key in slots && kv[key] == Get(slots[key]))
  {
    hide Get;
    if schema != [] {
      var n := |schema| - 1;
      LinesAreFields(schema[..n], slots, key);
      var v := Get(slots[schema[n].env]);
      var before := Lines(schema[..n], slots);
      assert Lines(schema, slots) == before + (if v == "" then [] else [(schema[n].env, v)]);
      AsMapMore(before, schema[n].env, v);
      assert before + [] == before;
      assert schema[n] in schema;
    }
  }

  // ---------------------------------------------------------------- the overlay

  /** The overlay may write this slot. */
  predicate Open(schema: seq<Field>, explicit: set<string>, key: string) {
    var f := FieldAt(schema, key);
    f.Some? && !(f.value.guard != "" && f.value.guard in explicit)
  }

  function SlotAfter(schema: seq<Field>, explicit: set<string>, kv: KV, key: string, v: Value): Value {
    if key in kv && kv[key] != "" && Open(schema, explicit, key) then Set(v, kv[key]) else v
  }

  /** What the overlay of a key-value map makes of the slots: each one on its own. */
  function Overlaid(schema: seq<Field>, explicit: set<string>, kv: KV, slots: Slots): Slots {
    map k | k in slots :: SlotAfter(schema, explicit, kv, k, slots[k])
  }

  /** One slot under the overlay: the last row for its key decides. If the guard of that row is set
      explicitly, or there is no row, or the map has nothing for the key, the slot stays; otherwise it
      takes the value of the map. */
  lemma OverlaySlot(schema: seq<Field>, explicit: set<string>, kv: KV, slots: Slots, k: string)
    requires k in slots
    ensures var out := Overlaid(schema, explicit, kv, slots);
      && k in out
      && (k !in kv || kv[k] == "" ==> out[k] == slots[k])
      && ((forall i :: !LastRow(schema, i, k)) ==> out[k] == slots[k])
      && (forall i | LastRow(schema, i, k) && schema[i].guard != "" && schema[i].guard in explicit ::
            out[k] == slots[k])
      && (forall i | LastRow(schema, i, k) && (schema[i].guard == "" || schema[i].guard !in explicit) ::
            k in kv && kv[k] != "" ==> out[k] == Set(slots[k], kv[k]))
  {
    hide Set, FieldAt;
    IndexIs(schema, k);
  }

  /** Applying a snapshot of `c` to any `d`: explicitly set fields, fields without a row, and fields
      that are empty in `c` stay as they were in `d`; every other field gets the value it has in `c`. */
  lemma Restore(schema: seq<Field>, c: Slots, d: Slots, explicit: set<string>, k: string)
    requires HasSlots(schema, c) && k in c && k in d && SameCodec(d[k], c[k]) && Storable(c[k])
    ensures var out := Overlaid(schema, explicit, AsMap(Lines(schema, c)), d);
      && k in out
      && (Get(c[k]) == "" ==> out[k] == d[k])
      && ((forall i :: !LastRow(schema, i, k)) ==> out[k] == d[k])
      && (forall i | LastRow(schema, i, k) && schema[i].guard != "" && schema[i].guard in explicit ::
            out[k] == d[k])
      && (forall i | LastRow(schema, i, k) && (schema[i].guard == "" || schema[i].guard !in explicit) ::
            Get(c[k]) != "" ==> out[k] == Normal(c[k], d[k]))
  {
    hide Get, Set, Normal, Storable, SameCodec, FieldAt, Overlaid;
    var kv := AsMap(Lines(schema, c));
    LinesAreFields(schema, c, k);
    IndexIs(schema, k);
    OverlaySlot(schema, explicit, kv, d, k);
    if Get(c[k]) != "" {
      SetOfGet(d[k], c[k]);
    }
  }

  /** A second overlay of the same map changes nothing. */
  lemma OverlayTwice(schema: seq<Field>, explicit: set<string>, kv: KV, slots: Slots)
    ensures Overlaid(schema, explicit, kv, Overlaid(schema, explicit, kv, slots))
      == Overlaid(schema, explicit, kv, slots)
  {
    hide Set, SameCodec;
    forall k | k in slots && k in kv ensures Set(Set(slots[k], kv[k]), kv[k]) == Set(slots[k], kv[k]) {
      SetTwice(slots[k], kv[k]);
    }
  }

  // ---------------------------------------------------------------- keys outside the schema

  /** Keys that only a configuration file sets. Each one writes the slot of its own name. */
  const PLAIN: set<string> := {
    "INFRA_PROVIDER", "BOOTSTRAP_MODE", "PROXMOX_CAPI_TOKEN", "PROXMOX_CAPI_SECRET",
    "PROXMOX_ADMIN_TOKEN", "PROXMOX_ADMIN_USERNAME", "PROXMOX_CSI_TOKEN_ID",
    "PROXMOX_CSI_TOKEN_SECRET", "PROXMOX_CSI_USER_ID", "PROXMOX_CAPI_USER_ID", "HCLOUD_TOKEN",
    "VSPHERE_USERNAME", "VSPHERE_PASSWORD", "DIGITALOCEAN_TOKEN", "IBMCLOUD_API_KEY",
    "GOOGLE_BILLING_API_KEY"}

  /** The former name of a slot; it writes only a slot that is empty. */
  function Former(slot: string): string {
    if slot == "PROXMOX_CAPI_TOKEN" then "PROXMOX_TOKEN"
    else if slot == "PROXMOX_CAPI_SECRET" then "PROXMOX_SECRET"
    else ""
  }

  function SlotOfFormer(key: string): string {
    if key == "PROXMOX_TOKEN" then "PROXMOX_CAPI_TOKEN"
    else if key == "PROXMOX_SECRET" then "PROXMOX_CAPI_SECRET"
    else ""
  }

  /** All slots are there, and the ones written here hold text. */
  predicate HasExtras(slots: Slots) { forall k :: k in PLAIN ==> k in slots && slots[k].Str? }

  /** One setter of the table. */
  function SetExtra(slots: Slots, key: string, v: string): Slots
    requires HasExtras(slots)
  {
    if v == "" then slots
    else if key in PLAIN then slots[key := Str(v)]
    else if SlotOfFormer(key) != "" then
      if slots[SlotOfFormer(key)] == Str("") then slots[SlotOfFormer(key) := Str(v)] else slots
    else slots
  }

  predicate Given(kv: KV, key: string) { key in kv && kv[key] != "" }

  /** The new name if it is given, else what is there, else the former name. */
  function ExtraAfter(kv: KV, key: string, v: Value): Value {
    if key !in PLAIN then v
    else if Given(kv, key) then Str(kv[key])
    else if v == Str("") && Given(kv, Former(key)) && Former(key) != "" then Str(kv[Former(key)])
    else v
  }

  function Extended(kv: KV, slots: Slots): Slots { map k | k in slots :: ExtraAfter(kv, k, slots[k]) }

  /** Which keys outside the schema a file sets, and how: sixteen of them by their own names, and two
      of these by a former name that only fills an empty slot. */
  lemma ExtrasAre(kv: KV, slots: Slots, k: string)
    requires HasExtras(slots) && k in slots
    ensures var out := Extended(kv, slots);
      var own := k in {"INFRA_PROVIDER", "BOOTSTRAP_MODE", "PROXMOX_CAPI_TOKEN", "PROXMOX_CAPI_SECRET",
        "PROXMOX_ADMIN_TOKEN", "PROXMOX_ADMIN_USERNAME", "PROXMOX_CSI_TOKEN_ID", "PROXMOX_CSI_TOKEN_SECRET",
        "PROXMOX_CSI_USER_ID", "PROXMOX_CAPI_USER_ID", "HCLOUD_TOKEN", "VSPHERE_USERNAME", "VSPHERE_PASSWORD",
        "DIGITALOCEAN_TOKEN", "IBMCLOUD_API_KEY", "GOOGLE_BILLING_API_KEY"};
      && k in out
      && (!own ==> out[k] == slots[k])
      && (own && k in kv && kv[k] != "" ==> out[k] == Str(kv[k]))
      && (own && (k !in kv || kv[k] == "") && k !in {"PROXMOX_CAPI_TOKEN", "PROXMOX_CAPI_SECRET"} ==>
            out[k] == slots[k])
  {
  }

  lemma ExtendedKeeps(kv: KV, slots: Slots)
    requires HasExtras(slots)
    ensures HasExtras(Extended(kv, slots))
  {}

  lemma Names(key: string)
    ensures SlotOfFormer(key) != "" ==>
      SlotOfFormer(key) in PLAIN && Former(SlotOfFormer(key)) == key && key !in PLAIN && key != ""
    ensures Former(key) != "" ==> SlotOfFormer(Former(key)) == key && Former(key) !in PLAIN && key != ""
  {}

  /** One more key, at any place in the order, has the effect of one more entry of the map. */
  lemma OneMoreKey(done: KV, key: string, v: string, slots: Slots)
    requires HasExtras(slots) && key !in done
    ensures HasExtras(Extended(done, slots))
    ensures SetExtra(Extended(done, slots), key, v) == Extended(done[key := v], slots)
  {
    hide PLAIN, Former, SlotOfFormer;
    ExtendedKeeps(done, slots);
    var a, b := SetExtra(Extended(done, slots), key, v), Extended(done[key := v], slots);
    Names(key);
    assert a.Keys == b.Keys;
    forall j | j in slots ensures a[j] == b[j] {
      Names(j);
      OneMoreForSlot(done, key, v, slots, j);
    }
  }

  lemma OneMoreForSlot(done: KV, key: string, v: string, slots: Slots, j: string)
    requires HasExtras(slots) && key !in done && j in slots && HasExtras(Extended(done, slots))
    ensures j in SetExtra(Extended(done, slots), key, v)
    ensures SetExtra(Extended(done, slots), key, v)[j] == ExtraAfter(done[key := v], j, slots[j])
  {
    hide PLAIN, Former, SlotOfFormer;
    Names(key);
    Names(j);
    assert j in PLAIN ==> slots[j].Str?;
    assert forall k :: k != key ==> (Given(done[key := v], k) <==> Given(done, k));
    assert Given(done[key := v], key) <==> v != "";
    var x := ExtraAfter(done, j, slots[j]);
    assert Extended(done, slots)[j] == x;
    if j in PLAIN && key == Former(j) && key != "" {
      assert SlotOfFormer(key) == j && key !in PLAIN && key != j;
      assert Given(done, j) ==> x != Str("");
      assert !Given(done, j) ==> x == slots[j];
    }
  }

  // ---------------------------------------------------------------- the configuration

  /** What reading the configuration file gives. */
  datatype File = NoPath | Unreadable | Malformed | Parsed(kv: KV)

  class Config {
    const schema: seq<Field>
    var slots: Slots
    var explicit: set<string>

    ghost predicate Valid() reads this { HasSlots(schema, slots) && HasExtras(slots) }

    method SnapshotLines() returns (lines: seq<(string, string)>)
      requires Valid()
      ensures lines == Lines(schema, slots)
    {
      lines := [];
      for i := 0 to |schema|
        invariant HasSlots(schema[..i], slots) && lines == Lines(schema[..i], slots)
      {
        assert schema[..i + 1][..i] == schema[..i];
        assert schema[i] in schema;
        var v := Get(slots[schema[i].env]);
        if v == "" {
          continue;
        }
        lines := lines + [(schema[i].env, v)];
      }
      assert schema[..|schema|] == schema;
    }

    method BuildIndex() returns (index: map<string, Field>)
      ensures forall k :: k in index <==> FieldAt(schema, k).Some?
      ensures forall k :: k in index ==> FieldAt(schema, k) == Some(index[k])
    {
      index := map[];
      for i := 0 to |schema|
        invariant forall k :: k in index <==> FieldAt(schema[..i], k).Some?
        invariant forall k :: k in index ==> FieldAt(schema[..i], k) == Some(index[k])
      {
        assert schema[..i + 1][..i] == schema[..i];
        index := index[schema[i].env := schema[i]];
      }
      assert schema[..|schema|] == schema;
    }

    /** The keys of the map are visited in any order. */
    method ApplySnapshotKV(kv: KV)
      requires Valid()
      modifies this`slots
      ensures Valid()
      ensures slots == Overlaid(schema, explicit, kv, old(slots))
      ensures slots.Keys == old(slots).Keys
      ensures forall k :: k in slots && (k !in kv || kv[k] == "" || forall i :: !LastRow(schema, i, k)) ==>
        slots[k] == old(slots)[k]
      ensures forall k, i :: k in slots && LastRow(schema, i, k) && k in kv && kv[k] != "" ==>
        slots[k] == if schema[i].guard != "" && schema[i].guard in explicit then old(slots)[k]
                    else Set(old(slots)[k], kv[k])
    {
      hide PLAIN, Set, FieldAt;
      var locked := explicit;
      var index := BuildIndex();
      var rest := kv.Keys;
      ghost var done: KV := map[];
      while rest != {}
        invariant rest <= kv.Keys
        invariant done == map k | k in kv && k !in rest :: kv[k]
        invariant slots == Overlaid(schema, explicit, done, old(slots))
        decreases rest
      {
        var k :| k in rest;
        rest := rest - {k};
        OneMoreField(schema, explicit, done, k, kv[k], old(slots));
        done := done[k := kv[k]];
        if k !in index || kv[k] == "" {
          continue;
        }
        if index[k].guard != "" && index[k].guard in locked {
          continue;
        }
        if k in slots {
          slots := slots[k := Set(slots[k], kv[k])];
        }
      }
      assert done == kv;
      OverlayKeepsExtras(schema, explicit, kv, old(slots));
      forall k | k in old(slots)
        ensures k in slots && (k !in kv || kv[k] == "" || (forall i :: !LastRow(schema, i, k)) ==>
          slots[k] == old(slots)[k])
      {
        OverlaySlot(schema, explicit, kv, old(slots), k);
      }
      forall k, i | k in old(slots) && LastRow(schema, i, k) && k in kv && kv[k] != ""
        ensures k in slots && 0 <= i < |schema|
        ensures slots[k] == if schema[i].guard != "" && schema[i].guard in explicit then old(slots)[k]
                            else Set(old(slots)[k], kv[k])
      {
        OverlaySlot(schema, explicit, kv, old(slots), k);
      }
    }

    /** The setters outside the schema, for the keys of the map in any order. */
    method ApplyExtras(kv: KV)
      requires Valid()
      modifies this`slots
      ensures Valid()
      ensures slots == Extended(kv, old(slots))
    {
      hide PLAIN, Former, SlotOfFormer;
      var rest := kv.Keys;
      ghost var done: KV := map[];
      while rest != {}
        invariant rest <= kv.Keys && Valid()
        invariant done == map k | k in kv && k !in rest :: kv[k]
        invariant slots == Extended(done, old(slots))
        decreases rest
      {
        var k :| k in rest;
        rest := rest - {k};
        OneMoreKey(done, k, kv[k], old(slots));
        ExtendedKeeps(done[k := kv[k]], old(slots));
        done := done[k := kv[k]];
        if kv[k] == "" {
          continue;
        }
        slots := SetExtra(slots, k, kv[k]);
      }
      assert done == kv;
    }

    /** Reading a configuration file. */
    method ApplyYAMLFile(file: File) returns (ok: bool)
      requires Valid()
      modifies this`slots
      ensures Valid()
      ensures ok <==> file.NoPath? || file.Parsed?
      ensures !file.Parsed? ==> slots == old(slots)
      ensures file.Parsed? ==> slots == Extended(file.kv, Overlaid(schema, explicit, file.kv, old(slots)))
    {
      match file {
        case NoPath => ok := true;
        case Unreadable => ok := false;
        case Malformed => ok := false;
        case Parsed(kv) =>
          ApplySnapshotKV(kv);
          ApplyExtras(kv);
          ok := true;
      }
    }
  }

  /** The alias rule, after a whole configuration file: the new name if it is given, else what was
      there, else the former name. It needs that the snapshot does not hold credentials. */
  lemma AliasRule(schema: seq<Field>, explicit: set<string>, kv: KV, slots: Slots, slot: string)
    requires HasExtras(slots) && slot in {"PROXMOX_CAPI_TOKEN", "PROXMOX_CAPI_SECRET"}
    requires FieldAt(schema, slot) == None
    ensures slot in slots && HasExtras(Overlaid(schema, explicit, kv, slots))
    ensures var former := if slot == "PROXMOX_CAPI_TOKEN" then "PROXMOX_TOKEN" else "PROXMOX_SECRET";
      Extended(kv, Overlaid(schema, explicit, kv, slots))[slot]
      == if slot in kv && kv[slot] != "" then Str(kv[slot])
         else if slots[slot] != Str("") then slots[slot]
         else if former in kv && kv[former] != "" then Str(kv[former])
         else Str("")
  {
    OverlayKeepsExtras(schema, explicit, kv, slots);
    assert slot in PLAIN && Former(slot) != "";
  }

  lemma OverlayKeepsExtras(schema: seq<Field>, explicit: set<string>, kv: KV, slots: Slots)
    requires HasExtras(slots)
    ensures HasExtras(Overlaid(schema, explicit, kv, slots))
  {
    hide PLAIN;
    var after := Overlaid(schema, explicit, kv, slots);
    forall k | k in PLAIN ensures k in after && after[k].Str? {
      assert slots[k].Str?;
    }
  }

  /** A second reading of the same file changes nothing. */
  lemma FileTwice(schema: seq<Field>, explicit: set<string>, kv: KV, slots: Slots)
    requires HasExtras(slots)
    ensures HasExtras(Overlaid(schema, explicit, kv, slots))
    ensures var once := Extended(kv, Overlaid(schema, explicit, kv, slots));
      Extended(kv, Overlaid(schema, explicit, kv, once)) == once
  {
    OverlayKeepsExtras(schema, explicit, kv, slots);
    var once := Extended(kv, Overlaid(schema, explicit, kv, slots));
    var twice := Extended(kv, Overlaid(schema, explicit, kv, once));
    assert once.Keys == twice.Keys == slots.Keys;
    forall k | k in slots ensures once[k] == twice[k] {
      SlotTwice(schema, explicit, kv, k, slots[k]);
    }
  }

  lemma SlotTwice(schema: seq<Field>, explicit: set<string>, kv: KV, k: string, v: Value)
    requires k in PLAIN ==> v.Str?
    ensures var once := ExtraAfter(kv, k, SlotAfter(schema, explicit, kv, k, v));
      ExtraAfter(kv, k, SlotAfter(schema, explicit, kv, k, once)) == once
  {
    hide PLAIN, Former;
    if k in kv {
      hide Set;
      SetTwice(v, kv[k]);
      assert v.Str? ==> Set(v, kv[k]) == Str(kv[k]) by {
        SetStr(v, kv[k]);
      }
    }
  }

  lemma SetStr(v: Value, text: string)
    ensures v.Str? ==> Set(v, text) == Str(text)
  {}

  /** One setter of the overlay. */
  function SetField(schema: seq<Field>, explicit: set<string>, slots: Slots, k: string, v: string): Slots {
    if v != "" && Open(schema, explicit, k) && k in slots then slots[k := Set(slots[k], v)] else slots
  }

  lemma OneMoreField(schema: seq<Field>, explicit: set<string>, done: KV, k: string, v: string, slots: Slots)
    requires k !in done
    ensures SetField(schema, explicit, Overlaid(schema, explicit, done, slots), k, v)
      == Overlaid(schema, explicit, done[k := v], slots)
  {
    hide Set;
    var a := SetField(schema, explicit, Overlaid(schema, explicit, done, slots), k, v);
    var b := Overlaid(schema, explicit, done[k := v], slots);
    assert a.Keys == b.Keys;
    forall j | j in slots ensures a[j] == b[j] {}
  }
}
