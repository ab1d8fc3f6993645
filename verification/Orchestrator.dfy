/** The pivot part of the bootstrap procedure as the program runs it
    (internal/orchestrator/bootstrap.go:821-908 and 1055-1061, pivot_sequence.go, and
    internal/capi/pivot/move.go): an object whose methods call out and update its fields. Every
    method is shown to perform a run of the transition system of `Pivot`. */
module Orchestrator {
  import opened Wrappers
  import opened Pivot
  import Parity

  // ---------------------------------------------------------------- the namespaces to move

  /** The first occurrences of the names that are not empty, in order. */
  function Distinct(names: seq<string>): (r: seq<string>)
  {
    if names == [] then []
    else
      var n := names[|names| - 1];
      var before := Distinct(names[..|names| - 1]);
      if n == [] || n in names[..|names| - 1] then before else before + [n]
  }

  method Dedupe(names: seq<string>) returns (out: seq<string>)
    ensures out == Distinct(names)
  {
    var seen: set<string> := {};
    out := [];
    for i := 0 to |names|
      invariant out == Distinct(names[..i])
      invariant forall n :: n in seen <==> n in names[..i] && n != []
    {
      assert names[..i + 1][..i] == names[..i];
      var s := names[i];
      if s == [] || s in seen {
        continue;
      }
      seen := seen + {s};
      out := out + [s];
    }
    assert names[..|names|] == names;
  }

  /** The place of the first occurrence of a name. */
  function FirstAt(names: seq<string>, n: string): (i: nat)
    requires n in names
    ensures i < |names| && names[i] == n && forall k :: 0 <= k < i ==> names[k] != n
  {
    if names[0] == n then 0 else 1 + FirstAt(names[1..], n)
  }

  lemma FirstAtPrefix(names: seq<string>, m: nat, n: string)
    requires m <= |names| && n in names[..m]
    ensures n in names && FirstAt(names, n) == FirstAt(names[..m], n) < m
  {
    var i, k := FirstAt(names, n), FirstAt(names[..m], n);
    assert names[..m][k] == names[k];
    assert i < m ==> names[..m][i] == names[i];
  }

  /** The names stand in the order of their first occurrences. */
  ghost predicate ByFirst(names: seq<string>, r: seq<string>) {
    && (forall i :: 0 <= i < |r| ==> r[i] in names)
    && (forall i, j :: 0 <= i < j < |r| ==> FirstAt(names, r[i]) < FirstAt(names, r[j]))
  }

  /** Deduplication keeps every name once, in the order of the first occurrences, and invents none. */
  lemma {:induction false} DistinctNames(names: seq<string>)
    ensures forall n :: n in Distinct(names) <==> n in names && n != []
    ensures NoRepeats(Distinct(names)) && ByFirst(names, Distinct(names))
  {
    if names != [] {
      var m := |names| - 1;
      DistinctNames(names[..m]);
      assert names == names[..m] + [names[m]];
      var before := Distinct(names[..m]);
      forall i | 0 <= i < |before|
        ensures before[i] in names && FirstAt(names, before[i]) == FirstAt(names[..m], before[i]) < m
      {
        FirstAtPrefix(names, m, before[i]);
      }
      if names[m] !in names[..m] {
        LastIsNew(names);
      }
    }
  }

  lemma LastIsNew(names: seq<string>)
    requires names != [] && names[|names| - 1] !in names[..|names| - 1]
    ensures FirstAt(names, names[|names| - 1]) == |names| - 1
  {
    var m := |names| - 1;
    forall k | 0 <= k < m ensures names[k] != names[m] {
      assert names[..m][k] == names[k];
    }
  }

  /** So none of the selected namespaces is tried more than twice. */
  lemma SelectedAtMostTwice(names: seq<string>, cfg: Config, kind: set<Object>, mgmt: set<Object>,
    events: seq<Event>, ns: string)
    requires cfg.namespaces == Distinct(names) && Run(cfg, Initial(kind, mgmt), events).Some?
    ensures TriesOf(cfg, Initial(kind, mgmt), events, ns) <= 2
  {
    hide Run, Step;
    DistinctNames(names);
    AtMostTwoTries(cfg, kind, mgmt, events, ns);
  }

  /** selectPivotNamespaces: the provider's list, if it has one, else workload and management. */
  method SelectNamespaces(fromProvider: Option<seq<string>>, workloadNs: string, mgmtNs: string)
    returns (out: seq<string>)
    ensures out == Distinct(if fromProvider.Some? then fromProvider.value else [workloadNs, mgmtNs])
  {
    if fromProvider.Some? {
      out := Dedupe(fromProvider.value);
    } else {
      out := Dedupe([workloadNs, mgmtNs]);
    }
  }

  // ---------------------------------------------------------------- the world

  /** The answers of the outside world, by number of the call. */
  datatype World = World(
    ok: nat -> bool,
    copied: nat -> set<Object>,
    deleted: nat -> set<Object>,
    csi: nat -> CsiResult,
    view: nat -> Parity.View,
    rounds: nat)

  /** Objects of one namespace may have gone from one cluster to the other; nothing else changed. */
  ghost predicate Shifted(kind: set<Object>, mgmt: set<Object>, kind': set<Object>, mgmt': set<Object>, ns: string) {
    && kind' <= kind && mgmt <= mgmt' && kind + mgmt <= kind' + mgmt'
    && forall o: Object :: o.ns != ns ==> (o in kind <==> o in kind') && (o in mgmt <==> o in mgmt')
  }

  lemma ShiftedAll(kind: set<Object>, mgmt: set<Object>, ns: string)
    ensures var objs := InNamespace(kind, ns);
      Shifted(kind, mgmt, kind - objs, mgmt + objs, ns) && forall o :: o in kind - objs ==> o.ns != ns
  {}

  lemma ShiftedPart(kind: set<Object>, mgmt: set<Object>, ns: string, copied: set<Object>, deleted: set<Object>)
    ensures var objs := InNamespace(kind, ns);
      Shifted(kind, mgmt, kind - objs * deleted * (mgmt + objs * copied), mgmt + objs * copied, ns)
  {}

  class Bootstrap {
    const cfg: Config
    const world: World
    var calls: nat
    var pivoting: bool
    var kind: set<Object>
    var mgmt: set<Object>
    var context: Context
    var kindAlive: bool

    ghost const start: State
    ghost var s: State
    ghost var log: seq<Event>

    /** The calls made so far are a run of the transition system that ends in the fields. */
    ghost predicate Valid()
      reads this
    {
      && Run(cfg, start, log) == Some(s)
      && s.pivoting == pivoting && s.kind == kind && s.mgmt == mgmt
      && s.context == context && s.kindAlive == kindAlive
    }

    /** Every call succeeds, and every polling round finds all six checks fulfilled. */
    ghost predicate Obliging() {
      && (forall n :: world.ok(n)) && (forall n :: world.csi(n) != InstallFailed)
      && world.rounds > 0 && forall n :: Parity.Holds(cfg.workload, cfg.secrets, world.view(n))
    }

    constructor (cfg: Config, world: World, kind: set<Object>, mgmt: set<Object>)
      ensures Valid() && s == start == Initial(kind, mgmt) && log == []
      ensures this.cfg == cfg && this.world == world
    {
      this.cfg := cfg;
      this.world := world;
      calls := 0;
      pivoting := false;
      this.kind := kind;
      this.mgmt := mgmt;
      context := Kind;
      kindAlive := true;
      start := Initial(kind, mgmt);
      s := Initial(kind, mgmt);
      log := [];
    }

    /** Accounts for one event. */
    ghost method Take(e: Event, next: State)
      requires Run(cfg, start, log) == Some(s) && Step(cfg, s, e) == Some(next)
      modifies this`s, this`log
      ensures s == next && log == old(log) + [e] && Run(cfg, start, log) == Some(s)
    {
      hide Step;
      assert (log + [e])[..|log|] == log;
      log := log + [e];
      s := next;
    }

    /** An external call whose only effect on the run is where it goes on. */
    method Ask(ghost yes: State, ghost no: State) returns (ok: bool)
      requires Valid()
      requires Step(cfg, s, Call(true)) == Some(yes) && Step(cfg, s, Call(false)) == Some(no)
      requires yes == s.(pc := yes.pc, done := yes.done) && no == s.(pc := no.pc, done := no.done)
      modifies `calls, `s, `log
      ensures Valid() && s == (if ok then yes else no) && log == old(log) + [Call(ok)]
      ensures ok == world.ok(old(calls))
    {
      hide Step;
      ok := world.ok(calls);
      calls := calls + 1;
      Take(Call(ok), if ok then yes else no);
    }

    /** `clusterctl move -n ns`. */
    method ClusterctlMove(ns: string, ghost i: nat) returns (ok: bool)
      requires Valid() && s.pc.Moving? && s.pc.i == i < |cfg.namespaces| && cfg.namespaces[i] == ns && !cfg.dryRun
      modifies `calls, `s, `log, `kind, `mgmt
      ensures Valid()
      ensures s.pc == (if ok then NextNamespace(cfg, old(s), i + 1).pc
        else if old(s.pc.attempt) < 2 then Moving(i, old(s.pc.attempt) + 1) else Failed)
      ensures Shifted(old(kind), old(mgmt), kind, mgmt, ns) && (ok ==> forall o :: o in kind ==> o.ns != ns)
      ensures |log| == |old(log)| + 1 && log[..|old(log)|] == old(log) && log[|old(log)|].Move?
        && log[|old(log)|].ok == ok == world.ok(old(calls))
    {
      hide Run, Step;
      ok := world.ok(calls);
      var copied, deleted := world.copied(calls), world.deleted(calls);
      calls := calls + 1;
      MoveStepIs(cfg, s, ok, copied, deleted);
      var objs := InNamespace(kind, ns);
      ShiftedAll(kind, mgmt, ns);
      ShiftedPart(kind, mgmt, ns, copied, deleted);
      hide Shifted;
      ghost var before := s;
      ghost var part := MovePart(s, ns, copied, deleted);
      if ok {
        kind, mgmt := kind - objs, mgmt + objs;
        Take(Move(true, copied, deleted), NextNamespace(cfg, MoveAll(before, ns), i + 1));
      } else {
        mgmt := mgmt + objs * copied;
        kind := kind - objs * deleted * mgmt;
        Take(Move(false, copied, deleted),
          part.(pc := if before.pc.attempt < 2 then Moving(i, before.pc.attempt + 1) else Failed));
      }
    }

    /** MoveCAPIState: the checks, the best-effort pause of the kind reconcilers, and then each
        namespace, tried at most twice. */
    method MoveCAPIState() returns (ok: bool)
      requires Valid() && s.pc == PrepareMove
      modifies `calls, `s, `log, `kind, `mgmt
      ensures Valid()
      ensures s.pc == if !ok then Failed else if cfg.dryRun then Done else HandOff
      ensures old(kind) + old(mgmt) <= kind + mgmt && kind <= old(kind) && old(mgmt) <= mgmt
      ensures forall o :: o in old(kind) && o.ns !in cfg.namespaces ==> o in kind
      ensures ok && !cfg.dryRun ==> forall o :: o in old(kind) && o.ns in cfg.namespaces ==> o in mgmt && o !in kind
      ensures cfg.dryRun ==> kind == old(kind) && mgmt == old(mgmt)
      ensures Obliging() ==> ok
    {
      hide Run, Step, Parity.Holds;
      StartIs(cfg, s, true);
      StartIs(cfg, s, false);
      ok := Ask(s.(pc := Pausing), s.(pc := Failed));
      if !ok {
        return;
      }
      Pause();
      for i := 0 to |cfg.namespaces|
        invariant Valid() && s.pc == if i < |cfg.namespaces| then Moving(i, 1) else if cfg.dryRun then Done else HandOff
        invariant old(kind) + old(mgmt) <= kind + mgmt && kind <= old(kind) && old(mgmt) <= mgmt
        invariant forall o :: o in old(kind) && o.ns !in cfg.namespaces ==> o in kind
        invariant !cfg.dryRun ==> forall o :: o in kind ==> o.ns !in cfg.namespaces[..i]
        invariant cfg.dryRun ==> kind == old(kind) && mgmt == old(mgmt)
      {
        assert cfg.namespaces[..i + 1] == cfg.namespaces[..i] + [cfg.namespaces[i]];
        if cfg.dryRun {
          ok := DryMove(i);
        } else {
          ok := MoveNamespace(i);
        }
        if !ok {
          return;
        }
      }
      assert cfg.namespaces[..|cfg.namespaces|] == cfg.namespaces;
      ok := true;
    }

    /** One namespace: a second attempt after a failed first one. */
    method MoveNamespace(i: nat) returns (ok: bool)
      requires Valid() && i < |cfg.namespaces| && s.pc == Moving(i, 1) && !cfg.dryRun
      modifies `calls, `s, `log, `kind, `mgmt
      ensures Valid() && s.pc == if ok then NextNamespace(cfg, s, i + 1).pc else Failed
      ensures Shifted(old(kind), old(mgmt), kind, mgmt, cfg.namespaces[i])
      ensures ok ==> forall o :: o in kind ==> o.ns != cfg.namespaces[i]
      ensures |old(log)| < |log| <= |old(log)| + 2 && log[..|old(log)|] == old(log) && (!ok ==> |log| == |old(log)| + 2)
      ensures forall k :: |old(log)| <= k < |log| ==> log[k].Move? && (log[k].ok <==> ok && k == |log| - 1)
      ensures Obliging() ==> ok
    {
      hide Run, Step, MoveAll, MovePart, Parity.Holds;
      var ns := cfg.namespaces[i];
      var attempt := 1;
      while attempt <= 2
        invariant 1 <= attempt <= 3 && Valid()
        invariant s.pc == if attempt <= 2 then Moving(i, attempt) else Failed
        invariant Shifted(old(kind), old(mgmt), kind, mgmt, ns)
        invariant |log| == |old(log)| + attempt - 1 && log[..|old(log)|] == old(log)
        invariant forall k :: |old(log)| <= k < |log| ==> log[k].Move? && !log[k].ok
        invariant Obliging() ==> attempt == 1
      {
        ok := ClusterctlMove(ns, i);
        if ok {
          return;
        }
        attempt := attempt + 1;
      }
      ok := false;
    }

    /** The pause of the reconcilers: its failure is only logged. */
    method Pause()
      requires Valid() && s.pc == Pausing
      modifies `calls, `s, `log
      ensures Valid() && s.pc == NextNamespace(cfg, old(s), 0).pc
    {
      hide Step, Run;
      StartIs(cfg, s, true);
      StartIs(cfg, s, false);
      var ignored := Ask(NextNamespace(cfg, s, 0), NextNamespace(cfg, s, 0));
    }

    method DryMove(i: nat) returns (ok: bool)
      requires Valid() && s.pc.Moving? && s.pc.i == i < |cfg.namespaces| && cfg.dryRun
      modifies `calls, `s, `log
      ensures Valid() && s.pc == if ok then NextNamespace(cfg, old(s), i + 1).pc else Failed
      ensures ok == world.ok(old(calls))
    {
      hide Step, Run;
      DryMoveIs(cfg, s, true);
      DryMoveIs(cfg, s, false);
      ok := Ask(NextNamespace(cfg, s, i + 1), s.(pc := Failed));
    }

    /** The CSI loop: a driver that has nothing to install is skipped. */
    method InstallDrivers() returns (ok: bool)
      requires Valid() && s.pc == NextDriver(cfg, s, 0).pc
      modifies `calls, `s, `log
      ensures Valid() && s.pc == if ok then Sync else Failed
      ensures Obliging() ==> ok
    {
      hide Run, Step;
      for i := 0 to cfg.drivers
        invariant Valid() && s.pc == if i < cfg.drivers then Csi(i) else Sync
      {
        var r := world.csi(calls);
        calls := calls + 1;
        ghost var next := if r == InstallFailed then s.(pc := Failed) else NextDriver(cfg, s, i + 1);
        DriverIs(cfg, s, i, r);
        Take(Install(r), next);
        if r == InstallFailed {
          return false;
        }
      }
      ok := true;
    }

    /** The polling loop of VerifyParity. */
    method VerifyParity() returns (ok: bool)
      requires Valid() && s.pc == Poll
      modifies `calls, `s, `log
      ensures Valid() && s.pc == if ok then Rebind else Failed
      ensures Obliging() ==> ok
    {
      hide Run, Step, Parity.Holds;
      var used := 0;
      while used < world.rounds
        invariant Valid() && s.pc == Poll && used <= world.rounds && (Obliging() ==> used == 0)
      {
        var v := world.view(calls);
        calls := calls + 1;
        used := used + 1;
        ok := Parity.CheckRound(cfg.workload, cfg.secrets, v);
        PollIs(cfg, s, v);
        Take(Round(v), if ok then Reach(s, ParityReached, Rebind) else s);
        if ok {
          return;
        }
      }
      PollIs(cfg, s, world.view(calls));
      Take(Timeout, s.(pc := Failed));
      ok := false;
    }

    /** runPostPivotSequence: move, handoff, client, yage-system, CSI, repo sync, parity, rebind.
        Only the handoff may fail without an error; a dry run ends after the move. */
    method RunPostPivotSequence() returns (ok: bool)
      requires Valid() && s.pc == PrepareMove
      modifies `calls, `s, `log, `kind, `mgmt, `context
      ensures Valid()
      ensures s.pc == if !ok then Failed else if cfg.dryRun then Done else StopCheck
      ensures ok && !cfg.dryRun ==> context == Management
      ensures Obliging() ==> ok
    {
      hide Parity.Holds;
      ok := MoveCAPIState();
      if !ok || cfg.dryRun {
        return;
      }
      ok := PrepareManagement();
      if !ok {
        return;
      }
      ok := VerifyParity();
      if !ok {
        return;
      }
      ok := RebindContext();
    }

    /** Handoff, client, yage-system, CSI and repo sync on the management cluster. */
    method PrepareManagement() returns (ok: bool)
      requires Valid() && s.pc == HandOff
      modifies `calls, `s, `log
      ensures Valid() && s.pc == if ok then Poll else Failed
      ensures Obliging() ==> ok
    {
      hide Run, Step, Parity.Holds;
      PreparingIs(cfg, s, true);
      PreparingIs(cfg, s, false);
      var handedOff := Ask(s.(pc := Connect), s.(pc := Connect));
      PreparingIs(cfg, s, true);
      PreparingIs(cfg, s, false);
      ok := Ask(s.(pc := System), s.(pc := Failed));
      if !ok {
        return;
      }
      PreparingIs(cfg, s, true);
      PreparingIs(cfg, s, false);
      ok := Ask(NextDriver(cfg, Reach(s, SystemReady, System), 0), s.(pc := Failed));
      if !ok {
        return;
      }
      ok := InstallDrivers();
      if !ok {
        return;
      }
      PreparingIs(cfg, s, true);
      PreparingIs(cfg, s, false);
      ok := Ask(Reach(s, ReposSynced, Poll), s.(pc := Failed));
    }

    method RebindContext() returns (ok: bool)
      requires Valid() && s.pc == Rebind
      modifies `calls, `s, `log, `context
      ensures Valid() && s.pc == (if ok then StopCheck else Failed) && (ok ==> context == Management)
      ensures ok == world.ok(old(calls))
    {
      hide Run, Step;
      ok := world.ok(calls);
      calls := calls + 1;
      PreparingIs(cfg, s, ok);
      if ok {
        context := Management;
        Take(Call(true), Reach(s, Rebound, StopCheck).(context := Management));
      } else {
        Take(Call(false), s.(pc := Failed));
      }
    }

    /** TeardownKind: the flags, then the deletion, whose failure is only logged. */
    method TeardownKind()
      requires Valid() && s.pc == Teardown
      modifies `calls, `s, `log, `kindAlive
      ensures Valid() && s.pc == Done
      ensures cfg.keepKind || cfg.noDeleteKind || cfg.kindName == "" ==> kindAlive == old(kindAlive)
      ensures !cfg.keepKind && !cfg.noDeleteKind && cfg.kindName != "" ==>
        kindAlive == (old(kindAlive) && !world.ok(old(calls)))
    {
      if cfg.keepKind || cfg.noDeleteKind || cfg.kindName == [] {
        LeaveKind(false);
        return;
      }
      var deleted := world.ok(calls);
      calls := calls + 1;
      LeaveKind(deleted);
    }

    method LeaveKind(deleted: bool)
      requires Valid() && s.pc == Teardown
      requires deleted ==> !cfg.keepKind && !cfg.noDeleteKind && cfg.kindName != ""
      modifies `s, `log, `kindAlive
      ensures Valid() && s.pc == Done && kindAlive == (old(kindAlive) && !deleted)
    {
      hide Step, Run;
      ghost var next := s.(pc := Done, kindAlive := s.kindAlive && !deleted);
      TeardownStep(cfg, s, deleted);
      Take(Call(deleted), next);
      kindAlive := kindAlive && !deleted;
    }

    /** The gate: a provider without a pivot target turns the pivot off. */
    method PassGate()
      requires Valid() && s.pc == Gate
      modifies `pivoting, `s, `log
      ensures Valid() && s.pc == (if pivoting then Provision else StopCheck)
      ensures pivoting <==> cfg.enabled && cfg.target != NotApplicable
    {
      hide Run, Step;
      ghost var p := cfg.enabled && cfg.target != NotApplicable;
      GateIs(cfg, s);
      Take(Decide, s.(pivoting := p, pc := if p then Provision else StopCheck));
      pivoting := cfg.enabled;
      if pivoting && cfg.target == NotApplicable {
        pivoting := false;
      }
    }

    /** The pivot section of Run. False is logx.Die. */
    method PivotSection() returns (ok: bool)
      requires Valid() && s.pc == Gate
      modifies this
      ensures Valid()
      ensures s.pc == if !ok then Failed else if pivoting && cfg.dryRun then Done else StopCheck
      ensures pivoting <==> cfg.enabled && cfg.target != NotApplicable
      ensures kindAlive == old(kindAlive) && (Obliging() ==> ok)
    {
      hide Run, Step, Parity.Holds;
      PassGate();
      if !pivoting {
        return true;
      }
      StartIs(cfg, s, true);
      StartIs(cfg, s, false);
      ok := Ask(s.(pc := InitCapi), s.(pc := Failed));
      if !ok {
        return;
      }
      StartIs(cfg, s, true);
      StartIs(cfg, s, false);
      ok := Ask(s.(pc := PrepareMove), s.(pc := Failed));
      if !ok {
        return;
      }
      ok := RunPostPivotSequence();
    }

    /** Run from the pivot to the end: the return code, or 1 for logx.Die. Whatever the world
        answers, the calls made are a run of the transition system that has come to its end. */
    method Finish() returns (code: int)
      requires Valid() && s.pc == Gate
      modifies this
      ensures Valid() && s.pc == if code == 0 then Done else Failed
      ensures Obliging() ==> code == 0
      ensures (|| !cfg.enabled || cfg.target == NotApplicable || cfg.dryRun || cfg.stopBeforeWorkload
               || cfg.keepKind || cfg.noDeleteKind || cfg.kindName == "") ==> kindAlive == old(kindAlive)
      ensures (&& Obliging() && cfg.enabled && cfg.target != NotApplicable && !cfg.dryRun && !cfg.stopBeforeWorkload
               && !cfg.keepKind && !cfg.noDeleteKind && cfg.kindName != "") ==> !kindAlive
    {
      hide Run, Step, Parity.Holds;
      var ok := PivotSection();
      if !ok {
        return 1;
      }
      if pivoting && cfg.dryRun {
        return 0;
      }
      StopStep(cfg, s);
      Take(Decide, s.(pc := if cfg.stopBeforeWorkload then Done else Workload));
      if cfg.stopBeforeWorkload {
        return 0;
      }
      WorkloadStep(cfg, s);
      ok := Ask(s.(pc := if s.pivoting then Teardown else Done), s.(pc := Failed));
      if !ok {
        return 1;
      }
      if pivoting {
        TeardownKind();
      }
      code := 0;
    }

    /** A whole run on a fresh bootstrap: however the world answers, kind is gone at the end only if
        the run returned zero, kubectl points at the management cluster and every object of every
        listed namespace is there; and no object is lost in any case. Where every call succeeds, the
        run does too, and kind is gone exactly when a pivot was asked for and nothing keeps kind. */
    method RunToEnd() returns (code: int)
      requires Valid() && log == [] && start == Initial(kind, mgmt)
      modifies this
      ensures Valid() && s.pc == if code == 0 then Done else Failed
      ensures !kindAlive ==>
        && code == 0 && context == Management && !cfg.dryRun && !cfg.stopBeforeWorkload
        && !cfg.keepKind && !cfg.noDeleteKind && cfg.kindName != ""
      ensures !kindAlive ==> forall o :: o in old(kind) && o.ns in cfg.namespaces ==> o in mgmt && o !in kind
      ensures old(kind) + old(mgmt) <= kind + mgmt
      ensures cfg.dryRun ==> kind == old(kind) && mgmt == old(mgmt)
      ensures (|| !cfg.enabled || cfg.target == NotApplicable || cfg.dryRun || cfg.stopBeforeWorkload
               || cfg.keepKind || cfg.noDeleteKind || cfg.kindName == "") ==> kindAlive
      ensures Obliging() ==> code == 0
      ensures (&& Obliging() && cfg.enabled && cfg.target != NotApplicable && !cfg.dryRun && !cfg.stopBeforeWorkload
               && !cfg.keepKind && !cfg.noDeleteKind && cfg.kindName != "") ==> !kindAlive
    {
      hide Step;
      code := Finish();
      TeardownIsSafe(cfg, start.kind, start.mgmt, log);
      NothingIsLost(cfg, start.kind, start.mgmt, log);
    }
  }
}
