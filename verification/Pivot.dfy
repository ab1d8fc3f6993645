/** Bootstrap and pivot (internal/orchestrator/bootstrap.go, pivot_sequence.go and
    internal/capi/pivot/move.go) as a transition system.

    A run is a sequence of events, one for each decision or external call, with the outcome of the
    call. `Step` follows the control flow of the source; the theorems are about every sequence of
    events that it accepts. */
module Pivot {
  import opened Wrappers
  import Parity

  // ---------------------------------------------------------------- configuration and state

  datatype Target = Supported | NotApplicable | Unknown

  datatype Config = Config(
    enabled: bool,
    target: Target,
    dryRun: bool,
    stopBeforeWorkload: bool,
    keepKind: bool,
    noDeleteKind: bool,
    kindName: string,
    workload: string,
    secrets: seq<Parity.VerifySecret>,
    namespaces: seq<string>,
    drivers: nat)

  datatype Object = Object(ns: string, name: string)

  datatype Context = Kind | Management

  /** What the pivot reports as done, in the order it happens. */
  datatype Milestone = Moved | SystemReady | CsiReady | ReposSynced | ParityReached | Rebound

  /** Where the run stands. `Failed` is logx.Die, `Done` a return code of zero. */
  datatype Pc =
    | Gate | Provision | InitCapi | PrepareMove | Pausing | Moving(i: nat, attempt: nat)
    | HandOff | Connect | System | Csi(driver: nat) | Sync | Poll | Rebind
    | StopCheck | Workload | Teardown | Done | Failed

  datatype State = State(
    pc: Pc,
    pivoting: bool,
    kind: set<Object>,
    mgmt: set<Object>,
    context: Context,
    kindAlive: bool,
    done: seq<Milestone>)

  datatype CsiResult = Installed | NotNeeded | InstallFailed

  /** Decide is a step of the program itself, Call an external call that succeeds or fails. A failed
      move may have copied some objects and deleted some that were already on the other side. */
  datatype Event =
    | Decide
    | Call(ok: bool)
    | Move(ok: bool, copied: set<Object>, deleted: set<Object>)
    | Install(result: CsiResult)
    | Round(view: Parity.View)
    | Timeout

  const ALL := [Moved, SystemReady, CsiReady, ReposSynced, ParityReached, Rebound]

  // ---------------------------------------------------------------- clusterctl move

  function InNamespace(objs: set<Object>, ns: string): set<Object> {
    set o | o in objs && o.ns == ns
  }

  /** A successful move of one namespace. */
  function MoveAll(s: State, ns: string): State {
    var objs := InNamespace(s.kind, ns);
    s.(kind := s.kind - objs, mgmt := s.mgmt + objs)
  }

  /** A failed one: some objects of the namespace are copied, and only objects that are then on the
      management cluster may be gone from kind. */
  function MovePart(s: State, ns: string, copied: set<Object>, deleted: set<Object>): State {
    var objs := InNamespace(s.kind, ns);
    var mgmt := s.mgmt + objs * copied;
    s.(kind := s.kind - objs * deleted * mgmt, mgmt := mgmt)
  }

  // ---------------------------------------------------------------- the transition system

  function AfterCall(s: State, ok: bool, next: Pc): State {
    s.(pc := if ok then next else Failed)
  }

  function Reach(s: State, m: Milestone, next: Pc): State {
    s.(done := s.done + [m], pc := next)
  }

  /** The namespace loop: the next namespace, or the end of the move. */
  function NextNamespace(cfg: Config, s: State, i: nat): State {
    if i < |cfg.namespaces| then s.(pc := Moving(i, 1))
    else if cfg.dryRun then s.(pc := Done)
    else Reach(s, Moved, HandOff)
  }

  function NextDriver(cfg: Config, s: State, i: nat): State {
    if i < cfg.drivers then s.(pc := Csi(i)) else Reach(s, CsiReady, Sync)
  }

  function MoveStep(cfg: Config, s: State, e: Event): Option<State>
    requires s.pc.Moving?
  {
    if s.pc.i >= |cfg.namespaces| then None
    else
      var ns := cfg.namespaces[s.pc.i];
      match e
      case Call(ok) => // clusterctl move --dry-run
        if !cfg.dryRun then None
        else Some(if ok then NextNamespace(cfg, s, s.pc.i + 1) else s.(pc := Failed))
      case Move(ok, copied, deleted) =>
        if cfg.dryRun then None
        else if ok then Some(NextNamespace(cfg, MoveAll(s, ns), s.pc.i + 1))
        else
          var t := MovePart(s, ns, copied, deleted);
          Some(t.(pc := if s.pc.attempt < 2 then Moving(s.pc.i, s.pc.attempt + 1) else Failed))
      case _ => None
  }

  /** Teardown is only asked for when nothing forbids it; a failed deletion leaves kind alive. */
  predicate MayTearDown(cfg: Config) {
    !cfg.keepKind && !cfg.noDeleteKind && cfg.kindName != []
  }

  ghost function Step(cfg: Config, s: State, e: Event): Option<State> {
    match s.pc
    case Gate =>
      if !e.Decide? then None
      else
        var p := cfg.enabled && cfg.target != NotApplicable;
        Some(s.(pivoting := p, pc := if p then Provision else StopCheck))
    case Provision => if e.Call? then Some(AfterCall(s, e.ok, InitCapi)) else None
    case InitCapi => if e.Call? then Some(AfterCall(s, e.ok, PrepareMove)) else None
    case PrepareMove => if e.Call? then Some(AfterCall(s, e.ok, Pausing)) else None
    case Pausing => if e.Call? then Some(NextNamespace(cfg, s, 0)) else None
    case Moving(_, _) => MoveStep(cfg, s, e)
    case HandOff => if e.Call? then Some(s.(pc := Connect)) else None
    case Connect => if e.Call? then Some(AfterCall(s, e.ok, System)) else None
    case System =>
      if !e.Call? then None
      else if e.ok then Some(NextDriver(cfg, Reach(s, SystemReady, System), 0))
      else Some(s.(pc := Failed))
    case Csi(i) =>
      if !e.Install? then None
      else if e.result == InstallFailed then Some(s.(pc := Failed))
      else Some(NextDriver(cfg, s, i + 1))
    case Sync =>
      if !e.Call? then None
      else Some(if e.ok then Reach(s, ReposSynced, Poll) else s.(pc := Failed))
    case Poll =>
      if e.Timeout? then Some(s.(pc := Failed))
      else if !e.Round? then None
      else Some(if Parity.Holds(cfg.workload, cfg.secrets, e.view) then Reach(s, ParityReached, Rebind) else s)
    case Rebind =>
      if !e.Call? then None
      else Some(if e.ok then Reach(s, Rebound, StopCheck).(context := Management) else s.(pc := Failed))
    case StopCheck =>
      if !e.Decide? then None else Some(s.(pc := if cfg.stopBeforeWorkload then Done else Workload))
    case Workload =>
      if e.Call? then Some(AfterCall(s, e.ok, if s.pivoting then Teardown else Done)) else None
    case Teardown =>
      if !e.Call? then None
      else Some(s.(pc := Done, kindAlive := s.kindAlive && !(MayTearDown(cfg) && e.ok)))
    case Done => None
    case Failed => None
  }

  ghost function Run(cfg: Config, s: State, events: seq<Event>): Option<State> {
    if events == [] then Some(s)
    else
      var r := Run(cfg, s, events[..|events| - 1]);
      if r.None? then None else Step(cfg, r.value, events[|events| - 1])
  }

  function Initial(kind: set<Object>, mgmt: set<Object>): State {
    State(Gate, false, kind, mgmt, Kind, true, [])
  }

  // ---------------------------------------------------------------- the invariant

  /** The milestones that must lie behind a program point. */
  function Behind(s: State): seq<Milestone> {
    match s.pc
    case Gate => []
    case Provision => []
    case InitCapi => []
    case PrepareMove => []
    case Pausing => []
    case Moving(_, _) => []
    case HandOff => ALL[..1]
    case Connect => ALL[..1]
    case System => ALL[..1]
    case Csi(_) => ALL[..2]
    case Sync => ALL[..3]
    case Poll => ALL[..4]
    case Rebind => ALL[..5]
    case StopCheck => if s.pivoting then ALL else []
    case Workload => if s.pivoting then ALL else []
    case Teardown => ALL
    case Done => s.done
    case Failed => s.done
  }

  /** How many namespaces have been moved for good. */
  function MovedCount(cfg: Config, s: State): nat {
    if Moved in s.done then |cfg.namespaces|
    else if s.pc.Moving? && !cfg.dryRun && s.pc.i <= |cfg.namespaces| then s.pc.i
    else 0
  }

  ghost predicate NamespaceMoved(start: State, s: State, ns: string) {
    forall o :: o in start.kind && o.ns == ns ==> o !in s.kind && o in s.mgmt
  }

  /** Every object is somewhere, and kind only loses what it had. */
  ghost predicate Conserved(cfg: Config, start: State, s: State) {
    && start.kind + start.mgmt <= s.kind + s.mgmt
    && s.kind <= start.kind
    && (cfg.dryRun ==> s.kind == start.kind && s.mgmt == start.mgmt)
  }

  ghost predicate Progress(cfg: Config, start: State, s: State) {
    forall j :: 0 <= j < MovedCount(cfg, s) ==> NamespaceMoved(start, s, cfg.namespaces[j])
  }

  ghost predicate Ordered(cfg: Config, s: State) {
    && s.done == Behind(s)
    && s.done <= ALL
    && (s.pc.Moving? ==> s.pc.i < |cfg.namespaces| && 1 <= s.pc.attempt <= 2)
    && (s.pivoting || s.pc.Gate? || s.pc.StopCheck? || s.pc.Workload? || s.pc.Done? || s.pc.Failed?)
    && (s.done != [] ==> s.pivoting && !cfg.dryRun)
    && (s.pc.Teardown? ==> s.pivoting && !cfg.stopBeforeWorkload)
    && (s.pc.Workload? ==> !cfg.stopBeforeWorkload)
    && (s.pivoting ==> cfg.enabled && cfg.target != NotApplicable)
    && (s.context == Management <==> Rebound in s.done)
  }

  /** Kind is only ever gone when everything is done and nothing asked for it to stay. */
  ghost predicate TornDownLast(cfg: Config, s: State) {
    s.kindAlive || (
      && s.pc.Done? && s.done == ALL && s.pivoting && !cfg.stopBeforeWorkload
      && !cfg.keepKind && !cfg.noDeleteKind && cfg.kindName != "")
  }

  ghost predicate Invariant(cfg: Config, start: State, s: State) {
    Conserved(cfg, start, s) && Progress(cfg, start, s) && Ordered(cfg, s) && TornDownLast(cfg, s)
  }

  predicate Early(pc: Pc) { pc.Gate? || pc.Provision? || pc.InitCapi? || pc.PrepareMove? }

  predicate Late(pc: Pc) { pc.StopCheck? || pc.Workload? || pc.Teardown? || pc.Done? || pc.Failed? }

  lemma OrderedEarly(cfg: Config, s: State, e: Event)
    requires Ordered(cfg, s) && s.kindAlive && Early(s.pc) && Step(cfg, s, e).Some?
    ensures Ordered(cfg, Step(cfg, s, e).value) && Step(cfg, s, e).value.kindAlive
  {
  }

  lemma OrderedMove(cfg: Config, s: State, e: Event)
    requires Ordered(cfg, s) && s.kindAlive && (s.pc.Pausing? || s.pc.Moving?) && Step(cfg, s, e).Some?
    ensures Ordered(cfg, Step(cfg, s, e).value) && Step(cfg, s, e).value.kindAlive
  {
    assert [] + [Moved] == ALL[..1] && Rebound !in ALL[..1];
  }

  lemma OrderedSystem(cfg: Config, s: State, e: Event)
    requires Ordered(cfg, s) && s.kindAlive && (s.pc.HandOff? || s.pc.Connect? || s.pc.System? || s.pc.Csi?)
    requires Step(cfg, s, e).Some?
    ensures Ordered(cfg, Step(cfg, s, e).value) && Step(cfg, s, e).value.kindAlive
  {
    assert ALL[..1] + [SystemReady] == ALL[..2] && ALL[..2] + [CsiReady] == ALL[..3];
    assert Rebound !in ALL[..3];
  }

  lemma OrderedSync(cfg: Config, s: State, e: Event)
    requires Ordered(cfg, s) && s.kindAlive && s.pc.Sync? && Step(cfg, s, e).Some?
    ensures Ordered(cfg, Step(cfg, s, e).value) && Step(cfg, s, e).value.kindAlive
  {
    hide MoveStep, MayTearDown, Parity.Holds;
    assert ALL[..3] + [ReposSynced] == ALL[..4] && Rebound !in ALL[..4];
  }

  lemma OrderedPoll(cfg: Config, s: State, e: Event)
    requires Ordered(cfg, s) && s.kindAlive && s.pc.Poll? && Step(cfg, s, e).Some?
    ensures Ordered(cfg, Step(cfg, s, e).value) && Step(cfg, s, e).value.kindAlive
  {
    hide MoveStep, MayTearDown, Parity.Holds;
    assert ALL[..4] + [ParityReached] == ALL[..5] && Rebound !in ALL[..5];
  }

  lemma OrderedRebind(cfg: Config, s: State, e: Event)
    requires Ordered(cfg, s) && s.kindAlive && s.pc.Rebind? && Step(cfg, s, e).Some?
    ensures Ordered(cfg, Step(cfg, s, e).value) && Step(cfg, s, e).value.kindAlive
  {
    hide MoveStep, MayTearDown, Parity.Holds;
    assert ALL[..5] + [Rebound] == ALL && Rebound !in ALL[..5] && ALL[5] == Rebound;
  }

  lemma OrderedLate(cfg: Config, s: State, e: Event)
    requires Ordered(cfg, s) && s.kindAlive && Late(s.pc) && Step(cfg, s, e).Some?
    ensures Ordered(cfg, Step(cfg, s, e).value) && TornDownLast(cfg, Step(cfg, s, e).value)
  {
  }

  lemma OrderedStep(cfg: Config, s: State, e: Event)
    requires Ordered(cfg, s) && TornDownLast(cfg, s) && Step(cfg, s, e).Some?
    ensures Ordered(cfg, Step(cfg, s, e).value) && TornDownLast(cfg, Step(cfg, s, e).value)
  {
    hide Ordered;
    if Early(s.pc) {
      OrderedEarly(cfg, s, e);
    } else if s.pc.Pausing? || s.pc.Moving? {
      OrderedMove(cfg, s, e);
    } else if s.pc.Sync? {
      OrderedSync(cfg, s, e);
    } else if s.pc.Poll? {
      OrderedPoll(cfg, s, e);
    } else if s.pc.Rebind? {
      OrderedRebind(cfg, s, e);
    } else if Late(s.pc) {
      OrderedLate(cfg, s, e);
    } else {
      OrderedSystem(cfg, s, e);
    }
  }

  // ---------------------------------------------------------------- the inventories

  lemma MovePartConserves(s: State, ns: string, copied: set<Object>, deleted: set<Object>)
    ensures var t := MovePart(s, ns, copied, deleted);
      t.kind <= s.kind && s.mgmt <= t.mgmt && s.kind + s.mgmt <= t.kind + t.mgmt
  {
  }

  lemma MoveAllConserves(s: State, ns: string)
    ensures var t := MoveAll(s, ns);
      && t.kind <= s.kind && s.mgmt <= t.mgmt && s.kind + s.mgmt <= t.kind + t.mgmt
      && forall o :: o in t.kind ==> o.ns != ns
  {
  }

  /** Apart from the two kinds of move, no step touches an inventory. */
  lemma OtherStepsKeep(cfg: Config, s: State, e: Event)
    requires Step(cfg, s, e).Some? && !(s.pc.Moving? && e.Move?)
    ensures var t := Step(cfg, s, e).value; t.kind == s.kind && t.mgmt == s.mgmt
  {
  }

  lemma ConservedStep(cfg: Config, start: State, s: State, e: Event)
    requires Conserved(cfg, start, s) && Step(cfg, s, e).Some?
    ensures Conserved(cfg, start, Step(cfg, s, e).value)
    ensures s.mgmt <= Step(cfg, s, e).value.mgmt && Step(cfg, s, e).value.kind <= s.kind
  {
    hide Parity.Holds;
    if s.pc.Moving? && e.Move? {
      var ns := cfg.namespaces[s.pc.i];
      MovePartConserves(s, ns, e.copied, e.deleted);
      MoveAllConserves(s, ns);
    } else {
      OtherStepsKeep(cfg, s, e);
    }
  }

  lemma NamespaceStays(cfg: Config, start: State, s: State, e: Event, ns: string)
    requires Conserved(cfg, start, s) && Step(cfg, s, e).Some? && NamespaceMoved(start, s, ns)
    ensures NamespaceMoved(start, Step(cfg, s, e).value, ns)
  {
    hide Step;
    ConservedStep(cfg, start, s, e);
  }

  /** A step adds at most one namespace to those moved for good, and only by a successful move. */
  lemma CountStep(cfg: Config, s: State, e: Event)
    requires Ordered(cfg, s) && Step(cfg, s, e).Some?
    ensures var t := Step(cfg, s, e).value;
      MovedCount(cfg, t) <= MovedCount(cfg, s)
      || (s.pc.Moving? && e.Move? && e.ok && !cfg.dryRun && MovedCount(cfg, s) == s.pc.i
          && MovedCount(cfg, t) <= s.pc.i + 1
          && t.kind == MoveAll(s, cfg.namespaces[s.pc.i]).kind && t.mgmt == MoveAll(s, cfg.namespaces[s.pc.i]).mgmt)
      || |cfg.namespaces| == 0
  {
    hide Parity.Holds;
    if s.pc.Moving? {
      CountMove(cfg, s, e);
    } else if s.pc.Pausing? {
      assert Moved !in s.done;
    } else {
      CountOther(cfg, s, e);
    }
  }

  lemma CountMove(cfg: Config, s: State, e: Event)
    requires Ordered(cfg, s) && s.pc.Moving? && Step(cfg, s, e).Some?
    ensures var t := Step(cfg, s, e).value;
      MovedCount(cfg, t) <= MovedCount(cfg, s)
      || (e.Move? && e.ok && !cfg.dryRun && MovedCount(cfg, s) == s.pc.i
          && MovedCount(cfg, t) <= s.pc.i + 1
          && t.kind == MoveAll(s, cfg.namespaces[s.pc.i]).kind && t.mgmt == MoveAll(s, cfg.namespaces[s.pc.i]).mgmt)
  {
    assert Moved !in s.done;
  }

  lemma CountOther(cfg: Config, s: State, e: Event)
    requires Ordered(cfg, s) && !s.pc.Moving? && !s.pc.Pausing? && Step(cfg, s, e).Some?
    ensures MovedCount(cfg, Step(cfg, s, e).value) <= MovedCount(cfg, s)
  {
    MilestoneStep(cfg, s, e);
  }

  lemma MilestoneStep(cfg: Config, s: State, e: Event)
    requires !s.pc.Moving? && !s.pc.Pausing? && Step(cfg, s, e).Some?
    ensures var t := Step(cfg, s, e).value; !t.pc.Moving? && (Moved in t.done <==> Moved in s.done)
  {
    hide MoveStep, MayTearDown, Parity.Holds;
  }

  lemma ProgressStep(cfg: Config, start: State, s: State, e: Event)
    requires Conserved(cfg, start, s) && Progress(cfg, start, s) && Ordered(cfg, s) && Step(cfg, s, e).Some?
    ensures Progress(cfg, start, Step(cfg, s, e).value)
  {
    hide Step;
    var t := Step(cfg, s, e).value;
    CountStep(cfg, s, e);
    ConservedStep(cfg, start, s, e);
    forall j | 0 <= j < MovedCount(cfg, t)
      ensures NamespaceMoved(start, t, cfg.namespaces[j])
    {
      if j < MovedCount(cfg, s) {
        NamespaceStays(cfg, start, s, e, cfg.namespaces[j]);
      }
    }
  }

  lemma InvariantStep(cfg: Config, start: State, s: State, e: Event)
    requires Invariant(cfg, start, s) && Step(cfg, s, e).Some?
    ensures Invariant(cfg, start, Step(cfg, s, e).value)
  {
    hide Step, Conserved, Progress, Ordered, TornDownLast;
    ConservedStep(cfg, start, s, e);
    ProgressStep(cfg, start, s, e);
    OrderedStep(cfg, s, e);
  }

  lemma {:induction false} RunInvariant(cfg: Config, kind: set<Object>, mgmt: set<Object>, events: seq<Event>)
    requires Run(cfg, Initial(kind, mgmt), events).Some?
    ensures Invariant(cfg, Initial(kind, mgmt), Run(cfg, Initial(kind, mgmt), events).value)
  {
    hide Step, Invariant;
    var start := Initial(kind, mgmt);
    if events == [] {
      InitialHolds(cfg, kind, mgmt);
    } else {
      var before := events[..|events| - 1];
      RunInvariant(cfg, kind, mgmt, before);
      InvariantStep(cfg, start, Run(cfg, start, before).value, events[|events| - 1]);
    }
  }

  lemma InitialHolds(cfg: Config, kind: set<Object>, mgmt: set<Object>)
    ensures Invariant(cfg, Initial(kind, mgmt), Initial(kind, mgmt))
  {
  }

  // ---------------------------------------------------------------- safety of whole runs

  /** When kind is gone, the pivot has done everything, in its order; nothing asked for kind to
      stay; kubectl points at the management cluster; and every object of every listed namespace
      has arrived there. */
  lemma TeardownIsSafe(cfg: Config, kind: set<Object>, mgmt: set<Object>, events: seq<Event>)
    requires Run(cfg, Initial(kind, mgmt), events).Some?
    ensures var s := Run(cfg, Initial(kind, mgmt), events).value;
      !s.kindAlive ==>
        && s.pc == Done && s.context == Management
        && s.done == [Moved, SystemReady, CsiReady, ReposSynced, ParityReached, Rebound]
        && cfg.enabled && cfg.target != NotApplicable && !cfg.dryRun && !cfg.stopBeforeWorkload
        && !cfg.keepKind && !cfg.noDeleteKind && cfg.kindName != ""
        && forall o :: o in kind && o.ns in cfg.namespaces ==> o in s.mgmt && o !in s.kind
  {
    hide Run, Step;
    RunInvariant(cfg, kind, mgmt, events);
    var s := Run(cfg, Initial(kind, mgmt), events).value;
    if !s.kindAlive {
      assert ALL[0] == Moved && ALL[5] == Rebound;
      forall o | o in kind && o.ns in cfg.namespaces
        ensures o in s.mgmt && o !in s.kind
      {
        var j :| 0 <= j < |cfg.namespaces| && cfg.namespaces[j] == o.ns;
        assert NamespaceMoved(Initial(kind, mgmt), s, cfg.namespaces[j]);
      }
    }
  }

  /** A failure anywhere, a dry run, a stop before the workload, a provider without a pivot target,
      and each of the keep flags leave kind alive; so does every state short of the end. */
  lemma KindStays(cfg: Config, kind: set<Object>, mgmt: set<Object>, events: seq<Event>)
    requires Run(cfg, Initial(kind, mgmt), events).Some?
    ensures var s := Run(cfg, Initial(kind, mgmt), events).value;
      (s.pc != Done || !cfg.enabled || cfg.target == NotApplicable || cfg.dryRun || cfg.stopBeforeWorkload
       || cfg.keepKind || cfg.noDeleteKind || cfg.kindName == "") ==> s.kindAlive
  {
    TeardownIsSafe(cfg, kind, mgmt, events);
  }

  lemma MovingNotDone(cfg: Config, s: State)
    requires Ordered(cfg, s)
    ensures s.pc.Moving? ==> Moved !in s.done
  {
  }

  // ---------------------------------------------------------------- the namespaces move in order

  /** The first `n` namespaces have been moved for good, and of all others only the next one may have
      been touched: what belongs to none of these is where it was. */
  ghost predicate MovedUpTo(cfg: Config, start: State, s: State, n: nat) {
    && n <= |cfg.namespaces|
    && (forall j :: 0 <= j < n ==> NamespaceMoved(start, s, cfg.namespaces[j]))
    && (forall o :: o in start.kind && o.ns !in Touched(cfg, n) ==> o in s.kind && (o in s.mgmt ==> o in start.mgmt))
  }

  function Touched(cfg: Config, n: nat): seq<string>
    requires n <= |cfg.namespaces|
  {
    if n < |cfg.namespaces| then cfg.namespaces[..n + 1] else cfg.namespaces
  }

  /** How far the move is at a program point, where that is known. */
  ghost predicate FarAs(cfg: Config, s: State, n: nat) {
    && (Early(s.pc) || s.pc.Pausing? || cfg.dryRun ==> n == 0)
    && (s.pc.Moving? && !cfg.dryRun ==> n == s.pc.i)
    && (Moved in s.done ==> n == |cfg.namespaces|)
  }

  /** What one step does to the namespaces, seen from the program point. */
  lemma FarStep(cfg: Config, s: State, e: Event, n: nat)
    requires Ordered(cfg, s) && FarAs(cfg, s, n) && Step(cfg, s, e).Some?
    ensures var moved := s.pc.Moving? && e.Move? && e.ok;
      FarAs(cfg, Step(cfg, s, e).value, if moved then n + 1 else n) && (moved ==> n == s.pc.i)
  {
    if s.pc.Moving? {
      FarMoving(cfg, s, e, n);
    } else if s.pc.Pausing? {
      FarPausing(cfg, s, e, n);
    } else {
      FarOther(cfg, s, e, n);
    }
  }

  lemma FarMoving(cfg: Config, s: State, e: Event, n: nat)
    requires Ordered(cfg, s) && FarAs(cfg, s, n) && Step(cfg, s, e).Some? && s.pc.Moving?
    ensures FarAs(cfg, Step(cfg, s, e).value, if e.Move? && e.ok then n + 1 else n) && (e.Move? ==> n == s.pc.i)
  {
    hide Parity.Holds;
    assert Moved !in s.done;
  }

  lemma FarPausing(cfg: Config, s: State, e: Event, n: nat)
    requires Ordered(cfg, s) && FarAs(cfg, s, n) && Step(cfg, s, e).Some? && s.pc.Pausing?
    ensures FarAs(cfg, Step(cfg, s, e).value, n)
  {
    hide Parity.Holds;
  }

  lemma FarOther(cfg: Config, s: State, e: Event, n: nat)
    requires Ordered(cfg, s) && FarAs(cfg, s, n) && Step(cfg, s, e).Some? && !s.pc.Moving? && !s.pc.Pausing?
    ensures FarAs(cfg, Step(cfg, s, e).value, n)
  {
    MilestoneStep(cfg, s, e);
    EarlyStep(cfg, s, e);
    hide Step;
  }

  lemma EarlyStep(cfg: Config, s: State, e: Event)
    requires !s.pc.Moving? && !s.pc.Pausing? && Step(cfg, s, e).Some?
    ensures var t := Step(cfg, s, e).value; Early(t.pc) || t.pc.Pausing? ==> Early(s.pc)
  {
    hide Parity.Holds, MoveStep, MayTearDown;
  }

  lemma TouchOne(cfg: Config, start: State, s: State, e: Event, n: nat)
    requires MovedUpTo(cfg, start, s, n) && Conserved(cfg, start, s) && Step(cfg, s, e).Some?
    requires s.pc.Moving? && e.Move? && n == s.pc.i
    ensures MovedUpTo(cfg, start, Step(cfg, s, e).value, if e.ok then n + 1 else n)
  {
    var t := Step(cfg, s, e).value;
    var ns := cfg.namespaces[n];
    ConservedStep(cfg, start, s, e);
    assert ns in Touched(cfg, n);
    assert forall o: Object :: o.ns != ns ==> (o in t.kind <==> o in s.kind) && (o in t.mgmt <==> o in s.mgmt);
    assert e.ok ==> NamespaceMoved(start, t, ns);
    hide Step;
    forall j | 0 <= j < n ensures NamespaceMoved(start, t, cfg.namespaces[j]) {
      NamespaceStays(cfg, start, s, e, cfg.namespaces[j]);
    }
    assert n + 1 < |cfg.namespaces| ==> Touched(cfg, n) <= Touched(cfg, n + 1);
  }

  lemma TouchNone(cfg: Config, start: State, s: State, e: Event, n: nat)
    requires MovedUpTo(cfg, start, s, n) && Step(cfg, s, e).Some? && !(s.pc.Moving? && e.Move?)
    ensures MovedUpTo(cfg, start, Step(cfg, s, e).value, n)
  {
    hide Step;
    OtherStepsKeep(cfg, s, e);
    var t := Step(cfg, s, e).value;
    forall j | 0 <= j < n ensures NamespaceMoved(start, t, cfg.namespaces[j]) {
      assert NamespaceMoved(start, s, cfg.namespaces[j]);
    }
  }

  /** In every run, whatever fails and wherever it ends: the namespaces that have been moved are the
      first ones of the list, at most the next one is half moved, and the rest is untouched. */
  lemma {:induction false} MovedInOrder(cfg: Config, kind: set<Object>, mgmt: set<Object>, events: seq<Event>)
    requires Run(cfg, Initial(kind, mgmt), events).Some?
    ensures var start, s := Initial(kind, mgmt), Run(cfg, Initial(kind, mgmt), events).value;
      exists n: nat :: MovedUpTo(cfg, start, s, n) && FarAs(cfg, s, n)
  {
    hide Step, MovedUpTo, FarAs;
    var start := Initial(kind, mgmt);
    if events == [] {
      NoneMoved(cfg, kind, mgmt);
    } else {
      var before, e := events[..|events| - 1], events[|events| - 1];
      MovedInOrder(cfg, kind, mgmt, before);
      RunInvariant(cfg, kind, mgmt, before);
      var s := Run(cfg, start, before).value;
      var n: nat :| MovedUpTo(cfg, start, s, n) && FarAs(cfg, s, n);
      FarStep(cfg, s, e, n);
      if s.pc.Moving? && e.Move? {
        MoveIsReal(cfg, s, e, n);
        TouchOne(cfg, start, s, e, n);
      } else {
        TouchNone(cfg, start, s, e, n);
      }
    }
  }

  lemma NoneMoved(cfg: Config, kind: set<Object>, mgmt: set<Object>)
    ensures MovedUpTo(cfg, Initial(kind, mgmt), Initial(kind, mgmt), 0) && FarAs(cfg, Initial(kind, mgmt), 0)
  {}

  lemma MoveIsReal(cfg: Config, s: State, e: Event, n: nat)
    requires s.pc.Moving? && e.Move? && Step(cfg, s, e).Some? && FarAs(cfg, s, n)
    ensures n == s.pc.i
  {}

  /** No object is ever lost: at every point of every run it is on kind or on the management
      cluster. A dry run moves nothing. A move that reported success has emptied its namespace. And
      wherever the run ends, only a first part of the list has been moved, and at most one namespace
      behind it has been touched. */
  lemma NothingIsLost(cfg: Config, kind: set<Object>, mgmt: set<Object>, events: seq<Event>)
    requires Run(cfg, Initial(kind, mgmt), events).Some?
    ensures var s := Run(cfg, Initial(kind, mgmt), events).value;
      && kind + mgmt <= s.kind + s.mgmt
      && (cfg.dryRun ==> s.kind == kind && s.mgmt == mgmt)
      && (s.pc.Moving? && !cfg.dryRun ==>
            forall j, o :: 0 <= j < s.pc.i < |cfg.namespaces| && o in kind && o.ns == cfg.namespaces[j] ==>
              o in s.mgmt && o !in s.kind)
      && (Moved in s.done ==> forall o :: o in kind && o.ns in cfg.namespaces ==> o in s.mgmt && o !in s.kind)
      && exists n: nat :: MovedUpTo(cfg, Initial(kind, mgmt), s, n) && FarAs(cfg, s, n)
  {
    hide Run, Step, Ordered, MovedUpTo, FarAs;
    RunInvariant(cfg, kind, mgmt, events);
    var start, s := Initial(kind, mgmt), Run(cfg, Initial(kind, mgmt), events).value;
    MovingNotDone(cfg, s);
    MovedInOrder(cfg, kind, mgmt, events);
    forall j, o | 0 <= j < MovedCount(cfg, s) && o in kind && o.ns == cfg.namespaces[j]
      ensures o in s.mgmt && o !in s.kind
    {
      assert NamespaceMoved(start, s, cfg.namespaces[j]);
    }
  }

  // ---------------------------------------------------------------- one round, two tries, no abort

  /** Parity is reached by a single round of the polling loop: one whose answers alone pass all six
      checks. */
  lemma {:induction false} ParityWitness(cfg: Config, start: State, events: seq<Event>)
    requires start.done == [] && Run(cfg, start, events).Some?
    ensures ParityReached in Run(cfg, start, events).value.done ==>
      exists i :: 0 <= i < |events| && events[i].Round? && Parity.Holds(cfg.workload, cfg.secrets, events[i].view)
  {
    hide Parity.Holds, Step;
    if events != [] {
      var before, e := events[..|events| - 1], events[|events| - 1];
      ParityWitness(cfg, start, before);
      var s := Run(cfg, start, before).value;
      ParityStep(cfg, s, e);
      if ParityReached in s.done {
        var i :| 0 <= i < |before| && before[i].Round? && Parity.Holds(cfg.workload, cfg.secrets, before[i].view);
        assert events[i] == before[i];
      }
    }
  }

  lemma ParityStep(cfg: Config, s: State, e: Event)
    requires Step(cfg, s, e).Some?
    ensures ParityReached in Step(cfg, s, e).value.done && ParityReached !in s.done ==>
      e.Round? && Parity.Holds(cfg.workload, cfg.secrets, e.view)
  {
    hide Parity.Holds;
  }

  /** The tries spent on namespace `j`: the moves made while the loop stood at it. */
  ghost function Tries(cfg: Config, start: State, events: seq<Event>, j: nat): nat
    requires Run(cfg, start, events).Some?
  {
    if events == [] then 0
    else
      var before := events[..|events| - 1];
      var s := Run(cfg, start, before).value;
      Tries(cfg, start, before, j) + (if s.pc.Moving? && s.pc.i == j && events[|events| - 1].Move? then 1 else 0)
  }

  /** Before namespace `j` is reached there are no tries on it. */
  predicate BeforeNamespace(pc: Pc, j: nat) {
    Early(pc) || pc.Pausing? || (pc.Moving? && pc.i < j)
  }

  /** How one step moves the namespace loop, seen from namespace `j`. */
  ghost predicate TriesGoOn(s: State, e: Event, t: State, j: nat) {
    && (BeforeNamespace(t.pc, j) ==> BeforeNamespace(s.pc, j))
    && (t.pc.Moving? && t.pc.i == j ==>
          (BeforeNamespace(s.pc, j) && t.pc.attempt == 1)
          || (s.pc.Moving? && s.pc.i == j && e.Move? && t.pc.attempt == s.pc.attempt + 1))
  }

  lemma TriesMoving(cfg: Config, s: State, e: Event, j: nat)
    requires s.pc.Moving? && Step(cfg, s, e).Some? && 1 <= s.pc.attempt <= 2
    ensures TriesGoOn(s, e, Step(cfg, s, e).value, j)
  {
  }

  lemma TriesElsewhere(cfg: Config, s: State, e: Event, j: nat)
    requires !s.pc.Moving? && Step(cfg, s, e).Some?
    ensures TriesGoOn(s, e, Step(cfg, s, e).value, j)
  {
    hide Parity.Holds, MoveStep, MayTearDown;
  }

  /** At each position of the list there are at most two tries, in any run. */
  lemma {:induction false} TwoTriesAt(cfg: Config, kind: set<Object>, mgmt: set<Object>, events: seq<Event>, j: nat)
    requires Run(cfg, Initial(kind, mgmt), events).Some?
    ensures var s := Run(cfg, Initial(kind, mgmt), events).value;
      var n := Tries(cfg, Initial(kind, mgmt), events, j);
      && n <= 2
      && (BeforeNamespace(s.pc, j) ==> n == 0)
      && (s.pc.Moving? && s.pc.i == j ==> n == s.pc.attempt - 1)
  {
    hide Step;
    var start := Initial(kind, mgmt);
    if events != [] {
      var before, e := events[..|events| - 1], events[|events| - 1];
      TwoTriesAt(cfg, kind, mgmt, before, j);
      RunInvariant(cfg, kind, mgmt, before);
      var s := Run(cfg, start, before).value;
      AttemptBound(cfg, start, s);
      if s.pc.Moving? {
        TriesMoving(cfg, s, e, j);
      } else {
        TriesElsewhere(cfg, s, e, j);
      }
    }
  }

  /** The moves of namespace `ns`, wherever it stands in the list. */
  ghost function TriesOf(cfg: Config, start: State, events: seq<Event>, ns: string): nat
    requires Run(cfg, start, events).Some?
  {
    if events == [] then 0
    else
      var before := events[..|events| - 1];
      var s := Run(cfg, start, before).value;
      var tried := s.pc.Moving? && s.pc.i < |cfg.namespaces| && cfg.namespaces[s.pc.i] == ns;
      TriesOf(cfg, start, before, ns) + (if tried && events[|events| - 1].Move? then 1 else 0)
  }

  predicate NoRepeats(names: seq<string>) {
    forall i, j :: 0 <= i < j < |names| ==> names[i] != names[j]
  }

  /** In a list without repetitions the moves of a namespace are those at its position. */
  lemma {:induction false} TriesAtPosition(cfg: Config, start: State, events: seq<Event>, j: nat)
    requires Run(cfg, start, events).Some? && NoRepeats(cfg.namespaces) && j < |cfg.namespaces|
    ensures TriesOf(cfg, start, events, cfg.namespaces[j]) == Tries(cfg, start, events, j)
  {
    hide Step;
    if events != [] {
      TriesAtPosition(cfg, start, events[..|events| - 1], j);
    }
  }

  lemma {:induction false} NotListed(cfg: Config, start: State, events: seq<Event>, ns: string)
    requires Run(cfg, start, events).Some? && ns !in cfg.namespaces
    ensures TriesOf(cfg, start, events, ns) == 0
  {
    hide Step;
    if events != [] {
      NotListed(cfg, start, events[..|events| - 1], ns);
    }
  }

  /** No namespace is moved more than twice, in any run, when the list has no repetitions. */
  lemma AtMostTwoTries(cfg: Config, kind: set<Object>, mgmt: set<Object>, events: seq<Event>, ns: string)
    requires Run(cfg, Initial(kind, mgmt), events).Some? && NoRepeats(cfg.namespaces)
    ensures TriesOf(cfg, Initial(kind, mgmt), events, ns) <= 2
  {
    hide Run, Step;
    if ns in cfg.namespaces {
      var j :| 0 <= j < |cfg.namespaces| && cfg.namespaces[j] == ns;
      TriesAtPosition(cfg, Initial(kind, mgmt), events, j);
      TwoTriesAt(cfg, kind, mgmt, events, j);
    } else {
      NotListed(cfg, Initial(kind, mgmt), events, ns);
    }
  }

  lemma AttemptBound(cfg: Config, start: State, s: State)
    requires Invariant(cfg, start, s)
    ensures s.pc.Moving? ==> 1 <= s.pc.attempt <= 2
  {
  }

  /** Whether the handoff of the bootstrap secrets fails makes no difference to any run. */
  lemma {:induction false} HandOffDoesNotAbort(cfg: Config, start: State, events: seq<Event>, i: nat, ok: bool)
    requires i < |events| && Run(cfg, start, events).Some?
    requires Run(cfg, start, events[..i]).Some? && Run(cfg, start, events[..i]).value.pc == HandOff
    ensures Run(cfg, start, events[i := Call(ok)]) == Run(cfg, start, events)
  {
    hide Step;
    var n := |events| - 1;
    var other := events[i := Call(ok)];
    if i == n {
      assert other[..n] == events[..n];
      HandOffStep(cfg, Run(cfg, start, events[..n]).value, events[n], ok);
    } else {
      assert other[..n] == events[..n][i := Call(ok)] && other[n] == events[n];
      assert events[..n][..i] == events[..i];
      HandOffDoesNotAbort(cfg, start, events[..n], i, ok);
    }
  }

  lemma HandOffStep(cfg: Config, s: State, e: Event, ok: bool)
    requires s.pc == HandOff && Step(cfg, s, e).Some?
    ensures Step(cfg, s, Call(ok)) == Step(cfg, s, e)
  {
    hide Parity.Holds;
  }

  lemma MoveStepIs(cfg: Config, s: State, ok: bool, copied: set<Object>, deleted: set<Object>)
    requires s.pc.Moving? && s.pc.i < |cfg.namespaces| && !cfg.dryRun
    ensures var ns := cfg.namespaces[s.pc.i];
      Step(cfg, s, Move(ok, copied, deleted))
        == Some(if ok then NextNamespace(cfg, MoveAll(s, ns), s.pc.i + 1)
           else MovePart(s, ns, copied, deleted).(pc :=
             if s.pc.attempt < 2 then Moving(s.pc.i, s.pc.attempt + 1) else Failed))
  {
  }

  // The steps, one program point at a time.

  lemma StartIs(cfg: Config, s: State, ok: bool)
    ensures s.pc == Provision ==> Step(cfg, s, Call(ok)) == Some(AfterCall(s, ok, InitCapi))
    ensures s.pc == InitCapi ==> Step(cfg, s, Call(ok)) == Some(AfterCall(s, ok, PrepareMove))
    ensures s.pc == PrepareMove ==> Step(cfg, s, Call(ok)) == Some(AfterCall(s, ok, Pausing))
    ensures s.pc == Pausing ==> Step(cfg, s, Call(ok)) == Some(NextNamespace(cfg, s, 0))
  {
    hide NextNamespace, AfterCall;
  }

  lemma GateIs(cfg: Config, s: State)
    requires s.pc == Gate
    ensures var p := cfg.enabled && cfg.target != NotApplicable;
      Step(cfg, s, Decide) == Some(s.(pivoting := p, pc := if p then Provision else StopCheck))
  {
  }

  lemma DryMoveIs(cfg: Config, s: State, ok: bool)
    requires s.pc.Moving? && s.pc.i < |cfg.namespaces| && cfg.dryRun
    ensures Step(cfg, s, Call(ok)) == Some(if ok then NextNamespace(cfg, s, s.pc.i + 1) else s.(pc := Failed))
  {
    hide NextNamespace;
  }

  lemma PreparingIs(cfg: Config, s: State, ok: bool)
    ensures s.pc == HandOff ==> Step(cfg, s, Call(ok)) == Some(s.(pc := Connect))
    ensures s.pc == Connect ==> Step(cfg, s, Call(ok)) == Some(AfterCall(s, ok, System))
    ensures s.pc == System ==>
      Step(cfg, s, Call(ok)) == Some(if ok then NextDriver(cfg, Reach(s, SystemReady, System), 0) else s.(pc := Failed))
    ensures s.pc == Sync ==>
      Step(cfg, s, Call(ok)) == Some(if ok then Reach(s, ReposSynced, Poll) else s.(pc := Failed))
    ensures s.pc == Rebind ==>
      Step(cfg, s, Call(ok))
        == Some(if ok then Reach(s, Rebound, StopCheck).(context := Management) else s.(pc := Failed))
  {
    hide NextDriver, Reach, AfterCall;
  }

  lemma DriverIs(cfg: Config, s: State, i: nat, r: CsiResult)
    requires s.pc == Csi(i)
    ensures Step(cfg, s, Install(r)) == Some(if r == InstallFailed then s.(pc := Failed) else NextDriver(cfg, s, i + 1))
  {
    hide NextDriver;
  }

  lemma PollIs(cfg: Config, s: State, v: Parity.View)
    requires s.pc == Poll
    ensures Step(cfg, s, Timeout) == Some(s.(pc := Failed))
    ensures Step(cfg, s, Round(v))
      == Some(if Parity.Holds(cfg.workload, cfg.secrets, v) then Reach(s, ParityReached, Rebind) else s)
  {
    hide Reach, Parity.Holds;
  }

  lemma TeardownStep(cfg: Config, s: State, ok: bool)
    requires s.pc == Teardown
    ensures var asked := !cfg.keepKind && !cfg.noDeleteKind && cfg.kindName != "";
      Step(cfg, s, Call(ok)) == Some(s.(pc := Done, kindAlive := s.kindAlive && !(asked && ok)))
  {
  }

  lemma StopStep(cfg: Config, s: State)
    requires s.pc == StopCheck
    ensures Step(cfg, s, Decide) == Some(s.(pc := if cfg.stopBeforeWorkload then Done else Workload))
  {
  }

  lemma WorkloadStep(cfg: Config, s: State)
    requires s.pc == Workload
    ensures Step(cfg, s, Call(true)) == Some(s.(pc := if s.pivoting then Teardown else Done))
    ensures Step(cfg, s, Call(false)) == Some(s.(pc := Failed))
  {
  }
}
