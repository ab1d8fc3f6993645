/** Which calls a run of `Pivot` has made, and which of them may fail
    (internal/orchestrator/bootstrap.go and pivot_sequence.go). */
module PivotSteps {
  import opened Wrappers
  import opened Pivot
  import Parity

  /** The program point at which event `k` happens. */
  ghost function At(cfg: Config, start: State, events: seq<Event>, k: nat): Pc
    requires k <= |events|
  {
    var r := Run(cfg, start, events[..k]);
    if r.Some? then r.value.pc else Failed
  }

  lemma {:induction false} PrefixRuns(cfg: Config, start: State, events: seq<Event>, k: nat)
    requires k <= |events| && Run(cfg, start, events).Some?
    ensures Run(cfg, start, events[..k]).Some?
    decreases |events|
  {
    hide Step;
    if k < |events| {
      var n := |events| - 1;
      PrefixRuns(cfg, start, events[..n], k);
      assert events[..n][..k] == events[..k];
    } else {
      assert events[..k] == events;
    }
  }

  lemma AtPrefix(cfg: Config, start: State, events: seq<Event>, k: nat)
    requires events != [] && k < |events|
    ensures At(cfg, start, events[..|events| - 1], k) == At(cfg, start, events, k)
  {
    hide Run;
    assert events[..|events| - 1][..k] == events[..k];
  }

  // ---------------------------------------------------------------- failures

  /** The event is a failure that ends the run at this point. */
  predicate Fatal(pc: Pc, e: Event) {
    || e.Timeout?
    || (e.Install? && e.result == InstallFailed)
    || (e.Move? && !e.ok && pc.Moving? && pc.attempt != 1)
    || (e.Call? && !e.ok && !pc.Pausing? && !pc.HandOff? && !pc.Teardown?)
  }

  lemma FatalStep(cfg: Config, s: State, e: Event)
    requires Step(cfg, s, e).Some? && Fatal(s.pc, e) && (s.pc.Moving? ==> 1 <= s.pc.attempt)
    ensures Step(cfg, s, e).value.pc == Failed
  {
    hide Parity.Holds;
  }

  lemma FailedStops(cfg: Config, s: State, e: Event)
    requires s.pc == Failed || s.pc == Done
    ensures Step(cfg, s, e).None?
  {
  }

  /** A call that fails ends the run as a failure, there and then: every call but the pause of the
      reconcilers, the handoff and the deletion of kind, the second try of a move, every driver, and
      the polling that runs out of time. */
  lemma FailureEnds(cfg: Config, kind: set<Object>, mgmt: set<Object>, events: seq<Event>, k: nat)
    requires Run(cfg, Initial(kind, mgmt), events).Some?
    requires k < |events| && Fatal(At(cfg, Initial(kind, mgmt), events, k), events[k])
    ensures k == |events| - 1 && Run(cfg, Initial(kind, mgmt), events).value.pc == Failed
  {
    hide Step, Fatal;
    var start, before := Initial(kind, mgmt), events[..k];
    PrefixRuns(cfg, start, events, k);
    PrefixRuns(cfg, start, events, k + 1);
    RunInvariant(cfg, kind, mgmt, before);
    assert events[..k + 1][..k] == before;
    var s := Run(cfg, start, before).value;
    FatalStep(cfg, s, events[k]);
    if k < |events| - 1 {
      PrefixRuns(cfg, start, events, k + 2);
      assert events[..k + 2][..k + 1] == events[..k + 1];
      FailedStops(cfg, Run(cfg, start, events[..k + 1]).value, events[k + 1]);
      assert false;
    }
    assert events[..k + 1] == events;
  }

  // ---------------------------------------------------------------- the steps of a pivot

  /** The program points of a pivot, in their order. */
  function Stage(pc: Pc): nat {
    match pc
    case Gate => 0
    case Provision => 1
    case InitCapi => 2
    case PrepareMove => 3
    case Pausing => 4
    case Moving(_, _) => 5
    case HandOff => 6
    case Connect => 7
    case System => 8
    case Csi(_) => 9
    case Sync => 10
    case Poll => 11
    case Rebind => 12
    case StopCheck => 13
    case Workload => 14
    case Teardown => 15
    case Done => 16
    case Failed => 17
  }

  /** The run has stood at the stage. */
  ghost predicate Passed(cfg: Config, start: State, events: seq<Event>, n: nat) {
    exists k :: 0 <= k < |events| && Stage(At(cfg, start, events, k)) == n
  }

  /** There is one namespace after the other, and one driver after the other; all other stages are
      taken one by one. */
  predicate Loops(n: nat) { n == 5 || n == 9 }

  ghost predicate OneFurther(s: State, t: State) {
    && (t.pc == Done || t.pc == Failed || !t.pivoting || Stage(t.pc) == Stage(s.pc) || Stage(t.pc) == Stage(s.pc) + 1
        || (Stage(t.pc) == Stage(s.pc) + 2 && Loops(Stage(s.pc) + 1)))
    && (t.pivoting ==> s.pivoting || s.pc == Gate)
  }

  lemma StageMove(cfg: Config, s: State, e: Event)
    requires s.pc.Moving? && Step(cfg, s, e).Some?
    ensures OneFurther(s, Step(cfg, s, e).value)
  {
  }

  lemma StageSystem(cfg: Config, s: State, e: Event)
    requires (s.pc.HandOff? || s.pc.Connect? || s.pc.System? || s.pc.Csi?) && Step(cfg, s, e).Some?
    ensures OneFurther(s, Step(cfg, s, e).value)
  {
    hide MoveStep, Parity.Holds, MayTearDown;
  }

  lemma StageOther(cfg: Config, s: State, e: Event)
    requires (Early(s.pc) || s.pc.Pausing? || s.pc.Sync? || s.pc.Poll? || s.pc.Rebind?) && Step(cfg, s, e).Some?
    ensures OneFurther(s, Step(cfg, s, e).value)
  {
    hide MoveStep, Parity.Holds, MayTearDown;
  }

  lemma StageLate(cfg: Config, s: State, e: Event)
    requires Late(s.pc) && Step(cfg, s, e).Some?
    ensures OneFurther(s, Step(cfg, s, e).value)
  {
    hide MoveStep, Parity.Holds, MayTearDown;
  }

  lemma StageStep(cfg: Config, s: State, e: Event)
    requires Step(cfg, s, e).Some?
    ensures OneFurther(s, Step(cfg, s, e).value)
  {
    hide Step, OneFurther;
    if s.pc.Moving? {
      StageMove(cfg, s, e);
    } else if s.pc.HandOff? || s.pc.Connect? || s.pc.System? || s.pc.Csi? {
      StageSystem(cfg, s, e);
    } else if Late(s.pc) {
      StageLate(cfg, s, e);
    } else {
      StageOther(cfg, s, e);
    }
  }

  lemma {:induction false} StagesPassed(cfg: Config, kind: set<Object>, mgmt: set<Object>, events: seq<Event>, n: nat)
    requires Run(cfg, Initial(kind, mgmt), events).Some? && !Loops(n)
    ensures var s := Run(cfg, Initial(kind, mgmt), events).value;
      s.pivoting && n < Stage(s.pc) && s.pc != Done && s.pc != Failed ==> Passed(cfg, Initial(kind, mgmt), events, n)
  {
    hide Step, Stage;
    var start := Initial(kind, mgmt);
    if events == [] {
      assert Stage(Gate) == 0 by { GateIsFirst(); }
    } else {
      var m := |events| - 1;
      var before := events[..m];
      StagesPassed(cfg, kind, mgmt, before, n);
      RunInvariant(cfg, kind, mgmt, before);
      var s, t := Run(cfg, start, before).value, Run(cfg, start, events).value;
      StageStep(cfg, s, events[m]);
      if t.pivoting && n < Stage(t.pc) && t.pc != Done && t.pc != Failed {
        GateIsFirst();
        NotEnded(cfg, s, events[m]);
        if n < Stage(s.pc) {
          var k :| 0 <= k < m && Stage(At(cfg, start, before, k)) == n;
          AtPrefix(cfg, start, events, k);
        } else {
          assert At(cfg, start, events, m) == s.pc;
        }
      }
    }
  }

  lemma GateIsFirst()
    ensures Stage(Gate) == 0
  {
  }

  lemma NotEnded(cfg: Config, s: State, e: Event)
    requires Step(cfg, s, e).Some?
    ensures s.pc != Done && s.pc != Failed
  {
  }

  /** The drivers that have been installed, or had nothing to install. */
  function Installs(events: seq<Event>): nat {
    if events == [] then 0
    else
      var e := events[|events| - 1];
      Installs(events[..|events| - 1]) + (if e.Install? && e.result != InstallFailed then 1 else 0)
  }

  ghost predicate InstalledUpTo(cfg: Config, s: State, n: nat) {
    && (s.pc.Csi? ==> n == s.pc.driver < cfg.drivers)
    && (s.pivoting && Stage(s.pc) < 9 ==> n == 0)
    && (s.pivoting && 9 < Stage(s.pc) < 16 ==> n == cfg.drivers)
    && (s.pc == Gate ==> n == 0)
  }

  lemma InstallDriver(cfg: Config, s: State, e: Event, n: nat)
    requires Step(cfg, s, e).Some? && Ordered(cfg, s) && InstalledUpTo(cfg, s, n) && (s.pc.System? || s.pc.Csi?)
    ensures InstalledUpTo(cfg, Step(cfg, s, e).value, n + (if e.Install? && e.result != InstallFailed then 1 else 0))
  {
    hide MoveStep, Parity.Holds, MayTearDown;
  }

  lemma InstallMove(cfg: Config, s: State, e: Event, n: nat)
    requires Step(cfg, s, e).Some? && Ordered(cfg, s) && InstalledUpTo(cfg, s, n) && s.pc.Moving?
    ensures InstalledUpTo(cfg, Step(cfg, s, e).value, n) && !e.Install?
  {
    hide MoveAll, MovePart;
  }

  lemma InstallNothing(cfg: Config, s: State, e: Event, n: nat)
    requires Step(cfg, s, e).Some? && Ordered(cfg, s) && InstalledUpTo(cfg, s, n)
    requires !s.pc.Moving? && !s.pc.System? && !s.pc.Csi?
    ensures InstalledUpTo(cfg, Step(cfg, s, e).value, n) && !e.Install?
  {
    hide MoveStep, Parity.Holds, MayTearDown;
  }

  lemma InstallStep(cfg: Config, s: State, e: Event, n: nat)
    requires Step(cfg, s, e).Some? && Ordered(cfg, s) && InstalledUpTo(cfg, s, n)
    ensures InstalledUpTo(cfg, Step(cfg, s, e).value, n + (if e.Install? && e.result != InstallFailed then 1 else 0))
  {
    hide Step, Ordered, InstalledUpTo;
    if s.pc.System? || s.pc.Csi? {
      InstallDriver(cfg, s, e, n);
    } else if s.pc.Moving? {
      InstallMove(cfg, s, e, n);
    } else {
      InstallNothing(cfg, s, e, n);
    }
  }

  lemma {:induction false} DriversInstalled(cfg: Config, kind: set<Object>, mgmt: set<Object>, events: seq<Event>)
    requires Run(cfg, Initial(kind, mgmt), events).Some?
    ensures InstalledUpTo(cfg, Run(cfg, Initial(kind, mgmt), events).value, Installs(events))
  {
    hide Step, InstalledUpTo;
    if events == [] {
      StartsEmpty(cfg, Initial(kind, mgmt));
    } else {
      var before := events[..|events| - 1];
      DriversInstalled(cfg, kind, mgmt, before);
      RunInvariant(cfg, kind, mgmt, before);
      InstallStep(cfg, Run(cfg, Initial(kind, mgmt), before).value, events[|events| - 1], Installs(before));
    }
  }

  lemma StartsEmpty(cfg: Config, s: State)
    requires s.pc == Gate && !s.pivoting
    ensures InstalledUpTo(cfg, s, 0)
  {
  }

  lemma DeletionIsTeardown(cfg: Config, s: State, e: Event)
    requires Step(cfg, s, e).Some?
    ensures s.kindAlive && !Step(cfg, s, e).value.kindAlive ==> s.pc == Teardown && e == Call(true)
  {
    hide Parity.Holds, MayTearDown;
    assert e.Call? ==> e == Call(e.ok);
  }

  lemma AliveBefore(cfg: Config, s: State, e: Event)
    requires Step(cfg, s, e).Some? && TornDownLast(cfg, s)
    ensures s.kindAlive
  {
    hide Parity.Holds, MoveAll, MovePart;
  }

  /** A run that has deleted kind has taken every step of the pivot: the gate, the management cluster,
      the installation of CAPI, the checks, the pause, the handoff, the client, the system, the repo
      sync, the polling, the rebind, the stop check, the workload and, last, the deletion, which
      succeeded; and it has installed every driver. */
  lemma EveryStepIsTaken(cfg: Config, kind: set<Object>, mgmt: set<Object>, events: seq<Event>, pc: Pc)
    requires Run(cfg, Initial(kind, mgmt), events).Some? && !Run(cfg, Initial(kind, mgmt), events).value.kindAlive
    requires pc in {Gate, Provision, InitCapi, PrepareMove, Pausing, HandOff, Connect, System, Sync, Poll, Rebind,
      StopCheck, Workload, Teardown}
    ensures exists k :: 0 <= k < |events| && At(cfg, Initial(kind, mgmt), events, k) == pc
    ensures events != [] && events[|events| - 1] == Call(true) && Installs(events) == cfg.drivers
  {
    hide Step, Ordered, Conserved, Progress;
    var start := Initial(kind, mgmt);
    var m := |events| - 1;
    var before := events[..m];
    RunInvariant(cfg, kind, mgmt, before);
    var s := Run(cfg, start, before).value;
    AliveBefore(cfg, s, events[m]);
    DeletionIsTeardown(cfg, s, events[m]);
    TeardownPivots(cfg, s);
    DriversInstalled(cfg, kind, mgmt, before);
    assert At(cfg, start, events, m) == Teardown;
    if pc != Teardown {
      StagesPassed(cfg, kind, mgmt, before, Stage(pc));
      var k :| 0 <= k < m && Stage(At(cfg, start, before, k)) == Stage(pc);
      AtPrefix(cfg, start, events, k);
      OneStage(At(cfg, start, events, k), pc);
    }
  }

  lemma TeardownPivots(cfg: Config, s: State)
    requires Ordered(cfg, s) && s.pc == Teardown
    ensures s.pivoting
  {
  }

  lemma OneStage(a: Pc, b: Pc)
    requires Stage(a) == Stage(b) && !b.Moving? && !b.Csi?
    ensures a == b
  {
  }
}
