/** The parallel price comparison (internal/cost/compare.go): workers, a wait group, a watcher that
    closes the channel, and a consumer that drains it, as interleaved steps. */
module Fanout {
  import opened Wrappers

  /** One job for each goroutine: the row it will send, or None for a provider that is not
      registered, which sends nothing. `capacity` is the buffer size of the channel; 0 is a
      rendezvous channel. */
  datatype Setup<Row> = Setup(rows: seq<Option<Row>>, capacity: nat)

  datatype Worker = NotLaunched | Running | Leaving | Finished

  datatype Watcher = NotStarted | Waiting | HasClosed

  datatype Consumer = Launching | Ranging | Ended

  datatype State<Row> = State(
    launched: nat,
    workers: seq<Worker>,
    wg: int,
    buffer: seq<Row>,
    closed: bool,
    watcher: Watcher,
    consumer: Consumer,
    out: seq<Row>,
    panicked: bool)

  /** The atomic steps of the goroutines. */
  datatype Step =
    | Launch
    | StartWatcher
    | Skip(i: nat)
    | Send(i: nat)
    | HandOver(i: nat)
    | MarkDone(i: nat)
    | CloseChannel
    | Receive
    | EndRange

  function Initial<Row>(s: Setup<Row>): State<Row> {
    State(0, seq(|s.rows|, i => NotLaunched), 0, [], false, NotStarted, Launching, [], false)
  }

  predicate At<Row>(t: State<Row>, i: nat, w: Worker) { i < |t.workers| && t.workers[i] == w }

  /** When a step can be taken. A send on a closed channel, a second close and a negative wait
      group are not ruled out here: they can be taken, and panic. */
  predicate Enabled<Row>(s: Setup<Row>, t: State<Row>, a: Step) {
    && !t.panicked && |t.workers| == |s.rows|
    && match a
       case Launch => t.consumer == Launching && t.launched < |s.rows|
       case StartWatcher => t.consumer == Launching && t.launched == |s.rows|
       case Skip(i) => At(t, i, Running) && s.rows[i].None?
       case Send(i) => At(t, i, Running) && s.rows[i].Some? && (t.closed || |t.buffer| < s.capacity)
       case HandOver(i) => At(t, i, Running) && s.rows[i].Some? && !t.closed && t.buffer == [] && t.consumer == Ranging
       case MarkDone(i) => At(t, i, Leaving)
       case CloseChannel => t.watcher == Waiting && t.wg == 0
       case Receive => t.consumer == Ranging && t.buffer != []
       case EndRange => t.consumer == Ranging && t.buffer == [] && t.closed
  }

  function Apply<Row>(s: Setup<Row>, t: State<Row>, a: Step): State<Row>
    requires Enabled(s, t, a)
  {
    match a
    case Launch =>
      t.(launched := t.launched + 1, wg := t.wg + 1,
         workers := if t.launched < |t.workers| then t.workers[t.launched := Running] else t.workers)
    case StartWatcher => t.(watcher := Waiting, consumer := Ranging)
    case Skip(i) => t.(workers := t.workers[i := Leaving])
    case Send(i) =>
      if t.closed then t.(panicked := true)
      else t.(buffer := t.buffer + [s.rows[i].value], workers := t.workers[i := Leaving])
    case HandOver(i) => t.(out := t.out + [s.rows[i].value], workers := t.workers[i := Leaving])
    case MarkDone(i) =>
      if t.wg <= 0 then t.(panicked := true)
      else t.(wg := t.wg - 1, workers := t.workers[i := Finished])
    case CloseChannel =>
      if t.closed then t.(panicked := true) else t.(closed := true, watcher := HasClosed)
    case Receive => t.(out := t.out + [t.buffer[0]], buffer := t.buffer[1..])
    case EndRange => t.(consumer := Ended)
  }

  // ---------------------------------------------------------------- what the workers have done

  predicate Busy(w: Worker) { w == Running || w == Leaving }

  function BusyCount(ws: seq<Worker>): nat {
    if ws == [] then 0 else BusyCount(ws[..|ws| - 1]) + (if Busy(ws[|ws| - 1]) then 1 else 0)
  }

  /** The rows of the workers that are past their send. */
  function Sent<Row>(rows: seq<Option<Row>>, ws: seq<Worker>): multiset<Row>
    requires |rows| == |ws|
  {
    if ws == [] then multiset{}
    else
      var n := |ws| - 1;
      Sent(rows[..n], ws[..n])
        + (if (ws[n] == Leaving || ws[n] == Finished) && rows[n].Some? then multiset{rows[n].value} else multiset{})
  }

  /** The rows of all jobs. */
  function AllRows<Row>(rows: seq<Option<Row>>): multiset<Row> {
    if rows == [] then multiset{}
    else
      var n := |rows| - 1;
      AllRows(rows[..n]) + (if rows[n].Some? then multiset{rows[n].value} else multiset{})
  }

  /** The same rows as a list, in the order of the jobs. */
  function RowsInOrder<Row>(rows: seq<Option<Row>>): (r: seq<Row>) {
    if rows == [] then []
    else
      var n := |rows| - 1;
      RowsInOrder(rows[..n]) + (if rows[n].Some? then [rows[n].value] else [])
  }

  lemma {:induction false} AllRowsInOrder<Row>(rows: seq<Option<Row>>)
    ensures multiset(RowsInOrder(rows)) == AllRows(rows)
  {
    if rows != [] {
      AllRowsInOrder(rows[..|rows| - 1]);
    }
  }

  /** The work left, counted in steps. */
  function Weight(w: Worker): nat {
    match w case NotLaunched => 3 case Running => 2 case Leaving => 1 case Finished => 0
  }

  function Weights(ws: seq<Worker>): nat {
    if ws == [] then 0 else Weights(ws[..|ws| - 1]) + Weight(ws[|ws| - 1])
  }

  function Measure<Row>(t: State<Row>): nat {
    2 * Weights(t.workers) + |t.buffer| + (if t.closed then 0 else 1)
    + (match t.consumer case Launching => 2 case Ranging => 1 case Ended => 0)
  }

  // ---------------------------------------------------------------- the invariant

  /** Everything but the rows: who runs, the wait group and the watcher. */
  ghost predicate Control<Row>(s: Setup<Row>, t: State<Row>) {
    && |t.workers| == |s.rows| && t.launched <= |s.rows|
    && !t.panicked
    && t.wg == BusyCount(t.workers)
    && (forall i :: 0 <= i < |s.rows| ==> (t.workers[i] == NotLaunched <==> i >= t.launched))
    && (t.consumer == Launching <==> t.watcher == NotStarted)
    && (t.watcher != NotStarted ==> t.launched == |s.rows|)
    && (t.closed <==> t.watcher == HasClosed)
    && (t.closed ==> forall i :: 0 <= i < |s.rows| ==> t.workers[i] == Finished)
    && (t.consumer == Ended ==> t.closed)
  }

  /** The rows sent so far are in the buffer or with the consumer. */
  ghost predicate Rows<Row>(s: Setup<Row>, t: State<Row>) {
    && |t.workers| == |s.rows|
    && |t.buffer| <= s.capacity
    && (t.consumer == Ended ==> t.buffer == [])
    && multiset(t.out) + multiset(t.buffer) == Sent(s.rows, t.workers)
  }

  ghost predicate Invariant<Row>(s: Setup<Row>, t: State<Row>) {
    Control(s, t) && Rows(s, t)
  }

  // One worker changes.

  lemma {:induction false} BusyUpdate(ws: seq<Worker>, i: nat, w: Worker)
    requires i < |ws|
    ensures BusyCount(ws[i := w]) == BusyCount(ws) - (if Busy(ws[i]) then 1 else 0) + (if Busy(w) then 1 else 0)
  {
    var n := |ws| - 1;
    if i < n {
      BusyUpdate(ws[..n], i, w);
      assert ws[i := w][..n] == ws[..n][i := w];
    } else {
      assert ws[i := w][..n] == ws[..n];
    }
  }

  lemma {:induction false} WeightUpdate(ws: seq<Worker>, i: nat, w: Worker)
    requires i < |ws|
    ensures Weights(ws[i := w]) == Weights(ws) - Weight(ws[i]) + Weight(w)
  {
    var n := |ws| - 1;
    if i < n {
      WeightUpdate(ws[..n], i, w);
      assert ws[i := w][..n] == ws[..n][i := w];
    } else {
      assert ws[i := w][..n] == ws[..n];
    }
  }

  predicate Past(w: Worker) { w == Leaving || w == Finished }

  /** What one worker has added to the rows. */
  function Share<Row>(r: Option<Row>, w: Worker): multiset<Row> {
    if Past(w) && r.Some? then multiset{r.value} else multiset{}
  }

  lemma {:induction false} SentUpdate<Row>(rows: seq<Option<Row>>, ws: seq<Worker>, i: nat, w: Worker)
    requires i < |ws| == |rows| && !Past(ws[i])
    ensures Sent(rows, ws[i := w]) == Sent(rows, ws) + Share(rows[i], w)
  {
    hide Sent, Share;
    var n := |ws| - 1;
    SentLast(rows, ws);
    SentLast(rows, ws[i := w]);
    if i < n {
      SentUpdate(rows[..n], ws[..n], i, w);
      assert ws[i := w][..n] == ws[..n][i := w];
    } else {
      assert ws[i := w][..n] == ws[..n];
      NoShare(rows[i], ws[i]);
    }
  }

  lemma SentLast<Row>(rows: seq<Option<Row>>, ws: seq<Worker>)
    requires |rows| == |ws| && ws != []
    ensures var n := |ws| - 1; Sent(rows, ws) == Sent(rows[..n], ws[..n]) + Share(rows[n], ws[n])
  {
  }

  lemma NoShare<Row>(r: Option<Row>, w: Worker)
    requires !Past(w)
    ensures Share(r, w) == multiset{}
  {
  }

  lemma {:induction false} SentSame<Row>(rows: seq<Option<Row>>, ws: seq<Worker>, i: nat, w: Worker)
    requires i < |ws| == |rows| && (Past(ws[i]) <==> Past(w))
    ensures Sent(rows, ws[i := w]) == Sent(rows, ws)
  {
    var n := |ws| - 1;
    if i < n {
      SentSame(rows[..n], ws[..n], i, w);
      assert ws[i := w][..n] == ws[..n][i := w];
    } else {
      assert ws[i := w][..n] == ws[..n];
    }
  }

  lemma {:induction false} BusyZero(ws: seq<Worker>)
    ensures BusyCount(ws) == 0 <==> forall i :: 0 <= i < |ws| ==> !Busy(ws[i])
  {
    if ws != [] {
      var n := |ws| - 1;
      BusyZero(ws[..n]);
      assert forall i :: 0 <= i < n ==> ws[..n][i] == ws[i];
    }
  }

  lemma {:induction false} SentAll<Row>(rows: seq<Option<Row>>, ws: seq<Worker>)
    requires |rows| == |ws| && forall i :: 0 <= i < |ws| ==> ws[i] == Finished
    ensures Sent(rows, ws) == AllRows(rows)
  {
    if ws != [] {
      SentAll(rows[..|ws| - 1], ws[..|ws| - 1]);
    }
  }

  lemma {:induction false} SentNone<Row>(rows: seq<Option<Row>>, ws: seq<Worker>)
    requires |rows| == |ws| && forall i :: 0 <= i < |ws| ==> ws[i] == NotLaunched
    ensures Sent(rows, ws) == multiset{} && BusyCount(ws) == 0 && Weights(ws) == 3 * |ws|
  {
    if ws != [] {
      SentNone(rows[..|ws| - 1], ws[..|ws| - 1]);
    }
  }

  lemma InitialHolds<Row>(s: Setup<Row>)
    ensures Invariant(s, Initial(s))
    ensures Measure(Initial(s)) == 6 * |s.rows| + 3
  {
    SentNone(s.rows, Initial(s).workers);
  }

  lemma WorkerControl<Row>(s: Setup<Row>, t: State<Row>, a: Step)
    requires Control(s, t) && Enabled(s, t, a)
    requires a.Launch? || a.Skip? || a.Send? || a.HandOver? || a.MarkDone?
    ensures Control(s, Apply(s, t, a))
  {
    hide BusyCount;
    BusyZero(t.workers);
    if a.Launch? {
      BusyUpdate(t.workers, t.launched, Running);
    } else if a.MarkDone? {
      assert Busy(t.workers[a.i]);
      BusyUpdate(t.workers, a.i, Finished);
    } else {
      BusyUpdate(t.workers, a.i, Leaving);
    }
  }

  lemma OneMore<Row>(out: seq<Row>, buffer: seq<Row>, r: Row)
    ensures multiset(out) + multiset(buffer + [r]) == multiset(out) + multiset(buffer) + multiset{r}
    ensures multiset(out + [r]) + multiset(buffer) == multiset(out) + multiset(buffer) + multiset{r}
  {}

  lemma QuietRows<Row>(s: Setup<Row>, t: State<Row>, a: Step)
    requires Control(s, t) && Rows(s, t) && Enabled(s, t, a)
    requires a.Launch? || a.Skip? || a.MarkDone?
    ensures Rows(s, Apply(s, t, a))
  {
    hide BusyCount, Sent;
    if a.Launch? {
      SentSame(s.rows, t.workers, t.launched, Running);
    } else if a.MarkDone? {
      SentSame(s.rows, t.workers, a.i, Finished);
    } else {
      SentUpdate(s.rows, t.workers, a.i, Leaving);
    }
  }

  lemma SendRows<Row>(s: Setup<Row>, t: State<Row>, a: Step)
    requires Control(s, t) && Rows(s, t) && Enabled(s, t, a)
    requires a.Send? || a.HandOver?
    ensures Rows(s, Apply(s, t, a))
  {
    hide BusyCount, Sent;
    SentUpdate(s.rows, t.workers, a.i, Leaving);
    OneMore(t.out, t.buffer, s.rows[a.i].value);
  }

  lemma WorkerRows<Row>(s: Setup<Row>, t: State<Row>, a: Step)
    requires Control(s, t) && Rows(s, t) && Enabled(s, t, a)
    requires a.Launch? || a.Skip? || a.Send? || a.HandOver? || a.MarkDone?
    ensures Rows(s, Apply(s, t, a))
  {
    hide Control, Rows, Apply, Enabled;
    if a.Send? || a.HandOver? {
      SendRows(s, t, a);
    } else {
      QuietRows(s, t, a);
    }
  }

  lemma WorkerMeasure<Row>(s: Setup<Row>, t: State<Row>, a: Step)
    requires Control(s, t) && Enabled(s, t, a) && Control(s, Apply(s, t, a))
    requires a.Launch? || a.Skip? || a.Send? || a.HandOver? || a.MarkDone?
    ensures Measure(Apply(s, t, a)) < Measure(t)
  {
    hide BusyCount, Weights;
    if a.Launch? {
      WeightUpdate(t.workers, t.launched, Running);
    } else if a.MarkDone? {
      WeightUpdate(t.workers, a.i, Finished);
    } else {
      WeightUpdate(t.workers, a.i, Leaving);
    }
  }

  lemma ChannelStep<Row>(s: Setup<Row>, t: State<Row>, a: Step)
    requires Invariant(s, t) && Enabled(s, t, a)
    requires a.StartWatcher? || a.CloseChannel? || a.Receive? || a.EndRange?
    ensures Invariant(s, Apply(s, t, a)) && Measure(Apply(s, t, a)) < Measure(t)
  {
    hide Sent, BusyCount, Weights;
    if a.CloseChannel? {
      BusyZero(t.workers);
    }
    if a.Receive? {
      ReceiveStep(s, t);
    }
  }

  lemma ReceiveStep<Row>(s: Setup<Row>, t: State<Row>)
    requires Invariant(s, t) && Enabled(s, t, Receive)
    ensures Invariant(s, Apply(s, t, Receive)) && Measure(Apply(s, t, Receive)) < Measure(t)
  {
    hide Sent, BusyCount, Weights;
    OneMoved(t.out, t.buffer);
  }

  lemma OneMoved<Row>(a: seq<Row>, b: seq<Row>)
    requires b != []
    ensures multiset(a + [b[0]]) + multiset(b[1..]) == multiset(a) + multiset(b)
  {
    assert b == [b[0]] + b[1..];
  }

  lemma WorkerSteps<Row>(s: Setup<Row>, t: State<Row>, a: Step)
    requires Invariant(s, t) && Enabled(s, t, a)
    requires a.Launch? || a.Skip? || a.Send? || a.HandOver? || a.MarkDone?
    ensures Invariant(s, Apply(s, t, a)) && Measure(Apply(s, t, a)) < Measure(t)
  {
    hide Control, Rows, Measure, Apply, Enabled;
    WorkerControl(s, t, a);
    WorkerRows(s, t, a);
    WorkerMeasure(s, t, a);
  }

  /** Every step keeps the invariant and uses up some of the work: no panic can happen, and every
      schedule comes to an end. */
  lemma StepKeeps<Row>(s: Setup<Row>, t: State<Row>, a: Step)
    requires Invariant(s, t) && Enabled(s, t, a)
    ensures Invariant(s, Apply(s, t, a)) && Measure(Apply(s, t, a)) < Measure(t)
  {
    hide Invariant, Measure, Apply, Enabled;
    if a.StartWatcher? || a.CloseChannel? || a.Receive? || a.EndRange? {
      ChannelStep(s, t, a);
    } else {
      WorkerSteps(s, t, a);
    }
  }

  /** As long as the consumer has not ended, somebody can move. */
  lemma NoDeadlock<Row>(s: Setup<Row>, t: State<Row>) returns (a: Step)
    requires Invariant(s, t) && t.consumer != Ended
    ensures Enabled(s, t, a)
  {
    if t.consumer == Launching {
      a := if t.launched < |s.rows| then Launch else StartWatcher;
    } else if t.buffer != [] {
      a := Receive;
    } else if t.closed {
      a := EndRange;
    } else if t.wg == 0 {
      a := CloseChannel;
    } else {
      BusyZero(t.workers);
      var i :| 0 <= i < |t.workers| && Busy(t.workers[i]);
      a := if t.workers[i] == Leaving then MarkDone(i)
           else if s.rows[i].None? then Skip(i)
           else HandOver(i);
    }
  }

  // ---------------------------------------------------------------- whole schedules

  /** The state after a schedule, if every step of it could be taken. */
  function Run<Row>(s: Setup<Row>, steps: seq<Step>): Option<State<Row>> {
    if steps == [] then Some(Initial(s))
    else
      var r := Run(s, steps[..|steps| - 1]);
      var a := steps[|steps| - 1];
      if r.Some? && Enabled(s, r.value, a) then Some(Apply(s, r.value, a)) else None
  }

  lemma {:induction false} RunInvariant<Row>(s: Setup<Row>, steps: seq<Step>)
    requires Run(s, steps).Some?
    ensures Invariant(s, Run(s, steps).value)
    ensures |steps| + Measure(Run(s, steps).value) <= 6 * |s.rows| + 3
  {
    hide Invariant, Measure, Apply, Enabled;
    if steps == [] {
      InitialHolds(s);
    } else {
      var before := steps[..|steps| - 1];
      RunInvariant(s, before);
      StepKeeps(s, Run(s, before).value, steps[|steps| - 1]);
    }
  }

  /** For any number of jobs, any buffer size and any interleaving: nothing panics (no send after
      the close, one close, no negative wait group), the schedule is no longer than 6 steps a job
      and 3 more, it can always go on until the consumer has ended, and then the consumer holds
      exactly one row for every job of a registered provider. */
  lemma EverySchedule<Row>(s: Setup<Row>, steps: seq<Step>)
    requires Run(s, steps).Some?
    ensures var t := Run(s, steps).value;
      && !t.panicked
      && |steps| <= 6 * |s.rows| + 3
      && (t.consumer != Ended ==> exists a :: Enabled(s, t, a))
      && (t.consumer == Ended ==> multiset(t.out) == AllRows(s.rows))
      && (t.closed ==> forall i :: 0 <= i < |s.rows| ==> t.workers[i] == Finished)
  {
    hide Measure, Run;
    RunInvariant(s, steps);
    var t := Run(s, steps).value;
    if t.consumer != Ended {
      var a := NoDeadlock(s, t);
    } else {
      SentAll(s.rows, t.workers);
    }
  }

  /** Every schedule can be completed. */
  lemma {:induction false} Completes<Row>(s: Setup<Row>, steps: seq<Step>) returns (all: seq<Step>)
    requires Run(s, steps).Some?
    ensures |steps| <= |all| && all[..|steps|] == steps
    ensures Run(s, all).Some? && Run(s, all).value.consumer == Ended
    decreases 6 * |s.rows| + 3 - |steps|
  {
    hide Invariant, Measure, Apply, Enabled;
    RunInvariant(s, steps);
    var t := Run(s, steps).value;
    if t.consumer == Ended {
      all := steps;
    } else {
      var a := NoDeadlock(s, t);
      var longer := steps + [a];
      assert longer[..|steps|] == steps;
      assert Run(s, longer) == Some(Apply(s, t, a));
      RunInvariant(s, longer);
      all := Completes(s, longer);
      assert all[..|steps|] == all[..|longer|][..|steps|];
    }
  }

  // ---------------------------------------------------------------- any order of arrival

  lemma {:induction false} OutGrows<Row>(s: Setup<Row>, steps: seq<Step>, k: nat)
    requires Run(s, steps).Some? && k <= |steps|
    ensures Run(s, steps[..k]).Some?
    ensures Run(s, steps[..k]).value.out <= Run(s, steps).value.out
    decreases |steps|
  {
    if k < |steps| {
      var before := steps[..|steps| - 1];
      assert before[..k] == steps[..k];
      OutGrows(s, before, k);
    } else {
      assert steps[..k] == steps;
    }
  }

  lemma {:induction false} MissingRow<Row>(rows: seq<Option<Row>>, ws: seq<Worker>, r: Row) returns (i: nat)
    requires |rows| == |ws| && Sent(rows, ws)[r] < AllRows(rows)[r]
    ensures i < |ws| && rows[i] == Some(r) && !Past(ws[i])
  {
    var n := |ws| - 1;
    if rows[n] == Some(r) && !Past(ws[n]) {
      i := n;
    } else {
      i := MissingRow(rows[..n], ws[..n], r);
    }
  }

  /** All goroutines are launched, and each has sent its row or not. */
  ghost predicate Serving<Row>(s: Setup<Row>, t: State<Row>, out: seq<Row>) {
    && t.consumer == Ranging && !t.closed && t.buffer == [] && t.launched == |s.rows| == |t.workers|
    && t.out == out
    && !t.panicked && (forall i :: 0 <= i < |t.workers| ==> t.workers[i] == Running || t.workers[i] == Leaving)
  }

  lemma {:induction false} LaunchAll<Row>(s: Setup<Row>, k: nat) returns (steps: seq<Step>)
    requires k <= |s.rows|
    ensures Run(s, steps).Some?
    ensures var t := Run(s, steps).value;
      && t.(workers := Initial(s).workers, launched := 0, wg := 0) == Initial(s)
      && t.launched == k && |t.workers| == |s.rows|
      && forall i :: 0 <= i < k ==> t.workers[i] == Running
  {
    if k == 0 {
      steps := [];
    } else {
      var before := LaunchAll(s, k - 1);
      steps := before + [Launch];
      assert steps[..|before|] == before;
    }
  }

  lemma {:induction false} Serve<Row>(s: Setup<Row>, out: seq<Row>) returns (steps: seq<Step>)
    requires multiset(out) <= AllRows(s.rows)
    ensures Run(s, steps).Some? && Serving(s, Run(s, steps).value, out)
  {
    hide Sent, AllRows, Measure;
    if out == [] {
      var launches := LaunchAll(s, |s.rows|);
      steps := launches + [StartWatcher];
      assert steps[..|launches|] == launches;
    } else {
      var n := |out| - 1;
      assert out == out[..n] + [out[n]];
      assert multiset(out) == multiset(out[..n]) + multiset{out[n]};
      var before := Serve(s, out[..n]);
      var t := Run(s, before).value;
      RunInvariant(s, before);
      assert multiset(t.buffer) == multiset{};
      var i := MissingRow(s.rows, t.workers, out[n]);
      steps := before + [HandOver(i)];
      assert steps[..|before|] == before;
    }
  }

  /** The rows can arrive in every order. */
  lemma AnyArrival<Row>(s: Setup<Row>, out: seq<Row>) returns (steps: seq<Step>)
    requires multiset(out) == AllRows(s.rows)
    ensures Run(s, steps).Some?
    ensures Run(s, steps).value.consumer == Ended && Run(s, steps).value.out == out
  {
    hide Run, AllRows;
    var served := Serve(s, out);
    steps := Completes(s, served);
    OutGrows(s, steps, |served|);
    EverySchedule(s, steps);
    var last := Run(s, steps).value.out;
    assert |multiset(last)| == |multiset(out)|;
    assert out <= last && |last| == |out|;
  }
}
