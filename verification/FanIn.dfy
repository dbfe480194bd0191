/**
 Goroutines that each deliver one result over an unbuffered channel, and the loop that collects them
 (runner/libvirt/runner.go, lines 474-513 and 671-723), as a state machine over all interleavings.
 */
module FanIn {
  import opened Prelude

  /** What a job ends with. Interrupted: it gave up because the collector called cancel. */
  datatype Res<V> = Done(v: V) | Failed(e: string) | Interrupted

  /** Blocked: the job has ended, and its goroutine waits in the send. */
  datatype Worker<V> = Idle | Running | Blocked(res: Res<V>) | Delivered(res: Res<V>)

  datatype Phase = Starting | Collecting | Returned

  datatype State<V> = State(
    workers: seq<Worker<V>>,
    numStarted: nat,
    phase: Phase,
    received: seq<nat>,
    have: map<string, V>,
    err: Option<string>,
    cancelled: bool)

  /** Spawn and Begin belong to the loop that starts the jobs, Receive and Return to the collector. */
  datatype Step<V> = Spawn | Begin | Finish(w: nat, res: Res<V>) | Receive(w: nat) | Return

  /** There is one job for each key; have holds what was there before. */
  function Init<V>(keys: seq<string>, have: map<string, V>): State<V> {
    State(seq(|keys|, i => Idle), 0, Starting, [], have, None, false)
  }

  predicate Enabled<V>(s: State<V>, step: Step<V>) {
    match step
    case Spawn => s.phase == Starting && s.numStarted < |s.workers|
    case Begin => s.phase == Starting && s.numStarted == |s.workers|
    case Finish(w, res) => w < |s.workers| && s.workers[w] == Running && (res == Interrupted ==> s.cancelled)
    case Receive(w) =>
      s.phase == Collecting && |s.received| < s.numStarted && w < |s.workers| && s.workers[w].Blocked?
    case Return => s.phase == Collecting && |s.received| == s.numStarted
  }

  function Apply<V>(keys: seq<string>, s: State<V>, step: Step<V>): State<V>
    requires Enabled(s, step) && |keys| == |s.workers|
  {
    match step
    case Spawn => s.(workers := s.workers[s.numStarted := Running], numStarted := s.numStarted + 1)
    case Begin => s.(phase := Collecting)
    case Finish(w, res) => s.(workers := s.workers[w := Blocked(res)])
    case Receive(w) => Collect(keys, s, w)
    case Return => s.(phase := Returned)
  }

  /** The body of the collecting loop. */
  function Collect<V>(keys: seq<string>, s: State<V>, w: nat): State<V>
    requires w < |keys| == |s.workers| && s.workers[w].Blocked?
  {
    var res := s.workers[w].res;
    var s' := s.(workers := s.workers[w := Delivered(res)], received := s.received + [w]);
    match res
    case Done(v) => s'.(have := s.have[keys[w] := v])
    case Failed(e) => s'.(cancelled := true, err := if s.err.None? then Some(e) else s.err)
    case Interrupted => s'.(cancelled := true, err := if s.err.None? then Some("interrupted") else s.err)
  }

  /** The state after a schedule; None if it takes a step that is not enabled. */
  function Exec<V>(keys: seq<string>, have: map<string, V>, schedule: seq<Step<V>>): (r: Option<State<V>>)
    ensures r.Some? ==> |r.value.workers| == |keys|
  {
    if schedule == [] then Some(Init(keys, have)) else
    var n := |schedule| - 1;
    match Exec(keys, have, schedule[..n])
    case None => None
    case Some(s) => if Enabled(s, schedule[n]) then Some(Apply(keys, s, schedule[n])) else None
  }

  // ----- counting -------------------------------------------------------------------

  datatype Kind = IsRunning | IsBlocked

  predicate Is<V>(kind: Kind, w: Worker<V>) {
    if kind == IsRunning then w.Running? else w.Blocked?
  }

  function Count<V>(ws: seq<Worker<V>>, kind: Kind): nat {
    if ws == [] then 0 else Count(ws[..|ws| - 1], kind) + if Is(kind, ws[|ws| - 1]) then 1 else 0
  }

  lemma {:induction false} CountUpdate<V>(ws: seq<Worker<V>>, i: nat, w: Worker<V>, kind: Kind)
    requires i < |ws|
    ensures Count(ws[i := w], kind) ==
      Count(ws, kind) - (if Is(kind, ws[i]) then 1 else 0) + (if Is(kind, w) then 1 else 0)
  {
    var n := |ws| - 1;
    var us := ws[i := w];
    if i == n {
      assert us[..n] == ws[..n];
    } else {
      assert us[..n] == ws[..n][i := w];
      CountUpdate(ws[..n], i, w, kind);
    }
  }

  lemma {:induction false} NoneCounted<V>(ws: seq<Worker<V>>, kind: Kind)
    ensures Count(ws, kind) == 0 <==> forall i | 0 <= i < |ws| :: !Is(kind, ws[i])
  {
    if ws != [] {
      var n := |ws| - 1;
      NoneCounted(ws[..n], kind);
      assert forall i | 0 <= i < n :: ws[..n][i] == ws[i];
    }
  }

  function NumRunning<V>(s: State<V>): nat {
    Count(s.workers, IsRunning)
  }

  function NumBlocked<V>(s: State<V>): nat {
    Count(s.workers, IsBlocked)
  }

  /** The number of steps that remain. */
  function Remaining<V>(s: State<V>): int {
    3 * (|s.workers| - s.numStarted) + 2 * NumRunning(s) + NumBlocked(s) +
    match s.phase
    case Starting => 2
    case Collecting => 1
    case Returned => 0
  }

  // ----- the invariant --------------------------------------------------------------

  /** Exactly the received workers have delivered; the first numStarted ones are started. */
  ghost predicate WorkersOK<V>(s: State<V>) {
    && s.numStarted <= |s.workers|
    && (forall w | 0 <= w < |s.workers| :: s.workers[w].Idle? <==> s.numStarted <= w)
    && (forall w | 0 <= w < |s.workers| && s.workers[w].Delivered? :: w in s.received)
    && (forall k | 0 <= k < |s.received| :: s.received[k] < |s.workers| && s.workers[s.received[k]].Delivered?)
    && Distinct(s.received)
  }

  ghost predicate CountsOK<V>(s: State<V>) {
    && NumRunning(s) + NumBlocked(s) + |s.received| == s.numStarted
    && (s.phase == Starting ==> s.received == [])
    && (s.phase != Starting ==> s.numStarted == |s.workers|)
    && (s.phase == Returned ==> |s.received| == s.numStarted)
  }

  /** The result of the k-th received worker. */
  function ResultAt<V>(s: State<V>, k: nat): Res<V>
    requires k < |s.received| && s.received[k] < |s.workers| && s.workers[s.received[k]].Delivered?
  {
    s.workers[s.received[k]].res
  }

  /** No error if every result so far was a success, and otherwise the first failure: it is never an interruption. */
  ghost predicate ErrorOK<V>(s: State<V>)
    requires WorkersOK(s)
  {
    && (s.cancelled <==> s.err.Some?)
    && match s.err
       case None => forall k | 0 <= k < |s.received| :: ResultAt(s, k).Done?
       case Some(e) =>
         exists k | 0 <= k < |s.received| ::
           ResultAt(s, k) == Failed(e) && forall j | 0 <= j < k :: ResultAt(s, j).Done?
  }

  ghost predicate InterruptionsOK<V>(s: State<V>) {
    forall w | 0 <= w < |s.workers| && (s.workers[w].Blocked? || s.workers[w].Delivered?) ::
      s.workers[w].res == Interrupted ==> s.cancelled
  }

  /** have holds the values of the successes, by key, and otherwise what was there before. */
  ghost predicate HaveOK<V>(keys: seq<string>, before: map<string, V>, s: State<V>)
    requires |keys| == |s.workers|
  {
    && (forall w | 0 <= w < |keys| && s.workers[w].Delivered? && s.workers[w].res.Done? ::
          keys[w] in s.have && s.have[keys[w]] == s.workers[w].res.v)
    && before.Keys <= s.have.Keys <= before.Keys + Elements(keys)
    && (forall k | k in s.have && k !in keys :: s.have[k] == before[k])
  }

  ghost predicate Inv<V>(keys: seq<string>, before: map<string, V>, s: State<V>) {
    |keys| == |s.workers| && WorkersOK(s) && CountsOK(s) && ErrorOK(s) && InterruptionsOK(s) && HaveOK(keys, before, s)
  }

  lemma {:induction false} InitInv<V>(keys: seq<string>, before: map<string, V>)
    ensures Inv(keys, before, Init(keys, before))
    ensures Remaining(Init(keys, before)) == 3 * |keys| + 2
  {
    var s := Init(keys, before);
    NoneCounted(s.workers, IsRunning);
    NoneCounted(s.workers, IsBlocked);
  }

  lemma {:induction false} StepCounts<V>(keys: seq<string>, s: State<V>, step: Step<V>)
    requires |keys| == |s.workers| && WorkersOK(s) && CountsOK(s) && Enabled(s, step)
    ensures CountsOK(Apply(keys, s, step))
    ensures Remaining(Apply(keys, s, step)) == Remaining(s) - 1
  {
    match step
    case Spawn => MoveCounts(s.workers, s.numStarted, Running);
    case Finish(w, res) => MoveCounts(s.workers, w, Blocked(res));
    case Receive(w) => ReceiveCounts(s, Collect(keys, s, w), w);
    case _ =>
  }

  lemma {:induction false} ReceiveCounts<V>(s: State<V>, s': State<V>, w: nat)
    requires CountsOK(s) && Enabled(s, Receive(w))
    requires s'.workers == s.workers[w := Delivered(s.workers[w].res)] && s'.received == s.received + [w]
    requires s'.numStarted == s.numStarted && s'.phase == s.phase
    ensures CountsOK(s') && Remaining(s') == Remaining(s) - 1
  {
    MoveCounts(s.workers, w, Delivered(s.workers[w].res));
  }

  lemma {:induction false} MoveCounts<V>(ws: seq<Worker<V>>, i: nat, w: Worker<V>)
    requires i < |ws|
    ensures Count(ws[i := w], IsRunning) ==
      Count(ws, IsRunning) - (if ws[i].Running? then 1 else 0) + (if w.Running? then 1 else 0)
    ensures Count(ws[i := w], IsBlocked) ==
      Count(ws, IsBlocked) - (if ws[i].Blocked? then 1 else 0) + (if w.Blocked? then 1 else 0)
  {
    CountUpdate(ws, i, w, IsRunning);
    CountUpdate(ws, i, w, IsBlocked);
  }

  lemma {:induction false} StepWorkers<V>(keys: seq<string>, s: State<V>, step: Step<V>)
    requires |keys| == |s.workers| && WorkersOK(s) && Enabled(s, step)
    ensures WorkersOK(Apply(keys, s, step))
  {
    match step
    case Receive(w) => ReceiveWorkers(s, Collect(keys, s, w), w);
    case _ => OtherWorkers(s, Apply(keys, s, step), step);
  }

  lemma {:induction false} ReceiveWorkers<V>(s: State<V>, s': State<V>, w: nat)
    requires WorkersOK(s) && Enabled(s, Receive(w))
    requires s'.workers == s.workers[w := Delivered(s.workers[w].res)] && s'.received == s.received + [w]
    requires s'.numStarted == s.numStarted
    ensures WorkersOK(s')
  {
    assert w !in s.received;
  }

  lemma {:induction false} OtherWorkers<V>(s: State<V>, s': State<V>, step: Step<V>)
    requires WorkersOK(s) && Enabled(s, step) && !step.Receive?
    requires s'.received == s.received
    requires s'.numStarted == if step.Spawn? then s.numStarted + 1 else s.numStarted
    requires s'.workers == match step
      case Spawn => s.workers[s.numStarted := Running]
      case Finish(w, res) => s.workers[w := Blocked(res)]
      case _ => s.workers
    ensures WorkersOK(s')
  {
  }

  lemma {:induction false} StepError<V>(keys: seq<string>, s: State<V>, step: Step<V>)
    requires |keys| == |s.workers| && WorkersOK(s) && Enabled(s, step) && WorkersOK(Apply(keys, s, step))
    requires ErrorOK(s) && InterruptionsOK(s)
    ensures ErrorOK(Apply(keys, s, step))
  {
    var s' := Apply(keys, s, step);
    ResultsKept(keys, s, step);
    if s.err.Some? {
      FirstErrorKept(s, s');
    } else if step.Receive? {
      NewResult(s, s', s.workers[step.w].res);
    }
  }

  lemma {:induction false} FirstErrorKept<V>(s: State<V>, s': State<V>)
    requires WorkersOK(s) && WorkersOK(s') && |s.received| <= |s'.received|
    requires forall k | 0 <= k < |s.received| :: ResultAt(s', k) == ResultAt(s, k)
    requires ErrorOK(s) && s.err.Some? && s'.err == s.err && s'.cancelled
    ensures ErrorOK(s')
  {
    var k :| 0 <= k < |s.received| && ResultAt(s, k) == Failed(s.err.value) && forall j | 0 <= j < k :: ResultAt(s, j).Done?;
    assert ResultAt(s', k) == Failed(s.err.value);
  }

  lemma {:induction false} NewResult<V>(s: State<V>, s': State<V>, res: Res<V>)
    requires WorkersOK(s) && WorkersOK(s') && |s'.received| == |s.received| + 1
    requires forall k | 0 <= k < |s.received| :: ResultAt(s', k) == ResultAt(s, k)
    requires ErrorOK(s) && s.err.None? && res != Interrupted && ResultAt(s', |s.received|) == res
    requires s'.err == (if res.Failed? then Some(res.e) else None) && s'.cancelled == res.Failed?
    ensures ErrorOK(s')
  {
  }

  lemma {:induction false} ResultsKept<V>(keys: seq<string>, s: State<V>, step: Step<V>)
    requires |keys| == |s.workers| && WorkersOK(s) && Enabled(s, step) && WorkersOK(Apply(keys, s, step))
    ensures |s.received| <= |Apply(keys, s, step).received|
    ensures forall k | 0 <= k < |s.received| :: ResultAt(Apply(keys, s, step), k) == ResultAt(s, k)
  {
    var s' := Apply(keys, s, step);
    forall k | 0 <= k < |s.received| ensures k < |s'.received| && ResultAt(s', k) == ResultAt(s, k) {
      assert s'.received[k] == s.received[k];
    }
  }

  lemma {:induction false} StepInterruptions<V>(keys: seq<string>, s: State<V>, step: Step<V>)
    requires |keys| == |s.workers| && Enabled(s, step) && InterruptionsOK(s)
    ensures InterruptionsOK(Apply(keys, s, step))
  {
  }

  lemma {:induction false} StepHave<V>(keys: seq<string>, before: map<string, V>, s: State<V>, step: Step<V>)
    requires Distinct(keys) && |keys| == |s.workers| && Enabled(s, step) && HaveOK(keys, before, s)
    ensures HaveOK(keys, before, Apply(keys, s, step))
  {
  }

  lemma {:induction false} StepInv<V>(keys: seq<string>, before: map<string, V>, s: State<V>, step: Step<V>)
    requires Distinct(keys) && Inv(keys, before, s) && Enabled(s, step)
    ensures Inv(keys, before, Apply(keys, s, step))
    ensures Remaining(Apply(keys, s, step)) == Remaining(s) - 1
  {
    StepWorkers(keys, s, step);
    StepCounts(keys, s, step);
    StepError(keys, s, step);
    StepInterruptions(keys, s, step);
    StepHave(keys, before, s, step);
  }

  lemma {:induction false} ExecInv<V>(keys: seq<string>, before: map<string, V>, schedule: seq<Step<V>>)
    requires Distinct(keys) && Exec(keys, before, schedule).Some?
    ensures Inv(keys, before, Exec(keys, before, schedule).value)
    ensures Remaining(Exec(keys, before, schedule).value) == 3 * |keys| + 2 - |schedule|
  {
    if schedule == [] {
      InitInv(keys, before);
    } else {
      var n := |schedule| - 1;
      ExecInv(keys, before, schedule[..n]);
      StepInv(keys, before, Exec(keys, before, schedule[..n]).value, schedule[n]);
    }
  }

  // ----- the theorems ---------------------------------------------------------------

  /** In every reachable state, the started workers are running, blocked in the send, or received. */
  lemma {:induction false} Conservation<V>(keys: seq<string>, before: map<string, V>, schedule: seq<Step<V>>)
    requires Distinct(keys) && Exec(keys, before, schedule).Some?
    ensures var s := Exec(keys, before, schedule).value;
      NumRunning(s) + NumBlocked(s) + |s.received| == s.numStarted
  {
    ExecInv(keys, before, schedule);
  }

  /**
   When the collector returns, every goroutine has delivered its one result and ended. The error is
   nil exactly when all jobs succeeded, and then every key has the value of its job, whatever the
   order; otherwise it is the first error that was received, and it is never a mere interruption.
   */
  lemma {:induction false} CollectorSafe<V>(keys: seq<string>, before: map<string, V>, schedule: seq<Step<V>>)
    requires Distinct(keys) && Exec(keys, before, schedule).Some?
    requires Exec(keys, before, schedule).value.phase == Returned
    ensures Finished(keys, before, Exec(keys, before, schedule).value)
  {
    ExecInv(keys, before, schedule);
    InvFinished(keys, before, Exec(keys, before, schedule).value);
  }

  ghost predicate Finished<V>(keys: seq<string>, before: map<string, V>, s: State<V>) {
    && |s.workers| == |s.received| == |keys|
    && Distinct(s.received)
    && (forall w | 0 <= w < |keys| :: w in s.received && s.workers[w].Delivered?)
    && (forall k | 0 <= k < |keys| :: s.received[k] < |keys|)
    && (s.err.None? <==> forall w | 0 <= w < |keys| :: s.workers[w].res.Done?)
    && (s.err.None? ==>
          && s.have.Keys == before.Keys + Elements(keys)
          && (forall w | 0 <= w < |keys| :: s.have[keys[w]] == s.workers[w].res.v)
          && (forall k | k in before && k !in keys :: s.have[k] == before[k]))
    && (s.err.Some? ==> exists k | 0 <= k < |keys| ::
          && s.workers[s.received[k]].res == Failed(s.err.value)
          && forall j | 0 <= j < k :: s.workers[s.received[j]].res.Done?)
  }

  lemma {:induction false} InvFinished<V>(keys: seq<string>, before: map<string, V>, s: State<V>)
    requires Inv(keys, before, s) && s.phase == Returned
    ensures Finished(keys, before, s)
  {
    NoneCounted(s.workers, IsRunning);
    NoneCounted(s.workers, IsBlocked);
    forall w | 0 <= w < |keys| ensures s.workers[w].Delivered? {
      assert !Is(IsRunning, s.workers[w]) && !Is(IsBlocked, s.workers[w]);
    }
    if s.err.None? {
      forall w | 0 <= w < |keys| ensures s.workers[w].res.Done? {
        assert w in s.received;
        var k :| 0 <= k < |s.received| && s.received[k] == w;
        assert ResultAt(s, k).Done?;
      }
      assert forall k | k in Elements(keys) :: k in s.have;
    } else {
      var k :| 0 <= k < |s.received| && ResultAt(s, k) == Failed(s.err.value) && forall j | 0 <= j < k :: ResultAt(s, j).Done?;
      assert !s.workers[s.received[k]].res.Done?;
      assert forall j | 0 <= j < k :: s.workers[s.received[j]].res == ResultAt(s, j);
    }
  }

  /** Until the collector returns some step is possible; and only a job that ends can be waited for. */
  lemma {:induction false} Progress<V>(keys: seq<string>, before: map<string, V>, s: State<V>, res: Res<V>)
    returns (step: Step<V>)
    requires Inv(keys, before, s) && s.phase != Returned && res != Interrupted
    ensures Enabled(s, step)
    ensures step.Finish? ==> step.res == res && NumRunning(s) > 0 && NumBlocked(s) == 0
  {
    NoneCounted(s.workers, IsRunning);
    NoneCounted(s.workers, IsBlocked);
    if s.phase == Starting {
      step := if s.numStarted < |s.workers| then Spawn else Begin;
    } else if |s.received| == s.numStarted {
      step := Return;
    } else if NumBlocked(s) > 0 {
      var w :| 0 <= w < |s.workers| && Is(IsBlocked, s.workers[w]);
      step := Receive(w);
    } else {
      var w :| 0 <= w < |s.workers| && Is(IsRunning, s.workers[w]);
      step := Finish(w, res);
    }
  }

  /** All schedules are equally long: the collector has returned after exactly 3n + 2 steps, not before. */
  lemma {:induction false} Bounded<V>(keys: seq<string>, before: map<string, V>, schedule: seq<Step<V>>)
    requires Distinct(keys) && Exec(keys, before, schedule).Some?
    ensures |schedule| <= 3 * |keys| + 2
    ensures Exec(keys, before, schedule).value.phase == Returned <==> |schedule| == 3 * |keys| + 2
  {
    ExecInv(keys, before, schedule);
    var s := Exec(keys, before, schedule).value;
    if s.phase != Returned {
      var step := Progress(keys, before, s, Failed(""));
      StepInv(keys, before, s, step);
    }
  }

  /** Two runs in which the jobs end alike give the same verdict, and on success the same map, in whatever order. */
  lemma {:induction false} OrderIrrelevant<V>(keys: seq<string>, before: map<string, V>, a: seq<Step<V>>, b: seq<Step<V>>)
    requires Distinct(keys) && Exec(keys, before, a).Some? && Exec(keys, before, b).Some?
    requires var s, t := Exec(keys, before, a).value, Exec(keys, before, b).value;
      s.phase == t.phase == Returned && s.workers == t.workers
    ensures var s, t := Exec(keys, before, a).value, Exec(keys, before, b).value;
      (s.err.None? <==> t.err.None?) && (s.err.None? ==> s.have == t.have)
  {
    var s, t := Exec(keys, before, a).value, Exec(keys, before, b).value;
    CollectorSafe(keys, before, a);
    CollectorSafe(keys, before, b);
    if s.err.None? {
      forall k | k in s.have ensures s.have[k] == t.have[k] {
        if k in keys {
          var w :| 0 <= w < |keys| && keys[w] == k;
          assert s.have[keys[w]] == s.workers[w].res.v;
        }
      }
      assert s.have.Keys == t.have.Keys;
    }
  }

  /** A step as the scheduler sees it: it does not know how a job ends. */
  function Planned<V>(step: Step<V>): Step<V> {
    if step.Finish? then Finish(step.w, Failed("")) else step
  }

  /**
   The scheduler takes the step that is wished for, whichever one is enabled, and otherwise any other
   enabled step. The caller runs the job of a Finish step to learn its result.
   */
  method Schedule<V>(s: State<V>, wish: Step<V>, ghost keys: seq<string>, ghost before: map<string, V>)
    returns (step: Step<V>)
    requires Inv(keys, before, s) && s.phase != Returned
    ensures Enabled(s, step) && step == Planned(step)
    ensures Enabled(s, Planned(wish)) ==> step == Planned(wish)
  {
    if Enabled(s, Planned(wish)) {
      return Planned(wish);
    }
    ghost var possible := Progress(keys, before, s, Failed(""));
    assert possible.Finish? ==> s.workers[possible.w] == Running;
    assert possible.Receive? ==> s.workers[possible.w].Blocked?;
    if
    case s.phase == Starting && s.numStarted < |s.workers| =>
      step := Spawn;
    case s.phase == Starting && s.numStarted == |s.workers| =>
      step := Begin;
    case exists w :: 0 <= w < |s.workers| && s.workers[w] == Running =>
      var w :| 0 <= w < |s.workers| && s.workers[w] == Running;
      step := Finish(w, Failed(""));
    case s.phase == Collecting && |s.received| < s.numStarted && exists w :: 0 <= w < |s.workers| && s.workers[w].Blocked? =>
      var w :| 0 <= w < |s.workers| && s.workers[w].Blocked?;
      step := Receive(w);
    case s.phase == Collecting && |s.received| == s.numStarted =>
      step := Return;
  }
}
