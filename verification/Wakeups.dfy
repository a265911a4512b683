/** Debounced image rollouts (services/hangar/events.go): the interleaving of enqueuers, the one-slot
    signal channel, the debounce timer and the worker. */
module Wakeups {
  import opened Wrappers

  /** The worker goroutine: not started, in select, between timer fire and drain, running a batch, or gone. */
  datatype Worker = NotStarted | Selecting | Fired | Running | Stopped

  /** `channel` says whether imageRolloutCh exists; `senders` are the enqueuers between their map
      write and their send; `armed` says whether timerCh is non-nil. */
  datatype State = State(
    channel: bool,
    pending: set<string>,
    senders: set<nat>,
    token: bool,
    armed: bool,
    worker: Worker)

  datatype Step =
    | StartLoop
    | WritePending(enqueuer: nat, jobs: set<string>)
    | Signal(enqueuer: nat)
    | TakeToken
    | TimerFires
    | Drain
    | FinishBatch
    | ContextDone

  /** A daemon before its loop starts, with or without the channel. */
  function Start(channel: bool): State {
    State(channel, {}, {}, false, false, NotStarted)
  }

  /** The daemon's constructor makes the channel before anything can be enqueued. */
  function Init(): State {
    Start(true)
  }

  predicate Enabled(s: State, step: Step) {
    match step
    case StartLoop => s.worker.NotStarted?
    case WritePending(e, jobs) => e !in s.senders && jobs != {}
    case Signal(e) => e in s.senders
    case TakeToken => s.worker.Selecting? && s.token
    case TimerFires => s.worker.Selecting? && s.armed
    case Drain => s.worker.Fired?
    case FinishBatch => s.worker.Running?
    case ContextDone => s.worker.Selecting?
  }

  function Apply(s: State, step: Step): State
    requires Enabled(s, step)
  {
    match step
    case StartLoop => s.(channel := true, worker := Selecting)
    case WritePending(e, jobs) => s.(pending := s.pending + jobs, senders := s.senders + {e})
    case Signal(e) => s.(senders := s.senders - {e}, token := s.token || s.channel)
    case TakeToken => s.(token := false, armed := true)
    case TimerFires => s.(armed := false, worker := Fired)
    case Drain => s.(pending := {}, worker := if s.pending == {} then Selecting else Running)
    case FinishBatch => s.(worker := Selecting)
    case ContextDone => s.(worker := Stopped)
  }

  ghost predicate IsRun(first: State, states: seq<State>, steps: seq<Step>) {
    && |states| == |steps| + 1 && states[0] == first
    && forall i :: 0 <= i < |steps| ==> Enabled(states[i], steps[i]) && states[i + 1] == Apply(states[i], steps[i])
  }

  /** Something will still make the worker look at the map. */
  ghost predicate WakeupComing(s: State) {
    s.token || s.armed || s.senders != {} || s.worker.Fired?
  }

  /** No lost wakeup: while the worker lives, something pending will be looked at. */
  ghost predicate NoLostWakeup(s: State) {
    s.pending != {} && !s.worker.Stopped? && !s.worker.NotStarted? ==> WakeupComing(s)
  }

  /** The invariant behind it, which also covers the time before the loop starts. */
  ghost predicate Inv(s: State) {
    s.channel && (s.pending != {} && !s.worker.Stopped? ==> WakeupComing(s))
  }

  lemma InvKept(s: State, step: Step)
    requires Inv(s) && Enabled(s, step)
    ensures Inv(Apply(s, step))
  {
    if step.WritePending? {
      assert step.enqueuer in Apply(s, step).senders;
    }
  }

  /** From a state where it holds, the invariant holds for the rest of a run. */
  lemma {:induction false} InvPersists(first: State, states: seq<State>, steps: seq<Step>, m: nat, n: nat)
    requires IsRun(first, states, steps) && m <= n <= |steps| && Inv(states[m])
    ensures Inv(states[n])
    decreases n
  {
    if m < n {
      InvPersists(first, states, steps, m, n - 1);
      InvKept(states[n - 1], steps[n - 1]);
    }
  }

  lemma NoLostWakeupInRuns(states: seq<State>, steps: seq<Step>, n: nat)
    requires IsRun(Init(), states, steps) && n <= |steps|
    ensures Inv(states[n]) && NoLostWakeup(states[n])
  {
    InvPersists(Init(), states, steps, 0, n);
  }

  /** How far the system is from quiet; everything but a new enqueue brings it closer. */
  ghost function Distance(s: State): nat {
    5 * |s.senders| + (if s.token then 4 else 0) + (if s.armed then 3 else 0)
    + (match s.worker case Fired => 2 case Running => 1 case NotStarted => 1 case Selecting => 0 case Stopped => 0)
  }

  lemma {:induction false} StepsBringQuiet(s: State, step: Step)
    requires Enabled(s, step) && !step.WritePending? && !step.ContextDone?
    ensures Distance(Apply(s, step)) < Distance(s)
  {
    if step.Signal? {
      assert s.senders == (s.senders - {step.enqueuer}) + {step.enqueuer};
      assert |s.senders| == |s.senders - {step.enqueuer}| + 1;
    }
  }

  ghost predicate Quiet(s: State) {
    forall step: Step :: Enabled(s, step) ==> step.WritePending? || step.ContextDone?
  }

  /** Once the running worker has nothing left to do, nothing is left pending. */
  lemma QuietMeansDrained(s: State)
    requires NoLostWakeup(s) && Quiet(s)
    ensures s.pending == {} || s.worker.Stopped?
  {
    EmptyOrNot(s.senders);
    if s.senders != {} {
      var e :| e in s.senders;
      assert Enabled(s, Signal(e));
    } else {
      assert !Enabled(s, StartLoop) && !Enabled(s, TakeToken) && !Enabled(s, TimerFires) && !Enabled(s, Drain) &&
        !Enabled(s, FinishBatch);
    }
  }

  /** From any reachable state, if nobody enqueues any more and the context lives, then after at
      most Distance steps, whichever they are, the map is empty or the next step is at hand. */
  lemma {:induction false} EventuallyDrained(states: seq<State>, steps: seq<Step>, n: nat)
    requires IsRun(Init(), states, steps) && n <= |steps|
    requires forall i :: n <= i < |steps| ==> !steps[i].WritePending? && !steps[i].ContextDone?
    ensures |steps| - n <= Distance(states[n])
    ensures Quiet(states[|steps|]) && !states[|steps|].worker.Stopped? ==> states[|steps|].pending == {}
    decreases |steps| - n
  {
    if n < |steps| {
      EventuallyDrained(states, steps, n + 1);
      StepsBringQuiet(states[n], steps[n]);
    } else {
      NoLostWakeupInRuns(states, steps, n);
      if Quiet(states[n]) {
        QuietMeansDrained(states[n]);
      }
    }
  }

  /** Step k drains the job and starts a batch with it. */
  ghost predicate RunsJob(states: seq<State>, steps: seq<Step>, k: nat, job: string) {
    && k < |steps| < |states| && steps[k].Drain?
    && job in states[k].pending && states[k + 1].worker.Running?
  }

  /** What is written stays pending until a batch is run with it. */
  lemma {:induction false} PendingUntilRun(
    first: State, states: seq<State>, steps: seq<Step>, i: nat, n: nat, job: string)
    requires IsRun(first, states, steps) && i < n <= |steps| && steps[i].WritePending? && job in steps[i].jobs
    ensures job in states[n].pending || exists k :: i < k < n && RunsJob(states, steps, k, job)
    decreases n
  {
    assert states[n] == Apply(states[n - 1], steps[n - 1]);
    if i < n - 1 {
      PendingUntilRun(first, states, steps, i, n - 1, job);
      if job in states[n - 1].pending && steps[n - 1].Drain? {
        assert RunsJob(states, steps, n - 1, job);
      }
    }
  }

  /** So once a living daemon has come to rest, every job ever written has been run by a later batch. */
  lemma {:induction false} EveryWriteIsRun(states: seq<State>, steps: seq<Step>, i: nat, job: string)
    requires IsRun(Init(), states, steps) && i < |steps| && steps[i].WritePending? && job in steps[i].jobs
    requires Quiet(states[|steps|]) && !states[|steps|].worker.Stopped?
    ensures exists k :: i < k < |steps| && RunsJob(states, steps, k, job)
  {
    EventuallyDrained(states, steps, |steps|);
    PendingUntilRun(Init(), states, steps, i, |steps|, job);
  }

  // ----- A daemon whose channel is made only when the loop starts -----

  /** Before the loop starts, a daemon without a channel has only senders to count on. */
  lemma {:induction false} BeforeStart(states: seq<State>, steps: seq<Step>, n: nat)
    requires IsRun(Start(false), states, steps) && n <= |steps|
    requires forall i :: 0 <= i < n ==> !steps[i].StartLoop?
    ensures states[n].worker.NotStarted? && !states[n].channel && !states[n].token && !states[n].armed
    ensures (forall i :: 0 <= i < n ==> !steps[i].WritePending?) ==> states[n].pending == {}
  {
    if n > 0 {
      BeforeStart(states, steps, n - 1);
      assert states[n] == Apply(states[n - 1], steps[n - 1]);
    }
  }

  /** Whatever is pending when the loop starts still has a sender before its signal. */
  ghost predicate StartsInTime(states: seq<State>, steps: seq<Step>)
    requires |states| == |steps| + 1
  {
    forall i :: 0 <= i < |steps| && steps[i].StartLoop? ==> states[i].pending == {} || states[i].senders != {}
  }

  ghost predicate NoneLost(states: seq<State>) {
    forall n :: 0 <= n < |states| ==> NoLostWakeup(states[n])
  }

  lemma {:induction false} LateChannelState(states: seq<State>, steps: seq<Step>, n: nat)
    requires IsRun(Start(false), states, steps) && n <= |steps| && StartsInTime(states, steps)
    ensures states[n].worker.NotStarted? || Inv(states[n])
    ensures states[n].worker.NotStarted? ==> forall i :: 0 <= i < n ==> !steps[i].StartLoop?
  {
    if n > 0 {
      LateChannelState(states, steps, n - 1);
      assert states[n] == Apply(states[n - 1], steps[n - 1]);
      if Inv(states[n - 1]) {
        InvKept(states[n - 1], steps[n - 1]);
      }
      if states[n - 1].worker.NotStarted? {
        BeforeStart(states, steps, n - 1);
      }
    }
  }

  /** The first start of the loop, if any, is the only one, and it comes out of a state without a channel. */
  lemma {:induction false} StartsOnce(states: seq<State>, steps: seq<Step>, i: nat, n: nat)
    requires IsRun(Start(false), states, steps) && i < n <= |steps| && steps[i].StartLoop?
    ensures !states[n].worker.NotStarted?
    decreases n
  {
    assert states[n] == Apply(states[n - 1], steps[n - 1]);
    if i < n - 1 {
      StartsOnce(states, steps, i, n - 1);
    }
  }

  /** In a run, no wakeup is lost exactly when the channel was there from the start or the loop
      started while everything pending still had a sender. */
  lemma WakeupsKeptIff(channel: bool, states: seq<State>, steps: seq<Step>)
    requires IsRun(Start(channel), states, steps)
    ensures NoneLost(states) <==> channel || StartsInTime(states, steps)
  {
    if channel {
      forall n | 0 <= n < |states|
        ensures NoLostWakeup(states[n])
      {
        NoLostWakeupInRuns(states, steps, n);
      }
    } else if StartsInTime(states, steps) {
      forall n | 0 <= n < |states|
        ensures NoLostWakeup(states[n])
      {
        LateChannelState(states, steps, n);
      }
    } else {
      var i :| 0 <= i < |steps| && steps[i].StartLoop? && states[i].pending != {} && states[i].senders == {};
      LostAtStart(states, steps, i);
    }
  }

  lemma LostAtStart(states: seq<State>, steps: seq<Step>, i: nat)
    requires IsRun(Start(false), states, steps) && i < |steps| && steps[i].StartLoop?
    requires states[i].pending != {} && states[i].senders == {}
    ensures !NoLostWakeup(states[i + 1])
  {
    forall j | 0 <= j < i
      ensures !steps[j].StartLoop?
    {
      if steps[j].StartLoop? {
        StartsOnce(states, steps, j, i);
      }
    }
    BeforeStart(states, steps, i);
    assert states[i + 1] == Apply(states[i], steps[i]);
  }

  /** So starting the loop before anything is enqueued is enough. */
  lemma StartBeforeEnqueue(states: seq<State>, steps: seq<Step>)
    requires IsRun(Start(false), states, steps)
    requires forall i, j :: 0 <= i < j < |steps| && steps[i].WritePending? ==> !steps[j].StartLoop?
    ensures NoneLost(states)
  {
    forall i | 0 <= i < |steps| && steps[i].StartLoop?
      ensures states[i].pending == {}
    {
      forall j | 0 <= j < i
        ensures !steps[j].StartLoop?
      {
        if steps[j].StartLoop? {
          StartsOnce(states, steps, j, i);
        }
      }
      BeforeStart(states, steps, i);
    }
    WakeupsKeptIff(false, states, steps);
  }

  /** All runs keep all wakeups exactly when the channel is there from the start. */
  lemma AllRunsKeepWakeupsIff(channel: bool)
    ensures (forall states, steps :: IsRun(Start(channel), states, steps) ==> NoneLost(states)) <==> channel
  {
    if channel {
      forall states, steps | IsRun(Start(channel), states, steps)
        ensures NoneLost(states)
      {
        WakeupsKeptIff(channel, states, steps);
      }
    } else {
      var states, steps := LostWithoutChannel();
      assert IsRun(Start(channel), states, steps) && !NoneLost(states);
    }
  }

  /** Without a channel, an enqueue that is over before the loop starts is lost. */
  lemma LostWithoutChannel() returns (states: seq<State>, steps: seq<Step>)
    ensures IsRun(Start(false), states, steps) && !NoneLost(states)
  {
    var s0 := Start(false);
    steps := [WritePending(0, {"job"}), Signal(0), StartLoop];
    var s1 := Apply(s0, steps[0]);
    var s2 := Apply(s1, steps[1]);
    var s3 := Apply(s2, steps[2]);
    states := [s0, s1, s2, s3];
    assert "job" in s3.pending;
    assert !NoLostWakeup(states[3]);
  }
}
