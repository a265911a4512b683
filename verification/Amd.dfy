/** The answering-machine greeting controller (services/prospera/amd.go): a constant-space
    machine that decides, frame by frame, when to release the greeting. */
module Amd {
  import opened GoStrings

  datatype Action = Nothing | ReleaseGreeting | SwitchToVoicemail | SpeakVoicemailAndHangup

  datatype Mode = Holding | Released | MachineDetected | VoicemailReady

  const DEFAULT_RMS_THRESHOLD := 0.015
  const QUALIFYING_SPEECH_MS := 250
  const CLOSING_SILENCE_MS := 600
  const PATIENCE_MS := 2500

  /** The controller's fields. */
  datatype View = View(
    mode: Mode, total: int, speech: int, silence: int, qualified: bool, active: bool)

  datatype Event = Frame(loud: bool, elapsed: int) | Webhook(answeredBy: string) | ConversationActive

  datatype Outcome = Outcome(view: View, action: Action)

  function Start(): View {
    View(Holding, 0, 0, 0, false, false)
  }

  /** A value above the running total is read as a timestamp, any other as a duration. */
  function Delta(total: int, elapsed: int): int {
    if elapsed > total then elapsed - total else elapsed
  }

  function OnFrame(v: View, loud: bool, elapsed: int): Outcome {
    if !v.mode.Holding? then Outcome(v, Nothing)
    else
      var delta := Delta(v.total, elapsed);
      var total := v.total + delta;
      if loud then
        var speech := v.speech + delta;
        var v1 := v.(total := total, speech := speech, silence := 0, qualified := v.qualified ||
          speech >= QUALIFYING_SPEECH_MS);
        if total >= PATIENCE_MS && speech == 0 && !v1.qualified then Outcome(v1.(mode := Released), ReleaseGreeting)
        else Outcome(v1, Nothing)
      else
        var silence := v.silence + delta;
        var v1 := v.(total := total, speech := 0, silence := silence);
        if v.qualified && silence >= CLOSING_SILENCE_MS then Outcome(v1.(mode := Released), ReleaseGreeting)
        else if total >= PATIENCE_MS && !v.qualified then Outcome(v1.(mode := Released), ReleaseGreeting)
        else Outcome(v1, Nothing)
  }

  predicate HasPrefix(s: string, prefix: string) {
    prefix <= s
  }

  function OnWebhook(v: View, answeredBy: string): Outcome {
    if v.active then Outcome(v, Nothing)
    else if answeredBy == "human" || answeredBy == "unknown" then
      if v.mode.Holding? then Outcome(v.(mode := Released), ReleaseGreeting) else Outcome(v, Nothing)
    else if answeredBy == "machine_start" || answeredBy == "fax" then
      Outcome(v.(mode := MachineDetected), SwitchToVoicemail)
    else if HasPrefix(answeredBy, "machine_end") then
      if answeredBy == "machine_end_other" && v.mode.Released? then Outcome(v, Nothing)
      else Outcome(v.(mode := VoicemailReady), SpeakVoicemailAndHangup)
    else Outcome(v, Nothing)
  }

  function On(v: View, e: Event): Outcome {
    match e
    case Frame(loud, elapsed) => OnFrame(v, loud, elapsed)
    case Webhook(answeredBy) => OnWebhook(v, answeredBy)
    case ConversationActive => Outcome(v.(active := true), Nothing)
  }

  // ----- The program -----

  class Controller {
    const rmsThreshold: real
    const lower: string -> string
    var mode: Mode
    var totalElapsedMs: int
    var currentSpeechMs: int
    var currentSilenceMs: int
    var qualifiedSpeech: bool
    var conversationActive: bool

    ghost function Now(): View
      reads this
    {
      View(mode, totalElapsedMs, currentSpeechMs, currentSilenceMs, qualifiedSpeech, conversationActive)
    }

    constructor (rmsThreshold: real, lower: string -> string)
      ensures Now() == Start() && this.lower == lower
      ensures this.rmsThreshold == if rmsThreshold <= 0.0 then DEFAULT_RMS_THRESHOLD else rmsThreshold
    {
      this.rmsThreshold := if rmsThreshold <= 0.0 then DEFAULT_RMS_THRESHOLD else rmsThreshold;
      this.lower := lower;
      mode, totalElapsedMs, currentSpeechMs, currentSilenceMs := Holding, 0, 0, 0;
      qualifiedSpeech, conversationActive := false, false;
    }

    method MarkConversationActive()
      modifies this
      ensures Now() == On(old(Now()), ConversationActive).view
    {
      conversationActive := true;
    }

    method OnInboundFrame(rms: real, elapsedMs: int) returns (action: Action)
      modifies this
      ensures Outcome(Now(), action) == On(old(Now()), Frame(rms >= rmsThreshold, elapsedMs))
    {
      if !mode.Holding? {
        return Nothing;
      }
      var delta;
      if elapsedMs > totalElapsedMs {
        delta := elapsedMs - totalElapsedMs;
        totalElapsedMs := elapsedMs;
      } else {
        delta := elapsedMs;
        totalElapsedMs := totalElapsedMs + delta;
      }
      if rms >= rmsThreshold {
        currentSpeechMs := currentSpeechMs + delta;
        currentSilenceMs := 0;
        if currentSpeechMs >= QUALIFYING_SPEECH_MS {
          qualifiedSpeech := true;
        }
      } else {
        currentSilenceMs := currentSilenceMs + delta;
        currentSpeechMs := 0;
        if qualifiedSpeech && currentSilenceMs >= CLOSING_SILENCE_MS {
          mode := Released;
          return ReleaseGreeting;
        }
      }
      if totalElapsedMs >= PATIENCE_MS {
        if currentSpeechMs == 0 && !qualifiedSpeech {
          mode := Released;
          return ReleaseGreeting;
        }
      }
      return Nothing;
    }

    method OnAmdWebhook(answeredBy: string) returns (action: Action)
      modifies this
      ensures Outcome(Now(), action) == On(old(Now()), Webhook(lower(TrimSpace(answeredBy))))
    {
      if conversationActive {
        return Nothing;
      }
      var norm := lower(TrimSpace(answeredBy));
      if norm == "human" || norm == "unknown" {
        if mode.Holding? {
          mode := Released;
          return ReleaseGreeting;
        }
        return Nothing;
      }
      if norm == "machine_start" || norm == "fax" {
        mode := MachineDetected;
        return SwitchToVoicemail;
      }
      if HasPrefix(norm, "machine_end") {
        if norm == "machine_end_other" && mode.Released? {
          return Nothing;
        }
        mode := VoicemailReady;
        return SpeakVoicemailAndHangup;
      }
      return Nothing;
    }
  }

  // ----- Runs -----

  /** The state after the events. */
  function After(events: seq<Event>): View {
    if events == [] then Start() else On(After(events[..|events| - 1]), events[|events| - 1]).view
  }

  /** The action taken on event k. */
  function ActionAt(events: seq<Event>, k: nat): Action
    requires k < |events|
  {
    On(After(events[..k]), events[k]).action
  }

  lemma AfterStep(events: seq<Event>, k: nat)
    requires k < |events|
    ensures After(events[..k + 1]) == On(After(events[..k]), events[k]).view
  {
    assert events[..k + 1][..k] == events[..k];
  }

  lemma HoldingOnlyLeft(v: View, e: Event)
    ensures var o := On(v, e);
            && (!v.mode.Holding? ==> !o.view.mode.Holding? && !o.action.ReleaseGreeting?)
            && (!o.action.Nothing? ==> !o.view.mode.Holding?)
  {
  }

  /** Once left, Holding is never entered again. */
  lemma {:induction false} HoldingIsNotReentered(events: seq<Event>, i: nat, j: nat)
    requires i <= j <= |events| && !After(events[..i]).mode.Holding?
    ensures !After(events[..j]).mode.Holding?
    decreases j - i
  {
    if i < j {
      HoldingIsNotReentered(events, i, j - 1);
      AfterStep(events, j - 1);
      HoldingOnlyLeft(After(events[..j - 1]), events[j - 1]);
    }
  }

  /** In any mix of frames, whatever their timing, webhooks and marks: the greeting is released at most
      once, and never after the call has been handed to voicemail. */
  lemma {:induction false} ReleasedAtMostOnce(events: seq<Event>, i: nat, j: nat)
    requires i < j < |events| && !ActionAt(events, i).Nothing?
    ensures !ActionAt(events, j).ReleaseGreeting?
  {
    AfterStep(events, i);
    HoldingOnlyLeft(After(events[..i]), events[i]);
    HoldingIsNotReentered(events, i + 1, j);
    HoldingOnlyLeft(After(events[..j]), events[j]);
  }

  lemma {:induction false} ActiveStays(events: seq<Event>, i: nat, j: nat)
    requires i <= j <= |events| && After(events[..i]).active
    ensures After(events[..j]).active
    decreases j - i
  {
    if i < j {
      ActiveStays(events, i, j - 1);
      AfterStep(events, j - 1);
    }
  }

  /** Once the conversation is marked active, no webhook acts any more. */
  lemma {:induction false} ActiveCallsAreNotHijacked(events: seq<Event>, i: nat, j: nat)
    requires i < j < |events| && events[i].ConversationActive? && events[j].Webhook?
    ensures ActionAt(events, j).Nothing?
  {
    AfterStep(events, i);
    ActiveStays(events, i + 1, j);
  }

  /** The last action taken on the events; Nothing if none was. */
  ghost function LastAction(events: seq<Event>): Action {
    if events == [] then Nothing
    else
      var action := ActionAt(events, |events| - 1);
      if action.Nothing? then LastAction(events[..|events| - 1]) else action
  }

  /** The mode is the trace of the last action. */
  lemma {:induction false} ModeIsLastAction(events: seq<Event>)
    ensures After(events).mode ==
            match LastAction(events)
            case Nothing => Holding
            case ReleaseGreeting => Released
            case SwitchToVoicemail => MachineDetected
            case SpeakVoicemailAndHangup => VoicemailReady
  {
    if events != [] {
      ModeIsLastAction(events[..|events| - 1]);
    }
  }

  lemma {:induction false} ActiveIsMarked(events: seq<Event>)
    ensures After(events).active <==> ConversationActive in events
  {
    if events != [] {
      var n := |events| - 1;
      assert events == events[..n] + [events[n]];
      ActiveIsMarked(events[..n]);
    }
  }

  /** What a webhook does, in any call history. Nothing once the conversation is active. Otherwise a human
      releases the greeting if nothing has been done yet, a machine's start sends the call to voicemail, and
      its end has the message spoken, except that the vague ending is not believed right after a release. */
  lemma {:induction false} WebhookMeans(events: seq<Event>, k: nat)
    requires k < |events| && events[k].Webhook?
    ensures var before, norm, action := events[..k], events[k].answeredBy, ActionAt(events, k);
            var last := LastAction(before);
            && (ConversationActive in before ==> action == Nothing)
            && (ConversationActive !in before ==>
                  && (norm in {"human", "unknown"} ==>
                        action == if last == Nothing then ReleaseGreeting else Nothing)
                  && (norm in {"machine_start", "fax"} ==> action == SwitchToVoicemail)
                  && (norm == "machine_end_other" ==>
                        action == if last == ReleaseGreeting then Nothing else SpeakVoicemailAndHangup)
                  && ("machine_end" <= norm && norm != "machine_end_other" ==> action == SpeakVoicemailAndHangup)
                  && (norm !in {"human", "unknown", "machine_start", "fax"} && !("machine_end" <= norm) ==>
                        action == Nothing))
  {
    ModeIsLastAction(events[..k]);
    ActiveIsMarked(events[..k]);
    MachineEnds();
  }

  lemma MachineEnds()
    ensures "machine_end" <= "machine_end_other"
    ensures !("machine_end" <= "human") && !("machine_end" <= "unknown")
    ensures !("machine_end" <= "machine_start") && !("machine_end" <= "fax")
  {
    assert "machine_end"[8] == 'e' && "machine_start"[8] == 's';
    assert |"machine_end"| == 11 && |"human"| == 5 && |"unknown"| == 7 && |"fax"| == 3;
    assert "machine_end_other"[..11] == "machine_end";
  }

  // ----- The history the counters stand for -----

  /** Frames with strictly increasing positive timestamps. */
  ghost predicate Timestamped(frames: seq<Event>) {
    && (forall i :: 0 <= i < |frames| ==> frames[i].Frame? && frames[i].elapsed > 0)
    && (forall i, j :: 0 <= i < j < |frames| ==> frames[i].elapsed < frames[j].elapsed)
  }

  ghost function EndTime(frames: seq<Event>): int
    requires forall i :: 0 <= i < |frames| ==> frames[i].Frame?
  {
    if frames == [] then 0 else frames[|frames| - 1].elapsed
  }

  /** When the last frame of the given loudness ended; 0 if there was none. */
  ghost function LastTime(frames: seq<Event>, loud: bool): int
    requires forall i :: 0 <= i < |frames| ==> frames[i].Frame?
  {
    if frames == [] then 0
    else if frames[|frames| - 1].loud == loud then frames[|frames| - 1].elapsed
    else LastTime(frames[..|frames| - 1], loud)
  }

  /** How long the history has ended in speech: since the last quiet frame. */
  ghost function SpeechRun(frames: seq<Event>): int
    requires forall i :: 0 <= i < |frames| ==> frames[i].Frame?
  {
    EndTime(frames) - LastTime(frames, false)
  }

  ghost function SilenceRun(frames: seq<Event>): int
    requires forall i :: 0 <= i < |frames| ==> frames[i].Frame?
  {
    EndTime(frames) - LastTime(frames, true)
  }

  /** Some run of speech was long enough. */
  ghost predicate Qualified(frames: seq<Event>)
    requires forall i :: 0 <= i < |frames| ==> frames[i].Frame?
  {
    exists n :: 0 <= n <= |frames| && SpeechRun(frames[..n]) >= QUALIFYING_SPEECH_MS
  }

  /** The greeting should go out now: the speaker has finished, or has said nothing for too long. */
  ghost predicate ReleaseDue(frames: seq<Event>)
    requires forall i :: 0 <= i < |frames| ==> frames[i].Frame?
  {
    && frames != [] && !frames[|frames| - 1].loud
    && if Qualified(frames) then SilenceRun(frames) >= CLOSING_SILENCE_MS else EndTime(frames) >= PATIENCE_MS
  }

  ghost predicate NotDueBefore(frames: seq<Event>, n: nat)
    requires forall i :: 0 <= i < |frames| ==> frames[i].Frame?
  {
    forall k :: 0 <= k < n && k <= |frames| ==> !ReleaseDue(frames[..k])
  }

  lemma {:induction false} LastTimeIsPast(frames: seq<Event>, loud: bool)
    requires Timestamped(frames)
    ensures 0 <= LastTime(frames, loud) <= EndTime(frames)
    ensures frames != [] ==> (LastTime(frames, loud) == EndTime(frames) <==> frames[|frames| - 1].loud == loud)
  {
    if frames != [] {
      var rest := frames[..|frames| - 1];
      LastTimeIsPast(rest, loud);
      assert rest != [] ==> rest[|rest| - 1] == frames[|frames| - 2];
    }
  }

  lemma QualifiedStep(frames: seq<Event>)
    requires Timestamped(frames) && frames != []
    ensures Qualified(frames) <==> Qualified(frames[..|frames| - 1]) || SpeechRun(frames) >= QUALIFYING_SPEECH_MS
  {
    var rest := frames[..|frames| - 1];
    assert frames[..|frames|] == frames;
    if Qualified(rest) {
      var n :| 0 <= n <= |rest| && SpeechRun(rest[..n]) >= QUALIFYING_SPEECH_MS;
      assert frames[..n] == rest[..n];
    }
    if Qualified(frames) {
      var n :| 0 <= n <= |frames| && SpeechRun(frames[..n]) >= QUALIFYING_SPEECH_MS;
      if n < |frames| {
        assert rest[..n] == frames[..n];
      }
    }
  }

  /** The controller's counters after these frames, as the history determines them. */
  ghost function HistoryView(frames: seq<Event>): View
    requires forall i :: 0 <= i < |frames| ==> frames[i].Frame?
  {
    View(if ReleaseDue(frames) then Released else Holding,
         EndTime(frames), SpeechRun(frames), SilenceRun(frames), Qualified(frames), false)
  }

  /** One frame takes the history's view of the past to its view of the present. */
  lemma HistoryStep(frames: seq<Event>)
    requires Timestamped(frames) && frames != [] && !ReleaseDue(frames[..|frames| - 1])
    ensures var rest, f := frames[..|frames| - 1], frames[|frames| - 1];
            OnFrame(HistoryView(rest), f.loud, f.elapsed).view == HistoryView(frames)
  {
    var rest := frames[..|frames| - 1];
    QualifiedStep(frames);
    RunsStep(frames);
    LastTimeIsPast(rest, false);
    LastTimeIsPast(frames, false);
    assert rest != [] ==> rest[|rest| - 1] == frames[|frames| - 2];
    assert EndTime(rest) < frames[|frames| - 1].elapsed;
  }

  /** Up to the first frame at which release is due, the constant-space controller agrees with the
      whole history: its counters are the trailing runs, and it releases exactly when due. */
  lemma {:induction false} ControllerFollowsHistory(frames: seq<Event>)
    requires Timestamped(frames) && NotDueBefore(frames, |frames|)
    ensures After(frames) == HistoryView(frames)
  {
    if frames == [] {
      assert frames[..0] == [];
    } else {
      var rest := frames[..|frames| - 1];
      assert forall k :: 0 <= k <= |rest| ==> rest[..k] == frames[..k];
      ControllerFollowsHistory(rest);
      assert frames[..|rest|] == rest;
      HistoryStep(frames);
    }
  }

  /** How the runs change with one more frame. */
  lemma RunsStep(frames: seq<Event>)
    requires Timestamped(frames) && frames != []
    ensures var rest, f := frames[..|frames| - 1], frames[|frames| - 1];
            var delta := f.elapsed - EndTime(rest);
            && SpeechRun(frames) == (if f.loud then SpeechRun(rest) + delta else 0)
            && SilenceRun(frames) == (if f.loud then 0 else SilenceRun(rest) + delta)
  {
  }

  /** So among timestamped frames the greeting goes out at the first frame where it is due, and at no other. */
  lemma {:induction false} ReleasesExactlyWhenDue(frames: seq<Event>, k: nat)
    requires Timestamped(frames) && k < |frames|
    ensures ActionAt(frames, k).ReleaseGreeting? <==> ReleaseDue(frames[..k + 1]) && NotDueBefore(frames, k + 1)
  {
    AfterStep(frames, k);
    var upTo, before := frames[..k + 1], frames[..k];
    assert upTo[..k] == before && upTo[k] == frames[k];
    assert forall n :: 0 <= n <= k ==> before[..n] == frames[..n] && upTo[..n] == frames[..n];
    if NotDueBefore(frames, k + 1) {
      ControllerFollowsHistory(upTo);
      ControllerFollowsHistory(before);
    } else {
      AlreadyReleased(frames, k);
    }
  }

  lemma {:induction false} AlreadyReleased(frames: seq<Event>, k: nat)
    requires Timestamped(frames) && k <= |frames| && !NotDueBefore(frames, k + 1)
    ensures !After(frames[..k]).mode.Holding?
    decreases k
  {
    assert forall n :: 0 <= n <= k ==> frames[..k][..n] == frames[..n];
    if NotDueBefore(frames, k) {
      ControllerFollowsHistory(frames[..k]);
    } else {
      AlreadyReleased(frames, k - 1);
      HoldingIsNotReentered(frames, k - 1, k);
    }
  }

  // ----- Durations instead of timestamps -----

  ghost function Sum(ds: seq<int>): int {
    if ds == [] then 0 else Sum(ds[..|ds| - 1]) + ds[|ds| - 1]
  }

  /** The running total the controller keeps over these elapsed values. */
  ghost function Clock(ds: seq<int>): int {
    if ds == [] then 0
    else
      var total := Clock(ds[..|ds| - 1]);
      total + Delta(total, ds[|ds| - 1])
  }

  /** No duration exceeds the time before it, except at the very start. */
  ghost predicate ReadAsDurations(ds: seq<int>) {
    ds == [] ||
    var rest, d := ds[..|ds| - 1], ds[|ds| - 1];
    ReadAsDurations(rest) && (Sum(rest) == 0 || d <= Sum(rest))
  }

  /** After every frame the clock shows the sum of the durations. */
  ghost predicate AddsUp(ds: seq<int>) {
    ds == [] || (AddsUp(ds[..|ds| - 1]) && Clock(ds) == Sum(ds))
  }

  /** Non-negative frame durations add up to the controller's clock, at every frame, exactly when none
      is longer than everything before it: a longer one is taken for a timestamp. */
  lemma {:induction false} DurationsAddUpIff(ds: seq<int>)
    requires forall k :: 0 <= k < |ds| ==> ds[k] >= 0
    ensures AddsUp(ds) <==> ReadAsDurations(ds)
  {
    if ds != [] {
      var rest := ds[..|ds| - 1];
      DurationsAddUpIff(rest);
      assert AddsUp(rest) ==> Clock(rest) == Sum(rest);
    }
  }

  /** A frame of 50 ms after one of 20 ms is taken for a timestamp: the clock shows 50, not 70. */
  lemma LongerFrameExample()
    ensures Clock([20, 50]) == 50 && Sum([20, 50]) == 70 && !AddsUp([20, 50])
  {
    assert [20, 50][..1] == [20] && [20][..0] == [];
    assert Clock([20]) == 20 && Sum([20]) == 20;
  }

  ghost function Frames(loud: seq<bool>, elapsed: seq<int>): seq<Event>
    requires |loud| == |elapsed|
  {
    seq(|loud|, k requires 0 <= k < |loud| => Frame(loud[k], elapsed[k]))
  }

  ghost function Timestamps(ds: seq<int>): seq<int> {
    seq(|ds|, k requires 0 <= k < |ds| => Sum(ds[..k + 1]))
  }

  lemma {:induction false} SumIsPositive(ds: seq<int>)
    requires forall k :: 0 <= k < |ds| ==> ds[k] > 0
    ensures Sum(ds) >= 0 && (ds != [] ==> Sum(ds) > 0)
  {
    if ds != [] {
      SumIsPositive(ds[..|ds| - 1]);
    }
  }

  type Stepper = (View, bool, int) -> View

  function FrameStepper(): Stepper {
    (v: View, loud: bool, elapsed: int) => OnFrame(v, loud, elapsed).view
  }

  /** A stepper over a list of frames given as two columns. */
  ghost function RunOn(step: Stepper, loud: seq<bool>, elapsed: seq<int>): View
    requires |loud| == |elapsed|
  {
    if loud == [] then Start()
    else
      var m := |loud| - 1;
      step(RunOn(step, loud[..m], elapsed[..m]), loud[m], elapsed[m])
  }

  lemma {:induction false} RunOnIsAfter(loud: seq<bool>, elapsed: seq<int>)
    requires |loud| == |elapsed|
    ensures RunOn(FrameStepper(), loud, elapsed) == After(Frames(loud, elapsed))
  {
    if loud != [] {
      var m := |loud| - 1;
      RunOnIsAfter(loud[..m], elapsed[..m]);
      assert Frames(loud, elapsed)[..m] == Frames(loud[..m], elapsed[..m]);
    }
  }

  /** At time `sum` a duration d and the timestamp sum + d come to the same. */
  ghost predicate Agrees(step: Stepper, v: View, loud: bool, d: int, sum: int) {
    && step(v, loud, d) == step(v, loud, sum + d)
    && (step(v, loud, d).mode.Holding? ==> step(v, loud, d).total == sum + d)
  }

  ghost predicate ReadsDurations(step: Stepper) {
    forall v: View, loud, d, sum ::
      d > 0 && sum >= 0 && (sum == 0 || d <= sum) && (v.mode.Holding? ==> v.total == sum) ==>
      Agrees(step, v, loud, d, sum)
  }

  lemma ControllerReadsDurations()
    ensures ReadsDurations(FrameStepper())
  {
    forall v: View, loud, d, sum | d > 0 && sum >= 0 && (sum == 0 || d <= sum) && (v.mode.Holding? ==> v.total == sum)
      ensures Agrees(FrameStepper(), v, loud, d, sum)
    {
      assert FrameStepper()(v, loud, d) == OnFrame(v, loud, d).view;
      assert FrameStepper()(v, loud, sum + d) == OnFrame(v, loud, sum + d).view;
    }
  }

  lemma TimestampsStep(ds: seq<int>, m: nat)
    requires |ds| == m + 1
    ensures Timestamps(ds)[..m] == Timestamps(ds[..m]) && Timestamps(ds)[m] == Sum(ds[..m]) + ds[m]
  {
    forall k | 0 <= k < m
      ensures Timestamps(ds)[k] == Timestamps(ds[..m])[k]
    {
      assert ds[..m][..k + 1] == ds[..k + 1];
    }
    assert ds[..m + 1] == ds;
  }

  lemma {:induction false} ColumnsMatch(step: Stepper, loud: seq<bool>, ds: seq<int>)
    requires ReadsDurations(step)
    requires |loud| == |ds| && (forall k :: 0 <= k < |ds| ==> ds[k] > 0) && ReadAsDurations(ds)
    ensures RunOn(step, loud, ds) == RunOn(step, loud, Timestamps(ds))
    ensures RunOn(step, loud, ds).mode.Holding? ==> RunOn(step, loud, ds).total == Sum(ds)
  {
    if ds != [] {
      var m := |ds| - 1;
      ColumnsMatch(step, loud[..m], ds[..m]);
      SumIsPositive(ds[..m]);
      TimestampsStep(ds, m);
      assert Agrees(step, RunOn(step, loud[..m], ds[..m]), loud[m], ds[m], Sum(ds[..m]));
    }
  }

  /** When durations are read as such, feeding them or the timestamps they add up to is the same
      to the controller, frame by frame. */
  lemma DurationsMatchTimestamps(loud: seq<bool>, ds: seq<int>)
    requires |loud| == |ds| && (forall k :: 0 <= k < |ds| ==> ds[k] > 0) && ReadAsDurations(ds)
    ensures After(Frames(loud, ds)) == After(Frames(loud, Timestamps(ds)))
    ensures After(Frames(loud, ds)).mode.Holding? ==> After(Frames(loud, ds)).total == Sum(ds)
  {
    ControllerReadsDurations();
    ColumnsMatch(FrameStepper(), loud, ds);
    RunOnIsAfter(loud, ds);
    RunOnIsAfter(loud, Timestamps(ds));
  }

  lemma {:induction false} ConstantSum(d: int, n: nat)
    ensures Sum(seq(n, _ => d)) == n * d
  {
    if n > 0 {
      assert seq(n, _ => d)[..n - 1] == seq(n - 1, _ => d);
      ConstantSum(d, n - 1);
    }
  }

  /** In particular frames of constant length d behave like timestamps d, 2d, 3d, ... */
  lemma ConstantFramesMatchTimestamps(loud: seq<bool>, d: int)
    requires d > 0
    ensures var n := |loud|;
            After(Frames(loud, seq(n, _ => d))) == After(Frames(loud, seq(n, k => (k + 1) * d)))
  {
    var n := |loud|;
    var ds := seq(n, _ => d);
    ConstantIsReadAsDurations(d, n);
    var stamps := Timestamps(ds);
    forall k | 0 <= k < n
      ensures stamps[k] == (k + 1) * d
    {
      assert ds[..k + 1] == seq(k + 1, _ => d);
      ConstantSum(d, k + 1);
    }
    assert stamps == seq(n, k => (k + 1) * d);
    DurationsMatchTimestamps(loud, ds);
  }

  lemma {:induction false} ConstantIsReadAsDurations(d: int, n: nat)
    requires d > 0
    ensures ReadAsDurations(seq(n, _ => d))
  {
    if n > 0 {
      var ds := seq(n, _ => d);
      assert ds[..n - 1] == seq(n - 1, _ => d);
      ConstantIsReadAsDurations(d, n - 1);
      ConstantSum(d, n - 1);
      assert n > 1 ==> (n - 1) * d >= d;
    }
  }
}
