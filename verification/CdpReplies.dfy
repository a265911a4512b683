/** Which reply a call gets, over every run of the multiplexer (mcp/kernel-mcp/cdp.go): the answer that a
    read loop took for it, or the news of a disconnect, and nothing else; and a run that serves calls. */
module CdpReplies {
  import opened Wrappers
  import opened Cdp

  /** The step is among the first n. */
  ghost predicate Happened(steps: seq<Step>, n: nat, step: Step) {
    exists i :: 0 <= i < n <= |steps| && steps[i] == step
  }

  lemma HappenedNow(steps: seq<Step>, n: nat)
    requires n < |steps|
    ensures Happened(steps, n + 1, steps[n])
  {
  }

  lemma HappenedBefore(steps: seq<Step>, n: nat, step: Step)
    requires n < |steps|
    ensures Happened(steps, n, step) ==> Happened(steps, n + 1, step)
  {
  }

  ghost predicate Disconnected(steps: seq<Step>, n: nat, conn: Conn) {
    Happened(steps, n, ReaderTo(conn, BeginDisconnect))
  }

  ghost predicate Drained(steps: seq<Step>, n: nat, conn: Conn, id: MsgId) {
    Disconnected(steps, n, conn) && Happened(steps, n, ReaderTo(conn, DrainTake(id)))
  }

  ghost predicate Took(steps: seq<Step>, n: nat, conn: Conn, id: MsgId) {
    Happened(steps, n, ReaderTo(conn, Take(id)))
  }

  ghost predicate Delivered(steps: seq<Step>, n: nat, conn: Conn, id: MsgId) {
    Took(steps, n, conn, id) && Happened(steps, n, ReaderTo(conn, Deliver))
  }

  /** How a reader came to be in its state. */
  ghost predicate ReaderHistory(steps: seq<Step>, n: nat, conn: Conn, r: Reader) {
    match r
    case Reading => true
    case Delivering(id, _) => Took(steps, n, conn, id)
    case Draining => Disconnected(steps, n, conn)
    case DrainSending(id, _) => Drained(steps, n, conn, id)
    case Gone => true
  }

  /** How a call came to its reply: from the reader that took its channel, by the matching steps. */
  ghost predicate ReplyHistory(steps: seq<Step>, n: nat, holder: map<MsgId, Conn>, id: MsgId, reply: Reply) {
    id in holder &&
    match reply
    case Closed => Drained(steps, n, holder[id], id)
    case Answer(forId) => forId == id && Delivered(steps, n, holder[id], id)
  }

  ghost predicate ReadersOk(steps: seq<Step>, n: nat, readers: Readers) {
    forall c :: c in readers ==> ReaderHistory(steps, n, c, readers[c])
  }

  ghost predicate BufferedOk(steps: seq<Step>, n: nat, s: State) {
    forall id, reply :: id in s.calls && reply in Buffered(s.buffers, s.calls[id].ch) ==>
      ReplyHistory(steps, n, s.holder, id, reply)
  }

  ghost predicate ReturnedOk(steps: seq<Step>, n: nat, s: State) {
    forall id :: id in s.calls && s.calls[id].phase.Returned? && s.calls[id].phase.reply.Some? ==>
      ReplyHistory(steps, n, s.holder, id, s.calls[id].phase.reply.value)
  }

  ghost predicate History(steps: seq<Step>, n: nat, s: State) {
    ReadersOk(steps, n, s.readers) && BufferedOk(steps, n, s) && ReturnedOk(steps, n, s)
  }

  // ----- One step later -----

  lemma ReaderHistoryLater(steps: seq<Step>, n: nat, conn: Conn, r: Reader)
    requires n < |steps| && ReaderHistory(steps, n, conn, r)
    ensures ReaderHistory(steps, n + 1, conn, r)
  {
  }

  lemma ReplyHistoryLater(steps: seq<Step>, n: nat, holder: map<MsgId, Conn>, id: MsgId, reply: Reply)
    requires n < |steps| && ReplyHistory(steps, n, holder, id, reply)
    ensures ReplyHistory(steps, n + 1, holder, id, reply)
  {
  }

  /** Steps that change no reader, no reply and no holder. */
  lemma HistoryLater(steps: seq<Step>, n: nat, s: State, s': State)
    requires n < |steps| && History(steps, n, s)
    requires forall c :: c in s'.readers ==>
      s'.readers[c].Reading? || s'.readers[c].Gone? || (c in s.readers && s'.readers[c] == s.readers[c])
    requires forall id, reply :: id in s'.calls && reply in Buffered(s'.buffers, s'.calls[id].ch) ==>
      id in s.calls && reply in Buffered(s.buffers, s.calls[id].ch)
    requires forall id :: id in s'.calls && s'.calls[id].phase.Returned? && s'.calls[id].phase.reply.Some? ==>
      && id in s.calls
      && (|| (s.calls[id].phase == s'.calls[id].phase)
          || s'.calls[id].phase.reply.value in Buffered(s.buffers, s.calls[id].ch))
    requires s'.holder == s.holder
    ensures History(steps, n + 1, s')
  {
    forall c | c in s'.readers
      ensures ReaderHistory(steps, n + 1, c, s'.readers[c])
    {
      if c in s.readers && s'.readers[c] == s.readers[c] {
        ReaderHistoryLater(steps, n, c, s.readers[c]);
      }
    }
    forall id, reply | id in s'.calls && reply in Buffered(s'.buffers, s'.calls[id].ch)
      ensures ReplyHistory(steps, n + 1, s'.holder, id, reply)
    {
      ReplyHistoryLater(steps, n, s.holder, id, reply);
    }
    forall id | id in s'.calls && s'.calls[id].phase.Returned? && s'.calls[id].phase.reply.Some?
      ensures ReplyHistory(steps, n + 1, s'.holder, id, s'.calls[id].phase.reply.value)
    {
      ReplyHistoryLater(steps, n, s.holder, id, s'.calls[id].phase.reply.value);
    }
  }

  lemma AfterStart(steps: seq<Step>, n: nat, s: State, conn: Conn, stage: nat)
    requires n < |steps| && History(steps, n, s) && ChansOk(s.buffers, s.sends, s.nextChan)
    requires CallsOk(s.calls, s.msgId, s.nextChan, s.owner)
    ensures History(steps, n + 1, WithCall(s, conn, stage))
  {
    NewChannel(s.buffers, s.sends, s.nextChan);
    HistoryLater(steps, n, s, WithCall(s, conn, stage));
  }

  lemma AfterReceive(steps: seq<Step>, n: nat, s: State, id: MsgId, success: bool)
    requires n < |steps| && History(steps, n, s) && CallsOk(s.calls, s.msgId, s.nextChan, s.owner) && CanReceive(s, id)
    ensures History(steps, n + 1, Receiving(s, id, success))
  {
    var s', ch := Receiving(s, id, success), s.calls[id].ch;
    assert s.buffers[ch][0] in Buffered(s.buffers, ch);
    assert forall reply :: reply in Buffered(s'.buffers, ch) ==> reply in Buffered(s.buffers, ch);
    HistoryLater(steps, n, s, s');
  }

  lemma AfterPhase(steps: seq<Step>, n: nat, s: State, id: MsgId, phase: Phase, pending: Pending)
    requires n < |steps| && History(steps, n, s) && id in s.calls
    requires phase.Returned? ==> phase.reply.None?
    ensures History(steps, n + 1, SetPhase(s, id, phase).(pending := pending))
  {
    HistoryLater(steps, n, s, SetPhase(s, id, phase).(pending := pending));
  }

  lemma AfterCall(steps: seq<Step>, n: nat, s: State, step: CallStep)
    requires n < |steps| && OwnershipOk(s) && History(steps, n, s) && CallEnabled(s, step)
    ensures History(steps, n + 1, ApplyCall(s, step))
  {
    match step {
      case StartCall(conn) => AfterStart(steps, n, s, conn, NO_STAGE);
      case Register(id) => AfterPhase(steps, n, s, id, Registered, s.pending[id := s.calls[id].ch]);
      case Write(id) => AfterPhase(steps, n, s, id, Waiting, s.pending);
      case GiveUp(id) => AfterPhase(steps, n, s, id, Aborting, s.pending);
      case Abort(id) => AfterPhase(steps, n, s, id, Returned(None, false), s.pending - {id});
      case Receive(id, success) => AfterReceive(steps, n, s, id, success);
    }
  }

  lemma SameTableLater(steps: seq<Step>, n: nat, s: State, s': State)
    requires n < |steps| && History(steps, n, s)
    requires s'.calls == s.calls && s'.buffers == s.buffers && s'.holder == s.holder
    requires forall c :: c in s'.readers ==> s'.readers[c].Reading? || (c in s.readers && s'.readers[c] == s.readers[c])
    ensures History(steps, n + 1, s')
  {
    HistoryLater(steps, n, s, s');
  }

  lemma AfterSetup(steps: seq<Step>, n: nat, s: State, step: SetupStep)
    requires n < |steps| && OwnershipOk(s) && History(steps, n, s) && SetupEnabled(s, step)
    ensures History(steps, n + 1, ApplySetup(s, step))
  {
    SetupReaders(s, step);
    if step.StartStage? {
      AfterStart(steps, n, s, s.setup.conn, s.setup.stage);
    } else {
      SameTableLater(steps, n, s, ApplySetup(s, step));
    }
  }

  lemma AfterTake(steps: seq<Step>, n: nat, s: State, conn: Conn, id: MsgId, r: Reader)
    requires n < |steps| && History(steps, n, s) && id in s.pending
    requires PendingOk(s.calls, s.pending, s.sends) && SendsOk(s.buffers, s.sends)
    requires ReaderHistory(steps, n + 1, conn, r)
    ensures History(steps, n + 1, Taking(s, conn, id, r))
  {
    var s' := Taking(s, conn, id, r);
    PendingHasNoReply(s, id);
    forall c | c in s'.readers
      ensures ReaderHistory(steps, n + 1, c, s'.readers[c])
    {
      if c != conn {
        ReaderHistoryLater(steps, n, c, s.readers[c]);
      }
    }
    forall i, reply | i in s'.calls && reply in Buffered(s'.buffers, s'.calls[i].ch)
      ensures ReplyHistory(steps, n + 1, s'.holder, i, reply)
    {
      ReplyHistoryLater(steps, n, s.holder, i, reply);
    }
    forall i | i in s'.calls && s'.calls[i].phase.Returned? && s'.calls[i].phase.reply.Some?
      ensures ReplyHistory(steps, n + 1, s'.holder, i, s'.calls[i].phase.reply.value)
    {
      ReplyHistoryLater(steps, n, s.holder, i, s'.calls[i].phase.reply.value);
    }
  }

  lemma AfterSend(steps: seq<Step>, n: nat, s: State, conn: Conn, reply: Reply, r: Reader)
    requires n < |steps| && History(steps, n, s) && CallsOk(s.calls, s.msgId, s.nextChan, s.owner)
    requires HandsOk(s.calls, s.pending, s.sends, s.readers) && SendsOk(s.buffers, s.sends)
    requires conn in s.readers && Holding(s.readers[conn]) && CanSend(s, s.readers[conn].ch)
    requires ReaderHistory(steps, n + 1, conn, r)
    requires ReplyHistory(steps, n + 1, s.holder, s.readers[conn].id, reply)
    ensures History(steps, n + 1, Sending(s, conn, reply, r))
  {
    var s', h := Sending(s, conn, reply, r), s.readers[conn];
    assert HandOk(s.calls, s.pending, s.sends, h);
    forall c | c in s'.readers
      ensures ReaderHistory(steps, n + 1, c, s'.readers[c])
    {
      if c != conn {
        ReaderHistoryLater(steps, n, c, s.readers[c]);
      }
    }
    forall i, x | i in s'.calls && x in Buffered(s'.buffers, s'.calls[i].ch)
      ensures ReplyHistory(steps, n + 1, s'.holder, i, x)
    {
      if i == h.id {
        assert |Buffered(s.buffers, h.ch)| <= Sent(s.sends, h.ch);
        assert Buffered(s'.buffers, h.ch) == [reply];
      } else {
        assert s.calls[i].ch != h.ch;
        assert x in Buffered(s.buffers, s.calls[i].ch);
        ReplyHistoryLater(steps, n, s.holder, i, x);
      }
    }
    forall i | i in s'.calls && s'.calls[i].phase.Returned? && s'.calls[i].phase.reply.Some?
      ensures ReplyHistory(steps, n + 1, s'.holder, i, s'.calls[i].phase.reply.value)
    {
      ReplyHistoryLater(steps, n, s.holder, i, s'.calls[i].phase.reply.value);
    }
  }

  lemma AfterTaking(steps: seq<Step>, n: nat, s: State, conn: Conn, step: ReaderStep)
    requires n < |steps| && OwnershipOk(s) && SendsOk(s.buffers, s.sends) && History(steps, n, s)
    requires ReaderEnabled(s, conn, step) && steps[n] == ReaderTo(conn, step) && (step.Take? || step.DrainTake?)
    ensures History(steps, n + 1, ApplyReader(s, conn, step))
  {
    HappenedNow(steps, n);
    ReaderHistoryLater(steps, n, conn, s.readers[conn]);
    if step.DrainTake? {
      AfterTake(steps, n, s, conn, step.id, DrainSending(step.id, s.pending[step.id]));
    } else if step.id in s.pending {
      AfterTake(steps, n, s, conn, step.id, Delivering(step.id, s.pending[step.id]));
    } else {
      SameTableLater(steps, n, s, s);
    }
  }

  lemma AfterSending(steps: seq<Step>, n: nat, s: State, conn: Conn, step: ReaderStep)
    requires n < |steps| && OwnershipOk(s) && SendsOk(s.buffers, s.sends) && History(steps, n, s)
    requires ReaderEnabled(s, conn, step) && steps[n] == ReaderTo(conn, step) && (step.Deliver? || step.DrainSend?)
    ensures History(steps, n + 1, ApplyReader(s, conn, step))
  {
    HappenedNow(steps, n);
    ReaderHistoryLater(steps, n, conn, s.readers[conn]);
    if step.Deliver? {
      AfterSend(steps, n, s, conn, Answer(s.readers[conn].id), Reading);
    } else {
      AfterSend(steps, n, s, conn, Closed, Draining);
    }
  }

  lemma AfterReader(steps: seq<Step>, n: nat, s: State, conn: Conn, step: ReaderStep)
    requires n < |steps| && OwnershipOk(s) && SendsOk(s.buffers, s.sends) && History(steps, n, s)
    requires ReaderEnabled(s, conn, step) && steps[n] == ReaderTo(conn, step)
    ensures History(steps, n + 1, ApplyReader(s, conn, step))
  {
    if step.Take? || step.DrainTake? {
      AfterTaking(steps, n, s, conn, step);
    } else if step.Deliver? || step.DrainSend? {
      AfterSending(steps, n, s, conn, step);
    } else {
      AfterLocking(steps, n, s, conn, step);
    }
  }

  lemma AfterLocking(steps: seq<Step>, n: nat, s: State, conn: Conn, step: ReaderStep)
    requires n < |steps| && History(steps, n, s)
    requires ReaderEnabled(s, conn, step) && steps[n] == ReaderTo(conn, step)
    requires step.BeginDisconnect? || step.EndDisconnect?
    ensures History(steps, n + 1, ApplyReader(s, conn, step))
  {
    HappenedNow(steps, n);
    AfterMoveOnly(steps, n, s, ApplyReader(s, conn, step), conn);
  }

  lemma AfterMoveOnly(steps: seq<Step>, n: nat, s: State, s': State, conn: Conn)
    requires n < |steps| && History(steps, n, s) && conn in s'.readers
    requires s'.readers == s.readers[conn := s'.readers[conn]] && ReaderHistory(steps, n + 1, conn, s'.readers[conn])
    requires s'.calls == s.calls && s'.buffers == s.buffers && s'.holder == s.holder
    ensures History(steps, n + 1, s')
  {
    HistoryLater(steps, n, s, s'.(readers := s.readers));
    forall c | c in s'.readers
      ensures ReaderHistory(steps, n + 1, c, s'.readers[c])
    {
      if c != conn {
        ReaderHistoryLater(steps, n, c, s.readers[c]);
      }
    }
  }

  lemma HistoryKept(steps: seq<Step>, n: nat, s: State)
    requires n < |steps| && OwnershipOk(s) && SendsOk(s.buffers, s.sends) && History(steps, n, s) &&
      Enabled(s, steps[n])
    ensures History(steps, n + 1, Apply(s, steps[n]))
  {
    match steps[n] {
      case CallTo(call) => AfterCall(steps, n, s, call);
      case ReaderTo(conn, reader) => AfterReader(steps, n, s, conn, reader);
      case SetupTo(u) => AfterSetup(steps, n, s, u);
    }
  }

  lemma {:induction false} RunHasHistory(states: seq<State>, steps: seq<Step>, n: nat)
    requires IsRun(states, steps) && n <= |steps|
    ensures History(steps, n, states[n])
  {
    if n > 0 {
      RunHasHistory(states, steps, n - 1);
      RunKeepsInv(states, steps, n - 1);
      HistoryKept(steps, n - 1, states[n - 1]);
    }
  }

  /** In every run a call that returned "connection closed" was drained by a reader that disconnected, and a
      call that returned an answer got its own, taken and delivered by one reader. */
  lemma RepliesHaveTheirCause(states: seq<State>, steps: seq<Step>, n: nat, id: MsgId)
    requires IsRun(states, steps) && n <= |steps| && id in states[n].calls
    requires states[n].calls[id].phase.Returned? && states[n].calls[id].phase.reply.Some?
    ensures var s := states[n];
      id in s.holder &&
      match s.calls[id].phase.reply.value
      case Closed => Drained(steps, n, s.holder[id], id)
      case Answer(forId) => forId == id && Delivered(steps, n, s.holder[id], id)
  {
    RunHasHistory(states, steps, n);
  }

  // ----- What a reader has taken, it delivers -----

  lemma CallKeepsReaders(s: State, step: CallStep)
    requires CallEnabled(s, step)
    ensures ApplyCall(s, step).readers == s.readers
  {
  }

  lemma SetupKeepsReader(s: State, step: SetupStep, conn: Conn)
    requires ConnsOk(s.setup, s.readers, s.nextConn) && SetupEnabled(s, step) && conn in s.readers
    ensures conn in ApplySetup(s, step).readers && ApplySetup(s, step).readers[conn] == s.readers[conn]
  {
    SetupReaders(s, step);
  }

  lemma OtherReaderKeepsReader(s: State, other: Conn, step: ReaderStep, conn: Conn)
    requires ReaderEnabled(s, other, step) && conn in s.readers && other != conn
    ensures conn in ApplyReader(s, other, step).readers && ApplyReader(s, other, step).readers[conn] == s.readers[conn]
  {
  }

  lemma OtherStepsKeepReader(s: State, step: Step, conn: Conn)
    requires ConnsOk(s.setup, s.readers, s.nextConn) && Enabled(s, step) && conn in s.readers
    requires step.ReaderTo? ==> step.conn != conn
    ensures conn in Apply(s, step).readers && Apply(s, step).readers[conn] == s.readers[conn]
  {
    match step {
      case CallTo(call) => CallKeepsReaders(s, call);
      case ReaderTo(other, reader) => OtherReaderKeepsReader(s, other, reader, conn);
      case SetupTo(u) => SetupKeepsReader(s, u, conn);
    }
  }

  lemma {:induction false} ReaderWaits(states: seq<State>, steps: seq<Step>, i: nat, j: nat, conn: Conn)
    requires IsRun(states, steps) && i <= j <= |steps| && conn in states[i].readers
    requires forall k :: i <= k < j && steps[k].ReaderTo? ==> steps[k].conn != conn
    ensures conn in states[j].readers && states[j].readers[conn] == states[i].readers[conn]
    decreases j
  {
    if i < j {
      ReaderWaits(states, steps, i, j - 1, conn);
      RunKeepsInv(states, steps, j - 1);
      OtherStepsKeepReader(states[j - 1], steps[j - 1], conn);
    }
  }

  /** After a reader takes the channel of a pending call, its next step delivers that call's answer. */
  lemma TakenIsDelivered(states: seq<State>, steps: seq<Step>, i: nat, j: nat, conn: Conn, id: MsgId)
    requires IsRun(states, steps) && i < j < |steps|
    requires steps[i] == ReaderTo(conn, Take(id)) && id in states[i].pending
    requires steps[j].ReaderTo? && steps[j].conn == conn
    requires forall k :: i < k < j && steps[k].ReaderTo? ==> steps[k].conn != conn
    ensures steps[j] == ReaderTo(conn, Deliver)
    ensures var s := states[j + 1]; id in s.calls && Buffered(s.buffers, s.calls[id].ch) == [Answer(id)]
  {
    ReaderWaits(states, steps, i + 1, j, conn);
    RunKeepsInv(states, steps, j);
    var s := states[j];
    assert s.readers[conn] == Delivering(id, states[i].pending[id]);
    assert ReaderEnabled(s, conn, steps[j].reader);
    assert HandOk(s.calls, s.pending, s.sends, s.readers[conn]);
    assert |Buffered(s.buffers, s.readers[conn].ch)| <= Sent(s.sends, s.readers[conn].ch);
    assert states[j + 1] == Sending(s, conn, Answer(id), Reading);
  }

  // ----- A run that serves calls -----

  lemma OneMore(states: seq<State>, steps: seq<Step>, step: Step) returns (more: seq<State>, longer: seq<Step>)
    requires IsRun(states, steps) && Enabled(states[|steps|], step)
    ensures IsRun(more, longer) && longer == steps + [step] && more == states + [Apply(states[|steps|], step)]
  {
    more, longer := states + [Apply(states[|steps|], step)], steps + [step];
    forall i | 0 <= i < |longer|
      ensures Enabled(more[i], longer[i]) && more[i + 1] == Apply(more[i], longer[i])
    {
      if i < |steps| {
        assert more[i] == states[i] && more[i + 1] == states[i + 1] && longer[i] == steps[i];
      } else {
        assert more[i] == states[|steps|];
      }
    }
  }

  /** Connected, idle but for the set-up sequence, which has come to this stage. */
  ghost predicate AtStage(s: State, stage: nat) {
    && s.setup == Sequence(0, stage, None) && s.activeConn == Some(0) && s.lock == None && s.pending == map[]
    && s.readers == map[0 := Reading] && s.msgId == stage && s.nextChan == stage
  }

  lemma Connects() returns (states: seq<State>, steps: seq<Step>)
    ensures IsRun(states, steps) && AtStage(states[|steps|], 0)
  {
    states, steps := [Init()], [];
    states, steps := OneMore(states, steps, SetupTo(BeginEnsure));
    states, steps := OneMore(states, steps, SetupTo(Check));
    states, steps := OneMore(states, steps, SetupTo(DialSucceeded));
    states, steps := OneMore(states, steps, SetupTo(Install));
    states, steps := OneMore(states, steps, SetupTo(SpawnReader));
    states, steps := OneMore(states, steps, SetupTo(AttachDone));
    states, steps := OneMore(states, steps, SetupTo(CheckStealth));
  }

  /** The command of this stage is in this phase, with this much in its channel and its table entry. */
  ghost predicate InCommand(s: State, stage: nat, phase: Phase, buffer: seq<Reply>, pending: Pending) {
    var id := stage + 1;
    && s.setup == Sequence(0, stage, Some(id)) && s.activeConn == Some(0) && s.lock == None && s.pending == pending
    && s.readers == map[0 := Reading] && s.msgId == id && s.nextChan == id
    && id in s.calls && s.calls[id] == Call(stage, 0, stage, phase)
    && stage in s.buffers && s.buffers[stage] == buffer
  }

  /** A command of the set-up is numbered, registered and written ... */
  lemma SendsCommand(before: seq<State>, done: seq<Step>, stage: nat) returns (states: seq<State>, steps: seq<Step>)
    requires IsRun(before, done) && AtStage(before[|done|], stage) && stage < SETUP_STAGES
    ensures IsRun(states, steps) && InCommand(states[|steps|], stage, Waiting, [], map[stage + 1 := stage])
  {
    var id := stage + 1;
    states, steps := OneMore(before, done, SetupTo(StartStage));
    assert InCommand(states[|steps|], stage, Allocated, [], map[]);
    states, steps := OneMore(states, steps, CallTo(Register(id)));
    assert InCommand(states[|steps|], stage, Registered, [], map[id := stage]);
    states, steps := OneMore(states, steps, CallTo(Write(id)));
  }

  /** ... its answer is taken and delivered ... */
  lemma AnswersCommand(before: seq<State>, done: seq<Step>, stage: nat) returns (states: seq<State>, steps: seq<Step>)
    requires IsRun(before, done) && InCommand(before[|done|], stage, Waiting, [], map[stage + 1 := stage])
    ensures IsRun(states, steps) && InCommand(states[|steps|], stage, Waiting, [Answer(stage + 1)], map[])
  {
    var id := stage + 1;
    states, steps := OneMore(before, done, ReaderTo(0, Take(id)));
    var s := states[|steps|];
    assert s.readers[0] == Delivering(id, stage) && s.pending == map[];
    states, steps := OneMore(states, steps, ReaderTo(0, Deliver));
    assert states[|steps|].readers == map[0 := Reading];
  }

  /** ... and received. */
  lemma ReceivesAnswer(before: seq<State>, done: seq<Step>, stage: nat) returns (states: seq<State>, steps: seq<Step>)
    requires IsRun(before, done) && InCommand(before[|done|], stage, Waiting, [Answer(stage + 1)], map[])
    ensures IsRun(states, steps) && AtStage(states[|steps|], stage + 1)
    ensures InPhase(states[|steps|], stage + 1, Returned(Some(Answer(stage + 1)), true))
  {
    var id := stage + 1;
    states, steps := OneMore(before, done, CallTo(Receive(id, true)));
    assert InPhase(states[|steps|], id, Returned(Some(Answer(id)), true));
    states, steps := OneMore(states, steps, SetupTo(FinishStage));
  }

  lemma ServesStage(before: seq<State>, done: seq<Step>, stage: nat) returns (states: seq<State>, steps: seq<Step>)
    requires IsRun(before, done) && AtStage(before[|done|], stage) && stage < SETUP_STAGES
    ensures IsRun(states, steps) && AtStage(states[|steps|], stage + 1)
    ensures InPhase(states[|steps|], stage + 1, Returned(Some(Answer(stage + 1)), true))
  {
    states, steps := SendsCommand(before, done, stage);
    states, steps := AnswersCommand(states, steps, stage);
    states, steps := ReceivesAnswer(states, steps, stage);
  }

  /** Some run answers a call and makes the client ready. */
  lemma SomeRunServes() returns (states: seq<State>, steps: seq<Step>)
    ensures IsRun(states, steps)
    ensures var s := states[|steps|];
      && s.stealthReady && s.activeConn == Some(0)
      && InPhase(s, SETUP_STAGES, Returned(Some(Answer(SETUP_STAGES)), true))
  {
    states, steps := Connects();
    states, steps := ServesStage(states, steps, 0);
    states, steps := ServesStage(states, steps, 1);
    states, steps := ServesStage(states, steps, 2);
    states, steps := ServesStage(states, steps, 3);
    states, steps := OneMore(states, steps, SetupTo(FinishSetup));
  }
}
