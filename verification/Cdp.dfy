/** The request/response multiplexer of the browser client (mcp/kernel-mcp/cdp.go) as a
    transition system: callers, one read loop per connection, disconnect handlers, timeouts,
    Close and the connection set-up interleave freely over one pending table.

    A step is one critical section, channel operation or local decision. `lock` is stateMu;
    only a disconnect handler holds it over several steps, because it sends replies under it. */
module Cdp {
  import opened Wrappers

  type Conn = nat
  type Chan = nat
  type MsgId = nat

  datatype Reply = Answer(forId: MsgId) | Closed

  /** Where one sendCDPDirect call is. `reply` is what the call returned with, if anything. */
  datatype Phase =
    | Allocated
    | Registered
    | Waiting
    | Aborting
    | Returned(reply: Option<Reply>, success: bool)

  /** One sendCDPDirect call; `stage` is its place in the set-up sequence, NO_STAGE for any other command. */
  datatype Call = Call(ch: Chan, conn: Conn, stage: nat, phase: Phase)

  datatype Reader =
    | Reading
    | Delivering(id: MsgId, ch: Chan)   // took a channel out of pending, reply not sent yet
    | Draining                          // in handleDisconnect, holding the lock
    | DrainSending(id: MsgId, ch: Chan)
    | Gone

  /** The holder of initMu inside EnsureConnection / ensureStealthSessionLocked. */
  datatype Setup =
    | Idle
    | Checking
    | Dialing
    | Dialed(conn: Conn)
    | Installed(conn: Conn)
    | Attaching(conn: Conn)
    | StealthCheck
    | Sequence(conn: Conn, stage: nat, call: Option<MsgId>)

  const SETUP_STAGES := 4
  const NO_STAGE := 4

  datatype State = State(
    msgId: MsgId,
    nextChan: Chan,
    nextConn: Conn,
    calls: map<MsgId, Call>,
    pending: map<MsgId, Chan>,
    buffers: map<Chan, seq<Reply>>,
    sends: map<Chan, nat>,            // auxiliary: how often each channel was sent to
    owner: map<Chan, MsgId>,          // auxiliary: the call that made each channel
    holder: map<MsgId, Conn>,         // auxiliary: the reader that took each call's channel
    readers: map<Conn, Reader>,
    lock: Option<Conn>,
    activeConn: Option<Conn>,
    stealthReady: bool,
    setup: Setup)

  /** Steps of a sendCDPDirect call. */
  datatype CallStep =
    | StartCall(conn: Conn)
    | Register(id: MsgId)
    | Write(id: MsgId)
    | GiveUp(id: MsgId)                  // marshal error, write error, or context done
    | Abort(id: MsgId)
    | Receive(id: MsgId, success: bool)

  /** Steps of a connection's readLoop and handleDisconnect. */
  datatype ReaderStep =
    | Take(id: MsgId)
    | Deliver
    | BeginDisconnect
    | DrainTake(id: MsgId)
    | DrainSend
    | EndDisconnect

  /** Steps of EnsureConnection and ensureStealthSessionLocked, and Close. */
  datatype SetupStep =
    | BeginEnsure
    | Check
    | DialFailed
    | DialSucceeded
    | Install
    | SpawnReader
    | AttachDone
    | CheckStealth
    | StartStage
    | CancelStage                        // the context was done before a command was numbered
    | FinishStage
    | FinishSetup
    | CloseClient

  datatype Step =
    | CallTo(call: CallStep)
    | ReaderTo(conn: Conn, reader: ReaderStep)
    | SetupTo(step: SetupStep)

  function Init(): State {
    State(0, 0, 0, map[], map[], map[], map[], map[], map[], map[], None, None, false, Idle)
  }

  predicate CanSend(s: State, ch: Chan) {
    ch in s.buffers && |s.buffers[ch]| < 1
  }

  predicate Holding(r: Reader) {
    r.Delivering? || r.DrainSending?
  }

  predicate InPhase(s: State, id: MsgId, phase: Phase) {
    id in s.calls && s.calls[id].phase == phase
  }

  predicate CallEnabled(s: State, step: CallStep) {
    match step
    case StartCall(conn) => true
    case Register(id) => InPhase(s, id, Allocated) && s.lock.None?
    case Write(id) => InPhase(s, id, Registered)
    case GiveUp(id) => InPhase(s, id, Registered) || InPhase(s, id, Waiting)
    case Abort(id) => InPhase(s, id, Aborting) && s.lock.None?
    case Receive(id, success) => CanReceive(s, id) && (success ==> s.buffers[s.calls[id].ch][0].Answer?)
  }

  predicate CanReceive(s: State, id: MsgId) {
    InPhase(s, id, Waiting) && s.calls[id].ch in s.buffers && s.buffers[s.calls[id].ch] != []
  }

  predicate ReaderEnabled(s: State, conn: Conn, step: ReaderStep) {
    conn in s.readers &&
    match step
    case Take(id) => s.readers[conn].Reading? && s.lock.None? && id != 0
    case Deliver => s.readers[conn].Delivering? && CanSend(s, s.readers[conn].ch)
    case BeginDisconnect => s.readers[conn].Reading? && s.lock.None?
    case DrainTake(id) => s.readers[conn].Draining? && id in s.pending
    case DrainSend => s.readers[conn].DrainSending? && CanSend(s, s.readers[conn].ch)
    case EndDisconnect => s.readers[conn].Draining? && s.pending == map[]
  }

  predicate SetupEnabled(s: State, step: SetupStep) {
    match step
    case BeginEnsure => s.setup.Idle?
    case Check => s.setup.Checking? && s.lock.None?
    case DialFailed => s.setup.Dialing?
    case DialSucceeded => s.setup.Dialing?
    case Install => s.setup.Dialed? && s.lock.None?
    case SpawnReader => s.setup.Installed?
    case AttachDone => s.setup.Attaching?
    case CheckStealth => s.setup.StealthCheck? && s.lock.None?
    case StartStage => s.setup.Sequence? && s.setup.call.None? && s.setup.stage < SETUP_STAGES
    case CancelStage => s.setup.Sequence? && s.setup.call.None?
    case FinishStage =>
      s.setup.Sequence? && s.setup.call.Some?
      && s.setup.call.value in s.calls && s.calls[s.setup.call.value].phase.Returned?
    case FinishSetup => s.setup.Sequence? && s.setup.call.None? && s.setup.stage == SETUP_STAGES && s.lock.None?
    case CloseClient => s.lock.None?
  }

  predicate Enabled(s: State, step: Step) {
    match step
    case CallTo(call) => CallEnabled(s, call)
    case ReaderTo(conn, reader) => ReaderEnabled(s, conn, reader)
    case SetupTo(u) => SetupEnabled(s, u)
  }

  function WithCall(s: State, conn: Conn, stage: nat): State {
    var id := s.msgId + 1;
    s.(msgId := id, nextChan := s.nextChan + 1,
       calls := s.calls[id := Call(s.nextChan, conn, stage, Allocated)],
       buffers := s.buffers[s.nextChan := []],
       sends := s.sends[s.nextChan := 0],
       owner := s.owner[s.nextChan := id])
  }

  function SetPhase(s: State, id: MsgId, phase: Phase): State
    requires id in s.calls
  {
    s.(calls := s.calls[id := s.calls[id].(phase := phase)])
  }

  function Send(s: State, ch: Chan, reply: Reply): State
    requires CanSend(s, ch)
  {
    s.(buffers := s.buffers[ch := s.buffers[ch] + [reply]],
       sends := s.sends[ch := (if ch in s.sends then s.sends[ch] else 0) + 1])
  }

  function Registering(s: State, id: MsgId): State
    requires id in s.calls
  {
    SetPhase(s, id, Registered).(pending := s.pending[id := s.calls[id].ch])
  }

  function Abandoning(s: State, id: MsgId): State
    requires id in s.calls
  {
    SetPhase(s, id, Returned(None, false)).(pending := s.pending - {id})
  }

  function Receiving(s: State, id: MsgId, success: bool): State
    requires id in s.calls && s.calls[id].ch in s.buffers && s.buffers[s.calls[id].ch] != []
  {
    var ch := s.calls[id].ch;
    SetPhase(s, id, Returned(Some(s.buffers[ch][0]), success)).(buffers := s.buffers[ch := s.buffers[ch][1..]])
  }

  /** Reader conn takes id's channel out of the table and becomes r. */
  function Taking(s: State, conn: Conn, id: MsgId, r: Reader): State {
    s.(pending := s.pending - {id}, readers := s.readers[conn := r], holder := s.holder[id := conn])
  }

  /** Reader conn sends on the channel in its hand and becomes r. */
  function Sending(s: State, conn: Conn, reply: Reply, r: Reader): State
    requires conn in s.readers && Holding(s.readers[conn]) && CanSend(s, s.readers[conn].ch)
  {
    Send(s, s.readers[conn].ch, reply).(readers := s.readers[conn := r])
  }

  function ApplyCall(s: State, step: CallStep): State
    requires CallEnabled(s, step)
  {
    match step
    case StartCall(conn) => WithCall(s, conn, NO_STAGE)
    case Register(id) => Registering(s, id)
    case Write(id) => SetPhase(s, id, Waiting)
    case GiveUp(id) => SetPhase(s, id, Aborting)
    case Abort(id) => Abandoning(s, id)
    case Receive(id, success) => Receiving(s, id, success)
  }

  function ApplyReader(s: State, conn: Conn, step: ReaderStep): State
    requires ReaderEnabled(s, conn, step)
  {
    match step
    case Take(id) => if id in s.pending then Taking(s, conn, id, Delivering(id, s.pending[id])) else s
    case Deliver => Sending(s, conn, Answer(s.readers[conn].id), Reading)
    case BeginDisconnect =>
      var s1 := s.(lock := Some(conn), readers := s.readers[conn := Draining]);
      if s.activeConn == Some(conn) then s1.(activeConn := None, stealthReady := false) else s1
    case DrainTake(id) => Taking(s, conn, id, DrainSending(id, s.pending[id]))
    case DrainSend => Sending(s, conn, Closed, Draining)
    case EndDisconnect => s.(lock := None, readers := s.readers[conn := Gone])
  }

  function ApplySetup(s: State, step: SetupStep): State
    requires SetupEnabled(s, step)
  {
    match step
    case BeginEnsure => s.(setup := Checking)
    case Check =>
      s.(setup := if s.activeConn.None? then Dialing else if s.stealthReady then Idle else StealthCheck)
    case DialFailed => s.(setup := Idle)
    case DialSucceeded => s.(setup := Dialed(s.nextConn), nextConn := s.nextConn + 1)
    case Install => s.(setup := Installed(s.setup.conn), activeConn := Some(s.setup.conn), stealthReady := false)
    case SpawnReader => s.(setup := Attaching(s.setup.conn), readers := s.readers[s.setup.conn := Reading])
    case AttachDone => s.(setup := StealthCheck)
    case CheckStealth =>
      s.(setup := if s.stealthReady || s.activeConn.None? then Idle else Sequence(s.activeConn.value, 0, None))
    case StartStage =>
      WithCall(s, s.setup.conn, s.setup.stage).(setup := Sequence(s.setup.conn, s.setup.stage, Some(s.msgId + 1)))
    case CancelStage => s.(setup := Idle)
    case FinishStage =>
      if s.calls[s.setup.call.value].phase.success
      then s.(setup := Sequence(s.setup.conn, s.setup.stage + 1, None))
      else s.(setup := Idle)
    case FinishSetup => s.(setup := Idle, stealthReady := true)
    case CloseClient => s.(activeConn := None, stealthReady := false)
  }

  function Apply(s: State, step: Step): State
    requires Enabled(s, step)
  {
    match step
    case CallTo(call) => ApplyCall(s, call)
    case ReaderTo(conn, reader) => ApplyReader(s, conn, reader)
    case SetupTo(u) => ApplySetup(s, u)
  }

  // ----- Invariants -----

  function Sent(sends: map<Chan, nat>, ch: Chan): nat {
    if ch in sends then sends[ch] else 0
  }

  function Buffered(buffers: map<Chan, seq<Reply>>, ch: Chan): seq<Reply> {
    if ch in buffers then buffers[ch] else []
  }

  ghost predicate Owns(r: Reader, id: MsgId) {
    Holding(r) && r.id == id
  }

  type Calls = map<MsgId, Call>
  type Pending = map<MsgId, Chan>
  type Buffers = map<Chan, seq<Reply>>
  type Sends = map<Chan, nat>
  type Readers = map<Conn, Reader>

  /** Calls are numbered 1..msgId and have channels of their own. */
  ghost predicate CallsOk(calls: Calls, msgId: MsgId, nextChan: Chan, owner: map<Chan, MsgId>) {
    forall id :: id in calls ==>
      0 < id <= msgId && calls[id].ch < nextChan && calls[id].ch in owner && owner[calls[id].ch] == id
  }

  ghost predicate ChansOk(buffers: Buffers, sends: Sends, nextChan: Chan) {
    forall ch: Chan :: (ch in buffers <==> ch < nextChan) && (ch in sends <==> ch < nextChan)
  }

  /** A pending entry is its own call's channel, for a call that has registered and not returned. */
  ghost predicate PendingOk(calls: Calls, pending: Pending, sends: Sends) {
    forall id :: id in pending ==>
      && id in calls && pending[id] == calls[id].ch
      && !calls[id].phase.Allocated? && !calls[id].phase.Returned?
      && Sent(sends, calls[id].ch) == 0
  }

  ghost predicate HandOk(calls: Calls, pending: Pending, sends: Sends, r: Reader)
    requires Holding(r)
  {
    && r.id in calls && r.ch == calls[r.id].ch
    && r.id !in pending && !calls[r.id].phase.Allocated? && Sent(sends, r.ch) == 0
  }

  /** A channel in a reader's hand has left the table and has not been sent to ... */
  ghost predicate HandsOk(calls: Calls, pending: Pending, sends: Sends, readers: Readers) {
    forall c :: c in readers && Holding(readers[c]) ==> HandOk(calls, pending, sends, readers[c])
  }

  /** ... and is in no other hand. */
  ghost predicate OneHand(readers: Readers, holder: map<MsgId, Conn>) {
    forall c :: c in readers && Holding(readers[c]) ==> readers[c].id in holder && holder[readers[c].id] == c
  }

  /** One send per channel, and what is buffered was sent. */
  ghost predicate SendsOk(buffers: Buffers, sends: Sends) {
    forall ch: Chan :: |Buffered(buffers, ch)| <= Sent(sends, ch) <= 1
  }

  ghost predicate UnregisteredOk(calls: Calls, sends: Sends) {
    forall id :: id in calls && calls[id].phase.Allocated? ==> Sent(sends, calls[id].ch) == 0
  }

  /** An answer in a call's channel carries the call's own ID. */
  ghost predicate BuffersOk(calls: Calls, buffers: Buffers) {
    forall id, reply :: id in calls && reply in Buffered(buffers, calls[id].ch) ==> reply.Closed? || reply == Answer(id)
  }

  ghost predicate RepliesOk(calls: Calls) {
    forall id :: id in calls && calls[id].phase.Returned? && calls[id].phase.reply.Some? ==>
      calls[id].phase.reply.value.Closed? || calls[id].phase.reply.value == Answer(id)
  }

  ghost predicate LockOk(readers: Readers, lock: Option<Conn>) {
    forall c :: c in readers && (readers[c].Draining? || readers[c].DrainSending?) <==> lock == Some(c)
  }

  ghost predicate InSomeHand(readers: Readers, id: MsgId) {
    exists c :: c in readers && Owns(readers[c], id)
  }

  /** A call waiting for its reply is in the table, in a reader's hand, or has its reply buffered. */
  ghost predicate NobodyStranded(calls: Calls, pending: Pending, readers: Readers, buffers: Buffers) {
    forall id :: id in calls && (calls[id].phase.Registered? || calls[id].phase.Waiting?) ==>
      id in pending || InSomeHand(readers, id) || Buffered(buffers, calls[id].ch) != []
  }

  ghost predicate StageDone(calls: Calls, conn: Conn, stage: nat, id: MsgId) {
    id in calls && calls[id].conn == conn && calls[id].stage == stage
    && calls[id].phase.Returned? && calls[id].phase.success
  }

  ghost predicate StageAnswered(calls: Calls, conn: Conn, stage: nat) {
    exists id :: StageDone(calls, conn, stage, id)
  }

  /** The first n set-up commands were answered successfully on this very connection. */
  ghost predicate StagesDone(calls: Calls, conn: Conn, n: nat) {
    forall stage: nat :: stage < n ==> StageAnswered(calls, conn, stage)
  }

  /** Ready, with a connection, means set up on that connection. */
  ghost predicate ReadyOk(calls: Calls, active: Option<Conn>, ready: bool) {
    ready && active.Some? ==> StagesDone(calls, active.value, SETUP_STAGES)
  }

  /** The set-up works on the active connection, or on none if it was dropped meanwhile. */
  ghost predicate ProgressOk(calls: Calls, setup: Setup, active: Option<Conn>) {
    match setup
    case Dialing => active.None?
    case Dialed(conn) => active.None?
    case Installed(conn) => active.Some? ==> active.value == conn
    case Attaching(conn) => active.Some? ==> active.value == conn
    case Sequence(conn, stage, call) =>
      && (active.Some? ==> active.value == conn)
      && stage <= SETUP_STAGES && StagesDone(calls, conn, stage)
      && (call.Some? ==> stage < SETUP_STAGES && call.value in calls
                         && calls[call.value].conn == conn && calls[call.value].stage == stage)
    case _ => true
  }

  /** A dialled connection is new: it has no reader until one is spawned. */
  ghost predicate ConnsOk(setup: Setup, readers: Readers, nextConn: Conn) {
    && (forall c :: c in readers ==> c < nextConn)
    && (setup.Dialed? || setup.Installed? ==> setup.conn < nextConn && setup.conn !in readers)
  }

  ghost predicate SetupOk(s: State) {
    && ReadyOk(s.calls, s.activeConn, s.stealthReady)
    && ProgressOk(s.calls, s.setup, s.activeConn)
    && ConnsOk(s.setup, s.readers, s.nextConn)
  }

  /** Who owns which channel: the table, one reader, or nobody; and who holds the lock. */
  ghost predicate OwnershipOk(s: State) {
    && CallsOk(s.calls, s.msgId, s.nextChan, s.owner) && ChansOk(s.buffers, s.sends, s.nextChan)
    && PendingOk(s.calls, s.pending, s.sends)
    && HandsOk(s.calls, s.pending, s.sends, s.readers) && OneHand(s.readers, s.holder)
    && UnregisteredOk(s.calls, s.sends)
    && LockOk(s.readers, s.lock)
  }

  /** What has been sent to whom. */
  ghost predicate DeliveryOk(s: State) {
    && SendsOk(s.buffers, s.sends)
    && BuffersOk(s.calls, s.buffers) && RepliesOk(s.calls)
    && NobodyStranded(s.calls, s.pending, s.readers, s.buffers)
  }

  predicate Disconnecting(r: Reader) {
    r.Draining? || r.DrainSending? || r.Gone?
  }

  ghost predicate HasReply(calls: Calls, buffers: Buffers, id: MsgId, reply: Reply) {
    && id in calls
    && (|| reply in Buffered(buffers, calls[id].ch)
        || (calls[id].phase.Returned? && calls[id].phase.reply == Some(reply)))
  }

  /** A call hears of a closed connection only from the reader that took its channel, and only if that
      reader is in a disconnect or past it. */
  ghost predicate ClosedOk(calls: Calls, buffers: Buffers, holder: map<MsgId, Conn>, readers: Readers) {
    forall id :: HasReply(calls, buffers, id, Closed) ==>
      id in holder && holder[id] in readers && Disconnecting(readers[holder[id]])
  }

  ghost predicate CausesOk(s: State) {
    ClosedOk(s.calls, s.buffers, s.holder, s.readers)
  }

  ghost predicate Inv(s: State) {
    OwnershipOk(s) && DeliveryOk(s) && SetupOk(s) && CausesOk(s)
  }

  lemma InitOk()
    ensures Inv(Init())
  {
  }

  // ----- Starting a call -----

  lemma NewChannel(buffers: Buffers, sends: Sends, nextChan: Chan)
    requires ChansOk(buffers, sends, nextChan)
    ensures forall ch: Chan :: Buffered(buffers[nextChan := []], ch) == Buffered(buffers, ch)
    ensures forall ch: Chan :: Sent(sends[nextChan := 0], ch) == Sent(sends, ch)
    ensures Sent(sends, nextChan) == 0 && Buffered(buffers, nextChan) == []
  {
  }

  lemma OwnershipAfterStart(s: State, conn: Conn, stage: nat)
    requires OwnershipOk(s)
    ensures OwnershipOk(WithCall(s, conn, stage))
  {
    NewChannel(s.buffers, s.sends, s.nextChan);
  }

  lemma DeliveryAfterStart(s: State, conn: Conn, stage: nat)
    requires OwnershipOk(s) && DeliveryOk(s)
    ensures DeliveryOk(WithCall(s, conn, stage))
  {
    var s' := WithCall(s, conn, stage);
    NewChannel(s.buffers, s.sends, s.nextChan);
    assert forall ch: Chan ::
      Buffered(s'.buffers, ch) == Buffered(s.buffers, ch) && Sent(s'.sends, ch) == Sent(s.sends, ch);
  }

  // ----- A call moves on -----

  lemma OwnershipAfterRegister(s: State, id: MsgId)
    requires OwnershipOk(s) && InPhase(s, id, Allocated)
    ensures OwnershipOk(Registering(s, id))
  {
  }

  lemma DeliveryAfterRegister(s: State, id: MsgId)
    requires DeliveryOk(s) && InPhase(s, id, Allocated)
    ensures DeliveryOk(Registering(s, id))
  {
  }

  /** Moving an unreturned call between Registered, Waiting and Aborting. */
  lemma OwnershipAfterPhase(s: State, id: MsgId, phase: Phase)
    requires OwnershipOk(s) && id in s.calls
    requires s.calls[id].phase.Registered? || s.calls[id].phase.Waiting?
    requires phase.Waiting? || phase.Aborting?
    ensures OwnershipOk(SetPhase(s, id, phase))
  {
  }

  lemma DeliveryAfterPhase(s: State, id: MsgId, phase: Phase)
    requires DeliveryOk(s) && id in s.calls
    requires s.calls[id].phase.Registered? || s.calls[id].phase.Waiting?
    requires phase.Waiting? || phase.Aborting?
    ensures DeliveryOk(SetPhase(s, id, phase))
  {
  }

  lemma OwnershipAfterAbort(s: State, id: MsgId)
    requires OwnershipOk(s) && InPhase(s, id, Aborting)
    ensures OwnershipOk(Abandoning(s, id))
  {
  }

  lemma DeliveryAfterAbort(s: State, id: MsgId)
    requires DeliveryOk(s) && InPhase(s, id, Aborting)
    ensures DeliveryOk(Abandoning(s, id))
  {
  }

  lemma OwnershipAfterReceive(s: State, id: MsgId, success: bool)
    requires OwnershipOk(s) && DeliveryOk(s) && CanReceive(s, id)
    ensures OwnershipOk(Receiving(s, id, success))
  {
    assert |Buffered(s.buffers, s.calls[id].ch)| > 0;
    assert Sent(s.sends, s.calls[id].ch) == 1;
    assert id !in s.pending;
  }

  lemma DeliveryAfterReceive(s: State, id: MsgId, success: bool)
    requires OwnershipOk(s) && DeliveryOk(s) && CanReceive(s, id)
    ensures DeliveryOk(Receiving(s, id, success))
  {
    var s' := Receiving(s, id, success);
    var ch := s.calls[id].ch;
    assert s.buffers[ch][0] in Buffered(s.buffers, ch);
    assert |Buffered(s.buffers, ch)| == 1 && Buffered(s'.buffers, ch) == [];
    assert forall c: Chan :: c != ch ==> Buffered(s'.buffers, c) == Buffered(s.buffers, c);
  }

  // ----- A reader changes hands -----

  /** Replacing a reader's state affects only the call it held or comes to hold. */
  lemma HandsAfter(readers: Readers, conn: Conn, r: Reader, i: MsgId)
    requires conn in readers && Holding(readers[conn]) ==> readers[conn].id != i
    ensures InSomeHand(readers[conn := r], i) <==> InSomeHand(readers, i) || Owns(r, i)
  {
    var readers' := readers[conn := r];
    if InSomeHand(readers, i) {
      var c :| c in readers && Owns(readers[c], i);
      assert c in readers' && Owns(readers'[c], i);
    }
    if Owns(r, i) {
      assert Owns(readers'[conn], i);
    }
    if InSomeHand(readers', i) {
      var c :| c in readers' && Owns(readers'[c], i);
      assert c != conn ==> c in readers && Owns(readers[c], i);
    }
  }

  /** A reader takes id's channel out of the table. */
  lemma OwnershipAfterTake(s: State, conn: Conn, id: MsgId, r: Reader)
    requires OwnershipOk(s) && conn in s.readers && id in s.pending && !Holding(s.readers[conn])
    requires Owns(r, id) && r.ch == s.pending[id]
    requires s.readers[conn].Draining? <==> r.DrainSending?
    ensures OwnershipOk(Taking(s, conn, id, r))
  {
  }

  lemma DeliveryAfterTake(s: State, conn: Conn, id: MsgId, r: Reader)
    requires DeliveryOk(s) && conn in s.readers && id in s.pending && !Holding(s.readers[conn])
    requires Owns(r, id)
    ensures DeliveryOk(Taking(s, conn, id, r))
  {
    forall i
      ensures InSomeHand(s.readers[conn := r], i) <==> InSomeHand(s.readers, i) || Owns(r, i)
    {
      HandsAfter(s.readers, conn, r, i);
    }
  }

  ghost predicate Releases(h: Reader, r: Reader) {
    (h.DrainSending? && r.Draining?) || (h.Delivering? && r.Reading?)
  }

  /** A reader sends on the channel in its hand. */
  lemma OwnershipAfterSend(s: State, conn: Conn, reply: Reply, r: Reader)
    requires OwnershipOk(s) && conn in s.readers && Holding(s.readers[conn]) && CanSend(s, s.readers[conn].ch)
    requires Releases(s.readers[conn], r)
    ensures OwnershipOk(Sending(s, conn, reply, r))
  {
    var h := s.readers[conn];
    var s' := Sending(s, conn, reply, r);
    assert HandOk(s.calls, s.pending, s.sends, h);
    assert forall c: Chan :: c != h.ch ==> Sent(s'.sends, c) == Sent(s.sends, c);
    forall c | c in s.readers && c != conn && Holding(s.readers[c])
      ensures HandOk(s.calls, s.pending, s'.sends, s.readers[c])
    {
      assert HandOk(s.calls, s.pending, s.sends, s.readers[c]);
      assert s.readers[c].id != h.id;
    }
  }

  lemma DeliveryAfterSend(s: State, conn: Conn, reply: Reply, r: Reader)
    requires OwnershipOk(s) && DeliveryOk(s)
    requires conn in s.readers && Holding(s.readers[conn]) && CanSend(s, s.readers[conn].ch)
    requires reply.Closed? || reply == Answer(s.readers[conn].id)
    requires Releases(s.readers[conn], r)
    ensures DeliveryOk(Sending(s, conn, reply, r))
  {
    var h := s.readers[conn];
    var s' := Sending(s, conn, reply, r);
    assert HandOk(s.calls, s.pending, s.sends, h);
    assert Buffered(s'.buffers, h.ch) == [reply] && Sent(s'.sends, h.ch) == 1;
    assert forall c: Chan :: c != h.ch ==>
      Buffered(s'.buffers, c) == Buffered(s.buffers, c) && Sent(s'.sends, c) == Sent(s.sends, c);
    forall i | i != h.id
      ensures InSomeHand(s'.readers, i) <==> InSomeHand(s.readers, i) || Owns(r, i)
    {
      HandsAfter(s.readers, conn, r, i);
    }
  }

  /** A reader that holds nothing changes state, with the lock to match. */
  lemma AfterMove(s: State, s': State, conn: Conn)
    requires OwnershipOk(s) && DeliveryOk(s) && conn in s'.readers
    requires s' == s.(readers := s.readers[conn := s'.readers[conn]], lock := s'.lock,
                      activeConn := s'.activeConn, stealthReady := s'.stealthReady, setup := s'.setup)
    requires conn in s.readers ==> !Holding(s.readers[conn])
    requires !Holding(s'.readers[conn]) && LockOk(s'.readers, s'.lock)
    ensures OwnershipOk(s') && DeliveryOk(s')
  {
    forall i
      ensures InSomeHand(s'.readers, i) <==> InSomeHand(s.readers, i)
    {
      HandsAfter(s.readers, conn, s'.readers[conn], i);
    }
  }

  /** Steps of the set-up and of Close leave the table alone. */
  lemma AfterSetupStep(s: State, s': State)
    requires OwnershipOk(s) && DeliveryOk(s)
    requires s' == s.(nextConn := s'.nextConn, activeConn := s'.activeConn, stealthReady := s'.stealthReady,
      setup := s'.setup)
    ensures OwnershipOk(s') && DeliveryOk(s')
  {
  }

  // ----- All steps -----

  lemma TableKeptByCall(s: State, step: CallStep)
    requires OwnershipOk(s) && DeliveryOk(s) && CallEnabled(s, step)
    ensures OwnershipOk(ApplyCall(s, step)) && DeliveryOk(ApplyCall(s, step))
  {
    match step {
      case StartCall(conn) =>
        OwnershipAfterStart(s, conn, NO_STAGE);
        DeliveryAfterStart(s, conn, NO_STAGE);
      case Register(id) =>
        OwnershipAfterRegister(s, id);
        DeliveryAfterRegister(s, id);
      case Write(id) =>
        OwnershipAfterPhase(s, id, Waiting);
        DeliveryAfterPhase(s, id, Waiting);
      case GiveUp(id) =>
        OwnershipAfterPhase(s, id, Aborting);
        DeliveryAfterPhase(s, id, Aborting);
      case Abort(id) =>
        OwnershipAfterAbort(s, id);
        DeliveryAfterAbort(s, id);
      case Receive(id, success) =>
        OwnershipAfterReceive(s, id, success);
        DeliveryAfterReceive(s, id, success);
    }
  }

  lemma TableKeptByLocking(s: State, conn: Conn, step: ReaderStep)
    requires OwnershipOk(s) && DeliveryOk(s) && ReaderEnabled(s, conn, step)
    requires step.BeginDisconnect? || step.EndDisconnect?
    ensures OwnershipOk(ApplyReader(s, conn, step)) && DeliveryOk(ApplyReader(s, conn, step))
  {
    LockFollows(s, conn, step);
    AfterMove(s, ApplyReader(s, conn, step), conn);
  }

  lemma LockFollows(s: State, conn: Conn, step: ReaderStep)
    requires LockOk(s.readers, s.lock) && ReaderEnabled(s, conn, step) && (step.BeginDisconnect? || step.EndDisconnect?)
    ensures var s' := ApplyReader(s, conn, step); conn in s'.readers && LockOk(s'.readers, s'.lock)
  {
  }

  lemma TableKeptByTaking(s: State, conn: Conn, step: ReaderStep)
    requires OwnershipOk(s) && DeliveryOk(s) && ReaderEnabled(s, conn, step)
    requires step.Take? || step.DrainTake?
    ensures OwnershipOk(ApplyReader(s, conn, step)) && DeliveryOk(ApplyReader(s, conn, step))
  {
    if step.DrainTake? {
      OwnershipAfterTake(s, conn, step.id, DrainSending(step.id, s.pending[step.id]));
      DeliveryAfterTake(s, conn, step.id, DrainSending(step.id, s.pending[step.id]));
    } else if step.id in s.pending {
      OwnershipAfterTake(s, conn, step.id, Delivering(step.id, s.pending[step.id]));
      DeliveryAfterTake(s, conn, step.id, Delivering(step.id, s.pending[step.id]));
    }
  }

  lemma TableKeptBySending(s: State, conn: Conn, step: ReaderStep)
    requires OwnershipOk(s) && DeliveryOk(s) && ReaderEnabled(s, conn, step)
    requires step.Deliver? || step.DrainSend?
    ensures OwnershipOk(ApplyReader(s, conn, step)) && DeliveryOk(ApplyReader(s, conn, step))
  {
    if step.Deliver? {
      OwnershipAfterSend(s, conn, Answer(s.readers[conn].id), Reading);
      DeliveryAfterSend(s, conn, Answer(s.readers[conn].id), Reading);
    } else {
      OwnershipAfterSend(s, conn, Closed, Draining);
      DeliveryAfterSend(s, conn, Closed, Draining);
    }
  }

  lemma TableKeptByStage(s: State, s': State)
    requires OwnershipOk(s) && DeliveryOk(s) && SetupOk(s) && SetupEnabled(s, StartStage) &&
      s' == ApplySetup(s, StartStage)
    ensures OwnershipOk(s') && DeliveryOk(s')
  {
    var mid := WithCall(s, s.setup.conn, s.setup.stage);
    OwnershipAfterStart(s, s.setup.conn, s.setup.stage);
    DeliveryAfterStart(s, s.setup.conn, s.setup.stage);
    AfterSetupStep(mid, s');
  }

  lemma TableKeptBySetup(s: State, step: SetupStep)
    requires OwnershipOk(s) && DeliveryOk(s) && SetupOk(s) && SetupEnabled(s, step)
    ensures OwnershipOk(ApplySetup(s, step)) && DeliveryOk(ApplySetup(s, step))
  {
    var s' := ApplySetup(s, step);
    if step.SpawnReader? {
      AfterMove(s, s', s.setup.conn);
    } else if step.StartStage? {
      TableKeptByStage(s, s');
    } else {
      AfterSetupStep(s, s');
    }
  }

  // ----- The set-up -----

  /** Calls keep their connection and stage, and a returned call stays as it is. */
  ghost predicate CallsPersist(calls: Calls, calls': Calls) {
    forall id :: id in calls ==>
      && id in calls' && calls'[id].conn == calls[id].conn && calls'[id].stage == calls[id].stage
      && (calls[id].phase.Returned? ==> calls'[id] == calls[id])
  }

  lemma StagesPersist(calls: Calls, calls': Calls, conn: Conn, n: nat)
    requires CallsPersist(calls, calls') && StagesDone(calls, conn, n)
    ensures StagesDone(calls', conn, n)
  {
    forall stage: nat | stage < n
      ensures StageAnswered(calls', conn, stage)
    {
      assert StageAnswered(calls, conn, stage);
      var id :| StageDone(calls, conn, stage, id);
      assert StageDone(calls', conn, stage, id);
    }
  }

  /** Steps that keep the calls' outcomes and the connection fields keep the set-up. */
  lemma SetupAfterTableStep(s: State, s': State)
    requires SetupOk(s) && CallsPersist(s.calls, s'.calls)
    requires s'.setup == s.setup && s'.nextConn == s.nextConn && s'.readers.Keys == s.readers.Keys
    requires (s'.activeConn == s.activeConn && s'.stealthReady == s.stealthReady) || s'.activeConn.None?
    ensures SetupOk(s')
  {
    if s.stealthReady && s.activeConn.Some? {
      StagesPersist(s.calls, s'.calls, s.activeConn.value, SETUP_STAGES);
    }
    if s.setup.Sequence? {
      StagesPersist(s.calls, s'.calls, s.setup.conn, s.setup.stage);
    }
  }

  lemma CallStepFrame(s: State, step: CallStep)
    requires CallsOk(s.calls, s.msgId, s.nextChan, s.owner) && CallEnabled(s, step)
    ensures var s' := ApplyCall(s, step);
            && CallsPersist(s.calls, s'.calls)
            && s'.setup == s.setup && s'.nextConn == s.nextConn && s'.readers == s.readers
            && s'.activeConn == s.activeConn && s'.stealthReady == s.stealthReady
  {
    assert s.msgId + 1 !in s.calls;
  }

  lemma ReaderStepFrame(s: State, conn: Conn, step: ReaderStep)
    requires ReaderEnabled(s, conn, step)
    ensures var s' := ApplyReader(s, conn, step);
            && s'.calls == s.calls
            && s'.setup == s.setup && s'.nextConn == s.nextConn && s'.readers.Keys == s.readers.Keys
            && ((s'.activeConn == s.activeConn && s'.stealthReady == s.stealthReady) || s'.activeConn.None?)
  {
  }

  lemma StageFinished(calls: Calls, conn: Conn, stage: nat, id: MsgId)
    requires StagesDone(calls, conn, stage) && StageDone(calls, conn, stage, id)
    ensures StagesDone(calls, conn, stage + 1)
  {
    assert StageAnswered(calls, conn, stage);
  }

  lemma SetupKeptByStage(s: State, step: SetupStep)
    requires CallsOk(s.calls, s.msgId, s.nextChan, s.owner) && SetupOk(s) && SetupEnabled(s, step)
    requires step.StartStage? || step.FinishStage?
    ensures SetupOk(ApplySetup(s, step))
  {
    if step.StartStage? {
      assert s.msgId + 1 !in s.calls;
      SetupAfterTableStep(s, WithCall(s, s.setup.conn, s.setup.stage));
    } else if s.calls[s.setup.call.value].phase.success {
      StageFinished(s.calls, s.setup.conn, s.setup.stage, s.setup.call.value);
    }
  }

  lemma SetupKeptBySetup(s: State, step: SetupStep)
    requires SetupOk(s) && SetupEnabled(s, step)
    requires !step.StartStage? && !step.FinishStage?
    ensures SetupOk(ApplySetup(s, step))
  {
  }

  // ----- Why connections are reported closed -----

  /** Steps that tell nobody of a closed connection and take no reader out of its disconnect. */
  lemma CausesFrame(s: State, s': State)
    requires CausesOk(s)
    requires forall c :: c in s.readers && Disconnecting(s.readers[c]) ==>
      c in s'.readers && Disconnecting(s'.readers[c])
    requires forall id :: HasReply(s'.calls, s'.buffers, id, Closed) ==>
      && HasReply(s.calls, s.buffers, id, Closed)
      && (id in s.holder ==> id in s'.holder && s'.holder[id] == s.holder[id])
    ensures CausesOk(s')
  {
  }

  lemma CausesAfterStart(s: State, conn: Conn, stage: nat)
    requires CausesOk(s) && CallsOk(s.calls, s.msgId, s.nextChan, s.owner) && ChansOk(s.buffers, s.sends, s.nextChan)
    ensures CausesOk(WithCall(s, conn, stage))
  {
    NewChannel(s.buffers, s.sends, s.nextChan);
    CausesFrame(s, WithCall(s, conn, stage));
  }

  lemma CausesAfterReceive(s: State, id: MsgId, success: bool)
    requires CausesOk(s) && CallsOk(s.calls, s.msgId, s.nextChan, s.owner) && CanReceive(s, id)
    ensures CausesOk(Receiving(s, id, success))
  {
    var s', ch := Receiving(s, id, success), s.calls[id].ch;
    assert s.buffers[ch][0] in Buffered(s.buffers, ch);
    assert forall reply :: reply in Buffered(s'.buffers, ch) ==> reply in Buffered(s.buffers, ch);
    CausesFrame(s, s');
  }

  lemma CausesAfterPhase(s: State, id: MsgId, phase: Phase, pending: Pending)
    requires CausesOk(s) && id in s.calls && (phase.Returned? ==> phase.reply.None?)
    ensures CausesOk(SetPhase(s, id, phase).(pending := pending))
  {
    CausesFrame(s, SetPhase(s, id, phase).(pending := pending));
  }

  lemma CausesKeptByCall(s: State, step: CallStep)
    requires CausesOk(s) && OwnershipOk(s) && CallEnabled(s, step)
    ensures CausesOk(ApplyCall(s, step))
  {
    match step {
      case StartCall(conn) => CausesAfterStart(s, conn, NO_STAGE);
      case Register(id) => CausesAfterPhase(s, id, Registered, s.pending[id := s.calls[id].ch]);
      case Write(id) => CausesAfterPhase(s, id, Waiting, s.pending);
      case GiveUp(id) => CausesAfterPhase(s, id, Aborting, s.pending);
      case Abort(id) => CausesAfterPhase(s, id, Returned(None, false), s.pending - {id});
      case Receive(id, success) => CausesAfterReceive(s, id, success);
    }
  }

  /** A call whose channel is still in the table has no reply yet. */
  lemma PendingHasNoReply(s: State, id: MsgId)
    requires PendingOk(s.calls, s.pending, s.sends) && SendsOk(s.buffers, s.sends) && id in s.pending
    ensures id in s.calls && Buffered(s.buffers, s.calls[id].ch) == [] && !s.calls[id].phase.Returned?
  {
    assert |Buffered(s.buffers, s.calls[id].ch)| <= Sent(s.sends, s.calls[id].ch);
  }

  lemma CausesAfterTake(s: State, conn: Conn, id: MsgId, r: Reader)
    requires CausesOk(s) && PendingOk(s.calls, s.pending, s.sends) && SendsOk(s.buffers, s.sends) && id in s.pending
    requires conn in s.readers && (Disconnecting(s.readers[conn]) ==> Disconnecting(r))
    ensures CausesOk(Taking(s, conn, id, r))
  {
    PendingHasNoReply(s, id);
    CausesFrame(s, Taking(s, conn, id, r));
  }

  lemma CausesAfterDeliver(s: State, conn: Conn)
    requires CausesOk(s) && ReaderEnabled(s, conn, Deliver)
    ensures CausesOk(Sending(s, conn, Answer(s.readers[conn].id), Reading))
  {
    var s' := Sending(s, conn, Answer(s.readers[conn].id), Reading);
    forall id | HasReply(s'.calls, s'.buffers, id, Closed)
      ensures HasReply(s.calls, s.buffers, id, Closed)
    {
      assert Closed in Buffered(s'.buffers, s.calls[id].ch) ==> Closed in Buffered(s.buffers, s.calls[id].ch);
    }
    CausesFrame(s, s');
  }

  lemma CausesAfterDrainSend(s: State, conn: Conn)
    requires CausesOk(s) && OwnershipOk(s) && ReaderEnabled(s, conn, DrainSend)
    ensures CausesOk(Sending(s, conn, Closed, Draining))
  {
    var s', h := Sending(s, conn, Closed, Draining), s.readers[conn];
    assert HandOk(s.calls, s.pending, s.sends, h);
    forall id | HasReply(s'.calls, s'.buffers, id, Closed)
      ensures id in s'.holder && s'.holder[id] in s'.readers && Disconnecting(s'.readers[s'.holder[id]])
    {
      if id != h.id {
        assert s.calls[id].ch != h.ch;
        assert HasReply(s.calls, s.buffers, id, Closed);
      }
    }
  }

  lemma CausesKeptByLocking(s: State, conn: Conn, step: ReaderStep)
    requires CausesOk(s) && ReaderEnabled(s, conn, step) && (step.BeginDisconnect? || step.EndDisconnect?)
    ensures CausesOk(ApplyReader(s, conn, step))
  {
    CausesFrame(s, ApplyReader(s, conn, step));
  }

  lemma CausesKeptByReader(s: State, conn: Conn, step: ReaderStep)
    requires CausesOk(s) && OwnershipOk(s) && SendsOk(s.buffers, s.sends) && ReaderEnabled(s, conn, step)
    ensures CausesOk(ApplyReader(s, conn, step))
  {
    match step {
      case Take(id) =>
        if id in s.pending {
          CausesAfterTake(s, conn, id, Delivering(id, s.pending[id]));
        }
      case DrainTake(id) => CausesAfterTake(s, conn, id, DrainSending(id, s.pending[id]));
      case Deliver => CausesAfterDeliver(s, conn);
      case DrainSend => CausesAfterDrainSend(s, conn);
      case BeginDisconnect => CausesKeptByLocking(s, conn, step);
      case EndDisconnect => CausesKeptByLocking(s, conn, step);
    }
  }

  /** The set-up touches the table only to start a call, and the readers only to add one. */
  lemma SetupReaders(s: State, step: SetupStep)
    requires SetupEnabled(s, step)
    ensures var s' := ApplySetup(s, step);
      && s'.readers == (if step.SpawnReader? then s.readers[s.setup.conn := Reading] else s.readers)
      && (!step.StartStage? ==> s'.calls == s.calls && s'.buffers == s.buffers && s'.holder == s.holder)
  {
    match step {
      case BeginEnsure =>
      case Check =>
      case DialFailed =>
      case DialSucceeded =>
      case Install =>
      case SpawnReader =>
      case AttachDone =>
      case CheckStealth =>
      case StartStage =>
      case CancelStage =>
      case FinishStage =>
      case FinishSetup =>
      case CloseClient =>
    }
  }

  lemma CausesFrameSetup(s: State, s': State)
    requires CausesOk(s) && s'.calls == s.calls && s'.buffers == s.buffers && s'.holder == s.holder
    requires forall c :: c in s.readers ==> c in s'.readers && s'.readers[c] == s.readers[c]
    ensures CausesOk(s')
  {
  }

  lemma CausesKeptBySetup(s: State, step: SetupStep)
    requires CausesOk(s) && OwnershipOk(s) && ConnsOk(s.setup, s.readers, s.nextConn) && SetupEnabled(s, step)
    ensures CausesOk(ApplySetup(s, step))
  {
    SetupReaders(s, step);
    if step.StartStage? {
      CausesAfterStart(s, s.setup.conn, s.setup.stage);
      CausesFrameSetup(WithCall(s, s.setup.conn, s.setup.stage), ApplySetup(s, step));
    } else {
      CausesFrameSetup(s, ApplySetup(s, step));
    }
  }

  lemma CausesKept(s: State, step: Step)
    requires CausesOk(s) && OwnershipOk(s) && SendsOk(s.buffers, s.sends)
    requires ConnsOk(s.setup, s.readers, s.nextConn) && Enabled(s, step)
    ensures CausesOk(Apply(s, step))
  {
    match step {
      case CallTo(call) => CausesKeptByCall(s, call);
      case ReaderTo(conn, reader) => CausesKeptByReader(s, conn, reader);
      case SetupTo(u) => CausesKeptBySetup(s, u);
    }
  }

  /** Every step keeps the invariant. */
  lemma {:induction false} InvKept(s: State, step: Step)
    requires Inv(s) && Enabled(s, step)
    ensures Inv(Apply(s, step))
  {
    CausesKept(s, step);
    TableAndSetupKept(s, step);
  }

  lemma TableAndSetupKept(s: State, step: Step)
    requires OwnershipOk(s) && DeliveryOk(s) && SetupOk(s) && Enabled(s, step)
    ensures var s' := Apply(s, step); OwnershipOk(s') && DeliveryOk(s') && SetupOk(s')
  {
    match step {
      case CallTo(call) =>
        TableKeptByCall(s, call);
        CallStepFrame(s, call);
        SetupAfterTableStep(s, ApplyCall(s, call));
      case ReaderTo(conn, reader) =>
        if reader.Take? || reader.DrainTake? {
          TableKeptByTaking(s, conn, reader);
        } else if reader.Deliver? || reader.DrainSend? {
          TableKeptBySending(s, conn, reader);
        } else {
          TableKeptByLocking(s, conn, reader);
        }
        ReaderStepFrame(s, conn, reader);
        SetupAfterTableStep(s, ApplyReader(s, conn, reader));
      case SetupTo(u) =>
        TableKeptBySetup(s, u);
        if u.StartStage? || u.FinishStage? {
          SetupKeptByStage(s, u);
        } else {
          SetupKeptBySetup(s, u);
        }
    }
  }

  // ----- Runs -----

  /** states[0], states[1], ... is a run taking these steps from the initial state. */
  ghost predicate IsRun(states: seq<State>, steps: seq<Step>) {
    && |states| == |steps| + 1 && states[0] == Init()
    && forall i :: 0 <= i < |steps| ==> Enabled(states[i], steps[i]) && states[i + 1] == Apply(states[i], steps[i])
  }

  lemma {:induction false} RunKeepsInv(states: seq<State>, steps: seq<Step>, n: nat)
    requires IsRun(states, steps) && n <= |steps|
    ensures Inv(states[n])
  {
    if n == 0 {
      InitOk();
    } else {
      RunKeepsInv(states, steps, n - 1);
      InvKept(states[n - 1], steps[n - 1]);
    }
  }

  /** A reply channel is in the table, in one reader's hand, or with nobody. */
  ghost predicate SingleOwner(s: State) {
    && (forall id :: id in s.pending ==> !InSomeHand(s.readers, id))
    && (forall c, d, id :: c in s.readers && d in s.readers && Owns(s.readers[c], id) && Owns(s.readers[d], id) ==>
      c == d)
  }

  /** A reader about to send finds room in the one-slot channel, and no channel is sent to twice. */
  ghost predicate SendsNeverBlock(s: State) {
    && (forall c :: c in s.readers && Holding(s.readers[c]) ==> CanSend(s, s.readers[c].ch))
    && (forall ch :: ch in s.sends ==> s.sends[ch] <= 1)
  }

  /** A returned call has left the table; an unreturned one still gets its reply, and only its own. */
  ghost predicate CallsAreServed(s: State) {
    && (forall id :: id in s.calls && s.calls[id].phase.Returned? ==> id !in s.pending)
    && NobodyStranded(s.calls, s.pending, s.readers, s.buffers)
    && RepliesOk(s.calls)
  }

  /** The holder of the state lock always has a step to take, so the lock is never stuck. */
  ghost predicate LockMoves(s: State) {
    s.lock.Some? ==> exists step :: ReaderEnabled(s, s.lock.value, step)
  }

  lemma HeldChannelsHaveRoom(s: State)
    requires OwnershipOk(s) && DeliveryOk(s)
    ensures SendsNeverBlock(s)
  {
    forall c | c in s.readers && Holding(s.readers[c])
      ensures CanSend(s, s.readers[c].ch)
    {
      assert HandOk(s.calls, s.pending, s.sends, s.readers[c]);
      assert |Buffered(s.buffers, s.readers[c].ch)| <= Sent(s.sends, s.readers[c].ch);
    }
    forall ch | ch in s.sends
      ensures s.sends[ch] <= 1
    {
      assert Sent(s.sends, ch) == s.sends[ch];
    }
  }

  lemma LockHolderMoves(s: State)
    requires OwnershipOk(s) && SendsNeverBlock(s)
    ensures LockMoves(s)
  {
    if s.lock.Some? {
      var c := s.lock.value;
      assert c in s.readers && (s.readers[c].Draining? || s.readers[c].DrainSending?);
      if s.readers[c].DrainSending? {
        assert ReaderEnabled(s, c, DrainSend);
      } else {
        EmptyMapOrNot(s.pending);
        if s.pending == map[] {
          assert ReaderEnabled(s, c, EndDisconnect);
        } else {
          var id :| id in s.pending;
          assert ReaderEnabled(s, c, DrainTake(id));
        }
      }
    }
  }

  lemma OwnersAreSingle(s: State)
    requires OwnershipOk(s)
    ensures SingleOwner(s)
  {
    forall id | id in s.pending
      ensures !InSomeHand(s.readers, id)
    {
      forall c | c in s.readers && Holding(s.readers[c])
        ensures s.readers[c].id != id
      {
        assert HandOk(s.calls, s.pending, s.sends, s.readers[c]);
      }
    }
  }

  /** In every state of every run: replies have one owner and are sent at most once without blocking, calls
      are served, the lock moves, only a disconnect reports a closed connection, and a ready client with a connection
      has completed the set-up on it. */
  lemma {:induction false} RunsAreSafe(states: seq<State>, steps: seq<Step>, n: nat)
    requires IsRun(states, steps) && n <= |steps|
    ensures var s := states[n];
            && SingleOwner(s) && SendsNeverBlock(s) && CallsAreServed(s) && LockMoves(s) && CausesOk(s)
            && (s.stealthReady && s.activeConn.Some? ==> StagesDone(s.calls, s.activeConn.value, SETUP_STAGES))
  {
    RunKeepsInv(states, steps, n);
    OwnersAreSingle(states[n]);
    HeldChannelsHaveRoom(states[n]);
    LockHolderMoves(states[n]);
  }
}
