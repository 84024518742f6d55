/**
 The reader and writer tasks of one framed connection as an interleaving machine.

 The job declarator client registers its tasks with a fallback coordinator only when one is given;
 the translator always does. Both run the same two select loops, so one machine with the switch
 `coordinated` covers them. Channels are unbounded and each channel access is one step.
 */
module IoTasks {
  import opened Runs

  datatype ReaderPc =
    | RSpawned | RLooping | RSending
    | RCloseInbound | RCloseOutbound | RDrain | RSignal | RExited

  datatype WriterPc =
    | WSpawned | WLooping | WWriting
    | WEarlyClose | WEarlyDrain
    | WCloseOutbound | WDrain | WCloseInbound | WSignal | WExited

  /** A task's place in its code and how often it registered with the coordinator and called `done`. */
  datatype Task<Pc> = Task(pc: Pc, registered: nat, done: nat)

  datatype Signals = Signals(coordinated: bool, shutdown: bool, fallback: bool)

  /** The two channels the tasks share; `queued` counts the frames waiting to be written. */
  datatype Channels = Channels(inboundClosed: bool, outboundClosed: bool, queued: nat)

  datatype State = State(signals: Signals, channels: Channels, reader: Task<ReaderPc>, writer: Task<WriterPc>)

  function Init(coordinated: bool): State {
    State(Signals(coordinated, false, false), Channels(false, false, 0), Task(RSpawned, 0, 0), Task(WSpawned, 0, 0))
  }

  datatype WorldStep = Shutdown | Fallback | SendOutbound | CloseInboundFar | CloseOutboundFar
  datatype ReaderStep = StartReading | StopReading | ReadFrame | ReadError | ForwardFrame | ReaderCleanup
  datatype WriterStep = StartWriting | StopWriting | Receive | FinishWrite(ok: bool) | WriterCleanup

  datatype Step = World(w: WorldStep) | Read(r: ReaderStep) | Write(o: WriterStep)

  /** The reader's distance from its exit, counting one frame at a time. */
  function ReaderRank(pc: ReaderPc): nat {
    match pc
    case RSpawned => 7
    case RSending => 6
    case RLooping => 5
    case RCloseInbound => 4
    case RCloseOutbound => 3
    case RDrain => 2
    case RSignal => 1
    case RExited => 0
  }

  /** The writer's distance from its exit once there is nothing left to receive. */
  function WriterRank(pc: WriterPc): nat {
    match pc
    case WSpawned => 9
    case WWriting => 8
    case WLooping => 7
    case WEarlyClose => 6
    case WEarlyDrain => 5
    case WCloseOutbound => 4
    case WDrain => 3
    case WCloseInbound => 2
    case WSignal => 1
    case WExited => 0
  }

  /** A stop branch of the biased `select!` is ready, so no other branch is taken. */
  predicate StopReady(g: Signals) {
    g.shutdown || (g.coordinated && g.fallback)
  }

  predicate WorldEnabled(g: Signals, c: Channels, step: WorldStep) {
    match step
    case Shutdown => !g.shutdown
    case Fallback => !g.fallback
    case SendOutbound => !c.outboundClosed
    case CloseInboundFar => !c.inboundClosed
    case CloseOutboundFar => !c.outboundClosed
  }

  predicate ReaderEnabled(g: Signals, pc: ReaderPc, step: ReaderStep) {
    match step
    case StartReading => pc.RSpawned?
    case StopReading => pc.RLooping? && StopReady(g)
    case ReadFrame => pc.RLooping? && !StopReady(g)
    case ReadError => pc.RLooping? && !StopReady(g)
    case ForwardFrame => pc.RSending?
    case ReaderCleanup => 1 <= ReaderRank(pc) <= 4
  }

  predicate WriterEnabled(g: Signals, c: Channels, pc: WriterPc, step: WriterStep) {
    match step
    case StartWriting => pc.WSpawned?
    case StopWriting => pc.WLooping? && StopReady(g)
    case Receive => pc.WLooping? && !StopReady(g) && (c.queued > 0 || c.outboundClosed)
    case FinishWrite(_) => pc.WWriting?
    case WriterCleanup => 1 <= WriterRank(pc) <= 6
  }

  predicate Enabled(s: State, step: Step) {
    match step
    case World(w) => WorldEnabled(s.signals, s.channels, w)
    case Read(r) => ReaderEnabled(s.signals, s.reader.pc, r)
    case Write(o) => WriterEnabled(s.signals, s.channels, s.writer.pc, o)
  }

  function WorldSignals(g: Signals, step: WorldStep): Signals {
    match step
    case Shutdown => g.(shutdown := true)
    case Fallback => g.(fallback := true)
    case _ => g
  }

  function WorldChannels(c: Channels, step: WorldStep): Channels {
    match step
    case SendOutbound => c.(queued := c.queued + 1)
    case CloseInboundFar => c.(inboundClosed := true)
    case CloseOutboundFar => c.(outboundClosed := true)
    case _ => c
  }

  /** The two accesses that `close_and_drain` is made of. */
  function Shut(c: Channels): Channels {
    c.(outboundClosed := true)
  }

  function TakeOne(c: Channels): Channels {
    if c.queued > 0 then c.(queued := c.queued - 1) else c
  }

  /** What one reader step does to the channels. */
  function ReaderChannels(c: Channels, pc: ReaderPc, step: ReaderStep): Channels {
    match step
    case StopReading => c.(inboundClosed := true)
    case ReadError => c.(inboundClosed := true)
    case ReaderCleanup =>
      (match pc
       case RCloseInbound => c.(inboundClosed := true)
       case RCloseOutbound => Shut(c)
       case RDrain => TakeOne(c)
       case _ => c)
    case _ => c
  }

  /** Where one reader step leads. */
  function ReaderNext(c: Channels, pc: ReaderPc, step: ReaderStep): ReaderPc {
    match step
    case StartReading => RLooping
    case StopReading => RCloseInbound
    case ReadFrame => RSending
    case ReadError => RCloseInbound
    case ForwardFrame => if c.inboundClosed then RCloseInbound else RLooping
    case ReaderCleanup =>
      (match pc
       case RCloseInbound => RCloseOutbound
       case RCloseOutbound => RDrain
       case RDrain => if c.queued > 0 then RDrain else RSignal
       case _ => RExited)
  }

  function WriterChannels(c: Channels, pc: WriterPc, step: WriterStep): Channels {
    match step
    case StopWriting => c.(inboundClosed := true)
    case Receive => TakeOne(c)
    case WriterCleanup =>
      (match pc
       case WEarlyClose => Shut(c)
       case WEarlyDrain => TakeOne(c)
       case WCloseOutbound => Shut(c)
       case WDrain => TakeOne(c)
       case WCloseInbound => c.(inboundClosed := true)
       case _ => c)
    case _ => c
  }

  /** A failed `recv` or write drains once inside the loop and once more behind it. */
  function WriterNext(c: Channels, pc: WriterPc, step: WriterStep): WriterPc {
    match step
    case StartWriting => WLooping
    case StopWriting => WCloseOutbound
    case Receive => if c.queued > 0 then WWriting else WEarlyClose
    case FinishWrite(ok) => if ok then WLooping else WEarlyClose
    case WriterCleanup =>
      (match pc
       case WEarlyClose => WEarlyDrain
       case WEarlyDrain => if c.queued > 0 then WEarlyDrain else WCloseOutbound
       case WCloseOutbound => WDrain
       case WDrain => if c.queued > 0 then WDrain else WCloseInbound
       case WCloseInbound => WSignal
       case _ => WExited)
  }

  /** Registration happens on the first step and `done` on the last, when there is a coordinator. */
  function MoveTask<Pc>(t: Task<Pc>, pc: Pc, coordinated: bool, starts: bool, ends: bool): Task<Pc> {
    Task(pc,
         t.registered + (if coordinated && starts then 1 else 0),
         t.done + (if coordinated && ends then 1 else 0))
  }

  function Apply(s: State, step: Step): State
    requires Enabled(s, step)
  {
    match step
    case World(w) =>
      s.(signals := WorldSignals(s.signals, w), channels := WorldChannels(s.channels, w))
    case Read(r) =>
      var pc := ReaderNext(s.channels, s.reader.pc, r);
      s.(channels := ReaderChannels(s.channels, s.reader.pc, r),
         reader := MoveTask(s.reader, pc, s.signals.coordinated, r.StartReading?, pc.RExited?))
    case Write(o) =>
      var pc := WriterNext(s.channels, s.writer.pc, o);
      s.(channels := WriterChannels(s.channels, s.writer.pc, o),
         writer := MoveTask(s.writer, pc, s.signals.coordinated, o.StartWriting?, pc.WExited?))
  }

  function Continue(s: State, steps: seq<Step>): Outcome<State>
    decreases |steps|
  {
    if steps == [] then At(s)
    else if Enabled(s, steps[0]) then Continue(Apply(s, steps[0]), steps[1..])
    else Stuck
  }

  /** Both channel ends are shut and nothing is left to write. */
  predicate TornDown(c: Channels) {
    c.inboundClosed && c.outboundClosed && c.queued == 0
  }

  predicate ReaderInv(g: Signals, c: Channels, t: Task<ReaderPc>) {
    && (ReaderRank(t.pc) <= 3 ==> c.inboundClosed)
    && (ReaderRank(t.pc) <= 2 ==> c.outboundClosed)
    && (ReaderRank(t.pc) <= 1 ==> c.queued == 0)
    && t.registered == (if g.coordinated && !t.pc.RSpawned? then 1 else 0)
    && t.done == (if g.coordinated && t.pc.RExited? then 1 else 0)
  }

  predicate WriterInv(g: Signals, c: Channels, t: Task<WriterPc>) {
    && (t.pc.WEarlyDrain? || WriterRank(t.pc) <= 3 ==> c.outboundClosed)
    && (WriterRank(t.pc) <= 2 ==> c.queued == 0)
    && (WriterRank(t.pc) <= 1 ==> c.inboundClosed)
    && t.registered == (if g.coordinated && !t.pc.WSpawned? then 1 else 0)
    && t.done == (if g.coordinated && t.pc.WExited? then 1 else 0)
  }

  predicate Inv(s: State) {
    ReaderInv(s.signals, s.channels, s.reader) && WriterInv(s.signals, s.channels, s.writer)
  }

  /** What no step undoes: closed stays closed, and a closed queue never grows. */
  predicate OnlyShuts(c: Channels, d: Channels) {
    && (c.inboundClosed ==> d.inboundClosed)
    && (c.outboundClosed ==> d.outboundClosed && d.queued <= c.queued)
  }

  lemma StepOnlyShuts(s: State, step: Step)
    requires Enabled(s, step)
    ensures OnlyShuts(s.channels, Apply(s, step).channels)
    ensures Apply(s, step).signals.coordinated == s.signals.coordinated
  {
  }

  lemma StepKeepsInv(s: State, step: Step)
    requires Inv(s) && Enabled(s, step)
    ensures Inv(Apply(s, step))
  {
    StepOnlyShuts(s, step);
    match step
    case World(_) =>
    case Read(r) =>
      assert ReaderInv(s.signals, s.channels, s.reader);
    case Write(o) =>
      assert WriterInv(s.signals, s.channels, s.writer);
  }

  lemma {:induction false} RunsKeepInv(s: State, steps: seq<Step>)
    requires Inv(s) && Continue(s, steps).At?
    ensures Inv(Continue(s, steps).s)
    ensures Continue(s, steps).s.signals.coordinated == s.signals.coordinated
    decreases |steps|
  {
    if steps != [] {
      StepKeepsInv(s, steps[0]);
      StepOnlyShuts(s, steps[0]);
      RunsKeepInv(Apply(s, steps[0]), steps[1..]);
    }
  }

  /**
   In every interleaving a task that registered has called `done` exactly once when it has exited and
   not before, and a task that was given no coordinator never registers or calls it.
   */
  lemma DoneExactlyOnce(coordinated: bool, steps: seq<Step>)
    requires Continue(Init(coordinated), steps).At?
    ensures var s := Continue(Init(coordinated), steps).s;
            && s.reader.done == (if coordinated && s.reader.pc.RExited? then 1 else 0)
            && s.writer.done == (if coordinated && s.writer.pc.WExited? then 1 else 0)
            && (s.reader.pc.RExited? ==> s.reader.registered == s.reader.done)
            && (s.writer.pc.WExited? ==> s.writer.registered == s.writer.done)
  {
    RunsKeepInv(Init(coordinated), steps);
  }

  lemma {:induction false} TornDownStays(s: State, steps: seq<Step>)
    requires TornDown(s.channels) && Continue(s, steps).At?
    ensures TornDown(Continue(s, steps).s.channels)
    decreases |steps|
  {
    if steps != [] {
      StepOnlyShuts(s, steps[0]);
      TornDownStays(Apply(s, steps[0]), steps[1..]);
    }
  }

  /**
   Once either task has exited, inbound is closed and outbound is closed and empty, and no later step
   of anybody changes that.
   */
  lemma ExitTearsDownForever(coordinated: bool, steps: seq<Step>, more: seq<Step>)
    requires Continue(Init(coordinated), steps).At?
    requires var s := Continue(Init(coordinated), steps).s; s.reader.pc.RExited? || s.writer.pc.WExited?
    requires Continue(Continue(Init(coordinated), steps).s, more).At?
    ensures TornDown(Continue(Continue(Init(coordinated), steps).s, more).s.channels)
  {
    RunsKeepInv(Init(coordinated), steps);
    TornDownStays(Continue(Init(coordinated), steps).s, more);
  }

  // ---------------------------------------------------------------- successes and failures

  /** A writer that has left its loop only cleans up: it never receives or writes again. */
  lemma {:induction false} LeavingWriterCleansUp(s: State, more: seq<Step>, k: nat)
    requires WriterRank(s.writer.pc) <= 6 && Continue(s, more).At? && k < |more| && more[k].Write?
    ensures more[k].o == WriterCleanup
    decreases k
  {
    if k > 0 {
      LeavingWriterCleansUp(Apply(s, more[0]), more[1..], k - 1);
    }
  }

  lemma {:induction false} LeavingReaderCleansUp(s: State, more: seq<Step>, k: nat)
    requires ReaderRank(s.reader.pc) <= 4 && Continue(s, more).At? && k < |more| && more[k].Read?
    ensures more[k].r == ReaderCleanup
    decreases k
  {
    if k > 0 {
      LeavingReaderCleansUp(Apply(s, more[0]), more[1..], k - 1);
    }
  }

  /** Steps after which a task has left its loop for good. */
  predicate Leaves(s: State, step: Step) {
    match step
    case Write(o) => o == FinishWrite(false) || o == StopWriting || (o == Receive && s.channels.queued == 0)
    case Read(r) => r == ReadError || r == StopReading || (r == ForwardFrame && s.channels.inboundClosed)
    case World(_) => false
  }

  /**
   After a failed write, an empty closed queue, a failed read, a frame nobody takes, or a stop, the task does
   nothing but clean up in every run.
   */
  lemma FailureIsFinal(s: State, step: Step, more: seq<Step>, k: nat)
    requires Enabled(s, step) && Leaves(s, step) && Continue(Apply(s, step), more).At? && k < |more|
    ensures step.Write? && more[k].Write? ==> more[k].o == WriterCleanup
    ensures step.Read? && more[k].Read? ==> more[k].r == ReaderCleanup
  {
    if step.Write? && more[k].Write? {
      LeavingWriterCleansUp(Apply(s, step), more, k);
    }
    if step.Read? && more[k].Read? {
      LeavingReaderCleansUp(Apply(s, step), more, k);
    }
  }

  /** Every other step of a started task keeps it in its loop or inside one frame of it. */
  lemma SuccessGoesOn(s: State, step: Step)
    requires Enabled(s, step) && !Leaves(s, step)
    ensures step.Write? && step.o != WriterCleanup ==>
              Apply(s, step).writer.pc == if step.o == Receive then WWriting else WLooping
    ensures step.Read? && step.r != ReaderCleanup ==>
              Apply(s, step).reader.pc == if step.r == ReadFrame then RSending else RLooping
  {
  }

  /** A stop and a failed read close the inbound channel at once, not only in the cleanup. */
  lemma StopClosesInbound(s: State, step: Step)
    requires Enabled(s, step)
    ensures step == Read(StopReading) || step == Read(ReadError) || step == Write(StopWriting) ==>
              Apply(s, step).channels.inboundClosed
  {
  }

  // ---------------------------------------------------------------- where the frames go

  /** Outbound frames handed in, received by the writer, dropped by a drain, and written or failed; inbound likewise. */
  datatype Flow = Flow(sent: nat, received: nat, dropped: nat, finished: nat, read: nat, forwarded: nat)

  predicate CleansUp(step: Step) {
    step == Read(ReaderCleanup) || step == Write(WriterCleanup)
  }

  /** What one step moves: a drain that has to go on has dropped a frame. */
  function Moved(s: State, step: Step): Flow
    requires Enabled(s, step)
  {
    var t := Apply(s, step);
    Flow(if step == World(SendOutbound) then 1 else 0,
         if step == Write(Receive) && t.writer.pc == WWriting then 1 else 0,
         if CleansUp(step) && s.reader.pc == t.reader.pc && s.writer.pc == t.writer.pc then 1 else 0,
         if step.Write? && step.o.FinishWrite? then 1 else 0,
         if step == Read(ReadFrame) then 1 else 0,
         if step == Read(ForwardFrame) then 1 else 0)
  }

  function Total(a: Flow, b: Flow): Flow {
    Flow(a.sent + b.sent, a.received + b.received, a.dropped + b.dropped, a.finished + b.finished,
         a.read + b.read, a.forwarded + b.forwarded)
  }

  function Tally(s: State, steps: seq<Step>): Flow
    requires Continue(s, steps).At?
    decreases |steps|
  {
    if steps == [] then Flow(0, 0, 0, 0, 0, 0) else Total(Moved(s, steps[0]), Tally(Apply(s, steps[0]), steps[1..]))
  }

  function Holding(holds: bool): nat {
    if holds then 1 else 0
  }

  /** Between two states exactly these frames have moved. */
  predicate Balanced(s: State, flow: Flow, t: State) {
    && s.channels.queued + flow.sent == flow.received + flow.dropped + t.channels.queued
    && Holding(s.writer.pc.WWriting?) + flow.received == flow.finished + Holding(t.writer.pc.WWriting?)
    && Holding(s.reader.pc.RSending?) + flow.read == flow.forwarded + Holding(t.reader.pc.RSending?)
  }

  lemma StepBalances(s: State, step: Step)
    requires Enabled(s, step)
    ensures Balanced(s, Moved(s, step), Apply(s, step))
  {
  }

  /**
   In every run each outbound frame handed in is received once, dropped by a drain or still queued, each
   received one is written once, and each inbound frame read is forwarded once.
   */
  lemma {:induction false} FramesAreConserved(s: State, steps: seq<Step>)
    requires Continue(s, steps).At?
    ensures Balanced(s, Tally(s, steps), Continue(s, steps).s)
    decreases |steps|
  {
    if steps != [] {
      StepBalances(s, steps[0]);
      FramesAreConserved(Apply(s, steps[0]), steps[1..]);
    }
  }

  /** Neither task has left its loop. */
  predicate BothWork(s: State) {
    ReaderRank(s.reader.pc) >= 5 && WriterRank(s.writer.pc) >= 7
  }

  /** As long as both tasks are at work nothing is dropped. */
  lemma {:induction false} NothingIsDroppedAtWork(s: State, steps: seq<Step>)
    requires Continue(s, steps).At? && BothWork(Continue(s, steps).s)
    ensures Tally(s, steps).dropped == 0 && BothWork(s)
    decreases |steps|
  {
    if steps != [] {
      NothingIsDroppedAtWork(Apply(s, steps[0]), steps[1..]);
      StillAtWork(s, steps[0]);
    }
  }

  lemma StillAtWork(s: State, step: Step)
    requires Enabled(s, step) && BothWork(Apply(s, step))
    ensures BothWork(s) && Moved(s, step).dropped == 0
  {
  }

  // ---------------------------------------------------------------- when one task has exited

  /** Steps that wait for the peer: a read in the loop, and a write that nothing interrupts. */
  predicate Socket(step: Step) {
    match step
    case Read(r) => r.ReadFrame? || r.ReadError?
    case Write(o) => o.FinishWrite?
    case World(_) => false
  }

  /** The task can go on whatever the peer does. */
  ghost predicate ReaderFree(s: State) {
    exists r :: Enabled(s, Read(r)) && !Socket(Read(r))
  }

  ghost predicate WriterFree(s: State) {
    exists o :: Enabled(s, Write(o)) && !Socket(Write(o))
  }

  /** A step of the writer that does not wait for the peer. */
  function WriterMove(s: State): WriterStep {
    match s.writer.pc
    case WSpawned => StartWriting
    case WLooping => if StopReady(s.signals) then StopWriting else Receive
    case _ => WriterCleanup
  }

  function ReaderMove(s: State): ReaderStep {
    match s.reader.pc
    case RSpawned => StartReading
    case RLooping => StopReading
    case RSending => ForwardFrame
    case _ => ReaderCleanup
  }

  /**
   After the reader has exited the writer can go on without the peer, if and only if it has not exited
   itself and is not in the middle of a write.
   */
  lemma WriterFollowsReader(coordinated: bool, steps: seq<Step>)
    requires Continue(Init(coordinated), steps).At? && Continue(Init(coordinated), steps).s.reader.pc.RExited?
    ensures var s := Continue(Init(coordinated), steps).s;
            WriterFree(s) <==> !s.writer.pc.WExited? && !s.writer.pc.WWriting?
  {
    RunsKeepInv(Init(coordinated), steps);
    var s := Continue(Init(coordinated), steps).s;
    if !s.writer.pc.WExited? && !s.writer.pc.WWriting? {
      assert Enabled(s, Write(WriterMove(s))) && !Socket(Write(WriterMove(s)));
    }
  }

  /**
   After the writer has exited the reader can go on without the peer, if and only if it has not exited
   itself and does not sit in its loop without a stop signal.
   */
  lemma ReaderFollowsWriter(coordinated: bool, steps: seq<Step>)
    requires Continue(Init(coordinated), steps).At? && Continue(Init(coordinated), steps).s.writer.pc.WExited?
    ensures var s := Continue(Init(coordinated), steps).s;
            ReaderFree(s) <==> !s.reader.pc.RExited? && (s.reader.pc.RLooping? ==> StopReady(s.signals))
  {
    var s := Continue(Init(coordinated), steps).s;
    if !s.reader.pc.RExited? && (s.reader.pc.RLooping? ==> StopReady(s.signals)) {
      assert Enabled(s, Read(ReaderMove(s))) && !Socket(Read(ReaderMove(s)));
    }
  }

  /** The reader's distance from its exit once inbound is closed: a frame it reads can no longer be forwarded. */
  function LateReaderRank(pc: ReaderPc): nat {
    match pc
    case RSpawned => 7
    case RLooping => 6
    case RSending => 5
    case _ => ReaderRank(pc)
  }

  function ReaderSteps(steps: seq<Step>): nat {
    if steps == [] then 0 else (if steps[0].Read? then 1 else 0) + ReaderSteps(steps[1..])
  }

  function WriterSteps(steps: seq<Step>): nat {
    if steps == [] then 0 else (if steps[0].Write? then 1 else 0) + WriterSteps(steps[1..])
  }

  function FramesRead(steps: seq<Step>): nat {
    if steps == [] then 0 else (if steps[0] == Read(ReadFrame) then 1 else 0) + FramesRead(steps[1..])
  }

  function WritesFinished(steps: seq<Step>): nat {
    if steps == [] then 0
    else (if steps[0].Write? && steps[0].o.FinishWrite? then 1 else 0) + WritesFinished(steps[1..])
  }

  /**
   With the channels torn down each task only moves towards its exit: its steps are bounded by its
   distance, the reader reads at most one more frame, and the writer at most ends the write it is in.
   */
  lemma {:induction false} TornDownRunsOut(s: State, more: seq<Step>)
    requires TornDown(s.channels) && Continue(s, more).At?
    ensures var t := Continue(s, more).s;
            && ReaderSteps(more) + LateReaderRank(t.reader.pc) <= LateReaderRank(s.reader.pc)
            && WriterSteps(more) + WriterRank(t.writer.pc) <= WriterRank(s.writer.pc)
    ensures FramesRead(more) <= if LateReaderRank(s.reader.pc) >= 6 then 1 else 0
    ensures WritesFinished(more) <= if s.writer.pc.WWriting? then 1 else 0
    decreases |more|
  {
    if more != [] {
      TornDownStays(s, more[..1]);
      assert Continue(s, more[..1]) == At(Apply(s, more[0]));
      TornDownRunsOut(Apply(s, more[0]), more[1..]);
    }
  }

  /** So much is left for the other task to do once one of the two has exited, in every run. */
  lemma OneExitBoundsTheOther(coordinated: bool, steps: seq<Step>, more: seq<Step>)
    requires Continue(Init(coordinated), steps).At?
    requires var s := Continue(Init(coordinated), steps).s;
             (s.reader.pc.RExited? || s.writer.pc.WExited?) && Continue(s, more).At?
    ensures var s := Continue(Init(coordinated), steps).s;
            && ReaderSteps(more) <= LateReaderRank(s.reader.pc) && FramesRead(more) <= 1
            && WriterSteps(more) <= WriterRank(s.writer.pc) && WritesFinished(more) <= 1
  {
    RunsKeepInv(Init(coordinated), steps);
    TornDownRunsOut(Continue(Init(coordinated), steps).s, more);
  }

  /** Some run leads from `s` to `t`. */
  ghost predicate Reaches(s: State, t: State) {
    exists steps :: Continue(s, steps) == At(t)
  }

  lemma {:induction false} ContinueSnoc(s: State, steps: seq<Step>, step: Step)
    requires Continue(s, steps).At? && Enabled(Continue(s, steps).s, step)
    ensures Continue(s, steps + [step]) == At(Apply(Continue(s, steps).s, step))
    decreases |steps|
  {
    if steps == [] {
      assert (steps + [step])[1..] == [];
    } else {
      assert (steps + [step])[1..] == steps[1..] + [step];
      ContinueSnoc(Apply(s, steps[0]), steps[1..], step);
    }
  }

  lemma Then(s: State, t: State, step: Step)
    requires Reaches(s, t) && Enabled(t, step)
    ensures Reaches(s, Apply(t, step))
  {
    var steps :| Continue(s, steps) == At(t);
    ContinueSnoc(s, steps, step);
  }

  /** Both tasks in their loops, the queue empty. */
  function Looping(coordinated: bool): State {
    var n := if coordinated then 1 else 0;
    State(Signals(coordinated, false, false), Channels(false, false, 0), Task(RLooping, n, 0), Task(WLooping, n, 0))
  }

  lemma BothLoop(coordinated: bool)
    ensures Reaches(Init(coordinated), Looping(coordinated))
  {
    var s := Init(coordinated);
    assert Continue(s, []) == At(s);
    Then(s, s, Read(StartReading));
    Then(s, Apply(s, Read(StartReading)), Write(StartWriting));
  }

  /** The cleanup of a writer whose `recv` failed, first inside the loop and then behind it. */
  lemma WriterLeavesLoop(s: State, t: State)
    requires Reaches(s, t) && t.writer.pc.WEarlyClose? && t.channels.queued == 0
    ensures Reaches(s, t.(channels := Shut(t.channels), writer := t.writer.(pc := WCloseOutbound)))
  {
    Then(s, t, Write(WriterCleanup));
    Then(s, t.(channels := Shut(t.channels), writer := t.writer.(pc := WEarlyDrain)), Write(WriterCleanup));
  }

  lemma WriterCleansUp(s: State, t: State)
    requires Reaches(s, t) && t.writer.pc.WCloseOutbound? && t.channels.queued == 0
    ensures Reaches(s, State(t.signals, Channels(true, true, 0), t.reader,
                             MoveTask(t.writer, WExited, t.signals.coordinated, false, true)))
  {
    var shut := t.(channels := Shut(t.channels));
    Then(s, t, Write(WriterCleanup));
    Then(s, shut.(writer := t.writer.(pc := WDrain)), Write(WriterCleanup));
    Then(s, shut.(writer := t.writer.(pc := WCloseInbound)), Write(WriterCleanup));
    Then(s, t.(channels := Channels(true, true, 0), writer := t.writer.(pc := WSignal)), Write(WriterCleanup));
  }

  /** The four cleanup steps of a reader facing an empty queue. */
  lemma ReaderCleansUp(s: State, t: State)
    requires Reaches(s, t) && t.reader.pc.RCloseInbound? && t.channels.queued == 0
    ensures Reaches(s, State(t.signals, Channels(true, true, 0),
                             MoveTask(t.reader, RExited, t.signals.coordinated, false, true), t.writer))
  {
    var shut := t.(channels := Channels(true, true, 0));
    Then(s, t, Read(ReaderCleanup));
    Then(s, t.(channels := Channels(true, t.channels.outboundClosed, 0), reader := t.reader.(pc := RCloseOutbound)),
         Read(ReaderCleanup));
    Then(s, shut.(reader := t.reader.(pc := RDrain)), Read(ReaderCleanup));
    Then(s, shut.(reader := t.reader.(pc := RSignal)), Read(ReaderCleanup));
  }

  /** The writer has exited because its channel was closed; the reader is still in its loop. */
  function WriterGone(coordinated: bool): State {
    var n := if coordinated then 1 else 0;
    State(Signals(coordinated, false, false), Channels(true, true, 0), Task(RLooping, n, 0), Task(WExited, n, n))
  }

  /** Such states exist: the writer has exited and only the peer or a signal frees the reader from its loop. */
  lemma WriterExitDoesNotFreeReader(coordinated: bool)
    ensures Reaches(Init(coordinated), WriterGone(coordinated)) && !ReaderFree(WriterGone(coordinated))
  {
    var s, looping := Init(coordinated), Looping(coordinated);
    BothLoop(coordinated);
    Then(s, looping, World(CloseOutboundFar));
    var closed := looping.(channels := Channels(false, true, 0));
    Then(s, closed, Write(Receive));
    WriterLeavesLoop(s, closed.(writer := looping.writer.(pc := WEarlyClose)));
    WriterCleansUp(s, closed.(writer := looping.writer.(pc := WCloseOutbound)));
  }

  /** The reader has exited on a shutdown; the writer is still in a write, where no signal reaches it. */
  function ReaderGone(coordinated: bool): State {
    var n := if coordinated then 1 else 0;
    State(Signals(coordinated, true, false), Channels(true, true, 0), Task(RExited, n, n), Task(WWriting, n, 0))
  }

  lemma WriterGetsBusy(coordinated: bool)
    ensures var looping := Looping(coordinated);
            Reaches(Init(coordinated), looping.(writer := looping.writer.(pc := WWriting)))
  {
    var s, looping := Init(coordinated), Looping(coordinated);
    BothLoop(coordinated);
    Then(s, looping, World(SendOutbound));
    Then(s, looping.(channels := Channels(false, false, 1)), Write(Receive));
  }

  /** And the other way round: the reader has exited, a stop signal is set, and only the peer frees the writer. */
  lemma ReaderExitDoesNotFreeWriter(coordinated: bool)
    ensures Reaches(Init(coordinated), ReaderGone(coordinated)) && !WriterFree(ReaderGone(coordinated))
  {
    var s, looping := Init(coordinated), Looping(coordinated);
    var writing := looping.(writer := looping.writer.(pc := WWriting));
    WriterGetsBusy(coordinated);
    Then(s, writing, World(Shutdown));
    var stopping := writing.(signals := Signals(coordinated, true, false));
    Then(s, stopping, Read(StopReading));
    ReaderCleansUp(s, stopping.(channels := Channels(true, false, 0), reader := looping.reader.(pc := RCloseInbound)));
  }

  // ---------------------------------------------------------------- close_and_drain

  /** A channel, used for either direction; each method is one of the machine's accesses to it. */
  class Receiver<T> {
    var closed: bool
    var queue: seq<T>

    /** The machine's view of it as the outbound channel, beside an inbound one. */
    ghost function View(inboundClosed: bool): Channels
      reads this
    {
      Channels(inboundClosed, closed, |queue|)
    }

    constructor (queue: seq<T>)
      ensures this.queue == queue && !closed
    {
      this.queue, closed := queue, false;
    }

    /**
     A send succeeds exactly on an open channel. Outbound that is when the machine lets anybody send; inbound
     it decides whether the reader goes back to its loop with the frame forwarded or starts to clean up.
     */
    method Send(x: T) returns (ok: bool)
      modifies this
      ensures ok == old(WorldEnabled(Signals(false, false, false), View(false), SendOutbound))
      ensures forall outboundClosed, queued ::
                ReaderNext(Channels(old(closed), outboundClosed, queued), RSending, ForwardFrame)
                == if ok then RLooping else RCloseInbound
      ensures forall i :: View(i) == if ok then WorldChannels(old(View(i)), SendOutbound) else old(View(i))
      ensures queue == if ok then old(queue) + [x] else old(queue)
    {
      ok := !closed;
      if ok {
        queue := queue + [x];
      }
    }

    method Close()
      modifies this
      ensures closed && queue == old(queue) && forall i :: View(i) == Shut(old(View(i)))
    {
      closed := true;
    }

    method TryRecv() returns (got: bool)
      modifies this
      ensures closed == old(closed) && got == (old(queue) != []) && forall i :: View(i) == TakeOne(old(View(i)))
      ensures queue == if got then old(queue)[1..] else []
    {
      got := queue != [];
      if got {
        queue := queue[1..];
      }
    }

    /** Run without interference, the accesses leave the channel closed and empty and count what was dropped. */
    method CloseAndDrain() returns (drained: nat)
      modifies this
      ensures closed && queue == [] && TornDown(View(true))
      ensures drained == old(|queue|)
    {
      Close();
      drained := 0;
      var got := TryRecv();
      while got
        invariant closed && drained + |queue| + (if got then 1 else 0) == old(|queue|)
        invariant !got ==> queue == []
        decreases |queue|, got
      {
        drained := drained + 1;
        got := TryRecv();
      }
    }
  }
}
