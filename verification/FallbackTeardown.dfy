/**
 The coordinator and the connection tasks together: any number of connections, each with a reader and a
 writer that register when they start and call `done` when they have cleaned up, beside components of
 other kinds that use the same coordinator.
 */
module FallbackTeardown {
  import opened Runs
  import C = FallbackCoordinator
  import Io = IoTasks

  /** Who registered a handler. */
  datatype Owner = Reader(k: nat) | Writer(k: nat) | Other

  /** A connection and the handlers of its two tasks, which mean nothing before the task has started. */
  datatype Connection = Connection(io: Io.State, reader: nat, writer: nat)

  /** `trace` holds the accesses to the coordinator that led to its state. */
  datatype State = State(trace: seq<C.Step>, coordinator: C.State, owners: seq<Owner>, connections: seq<Connection>)

  datatype Step =
    | Spawn                           // `spawn_io_tasks`
    | Move(k: nat, step: Io.Step)     // a step of connection `k`
    | Coordinate(access: C.Step)      // the trigger, another component, or the inside of `done`

  const INIT := State([], C.INIT, [], [])

  /** The access to the coordinator that a connection's step makes, if any. */
  datatype Call = Quiet | Registers(owner: Owner) | Finishes(h: nat)

  function CallOf(c: Connection, k: nat, step: Io.Step): Call {
    match step
    case Read(StartReading) => Registers(Reader(k))
    case Write(StartWriting) => Registers(Writer(k))
    case Read(ReaderCleanup) => if c.io.reader.pc.RSignal? then Finishes(c.reader) else Quiet
    case Write(WriterCleanup) => if c.io.writer.pc.WSignal? then Finishes(c.writer) else Quiet
    case _ => Quiet
  }

  /** A fallback signal comes from the coordinator's token, and `done` is called by the owner. */
  predicate Enabled(s: State, step: Step) {
    match step
    case Spawn => true
    case Move(k, st) =>
      && k < |s.connections| && Io.Enabled(s.connections[k].io, st)
      && (st == Io.World(Io.Fallback) ==> s.coordinator.cancelled)
      && (var call := CallOf(s.connections[k], k, st);
          call.Finishes? ==> C.Enabled(s.coordinator, C.MarkDone(call.h)))
    case Coordinate(access) =>
      && C.Enabled(s.coordinator, access)
      && (access.MarkDone? ==> access.h < |s.owners| && s.owners[access.h].Other?)
  }

  function Access(s: State, access: C.Step, owner: Owner): State
    requires C.Enabled(s.coordinator, access)
  {
    s.(trace := s.trace + [access],
       coordinator := C.Apply(s.coordinator, access),
       owners := if access.Register? then s.owners + [owner] else s.owners)
  }

  function Answer(s: State, call: Call): State
    requires call.Finishes? ==> C.Enabled(s.coordinator, C.MarkDone(call.h))
  {
    match call
    case Quiet => s
    case Registers(owner) => Access(s, C.Register, owner)
    case Finishes(h) => Access(s, C.MarkDone(h), Other)
  }

  function Moved(c: Connection, step: Io.Step, h: nat): Connection
    requires Io.Enabled(c.io, step)
  {
    Connection(Io.Apply(c.io, step),
               if step == Io.Read(Io.StartReading) then h else c.reader,
               if step == Io.Write(Io.StartWriting) then h else c.writer)
  }

  function Apply(s: State, step: Step): State
    requires Enabled(s, step)
  {
    match step
    case Spawn => s.(connections := s.connections + [Connection(Io.Init(true), 0, 0)])
    case Move(k, st) =>
      var c := s.connections[k];
      Answer(s, CallOf(c, k, st)).(connections := s.connections[k := Moved(c, st, |s.coordinator.handlers|)])
    case Coordinate(access) => Access(s, access, Other)
  }

  function Run(steps: seq<Step>): Outcome<State> {
    if steps == [] then At(INIT)
    else
      var before := Run(steps[..|steps| - 1]);
      var last := steps[|steps| - 1];
      if before.At? && Enabled(before.s, last) then At(Apply(before.s, last)) else Stuck
  }

  // ---------------------------------------------------------------- what every step keeps

  /** A started task owns its handler, which is active exactly until the task has cleaned up. */
  predicate Holds(handlers: seq<C.HandlerPc>, owners: seq<Owner>, h: nat, owner: Owner, exited: bool) {
    h < |owners| && h < |handlers| && owners[h] == owner && (handlers[h].Active? <==> !exited)
  }

  predicate Linked(handlers: seq<C.HandlerPc>, owners: seq<Owner>, k: nat, c: Connection) {
    && Io.Inv(c.io) && c.io.signals.coordinated
    && (!c.io.reader.pc.RSpawned? ==> Holds(handlers, owners, c.reader, Reader(k), c.io.reader.pc.RExited?))
    && (!c.io.writer.pc.WSpawned? ==> Holds(handlers, owners, c.writer, Writer(k), c.io.writer.pc.WExited?))
  }

  ghost predicate Inv(s: State) {
    && C.Run(s.trace) == At(s.coordinator)
    && |s.owners| == |s.coordinator.handlers|
    && forall k :: 0 <= k < |s.connections| ==> Linked(s.coordinator.handlers, s.owners, k, s.connections[k])
  }

  /** An access keeps the handlers of everybody but those it names. */
  lemma AccessKeeps(s: State, access: C.Step, owner: Owner)
    requires Inv(s) && C.Enabled(s.coordinator, access)
    ensures var t := Access(s, access, owner);
            && C.Run(t.trace) == At(t.coordinator) && |t.owners| == |t.coordinator.handlers| && s.owners <= t.owners
            && (access.Register? ==>
                  t.owners == s.owners + [owner] && t.coordinator.handlers == s.coordinator.handlers + [C.Active])
            && forall h :: 0 <= h < |s.owners| && access != C.MarkDone(h) ==>
                 (t.coordinator.handlers[h].Active? <==> s.coordinator.handlers[h].Active?)
  {
    C.RunSnoc(s.trace, access);
  }

  lemma CoordinateKeeps(s: State, access: C.Step)
    requires Inv(s) && Enabled(s, Coordinate(access))
    ensures Inv(Apply(s, Coordinate(access)))
  {
    AccessKeeps(s, access, Other);
    var t := Apply(s, Coordinate(access));
    forall k | 0 <= k < |t.connections| ensures Linked(t.coordinator.handlers, t.owners, k, t.connections[k]) {
      assert Linked(s.coordinator.handlers, s.owners, k, s.connections[k]);
    }
  }

  /** The links of a connection after one of its steps, by what the step does to the coordinator. */
  lemma QuietKeepsLinks(handlers: seq<C.HandlerPc>, owners: seq<Owner>, k: nat, c: Connection, st: Io.Step)
    requires Linked(handlers, owners, k, c) && Io.Enabled(c.io, st) && CallOf(c, k, st).Quiet?
    ensures Linked(handlers, owners, k, Moved(c, st, |handlers|))
  {
    Io.StepKeepsInv(c.io, st);
    Io.StepOnlyShuts(c.io, st);
  }

  lemma StartingLinks(handlers: seq<C.HandlerPc>, owners: seq<Owner>, k: nat, c: Connection, st: Io.Step)
    requires Linked(handlers, owners, k, c) && Io.Enabled(c.io, st) && CallOf(c, k, st).Registers?
    requires |owners| == |handlers|
    ensures Linked(handlers + [C.Active], owners + [CallOf(c, k, st).owner], k, Moved(c, st, |handlers|))
  {
    Io.StepKeepsInv(c.io, st);
    Io.StepOnlyShuts(c.io, st);
  }

  lemma FinishingKeepsLinks(handlers: seq<C.HandlerPc>, owners: seq<Owner>, k: nat, c: Connection, st: Io.Step)
    requires Linked(handlers, owners, k, c) && Io.Enabled(c.io, st) && CallOf(c, k, st).Finishes?
    ensures CallOf(c, k, st).h < |handlers|
    ensures Linked(handlers[CallOf(c, k, st).h := C.Marked], owners, k, Moved(c, st, |handlers|))
  {
    Io.StepKeepsInv(c.io, st);
    Io.StepOnlyShuts(c.io, st);
  }

  lemma MoveKeepsOwn(s: State, k: nat, st: Io.Step)
    requires Inv(s) && Enabled(s, Move(k, st))
    ensures var t := Apply(s, Move(k, st));
            C.Run(t.trace) == At(t.coordinator) && |t.owners| == |t.coordinator.handlers|
            && Linked(t.coordinator.handlers, t.owners, k, t.connections[k])
  {
    var c, handlers := s.connections[k], s.coordinator.handlers;
    assert Linked(handlers, s.owners, k, c);
    match CallOf(c, k, st)
    case Quiet => QuietKeepsLinks(handlers, s.owners, k, c, st);
    case Registers(owner) =>
      AccessKeeps(s, C.Register, owner);
      StartingLinks(handlers, s.owners, k, c, st);
    case Finishes(h) =>
      AccessKeeps(s, C.MarkDone(h), Other);
      FinishingKeepsLinks(handlers, s.owners, k, c, st);
  }

  lemma MoveKeepsOthers(s: State, k: nat, st: Io.Step, j: nat)
    requires Inv(s) && Enabled(s, Move(k, st)) && j < |s.connections| && j != k
    ensures var t := Apply(s, Move(k, st)); Linked(t.coordinator.handlers, t.owners, j, t.connections[j])
  {
    var c := s.connections[k];
    assert Linked(s.coordinator.handlers, s.owners, k, c);
    assert Linked(s.coordinator.handlers, s.owners, j, s.connections[j]);
    match CallOf(c, k, st)
    case Quiet =>
    case Registers(owner) => AccessKeeps(s, C.Register, owner);
    case Finishes(h) => AccessKeeps(s, C.MarkDone(h), Other);
  }

  lemma StepKeepsInv(s: State, step: Step)
    requires Inv(s) && Enabled(s, step)
    ensures Inv(Apply(s, step))
  {
    match step
    case Spawn =>
    case Coordinate(access) => CoordinateKeeps(s, access);
    case Move(k, st) =>
      MoveKeepsOwn(s, k, st);
      forall j | 0 <= j < |s.connections| && j != k
        ensures var t := Apply(s, step); Linked(t.coordinator.handlers, t.owners, j, t.connections[j])
      {
        MoveKeepsOthers(s, k, st, j);
      }
  }

  lemma {:induction false} RunKeepsInv(steps: seq<Step>)
    requires Run(steps).At?
    ensures Inv(Run(steps).s)
  {
    if steps != [] {
      RunKeepsInv(steps[..|steps| - 1]);
      StepKeepsInv(Run(steps[..|steps| - 1]).s, steps[|steps| - 1]);
    }
  }

  // ---------------------------------------------------------------- results

  /** The coordinator never holds a task up: whatever a connection can do on its own it can do here. */
  lemma TasksAreNeverHeldUp(steps: seq<Step>, k: nat, st: Io.Step)
    requires Run(steps).At? && k < |Run(steps).s.connections| && st != Io.World(Io.Fallback)
    ensures Enabled(Run(steps).s, Move(k, st)) <==> Io.Enabled(Run(steps).s.connections[k].io, st)
  {
    RunKeepsInv(steps);
    var s := Run(steps).s;
    assert Linked(s.coordinator.handlers, s.owners, k, s.connections[k]);
  }

  /** No task of the connection is under way, and what they shared is shut. */
  predicate Finished(io: Io.State) {
    && (io.reader.pc.RSpawned? || io.reader.pc.RExited?)
    && (io.writer.pc.WSpawned? || io.writer.pc.WExited?)
    && (!io.reader.pc.RSpawned? || !io.writer.pc.WSpawned? ==> Io.TornDown(io.channels))
  }

  lemma NobodyActive(handlers: seq<C.HandlerPc>, owners: seq<Owner>, k: nat, c: Connection)
    requires Linked(handlers, owners, k, c) && forall h :: 0 <= h < |handlers| ==> !handlers[h].Active?
    ensures Finished(c.io)
  {
  }

  /**
   Teardown: when `trigger_fallback_and_wait` returns from a quiet state, every reader and writer that had
   started has cleaned up, and every connection one of whose tasks had started has its channels closed and
   its queue empty.
   */
  lemma ReturnMeansTornDown(steps: seq<Step>, access: C.Step, k: nat)
    requires Run(steps).At? && C.ReturnsAt(Run(steps).s.trace, access) && C.Quiet(Run(steps).s.coordinator)
    requires k < |Run(steps).s.connections|
    ensures Finished(Run(steps).s.connections[k].io)
  {
    RunKeepsInv(steps);
    var s := Run(steps).s;
    C.QuietReturnIsSafe(s.trace, access);
    C.RunKeepsInv(s.trace);
    C.PendingCountZero(s.coordinator.handlers);
    assert Linked(s.coordinator.handlers, s.owners, k, s.connections[k]);
    NobodyActive(s.coordinator.handlers, s.owners, k, s.connections[k]);
  }

  /** In particular when nobody registered while a wakeup was stored or on its way. */
  lemma CalmReturnMeansTornDown(steps: seq<Step>, access: C.Step, k: nat)
    requires Run(steps).At? && C.ReturnsAt(Run(steps).s.trace, access) && C.Calm(Run(steps).s.trace)
    requires k < |Run(steps).s.connections|
    ensures Finished(Run(steps).s.connections[k].io)
  {
    RunKeepsInv(steps);
    C.CalmMeansQuiet(Run(steps).s.trace);
    ReturnMeansTornDown(steps, access, k);
  }

  function Coordinates(accesses: seq<C.Step>): seq<Step> {
    seq(|accesses|, i requires 0 <= i < |accesses| => Coordinate(accesses[i]))
  }

  lemma RunSnoc(steps: seq<Step>, step: Step)
    requires Run(steps).At? && Enabled(Run(steps).s, step)
    ensures Run(steps + [step]) == At(Apply(Run(steps).s, step))
  {
    assert (steps + [step])[..|steps|] == steps;
  }

  /** An access that neither registers nor finishes leaves the connections alone. */
  lemma CoordinatorStep(steps: seq<Step>, access: C.Step)
    requires Run(steps).At? && C.Run(Run(steps).s.trace + [access]).At? && C.Inner(access)
    ensures var s := Run(steps).s;
            && Run(steps + [Coordinate(access)]).At?
            && Run(steps + [Coordinate(access)]).s.trace == s.trace + [access]
            && Run(steps + [Coordinate(access)]).s.connections == s.connections
  {
    RunKeepsInv(steps);
    AccessAllowed(Run(steps).s, access);
    RunSnoc(steps, Coordinate(access));
  }

  lemma AccessAllowed(s: State, access: C.Step)
    requires Inv(s) && C.Run(s.trace + [access]).At?
    ensures C.Enabled(s.coordinator, access)
  {
    assert (s.trace + [access])[..|s.trace|] == s.trace;
  }

  lemma {:induction false} CoordinatorRuns(steps: seq<Step>, accesses: seq<C.Step>)
    requires Run(steps).At? && C.Run(Run(steps).s.trace + accesses).At?
    requires C.AllInner(accesses)
    ensures Run(steps + Coordinates(accesses)).At?
    ensures var t := Run(steps + Coordinates(accesses)).s;
            t.trace == Run(steps).s.trace + accesses && t.connections == Run(steps).s.connections
    decreases |accesses|
  {
    var trace := Run(steps).s.trace;
    if accesses == [] {
      assert steps + Coordinates(accesses) == steps && trace + accesses == trace;
    } else {
      var n := |accesses| - 1;
      var init, last := accesses[..n], accesses[n];
      assert trace + accesses == trace + init + [last];
      assert steps + Coordinates(accesses) == steps + Coordinates(init) + [Coordinate(last)];
      TracePrefix(trace + init, last);
      CoordinatorRuns(steps, init);
      CoordinatorStep(steps + Coordinates(init), last);
    }
  }

  lemma TracePrefix(trace: seq<C.Step>, last: C.Step)
    requires C.Run(trace + [last]).At?
    ensures C.Run(trace).At?
  {
    assert (trace + [last])[..|trace|] == trace;
  }

  /** A new connection whose reader has just started. */
  lemma ReaderStarts(steps: seq<Step>) returns (all: seq<Step>, started: seq<Step>)
    requires Run(steps).At?
    ensures Run(all).At? && all == steps + started
    ensures var s, t := Run(steps).s, Run(all).s;
            && t.trace == s.trace + [C.Register] && |t.connections| == |s.connections| + 1
            && InLoop(t.connections[|s.connections|].io)
  {
    var s := Run(steps).s;
    var start := Move(|s.connections|, Io.Read(Io.StartReading));
    RunSnoc(steps, Spawn);
    RunSnoc(steps + [Spawn], start);
    all := steps + [Spawn] + [start];
    started := [Spawn] + [start];
    Regroup(steps, [Spawn], [start]);
  }

  lemma Regroup(a: seq<Step>, b: seq<Step>, c: seq<Step>)
    ensures a + b + c == a + (b + c)
  {
  }

  /** The reader is in its loop and nothing is closed. */
  predicate InLoop(io: Io.State) {
    io.reader.pc.RLooping? && io.channels == Io.Channels(false, false, 0)
  }

  /**
   The condition is needed: a reader that starts while a wakeup is stored or on its way, in any reachable
   state before the return, can still be in its loop with open channels when the trigger returns.
   */
  lemma StartingUnderHazard(steps: seq<Step>) returns (all: seq<Step>, more: seq<Step>)
    requires Run(steps).At? && C.Hazard(Run(steps).s.coordinator) && !Run(steps).s.coordinator.trigger.Returned?
    ensures all == steps + more && Run(all).At? && C.ReturnsAt(Run(all).s.trace, C.TriggerWake)
    ensures var k := |Run(steps).s.connections|; k < |Run(all).s.connections| && InLoop(Run(all).s.connections[k].io)
  {
    RunKeepsInv(steps);
    var accesses := C.RegisteringUnderHazard(Run(steps).s.trace);
    var mid, started := ReaderStarts(steps);
    CoordinatorRuns(mid, accesses);
    all, more := mid + Coordinates(accesses), started + Coordinates(accesses);
    Regroup(steps, started, Coordinates(accesses));
  }

  // ---------------------------------------------------------------- progress

  /** A handler's owner is a task that has started and holds this handler. */
  predicate OwnerOk(connections: seq<Connection>, h: nat, owner: Owner) {
    match owner
    case Reader(k) => k < |connections| && !connections[k].io.reader.pc.RSpawned? && connections[k].reader == h
    case Writer(k) => k < |connections| && !connections[k].io.writer.pc.WSpawned? && connections[k].writer == h
    case Other => true
  }

  ghost predicate Owned(s: State) {
    forall h :: 0 <= h < |s.owners| ==> OwnerOk(s.connections, h, s.owners[h])
  }

  lemma StepKeepsOwned(s: State, step: Step)
    requires Owned(s) && |s.owners| == |s.coordinator.handlers| && Enabled(s, step)
    ensures Owned(Apply(s, step))
  {
    var t := Apply(s, step);
    forall h | 0 <= h < |t.owners| ensures OwnerOk(t.connections, h, t.owners[h]) {
      if h < |s.owners| {
        assert OwnerOk(s.connections, h, s.owners[h]);
      }
    }
  }

  lemma {:induction false} RunKeepsOwned(steps: seq<Step>)
    requires Run(steps).At?
    ensures Owned(Run(steps).s)
  {
    if steps != [] {
      RunKeepsOwned(steps[..|steps| - 1]);
      RunKeepsInv(steps[..|steps| - 1]);
      StepKeepsOwned(Run(steps[..|steps| - 1]).s, steps[|steps| - 1]);
    }
  }

  /**
   Steps that nobody outside has to take: no new connection, start or registration, nothing that waits for
   a peer, no send, close or shutdown from elsewhere.
   */
  predicate Live(step: Step) {
    match step
    case Spawn => false
    case Move(_, st) =>
      && !Io.Socket(st) && st != Io.Read(Io.StartReading) && st != Io.Write(Io.StartWriting)
      && (st.World? ==> st.w.Fallback?)
    case Coordinate(access) => !access.Register?
  }

  ghost predicate OnlyOutside(s: State) {
    forall step :: Live(step) ==> !Enabled(s, step)
  }

  predicate InsideWrite(s: State, k: nat) {
    k < |s.connections| && s.connections[k].io.writer.pc.WWriting?
  }

  /** A started task that has seen the fallback signal can always go on by itself, except inside a write. */
  lemma SignalledTaskMoves(io: Io.State)
    requires Io.StopReady(io.signals)
    ensures var pc := io.reader.pc;
            pc.RSpawned? || pc.RExited?
            || (Io.Enabled(io, Io.Read(Io.ReaderMove(io))) && !Io.Socket(Io.Read(Io.ReaderMove(io))))
    ensures var pc := io.writer.pc;
            pc.WSpawned? || pc.WExited? || pc.WWriting?
            || (Io.Enabled(io, Io.Write(Io.WriterMove(io))) && !Io.Socket(Io.Write(Io.WriterMove(io))))
  {
  }

  lemma StuckHandlerIsFinished(s: State, h: nat)
    requires Inv(s) && Owned(s) && OnlyOutside(s) && s.coordinator.cancelled
    requires forall k :: !InsideWrite(s, k)
    requires h < |s.coordinator.handlers|
    ensures s.coordinator.handlers[h].Finished?
  {
    var c := s.coordinator;
    assert !Enabled(s, Coordinate(C.FetchSub(h))) && !Enabled(s, Coordinate(C.CheckCancelled(h)));
    assert !Enabled(s, Coordinate(C.NotifyOne(h))) && !Enabled(s, Coordinate(C.MarkDone(h)));
    if c.handlers[h].Active? {
      assert OwnerOk(s.connections, h, s.owners[h]);
      var k := s.owners[h].k;
      assert Linked(c.handlers, s.owners, k, s.connections[k]);
      StuckTaskHasExited(s, k);
    }
  }

  lemma StuckTaskHasExited(s: State, k: nat)
    requires Inv(s) && OnlyOutside(s) && s.coordinator.cancelled && k < |s.connections| && !InsideWrite(s, k)
    ensures var io := s.connections[k].io;
            (io.reader.pc.RSpawned? || io.reader.pc.RExited?) && (io.writer.pc.WSpawned? || io.writer.pc.WExited?)
  {
    var io := s.connections[k].io;
    assert Linked(s.coordinator.handlers, s.owners, k, s.connections[k]);
    assert !Enabled(s, Move(k, Io.World(Io.Fallback)));
    SignalledTaskMoves(io);
    assert !io.reader.pc.RSpawned? ==> !Enabled(s, Move(k, Io.Read(Io.ReaderMove(io))));
    assert !io.writer.pc.WSpawned? ==> !Enabled(s, Move(k, Io.Write(Io.WriterMove(io))));
  }

  /**
   Progress: in a reachable state where only the outside could still do something, the trigger has
   returned, or some writer is inside a write and holds it up.
   */
  lemma StuckMeansReturnedOrHeld(steps: seq<Step>)
    requires Run(steps).At? && OnlyOutside(Run(steps).s)
    ensures Run(steps).s.coordinator.trigger.Returned? || exists k :: InsideWrite(Run(steps).s, k)
  {
    var s := Run(steps).s;
    RunKeepsInv(steps);
    RunKeepsOwned(steps);
    C.RunKeepsInv(s.trace);
    if forall k :: !InsideWrite(s, k) {
      StuckTriggerHasReturned(s);
    }
  }

  lemma StuckTriggerHasReturned(s: State)
    requires Inv(s) && Owned(s) && C.Inv(s.coordinator) && OnlyOutside(s) && forall k :: !InsideWrite(s, k)
    ensures s.coordinator.trigger.Returned?
  {
    var c := s.coordinator;
    assert !Enabled(s, Coordinate(C.TriggerCancel)) && !Enabled(s, Coordinate(C.TriggerLoad));
    assert !Enabled(s, Coordinate(C.TriggerWake)) && !Enabled(s, Coordinate(C.OtherCancel));
    forall h | 0 <= h < |c.handlers| ensures c.handlers[h].Finished? {
      StuckHandlerIsFinished(s, h);
    }
    FinishedHandlersFreeTheWait(c);
  }

  lemma FinishedHandlersFreeTheWait(c: C.State)
    requires C.Inv(c) && forall h :: 0 <= h < |c.handlers| ==> c.handlers[h].Finished?
    ensures c.trigger.Waiting? ==> c.permit
  {
    C.PendingCountZero(c.handlers);
  }

  /** And it does hold it up: a trigger in a quiet state never returns while a writer is inside a write. */
  lemma WriteHoldsTheReturn(steps: seq<Step>, k: nat, access: C.Step)
    requires Run(steps).At? && C.Quiet(Run(steps).s.coordinator) && InsideWrite(Run(steps).s, k)
    ensures !C.ReturnsAt(Run(steps).s.trace, access)
  {
    if C.ReturnsAt(Run(steps).s.trace, access) {
      ReturnMeansTornDown(steps, access, k);
    }
  }

  // ---------------------------------------------------------------- a stalled peer

  ghost predicate Reachable(s: State) {
    exists steps :: Run(steps) == At(s)
  }

  lemma Next(s: State, step: Step)
    requires Reachable(s) && Enabled(s, step)
    ensures Reachable(Apply(s, step))
  {
    var steps :| Run(steps) == At(s);
    RunSnoc(steps, step);
  }

  /** One connection, both of whose tasks have started. */
  function Alone(trace: seq<C.Step>, c: C.State, io: Io.State): State {
    State(trace, c, [Reader(0), Writer(0)], [Connection(io, 0, 1)])
  }

  lemma IoNext(trace: seq<C.Step>, c: C.State, io: Io.State, st: Io.Step)
    requires Reachable(Alone(trace, c, io)) && Io.Enabled(io, st) && CallOf(Connection(io, 0, 1), 0, st).Quiet?
    requires st == Io.World(Io.Fallback) ==> c.cancelled
    ensures Reachable(Alone(trace, c, Io.Apply(io, st)))
  {
    var s := Alone(trace, c, io);
    Next(s, Move(0, st));
    assert Apply(s, Move(0, st)).connections == [Connection(Io.Apply(io, st), 0, 1)];
  }

  lemma AccessNext(trace: seq<C.Step>, c: C.State, io: Io.State, access: C.Step)
    requires Reachable(Alone(trace, c, io)) && C.Enabled(c, access) && C.Inner(access)
    ensures Reachable(Alone(trace + [access], C.Apply(c, access), io))
  {
    Next(Alone(trace, c, io), Coordinate(access));
  }

  lemma ReaderDoneNext(trace: seq<C.Step>, c: C.State, io: Io.State)
    requires Reachable(Alone(trace, c, io)) && io.reader.pc.RSignal? && C.Enabled(c, C.MarkDone(0))
    ensures var done := C.MarkDone(0);
            Reachable(Alone(trace + [done], C.Apply(c, done), Io.Apply(io, Io.Read(Io.ReaderCleanup))))
  {
    var s, st := Alone(trace, c, io), Io.Read(Io.ReaderCleanup);
    Next(s, Move(0, st));
    assert Apply(s, Move(0, st)).connections == [Connection(Io.Apply(io, st), 0, 1)];
  }

  const STARTED := C.State(false, 2, false, [C.Active, C.Active], C.Idle, false, false)

  /** The connection before its writer starts. */
  const READING :=
    State([C.Register], C.State(false, 1, false, [C.Active], C.Idle, false, false), [Reader(0)],
          [Connection(Io.Init(true).(reader := Io.Task(Io.RLooping, 1, 0)), 0, 0)])

  const SPAWNED := INIT.(connections := [Connection(Io.Init(true), 0, 0)])

  lemma Spawned()
    ensures Reachable(SPAWNED)
  {
    assert Run([]) == At(INIT);
    Next(INIT, Spawn);
    assert Apply(INIT, Spawn) == SPAWNED;
  }

  lemma StartsReader()
    ensures var start := Move(0, Io.Read(Io.StartReading)); Enabled(SPAWNED, start) && Apply(SPAWNED, start) == READING
  {
  }

  lemma ReaderStarted()
    ensures Reachable(READING)
  {
    Spawned();
    StartsReader();
    Next(SPAWNED, Move(0, Io.Read(Io.StartReading)));
  }

  lemma BothStarted() returns (trace: seq<C.Step>)
    ensures Reachable(Alone(trace, STARTED, Io.Looping(true)))
  {
    ReaderStarted();
    trace := [C.Register, C.Register];
    var start := Move(0, Io.Write(Io.StartWriting));
    Next(READING, start);
    assert Apply(READING, start) == Alone(trace, STARTED, Io.Looping(true));
  }

  const WRITING := Io.Looping(true).(writer := Io.Task(Io.WWriting, 1, 0))
  const WAITING := STARTED.(cancelled := true, trigger := C.Waiting)

  const QUEUED := Io.Looping(true).(channels := Io.Channels(false, false, 1))

  lemma FrameIsQueued() returns (trace: seq<C.Step>)
    ensures Reachable(Alone(trace, STARTED, QUEUED))
  {
    FrameMoves();
    trace := BothStarted();
    IoNext(trace, STARTED, Io.Looping(true), Io.World(Io.SendOutbound));
  }

  lemma FrameMoves()
    ensures Io.Enabled(Io.Looping(true), Io.World(Io.SendOutbound)) && Io.Enabled(QUEUED, Io.Write(Io.Receive))
    ensures Io.Apply(Io.Looping(true), Io.World(Io.SendOutbound)) == QUEUED
    ensures Io.Apply(QUEUED, Io.Write(Io.Receive)) == WRITING
  {
  }

  lemma WriterIsBusy() returns (trace: seq<C.Step>)
    ensures Reachable(Alone(trace, STARTED, WRITING))
  {
    FrameMoves();
    trace := FrameIsQueued();
    IoNext(trace, STARTED, QUEUED, Io.Write(Io.Receive));
  }

  /** The writer is inside a write when the fallback is triggered. */
  lemma TriggerWaits() returns (trace: seq<C.Step>)
    ensures Reachable(Alone(trace, WAITING, WRITING))
  {
    trace := WriterIsBusy();
    var loading := STARTED.(cancelled := true, trigger := C.Loading);
    assert C.Apply(STARTED, C.TriggerCancel) == loading && C.Apply(loading, C.TriggerLoad) == WAITING;
    AccessNext(trace, STARTED, WRITING, C.TriggerCancel);
    trace := trace + [C.TriggerCancel];
    AccessNext(trace, loading, WRITING, C.TriggerLoad);
    trace := trace + [C.TriggerLoad];
  }

  /** The reader sees the signal and cleans up. */
  function Closing(pc: Io.ReaderPc, outboundClosed: bool): Io.State {
    WRITING.(signals := Io.Signals(true, false, true), channels := Io.Channels(true, outboundClosed, 0),
             reader := Io.Task(pc, 1, 0))
  }

  lemma ReaderStops() returns (trace: seq<C.Step>)
    ensures Reachable(Alone(trace, WAITING, Closing(Io.RCloseInbound, false)))
  {
    trace := TriggerWaits();
    IoNext(trace, WAITING, WRITING, Io.World(Io.Fallback));
    IoNext(trace, WAITING, WRITING.(signals := Io.Signals(true, false, true)), Io.Read(Io.StopReading));
  }

  lemma ReaderCleans() returns (trace: seq<C.Step>)
    ensures Reachable(Alone(trace, WAITING, Closing(Io.RSignal, true)))
  {
    trace := ReaderStops();
    IoNext(trace, WAITING, Closing(Io.RCloseInbound, false), Io.Read(Io.ReaderCleanup));
    IoNext(trace, WAITING, Closing(Io.RCloseOutbound, false), Io.Read(Io.ReaderCleanup));
    IoNext(trace, WAITING, Closing(Io.RDrain, true), Io.Read(Io.ReaderCleanup));
  }

  const HELD := WAITING.(pending := 1, handlers := [C.Finished, C.Active])
  const GONE := Closing(Io.RSignal, true).(reader := Io.Task(Io.RExited, 1, 1))

  /** The accesses of the reader's `done`. */
  lemma ReaderIsDone() returns (trace: seq<C.Step>)
    ensures Reachable(Alone(trace, HELD, GONE))
  {
    trace := ReaderCleans();
    ReaderDoneNext(trace, WAITING, Closing(Io.RSignal, true));
    trace := trace + [C.MarkDone(0)];
    var marked := WAITING.(handlers := [C.Marked, C.Active]);
    assert C.Apply(WAITING, C.MarkDone(0)) == marked;
    AccessNext(trace, marked, GONE, C.FetchSub(0));
    trace := trace + [C.FetchSub(0)];
    var decremented := WAITING.(pending := 1, handlers := [C.Decremented(2), C.Active]);
    assert C.Apply(marked, C.FetchSub(0)) == decremented;
    AccessNext(trace, decremented, GONE, C.CheckCancelled(0));
    trace := trace + [C.CheckCancelled(0)];
    assert C.Apply(decremented, C.CheckCancelled(0)) == HELD;
  }

  lemma NothingLeft(trace: seq<C.Step>)
    ensures OnlyOutside(Alone(trace, HELD, GONE))
  {
  }

  /**
   A stalled peer hangs the fallback: a reachable state in which the trigger waits, the writer is inside a
   write, and nobody but the outside can do anything.
   */
  lemma StalledPeerHangsFallback() returns (s: State)
    ensures Reachable(s) && s.coordinator.trigger.Waiting? && InsideWrite(s, 0) && OnlyOutside(s)
  {
    var trace := ReaderIsDone();
    NothingLeft(trace);
    s := Alone(trace, HELD, GONE);
  }
}
