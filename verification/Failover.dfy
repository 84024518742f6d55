/**
 The job declarator client's failover loop.

 Everything the client asks of its surroundings (is a stop requested, did the connection come up, did the
 services start) and everything it does about it (sessions, solo mining, fallbacks, stopping) forms a log.
 A small automaton says which logs are in order and its laws are proved for every accepted log; the
 runtime, with its flag per upstream and its retry loops, is then proved to write only accepted logs and
 to reach the result that the answers call for, whatever they are.
 */
module Failover {
  import opened Options

  /** How one connection attempt, `try_initialize_single`, can end. */
  datatype Tried = Connected | FallbackError | ShutdownError

  datatype Event =
    | Prepared(ok: bool)            // the runtime was built and the template provider is up, or not
    | Boot                          // `bootstrap_mining` begins
    | Manager(ok: bool)             // `bootstrap_channel_manager`
    | Poll(stop: bool)              // the cancellation token is read
    | Attempt(i: nat, tried: Tried) // one try at upstream `i`
    | Exhausted(i: nat)             // the last allowed try at `i` failed, so `i` is flagged
    | Session(i: nat)               // connected to `i`, which is flagged from now on
    | Abort                         // the attempts are given up
    | Solo                          // mining without an upstream
    | Services(ok: bool)            // `start_services`
    | Failed                        // the bootstrap itself failed
    | FallBack                      // the session was dropped and cleaned up
    | Stopped                       // the client is marked as stopped

  /** Where the client stands; `t` counts the attempts made at entry `i` in this bootstrap. */
  datatype Place =
    | Fresh
    | Waiting
    | Booted
    | Entry(i: nat)
    | Before(i: nat, t: nat)
    | Cleared(i: nat, t: nat)
    | Answered(i: nat, t: nat, tried: Tried)
    | Spent(i: nat)
    | Stopping
    | GoSolo
    | Chosen
    | Mining
    | Failing
    | Broken
    | Halted

  /** `flagged` entries are out, and `falls` sessions were dropped. */
  datatype Auto = Auto(flagged: nat, falls: nat, place: Place)

  datatype Config = Config(upstreams: nat, solo: bool)

  const MAX_RETRIES := 3

  predicate Accepts(c: Config, a: Auto, e: Event) {
    match e
    case Prepared(_) => a.place == Fresh
    case Boot => a.place == Waiting
    case Manager(_) => a.place == Booted
    case Poll(_) =>
      || (a.place.Entry? && a.place.i < c.upstreams)
      || a.place.Before?
      || (a.place.Answered? && a.place.tried != Connected)
    case Attempt(i, _) => a.place.Cleared? && a.place.i == i
    case Exhausted(i) => a.place == Spent(i)
    case Session(i) => a.place.Answered? && a.place.i == i && a.place.tried == Connected
    case Abort => a.place == Stopping
    case Solo => a.place == GoSolo || a.place == Entry(c.upstreams)
    case Services(_) => a.place == Chosen
    case Failed => a.place == Failing
    case FallBack => a.place == Mining
    case Stopped => a.place == Mining || a.place == Broken
  }

  /** After the channel manager is up: solo by configuration, no upstream at all, or the list. */
  function Choose(c: Config): Place {
    if c.solo then GoSolo else if c.upstreams == 0 then Failing else Entry(0)
  }

  /** After a poll: at an entry, before an attempt, or after a failed one. */
  function Polled(a: Auto, stop: bool): Place {
    if stop then Stopping
    else
      match a.place
      case Entry(i) => if i < a.flagged then Entry(i + 1) else Before(i, 0)
      case Before(i, t) => Cleared(i, t)
      case Answered(i, t, tried) =>
        if tried == ShutdownError then Stopping else if t == MAX_RETRIES then Spent(i) else Before(i, t)
      case _ => a.place
  }

  function Move(c: Config, a: Auto, e: Event): Auto
    requires Accepts(c, a, e)
  {
    match e
    case Prepared(ok) => a.(place := if ok then Waiting else Failing)
    case Boot => a.(place := Booted)
    case Manager(ok) => a.(place := if ok then Choose(c) else Failing)
    case Poll(stop) => a.(place := Polled(a, stop))
    case Attempt(i, tried) => a.(place := Answered(i, a.place.t + 1, tried))
    case Exhausted(i) => a.(flagged := a.flagged + 1, place := Entry(i + 1))
    case Session(_) => a.(flagged := a.flagged + 1, place := Chosen)
    case Abort => a.(place := GoSolo)
    case Solo => a.(place := Chosen)
    case Services(ok) => a.(place := if ok then Mining else Failing)
    case Failed => a.(place := Broken)
    case FallBack => a.(falls := a.falls + 1, place := Waiting)
    case Stopped => a.(place := Halted)
  }

  const START := Auto(0, 0, Fresh)

  datatype Verdict = Rejected | InOrder(a: Auto)

  function Replay(c: Config, log: seq<Event>): Verdict {
    if log == [] then InOrder(START)
    else
      var before := Replay(c, log[..|log| - 1]);
      var e := log[|log| - 1];
      if before.InOrder? && Accepts(c, before.a, e) then InOrder(Move(c, before.a, e)) else Rejected
  }

  predicate Ok(c: Config, log: seq<Event>) {
    Replay(c, log).InOrder?
  }

  function AutoOf(c: Config, log: seq<Event>): Auto
    requires Ok(c, log)
  {
    Replay(c, log).a
  }

  // ---------------------------------------------------------------- what every log keeps

  /** The entry being tried is the first one that is not flagged, and it has had at most three attempts. */
  predicate Inv(c: Config, a: Auto) {
    && a.flagged <= c.upstreams
    && match a.place
       case Entry(i) => i <= c.upstreams && i <= a.flagged
       case Before(i, t) => i == a.flagged < c.upstreams && t < 3
       case Cleared(i, t) => i == a.flagged < c.upstreams && t < 3
       case Answered(i, t, _) => i == a.flagged < c.upstreams && 1 <= t <= 3
       case Spent(i) => i == a.flagged < c.upstreams
       case _ => true
  }

  lemma MoveKeepsInv(c: Config, a: Auto, e: Event)
    requires Inv(c, a) && Accepts(c, a, e)
    ensures Inv(c, Move(c, a, e)) && a.flagged <= Move(c, a, e).flagged
  {
  }

  lemma {:induction false} LogKeepsInv(c: Config, log: seq<Event>)
    requires Ok(c, log)
    ensures Inv(c, AutoOf(c, log))
  {
    if log != [] {
      LogKeepsInv(c, log[..|log| - 1]);
      MoveKeepsInv(c, AutoOf(c, log[..|log| - 1]), log[|log| - 1]);
    }
  }

  lemma {:induction false} PrefixOk(c: Config, log: seq<Event>, k: nat)
    requires Ok(c, log) && k <= |log|
    ensures Ok(c, log[..k])
    ensures AutoOf(c, log[..k]).flagged <= AutoOf(c, log).flagged <= c.upstreams
  {
    LogKeepsInv(c, log);
    if k == |log| {
      assert log[..k] == log;
    } else {
      var init := log[..|log| - 1];
      PrefixOk(c, init, k);
      assert init[..k] == log[..k];
      LogKeepsInv(c, init);
      MoveKeepsInv(c, AutoOf(c, init), log[|log| - 1]);
    }
  }

  lemma EventAccepted(c: Config, log: seq<Event>, k: nat)
    requires Ok(c, log) && k < |log|
    ensures Ok(c, log[..k]) && Ok(c, log[..k + 1])
    ensures Accepts(c, AutoOf(c, log[..k]), log[k]) && Inv(c, AutoOf(c, log[..k]))
    ensures AutoOf(c, log[..k + 1]) == Move(c, AutoOf(c, log[..k]), log[k])
  {
    PrefixOk(c, log, k);
    PrefixOk(c, log, k + 1);
    LogKeepsInv(c, log[..k]);
    assert log[..k + 1][..k] == log[..k];
  }

  lemma FlaggedGrows(c: Config, log: seq<Event>, j: nat, k: nat)
    requires Ok(c, log) && j <= k <= |log|
    ensures Ok(c, log[..j]) && Ok(c, log[..k])
    ensures AutoOf(c, log[..j]).flagged <= AutoOf(c, log[..k]).flagged
  {
    PrefixOk(c, log, k);
    PrefixOk(c, log[..k], j);
    assert log[..k][..j] == log[..j];
  }

  // ---------------------------------------------------------------- laws over whole runs

  /** An upstream is spent once it had a session or its retries ran out. */
  predicate Spends(e: Event) {
    e.Session? || e.Exhausted?
  }

  /**
   A spent upstream is never attempted again and never serves again, in this bootstrap or any later
   one: everything that happens afterwards concerns entries further down the configured list.
   */
  lemma SpentIsNeverRetried(c: Config, log: seq<Event>, j: nat, k: nat)
    requires Ok(c, log) && j < k < |log| && Spends(log[j])
    requires log[k].Attempt? || Spends(log[k])
    ensures log[j].i < log[k].i < c.upstreams
  {
    EventAccepted(c, log, j);
    EventAccepted(c, log, k);
    FlaggedGrows(c, log, j + 1, k);
  }

  function Sessions(log: seq<Event>): nat {
    if log == [] then 0 else Sessions(log[..|log| - 1]) + if log[|log| - 1].Session? then 1 else 0
  }

  /** Over a whole run there are at most as many upstream sessions as configured upstreams. */
  lemma {:induction false} AtMostOneSessionPerUpstream(c: Config, log: seq<Event>)
    requires Ok(c, log)
    ensures Sessions(log) <= AutoOf(c, log).flagged <= c.upstreams
  {
    LogKeepsInv(c, log);
    if log != [] {
      AtMostOneSessionPerUpstream(c, log[..|log| - 1]);
    }
  }

  function AttemptsAt(log: seq<Event>, i: nat): nat {
    if log == [] then 0
    else AttemptsAt(log[..|log| - 1], i) + if log[|log| - 1].Attempt? && log[|log| - 1].i == i then 1 else 0
  }

  /** The attempts made so far at the entry being tried. */
  function TriesOf(a: Auto): nat {
    if a.place.Before? || a.place.Cleared? || a.place.Answered? then a.place.t else if a.place.Spent? then 3 else 0
  }

  /** The bootstrap has not yet chosen or given up. */
  predicate Searching(p: Place) {
    p.Booted? || p.Entry? || p.Before? || p.Cleared? || p.Answered? || p.Spent?
  }

  /** Within one bootstrap, attempts at `i` are bounded by where the automaton stands. */
  predicate Bounded(a: Auto, i: nat, n: nat) {
    && n <= 3
    && (i > a.flagged ==> n == 0)
    && (i == a.flagged && Searching(a.place) ==> n == TriesOf(a))
  }

  lemma MoveKeepsBound(c: Config, a: Auto, e: Event, i: nat, n: nat)
    requires Inv(c, a) && Accepts(c, a, e) && Bounded(a, i, n) && e != Boot
    ensures Bounded(Move(c, a, e), i, n + if e.Attempt? && e.i == i then 1 else 0)
  {
  }

  lemma {:induction false} BootstrapAttemptBound(c: Config, log: seq<Event>, boot: nat, i: nat)
    requires Ok(c, log) && boot < |log| && log[boot] == Boot && Boot !in log[boot + 1..]
    ensures Bounded(AutoOf(c, log), i, AttemptsAt(log[boot + 1..], i))
  {
    var n := |log| - 1;
    if boot == n {
      assert log[boot + 1..] == [];
    } else {
      var part, init := log[boot + 1..], log[..n];
      assert init[boot + 1..] == part[..|part| - 1] && log[n] == part[|part| - 1];
      BootstrapAttemptBound(c, init, boot, i);
      LogKeepsInv(c, init);
      MoveKeepsBound(c, AutoOf(c, init), log[n], i, AttemptsAt(init[boot + 1..], i));
    }
  }

  /** Each bootstrap makes at most three attempts at any upstream. */
  lemma AtMostThreeAttempts(c: Config, log: seq<Event>, boot: nat, end: nat, i: nat)
    requires Ok(c, log) && boot < end <= |log| && log[boot] == Boot && Boot !in log[boot + 1..end]
    ensures AttemptsAt(log[boot + 1..end], i) <= 3
  {
    PrefixOk(c, log, end);
    assert log[..end][boot + 1..] == log[boot + 1..end];
    BootstrapAttemptBound(c, log[..end], boot, i);
  }

  /** Once every upstream is flagged nothing is attempted any more and no session follows. */
  lemma AllFlaggedMeansSolo(c: Config, log: seq<Event>, j: nat, k: nat)
    requires Ok(c, log) && j <= k < |log|
    requires Ok(c, log[..j]) && AutoOf(c, log[..j]).flagged == c.upstreams
    ensures !log[k].Attempt? && !log[k].Exhausted? && !log[k].Session?
  {
    FlaggedGrows(c, log, j, k);
    EventAccepted(c, log, k);
  }

  // ---------------------------------------------------------------- answers and what follows from them

  /** Where the client stands tells what happened last. */
  lemma PlaceTells(c: Config, a: Auto, e: Event)
    requires Inv(c, a) && Accepts(c, a, e)
    ensures var p := Move(c, a, e).place;
            && (p.Cleared? ==> e == Poll(false) && a.place == Before(p.i, p.t))
            && (p.Answered? ==> e == Attempt(p.i, p.tried) && a.place == Cleared(p.i, p.t - 1))
            && (p.Spent? ==> e == Poll(false) && a.place == Answered(p.i, 3, FallbackError))
            && (p.Before? && p.t > 0 ==> e == Poll(false) && a.place == Answered(p.i, p.t, FallbackError))
            && (p == Stopping ==> e.Poll?)
            && (p == Stopping && e == Poll(false) ==> a.place.Answered? && a.place.tried == ShutdownError)
            && (p == Chosen ==> e.Session? || e == Solo)
            && (p == Mining ==> e == Services(true))
            && (p == Broken ==> e == Failed)
  {
  }

  lemma FailingTells(c: Config, a: Auto, e: Event)
    requires Accepts(c, a, e)
    ensures Move(c, a, e).place == Failing ==>
              || e == Prepared(false) || e == Manager(false) || e == Services(false)
              || (e == Manager(true) && !c.solo && c.upstreams == 0)
    ensures Move(c, a, e).place == GoSolo ==> e == Abort || (e == Manager(true) && c.solo)
  {
  }

  lemma FirstIsFresh(c: Config, log: seq<Event>)
    requires log != [] && Ok(c, log)
    ensures log[0].Prepared?
  {
    EventAccepted(c, log, 0);
    assert log[..0] == [];
  }

  /** What happened before an event, and where the client stood then. */
  lemma Previous(c: Config, log: seq<Event>, k: nat)
    requires Ok(c, log) && 0 < k < |log|
    ensures Ok(c, log[..k]) && Ok(c, log[..k - 1]) && Inv(c, AutoOf(c, log[..k - 1]))
    ensures Accepts(c, AutoOf(c, log[..k]), log[k]) && Accepts(c, AutoOf(c, log[..k - 1]), log[k - 1])
    ensures AutoOf(c, log[..k]) == Move(c, AutoOf(c, log[..k - 1]), log[k - 1])
  {
    EventAccepted(c, log, k);
    EventAccepted(c, log, k - 1);
    assert log[..k - 1 + 1] == log[..k];
    PlaceTells(c, AutoOf(c, log[..k - 1]), log[k - 1]);
    FailingTells(c, AutoOf(c, log[..k - 1]), log[k - 1]);
  }

  /** Every attempt comes right after a poll that saw no stop. */
  lemma AttemptIsCleared(c: Config, log: seq<Event>, k: nat)
    requires Ok(c, log) && k < |log| && log[k].Attempt?
    ensures k > 0 && log[k - 1] == Poll(false)
  {
    FirstIsFresh(c, log);
    Previous(c, log, k);
    PlaceTells(c, AutoOf(c, log[..k - 1]), log[k - 1]);
  }

  /** A session follows exactly an attempt at that entry that connected. */
  lemma SessionMeansConnected(c: Config, log: seq<Event>, k: nat)
    requires Ok(c, log) && 0 < k < |log|
    ensures log[k].Session? ==> log[k - 1] == Attempt(log[k].i, Connected)
    ensures log[k - 1].Attempt? && log[k - 1].tried == Connected ==> log[k] == Session(log[k - 1].i)
  {
    Previous(c, log, k);
    PlaceTells(c, AutoOf(c, log[..k - 1]), log[k - 1]);
  }

  /** A failed attempt: cleared, answered with a fallback error, and no stop seen after it. */
  function FailedTry(i: nat): seq<Event> {
    [Poll(false), Attempt(i, FallbackError), Poll(false)]
  }

  /** The last event before standing at a place, and where it led from. */
  lemma StepBack(c: Config, log: seq<Event>, k: nat) returns (a: Auto)
    requires Ok(c, log) && k <= |log| && Ok(c, log[..k]) && AutoOf(c, log[..k]) != START
    ensures k > 0 && Ok(c, log[..k - 1]) && a == AutoOf(c, log[..k - 1]) && Inv(c, a)
    ensures Accepts(c, a, log[k - 1]) && AutoOf(c, log[..k]) == Move(c, a, log[k - 1])
  {
    assert k > 0;
    EventAccepted(c, log, k - 1);
    assert log[..k - 1 + 1] == log[..k];
    a := AutoOf(c, log[..k - 1]);
  }

  /** The last three events before standing after a failed attempt. */
  lemma TryBack(c: Config, log: seq<Event>, k: nat, i: nat, t: nat)
    requires Ok(c, log) && k <= |log| && Ok(c, log[..k]) && 1 <= t <= 3
    requires AutoOf(c, log[..k]).place == if t == 3 then Spent(i) else Before(i, t)
    ensures k >= 3 && log[k - 3..k] == FailedTry(i)
    ensures Ok(c, log[..k - 3]) && AutoOf(c, log[..k - 3]).place == Before(i, t - 1)
  {
    BackToAnswered(c, log, k, i, t);
    BackToCleared(c, log, k - 1, i, t);
    BackToBefore(c, log, k - 2, i, t - 1);
  }

  lemma BackToAnswered(c: Config, log: seq<Event>, k: nat, i: nat, t: nat)
    requires Ok(c, log) && k <= |log| && Ok(c, log[..k]) && 1 <= t <= 3
    requires AutoOf(c, log[..k]).place == if t == 3 then Spent(i) else Before(i, t)
    ensures k > 0 && log[k - 1] == Poll(false) && Ok(c, log[..k - 1])
    ensures AutoOf(c, log[..k - 1]).place == Answered(i, t, FallbackError)
  {
    var a := StepBack(c, log, k);
    PlaceTells(c, a, log[k - 1]);
  }

  lemma BackToCleared(c: Config, log: seq<Event>, k: nat, i: nat, t: nat)
    requires Ok(c, log) && k <= |log| && Ok(c, log[..k]) && 1 <= t <= 3
    requires AutoOf(c, log[..k]).place == Answered(i, t, FallbackError)
    ensures k > 0 && log[k - 1] == Attempt(i, FallbackError) && Ok(c, log[..k - 1])
    ensures AutoOf(c, log[..k - 1]).place == Cleared(i, t - 1)
  {
    var a := StepBack(c, log, k);
    PlaceTells(c, a, log[k - 1]);
  }

  lemma BackToBefore(c: Config, log: seq<Event>, k: nat, i: nat, t: nat)
    requires Ok(c, log) && k <= |log| && Ok(c, log[..k]) && AutoOf(c, log[..k]).place == Cleared(i, t)
    ensures k > 0 && log[k - 1] == Poll(false) && Ok(c, log[..k - 1])
    ensures AutoOf(c, log[..k - 1]).place == Before(i, t)
  {
    var a := StepBack(c, log, k);
    PlaceTells(c, a, log[k - 1]);
  }

  /** An entry is given up exactly after three attempts at it that failed with a fallback error. */
  lemma ExhaustedMeansThreeFailures(c: Config, log: seq<Event>, k: nat)
    requires Ok(c, log) && k < |log| && log[k].Exhausted?
    ensures k >= 9 && log[k - 9..k] == FailedTry(log[k].i) + FailedTry(log[k].i) + FailedTry(log[k].i)
  {
    var i := log[k].i;
    EventAccepted(c, log, k);
    TryBack(c, log, k, i, 3);
    TryBack(c, log, k - 3, i, 2);
    TryBack(c, log, k - 6, i, 1);
    assert log[k - 9..k] == log[k - 9..k - 6] + log[k - 6..k - 3] + log[k - 3..k];
  }

  /** Three such failures in a row are the end of the entry, and fewer are not. */
  lemma FailuresAreCounted(c: Config, log: seq<Event>, k: nat, i: nat)
    requires Ok(c, log) && 3 <= k < |log| && log[k - 3..k] == FailedTry(i)
    ensures log[k] == Exhausted(i) || log[k].Poll?
    ensures log[k] == Exhausted(i) <==> k >= 9 && log[k - 9..k] == FailedTry(i) + FailedTry(i) + FailedTry(i)
  {
    if log[k].Exhausted? {
      ExhaustedMeansThreeFailures(c, log, k);
      assert log[k - 2] == log[k - 3..k][1] == Attempt(i, FallbackError);
      assert log[k - 2] == log[k - 9..k][7];
    }
    var t := AfterFailure(c, log, k, i);
    if k >= 9 && log[k - 9..k] == FailedTry(i) + FailedTry(i) + FailedTry(i) {
      FailedTwiceBefore(c, log, k, i);
    }
    EventAccepted(c, log, k);
  }

  /** After a failed attempt the client stands before the next one or has spent the entry. */
  lemma AfterFailure(c: Config, log: seq<Event>, k: nat, i: nat) returns (t: nat)
    requires Ok(c, log) && 3 <= k <= |log| && log[k - 3..k] == FailedTry(i)
    ensures Ok(c, log[..k]) && Ok(c, log[..k - 3]) && 1 <= t <= 3
    ensures AutoOf(c, log[..k]).place == if t == 3 then Spent(i) else Before(i, t)
    ensures AutoOf(c, log[..k - 3]).place == Before(i, t - 1)
  {
    assert log[k - 3] == log[k - 3..k][0] && log[k - 2] == log[k - 3..k][1] && log[k - 1] == log[k - 3..k][2];
    EventAccepted(c, log, k - 3);
    EventAccepted(c, log, k - 2);
    EventAccepted(c, log, k - 1);
    assert log[..k - 3 + 1] == log[..k - 2] && log[..k - 2 + 1] == log[..k - 1] && log[..k - 1 + 1] == log[..k];
    PlaceTells(c, AutoOf(c, log[..k - 3]), log[k - 3]);
    t := AutoOf(c, log[..k - 1]).place.t;
  }

  lemma Thirds(log: seq<Event>, k: nat, f: seq<Event>)
    requires |f| == 3 && 9 <= k <= |log| && log[k - 9..k] == f + f + f
    ensures log[k - 9..k - 6] == f && log[k - 6..k - 3] == f && log[k - 3..k] == f
  {
    var part := log[k - 9..k];
    forall j | 0 <= j < 3 ensures log[k - 9 + j] == f[j] && log[k - 6 + j] == f[j] && log[k - 3 + j] == f[j] {
      assert log[k - 9 + j] == part[j] && log[k - 6 + j] == part[3 + j] && log[k - 3 + j] == part[6 + j];
    }
  }

  lemma FailedTwiceBefore(c: Config, log: seq<Event>, k: nat, i: nat)
    requires Ok(c, log) && 9 <= k <= |log| && log[k - 9..k] == FailedTry(i) + FailedTry(i) + FailedTry(i)
    ensures Ok(c, log[..k]) && AutoOf(c, log[..k]).place == Spent(i)
  {
    Thirds(log, k, FailedTry(i));
    var a := AfterFailure(c, log, k - 6, i);
    var b := AfterFailure(c, log, k - 3, i);
    var d := AfterFailure(c, log, k, i);
  }

  /** A stop that was seen is followed by giving up, and so is a shutdown error after one more poll. */
  lemma StopMeansAbort(c: Config, log: seq<Event>, k: nat)
    requires Ok(c, log) && 0 < k < |log|
    ensures log[k - 1] == Poll(true) ==> log[k] == Abort
    ensures log[k - 1].Attempt? && log[k - 1].tried == ShutdownError ==> log[k].Poll?
    ensures k > 1 && log[k - 2].Attempt? && log[k - 2].tried == ShutdownError ==> log[k] == Abort
  {
    Previous(c, log, k);
    if k > 1 {
      Previous(c, log, k - 1);
    }
  }

  /** Giving up has one of these two reasons, and is followed by solo mining. */
  lemma AbortHasAReason(c: Config, log: seq<Event>, k: nat)
    requires Ok(c, log) && k < |log| && log[k] == Abort
    ensures k > 1 && (log[k - 1] == Poll(true)
                      || (log[k - 1].Poll? && log[k - 2].Attempt? && log[k - 2].tried == ShutdownError))
    ensures k + 1 < |log| ==> log[k + 1] == Solo
  {
    EventAccepted(c, log, k);
    var polled := StepBack(c, log, k);
    PlaceTells(c, polled, log[k - 1]);
    var answered := StepBack(c, log, k - 1);
    PlaceTells(c, answered, log[k - 2]);
    if k + 1 < |log| {
      EventAccepted(c, log, k + 1);
    }
  }

  /** Solo mining starts only on request, when every upstream is flagged, or after giving up. */
  lemma SoloHasAReason(c: Config, log: seq<Event>, k: nat)
    requires Ok(c, log) && k < |log| && log[k] == Solo
    ensures Ok(c, log[..k])
    ensures c.solo || AutoOf(c, log[..k]).flagged == c.upstreams || (k > 0 && log[k - 1] == Abort)
  {
    EventAccepted(c, log, k);
    var a := StepBack(c, log, k);
    FailingTells(c, a, log[k - 1]);
  }

  /** A client configured for solo mining reads no token and tries nothing. */
  predicate NotSearching(p: Place) {
    !p.Entry? && !p.Before? && !p.Cleared? && !p.Answered? && !p.Spent? && !p.Stopping?
  }

  lemma {:induction false} SoloTriesNothing(c: Config, log: seq<Event>, k: nat)
    requires Ok(c, log) && c.solo && k <= |log|
    ensures Ok(c, log[..k]) && NotSearching(AutoOf(c, log[..k]).place)
    ensures k < |log| ==> !log[k].Poll? && !log[k].Attempt?
    decreases k
  {
    PrefixOk(c, log, k);
    if k > 0 {
      SoloTriesNothing(c, log, k - 1);
      EventAccepted(c, log, k - 1);
      assert log[..k - 1 + 1] == log[..k];
    } else {
      assert log[..0] == [];
    }
    if k < |log| {
      EventAccepted(c, log, k);
    }
  }

  /** The services start right after the choice, and the client runs only when they did. */
  lemma ServicesDecide(c: Config, log: seq<Event>, k: nat)
    requires Ok(c, log) && 0 < k < |log|
    ensures log[k].Services? <==> log[k - 1].Session? || log[k - 1] == Solo
    ensures log[k] == FallBack ==> log[k - 1] == Services(true)
    ensures log[k] == Stopped ==> log[k - 1] == Services(true) || log[k - 1] == Failed
  {
    Previous(c, log, k);
    PlaceTells(c, AutoOf(c, log[..k - 1]), log[k - 1]);
  }

  /** A bootstrap fails exactly when something did not start or there is nothing to connect to. */
  lemma FailedHasAReason(c: Config, log: seq<Event>, k: nat)
    requires Ok(c, log) && 0 < k < |log|
    ensures log[k] == Failed <==>
              || log[k - 1] == Prepared(false) || log[k - 1] == Manager(false) || log[k - 1] == Services(false)
              || (log[k - 1] == Manager(true) && !c.solo && c.upstreams == 0)
  {
    Previous(c, log, k);
    FailingTells(c, AutoOf(c, log[..k - 1]), log[k - 1]);
  }

  function FallBacks(log: seq<Event>): nat {
    if log == [] then 0 else FallBacks(log[..|log| - 1]) + if log[|log| - 1] == FallBack then 1 else 0
  }

  lemma {:induction false} FallsAreCounted(c: Config, log: seq<Event>)
    requires Ok(c, log)
    ensures AutoOf(c, log).falls == FallBacks(log)
  {
    if log != [] {
      FallsAreCounted(c, log[..|log| - 1]);
    }
  }

  // ---------------------------------------------------------------- the runtime

  /** The states a log leads through. */
  ghost predicate Traces(c: Config, log: seq<Event>, autos: seq<Auto>) {
    && |autos| == |log| + 1 && autos[0] == START
    && forall k :: 0 <= k < |log| ==> Follows(c, autos, k, log[k])
  }

  ghost predicate Follows(c: Config, autos: seq<Auto>, k: nat, e: Event)
    requires k + 1 < |autos|
  {
    Accepts(c, autos[k], e) && autos[k + 1] == Move(c, autos[k], e)
  }

  lemma {:induction false} TracedIsOk(c: Config, log: seq<Event>, autos: seq<Auto>)
    requires Traces(c, log, autos)
    ensures Ok(c, log) && AutoOf(c, log) == autos[|log|]
  {
    if log != [] {
      var n := |log| - 1;
      TracedIsOk(c, log[..n], autos[..n + 1]);
    }
  }

  /** The first `k` entries are flagged and the rest are not. */
  predicate FlaggedPrefix(flags: seq<bool>, k: nat) {
    k <= |flags| && forall i :: 0 <= i < |flags| ==> flags[i] == (i < k)
  }

  /** What the surroundings answer: to the n-th poll, the n-th attempt and the n-th start of something. */
  datatype World = World(stop: nat -> bool, tried: nat -> Tried, ok: nat -> bool)

  datatype Init = Upstream(i: nat) | AbortedInit | NoneLeft

  datatype BootResult = Running(upstream: Option<nat>) | BootFailed

  datatype WaitEvent = ShutdownRequested | FallbackRequested

  datatype StartResult = ReturnedOk | ReturnedErr | StillRunning

  /** The attempts from the `a`-th up to the `b`-th all end in a fallback error. */
  ghost predicate AllFail(w: World, a: nat, b: int) {
    forall n: nat :: a <= n < b ==> w.tried(n) == FallbackError
  }

  /** What the attempts from the `a`-th up to the `b`-th, three per entry from `first` on, come to without a stop. */
  ghost predicate Decides(w: World, a: nat, b: nat, first: nat, upstreams: nat, r: Init) {
    match r
    case Upstream(i) => a < b && AllFail(w, a, b - 1) && w.tried(b - 1) == Connected && i == first + (b - 1 - a) / 3
    case AbortedInit => a < b && AllFail(w, a, b - 1) && w.tried(b - 1) == ShutdownError
    case NoneLeft => b - a == 3 * (upstreams - first) && AllFail(w, a, b)
  }

  /** Failures at the entries before and the result at one entry make the result of the walk. */
  lemma Chain(w: World, a: nat, m: nat, b: nat, first: nat, i: nat, upstreams: nat, one: Init)
    requires m - a == 3 * (i - first) >= 0 && AllFail(w, a, m) && Decides(w, m, b, i, i + 1, one)
    ensures one.NoneLeft? ==> b == m + 3 && AllFail(w, a, b)
    ensures one == Upstream(i) && b <= m + 3 ==> Decides(w, a, b, first, upstreams, one)
    ensures one.AbortedInit? ==> Decides(w, a, b, first, upstreams, one)
  {
  }

  /** The session that follows from such a result, if any. */
  ghost predicate Chooses(w: World, a: nat, b: nat, first: nat, upstreams: nat, session: Option<nat>) {
    exists init :: Decides(w, a, b, first, upstreams, init)
                   && session == if init.Upstream? then Some(init.i) else None
  }

  /** The `n`-th attempt connects and those from the `a`-th on before it are to be retried. */
  ghost predicate ConnectsAt(w: World, a: nat, n: nat) {
    a <= n && AllFail(w, a, n) && w.tried(n) == Connected
  }

  /**
   When an attempt connects before the entries run out, the session is with the entry whose turn it is:
   the first unflagged one within its three tries, else the next one within its three, and so on.
   */
  lemma FirstConnectionServes(w: World, a: nat, b: nat, first: nat, upstreams: nat, session: Option<nat>, n: nat)
    requires Chooses(w, a, b, first, upstreams, session) && ConnectsAt(w, a, n) && n - a < 3 * (upstreams - first)
    ensures session == Some(first + (n - a) / 3) && b == n + 1
    ensures n < a + 3 ==> session == Some(first)
  {
    var init :| Decides(w, a, b, first, upstreams, init) && session == if init.Upstream? then Some(init.i) else None;
    assert n < b - 1 ==> w.tried(n) == FallbackError;
  }

  /** Conversely a session means that. */
  lemma SessionFollowsConnection(w: World, a: nat, b: nat, first: nat, upstreams: nat, session: Option<nat>)
    requires Chooses(w, a, b, first, upstreams, session) && session.Some?
    ensures b > 0 && ConnectsAt(w, a, b - 1) && session.value == first + (b - 1 - a) / 3
  {
  }

  class Runtime {
    const config: Config
    const world: World
    var flags: seq<bool>
    var cancelled: bool
    var alive: bool
    var log: seq<Event>
    var polls: nat
    var attempts: nat
    var starts: nat
    ghost var auto: Auto
    ghost var autos: seq<Auto>

    ghost predicate Valid()
      reads this
    {
      && Traces(config, log, autos) && auto == autos[|log|] && Inv(config, auto)
      && |flags| == config.upstreams && FlaggedPrefix(flags, auto.flagged)
    }

    ghost predicate In(place: Place)
      reads this
    {
      Valid() && auto.place == place
    }

    constructor (config: Config, world: World)
      ensures this.config == config && this.world == world && In(Fresh) && log == [] && alive && !cancelled
      ensures polls == attempts == starts == 0
    {
      this.config, this.world := config, world;
      flags := seq(config.upstreams, _ => false);
      cancelled, alive, log := false, true, [];
      polls, attempts, starts := 0, 0, 0;
      auto, autos := START, [START];
    }

    method Record(e: Event)
      requires Valid() && Accepts(config, auto, e) && !Spends(e)
      modifies this`log, this`auto, this`autos
      ensures Valid() && log == old(log) + [e] && auto == Move(config, old(auto), e)
    {
      MoveKeepsInv(config, auto, e);
      auto := Move(config, auto, e);
      log, autos := log + [e], autos + [auto];
    }

    /** Sets `tried_or_flagged` of the entry just spent and records why. */
    method Flag(e: Event)
      requires Valid() && Accepts(config, auto, e) && Spends(e)
      modifies this`log, this`auto, this`autos, this`flags
      ensures Valid() && log == old(log) + [e] && auto == Move(config, old(auto), e)
    {
      MoveKeepsInv(config, auto, e);
      flags := flags[e.i := true];
      auto := Move(config, auto, e);
      log, autos := log + [e], autos + [auto];
    }

    /** Reads the token, on which a stop may have been requested since the last time; requests are never undone. */
    method AskStop() returns (stop: bool)
      requires Valid() && Accepts(config, auto, Poll(true))
      modifies this`cancelled, this`polls, this`log, this`auto, this`autos
      ensures polls == old(polls) + 1 && stop == cancelled == (old(cancelled) || world.stop(old(polls)))
      ensures Valid() && log == old(log) + [Poll(stop)] && auto == old(auto).(place := Polled(old(auto), stop))
    {
      cancelled := cancelled || world.stop(polls);
      polls := polls + 1;
      stop := cancelled;
      Record(Poll(stop));
    }

    /** `try_initialize_single`: the network decides. */
    method TryOnce(i: nat) returns (tried: Tried)
      requires Valid() && auto.place.Cleared? && auto.place.i == i
      modifies this`attempts, this`log, this`auto, this`autos
      ensures attempts == old(attempts) + 1 && tried == world.tried(old(attempts))
      ensures Valid() && log == old(log) + [Attempt(i, tried)]
      ensures auto == old(auto).(place := Answered(i, old(auto.place.t) + 1, tried))
    {
      tried := world.tried(attempts);
      attempts := attempts + 1;
      Record(Attempt(i, tried));
    }

    /** One try at entry `i` with the checks of the source before and after it; `None` when it is to be retried. */
    method TryWithChecks(i: nat) returns (r: Option<Init>)
      requires Valid() && auto.place.Before? && auto.place.i == i
      modifies this`cancelled, this`polls, this`attempts, this`log, this`auto, this`autos, this`flags
      ensures Valid() && old(log) <= log
      ensures r == Some(Upstream(i)) ==> auto == old(auto).(flagged := i + 1, place := Chosen)
      ensures r == Some(AbortedInit) ==> auto == old(auto).(place := GoSolo)
      ensures r == None ==>
                var t := old(auto.place.t);
                auto == old(auto).(place := if t == 2 then Spent(i) else Before(i, t + 1))
      ensures r in {None, Some(Upstream(i)), Some(AbortedInit)} && (cancelled ==> r == Some(AbortedInit))
      ensures old(attempts) <= attempts <= old(attempts) + 1
      ensures old(cancelled) ==> cancelled && attempts == old(attempts)
      ensures !cancelled ==>
                && attempts == old(attempts) + 1
                && r == match world.tried(old(attempts))
                        case Connected => Some(Upstream(i))
                        case ShutdownError => Some(AbortedInit)
                        case FallbackError => None
    {
      var stop := AskStop();
      if stop {
        Record(Abort);
        return Some(AbortedInit);
      }
      var tried := TryOnce(i);
      if tried.Connected? {
        Flag(Session(i));
        return Some(Upstream(i));
      }
      stop := AskStop();
      if stop || tried.ShutdownError? {
        Record(Abort);
        return Some(AbortedInit);
      }
      r := None;
    }

    /** The attempts at entry `i`: up to three. */
    method TryEntry(i: nat) returns (r: Init)
      requires In(Before(i, 0)) && i == auto.flagged < config.upstreams
      modifies this`cancelled, this`polls, this`attempts, this`log, this`auto, this`autos, this`flags
      ensures r in {Upstream(i), AbortedInit, NoneLeft} && old(attempts) <= attempts <= old(attempts) + 3
      ensures Valid() && old(log) <= log && auto.falls == old(auto.falls)
      ensures r == Upstream(i) ==> In(Chosen)
      ensures r == AbortedInit ==> In(GoSolo)
      ensures r == NoneLeft ==> auto == old(auto).(flagged := i + 1, place := Entry(i + 1))
      ensures cancelled ==> r == AbortedInit
      ensures !cancelled ==> Decides(world, old(attempts), attempts, i, i + 1, r)
      ensures old(cancelled) ==> cancelled && attempts == old(attempts)
    {
      var attempt := 1;
      while attempt <= MAX_RETRIES
        invariant 1 <= attempt <= 4 && Valid() && old(log) <= log
        invariant auto == old(auto).(place := if attempt == 4 then Spent(i) else Before(i, attempt - 1))
        invariant attempts == old(attempts) + attempt - 1 && AllFail(world, old(attempts), attempts)
        invariant attempt > 1 ==> !cancelled
        invariant old(cancelled) ==> attempt == 1 && cancelled
      {
        var one := TryWithChecks(i);
        if one.Some? {
          return one.value;
        }
        attempt := attempt + 1;
      }
      Flag(Exhausted(i));
      r := NoneLeft;
    }

    /** `initialize_jd`: walks the configured list in order, skipping flagged entries. */
    method InitializeJd() returns (r: Init)
      requires In(Entry(0)) && config.upstreams > 0
      modifies this`cancelled, this`polls, this`attempts, this`log, this`auto, this`autos, this`flags
      ensures Valid() && old(log) <= log && auto.falls == old(auto.falls) && old(attempts) <= attempts
      ensures r.Upstream? ==> In(Chosen)
      ensures r.AbortedInit? ==> In(GoSolo)
      ensures r.NoneLeft? ==> In(Entry(config.upstreams))
      ensures cancelled ==> r == AbortedInit
      ensures !cancelled ==> Decides(world, old(attempts), attempts, old(auto.flagged), config.upstreams, r)
      ensures old(cancelled) ==> cancelled && attempts == old(attempts)
    {
      ghost var first := auto.flagged;
      var i := 0;
      while i < |flags|
        invariant 0 <= i <= |flags| && In(Entry(i)) && (i > 0 ==> !cancelled)
        invariant old(log) <= log && auto.falls == old(auto.falls)
        invariant auto.flagged == if i <= first then first else i
        invariant attempts - old(attempts) == 3 * (auto.flagged - first) && AllFail(world, old(attempts), attempts)
        invariant old(cancelled) ==> i == 0 && cancelled
        decreases |flags| - i
      {
        var stop := AskStop();
        if stop {
          Record(Abort);
          return AbortedInit;
        }
        if !flags[i] {
          ghost var made := attempts;
          var one := TryEntry(i);
          if !cancelled {
            Chain(world, old(attempts), made, attempts, first, i, config.upstreams, one);
          }
          if !one.NoneLeft? {
            return one;
          }
        }
        i := i + 1;
      }
      r := NoneLeft;
    }

    /** Starting the channel manager or the services can fail. */
    method StartSomething() returns (ok: bool)
      modifies this`starts
      ensures starts == old(starts) + 1 && ok == world.ok(old(starts))
    {
      ok := world.ok(starts);
      starts := starts + 1;
    }

    /** The choice between an upstream session and solo mining. */
    method ChooseUpstream() returns (upstream: Option<nat>)
      requires In(Choose(config)) && (config.solo || config.upstreams > 0)
      modifies this`cancelled, this`polls, this`attempts, this`log, this`auto, this`autos, this`flags
      ensures In(Chosen) && old(log) <= log && auto.falls == old(auto.falls) && old(attempts) <= attempts
      ensures config.solo || cancelled ==> upstream == None
      ensures !config.solo && !cancelled ==>
                Chooses(world, old(attempts), attempts, old(auto.flagged), config.upstreams, upstream)
      ensures old(cancelled) || config.solo ==> attempts == old(attempts)
    {
      upstream := None;
      if config.solo {
        Record(Solo);
      } else {
        var init := InitializeJd();
        if init.Upstream? {
          upstream := Some(init.i);
        } else {
          Record(Solo);
        }
        if !cancelled {
          assert Decides(world, old(attempts), attempts, old(auto.flagged), config.upstreams, init);
        }
      }
    }

    /** `bootstrap_mining`. */
    method BootstrapMining() returns (r: BootResult)
      requires In(Waiting)
      modifies this`cancelled, this`polls, this`attempts, this`starts, this`log, this`auto, this`autos, this`flags
      ensures Valid() && old(log) <= log && auto.falls == old(auto.falls) && old(attempts) <= attempts
      ensures r.Running? ==> In(Mining) && |log| > 0 && log[|log| - 1] == Services(true)
      ensures r.BootFailed? ==> In(Broken) && |log| > 0 && log[|log| - 1] == Failed
      ensures r.BootFailed? <==>
                !world.ok(old(starts)) || (!config.solo && config.upstreams == 0) || !world.ok(old(starts) + 1)
      ensures r.Running? && (config.solo || cancelled) ==> r.upstream == None
      ensures r.Running? && !config.solo && !cancelled ==>
                Chooses(world, old(attempts), attempts, old(auto.flagged), config.upstreams, r.upstream)
      ensures old(cancelled) || config.solo ==> attempts == old(attempts)
    {
      var ok := StartManager();
      if !ok || (!config.solo && config.upstreams == 0) {
        Record(Failed);
        return BootFailed;
      }
      r := ChooseAndStart();
    }

    method ChooseAndStart() returns (r: BootResult)
      requires In(Choose(config)) && (config.solo || config.upstreams > 0)
      modifies this`cancelled, this`polls, this`attempts, this`starts, this`log, this`auto, this`autos, this`flags
      ensures Valid() && old(log) <= log && auto.falls == old(auto.falls) && old(attempts) <= attempts
      ensures r.Running? ==> In(Mining) && |log| > 0 && log[|log| - 1] == Services(true)
      ensures r.BootFailed? ==> In(Broken) && |log| > 0 && log[|log| - 1] == Failed
      ensures r.BootFailed? <==> !world.ok(old(starts))
      ensures r.Running? && (config.solo || cancelled) ==> r.upstream == None
      ensures r.Running? && !config.solo && !cancelled ==>
                Chooses(world, old(attempts), attempts, old(auto.flagged), config.upstreams, r.upstream)
      ensures old(cancelled) || config.solo ==> attempts == old(attempts)
    {
      var upstream := ChooseUpstream();
      var ok := StartServices();
      r := if ok then Running(upstream) else BootFailed;
    }

    /** `bootstrap_channel_manager`. */
    method StartManager() returns (ok: bool)
      requires In(Waiting)
      modifies this`starts, this`log, this`auto, this`autos
      ensures starts == old(starts) + 1 && ok == world.ok(old(starts)) && Valid() && old(log) <= log
      ensures auto == old(auto).(place := if ok then Choose(config) else Failing)
    {
      Record(Boot);
      ok := StartSomething();
      Record(Manager(ok));
    }

    /** `start_services`, after which the client runs or has failed. */
    method StartServices() returns (ok: bool)
      requires In(Chosen)
      modifies this`starts, this`log, this`auto, this`autos
      ensures starts == old(starts) + 1 && ok == world.ok(old(starts)) && Valid() && old(log) <= log
      ensures auto == old(auto).(place := if ok then Mining else Broken)
      ensures |log| > 0 && log[|log| - 1] == if ok then Services(true) else Failed
    {
      ok := StartSomething();
      Record(Services(ok));
      if !ok {
        Record(Failed);
      }
    }

    method MarkStopped()
      requires In(Mining) || In(Broken)
      modifies this`cancelled, this`alive, this`log, this`auto, this`autos
      ensures !alive && cancelled && log == old(log) + [Stopped] && auto == old(auto).(place := Halted) && Valid()
    {
      Record(Stopped);
      alive := false;
      cancelled := true;
    }

    /** `shutdown`: cancels, waits for the tasks and marks the client as stopped. */
    method Shutdown()
      requires In(Mining) || In(Broken)
      modifies this`cancelled, this`alive, this`log, this`auto, this`autos
      ensures !alive && cancelled && log == old(log) + [Stopped] && auto == old(auto).(place := Halted) && Valid()
    {
      cancelled := true;
      MarkStopped();
    }

    /** The client has stopped and `last` is what happened before. */
    ghost predicate StoppedAfter(last: Event)
      reads this
    {
      In(Halted) && !alive && cancelled && |log| > 1 && log[|log| - 2] == last && log[|log| - 1] == Stopped
    }

    /** Before there is anything to bootstrap: the runtime or the template provider is missing. */
    method GiveUp() returns (r: StartResult)
      requires In(Fresh)
      modifies this`cancelled, this`alive, this`log, this`auto, this`autos
      ensures r == ReturnedErr && StoppedAfter(Failed)
    {
      Record(Prepared(false));
      Record(Failed);
      MarkStopped();
      r := ReturnedErr;
    }

    /** Everything there is to start starts, and there is something to mine with. */
    ghost predicate NothingFails() {
      (forall n :: world.ok(n)) && (config.solo || config.upstreams > 0)
    }

    /** The wait events up to the `k`-th were fallback requests, each answered by one fallback. */
    ghost predicate Served(events: seq<WaitEvent>, k: nat)
      reads this
    {
      k <= |events| && ShutdownRequested !in events[..k] && auto.falls == k
    }

    /**
     `start`, driven by what `wait` reports for as long as the list goes on: one fallback for each request,
     up to a shutdown request or a failed bootstrap. Every path that returns has stopped the client.
     */
    method Start(events: seq<WaitEvent>, runtimeOk: bool, templateProviderOk: bool) returns (r: StartResult)
      requires In(Fresh) && auto.falls == 0
      modifies this
      ensures Ok(config, log) && AutoOf(config, log) == auto && FlaggedPrefix(flags, auto.flagged)
      ensures FallBacks(log) == auto.falls
      ensures r.ReturnedErr? ==> StoppedAfter(Failed)
      ensures r.ReturnedOk? ==> StoppedAfter(Services(true))
      ensures r.ReturnedOk? ==> exists k: nat :: Served(events, k) && k < |events| && events[k] == ShutdownRequested
      ensures r.StillRunning? ==> In(Mining) && Served(events, |events|)
      ensures !runtimeOk || !templateProviderOk ==> r.ReturnedErr?
      ensures runtimeOk && templateProviderOk && NothingFails() ==> !r.ReturnedErr?
    {
      r := Run(events, runtimeOk && templateProviderOk);
      TracedIsOk(config, log, autos);
      FallsAreCounted(config, log);
    }

    /** A bootstrap, and the shutdown when it fails. */
    method BootOrStop() returns (ok: bool)
      requires In(Waiting)
      modifies this
      ensures auto.falls == old(auto.falls) && (NothingFails() ==> ok)
      ensures ok ==> In(Mining) && |log| > 0 && log[|log| - 1] == Services(true)
      ensures !ok ==> StoppedAfter(Failed)
    {
      var boot := BootstrapMining();
      ok := boot.Running?;
      if !ok {
        Shutdown();
      }
    }

    method Run(events: seq<WaitEvent>, prepared: bool) returns (r: StartResult)
      requires In(Fresh) && auto.falls == 0
      modifies this
      ensures Valid()
      ensures r.ReturnedErr? ==> StoppedAfter(Failed)
      ensures r.ReturnedOk? ==> StoppedAfter(Services(true))
      ensures r.ReturnedOk? ==> exists k: nat :: Served(events, k) && k < |events| && events[k] == ShutdownRequested
      ensures r.StillRunning? ==> In(Mining) && Served(events, |events|)
      ensures !prepared ==> r.ReturnedErr?
      ensures prepared && NothingFails() ==> !r.ReturnedErr?
    {
      if !prepared {
        r := GiveUp();
        return;
      }
      Record(Prepared(true));
      var ok := BootOrStop();
      if !ok {
        return ReturnedErr;
      }
      r := Serve(events);
    }

    /** The loop of `start`. */
    method Serve(events: seq<WaitEvent>) returns (r: StartResult)
      requires In(Mining) && |log| > 0 && log[|log| - 1] == Services(true) && auto.falls == 0
      modifies this
      ensures Valid()
      ensures r.ReturnedErr? ==> StoppedAfter(Failed)
      ensures r.ReturnedOk? ==> StoppedAfter(Services(true))
      ensures r.ReturnedOk? ==> exists k: nat :: Served(events, k) && k < |events| && events[k] == ShutdownRequested
      ensures r.StillRunning? ==> In(Mining) && Served(events, |events|)
      ensures NothingFails() ==> !r.ReturnedErr?
    {
      var k := 0;
      while k < |events|
        invariant Served(events, k) && In(Mining) && |log| > 0 && log[|log| - 1] == Services(true)
      {
        if events[k].ShutdownRequested? {
          Shutdown();
          assert Served(events, k);
          return ReturnedOk;
        }
        var ok := FallBackOnce();
        if !ok {
          return ReturnedErr;
        }
        k := k + 1;
      }
      r := StillRunning;
    }

    /** `cleanup_for_fallback` and the bootstrap after it. */
    method FallBackOnce() returns (ok: bool)
      requires In(Mining)
      modifies this
      ensures auto.falls == old(auto.falls) + 1 && (NothingFails() ==> ok)
      ensures ok ==> In(Mining) && |log| > 0 && log[|log| - 1] == Services(true)
      ensures !ok ==> StoppedAfter(Failed)
    {
      Record(FallBack);
      ok := BootOrStop();
    }
  }
}
