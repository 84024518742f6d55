/**
 Miner telemetry: matching discovered management interfaces to connected downstreams, and the refresh
 that keeps three shared maps consistent while downstreams come and go at every fetch.
 */
module MinerTelemetry {
  import opened Options

  type Id = nat
  type Ip = nat

  datatype Status = Matched | Unmatched | DuplicateWorkerName | FetchFailed

  datatype Pool = Pool(user: string, port: nat)
  datatype Miner = Miner(ip: Ip, pools: seq<Pool>)
  datatype Worker = Worker(id: Id, name: string)

  // ---------------------------------------------------------------- matching

  /** The miner lists this user on this port. */
  predicate Lists(m: Miner, name: string, port: nat) {
    exists i :: 0 <= i < |m.pools| && m.pools[i].user == name && m.pools[i].port == port
  }

  lemma ListsExactly(m: Miner, name: string, port: nat)
    ensures Lists(m, name, port) <==> Pool(name, port) in m.pools
  {
    if Pool(name, port) in m.pools {
      var i :| 0 <= i < |m.pools| && m.pools[i] == Pool(name, port);
      assert m.pools[i].user == name;
    }
  }

  function Listing(miners: seq<Miner>, name: string, port: nat): seq<Miner> {
    if miners == [] then []
    else
      var rest := Listing(miners[..|miners| - 1], name, port);
      var m := miners[|miners| - 1];
      if Lists(m, name, port) then rest + [m] else rest
  }

  function CountName(workers: seq<Worker>, name: string): nat {
    if workers == [] then 0
    else CountName(workers[..|workers| - 1], name) + if workers[|workers| - 1].name == name then 1 else 0
  }

  /** The outcome for one worker name. */
  function StatusOf(workers: seq<Worker>, miners: seq<Miner>, port: nat, name: string): Status {
    if name == "" then Unmatched
    else if CountName(workers, name) > 1 then DuplicateWorkerName
    else
      var n := |Listing(miners, name, port)|;
      if n == 1 then Matched else if n > 1 then DuplicateWorkerName else Unmatched
  }

  predicate DistinctIds(workers: seq<Worker>) {
    forall i, j :: 0 <= i < j < |workers| ==> workers[i].id != workers[j].id
  }

  datatype Matches = Matches(ips: map<Id, Ip>, statuses: map<Id, Status>)

  function Record(r: Matches, w: Worker, status: Status, listing: seq<Miner>): Matches
    requires status == Matched ==> listing != []
  {
    Matches(if status == Matched then r.ips[w.id := listing[0].ip] else r.ips, r.statuses[w.id := status])
  }

  /** The maps after the workers in `done`, judged against all of them. */
  function MatchesOf(all: seq<Worker>, done: seq<Worker>, miners: seq<Miner>, port: nat): Matches {
    if done == [] then Matches(map[], map[])
    else
      var w := done[|done| - 1];
      Record(MatchesOf(all, done[..|done| - 1], miners, port), w, StatusOf(all, miners, port, w.name),
             Listing(miners, w.name, port))
  }

  /** `match_discovered_miners_to_downstreams_by_worker_and_port`. */
  method MatchMiners(workers: seq<Worker>, miners: seq<Miner>, port: nat) returns (r: Matches)
    ensures r == MatchesOf(workers, workers, miners, port)
  {
    var counts := CountWorkers(workers);
    r := Matches(map[], map[]);
    for k := 0 to |workers|
      invariant r == MatchesOf(workers, workers[..k], miners, port)
    {
      var w := workers[k];
      assert workers[..k + 1][..k] == workers[..k];
      if w.name == "" {
        r := r.(statuses := r.statuses[w.id := Unmatched]);
      } else {
        var listing := Listing(miners, w.name, port);
        if counts[w.name] > 1 {
          r := r.(statuses := r.statuses[w.id := DuplicateWorkerName]);
        } else if |listing| == 1 {
          r := Matches(r.ips[w.id := listing[0].ip], r.statuses[w.id := Matched]);
        } else if |listing| > 1 {
          r := r.(statuses := r.statuses[w.id := DuplicateWorkerName]);
        } else {
          r := r.(statuses := r.statuses[w.id := Unmatched]);
        }
      }
    }
    assert workers[..|workers|] == workers;
  }

  lemma {:induction false} MatchedKeys(all: seq<Worker>, done: seq<Worker>, miners: seq<Miner>, port: nat, d: Id)
    ensures d in MatchesOf(all, done, miners, port).statuses <==> exists i :: 0 <= i < |done| && done[i].id == d
    ensures d in MatchesOf(all, done, miners, port).ips ==> d in MatchesOf(all, done, miners, port).statuses
  {
    if done != [] {
      var n := |done| - 1;
      MatchedKeys(all, done[..n], miners, port, d);
      assert forall i :: 0 <= i < n ==> done[..n][i] == done[i];
    }
  }

  /** Each distinct downstream gets one status, and an address exactly when that status is `Matched`. */
  lemma {:induction false} EachDownstreamJudgedOnce(
    all: seq<Worker>, done: seq<Worker>, miners: seq<Miner>, port: nat, k: nat)
    requires DistinctIds(done) && k < |done|
    ensures var r := MatchesOf(all, done, miners, port); var d := done[k].id;
            && d in r.statuses && r.statuses[d] == StatusOf(all, miners, port, done[k].name)
            && (d in r.ips <==> r.statuses[d] == Matched)
            && (d in r.ips ==> |Listing(miners, done[k].name, port)| == 1
                               && r.ips[d] == Listing(miners, done[k].name, port)[0].ip)
  {
    var n := |done| - 1;
    if k < n {
      EachDownstreamJudgedOnce(all, done[..n], miners, port, k);
    } else {
      MatchedKeys(all, done[..n], miners, port, done[n].id);
    }
  }

  lemma AddressesAreMatched(workers: seq<Worker>, miners: seq<Miner>, port: nat)
    requires DistinctIds(workers)
    ensures var r := MatchesOf(workers, workers, miners, port);
            forall d :: d in r.ips ==> d in r.statuses && r.statuses[d] == Matched
  {
    var r := MatchesOf(workers, workers, miners, port);
    forall d | d in r.ips ensures d in r.statuses && r.statuses[d] == Matched {
      MatchedKeys(workers, workers, miners, port, d);
      var i :| 0 <= i < |workers| && workers[i].id == d;
      EachDownstreamJudgedOnce(workers, workers, miners, port, i);
    }
  }

  method CountWorkers(workers: seq<Worker>) returns (counts: map<string, nat>)
    ensures forall k :: 0 <= k < |workers| && workers[k].name != "" ==>
              workers[k].name in counts && counts[workers[k].name] == CountName(workers, workers[k].name)
  {
    counts := map[];
    for k := 0 to |workers|
      invariant forall name :: name in counts <==> name != "" && CountName(workers[..k], name) > 0
      invariant forall name :: name in counts ==> counts[name] == CountName(workers[..k], name)
    {
      var name := workers[k].name;
      assert workers[..k + 1][..k] == workers[..k];
      if name != "" {
        counts := counts[name := 1 + if name in counts then counts[name] else 0];
      }
    }
    assert workers[..|workers|] == workers;
    forall k | 0 <= k < |workers| ensures CountName(workers, workers[k].name) > 0 {
      CountAtLeast(workers, k);
    }
  }

  lemma {:induction false} CountAtLeast(workers: seq<Worker>, k: nat)
    requires k < |workers|
    ensures CountName(workers, workers[k].name) > 0
  {
    if k < |workers| - 1 {
      CountAtLeast(workers[..|workers| - 1], k);
    }
  }

  lemma {:induction false} CountUnique(workers: seq<Worker>, k: nat)
    requires k < |workers|
    ensures CountName(workers, workers[k].name) == 1
       <==> forall j :: 0 <= j < |workers| && j != k ==> workers[j].name != workers[k].name
  {
    var n := |workers| - 1;
    var init := workers[..n];
    if k < n {
      CountUnique(init, k);
      CountAtLeast(init, k);
      assert forall j :: 0 <= j < n ==> init[j] == workers[j];
    } else if exists j :: 0 <= j < n && init[j].name == workers[k].name {
      var j :| 0 <= j < n && init[j].name == workers[k].name;
      CountAtLeast(init, j);
      assert workers[j].name == workers[k].name;
    } else {
      CountNone(init, workers[k].name);
    }
  }

  lemma {:induction false} CountNone(workers: seq<Worker>, name: string)
    requires forall j :: 0 <= j < |workers| ==> workers[j].name != name
    ensures CountName(workers, name) == 0
  {
    if workers != [] {
      CountNone(workers[..|workers| - 1], name);
    }
  }

  /** Exactly one discovered miner, the one at `j`, lists the user on the port. */
  predicate OnlyLister(miners: seq<Miner>, name: string, port: nat, j: nat) {
    && j < |miners| && Pool(name, port) in miners[j].pools
    && forall i :: 0 <= i < |miners| && i != j ==> Pool(name, port) !in miners[i].pools
  }

  lemma {:induction false} ListingEmpty(miners: seq<Miner>, name: string, port: nat)
    ensures Listing(miners, name, port) == []
       <==> forall i :: 0 <= i < |miners| ==> Pool(name, port) !in miners[i].pools
  {
    if miners != [] {
      var n := |miners| - 1;
      ListsExactly(miners[n], name, port);
      ListingEmpty(miners[..n], name, port);
      assert forall i :: 0 <= i < n ==> miners[..n][i] == miners[i];
    }
  }

  lemma {:induction false} ListingUnique(miners: seq<Miner>, name: string, port: nat)
    ensures |Listing(miners, name, port)| == 1 <==> exists j: nat :: OnlyLister(miners, name, port, j)
    ensures forall j: nat :: OnlyLister(miners, name, port, j) ==> Listing(miners, name, port) == [miners[j]]
  {
    if miners != [] {
      var n := |miners| - 1;
      var init := miners[..n];
      ListsExactly(miners[n], name, port);
      ListingUnique(init, name, port);
      ListingEmpty(init, name, port);
      assert forall i :: 0 <= i < n ==> init[i] == miners[i];
      forall j: nat | OnlyLister(miners, name, port, j) ensures Listing(miners, name, port) == [miners[j]] {
        if j < n {
          assert OnlyLister(init, name, port, j);
        }
      }
      if |Listing(miners, name, port)| == 1 {
        if Lists(miners[n], name, port) {
          assert OnlyLister(miners, name, port, n);
        } else {
          var j: nat :| OnlyLister(init, name, port, j);
          assert OnlyLister(miners, name, port, j);
        }
      }
    }
  }

  /**
   A downstream is matched exactly when it has a worker name, no other active downstream has the same
   one, and exactly one discovered miner lists it on the expected port.
   */
  lemma MatchedExactlyWhenUnique(workers: seq<Worker>, miners: seq<Miner>, port: nat, k: nat)
    requires k < |workers|
    ensures StatusOf(workers, miners, port, workers[k].name) == Matched
       <==> && workers[k].name != ""
            && (forall j :: 0 <= j < |workers| && j != k ==> workers[j].name != workers[k].name)
            && exists j: nat :: OnlyLister(miners, workers[k].name, port, j)
    ensures forall j: nat :: OnlyLister(miners, workers[k].name, port, j) ==>
              Listing(miners, workers[k].name, port) == [miners[j]]
  {
    CountUnique(workers, k);
    CountAtLeast(workers, k);
    ListingUnique(miners, workers[k].name, port);
  }

  /** The other outcomes: `Unmatched` means no name or no miner for a unique one, and nothing fails here. */
  lemma UnmatchedExactlyWhenUnlisted(workers: seq<Worker>, miners: seq<Miner>, port: nat, k: nat)
    requires k < |workers|
    ensures var name := workers[k].name; var status := StatusOf(workers, miners, port, name);
            && (status == Unmatched <==>
                  || name == ""
                  || ((forall j :: 0 <= j < |workers| && j != k ==> workers[j].name != name)
                      && (forall i :: 0 <= i < |miners| ==> Pool(name, port) !in miners[i].pools)))
            && status != FetchFailed
  {
    CountUnique(workers, k);
    CountAtLeast(workers, k);
    ListingEmpty(miners, workers[k].name, port);
  }

  // ---------------------------------------------------------------- refreshing

  /** The three shared maps. */
  datatype Maps<T> = Maps(telemetry: map<Id, T>, ips: map<Id, Ip>, statuses: map<Id, Status>)

  /** Telemetry is only held for a matched downstream with a known address. */
  ghost predicate Consistent<T>(m: Maps<T>) {
    forall d :: d in m.telemetry ==> d in m.ips && d in m.statuses && m.statuses[d] == Matched
  }

  datatype Env = Connect(name: string) | Disconnect(id: Id)

  /** Connected downstreams with their worker names; ids are handed out once. */
  datatype Net = Net(downstream: map<Id, string>, nextId: Id)

  function Connects(events: seq<Env>): nat {
    if events == [] then 0 else Connects(events[..|events| - 1]) + if events[|events| - 1].Connect? then 1 else 0
  }

  /** A new connection takes the next id; a disconnect removes its id. */
  function Happen(net: Net, e: Env): Net {
    match e
    case Connect(name) => Net(net.downstream[net.nextId := name], net.nextId + 1)
    case Disconnect(d) => net.(downstream := net.downstream - {d})
  }

  /** Who is connected after the events: of the old ones those not disconnected, and the new ones likewise. */
  ghost predicate ConnectedAfter(before: Net, events: seq<Env>, after: Net) {
    && after.nextId == before.nextId + Connects(events)
    && (forall d: Id :: d < before.nextId ==>
          (d in after.downstream <==> d in before.downstream && Disconnect(d) !in events))
    && (forall d: Id :: d < before.nextId && d in after.downstream ==> after.downstream[d] == before.downstream[d])
    && (forall d: Id :: before.nextId <= d < after.nextId && Disconnect(d) !in events ==> d in after.downstream)
    && (forall d :: d in after.downstream ==> d < after.nextId)
  }

  lemma ConnectedSnoc(before: Net, events: seq<Env>, mid: Net, e: Env)
    requires ConnectedAfter(before, events, mid)
    ensures ConnectedAfter(before, events + [e], Happen(mid, e))
  {
    ConnectsSnoc(events, e);
  }

  lemma {:induction false} ConnectsSnoc(events: seq<Env>, e: Env)
    ensures Connects(events + [e]) == Connects(events) + if e.Connect? then 1 else 0
  {
    assert (events + [e])[..|events + [e]| - 1] == events;
  }

  function Forget<T>(m: Maps<T>, d: Id): Maps<T> {
    Maps(m.telemetry - {d}, m.ips - {d}, m.statuses - {d})
  }

  function Restrict<V>(m: map<Id, V>, keep: set<Id>): map<Id, V> {
    map d | d in m && d in keep :: m[d]
  }

  /** The synchronous start of a refresh: drop what no longer matches, record every status. */
  function Settled<T>(m: Maps<T>, r: Matches): Maps<T> {
    Maps(Restrict(m.telemetry, r.ips.Keys * r.statuses.Keys),
         Restrict(m.ips, r.ips.Keys * r.statuses.Keys),
         Restrict(m.statuses, r.statuses.Keys) + r.statuses)
  }

  lemma SettledIsConsistent<T>(m: Maps<T>, r: Matches)
    requires Consistent(m) && forall d :: d in r.ips ==> d in r.statuses && r.statuses[d] == Matched
    ensures Consistent(Settled(m, r))
  {
  }

  /** What was known about a downstream that is still matched stays until its new fetch. */
  lemma SettledKeeps<T>(m: Maps<T>, r: Matches, d: Id)
    requires d in r.ips && d in r.statuses
    ensures (d in m.telemetry <==> d in Settled(m, r).telemetry) && (d in m.ips <==> d in Settled(m, r).ips)
    ensures d in m.telemetry ==> Settled(m, r).telemetry[d] == m.telemetry[d]
    ensures d in m.ips ==> Settled(m, r).ips[d] == m.ips[d]
  {
  }

  /** What the fetch for `d` leaves behind when `d` is still connected. */
  ghost predicate FetchRecorded<T>(m: Maps<T>, d: Id, ip: Ip, fetched: Option<T>) {
    && d in m.ips && m.ips[d] == ip && d in m.statuses
    && (fetched.Some? ==> d in m.telemetry && m.telemetry[d] == fetched.value && m.statuses[d] == Matched)
    && (fetched.None? ==> d !in m.telemetry && m.statuses[d] == FetchFailed)
  }

  /** What the matcher left behind for a downstream it could not match. */
  ghost predicate StatusRecorded<T>(m: Maps<T>, d: Id, status: Status) {
    d in m.statuses && m.statuses[d] == status && d !in m.telemetry && d !in m.ips
  }

  /** The three maps say the same about `d`. */
  ghost predicate SameFor<T>(m: Maps<T>, m': Maps<T>, d: Id) {
    && (d in m.telemetry <==> d in m'.telemetry) && (d in m.telemetry ==> m.telemetry[d] == m'.telemetry[d])
    && (d in m.ips <==> d in m'.ips) && (d in m.ips ==> m.ips[d] == m'.ips[d])
    && (d in m.statuses <==> d in m'.statuses) && (d in m.statuses ==> m.statuses[d] == m'.statuses[d])
  }

  /** Nothing is known any more about the old downstreams that the events disconnected. */
  ghost predicate Cleared<T>(m: Maps<T>, bound: Id, events: seq<Env>) {
    forall d: Id :: d < bound && Disconnect(d) in events ==> d !in m.telemetry && d !in m.ips && d !in m.statuses
  }

  lemma ClearedSnoc<T>(m: Maps<T>, bound: Id, events: seq<Env>, e: Env)
    requires Cleared(m, bound, events)
    ensures e.Connect? ==> Cleared(m, bound, events + [e])
    ensures e.Disconnect? ==> Cleared(Forget(m, e.id), bound, events + [e])
  {
  }

  /** Nothing has been added to the maps, and a downstream that has left since has no status any more. */
  ghost predicate OnlyForgets<T>(before: Net, m: Maps<T>, after: Net, m': Maps<T>) {
    && m'.ips.Keys <= m.ips.Keys
    && forall d :: d in m'.statuses ==>
         && d in m.statuses && m'.statuses[d] == m.statuses[d]
         && (d !in after.downstream ==> d !in before.downstream)
  }

  /** A downstream that was there before and still is has kept its entries. */
  ghost predicate KeepsConnected<T>(before: Net, m: Maps<T>, after: Net, m': Maps<T>) {
    forall d :: d in after.downstream && d < before.nextId ==> d in before.downstream && SameFor(m, m', d)
  }

  lemma InterferenceSnoc<T>(before: Net, m: Maps<T>, mid: Net, m': Maps<T>, e: Env)
    requires mid.nextId >= before.nextId
    requires OnlyForgets(before, m, mid, m') && KeepsConnected(before, m, mid, m')
    ensures var last := if e.Disconnect? then Forget(m', e.id) else m';
            OnlyForgets(before, m, Happen(mid, e), last) && KeepsConnected(before, m, Happen(mid, e), last)
  {
  }

  class Telemetry<T> {
    var net: Net
    var maps: Maps<T>

    ghost predicate Valid()
      reads this
    {
      && Consistent(maps) && maps.telemetry.Keys <= net.downstream.Keys
      && forall d :: d in net.downstream ==> d < net.nextId
    }

    constructor ()
      ensures Valid() && net == Net(map[], 0) && maps == Maps(map[], map[], map[])
    {
      net, maps := Net(map[], 0), Maps(map[], map[], map[]);
    }

    /**
     Connections and disconnections while a fetch is awaited; a disconnect clears all three maps. A
     downstream that was there before and still is has kept its entries.
     */
    method Interfere(events: seq<Env>)
      requires Valid()
      modifies this
      ensures Valid() && net.nextId >= old(net.nextId)
      ensures KeepsConnected(old(net), old(maps), net, maps) && OnlyForgets(old(net), old(maps), net, maps)
      ensures ConnectedAfter(old(net), events, net)
      ensures Cleared(maps, old(net.nextId), events)
    {
      for k := 0 to |events|
        invariant Valid() && net.nextId >= old(net.nextId)
        invariant OnlyForgets(old(net), old(maps), net, maps) && KeepsConnected(old(net), old(maps), net, maps)
        invariant ConnectedAfter(old(net), events[..k], net)
        invariant Cleared(maps, old(net.nextId), events[..k])
      {
        ConnectedSnoc(old(net), events[..k], net, events[k]);
        ClearedSnoc(maps, old(net.nextId), events[..k], events[k]);
        InterferenceSnoc(old(net), old(maps), net, maps, events[k]);
        assert events[..k + 1] == events[..k] + [events[k]];
        net := Happen(net, events[k]);
        if events[k].Disconnect? { maps := Forget(maps, events[k].id); }
      }
      assert events[..|events|] == events;
    }

    /**
     What may be left for downstreams that are gone: an address, and the status of a fetch that failed, both
     of downstreams this refresh had matched. The next refresh removes them.
     */
    ghost predicate Leftovers(matched: set<Id>)
      reads this
    {
      && maps.ips.Keys <= matched
      && forall d :: d in maps.statuses && d !in net.downstream ==> d in matched && maps.statuses[d] == FetchFailed
    }

    /** The address goes in and the fetch is awaited, while downstreams come and go. */
    method AwaitFetch(d: Id, ip: Ip, meanwhile: seq<Env>) returns (ghost awaited: Maps<T>)
      requires Valid() && d < net.nextId
      modifies this
      ensures Valid() && net.nextId >= old(net.nextId)
      ensures Consistent(awaited) && d in awaited.ips && awaited.ips[d] == ip
      ensures d in net.downstream ==> d in old(net.downstream) && d in maps.ips && maps.ips[d] == ip
      ensures forall e :: e in net.downstream && e < old(net.nextId) && e != d ==>
                e in old(net.downstream) && SameFor(old(maps), maps, e)
      ensures forall matched :: d in matched && old(Leftovers(matched)) ==> Leftovers(matched)
    {
      maps := maps.(ips := maps.ips[d := ip]);
      awaited := maps;
      Interfere(meanwhile);
      assert d in net.downstream ==> SameFor(awaited, maps, d);
    }

    /** One turn of the fetching loop: after the await the outcome is recorded. */
    method FetchOne(d: Id, ip: Ip, fetched: Option<T>, meanwhile: seq<Env>) returns (ghost awaited: Maps<T>)
      requires Valid() && d < net.nextId
      modifies this
      ensures Valid() && net.nextId >= old(net.nextId) && Consistent(awaited)
      ensures d in net.downstream ==> FetchRecorded(maps, d, ip, fetched)
      ensures forall e :: e in net.downstream && e < old(net.nextId) && e != d ==>
                e in old(net.downstream) && SameFor(old(maps), maps, e)
      ensures d in net.downstream ==> d in old(net.downstream)
      ensures forall matched :: d in matched && old(Leftovers(matched)) ==> Leftovers(matched)
    {
      awaited := AwaitFetch(d, ip, meanwhile);
      match fetched
      case Some(t) =>
        if d in net.downstream {
          maps := maps.(telemetry := maps.telemetry[d := t], statuses := maps.statuses[d := Matched]);
        }
      case None =>
        maps := maps.(telemetry := maps.telemetry - {d}, statuses := maps.statuses[d := FetchFailed]);
    }

    /** What is known about the downstreams judged by this refresh that are still connected. */
    ghost predicate Recorded(r: Matches, fetch: Id -> Option<T>, todo: set<Id>)
      reads this
    {
      forall d :: d in net.downstream && d in r.statuses ==>
        if d !in r.ips then StatusRecorded(maps, d, r.statuses[d])
        else d !in todo ==> FetchRecorded(maps, d, r.ips[d], fetch(d))
    }

    /** Dropped while waiting for one of `todo`: its address is written, the outcomes before it are recorded. */
    ghost predicate DroppedAt(r: Matches, fetch: Id -> Option<T>, todo: set<Id>, budget: nat)
      reads this
    {
      && todo <= r.ips.Keys && |todo| + budget == |r.ips.Keys| && Recorded(r, fetch, todo)
      && exists d :: d in todo && (d in net.downstream ==> d in maps.ips && maps.ips[d] == r.ips[d])
    }

    /** The fetching loop; after `budget` fetches the future is dropped at the next await, if there is one. */
    method FetchAll(r: Matches, fetch: Id -> Option<T>, meanwhile: Id -> seq<Env>, budget: nat)
      returns (completed: bool, ghost awaits: seq<Maps<T>>)
      requires Valid() && Recorded(r, fetch, r.ips.Keys)
      requires forall d :: d in r.statuses ==> d < net.nextId
      requires r.ips.Keys <= r.statuses.Keys && Leftovers(r.ips.Keys)
      modifies this
      ensures Leftovers(r.ips.Keys)
      ensures Valid() && forall m :: m in awaits ==> Consistent(m)
      ensures completed <==> |r.ips.Keys| <= budget
      ensures completed ==> Recorded(r, fetch, {})
      ensures !completed ==> exists todo :: DroppedAt(r, fetch, todo, budget)
    {
      awaits := [];
      var todo := r.ips.Keys;
      var fetches := 0;
      while todo != {} && fetches < budget
        invariant Valid() && net.nextId >= old(net.nextId) && todo <= r.ips.Keys
        invariant forall m :: m in awaits ==> Consistent(m)
        invariant Recorded(r, fetch, todo) && Leftovers(r.ips.Keys)
        invariant fetches <= budget && fetches + |todo| == |r.ips.Keys|
        decreases |todo|
      {
        var d :| d in todo;
        ghost var awaited := FetchOne(d, r.ips[d], fetch(d), meanwhile(d));
        awaits := awaits + [awaited];
        todo := todo - {d};
        fetches := fetches + 1;
      }
      completed := todo == {};
      if !completed {
        var d :| d in todo;
        ghost var awaited := AwaitFetch(d, r.ips[d], meanwhile(d));
        awaits := awaits + [awaited];
        assert DroppedAt(r, fetch, todo, budget);
      }
    }

    /**
     `refresh_miner_telemetry` over the downstreams connected now. `fetch` and `meanwhile` say what
     each fetch returns and what happens while it is awaited. The maps are consistent at every await
     and at the end. A refresh that runs to its end has recorded its outcome for every downstream that
     stayed connected; one that is dropped at an await has done so for those fetched before, and has
     already written the address it was waiting for.
     */
    method Refresh(workers: seq<Worker>, miners: seq<Miner>, port: nat,
                   fetch: Id -> Option<T>, meanwhile: Id -> seq<Env>, budget: nat)
      returns (completed: bool, ghost awaits: seq<Maps<T>>)
      requires Valid() && DistinctIds(workers)
      requires forall k :: 0 <= k < |workers| ==> workers[k].id in net.downstream
      modifies this
      ensures Valid() && forall m :: m in awaits ==> Consistent(m)
      ensures Leftovers(MatchesOf(workers, workers, miners, port).ips.Keys)
      ensures completed <==> |MatchesOf(workers, workers, miners, port).ips.Keys| <= budget
      ensures completed ==> Recorded(MatchesOf(workers, workers, miners, port), fetch, {})
      ensures !completed ==> exists todo :: DroppedAt(MatchesOf(workers, workers, miners, port), fetch, todo, budget)
    {
      var r := MatchMiners(workers, miners, port);
      AddressesAreMatched(workers, miners, port);
      forall d | d in r.statuses ensures d in net.downstream {
        MatchedKeys(workers, workers, miners, port, d);
      }
      SettledIsConsistent(maps, r);
      maps := Settled(maps, r);
      completed, awaits := FetchAll(r, fetch, meanwhile, budget);
    }
  }
}
