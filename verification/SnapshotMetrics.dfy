/**
 Prometheus label bookkeeping of the snapshot cache: gauge series are set from each snapshot and only
 the labels that disappeared are removed, so there is never a reset. The model follows one side of the
 metrics (server or clients); both run the same code over their flattened channel list.
 */
module SnapshotMetrics {
  import opened Options

  /**
   One published channel: its label values, its accepted count, the rejection label values seeded
   with 0, the observed rejection counts by label values, and its hashrate if known.
   */
  datatype Row<L, K> = Row(labels: L, accepted: int, seeds: seq<K>, counts: map<K, int>, hashrate: Option<int>)

  // ---------------------------------------------------------------- what the gauges should hold

  function Zeros<K>(keys: seq<K>): map<K, int> {
    if keys == [] then map[] else Zeros(keys[..|keys| - 1])[keys[|keys| - 1] := 0]
  }

  /** The series of a snapshot, later rows overwriting earlier ones. */
  function AcceptedOf<L, K>(rows: seq<Row<L, K>>): map<L, int> {
    if rows == [] then map[]
    else AcceptedOf(rows[..|rows| - 1])[rows[|rows| - 1].labels := rows[|rows| - 1].accepted]
  }

  function RejectedOf<L, K>(rows: seq<Row<L, K>>): map<K, int> {
    if rows == [] then map[]
    else RejectedOf(rows[..|rows| - 1]) + Zeros(rows[|rows| - 1].seeds) + rows[|rows| - 1].counts
  }

  function HashrateOf<L, K>(rows: seq<Row<L, K>>): map<L, int> {
    if rows == [] then map[]
    else
      var m := HashrateOf(rows[..|rows| - 1]);
      var row := rows[|rows| - 1];
      if row.hashrate.Some? then m[row.labels := row.hashrate.value] else m
  }

  function LabelSet<L, K>(rows: seq<Row<L, K>>): set<L> {
    if rows == [] then {} else LabelSet(rows[..|rows| - 1]) + {rows[|rows| - 1].labels}
  }

  /** The labels of the entries that are 0. */
  function ZeroKeys<K>(values: map<K, int>): set<K> {
    set k | k in values && values[k] == 0
  }

  /** The rejected series that are set to 0 at some point of an update. */
  function ZeroedBy<L, K>(rows: seq<Row<L, K>>): set<K> {
    if rows == [] then {}
    else
      var row := rows[|rows| - 1];
      ZeroedBy(rows[..|rows| - 1]) + Zeros(row.seeds).Keys + ZeroKeys(row.counts)
  }

  /** Exactly every known code of a channel, whatever its count, and a reason observed 0 times. */
  lemma {:induction false} ZeroedExactly<L, K>(rows: seq<Row<L, K>>, k: K)
    ensures k in ZeroedBy(rows)
       <==> exists i :: 0 <= i < |rows| && IsZeroed(rows[i], k)
  {
    if rows != [] {
      var n := |rows| - 1;
      ZeroedExactly(rows[..n], k);
      ZerosAt(rows[n].seeds, k);
      if k in ZeroedBy(rows[..n]) {
        var i :| 0 <= i < n && IsZeroed(rows[..n][i], k);
        assert IsZeroed(rows[i], k);
      }
      if exists i :: 0 <= i < |rows| && IsZeroed(rows[i], k) {
        var i :| 0 <= i < |rows| && IsZeroed(rows[i], k);
        assert i < n ==> IsZeroed(rows[..n][i], k);
      }
    }
  }

  predicate IsZeroed<L, K(==)>(row: Row<L, K>, k: K) {
    k in row.seeds || (k in row.counts && row.counts[k] == 0)
  }

  /** The hashrate series after an update: current ones, and old ones of labels that are still there. */
  function HashrateAfter<L, K>(before: map<L, int>, rows: seq<Row<L, K>>): map<L, int> {
    before + HashrateOf(rows) - (before.Keys - LabelSet(rows))
  }

  function HashrateOver<L, K>(before: map<L, int>, snapshots: seq<seq<Row<L, K>>>): map<L, int> {
    if snapshots == [] then before
    else HashrateAfter(HashrateOver(before, snapshots[..|snapshots| - 1]), snapshots[|snapshots| - 1])
  }

  lemma HashrateMeans<L, K>(before: map<L, int>, rows: seq<Row<L, K>>, l: L)
    ensures var after := HashrateAfter(before, rows);
            && (l in after <==> l in HashrateOf(rows) || (l in before && l in LabelSet(rows)))
            && (l in after ==> after[l] == if l in HashrateOf(rows) then HashrateOf(rows)[l] else before[l])
  {
    PublishedLabels(rows);
  }

  lemma {:induction false} ZerosAt<K>(keys: seq<K>, k: K)
    ensures k in Zeros(keys) <==> k in keys
    ensures k in keys ==> Zeros(keys)[k] == 0
  {
    if keys != [] {
      ZerosAt(keys[..|keys| - 1], k);
    }
  }

  lemma {:induction false} PublishedLabels<L, K>(rows: seq<Row<L, K>>)
    ensures AcceptedOf(rows).Keys == LabelSet(rows)
    ensures HashrateOf(rows).Keys <= LabelSet(rows)
  {
    if rows != [] {
      PublishedLabels(rows[..|rows| - 1]);
    }
  }

  predicate HasKey<L, K(==)>(row: Row<L, K>, k: K) {
    k in row.seeds || k in row.counts
  }

  /** A rejected series exists exactly when some channel has it as a spec code or an observed reason. */
  lemma {:induction false} RejectedKeys<L, K>(rows: seq<Row<L, K>>, k: K)
    ensures k in RejectedOf(rows) <==> exists i :: 0 <= i < |rows| && HasKey(rows[i], k)
  {
    if rows != [] {
      var n := |rows| - 1;
      RejectedKeys(rows[..n], k);
      ZerosAt(rows[n].seeds, k);
      if k in RejectedOf(rows[..n]) {
        var i :| 0 <= i < n && HasKey(rows[..n][i], k);
        assert HasKey(rows[i], k);
      }
      if exists i :: 0 <= i < |rows| && HasKey(rows[i], k) {
        var i :| 0 <= i < |rows| && HasKey(rows[i], k);
        assert i < n ==> HasKey(rows[..n][i], k);
      }
    }
  }

  /** What a channel wants a rejected series of its own to say: its count, or 0 for a code it has not observed. */
  function RejectedValue<L, K(==)>(row: Row<L, K>, k: K): int {
    if k in row.counts then row.counts[k] else 0
  }

  /** A series belongs to the last channel that has it. */
  lemma {:induction false} LastRejectedWins<L, K>(rows: seq<Row<L, K>>, k: K) returns (i: nat)
    requires k in RejectedOf(rows)
    ensures i < |rows| && HasKey(rows[i], k) && (forall j :: i < j < |rows| ==> !HasKey(rows[j], k))
    ensures RejectedOf(rows)[k] == RejectedValue(rows[i], k)
  {
    var n := |rows| - 1;
    ZerosAt(rows[n].seeds, k);
    if HasKey(rows[n], k) {
      i := n;
    } else {
      i := LastRejectedWins(rows[..n], k);
      assert forall j :: i < j < n ==> rows[..n][j] == rows[j];
    }
  }

  lemma {:induction false} LastAcceptedWins<L, K>(rows: seq<Row<L, K>>, l: L) returns (i: nat)
    requires l in AcceptedOf(rows)
    ensures i < |rows| && rows[i].labels == l && (forall j :: i < j < |rows| ==> rows[j].labels != l)
    ensures AcceptedOf(rows)[l] == rows[i].accepted
  {
    var n := |rows| - 1;
    if rows[n].labels == l {
      i := n;
    } else {
      i := LastAcceptedWins(rows[..n], l);
      assert forall j :: i < j < n ==> rows[..n][j] == rows[j];
    }
  }

  /** A hashrate series belongs to the last channel with these labels that knows its hashrate. */
  lemma {:induction false} LastHashrateWins<L, K>(rows: seq<Row<L, K>>, l: L) returns (i: nat)
    requires l in HashrateOf(rows)
    ensures i < |rows| && rows[i].labels == l && rows[i].hashrate == Some(HashrateOf(rows)[l])
    ensures forall j :: i < j < |rows| ==> rows[j].labels != l || rows[j].hashrate.None?
  {
    var n := |rows| - 1;
    if rows[n].labels == l && rows[n].hashrate.Some? {
      i := n;
    } else {
      i := LastHashrateWins(rows[..n], l);
      assert forall j :: i < j < n ==> rows[..n][j] == rows[j];
    }
  }

  lemma {:induction false} HashrateListed<L, K>(rows: seq<Row<L, K>>, i: nat)
    requires i < |rows| && rows[i].hashrate.Some?
    ensures rows[i].labels in HashrateOf(rows)
  {
    if i < |rows| - 1 {
      HashrateListed(rows[..|rows| - 1], i);
    }
  }

  /** Every channel finds its own values under its own labels. */
  ghost predicate AcceptedShown<L(!new), K(!new)>(rows: seq<Row<L, K>>) {
    forall i :: 0 <= i < |rows| ==>
      rows[i].labels in AcceptedOf(rows) && AcceptedOf(rows)[rows[i].labels] == rows[i].accepted
  }

  ghost predicate RejectedShown<L, K(!new)>(rows: seq<Row<L, K>>) {
    forall i, k :: 0 <= i < |rows| && HasKey(rows[i], k) ==>
      k in RejectedOf(rows) && RejectedOf(rows)[k] == RejectedValue(rows[i], k)
  }

  /** Channels that share a series want it to say the same. */
  ghost predicate AcceptedAgree<L(!new), K(!new)>(rows: seq<Row<L, K>>) {
    forall i, j :: 0 <= i < j < |rows| && rows[i].labels == rows[j].labels ==> rows[i].accepted == rows[j].accepted
  }

  ghost predicate RejectedAgree<L, K(!new)>(rows: seq<Row<L, K>>) {
    forall i, j, k :: 0 <= i < j < |rows| && HasKey(rows[i], k) && HasKey(rows[j], k) ==>
      RejectedValue(rows[i], k) == RejectedValue(rows[j], k)
  }

  lemma AcceptedShownExactly<L(!new), K(!new)>(rows: seq<Row<L, K>>)
    ensures AcceptedShown(rows) <==> AcceptedAgree(rows)
  {
    PublishedLabels(rows);
    forall i | 0 <= i < |rows| && AcceptedAgree(rows)
      ensures rows[i].labels in AcceptedOf(rows) && AcceptedOf(rows)[rows[i].labels] == rows[i].accepted
    {
      LabelListed(rows, i);
      var last := LastAcceptedWins(rows, rows[i].labels);
    }
  }

  lemma {:induction false} LabelListed<L, K>(rows: seq<Row<L, K>>, i: nat)
    requires i < |rows|
    ensures rows[i].labels in LabelSet(rows)
  {
    if i < |rows| - 1 {
      LabelListed(rows[..|rows| - 1], i);
    }
  }

  lemma RejectedShownExactly<L, K(!new)>(rows: seq<Row<L, K>>)
    ensures RejectedShown(rows) <==> RejectedAgree(rows)
  {
    forall i, k | 0 <= i < |rows| && HasKey(rows[i], k) && RejectedAgree(rows)
      ensures k in RejectedOf(rows) && RejectedOf(rows)[k] == RejectedValue(rows[i], k)
    {
      RejectedKeys(rows, k);
      var last := LastRejectedWins(rows, k);
    }
    if RejectedShown(rows) {
      forall i, j, k | 0 <= i < j < |rows| && HasKey(rows[i], k) && HasKey(rows[j], k)
        ensures RejectedValue(rows[i], k) == RejectedValue(rows[j], k)
      {
        assert RejectedOf(rows)[k] == RejectedValue(rows[i], k);
      }
    }
  }

  // ---------------------------------------------------------------- the rows of a snapshot

  type Labels = seq<string>

  datatype Channel =
    Channel(channelId: string, user: string, accepted: nat, rejected: map<string, nat>, hashrate: Option<int>)
  datatype ServerInfo = ServerInfo(extended: seq<Channel>, standard: seq<Channel>)
  datatype Client = Client(clientId: string, extended: seq<Channel>, standard: seq<Channel>)

  /** A channel as `update_metrics` comes to it, with the label values in front of its own. */
  datatype Visit = Visit(prefix: Labels, channel: Channel)

  function LabelsOf(v: Visit): Labels {
    v.prefix + [v.channel.channelId, v.channel.user]
  }

  function Visits(prefix: Labels, channels: seq<Channel>): seq<Visit> {
    seq(|channels|, i requires 0 <= i < |channels| => Visit(prefix, channels[i]))
  }

  /** The server section visits extended channels, then standard ones; no server source gives nothing. */
  function ServerVisits(info: Option<ServerInfo>): seq<Visit> {
    if info.None? then [] else Visits([], info.value.extended) + Visits([], info.value.standard)
  }

  function ClientVisits(clients: seq<Client>): seq<Visit> {
    if clients == [] then []
    else
      var c := clients[|clients| - 1];
      ClientVisits(clients[..|clients| - 1]) + (Visits([c.clientId], c.extended) + Visits([c.clientId], c.standard))
  }

  function RowOf(codes: seq<string>, v: Visit): Row<Labels, Labels> {
    var labels := LabelsOf(v);
    var keys := set r | r in v.channel.rejected :: labels + [r];
    Row(labels, v.channel.accepted, seq(|codes|, i requires 0 <= i < |codes| => labels + [codes[i]]),
        map k | k in keys :: v.channel.rejected[k[|labels|]], v.channel.hashrate)
  }

  function Rows(codes: seq<string>, visits: seq<Visit>): seq<Row<Labels, Labels>> {
    seq(|visits|, i requires 0 <= i < |visits| => RowOf(codes, visits[i]))
  }

  /** The channel's labels followed by a known code or a reason it observed. */
  predicate Belongs(codes: seq<string>, v: Visit, k: Labels) {
    k != [] && k[..|k| - 1] == LabelsOf(v) && HasReason(codes, v.channel, k[|k| - 1])
  }

  /** Rejection labels are the channel's labels and a reason that is a known code or was observed. */
  lemma RowKeys(codes: seq<string>, v: Visit, k: Labels)
    ensures HasKey(RowOf(codes, v), k) <==> Belongs(codes, v, k)
  {
    var row, labels := RowOf(codes, v), LabelsOf(v);
    if k in row.seeds {
      var i :| 0 <= i < |codes| && row.seeds[i] == k;
      assert k == labels + [codes[i]];
    }
    if k != [] && k[..|k| - 1] == labels {
      assert k == labels + [k[|k| - 1]];
      if k[|k| - 1] in codes {
        var i :| 0 <= i < |codes| && codes[i] == k[|k| - 1];
        assert row.seeds[i] == k;
      }
    }
  }

  lemma RowCounts(codes: seq<string>, v: Visit, reason: string)
    ensures LabelsOf(v) + [reason] in RowOf(codes, v).counts <==> reason in v.channel.rejected
    ensures reason in v.channel.rejected ==>
              RowOf(codes, v).counts[LabelsOf(v) + [reason]] == v.channel.rejected[reason]
  {
    var labels := LabelsOf(v);
    if labels + [reason] in RowOf(codes, v).counts {
      var r :| r in v.channel.rejected && labels + [r] == labels + [reason];
      assert (labels + [r])[|labels|] == (labels + [reason])[|labels|];
    }
  }

  predicate HasReason(codes: seq<string>, c: Channel, reason: string) {
    reason in codes || reason in c.rejected
  }

  function CountOf(c: Channel, reason: string): int {
    if reason in c.rejected then c.rejected[reason] else 0
  }

  /** Every channel finds its accepted count and, for each code or reason of its own, its count or 0. */
  ghost predicate ChannelsShown(codes: seq<string>, visits: seq<Visit>) {
    var rows := Rows(codes, visits);
    && (forall i :: 0 <= i < |visits| ==>
          LabelsOf(visits[i]) in AcceptedOf(rows)
          && AcceptedOf(rows)[LabelsOf(visits[i])] == visits[i].channel.accepted)
    && (forall i, reason :: 0 <= i < |visits| && HasReason(codes, visits[i].channel, reason) ==>
          LabelsOf(visits[i]) + [reason] in RejectedOf(rows)
          && RejectedOf(rows)[LabelsOf(visits[i]) + [reason]] == CountOf(visits[i].channel, reason))
  }

  /** Channels with the same labels have the same accepted count and agree on the reasons both have. */
  ghost predicate ChannelsAgree(codes: seq<string>, visits: seq<Visit>) {
    forall i, j :: 0 <= i < j < |visits| && LabelsOf(visits[i]) == LabelsOf(visits[j]) ==>
      Agree(codes, visits[i].channel, visits[j].channel)
  }

  ghost predicate Agree(codes: seq<string>, c: Channel, d: Channel) {
    && c.accepted == d.accepted
    && forall reason :: HasReason(codes, c, reason) && HasReason(codes, d, reason) ==>
         CountOf(c, reason) == CountOf(d, reason)
  }

  /** A rejected series of a row, in terms of its channel. */
  lemma RowMeans(codes: seq<string>, v: Visit, reason: string)
    ensures HasKey(RowOf(codes, v), LabelsOf(v) + [reason]) <==> HasReason(codes, v.channel, reason)
    ensures RejectedValue(RowOf(codes, v), LabelsOf(v) + [reason]) == CountOf(v.channel, reason)
  {
    var k := LabelsOf(v) + [reason];
    assert k[..|k| - 1] == LabelsOf(v);
    RowKeys(codes, v, k);
    RowCounts(codes, v, reason);
  }

  lemma KeyIsReason(codes: seq<string>, v: Visit, k: Labels) returns (reason: string)
    requires HasKey(RowOf(codes, v), k)
    ensures k == LabelsOf(v) + [reason]
  {
    RowKeys(codes, v, k);
    reason := k[|k| - 1];
  }

  lemma AgreeingRows(codes: seq<string>, visits: seq<Visit>)
    requires ChannelsAgree(codes, visits)
    ensures AcceptedAgree(Rows(codes, visits)) && RejectedAgree(Rows(codes, visits))
  {
    var rows := Rows(codes, visits);
    forall i, j, k | 0 <= i < j < |rows| && HasKey(rows[i], k) && HasKey(rows[j], k)
      ensures RejectedValue(rows[i], k) == RejectedValue(rows[j], k)
    {
      var reason := KeyIsReason(codes, visits[i], k);
      var reason' := KeyIsReason(codes, visits[j], k);
      assert k[..|k| - 1] == LabelsOf(visits[i]) == LabelsOf(visits[j]) && k[|k| - 1] == reason == reason';
      RowMeans(codes, visits[i], reason);
      RowMeans(codes, visits[j], reason);
      assert Agree(codes, visits[i].channel, visits[j].channel);
    }
    forall i, j | 0 <= i < j < |rows| && rows[i].labels == rows[j].labels ensures rows[i].accepted == rows[j].accepted {
      assert Agree(codes, visits[i].channel, visits[j].channel);
    }
  }

  /**
   The series say what the channels say if and only if channels with equal label values agree. In
   particular they do when no two channels share their labels.
   */
  lemma ChannelsShownExactly(codes: seq<string>, visits: seq<Visit>)
    ensures ChannelsShown(codes, visits) <==> ChannelsAgree(codes, visits)
  {
    if ChannelsAgree(codes, visits) {
      AgreementShows(codes, visits);
    }
    if ChannelsShown(codes, visits) {
      forall i, j | 0 <= i < j < |visits| && LabelsOf(visits[i]) == LabelsOf(visits[j])
        ensures Agree(codes, visits[i].channel, visits[j].channel)
      {
        ShownTwice(codes, visits, i, j);
      }
    }
  }

  lemma AgreementShows(codes: seq<string>, visits: seq<Visit>)
    requires ChannelsAgree(codes, visits)
    ensures ChannelsShown(codes, visits)
  {
    var rows := Rows(codes, visits);
    AgreeingRows(codes, visits);
    AcceptedShownExactly(rows);
    RejectedShownExactly(rows);
    forall i | 0 <= i < |visits|
      ensures LabelsOf(visits[i]) in AcceptedOf(rows)
           && AcceptedOf(rows)[LabelsOf(visits[i])] == visits[i].channel.accepted
    {
      assert rows[i].labels == LabelsOf(visits[i]);
    }
    forall i, reason | 0 <= i < |visits| && HasReason(codes, visits[i].channel, reason)
      ensures LabelsOf(visits[i]) + [reason] in RejectedOf(rows)
           && RejectedOf(rows)[LabelsOf(visits[i]) + [reason]] == CountOf(visits[i].channel, reason)
    {
      RowMeans(codes, visits[i], reason);
      assert HasKey(rows[i], LabelsOf(visits[i]) + [reason]);
    }
  }

  lemma ShownTwice(codes: seq<string>, visits: seq<Visit>, i: nat, j: nat)
    requires ChannelsShown(codes, visits) && i < |visits| && j < |visits| && LabelsOf(visits[i]) == LabelsOf(visits[j])
    ensures Agree(codes, visits[i].channel, visits[j].channel)
  {
    var rows, l := Rows(codes, visits), LabelsOf(visits[i]);
    assert AcceptedOf(rows)[l] == visits[i].channel.accepted == visits[j].channel.accepted;
    forall reason | HasReason(codes, visits[i].channel, reason) && HasReason(codes, visits[j].channel, reason)
      ensures CountOf(visits[i].channel, reason) == CountOf(visits[j].channel, reason)
    {
      assert RejectedOf(rows)[l + [reason]] == CountOf(visits[i].channel, reason);
      assert RejectedOf(rows)[LabelsOf(visits[j]) + [reason]] == CountOf(visits[j].channel, reason);
    }
  }

  ghost predicate DistinctLabels(visits: seq<Visit>) {
    forall i, j :: 0 <= i < j < |visits| ==> LabelsOf(visits[i]) != LabelsOf(visits[j])
  }

  /** For channels with distinct labels the series are those of the channels. */
  lemma SeriesOfChannel(codes: seq<string>, visits: seq<Visit>, i: nat, reason: string)
    requires DistinctLabels(visits) && i < |visits|
    ensures var rows := Rows(codes, visits); var labels := LabelsOf(visits[i]); var c := visits[i].channel;
            && labels in AcceptedOf(rows) && AcceptedOf(rows)[labels] == c.accepted
            && (HasReason(codes, c, reason) ==>
                  labels + [reason] in RejectedOf(rows) && RejectedOf(rows)[labels + [reason]] == CountOf(c, reason))
  {
    AgreementShows(codes, visits);
  }

  /**
   Two channels that share their labels and do not agree: the zero of the second, for a known code that
   only the first has observed, is what the series shows.
   */
  lemma SharedLabelsHideCounts(codes: seq<string>, prefix: Labels, id: string, user: string, code: string, count: nat)
    requires code in codes && count > 0
    ensures var first := Channel(id, user, 0, map[code := count], None);
            var second := Channel(id, user, 0, map[], None);
            var visits := [Visit(prefix, first), Visit(prefix, second)];
            && !ChannelsShown(codes, visits)
            && LabelsOf(visits[0]) + [code] in RejectedOf(Rows(codes, visits))
            && RejectedOf(Rows(codes, visits))[LabelsOf(visits[0]) + [code]] == 0
  {
    var first, second := Channel(id, user, 0, map[code := count], None), Channel(id, user, 0, map[], None);
    var visits := [Visit(prefix, first), Visit(prefix, second)];
    var rows, k := Rows(codes, visits), LabelsOf(visits[1]) + [code];
    assert LabelsOf(visits[0]) == LabelsOf(visits[1]);
    RowMeans(codes, visits[1], code);
    assert HasKey(rows[1], k);
    RejectedKeys(rows, k);
    var last := LastRejectedWins(rows, k);
    assert last == 1;
    assert HasReason(codes, visits[0].channel, code) && CountOf(visits[0].channel, code) == count;
  }

  /** A channel finds its hashrate when the channels with its labels that know theirs have the same one. */
  lemma HashrateOfChannel(codes: seq<string>, visits: seq<Visit>, i: nat)
    requires i < |visits| && visits[i].channel.hashrate.Some?
    requires forall j :: 0 <= j < |visits| && LabelsOf(visits[j]) == LabelsOf(visits[i]) ==>
               visits[j].channel.hashrate.None? || visits[j].channel.hashrate == visits[i].channel.hashrate
    ensures var rates := HashrateOf(Rows(codes, visits));
            LabelsOf(visits[i]) in rates && Some(rates[LabelsOf(visits[i])]) == visits[i].channel.hashrate
  {
    var rows := Rows(codes, visits);
    assert rows[i] == RowOf(codes, visits[i]);
    HashrateListed(rows, i);
    var last := LastHashrateWins(rows, LabelsOf(visits[i]));
    assert rows[last] == RowOf(codes, visits[last]);
  }

  // ---------------------------------------------------------------- in terms of the snapshot itself

  predicate ServerChannel(info: Option<ServerInfo>, c: Channel) {
    info.Some? && (c in info.value.extended || c in info.value.standard)
  }

  predicate ClientChannel(client: Client, c: Channel) {
    c in client.extended || c in client.standard
  }

  lemma VisitsAre(prefix: Labels, channels: seq<Channel>, v: Visit)
    ensures v in Visits(prefix, channels) <==> v.prefix == prefix && v.channel in channels
  {
    if v.prefix == prefix && v.channel in channels {
      var i :| 0 <= i < |channels| && channels[i] == v.channel;
      assert Visits(prefix, channels)[i] == v;
    }
  }

  /** Exactly the server's extended and standard channels are visited, under their own labels, in that order. */
  lemma ServerVisited(info: Option<ServerInfo>, v: Visit)
    ensures v in ServerVisits(info) <==> v.prefix == [] && ServerChannel(info, v.channel)
    ensures info.Some? ==>
              var n := |info.value.extended|;
              && |ServerVisits(info)| == n + |info.value.standard|
              && (forall i :: 0 <= i < n ==> ServerVisits(info)[i] == Visit([], info.value.extended[i]))
              && (forall i :: n <= i < n + |info.value.standard| ==>
                    ServerVisits(info)[i] == Visit([], info.value.standard[i - n]))
  {
    if info.Some? {
      VisitsAre([], info.value.extended, v);
      VisitsAre([], info.value.standard, v);
    }
  }

  /** Exactly the clients' channels are visited, each with its client's id in front. */
  lemma {:induction false} ClientVisited(clients: seq<Client>, v: Visit)
    ensures v in ClientVisits(clients)
       <==> exists a :: a in clients && v.prefix == [a.clientId] && ClientChannel(a, v.channel)
  {
    if clients != [] {
      var n := |clients| - 1;
      var c := clients[n];
      ClientVisited(clients[..n], v);
      VisitsAre([c.clientId], c.extended, v);
      VisitsAre([c.clientId], c.standard, v);
      assert clients == clients[..n] + [c];
    }
  }

  /** A client's channels come after those of the clients before it, extended ones first. */
  lemma {:induction false} ClientOrder(clients: seq<Client>, k: nat)
    requires k < |clients|
    ensures var n := |ClientVisits(clients[..k])|; var c := clients[k];
            var all := Visits([c.clientId], c.extended) + Visits([c.clientId], c.standard);
            n + |all| <= |ClientVisits(clients)| && ClientVisits(clients)[n..n + |all|] == all
  {
    var last := |clients| - 1;
    if k < last {
      ClientOrder(clients[..last], k);
      assert clients[..last][..k] == clients[..k];
      assert ClientVisits(clients[..last]) <= ClientVisits(clients);
      SliceOfPrefix(ClientVisits(clients[..last]), ClientVisits(clients), |ClientVisits(clients[..k])|);
    }
  }

  lemma SliceOfPrefix<T>(s: seq<T>, t: seq<T>, n: nat)
    requires s <= t && n <= |s|
    ensures forall m :: n <= m <= |s| ==> t[n..m] == s[n..m]
  {
  }

  /** The gauges show this channel under these labels. */
  ghost predicate ShowsChannel(accepted: map<Labels, int>, rejected: map<Labels, int>, codes: seq<string>,
                               l: Labels, c: Channel) {
    && l in accepted && accepted[l] == c.accepted
    && forall reason :: HasReason(codes, c, reason) ==>
         l + [reason] in rejected && rejected[l + [reason]] == CountOf(c, reason)
  }

  /** Server channels with the same id and user agree. */
  ghost predicate ServerAgrees(codes: seq<string>, info: Option<ServerInfo>) {
    forall c, d ::
      (ServerChannel(info, c) && ServerChannel(info, d) && c.channelId == d.channelId && c.user == d.user) ==>
        Agree(codes, c, d)
  }

  lemma VisitShown(codes: seq<string>, visits: seq<Visit>, v: Visit)
    requires ChannelsShown(codes, visits) && v in visits
    ensures var rows := Rows(codes, visits);
            ShowsChannel(AcceptedOf(rows), RejectedOf(rows), codes, LabelsOf(v), v.channel)
  {
    var i :| 0 <= i < |visits| && visits[i] == v;
  }

  /** Every server channel is shown under its id and user, and nothing else is. */
  lemma ServerGauges(codes: seq<string>, info: Option<ServerInfo>)
    requires ServerAgrees(codes, info)
    ensures var rows := Rows(codes, ServerVisits(info));
            && (forall c :: ServerChannel(info, c) ==>
                  ShowsChannel(AcceptedOf(rows), RejectedOf(rows), codes, [c.channelId, c.user], c))
            && (forall l :: l in AcceptedOf(rows) ==> exists c :: ServerChannel(info, c) && l == [c.channelId, c.user])
  {
    var visits := ServerVisits(info);
    var rows := Rows(codes, visits);
    forall i, j | 0 <= i < j < |visits| && LabelsOf(visits[i]) == LabelsOf(visits[j])
      ensures Agree(codes, visits[i].channel, visits[j].channel)
    {
      ServerVisited(info, visits[i]);
      ServerVisited(info, visits[j]);
      SameLabels(visits[i], visits[j]);
    }
    AgreementShows(codes, visits);
    forall c | ServerChannel(info, c)
      ensures ShowsChannel(AcceptedOf(rows), RejectedOf(rows), codes, [c.channelId, c.user], c)
    {
      ServerVisited(info, Visit([], c));
      VisitShown(codes, visits, Visit([], c));
      assert LabelsOf(Visit([], c)) == [c.channelId, c.user];
    }
    forall l | l in AcceptedOf(rows) ensures exists c :: ServerChannel(info, c) && l == [c.channelId, c.user] {
      PublishedLabels(rows);
      LabelsOfChannels(codes, visits, l);
      var i :| 0 <= i < |visits| && LabelsOf(visits[i]) == l;
      ServerVisited(info, visits[i]);
      assert l == [visits[i].channel.channelId, visits[i].channel.user];
    }
  }

  lemma SameLabels(v: Visit, w: Visit)
    requires LabelsOf(v) == LabelsOf(w) && |v.prefix| == |w.prefix|
    ensures v.prefix == w.prefix && v.channel.channelId == w.channel.channelId && v.channel.user == w.channel.user
  {
    var n := |v.prefix|;
    assert v.prefix == LabelsOf(v)[..n] && w.prefix == LabelsOf(w)[..n];
    assert LabelsOf(v)[n] == v.channel.channelId && LabelsOf(v)[n + 1] == v.channel.user;
    assert LabelsOf(w)[n] == w.channel.channelId && LabelsOf(w)[n + 1] == w.channel.user;
  }

  /** Channels with the same id and user, of clients with the same id, agree. */
  ghost predicate ClientsAgree(codes: seq<string>, clients: seq<Client>) {
    forall a, b, c, d ::
      (a in clients && b in clients && a.clientId == b.clientId && ClientChannel(a, c) && ClientChannel(b, d)
       && c.channelId == d.channelId && c.user == d.user) ==> Agree(codes, c, d)
  }

  lemma ClientOfVisit(clients: seq<Client>, v: Visit) returns (client: Client)
    requires v in ClientVisits(clients)
    ensures client in clients && v.prefix == [client.clientId] && ClientChannel(client, v.channel)
  {
    ClientVisited(clients, v);
    client :| client in clients && v.prefix == [client.clientId] && ClientChannel(client, v.channel);
  }

  /** Every client channel is shown under its client's id, its own id and its user, and nothing else is. */
  lemma ClientGauges(codes: seq<string>, clients: seq<Client>)
    requires ClientsAgree(codes, clients)
    ensures var rows := Rows(codes, ClientVisits(clients));
            && (forall a, c :: a in clients && ClientChannel(a, c) ==>
                  ShowsChannel(AcceptedOf(rows), RejectedOf(rows), codes, [a.clientId, c.channelId, c.user], c))
            && (forall l :: l in AcceptedOf(rows) ==>
                  exists a, c :: a in clients && ClientChannel(a, c) && l == [a.clientId, c.channelId, c.user])
  {
    AgreeingClientsAreShown(codes, clients);
    var rows := Rows(codes, ClientVisits(clients));
    forall a, c | a in clients && ClientChannel(a, c)
      ensures ShowsChannel(AcceptedOf(rows), RejectedOf(rows), codes, [a.clientId, c.channelId, c.user], c)
    {
      ClientChannelShown(codes, clients, a, c);
    }
    forall l | l in AcceptedOf(rows)
      ensures exists a, c :: a in clients && ClientChannel(a, c) && l == [a.clientId, c.channelId, c.user]
    {
      var a, c := ClientOfSeries(codes, clients, l);
    }
  }

  lemma AgreeingClientsAreShown(codes: seq<string>, clients: seq<Client>)
    requires ClientsAgree(codes, clients)
    ensures ChannelsShown(codes, ClientVisits(clients))
  {
    var visits := ClientVisits(clients);
    forall i, j | 0 <= i < j < |visits| && LabelsOf(visits[i]) == LabelsOf(visits[j])
      ensures Agree(codes, visits[i].channel, visits[j].channel)
    {
      var a := ClientOfVisit(clients, visits[i]);
      var b := ClientOfVisit(clients, visits[j]);
      SameLabels(visits[i], visits[j]);
      assert [a.clientId][0] == [b.clientId][0];
    }
    AgreementShows(codes, visits);
  }

  lemma ClientChannelShown(codes: seq<string>, clients: seq<Client>, a: Client, c: Channel)
    requires ChannelsShown(codes, ClientVisits(clients)) && a in clients && ClientChannel(a, c)
    ensures var rows := Rows(codes, ClientVisits(clients));
            ShowsChannel(AcceptedOf(rows), RejectedOf(rows), codes, [a.clientId, c.channelId, c.user], c)
  {
    var v := Visit([a.clientId], c);
    ClientVisited(clients, v);
    VisitShown(codes, ClientVisits(clients), v);
    assert LabelsOf(v) == [a.clientId, c.channelId, c.user];
  }

  lemma ClientOfSeries(codes: seq<string>, clients: seq<Client>, l: Labels) returns (a: Client, c: Channel)
    requires l in AcceptedOf(Rows(codes, ClientVisits(clients)))
    ensures a in clients && ClientChannel(a, c) && l == [a.clientId, c.channelId, c.user]
  {
    var visits := ClientVisits(clients);
    PublishedLabels(Rows(codes, visits));
    LabelsOfChannels(codes, visits, l);
    var i :| 0 <= i < |visits| && LabelsOf(visits[i]) == l;
    a := ClientOfVisit(clients, visits[i]);
    c := visits[i].channel;
  }

  /** A known code shows 0 during every update, also when its count is positive before and after. */
  lemma KnownCodesDip(codes: seq<string>, visits: seq<Visit>, i: nat, code: string)
    requires i < |visits| && code in codes
    ensures LabelsOf(visits[i]) + [code] in ZeroedBy(Rows(codes, visits))
  {
    var rows, k := Rows(codes, visits), LabelsOf(visits[i]) + [code];
    ZeroedExactly(rows, k);
    var j :| 0 <= j < |codes| && codes[j] == code;
    assert rows[i].seeds[j] == k;
    assert IsZeroed(rows[i], k);
  }

  lemma SeedIsCode(codes: seq<string>, v: Visit, k: Labels)
    ensures k in RowOf(codes, v).seeds ==> k != [] && k[|k| - 1] in codes
  {
    var row := RowOf(codes, v);
    if k in row.seeds {
      var j :| 0 <= j < |codes| && row.seeds[j] == k;
      assert k == LabelsOf(v) + [codes[j]];
    }
  }

  /** Any other reason shows 0 only if some channel with these labels counts it 0 times. */
  lemma OtherReasonsDoNotDip(codes: seq<string>, visits: seq<Visit>, l: Labels, reason: string)
    requires reason !in codes
    requires forall i :: 0 <= i < |visits| && LabelsOf(visits[i]) == l && reason in visits[i].channel.rejected ==>
               visits[i].channel.rejected[reason] > 0
    ensures l + [reason] !in ZeroedBy(Rows(codes, visits))
  {
    var rows, k := Rows(codes, visits), l + [reason];
    assert k[..|k| - 1] == l && k[|k| - 1] == reason;
    ZeroedExactly(rows, k);
    forall i | 0 <= i < |rows| ensures !IsZeroed(rows[i], k) {
      RowKeys(codes, visits[i], k);
      SeedIsCode(codes, visits[i], k);
      if HasKey(rows[i], k) {
        RowCounts(codes, visits[i], reason);
      }
    }
  }

  /** There are no other series: every rejected one belongs to a channel and a code or reason of it. */
  lemma NoOtherSeries(codes: seq<string>, visits: seq<Visit>, k: Labels)
    requires k in RejectedOf(Rows(codes, visits))
    ensures exists i :: 0 <= i < |visits| && Belongs(codes, visits[i], k)
  {
    var rows := Rows(codes, visits);
    RejectedKeys(rows, k);
    var i :| 0 <= i < |rows| && HasKey(rows[i], k);
    RowKeys(codes, visits[i], k);
    assert Belongs(codes, visits[i], k);
  }

  /** The labels of the accepted series are the channels' labels. */
  lemma {:induction false} LabelsOfChannels(codes: seq<string>, visits: seq<Visit>, l: Labels)
    ensures l in LabelSet(Rows(codes, visits)) <==> exists i :: 0 <= i < |visits| && LabelsOf(visits[i]) == l
  {
    if visits != [] {
      var n := |visits| - 1;
      LabelsOfChannels(codes, visits[..n], l);
      assert Rows(codes, visits)[..n] == Rows(codes, visits[..n]);
      if exists i :: 0 <= i < |visits| && LabelsOf(visits[i]) == l {
        var i :| 0 <= i < |visits| && LabelsOf(visits[i]) == l;
        assert i < n ==> LabelsOf(visits[..n][i]) == l;
      }
      if l in LabelSet(Rows(codes, visits[..n])) {
        var i :| 0 <= i < n && LabelsOf(visits[..n][i]) == l;
        assert LabelsOf(visits[i]) == l;
      }
    }
  }

  // ---------------------------------------------------------------- one gauge

  lemma PutOver<K, V>(a: map<K, V>, b: map<K, V>, k: K, v: V)
    ensures (a + b)[k := v] == a + b[k := v]
  {
  }

  lemma MoveOver<K>(series: map<K, int>, rest: map<K, int>, k: K)
    requires k in rest
    ensures series[k := rest[k]] + (rest - {k}) == series + rest
    ensures ZeroKeys(rest) == ZeroKeys(rest - {k}) + if rest[k] == 0 then {k} else {}
  {
  }

  lemma OverAssoc<K, V>(a: map<K, V>, b: map<K, V>, c: map<K, V>)
    ensures a + b + c == a + (b + c)
  {
  }

  /** Publishing over old series and then dropping the stale ones leaves exactly the new series. */
  lemma Settle<K, V>(before: map<K, V>, now: map<K, V>, previous: set<K>)
    requires before.Keys <= previous
    ensures (before + now) - (previous - now.Keys) == now
  {
  }

  lemma SettleHashrate<L, K>(before: map<L, int>, rows: seq<Row<L, K>>, previous: set<L>)
    requires before.Keys <= previous
    ensures before + HashrateOf(rows) - (previous - LabelSet(rows)) == HashrateAfter(before, rows)
    ensures HashrateAfter(before, rows).Keys <= LabelSet(rows)
  {
    PublishedLabels(rows);
  }

  /** A gauge vector, with a ghost record of every state it went through since `Begin`. */
  class GaugeVec<K(==)> {
    var series: map<K, int>
    ghost var before: map<K, int>
    ghost var keep: set<K>
    ghost var history: seq<map<K, int>>
    ghost var zeroed: set<K>  // set to 0 since `Begin`, and visible as 0 until the next write

    constructor ()
      ensures series == map[]
    {
      series := map[];
    }

    /** A label that was there at `Begin` and is to be kept has been there ever since. */
    ghost predicate NoGap()
      reads this
    {
      before.Keys * keep <= series.Keys && forall m :: m in history ==> before.Keys * keep <= m.Keys
    }

    /** Starting from `before`, no label of `keep` has ever been missing. */
    ghost predicate Continuous(before: map<K, int>, keep: set<K>)
      reads this
    {
      NoGap() && this.before == before && this.keep == keep
    }

    ghost method Begin(keep: set<K>)
      modifies this
      ensures NoGap() && series == before == old(series) && this.keep == keep && history == [] && zeroed == {}
    {
      before, this.keep, history, zeroed := series, keep, [], {};
    }

    method Set(k: K, v: int)
      requires NoGap()
      modifies this`series, this`history, this`zeroed
      ensures NoGap() && series == old(series)[k := v]
      ensures zeroed == old(zeroed) + if v == 0 then {k} else {}
    {
      series := series[k := v];
      zeroed := zeroed + if v == 0 then {k} else {};
      history := history + [series];
    }

    /** Zero for each key in turn. */
    method SetZeros(keys: seq<K>)
      requires NoGap()
      modifies this`series, this`history, this`zeroed
      ensures NoGap() && series == old(series) + Zeros(keys) && zeroed == old(zeroed) + Zeros(keys).Keys
    {
      for j := 0 to |keys|
        invariant NoGap() && series == old(series) + Zeros(keys[..j])
        invariant zeroed == old(zeroed) + Zeros(keys[..j]).Keys
      {
        assert keys[..j + 1][..j] == keys[..j];
        PutOver(old(series), Zeros(keys[..j]), keys[j], 0);
        Set(keys[j], 0);
      }
      assert keys[..|keys|] == keys;
    }

    /** Every entry of `values`, in the map's own order. */
    method SetAll(values: map<K, int>)
      requires NoGap()
      modifies this`series, this`history, this`zeroed
      ensures NoGap() && series == old(series) + values && zeroed == old(zeroed) + ZeroKeys(values)
    {
      var rest := values;
      while rest.Keys != {}
        invariant NoGap() && series + rest == old(series) + values
        invariant zeroed + ZeroKeys(rest) == old(zeroed) + ZeroKeys(values)
        decreases |rest.Keys|
      {
        var k :| k in rest.Keys;
        MoveOver(series, rest, k);
        Set(k, rest[k]);
        rest := rest - {k};
      }
      assert series + rest == series;
    }

    /** Removes each stale series; removing one that is not there changes nothing. */
    method RemoveAll(stale: set<K>)
      requires NoGap() && stale !! keep
      modifies this`series, this`history, this`zeroed
      ensures NoGap() && series == old(series) - stale && zeroed == old(zeroed)
    {
      var todo := stale;
      while todo != {}
        invariant todo <= stale && NoGap() && series == old(series) - (stale - todo) && zeroed == old(zeroed)
        decreases |todo|
      {
        var k :| k in todo;
        series := series - {k};
        history := history + [series];
        todo := todo - {k};
      }
      assert stale - todo == stale;
    }
  }

  // ---------------------------------------------------------------- one side of the metrics

  /** Three gauges, each wired or not (the source keeps each behind an `Option`), and the label memory. */
  class Side<L(==), K(==)> {
    const hasAccepted: bool
    const hasRejected: bool
    const hasHashrate: bool
    const accepted: GaugeVec<L>
    const rejected: GaugeVec<K>
    const hashrate: GaugeVec<L>
    var previousLabels: set<L>
    var previousRejected: set<K>

    /** Every published series is in the label memory, which is what the next removal works from. */
    ghost predicate Valid()
      reads this, accepted, rejected, hashrate
    {
      && Separate()
      && (hasAccepted ==> accepted.series.Keys <= previousLabels)
      && (hasHashrate ==> hashrate.series.Keys <= previousLabels)
      && (hasRejected ==> rejected.series.Keys <= previousRejected)
    }

    /** The gauges are different objects. */
    ghost predicate Separate() {
      accepted != hashrate && accepted as object != rejected && hashrate as object != rejected
    }

    constructor (hasAccepted: bool, hasRejected: bool, hasHashrate: bool)
      ensures Valid() && fresh(accepted) && fresh(rejected) && fresh(hashrate)
      ensures this.hasAccepted == hasAccepted && this.hasRejected == hasRejected && this.hasHashrate == hasHashrate
      ensures previousLabels == {} && previousRejected == {}
    {
      this.hasAccepted, this.hasRejected, this.hasHashrate := hasAccepted, hasRejected, hasHashrate;
      accepted := new GaugeVec<L>();
      rejected := new GaugeVec<K>();
      hashrate := new GaugeVec<L>();
      previousLabels, previousRejected := {}, {};
    }

    /** `clone` followed by `with_metrics`: the old label memory over new gauges, wired as the new metrics are. */
    constructor CloneWithFreshMetrics(other: Side<L, K>, hasAccepted: bool, hasRejected: bool, hasHashrate: bool)
      ensures Valid() && fresh(accepted) && fresh(rejected) && fresh(hashrate)
      ensures this.hasAccepted == hasAccepted && this.hasRejected == hasRejected && this.hasHashrate == hasHashrate
      ensures previousLabels == other.previousLabels && previousRejected == other.previousRejected
    {
      this.hasAccepted, this.hasRejected, this.hasHashrate := hasAccepted, hasRejected, hasHashrate;
      accepted := new GaugeVec<L>();
      rejected := new GaugeVec<K>();
      hashrate := new GaugeVec<L>();
      previousLabels, previousRejected := other.previousLabels, other.previousRejected;
    }

    /** The gauges hold the rows so far on top of what they held when the update began. */
    ghost predicate Published(rows: seq<Row<L, K>>)
      reads this, accepted, rejected, hashrate
    {
      && (hasAccepted ==> accepted.NoGap() && accepted.series == accepted.before + AcceptedOf(rows))
      && (hasRejected ==> rejected.NoGap() && rejected.series == rejected.before + RejectedOf(rows))
      && (hasRejected ==> rejected.zeroed == ZeroedBy(rows))
      && (hasHashrate ==> hashrate.NoGap() && hashrate.series == hashrate.before + HashrateOf(rows))
    }

    /** One channel of `update_metrics`: accepted, rejected, hashrate. */
    method Publish(rows: seq<Row<L, K>>, k: nat)
      requires Separate() && k < |rows| && Published(rows[..k])
      modifies accepted`series, accepted`history, accepted`zeroed
      modifies rejected`series, rejected`history, rejected`zeroed
      modifies hashrate`series, hashrate`history, hashrate`zeroed
      ensures Published(rows[..k + 1])
    {
      var row := rows[k];
      assert rows[..k + 1][..k] == rows[..k];
      if hasAccepted {
        PutOver(accepted.before, AcceptedOf(rows[..k]), row.labels, row.accepted);
        accepted.Set(row.labels, row.accepted);
      }
      if hasRejected {
        OverAssoc(rejected.before, RejectedOf(rows[..k]), Zeros(row.seeds));
        OverAssoc(rejected.before, RejectedOf(rows[..k]) + Zeros(row.seeds), row.counts);
        rejected.SetZeros(row.seeds);
        rejected.SetAll(row.counts);
      }
      if hasHashrate && row.hashrate.Some? {
        PutOver(hashrate.before, HashrateOf(rows[..k]), row.labels, row.hashrate.value);
        hashrate.Set(row.labels, row.hashrate.value);
      }
    }

    /** The setting half of `update_metrics`, collecting the labels it visits. */
    method PublishAll(rows: seq<Row<L, K>>) returns (labels: set<L>, keys: set<K>)
      requires Separate() && Published([])
      modifies accepted`series, accepted`history, accepted`zeroed
      modifies rejected`series, rejected`history, rejected`zeroed
      modifies hashrate`series, hashrate`history, hashrate`zeroed
      ensures Published(rows)
      ensures labels == LabelSet(rows) && keys == if !hasRejected then {} else RejectedOf(rows).Keys
    {
      labels, keys := {}, {};
      for k := 0 to |rows|
        invariant Published(rows[..k]) && labels == LabelSet(rows[..k])
        invariant keys == if !hasRejected then {} else RejectedOf(rows[..k]).Keys
      {
        assert rows[..k + 1][..k] == rows[..k];
        Publish(rows, k);
        labels := labels + {rows[k].labels};
        if hasRejected {
          KeySet(rows[k].seeds);
          keys := keys + (set key | key in rows[k].seeds) + rows[k].counts.Keys;
        }
      }
      assert rows[..|rows|] == rows;
    }

    /** The removing half: series of labels remembered from last time and not visited now. */
    method RemoveStale(labels: set<L>, keys: set<K>)
      requires Separate()
      requires hasAccepted ==> accepted.NoGap() && accepted.keep <= labels
      requires hasHashrate ==> hashrate.NoGap() && hashrate.keep <= labels
      requires hasRejected ==> rejected.NoGap() && rejected.keep <= keys
      modifies accepted`series, accepted`history, accepted`zeroed
      modifies rejected`series, rejected`history, rejected`zeroed
      modifies hashrate`series, hashrate`history, hashrate`zeroed
      ensures hasAccepted ==> accepted.NoGap() && accepted.series == old(accepted.series) - (previousLabels - labels)
      ensures hasHashrate ==> hashrate.NoGap() && hashrate.series == old(hashrate.series) - (previousLabels - labels)
      ensures hasRejected ==> rejected.NoGap() && rejected.series == old(rejected.series) - (previousRejected - keys)
      ensures rejected.zeroed == old(rejected.zeroed)
    {
      if hasAccepted {
        accepted.RemoveAll(previousLabels - labels);
      }
      if hasHashrate {
        hashrate.RemoveAll(previousLabels - labels);
      }
      if hasRejected {
        rejected.RemoveAll(previousRejected - keys);
      }
    }

    /** The records of the three gauges start anew. */
    ghost method BeginAll(rows: seq<Row<L, K>>)
      requires Separate()
      modifies accepted, rejected, hashrate
      ensures Published([])
      ensures hasAccepted ==>
                accepted.series == old(accepted.series) && accepted.Continuous(accepted.series, LabelSet(rows))
      ensures hasRejected ==> rejected.series == old(rejected.series)
      ensures hasRejected ==> rejected.Continuous(rejected.series, RejectedOf(rows).Keys)
      ensures hasHashrate ==>
                hashrate.series == old(hashrate.series) && hashrate.Continuous(hashrate.series, LabelSet(rows))
    {
      if hasAccepted {
        accepted.Begin(LabelSet(rows));
      }
      if hasRejected {
        rejected.Begin(RejectedOf(rows).Keys);
      }
      if hasHashrate {
        hashrate.Begin(LabelSet(rows));
      }
    }

    /** Where setting and removing lead from the series there are now. */
    lemma SettleAll(rows: seq<Row<L, K>>)
      requires Valid()
      ensures AcceptedOf(rows).Keys == LabelSet(rows)
      ensures hasAccepted ==>
                accepted.series + AcceptedOf(rows) - (previousLabels - LabelSet(rows)) == AcceptedOf(rows)
      ensures hasRejected ==>
                rejected.series + RejectedOf(rows) - (previousRejected - RejectedOf(rows).Keys) == RejectedOf(rows)
      ensures hasHashrate ==>
                && hashrate.series + HashrateOf(rows) - (previousLabels - LabelSet(rows))
                   == HashrateAfter(hashrate.series, rows)
                && HashrateAfter(hashrate.series, rows).Keys <= LabelSet(rows)
    {
      PublishedLabels(rows);
      if hasAccepted {
        Settle(accepted.series, AcceptedOf(rows), previousLabels);
      }
      if hasRejected {
        Settle(rejected.series, RejectedOf(rows), previousRejected);
      }
      if hasHashrate {
        SettleHashrate(hashrate.series, rows, previousLabels);
      }
    }

    /**
     `update_metrics` for one side. Whatever the gauges held before, afterwards the accepted and
     rejected series are exactly those of the rows, and the hashrate series are the current hashrates and
     the old ones of current labels without one. In every state on the way (`NoGap`) a label that was there
     before and belongs to the rows is present; the rejected series shown as 0 on the way are `ZeroedBy`.
     */
    method Update(rows: seq<Row<L, K>>)
      requires Valid()
      modifies this, accepted, rejected, hashrate
      ensures Valid()
      ensures hasAccepted ==> accepted.series == AcceptedOf(rows)
      ensures hasRejected ==> rejected.series == RejectedOf(rows)
      ensures hasHashrate ==> hashrate.series == HashrateAfter(old(hashrate.series), rows)
      ensures hasRejected ==> rejected.zeroed == ZeroedBy(rows)
      ensures hasAccepted ==> accepted.Continuous(old(accepted.series), LabelSet(rows))
      ensures hasRejected ==> rejected.Continuous(old(rejected.series), RejectedOf(rows).Keys)
      ensures hasHashrate ==> hashrate.Continuous(old(hashrate.series), LabelSet(rows))
    {
      SettleAll(rows);
      BeginAll(rows);
      var labels, keys := PublishAll(rows);
      RemoveStale(labels, keys);
      previousLabels, previousRejected := labels, keys;
    }
  }

  /**
   Any sequence of refreshes: accepted and rejected series agree with the last snapshot alone, and a hashrate
   is the last one known of a label that has been there ever since.
   */
  method RefreshAll<L(==), K(==)>(side: Side<L, K>, snapshots: seq<seq<Row<L, K>>>)
    requires side.Valid() && snapshots != []
    modifies side, side.accepted, side.rejected, side.hashrate
    ensures side.Valid()
    ensures var rows := snapshots[|snapshots| - 1];
            && (side.hasAccepted ==> side.accepted.series == AcceptedOf(rows))
            && (side.hasRejected ==> side.rejected.series == RejectedOf(rows))
            && (side.hasHashrate ==> side.hashrate.series == HashrateOver(old(side.hashrate.series), snapshots))
  {
    for k := 0 to |snapshots|
      invariant side.Valid()
      invariant k > 0 && side.hasAccepted ==> side.accepted.series == AcceptedOf(snapshots[k - 1])
      invariant k > 0 && side.hasRejected ==> side.rejected.series == RejectedOf(snapshots[k - 1])
      invariant side.hasHashrate ==>
                  side.hashrate.series == HashrateOver(old(side.hashrate.series), snapshots[..k])
    {
      assert snapshots[..k + 1][..k] == snapshots[..k];
      side.Update(snapshots[k]);
    }
    assert snapshots[..|snapshots|] == snapshots;
  }

  /**
   What the gauges of one side show for these channels, and how they came there from the series they held:
   a label present before and after was never missing in between.
   */
  ghost predicate Shows(side: Side<Labels, Labels>, codes: seq<string>, visits: seq<Visit>,
                        accepted: map<Labels, int>, rejected: map<Labels, int>, hashrate: map<Labels, int>)
    reads side.accepted, side.rejected, side.hashrate
  {
    var rows := Rows(codes, visits);
    && (side.hasAccepted ==> side.accepted.series == AcceptedOf(rows))
    && (side.hasRejected ==> side.rejected.series == RejectedOf(rows))
    && (side.hasHashrate ==> side.hashrate.series == HashrateAfter(hashrate, rows))
    && (side.hasRejected ==> side.rejected.zeroed == ZeroedBy(rows))
    && (side.hasAccepted ==> side.accepted.Continuous(accepted, LabelSet(rows)))
    && (side.hasRejected ==> side.rejected.Continuous(rejected, RejectedOf(rows).Keys))
    && (side.hasHashrate ==> side.hashrate.Continuous(hashrate, LabelSet(rows)))
  }

  /** `update_metrics`: one snapshot brings the server side and the client side up to date. */
  method UpdateMetrics(server: Side<Labels, Labels>, clients: Side<Labels, Labels>, codes: seq<string>,
                       serverInfo: Option<ServerInfo>, clientInfos: seq<Client>)
    requires server.Valid() && clients.Valid() && server != clients
    requires {server.accepted, server.rejected, server.hashrate}
             !! {clients.accepted, clients.rejected, clients.hashrate}
    modifies server, server.accepted, server.rejected, server.hashrate
    modifies clients, clients.accepted, clients.rejected, clients.hashrate
    ensures server.Valid() && clients.Valid()
    ensures Shows(server, codes, ServerVisits(serverInfo),
                  old(server.accepted.series), old(server.rejected.series), old(server.hashrate.series))
    ensures Shows(clients, codes, ClientVisits(clientInfos),
                  old(clients.accepted.series), old(clients.rejected.series), old(clients.hashrate.series))
    ensures server.hasAccepted && server.hasRejected && ServerAgrees(codes, serverInfo) ==>
              forall c :: ServerChannel(serverInfo, c) ==>
                ShowsChannel(server.accepted.series, server.rejected.series, codes, [c.channelId, c.user], c)
    ensures clients.hasAccepted && clients.hasRejected && ClientsAgree(codes, clientInfos) ==>
              forall a, c :: a in clientInfos && ClientChannel(a, c) ==>
                var labels := [a.clientId, c.channelId, c.user];
                ShowsChannel(clients.accepted.series, clients.rejected.series, codes, labels, c)
  {
    server.Update(Rows(codes, ServerVisits(serverInfo)));
    clients.Update(Rows(codes, ClientVisits(clientInfos)));
    if ServerAgrees(codes, serverInfo) {
      ServerGauges(codes, serverInfo);
    }
    if ClientsAgree(codes, clientInfos) {
      ClientGauges(codes, clientInfos);
    }
  }

  lemma {:induction false} KeySet<K>(keys: seq<K>)
    ensures Zeros(keys).Keys == set k | k in keys
  {
    if keys != [] {
      KeySet(keys[..|keys| - 1]);
    }
  }
}
