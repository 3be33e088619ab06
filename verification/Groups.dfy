/** Consumer group lag and offset resets of app/services/groups.py. */
module Groups {
  import opened Common
  import opened Logs
  import opened Sums
  import opened Cluster
  import opened Planner

  datatype ResetTarget = ToEarliest | ToLatest | ToTimestamp | ToOffset

  datatype ResetError =
    | ReadOnly
    | GroupNotFound
    | GroupNotEmpty
    | NoSuchTopic
    | NoSuchPartition
    | TimestampMissing
    | OffsetMissing
    | NotSinglePartition
    | OffsetOutOfRange

  /** `PartitionOffset` */
  datatype PartitionOffset = PartitionOffset(topic: string, partition: int, committed: int, low: int, high: int) {
    predicate HasOffset() {
      committed >= 0
    }
    function Lag(): Option<int> {
      if HasOffset() then Some(high - committed) else None
    }
  }

  // ---- Lag ----

  /** A commit with the watermarks of its partition. */
  function Inspect(topics: map<string, Topic>, c: Commit): PartitionOffset
    requires c.topic in topics
  {
    PartitionOffset(c.topic, c.partition, c.offset, topics[c.topic].Low(c.partition), topics[c.topic].High(c.partition))
  }

  /** `o.lag or 0` */
  function LagOrZero(o: PartitionOffset): int {
    if o.Lag().Some? then o.Lag().value else 0
  }

  /** The lag of a group over the commits that `select` picks. */
  function LagWhere(topics: map<string, Topic>, commits: seq<Commit>, select: Commit -> bool): int
    requires KnownCommits(topics, commits)
  {
    if commits == [] then 0
    else
      (if select(commits[0]) then LagOrZero(Inspect(topics, commits[0])) else 0)
      + LagWhere(topics, commits[1..], select)
  }

  function TotalLag(topics: map<string, Topic>, commits: seq<Commit>): int
    requires KnownCommits(topics, commits)
  {
    LagWhere(topics, commits, c => true)
  }

  function TopicLag(topics: map<string, Topic>, commits: seq<Commit>, topic: string): int
    requires KnownCommits(topics, commits)
  {
    LagWhere(topics, commits, (c: Commit) => c.topic == topic)
  }

  /** One more commit adds the distance from it to its partition's end, unless it is negative: then the
      group has no offset there, and no lag. */
  lemma {:induction false} TotalLagSnoc(topics: map<string, Topic>, commits: seq<Commit>, c: Commit)
    requires KnownCommits(topics, commits + [c]) && c.topic in topics && c.partition in topics[c.topic].logs
    ensures KnownCommits(topics, commits)
    ensures TotalLag(topics, commits + [c])
         == TotalLag(topics, commits)
            + if c.offset >= 0 then topics[c.topic].logs[c.partition].high - c.offset else 0
  {
    var all := commits + [c];
    assert forall i :: 0 <= i < |commits| ==> commits[i] == all[i];
    assert all[|commits|] == c;
    if commits == [] {
      assert all == [c] && [c][1..] == [];
    } else {
      assert all[1..] == commits[1..] + [c];
      TotalLagSnoc(topics, commits[1..], c);
    }
  }

  /** `get_group`: an unknown id may still describe as an empty, dead shell. */
  function Visible(groups: map<string, Group>, id: string): Option<Group> {
    if id !in groups then None
    else if groups[id].members == [] && groups[id].commits == [] && groups[id].state == "DEAD" then None
    else Some(groups[id])
  }

  /** `group_total_lag` */
  method GroupTotalLag(broker: Broker, id: string) returns (lag: Option<int>)
    requires broker.Valid()
    ensures if id !in broker.groups || broker.groups[id] == Group("DEAD", [], []) then lag == None
            else lag == Some(TotalLag(broker.topics, broker.groups[id].commits))
  {
    var group := Visible(broker.groups, id);
    if group.None? {
      return None;
    }
    var commits, sum := group.value.commits, 0;
    for i := 0 to |commits|
      invariant KnownCommits(broker.topics, commits[i..])
      invariant sum + TotalLag(broker.topics, commits[i..]) == TotalLag(broker.topics, commits)
    {
      sum := sum + LagOrZero(Inspect(broker.topics, commits[i]));
      assert commits[i..][1..] == commits[i + 1..];
    }
    return Some(sum);
  }

  // ---- Targets ----

  /** Where a reset puts a partition. */
  function TargetOf(log: Log, target: ResetTarget, timestampMs: int, offset: int): int {
    match target
    case ToEarliest => log.low
    case ToLatest => log.high
    case ToTimestamp => TimeTarget(log, timestampMs)
    case ToOffset => offset
  }

  ghost predicate AreTargets(
    logs: map<int, Log>, topic: string, parts: seq<int>, target: ResetTarget,
    timestampMs: Option<int>, offset: Option<int>, targets: seq<Commit>)
  {
    && |targets| == |parts|
    && (target == ToTimestamp ==> timestampMs.Some?)
    && (target == ToOffset ==> offset.Some?)
    && forall i :: 0 <= i < |parts| ==>
         && parts[i] in logs
         && targets[i] == Commit(topic, parts[i],
                                 TargetOf(logs[parts[i]], target,
                                          if timestampMs.Some? then timestampMs.value else 0,
                                          if offset.Some? then offset.value else 0))
  }

  /** `_resolve_targets` */
  method ResolveTargets(
    t: Topic, topic: string, parts: seq<int>, target: ResetTarget, timestampMs: Option<int>, offset: Option<int>)
    returns (r: Result<seq<Commit>, ResetError>)
    requires forall i :: 0 <= i < |parts| ==> parts[i] in t.logs
    ensures match r
            case Err(TimestampMissing) => target == ToTimestamp && timestampMs.None?
            case Err(OffsetMissing) => target == ToOffset && offset.None?
            case Err(NotSinglePartition) => target == ToOffset && offset.Some? && |parts| != 1
            case Err(OffsetOutOfRange) =>
              && target == ToOffset && offset.Some? && |parts| == 1
              && !(t.logs[parts[0]].low <= offset.value <= t.logs[parts[0]].high)
            case Err(_) => false
            case Ok(targets) =>
              && AreTargets(t.logs, topic, parts, target, timestampMs, offset, targets)
              && (target == ToOffset ==> |parts| == 1 && t.logs[parts[0]].low <= offset.value <= t.logs[parts[0]].high)
  {
    if target == ToTimestamp {
      if timestampMs.None? {
        return Err(TimestampMissing);
      }
      var out: seq<Commit> := [];
      for i := 0 to |parts|
        invariant AreTargets(t.logs, topic, parts[..i], target, timestampMs, offset, out)
      {
        var resolved := OffsetForTime(t.logs[parts[i]].recs, timestampMs.value);
        if resolved < 0 {
          resolved := t.logs[parts[i]].high;
        }
        out := out + [Commit(topic, parts[i], resolved)];
      }
      assert parts[..|parts|] == parts;
      return Ok(out);
    }
    if target == ToOffset {
      if offset.None? {
        return Err(OffsetMissing);
      }
      if |parts| != 1 {
        return Err(NotSinglePartition);
      }
      var low, high := t.logs[parts[0]].low, t.logs[parts[0]].high;
      if !(low <= offset.value <= high) {
        return Err(OffsetOutOfRange);
      }
      return Ok([Commit(topic, parts[0], offset.value)]);
    }
    return Ok(seq(|parts|, i requires 0 <= i < |parts| =>
                    Commit(topic, parts[i], if target == ToEarliest then t.logs[parts[i]].low else t.logs[parts[i]].high)));
  }

  // ---- Committing ----

  predicate SamePlace(c: Commit, d: Commit) {
    c.topic == d.topic && c.partition == d.partition
  }

  /** The broker's answer to one altered offset: it replaces the partition's commit or adds one. */
  function Upsert(commits: seq<Commit>, target: Commit): (r: seq<Commit>) {
    if commits == [] then [target]
    else if SamePlace(commits[0], target) then [target] + commits[1..]
    else [commits[0]] + Upsert(commits[1..], target)
  }

  function UpsertAll(commits: seq<Commit>, targets: seq<Commit>): seq<Commit>
    decreases |targets|
  {
    if targets == [] then commits else UpsertAll(Upsert(commits, targets[0]), targets[1..])
  }

  /** The request and its arguments. */
  datatype Reset = Reset(
    id: string, topic: string, partition: Option<int>, target: ResetTarget,
    timestampMs: Option<int>, offset: Option<int>)

  /** The one partition a request is about, if it is about one. */
  predicate OnlyPart(t: Topic, partition: Option<int>, p: int) {
    p in t.logs && (partition == Some(p) || (partition.None? && t.order == [p]))
  }

  predicate InRange(t: Topic, p: int, offset: int) {
    p in t.logs && t.logs[p].low <= offset <= t.logs[p].high
  }

  /** What the checks of `reset_offsets` come to, each error with what it says about the request and
      about the checks before it. */
  ghost predicate Justified(
    topics: map<string, Topic>, groups: map<string, Group>, readonly: bool, q: Reset,
    targets: Result<seq<Commit>, ResetError>)
  {
    var found := !readonly && q.id in groups && groups[q.id] != Group("DEAD", [], []);
    var empty := found && groups[q.id].state == "EMPTY";
    var known := empty && q.topic in topics && !topics[q.topic].broken;
    var placed := known && (q.partition.Some? ==> q.partition.value in topics[q.topic].logs);
    match targets
    case Err(ReadOnly) => readonly
    case Err(GroupNotFound) => !readonly && !found
    case Err(GroupNotEmpty) => found && !empty
    case Err(NoSuchTopic) => empty && !known
    case Err(NoSuchPartition) => known && !placed
    case Err(TimestampMissing) => placed && q.target == ToTimestamp && q.timestampMs.None?
    case Err(OffsetMissing) => placed && q.target == ToOffset && q.offset.None?
    case Err(NotSinglePartition) =>
      placed && q.target == ToOffset && q.offset.Some? && q.partition.None? && |topics[q.topic].order| != 1
    case Err(OffsetOutOfRange) =>
      && placed && q.target == ToOffset && q.offset.Some?
      && exists p :: OnlyPart(topics[q.topic], q.partition, p) && !InRange(topics[q.topic], p, q.offset.value)
    case Ok(cs) =>
      && placed && Selected(topics[q.topic], q.partition).Ok?
      && AreTargets(topics[q.topic].logs, q.topic, Selected(topics[q.topic], q.partition).value,
                    q.target, q.timestampMs, q.offset, cs)
      && (q.target == ToOffset ==>
            exists p :: OnlyPart(topics[q.topic], q.partition, p) && InRange(topics[q.topic], p, q.offset.value))
  }

  lemma PickOne(t: Topic, partition: Option<int>, parts: seq<int>)
    requires t.Valid() && Selected(t, partition) == Ok(parts)
    ensures |parts| == 1 <==> partition.Some? || |t.order| == 1
    ensures |parts| == 1 ==> forall p :: OnlyPart(t, partition, p) <==> parts == [p]
  {
    SelectedExist(t, partition);
    SortedMembers(t.order);
    if |parts| == 1 && partition.None? {
      assert parts[0] in Sorted(t.order) && t.order == [t.order[0]];
      assert t.order[0] in Sorted(t.order);
    }
  }

  /** The checks of `reset_offsets`, and the targets when they pass. */
  method CheckReset(broker: Broker, q: Reset) returns (targets: Result<seq<Commit>, ResetError>)
    requires broker.Valid()
    ensures Justified(broker.topics, broker.groups, broker.readonly, q, targets)
    ensures targets.Ok? ==> forall i :: 0 <= i < |targets.value| ==> KnownTarget(broker.topics, targets.value[i])
  {
    if broker.readonly {
      return Err(ReadOnly);
    }
    var group := Visible(broker.groups, q.id);
    if group.None? {
      return Err(GroupNotFound);
    }
    if group.value.state != "EMPTY" {
      return Err(GroupNotEmpty);
    }
    var metadata := Metadata(broker.topics, q.topic);
    if metadata.None? {
      return Err(NoSuchTopic);
    }
    var selected := Selected(metadata.value, q.partition);
    SortedMembers(metadata.value.order);
    if selected.Err? {
      return Err(NoSuchPartition);
    }
    SelectedExist(metadata.value, q.partition);
    PickOne(metadata.value, q.partition, selected.value);
    targets := ResolveTargets(metadata.value, q.topic, selected.value, q.target, q.timestampMs, q.offset);
    if |selected.value| == 1 {
      assert OnlyPart(metadata.value, q.partition, selected.value[0]);
    }
  }

  lemma {:induction false} UpsertMembers(commits: seq<Commit>, target: Commit, c: Commit)
    requires !SamePlace(c, target)
    ensures c in Upsert(commits, target) <==> c in commits
  {
    if commits == [] {
      assert c != target;
    } else if SamePlace(commits[0], target) {
      assert commits == [commits[0]] + commits[1..];
    } else {
      UpsertMembers(commits[1..], target, c);
      assert commits == [commits[0]] + commits[1..];
    }
  }

  lemma {:induction false} UpsertAllMembers(commits: seq<Commit>, targets: seq<Commit>, c: Commit)
    requires forall i :: 0 <= i < |targets| ==> !SamePlace(c, targets[i])
    ensures c in UpsertAll(commits, targets) <==> c in commits
    decreases |targets|
  {
    if targets != [] {
      UpsertMembers(commits, targets[0], c);
      UpsertAllMembers(Upsert(commits, targets[0]), targets[1..], c);
    }
  }

  lemma {:induction false} UpsertHas(commits: seq<Commit>, target: Commit)
    ensures target in Upsert(commits, target)
  {
    if commits != [] && !SamePlace(commits[0], target) {
      UpsertHas(commits[1..], target);
    }
  }

  lemma {:induction false} UpsertAllHas(commits: seq<Commit>, targets: seq<Commit>)
    requires forall i, j :: 0 <= i < j < |targets| ==> !SamePlace(targets[i], targets[j])
    ensures forall i :: 0 <= i < |targets| ==> targets[i] in UpsertAll(commits, targets)
    decreases |targets|
  {
    if targets != [] {
      UpsertHas(commits, targets[0]);
      UpsertAllHas(Upsert(commits, targets[0]), targets[1..]);
      UpsertAllMembers(Upsert(commits, targets[0]), targets[1..], targets[0]);
    }
  }

  /** The commits put in are those reported, and no other place of the group's is touched. */
  ghost predicate Applies(commits: seq<Commit>, after: seq<Commit>, topic: string, applied: seq<PartitionOffset>) {
    && (forall i :: 0 <= i < |applied| ==> Commit(topic, applied[i].partition, applied[i].committed) in after)
    && forall c: Commit :: (forall i :: 0 <= i < |applied| ==> c.topic != topic || c.partition != applied[i].partition) ==>
         (c in after <==> c in commits)
  }

  /** `reset_offsets`: on success the group's commits have the targets put in, and nothing else about
      the broker has changed; on failure nothing has. */
  method ResetOffsets(broker: Broker, q: Reset)
    returns (r: Result<seq<PartitionOffset>, ResetError>, ghost targets: Result<seq<Commit>, ResetError>)
    requires broker.Valid()
    modifies broker
    ensures broker.Valid()
    ensures broker.topics == old(broker.topics) && broker.readonly == old(broker.readonly)
    ensures Justified(old(broker.topics), old(broker.groups), old(broker.readonly), q, targets)
    ensures match targets
            case Err(e) => r == Err(e) && broker.groups == old(broker.groups)
            case Ok(cs) =>
              && q.id in old(broker.groups)
              && broker.groups == old(broker.groups)[q.id :=
                   old(broker.groups)[q.id].(commits := UpsertAll(old(broker.groups)[q.id].commits, cs))]
              && r.Ok? && |r.value| == |cs|
              && forall i :: 0 <= i < |cs| ==> cs[i].topic in broker.topics && r.value[i] == Inspect(broker.topics, cs[i])
    // Who is refused, in the order of the checks.
    ensures old(broker.readonly) ==> r == Err(ReadOnly)
    ensures !old(broker.readonly) && (q.id !in old(broker.groups) || old(broker.groups)[q.id] == Group("DEAD", [], [])) ==>
              r == Err(GroupNotFound)
    ensures (&& !old(broker.readonly) && q.id in old(broker.groups) && old(broker.groups)[q.id] != Group("DEAD", [], [])
             && old(broker.groups)[q.id].state != "EMPTY") ==> r == Err(GroupNotEmpty)
    ensures (!old(broker.readonly) && q.id in old(broker.groups) && old(broker.groups)[q.id].state == "EMPTY") ==>
              var topics := broker.topics;
              if q.topic !in topics || topics[q.topic].broken then r == Err(NoSuchTopic)
              else if q.partition.Some? && q.partition.value !in topics[q.topic].logs then r == Err(NoSuchPartition)
              else if q.target == ToTimestamp && q.timestampMs.None? then r == Err(TimestampMissing)
              else if q.target != ToOffset then r.Ok?
              else if q.offset.None? then r == Err(OffsetMissing)
              else if q.partition.None? && |topics[q.topic].order| != 1 then r == Err(NotSinglePartition)
              else
                var p := if q.partition.Some? then q.partition.value else topics[q.topic].order[0];
                if !(topics[q.topic].logs[p].low <= q.offset.value <= topics[q.topic].logs[p].high)
                then r == Err(OffsetOutOfRange) else r.Ok?
    // What a success has done.
    ensures r.Err? ==> broker.groups == old(broker.groups)
    ensures r.Ok? ==>
              && q.id in broker.groups
              && Applies(old(broker.groups)[q.id].commits, broker.groups[q.id].commits, q.topic, r.value)
              && Reports(broker.topics[q.topic], q, r.value)
  {
    var checked := CheckReset(broker, q);
    targets := checked;
    if checked.Err? {
      return Err(checked.error), targets;
    }
    ghost var before := broker.groups[q.id].commits;
    var applied := AlterOffsets(broker, q.id, checked.value);
    r := Ok(applied);
    ResetReports(broker.topics, q, checked.value, applied);
    ResetApplies(before, q.topic, checked.value, applied);
  }

  /** The broker's part: the targets are put in and reported with their watermarks. */
  method AlterOffsets(broker: Broker, id: string, targets: seq<Commit>) returns (applied: seq<PartitionOffset>)
    requires broker.Valid() && id in broker.groups
    requires forall i :: 0 <= i < |targets| ==> KnownTarget(broker.topics, targets[i])
    modifies broker
    ensures broker.Valid() && broker.topics == old(broker.topics) && broker.readonly == old(broker.readonly)
    ensures broker.groups == old(broker.groups)[id :=
              old(broker.groups)[id].(commits := UpsertAll(old(broker.groups)[id].commits, targets))]
    ensures |applied| == |targets|
    ensures forall i :: 0 <= i < |targets| ==>
              targets[i].topic in broker.topics && applied[i] == Inspect(broker.topics, targets[i])
  {
    var group := broker.groups[id];
    UpsertAllKnown(broker.topics, group.commits, targets);
    broker.groups := broker.groups[id := group.(commits := UpsertAll(group.commits, targets))];
    applied := [];
    for i := 0 to |targets|
      invariant |applied| == i
      invariant forall j :: 0 <= j < i ==> applied[j] == Inspect(broker.topics, targets[j])
    {
      applied := applied + [Inspect(broker.topics, targets[i])];
    }
  }

  /** What a successful reset reports: the given partition alone, or all of them in ascending order,
      each with its watermarks and the offset the target stands for. */
  ghost predicate Reports(t: Topic, q: Reset, applied: seq<PartitionOffset>) {
    && (q.partition.Some? ==> |applied| == 1 && applied[0].partition == q.partition.value)
    && (q.partition.None? ==>
          && (forall i, j :: 0 <= i < j < |applied| ==> applied[i].partition < applied[j].partition)
          && forall p :: p in t.logs ==> exists i :: 0 <= i < |applied| && applied[i].partition == p)
    && forall i :: 0 <= i < |applied| ==>
         var o := applied[i];
         && o.topic == q.topic && o.partition in t.logs
         && o.low == t.logs[o.partition].low && o.high == t.logs[o.partition].high
         && match q.target
            case ToEarliest => o.committed == o.low
            case ToLatest => o.committed == o.high
            case ToOffset => q.offset == Some(o.committed)
            case ToTimestamp =>
              && q.timestampMs.Some?
              && (forall k :: 0 <= k < |t.logs[o.partition].recs| ==>
                    var rec := t.logs[o.partition].recs[k];
                    && (rec.offset < o.committed ==> rec.timestamp < q.timestampMs.value)
                    && (rec.offset == o.committed ==> rec.timestamp >= q.timestampMs.value))
              && (o.committed == o.high || exists k :: 0 <= k < |t.logs[o.partition].recs| && t.logs[o.partition].recs[k].offset == o.committed)
  }

  lemma ReportsTime(log: Log, timestamp: int)
    requires log.Valid()
    ensures var o := TimeTarget(log, timestamp);
            && (forall k :: 0 <= k < |log.recs| ==>
                  && (log.recs[k].offset < o ==> log.recs[k].timestamp < timestamp)
                  && (log.recs[k].offset == o ==> log.recs[k].timestamp >= timestamp))
            && (o == log.high || exists k :: 0 <= k < |log.recs| && log.recs[k].offset == o)
  {
    TimeTargetSeparates(log.recs, log.high, timestamp);
    assert TimeTarget(Log(0, log.high, log.recs), timestamp) == TimeTarget(log, timestamp);
  }

  lemma ResetReports(topics: map<string, Topic>, q: Reset, targets: seq<Commit>, applied: seq<PartitionOffset>)
    requires q.topic in topics && topics[q.topic].Valid() && Selected(topics[q.topic], q.partition).Ok?
    requires AreTargets(topics[q.topic].logs, q.topic, Selected(topics[q.topic], q.partition).value,
                        q.target, q.timestampMs, q.offset, targets)
    requires |applied| == |targets|
    requires forall i :: 0 <= i < |targets| ==> targets[i].topic in topics && applied[i] == Inspect(topics, targets[i])
    ensures Reports(topics[q.topic], q, applied)
  {
    var t, parts := topics[q.topic], Selected(topics[q.topic], q.partition).value;
    SelectedExist(t, q.partition);
    forall i | 0 <= i < |applied| ensures applied[i].partition == parts[i] && targets[i].topic == q.topic {
    }
    if q.target == ToTimestamp {
      forall i | 0 <= i < |parts| {
        ReportsTime(t.logs[parts[i]], q.timestampMs.value);
      }
    }
    if q.partition.None? {
      forall p | p in t.logs ensures exists i :: 0 <= i < |applied| && applied[i].partition == p {
        assert p in parts;
        var i :| 0 <= i < |parts| && parts[i] == p;
        assert applied[i].partition == p;
      }
    }
  }

  lemma ResetApplies(commits: seq<Commit>, topic: string, targets: seq<Commit>, applied: seq<PartitionOffset>)
    requires |applied| == |targets|
    requires forall i :: 0 <= i < |targets| ==>
               targets[i] == Commit(topic, applied[i].partition, applied[i].committed)
    requires forall i, j :: 0 <= i < j < |applied| ==> applied[i].partition != applied[j].partition
    ensures Applies(commits, UpsertAll(commits, targets), topic, applied)
  {
    UpsertAllHas(commits, targets);
    forall c: Commit | forall i :: 0 <= i < |applied| ==> c.topic != topic || c.partition != applied[i].partition
      ensures c in UpsertAll(commits, targets) <==> c in commits
    {
      UpsertAllMembers(commits, targets, c);
    }
  }

  ghost predicate KnownTarget(topics: map<string, Topic>, c: Commit) {
    c.topic in topics && c.partition in topics[c.topic].logs
  }

  lemma {:induction false} UpsertKnown(topics: map<string, Topic>, commits: seq<Commit>, target: Commit)
    requires KnownCommits(topics, commits) && KnownTarget(topics, target)
    ensures KnownCommits(topics, Upsert(commits, target))
    ensures forall c :: c in Upsert(commits, target) ==> c == target || (c in commits && !SamePlace(c, target))
  {
    if commits != [] && !SamePlace(commits[0], target) {
      UpsertKnown(topics, commits[1..], target);
      var rest := Upsert(commits[1..], target);
      forall i | 0 <= i < |rest| ensures !SamePlace(commits[0], rest[i]) {
        assert rest[i] in rest;
      }
    }
  }

  lemma {:induction false} UpsertAllKnown(topics: map<string, Topic>, commits: seq<Commit>, targets: seq<Commit>)
    requires KnownCommits(topics, commits) && forall i :: 0 <= i < |targets| ==> KnownTarget(topics, targets[i])
    ensures KnownCommits(topics, UpsertAll(commits, targets))
    decreases |targets|
  {
    if targets != [] {
      UpsertKnown(topics, commits, targets[0]);
      UpsertAllKnown(topics, Upsert(commits, targets[0]), targets[1..]);
    }
  }
}
