/** Resets, lag, scan windows and topic counts agree with one another. */
module GroupTheorems {
  import opened Common
  import opened Sums
  import opened Cluster
  import opened Planner
  import opened Groups

  /** The lag of the one commit for a partition, or 0 when it has none. */
  function PlaceLag(topics: map<string, Topic>, commits: seq<Commit>, place: Commit): int
    requires KnownCommits(topics, commits)
  {
    LagWhere(topics, commits, (c: Commit) => SamePlace(c, place))
  }

  function PartitionLags(topics: map<string, Topic>, commits: seq<Commit>, topic: string): int -> int
    requires KnownCommits(topics, commits)
  {
    p => if KnownCommits(topics, commits) then PlaceLag(topics, commits, Commit(topic, p, 0)) else 0
  }

  lemma {:induction false} LagWhereNone(topics: map<string, Topic>, commits: seq<Commit>, select: Commit -> bool)
    requires KnownCommits(topics, commits) && forall i :: 0 <= i < |commits| ==> !select(commits[i])
    ensures LagWhere(topics, commits, select) == 0
  {
    if commits != [] {
      assert !select(commits[0]);
      LagWhereNone(topics, commits[1..], select);
    }
  }

  lemma {:induction false} LagWhereCongruent(
    topics: map<string, Topic>, commits: seq<Commit>, f: Commit -> bool, g: Commit -> bool)
    requires KnownCommits(topics, commits) && forall i :: 0 <= i < |commits| ==> f(commits[i]) == g(commits[i])
    ensures LagWhere(topics, commits, f) == LagWhere(topics, commits, g)
  {
    if commits != [] {
      assert f(commits[0]) == g(commits[0]);
      LagWhereCongruent(topics, commits[1..], f, g);
    }
  }

  /** Putting one commit in trades the partition's old lag for its new one; selections that do not
      look at that partition do not notice. */
  lemma {:induction false} UpsertLag(
    topics: map<string, Topic>, commits: seq<Commit>, target: Commit, select: Commit -> bool)
    requires KnownCommits(topics, commits) && KnownTarget(topics, target)
    requires forall c :: SamePlace(c, target) ==> select(c) == select(target)
    ensures KnownCommits(topics, Upsert(commits, target))
    ensures LagWhere(topics, Upsert(commits, target), select)
         == LagWhere(topics, commits, select)
            + if select(target) then LagOrZero(Inspect(topics, target)) - PlaceLag(topics, commits, target) else 0
  {
    UpsertKnown(topics, commits, target);
    if commits == [] {
      assert [target][1..] == [];
    } else if SamePlace(commits[0], target) {
      assert ([target] + commits[1..])[1..] == commits[1..];
      LagWhereNone(topics, commits[1..], (c: Commit) => SamePlace(c, target));
      assert select(commits[0]) == select(target);
    } else {
      UpsertLag(topics, commits[1..], target, select);
      var rest := Upsert(commits[1..], target);
      assert ([commits[0]] + rest)[1..] == rest;
    }
  }

  /** Every lag of a topic sits in one of its partitions. */
  lemma {:induction false} TopicLagByPartition(
    topics: map<string, Topic>, commits: seq<Commit>, topic: string, parts: seq<int>)
    requires KnownCommits(topics, commits) && Distinct(parts)
    requires forall i :: 0 <= i < |commits| && commits[i].topic == topic ==> commits[i].partition in parts
    ensures SumBy(parts, PartitionLags(topics, commits, topic)) == TopicLag(topics, commits, topic)
  {
    var f := PartitionLags(topics, commits, topic);
    if commits == [] {
      SumOfConstant(parts, f, 0);
    } else {
      var rest, c := commits[1..], commits[0];
      var g := PartitionLags(topics, rest, topic);
      TopicLagByPartition(topics, rest, topic, parts);
      forall p ensures f(p) == g(p) + if SamePlace(c, Commit(topic, p, 0)) then LagOrZero(Inspect(topics, c)) else 0 {
      }
      if c.topic == topic {
        SumPointUpdate(parts, g, f, c.partition);
        LagWhereNone(topics, rest, (d: Commit) => SamePlace(d, Commit(topic, c.partition, 0)));
      } else {
        SumCongruent(parts, f, g);
      }
    }
  }

  ghost predicate TargetsOf(targets: seq<Commit>, topic: string, parts: seq<int>) {
    |targets| == |parts| && forall i :: 0 <= i < |targets| ==> targets[i].topic == topic && targets[i].partition == parts[i]
  }

  /** Putting commits in for distinct partitions trades each one's lag. */
  lemma {:induction false} UpsertAllLag(
    topics: map<string, Topic>, commits: seq<Commit>, targets: seq<Commit>, topic: string, parts: seq<int>, lag: int -> int)
    requires KnownCommits(topics, commits) && TargetsOf(targets, topic, parts) && Distinct(parts)
    requires forall i :: 0 <= i < |targets| ==> KnownTarget(topics, targets[i]) && LagOrZero(Inspect(topics, targets[i])) == lag(parts[i])
    ensures KnownCommits(topics, UpsertAll(commits, targets))
    ensures TopicLag(topics, UpsertAll(commits, targets), topic)
         == TopicLag(topics, commits, topic) - SumBy(parts, PartitionLags(topics, commits, topic)) + SumBy(parts, lag)
    decreases |targets|
  {
    UpsertAllKnown(topics, commits, targets);
    if targets != [] {
      var t, next := targets[0], Upsert(commits, targets[0]);
      UpsertLag(topics, commits, t, (c: Commit) => c.topic == topic);
      var f, g := PartitionLags(topics, commits, topic), PartitionLags(topics, next, topic);
      UpsertAllLag(topics, next, targets[1..], topic, parts[1..], lag);
      forall i | 0 <= i < |parts[1..]| ensures f(parts[1..][i]) == g(parts[1..][i]) {
        var place := Commit(topic, parts[i + 1], 0);
        assert parts[0] != parts[i + 1];
        UpsertLag(topics, commits, t, (c: Commit) => SamePlace(c, place));
      }
      SumCongruent(parts[1..], f, g);
      LagWhereCongruent(topics, commits, (c: Commit) => SamePlace(c, t), (c: Commit) => SamePlace(c, Commit(topic, parts[0], 0)));
    }
  }

  lemma {:induction false} UpsertAllOthers(
    topics: map<string, Topic>, commits: seq<Commit>, targets: seq<Commit>, select: Commit -> bool)
    requires KnownCommits(topics, commits)
    requires forall i :: 0 <= i < |targets| ==> KnownTarget(topics, targets[i])
    requires forall i, c :: 0 <= i < |targets| && SamePlace(c, targets[i]) ==> !select(c)
    ensures KnownCommits(topics, UpsertAll(commits, targets))
    ensures LagWhere(topics, UpsertAll(commits, targets), select) == LagWhere(topics, commits, select)
    decreases |targets|
  {
    UpsertAllKnown(topics, commits, targets);
    if targets != [] {
      assert SamePlace(targets[0], targets[0]);
      UpsertLag(topics, commits, targets[0], select);
      UpsertAllOthers(topics, Upsert(commits, targets[0]), targets[1..], select);
    }
  }

  lemma {:induction false} LagSplit(topics: map<string, Topic>, commits: seq<Commit>, topic: string)
    requires KnownCommits(topics, commits)
    ensures TotalLag(topics, commits)
         == TopicLag(topics, commits, topic) + LagWhere(topics, commits, (c: Commit) => c.topic != topic)
  {
    if commits != [] {
      LagSplit(topics, commits[1..], topic);
    }
  }

  function ValueOr(o: Option<int>): int {
    if o.Some? then o.value else 0
  }

  /** The distance from where a reset puts a partition to the partition's end. */
  function Behind(t: Topic, target: ResetTarget, timestampMs: Option<int>): int -> int {
    p => if p in t.logs then t.logs[p].high - TargetOf(t.logs[p], target, ValueOr(timestampMs), 0) else 0
  }

  lemma TargetsLag(
    topics: map<string, Topic>, topic: string, parts: seq<int>, target: ResetTarget,
    timestampMs: Option<int>, offset: Option<int>, targets: seq<Commit>)
    requires topic in topics && topics[topic].Valid() && target != ToOffset
    requires AreTargets(topics[topic].logs, topic, parts, target, timestampMs, offset, targets)
    ensures TargetsOf(targets, topic, parts)
    ensures forall i :: 0 <= i < |targets| ==>
              && KnownTarget(topics, targets[i])
              && LagOrZero(Inspect(topics, targets[i])) == Behind(topics[topic], target, timestampMs)(parts[i])
  {
    forall i | 0 <= i < |targets|
      ensures KnownTarget(topics, targets[i])
      ensures LagOrZero(Inspect(topics, targets[i])) == Behind(topics[topic], target, timestampMs)(parts[i])
    {
      TimeTargetInLog(topics[topic].logs[parts[i]], ValueOr(timestampMs));
    }
  }

  /** Resetting all partitions of a topic: its lag becomes the distance from the targets to the ends,
      the rest of the group's lag and the commits of every other topic stay as they were. */
  lemma WholeTopicReset(
    topics: map<string, Topic>, commits: seq<Commit>, topic: string, target: ResetTarget,
    timestampMs: Option<int>, offset: Option<int>, targets: seq<Commit>)
    requires topic in topics && topics[topic].Valid() && KnownCommits(topics, commits) && target != ToOffset
    requires AreTargets(topics[topic].logs, topic, Sorted(topics[topic].order), target, timestampMs, offset, targets)
    ensures var t, after := topics[topic], UpsertAll(commits, targets);
            && KnownCommits(topics, after)
            && TopicLag(topics, after, topic) == SumBy(Sorted(t.order), Behind(t, target, timestampMs))
            && TotalLag(topics, after) - TopicLag(topics, after, topic)
               == TotalLag(topics, commits) - TopicLag(topics, commits, topic)
            && forall c: Commit :: c.topic != topic ==> (c in after <==> c in commits)
  {
    var t := topics[topic];
    var parts, after := Sorted(t.order), UpsertAll(commits, targets);
    SortedMembers(t.order);
    TargetsLag(topics, topic, parts, target, timestampMs, offset, targets);
    UpsertAllLag(topics, commits, targets, topic, parts, Behind(t, target, timestampMs));
    TopicLagByPartition(topics, commits, topic, parts);
    var others := (c: Commit) => c.topic != topic;
    UpsertAllOthers(topics, commits, targets, others);
    LagSplit(topics, commits, topic);
    LagSplit(topics, after, topic);
    forall c: Commit | c.topic != topic ensures c in after <==> c in commits {
      UpsertAllMembers(commits, targets, c);
    }
  }

  /** The start mode that reads from where a reset target points. */
  predicate Corresponds(target: ResetTarget, timestampMs: Option<int>, spec: Spec) {
    match target
    case ToEarliest => spec.start == Earliest
    case ToTimestamp => spec.start == FromTimestamp && spec.timestampMs == timestampMs
    case _ => false
  }

  lemma BehindIsWidth(t: Topic, target: ResetTarget, timestampMs: Option<int>, spec: Spec, plan: Plan, parts: seq<int>)
    requires t.Valid() && IsPlan(t, spec, parts, plan) && Corresponds(target, timestampMs, spec)
    ensures SumBy(parts, Behind(t, target, timestampMs)) == plan.total
  {
    WindowsInRange(t, spec, plan, parts);
    var behind, width := Behind(t, target, timestampMs), Width(plan.starts, plan.ends);
    forall i | 0 <= i < |parts| ensures behind(parts[i]) == width(parts[i]) {
      var p := parts[i];
      assert p in parts;
      assert plan.starts[p] == TargetOf(t.logs[p], target, ValueOr(timestampMs), 0);
      assert width(p) == Max(0, plan.ends[p] - plan.starts[p]);
    }
    SumCongruent(parts, behind, width);
  }

  /** On a quiet log, resetting a whole topic to its beginning or to a time leaves exactly the lag
      that a scan started the same way plans to read (and, from the beginning, the topic's message
      count); resetting it to the end leaves none. */
  lemma ResetAgreesWithPlan(
    topics: map<string, Topic>, commits: seq<Commit>, topic: string, target: ResetTarget,
    timestampMs: Option<int>, offset: Option<int>, targets: seq<Commit>, spec: Spec, plan: Plan)
    requires topic in topics && topics[topic].Valid() && KnownCommits(topics, commits) && target != ToOffset
    requires AreTargets(topics[topic].logs, topic, Sorted(topics[topic].order), target, timestampMs, offset, targets)
    requires target == ToLatest || (Corresponds(target, timestampMs, spec) && IsPlan(topics[topic], spec, Sorted(topics[topic].order), plan))
    ensures var after := UpsertAll(commits, targets);
            && KnownCommits(topics, after)
            && (target == ToLatest ==> TopicLag(topics, after, topic) == 0)
            && (target != ToLatest ==> TopicLag(topics, after, topic) == plan.total)
            && (target == ToEarliest ==> TopicLag(topics, after, topic) == Count(topics[topic]))
  {
    var t := topics[topic];
    var parts, behind := Sorted(t.order), Behind(t, target, timestampMs);
    WholeTopicReset(topics, commits, topic, target, timestampMs, offset, targets);
    if target == ToLatest {
      SumOfConstant(parts, behind, 0);
    } else {
      BehindIsWidth(t, target, timestampMs, spec, plan, parts);
      if target == ToEarliest {
        EarliestTotalIsCount(t, spec, plan);
      }
    }
  }
}
