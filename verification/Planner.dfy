/** Where a scan or a tail of app/services/messages.py starts and ends in each partition. */
module Planner {
  import opened Common
  import opened Logs
  import opened Sums
  import opened Cluster

  datatype StartMode = Latest | Earliest | FromTimestamp

  /** The window fields of a `ScanSpec`. */
  datatype Spec = Spec(topic: string, partition: Option<int>, start: StartMode, lookback: int, timestampMs: Option<int>)

  datatype Plan = Plan(parts: seq<int>, starts: map<int, int>, ends: map<int, int>, total: int)

  datatype PlanError = TopicNotFound | PartitionNotFound | TimestampRequired | DivisionByZero

  /** The partitions in play: one that must exist, or all of them in order. */
  function Selected(t: Topic, partition: Option<int>): Result<seq<int>, PlanError> {
    match partition
    case None => Ok(Sorted(t.order))
    case Some(p) => if p in Sorted(t.order) then Ok([p]) else Err(PartitionNotFound)
  }

  function PerPartition(lookback: int, n: int): int
    requires n > 0
  {
    Max(1, lookback / n)
  }

  /** The first offset to read in a partition. */
  function StartOf(log: Log, spec: Spec, n: int): int
    requires n > 0 && (spec.start.FromTimestamp? ==> spec.timestampMs.Some?)
  {
    match spec.start
    case FromTimestamp => TimeTarget(log, spec.timestampMs.value)
    case Earliest => log.low
    case Latest => Max(log.low, log.high - PerPartition(spec.lookback, n))
  }

  /** The records a partition contributes to the window. */
  function Width(starts: map<int, int>, ends: map<int, int>): int -> int {
    p => Max(0, Get(ends, p) - Get(starts, p))
  }

  lemma NoWidths(parts: seq<int>, starts: map<int, int>, ends: map<int, int>)
    requires forall p :: p in parts ==> p in starts && p in ends && starts[p] == ends[p]
    ensures SumBy(parts, Width(starts, ends)) == 0
  {
    SumOfConstant(parts, Width(starts, ends), 0);
  }

  ghost predicate IsPlan(t: Topic, spec: Spec, parts: seq<int>, plan: Plan) {
    && plan.parts == parts
    && (forall p :: p in plan.starts <==> p in parts)
    && (forall p :: p in plan.ends <==> p in parts)
    && plan.starts.Keys == plan.ends.Keys
    && (spec.start.FromTimestamp? ==> spec.timestampMs.Some?)
    && (forall p :: p in parts ==> p in t.logs && plan.ends[p] == t.logs[p].high && plan.starts[p] == StartOf(t.logs[p], spec, |parts|))
    && plan.total == SumBy(parts, Width(plan.starts, plan.ends))
  }

  lemma SelectedExist(t: Topic, partition: Option<int>)
    requires t.Valid() && Selected(t, partition).Ok?
    ensures Distinct(Selected(t, partition).value)
    ensures forall p :: p in Selected(t, partition).value ==> p in t.logs
    ensures forall i :: 0 <= i < |Selected(t, partition).value| ==> Selected(t, partition).value[i] in t.logs
    ensures partition.None? ==> forall p :: p in t.logs ==> p in Selected(t, partition).value
    ensures partition.None? ==> Ascending(Selected(t, partition).value) && |Selected(t, partition).value| == |t.order|
  {
    SortedMembers(t.order);
    SortedAscends(t.order);
  }

  /** The timestamp branch of `_plan`: one answer of `offsets_for_times` after the other. */
  method TimeStarts(logs: map<int, Log>, parts: seq<int>, timestamp: int) returns (starts: map<int, int>)
    requires forall p :: p in parts ==> p in logs
    ensures forall p :: p in starts <==> p in parts
    ensures forall p :: p in parts ==> starts[p] == TimeTarget(logs[p], timestamp)
  {
    starts := map[];
    for i := 0 to |parts|
      invariant forall p :: p in starts <==> p in parts[..i]
      invariant forall p :: p in starts ==> starts[p] == TimeTarget(logs[p], timestamp)
    {
      var p := parts[i];
      assert p in parts;
      var offset := OffsetForTime(logs[p].recs, timestamp);
      starts := starts[p := if offset < 0 then logs[p].high else offset];
    }
    assert parts[..|parts|] == parts;
  }

  method TotalWidth(parts: seq<int>, starts: map<int, int>, ends: map<int, int>) returns (total: int)
    ensures total == SumBy(parts, Width(starts, ends))
  {
    total := 0;
    for i := 0 to |parts|
      invariant total + SumBy(parts[i..], Width(starts, ends)) == SumBy(parts, Width(starts, ends))
    {
      total := total + Max(0, Get(ends, parts[i]) - Get(starts, parts[i]));
      assert parts[i..][1..] == parts[i + 1..];
    }
  }

  /** The branches of `_plan` on the start mode: where each partition starts, or why nowhere. */
  method ChooseStarts(t: Topic, spec: Spec, parts: seq<int>) returns (r: Result<map<int, int>, PlanError>)
    requires forall p :: p in parts ==> p in t.logs
    ensures r.Err? ==> r.error == if spec.start.FromTimestamp? then TimestampRequired else DivisionByZero
    ensures r.Err? <==> (spec.start.FromTimestamp? && spec.timestampMs.None?) || (spec.start.Latest? && parts == [])
    ensures r.Ok? ==> forall p :: p in r.value <==> p in parts
    ensures r.Ok? ==> forall p :: p in parts ==> r.value[p] == StartOf(t.logs[p], spec, |parts|)
  {
    match spec.start {
      case FromTimestamp =>
        if spec.timestampMs.None? {
          return Err(TimestampRequired);
        }
        var starts := TimeStarts(t.logs, parts, spec.timestampMs.value);
        return Ok(starts);
      case Earliest =>
        return Ok(map p | p in parts :: t.logs[p].low);
      case Latest =>
        if |parts| == 0 {
          return Err(DivisionByZero);
        }
        var perPartition := Max(1, spec.lookback / |parts|);
        return Ok(map p | p in parts :: Max(t.logs[p].low, t.logs[p].high - perPartition));
    }
  }

  /** The part of `_plan` that follows the metadata checks. */
  method PlanWindows(t: Topic, spec: Spec, parts: seq<int>) returns (r: Result<Plan, PlanError>)
    requires forall p :: p in parts ==> p in t.logs
    ensures r.Ok? ==> IsPlan(t, spec, parts, r.value)
    ensures r.Err? ==> r.error == if spec.start.FromTimestamp? then TimestampRequired else DivisionByZero
    ensures r.Err? <==> (spec.start.FromTimestamp? && spec.timestampMs.None?) || (spec.start.Latest? && parts == [])
  {
    var chosen := ChooseStarts(t, spec, parts);
    if chosen.Err? {
      return Err(chosen.error);
    }
    var starts, ends := chosen.value, map p | p in parts :: t.logs[p].high;
    var total := TotalWidth(parts, starts, ends);
    return Ok(Plan(parts, starts, ends, total));
  }

  /** `_plan` */
  method MakePlan(broker: Broker, spec: Spec) returns (r: Result<Plan, PlanError>)
    requires broker.Valid()
    ensures var known := spec.topic in broker.topics && !broker.topics[spec.topic].broken;
            match r
            case Err(TopicNotFound) => !known
            case Err(PartitionNotFound) =>
              known && spec.partition.Some? && spec.partition.value !in broker.topics[spec.topic].logs
            case Err(TimestampRequired) =>
              && known && (spec.partition.Some? ==> spec.partition.value in broker.topics[spec.topic].logs)
              && spec.start.FromTimestamp? && spec.timestampMs.None?
            case Err(DivisionByZero) =>
              known && spec.partition.None? && spec.start.Latest? && broker.topics[spec.topic].logs == map[]
            case Ok(plan) => known && IsPlan(broker.topics[spec.topic], spec, plan.parts, plan)
    ensures r.Ok? && spec.partition.Some? ==>
              var p := spec.partition.value;
              r.value.parts == [p] && r.value.starts.Keys == {p} && r.value.ends.Keys == {p}
    ensures r.Ok? && spec.partition.None? ==>
              && Distinct(r.value.parts) && Ascending(r.value.parts)
              && forall p :: p in r.value.parts <==> p in broker.topics[spec.topic].logs
    ensures r.Ok? ==> Selected(broker.topics[spec.topic], spec.partition) == Ok(r.value.parts)
  {
    var topic := Metadata(broker.topics, spec.topic);
    if topic.None? {
      return Err(TopicNotFound);
    }
    var selected := Selected(topic.value, spec.partition);
    SortedMembers(topic.value.order);
    if selected.Err? {
      return Err(selected.error);
    }
    SelectedExist(topic.value, spec.partition);
    r := PlanWindows(topic.value, spec, selected.value);
    NoPartitions(topic.value, selected.value);
    if r.Ok? && spec.partition.Some? {
      OneKey(r.value.starts, spec.partition.value);
      OneKey(r.value.ends, spec.partition.value);
    }
  }

  lemma OneKey(m: map<int, int>, p: int)
    requires forall q :: q in m <==> q in [p]
    ensures m.Keys == {p}
  {
    assert forall q :: q in m <==> q == p;
  }

  lemma NoPartitions(t: Topic, parts: seq<int>)
    requires forall p :: p in parts ==> p in t.logs
    ensures parts == [] && (forall p :: p in t.logs ==> p in parts) ==> t.logs == map[]
  {
    if parts == [] && forall p :: p in t.logs ==> p in parts {
      assert forall p :: p !in t.logs;
    }
  }

  /** The high watermarks of some partitions. */
  method EndsOf(logs: map<int, Log>, parts: seq<int>) returns (ends: map<int, int>)
    requires forall p :: p in parts ==> p in logs
    ensures forall p :: p in ends <==> p in parts
    ensures forall p :: p in parts ==> p in ends && ends[p] == logs[p].high
  {
    ends := map[];
    for i := 0 to |parts|
      invariant forall p :: p in ends <==> p in parts[..i]
      invariant forall p :: p in ends ==> p in logs && ends[p] == logs[p].high
    {
      var p := parts[i];
      assert p in parts;
      ends := ends[p := logs[p].high];
    }
    assert parts[..|parts|] == parts;
  }

  /** `_tail_assignments`: every partition in play, at its current end. */
  method TailAssignments(broker: Broker, topicName: string, partition: Option<int>)
    returns (r: Result<map<int, int>, PlanError>)
    requires broker.Valid()
    ensures if topicName !in broker.topics || broker.topics[topicName].broken then r == Err(TopicNotFound)
            else
              var logs := broker.topics[topicName].logs;
              if partition.Some? && partition.value !in logs then r == Err(PartitionNotFound)
              else
                && r.Ok?
                && (forall p :: p in r.value <==> p in logs && (partition.Some? ==> p == partition.value))
                && forall p :: p in r.value ==> r.value[p] == logs[p].high
  {
    var topic := Metadata(broker.topics, topicName);
    if topic.None? {
      return Err(TopicNotFound);
    }
    var logs, selected := topic.value.logs, Selected(topic.value, partition);
    SortedMembers(topic.value.order);
    if selected.Err? {
      return Err(selected.error);
    }
    SelectedExist(topic.value, partition);
    var assignments := EndsOf(logs, selected.value);
    return Ok(assignments);
  }

  // ---- What the windows promise ----

  lemma StartInRange(log: Log, spec: Spec, n: int)
    requires log.Valid() && n > 0 && (spec.start.FromTimestamp? ==> spec.timestampMs.Some?)
    ensures log.low <= StartOf(log, spec, n) <= log.high
  {
    if spec.start.FromTimestamp? {
      TimeTargetInLog(log, spec.timestampMs.value);
    }
  }

  /** Every window lies between the watermarks, whatever the start mode. */
  lemma WindowsInRange(t: Topic, spec: Spec, plan: Plan, parts: seq<int>)
    requires t.Valid() && IsPlan(t, spec, parts, plan)
    ensures forall p :: p in parts ==> t.logs[p].low <= plan.starts[p] <= plan.ends[p] == t.logs[p].high
  {
    forall p | p in parts ensures t.logs[p].low <= plan.starts[p] <= plan.ends[p] == t.logs[p].high {
      StartInRange(t.logs[p], spec, |parts|);
    }
  }

  lemma LookbackSplit(lookback: int, n: int)
    requires n >= 1
    ensures n * PerPartition(lookback, n) <= Max(lookback, n)
    ensures lookback >= n ==> n * PerPartition(lookback, n) > lookback - n
  {
    var q := lookback / n;
    assert n * q <= lookback < n * q + n;
    if q < 1 {
      assert n * 1 == n;
    } else {
      assert lookback >= n * q >= n;
    }
  }

  /** The tail window splits the lookback: all partitions together never hold more than the lookback
      (or one record each), and if every partition is long enough they hold all of it but a rest
      smaller than the number of partitions. */
  lemma LatestWindow(t: Topic, spec: Spec, plan: Plan, parts: seq<int>)
    requires t.Valid() && IsPlan(t, spec, parts, plan) && spec.start.Latest? && |parts| >= 1
    ensures plan.total <= Max(spec.lookback, |parts|)
    ensures (forall p :: p in parts ==> t.logs[p].high - t.logs[p].low >= PerPartition(spec.lookback, |parts|))
            && spec.lookback >= |parts|
            ==> spec.lookback - |parts| < plan.total <= spec.lookback
  {
    var n, per := |parts|, PerPartition(spec.lookback, |parts|);
    var width := Width(plan.starts, plan.ends);
    WindowsInRange(t, spec, plan, parts);
    LookbackSplit(spec.lookback, n);
    SumAtMost(parts, width, per);
    if forall p :: p in parts ==> t.logs[p].high - t.logs[p].low >= per {
      SumOfConstant(parts, width, per);
    }
  }

  lemma ShareFits(lookback: int, n: int)
    requires n >= 1
    ensures var share := PerPartition(lookback, n);
            share >= 1 && (share == 1 || share * n <= lookback) && lookback < (share + 1) * n
  {
    var q := lookback / n;
    assert n * q <= lookback < n * q + n;
    if q < 1 {
      assert n * q <= 0;
    }
  }

  /** Each partition's window is its last records, as many as its share or all it holds: the share is
      the largest number that the lookback affords every partition, and at least 1. */
  lemma LatestShares(t: Topic, spec: Spec, plan: Plan, parts: seq<int>) returns (share: int)
    requires t.Valid() && IsPlan(t, spec, parts, plan) && spec.start.Latest? && |parts| >= 1
    ensures share >= 1 && (share == 1 || share * |parts| <= spec.lookback) && spec.lookback < (share + 1) * |parts|
    ensures forall p :: p in parts ==>
              plan.ends[p] - plan.starts[p] == Min(t.logs[p].high - t.logs[p].low, share)
  {
    share := PerPartition(spec.lookback, |parts|);
    ShareFits(spec.lookback, |parts|);
    forall p | p in parts
      ensures plan.ends[p] - plan.starts[p] == Min(t.logs[p].high - t.logs[p].low, share)
    {
      assert plan.starts[p] == StartOf(t.logs[p], spec, |parts|);
    }
  }

  /** Reading from the earliest offset of all partitions covers exactly what the topic count counts,
      although one adds up sorted partitions and the other takes them as the client lists them. */
  lemma EarliestTotalIsCount(t: Topic, spec: Spec, plan: Plan)
    requires t.Valid() && spec.start.Earliest? && IsPlan(t, spec, Sorted(t.order), plan)
    ensures plan.total == Count(t)
  {
    WindowsInRange(t, spec, plan, Sorted(t.order));
    EarliestWidths(t.logs, t, Sorted(t.order), plan.starts, plan.ends);
    SortedFacts(t.order, Span(t));
  }

  lemma EarliestWidths(logs: map<int, Log>, t: Topic, parts: seq<int>, starts: map<int, int>, ends: map<int, int>)
    requires logs == t.logs
    requires forall p :: p in parts ==>
               p in logs && p in starts && p in ends && starts[p] == logs[p].low <= ends[p] == logs[p].high
    ensures SumBy(parts, Width(starts, ends)) == SumBy(parts, Span(t))
  {
    var width, span := Width(starts, ends), Span(t);
    forall i | 0 <= i < |parts| ensures width(parts[i]) == span(parts[i]) {
      assert parts[i] in parts;
    }
    SumCongruent(parts, width, span);
  }
}
