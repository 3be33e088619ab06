/** The broker as the service layer sees it: topics of partition logs, groups with committed offsets;
    and the topic count of app/services/cluster.py. */
module Cluster {
  import opened Common
  import opened Logs
  import opened Sums

  /** A topic's metadata: its partitions in the order the client lists them. */
  datatype Topic = Topic(order: seq<int>, logs: map<int, Log>, broken: bool) {
    /** Every partition is listed, and every listed one has a log. */
    ghost predicate Listed() {
      && (forall p :: p in logs ==> p in order)
      && forall i :: 0 <= i < |order| ==> order[i] in logs
    }
    ghost predicate Valid() {
      && Distinct(order)
      && Listed()
      && forall p :: p in logs ==> logs[p].Valid() && forall i :: 0 <= i < |logs[p].recs| ==> logs[p].recs[i].partition == p
    }
    function Low(p: int): int {
      if p in logs then logs[p].low else 0
    }
    function High(p: int): int {
      if p in logs then logs[p].high else 0
    }
  }

  datatype Commit = Commit(topic: string, partition: int, offset: int)

  datatype Group = Group(state: string, members: seq<string>, commits: seq<Commit>)

  class Broker {
    var topics: map<string, Topic>
    var groups: map<string, Group>
    var readonly: bool

    ghost predicate Valid()
      reads this
    {
      && (forall name :: name in topics ==> topics[name].Valid())
      && forall id :: id in groups ==> KnownCommits(topics, groups[id].commits)
    }
  }

  /** Every commit is for an existing partition, and no partition has two. */
  predicate KnownCommits(topics: map<string, Topic>, commits: seq<Commit>) {
    && (forall i :: 0 <= i < |commits| ==>
          commits[i].topic in topics && commits[i].partition in topics[commits[i].topic].logs)
    && forall i, j :: 0 <= i < j < |commits| ==>
         commits[i].topic != commits[j].topic || commits[i].partition != commits[j].partition
  }

  /** The topic, unless it is missing or its metadata carries an error. */
  function Metadata(topics: map<string, Topic>, name: string): Option<Topic> {
    if name in topics && !topics[name].broken then Some(topics[name]) else None
  }

  /** The distance between a partition's watermarks. */
  function Span(t: Topic): int -> int {
    p => t.High(p) - t.Low(p)
  }

  function Count(t: Topic): int {
    SumBy(t.order, Span(t))
  }

  lemma NoSpans(t: Topic)
    requires forall p :: p in t.logs ==> t.logs[p].low == t.logs[p].high
    ensures Count(t) == 0
  {
    SumOfConstant(t.order, Span(t), 0);
  }

  /** The records a partition holds. */
  function Held(t: Topic): int -> int {
    p => if p in t.logs then |t.logs[p].recs| else 0
  }

  /** The distances between watermarks, which the topic count and the purge count add up, are never
      less than the records held, and are exactly those if and only if no offset is a gap. */
  lemma CountIsRecordsIff(t: Topic)
    requires t.Valid()
    ensures SumBy(t.order, Held(t)) <= Count(t)
    ensures SumBy(t.order, Held(t)) == Count(t) <==> forall p :: p in t.logs ==> t.logs[p].Full()
  {
    var held, span := Held(t), Span(t);
    forall p | p in t.logs ensures held(p) <= span(p) && (held(p) == span(p) <==> t.logs[p].Full()) {
      SpanIsRecordsIff(t.logs[p]);
    }
    assert forall i :: 0 <= i < |t.order| ==> t.order[i] in t.logs;
    SumDominated(t.order, held, span);
    if forall p :: p in t.logs ==> t.logs[p].Full() {
      SumCongruent(t.order, held, span);
    }
  }

  /** `topic_message_count` */
  method TopicMessageCount(broker: Broker, name: string) returns (count: Option<int>)
    ensures if name !in broker.topics || broker.topics[name].broken then count == None
            else count == Some(Count(broker.topics[name]))
  {
    var topic := Metadata(broker.topics, name);
    if topic.None? {
      return None;
    }
    var t, sum := topic.value, 0;
    for i := 0 to |t.order|
      invariant sum + SumBy(t.order[i..], Span(t)) == Count(t)
    {
      sum := sum + (t.High(t.order[i]) - t.Low(t.order[i]));
      assert t.order[i..][1..] == t.order[i + 1..];
    }
    return Some(sum);
  }

  /** The first offset at or after a time, or -1 when everything is older (`offsets_for_times`). */
  function OffsetForTime(recs: seq<Rec>, timestamp: int): (o: int)
    ensures o == -1 || exists i :: 0 <= i < |recs| && o == recs[i].offset && recs[i].timestamp >= timestamp
  {
    if recs == [] then -1
    else if recs[0].timestamp >= timestamp then recs[0].offset
    else
      var rest := OffsetForTime(recs[1..], timestamp);
      assert rest != -1 ==> exists i :: 1 <= i < |recs| && rest == recs[i].offset && recs[i].timestamp >= timestamp by {
        if rest != -1 {
          var i :| 0 <= i < |recs[1..]| && rest == recs[1..][i].offset && recs[1..][i].timestamp >= timestamp;
          assert recs[i + 1].offset == rest;
        }
      }
      rest
  }

  /** Where reading from a time starts in a partition: its end when everything in it is older. */
  function TimeTarget(log: Log, timestamp: int): int {
    var o := OffsetForTime(log.recs, timestamp);
    if o < 0 then log.high else o
  }

  /** It separates the log: everything before it is older than the time, and the record at it, if
      there is one, is not. */
  lemma {:induction false} TimeTargetSeparates(recs: seq<Rec>, high: nat, timestamp: int)
    requires Increasing(recs) && forall i :: 0 <= i < |recs| ==> recs[i].offset < high
    ensures var target := TimeTarget(Log(0, high, recs), timestamp);
            && target <= high
            && (forall i :: 0 <= i < |recs| && recs[i].offset < target ==> recs[i].timestamp < timestamp)
            && (forall i :: 0 <= i < |recs| && recs[i].offset == target ==> recs[i].timestamp >= timestamp)
            && (target < high ==> exists i :: 0 <= i < |recs| && recs[i].offset == target)
  {
    if recs != [] && recs[0].timestamp < timestamp {
      TimeTargetSeparates(recs[1..], high, timestamp);
      var target := TimeTarget(Log(0, high, recs), timestamp);
      forall i | 0 <= i < |recs|
        ensures recs[i].offset < target ==> recs[i].timestamp < timestamp
        ensures recs[i].offset == target ==> recs[i].timestamp >= timestamp
      {
        if i > 0 {
          assert recs[1..][i - 1] == recs[i];
        }
      }
    }
  }

  lemma TimeTargetInLog(log: Log, timestamp: int)
    requires log.Valid()
    ensures log.low <= TimeTarget(log, timestamp) <= log.high
  {
  }
}
