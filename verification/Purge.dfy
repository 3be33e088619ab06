/** `purge_topic` of app/services/admin.py: read every partition's watermarks, then delete up to the
    highs that were read, with producers appending in between. */
module Purge {
  import opened Common
  import opened Logs
  import opened Sums
  import opened Cluster
  import opened Planner

  datatype PurgeError = ReadOnlyCluster | InternalTopic | UnknownTopic

  /** `delete_records` up to an offset. */
  function DeleteBelow(log: Log, offset: int): Log {
    if offset <= log.low then log
    else Log(Min(offset, log.high), log.high, Since(log.recs, Min(offset, log.high)))
  }

  // ---- The steps, interleaved with producers ----

  /** The partitions' logs and the state of one purge: partitions not read yet, the highs read, the
      partitions whose deletion has not completed, and the count so far. */
  datatype World = World(logs: map<int, Log>, todo: seq<int>, highs: map<int, int>, pending: set<int>, purged: int)

  datatype Action = Append(rec: Rec) | ReadNext | Delete(p: int)

  function AppendTo(log: Log, rec: Rec): Log {
    Log(log.low, rec.offset + 1, log.recs + [rec])
  }

  /** One step of somebody; a step that is not possible does nothing. Deletions start when all the
      reads are done, and complete in any order. */
  function Step(w: World, a: Action): World {
    match a
    case Append(rec) =>
      if rec.partition in w.logs && rec.offset == w.logs[rec.partition].high then
        w.(logs := w.logs[rec.partition := AppendTo(w.logs[rec.partition], rec)])
      else w
    case ReadNext =>
      if w.todo == [] || w.todo[0] !in w.logs then w
      else
        var p := w.todo[0];
        var log := w.logs[p];
        w.(todo := w.todo[1..], highs := w.highs[p := log.high], pending := w.pending + {p}, purged := w.purged + (log.high - log.low))
    case Delete(p) =>
      if w.todo == [] && p in w.pending && p in w.logs && p in w.highs then
        w.(logs := w.logs[p := DeleteBelow(w.logs[p], w.highs[p])], pending := w.pending - {p})
      else w
  }

  ghost predicate GoodLogs(logs: map<int, Log>) {
    forall p :: p in logs ==> logs[p].Valid()
  }

  lemma StepGood(w: World, a: Action)
    requires GoodLogs(w.logs)
    ensures GoodLogs(Step(w, a).logs)
  {
    match a
    case Append(rec) =>
    case ReadNext =>
    case Delete(p) =>
      if p in w.logs && p in w.highs {
        DeleteGood(w.logs[p], w.highs[p]);
      }
  }

  lemma DeleteGood(log: Log, offset: int)
    requires log.Valid()
    ensures DeleteBelow(log, offset).Valid()
    ensures log.low <= offset <= log.high ==> DeleteBelow(log, offset) == Log(offset, log.high, Since(log.recs, offset))
  {
    if offset > log.low {
      SinceValid(log, Min(offset, log.high));
    } else {
      FilterAll(log.recs, (r: Rec) => r.offset >= offset);
    }
  }

  lemma SinceValid(log: Log, offset: nat)
    requires log.Valid() && offset <= log.high
    ensures Log(offset, log.high, Since(log.recs, offset)).Valid()
  {
    SinceFacts(log.recs, offset);
    var kept := Since(log.recs, offset);
    forall i | 0 <= i < |kept| ensures offset <= kept[i].offset < log.high {
      assert kept[i] in kept && kept[i] in log.recs;
    }
  }

  function Start(t: Topic): World {
    World(t.logs, t.order, map[], {}, 0)
  }

  /** The world after an interleaving. */
  ghost function Interleave(t: Topic, actions: seq<Action>): (w: World)
    requires t.Valid()
    ensures GoodLogs(w.logs)
  {
    if actions == [] then Start(t)
    else
      var w := Interleave(t, actions[..|actions| - 1]);
      StepGood(w, actions[|actions| - 1]);
      Step(w, actions[|actions| - 1])
  }

  /** `late` with the record of this step, if it lands in a partition the purge has already read. */
  function LateStep(w: World, a: Action, p: int, late: seq<Rec>): seq<Rec> {
    if a.Append? && a.rec.partition == p && p in w.highs && p in w.logs && a.rec.offset == w.logs[p].high
    then late + [a.rec]
    else late
  }

  /** The records appended to a partition after the purge had read its watermarks. */
  ghost function Late(t: Topic, actions: seq<Action>, p: int): seq<Rec>
    requires t.Valid()
  {
    if actions == [] then []
    else
      var init := actions[..|actions| - 1];
      LateStep(Interleave(t, init), actions[|actions| - 1], p, Late(t, init, p))
  }

  /** The high watermarks a purge has read, less the low ones. */
  function Purgeable(t: Topic, highs: map<int, int>): int -> int {
    p => Get(highs, p) - t.Low(p)
  }

  ghost predicate PartitionFacts(t: Topic, w: World, p: int, late: seq<Rec>)
    requires p in t.logs && p in w.logs
  {
    var log := w.logs[p];
    if p !in w.highs then log.low == t.logs[p].low && p !in w.pending && late == []
    else if p in w.pending then
      log.low == t.logs[p].low <= w.highs[p] <= log.high && Since(log.recs, w.highs[p]) == late
    else t.logs[p].low <= log.low == w.highs[p] && log.recs == late
  }

  /** What has been read, what is pending and what has been counted. */
  ghost predicate Books(t: Topic, w: World) {
    var k := |t.order| - |w.todo|;
    && 0 <= k && w.todo == t.order[k..]
    && w.logs.Keys == t.logs.Keys
    && (forall p :: p in w.highs <==> p in t.order[..k])
    && (forall p :: p in w.pending ==> p in w.highs)
    && (w.todo != [] ==> forall p :: p in w.highs ==> p in w.pending)
    && w.purged == SumBy(t.order[..k], Purgeable(t, w.highs))
  }

  ghost predicate PurgeInv(t: Topic, actions: seq<Action>)
    requires t.Valid()
  {
    var w := Interleave(t, actions);
    && Books(t, w)
    && forall p :: p in t.logs ==> PartitionFacts(t, w, p, Late(t, actions, p))
  }

  lemma SumSnoc(parts: seq<int>, p: int, f: int -> int)
    ensures SumBy(parts + [p], f) == SumBy(parts, f) + f(p)
  {
    if parts == [] {
      assert [p][1..] == [] && parts + [p] == [p];
    } else {
      SumSnoc(parts[1..], p, f);
      assert (parts + [p])[1..] == parts[1..] + [p];
    }
  }

  lemma ReadSum(order: seq<int>, k: nat, f: int -> int, g: int -> int)
    requires k < |order| && Distinct(order) && forall q :: q != order[k] ==> f(q) == g(q)
    ensures order[..k + 1] == order[..k] + [order[k]] && order[k] !in order[..k]
    ensures SumBy(order[..k + 1], g) == SumBy(order[..k], f) + g(order[k])
  {
    assert order[..k + 1] == order[..k] + [order[k]];
    SumSnoc(order[..k], order[k], g);
    SumCongruent(order[..k], f, g);
  }

  lemma ReadKeepsBooks(t: Topic, w: World)
    requires Distinct(t.order) && GoodLogs(w.logs) && Books(t, w)
    requires w.todo != [] ==> w.todo[0] in w.logs && w.logs[w.todo[0]].low == t.Low(w.todo[0])
    ensures Books(t, Step(w, ReadNext))
  {
    if w.todo != [] {
      var k, w' := |t.order| - |w.todo|, Step(w, ReadNext);
      var p := w.todo[0];
      ReadSum(t.order, k, Purgeable(t, w.highs), Purgeable(t, w'.highs));
      assert w'.todo == t.order[k + 1..];
      assert w'.purged == w.purged + Purgeable(t, w'.highs)(p);
    }
  }

  lemma AppendKeepsBooks(t: Topic, w: World, rec: Rec)
    requires GoodLogs(w.logs) && Books(t, w)
    ensures Books(t, Step(w, Append(rec)))
  {
    if rec.partition in w.logs {
      assert w.logs[rec.partition := AppendTo(w.logs[rec.partition], rec)].Keys == w.logs.Keys;
    }
  }

  lemma DeleteKeepsBooks(t: Topic, w: World, p: int)
    requires GoodLogs(w.logs) && Books(t, w)
    ensures Books(t, Step(w, Delete(p)))
  {
    if p in w.logs && p in w.highs {
      assert w.logs[p := DeleteBelow(w.logs[p], w.highs[p])].Keys == w.logs.Keys;
    }
  }

  lemma AppendKeepsPart(t: Topic, w: World, rec: Rec, p: int, late: seq<Rec>)
    requires GoodLogs(w.logs) && p in t.logs && p in w.logs && PartitionFacts(t, w, p, late)
    ensures PartitionFacts(t, Step(w, Append(rec)), p, LateStep(w, Append(rec), p, late))
  {
    if rec.partition == p && rec.offset == w.logs[p].high {
      var recs := w.logs[p].recs;
      assert (recs + [rec])[..|recs|] == recs;
    }
  }

  lemma ReadKeepsPart(t: Topic, w: World, p: int, late: seq<Rec>)
    requires t.Valid() && GoodLogs(w.logs) && Books(t, w)
    requires p in t.logs && p in w.logs && PartitionFacts(t, w, p, late)
    ensures PartitionFacts(t, Step(w, ReadNext), p, late)
  {
    var k := |t.order| - |w.todo|;
    if w.todo != [] && p == w.todo[0] {
      assert t.order[k] == p && p !in t.order[..k];
      FilterNone(w.logs[p].recs, (r: Rec) => r.offset >= w.logs[p].high);
    }
  }

  lemma DeleteKeepsPart(t: Topic, w: World, d: int, p: int, late: seq<Rec>)
    requires GoodLogs(w.logs) && p in t.logs && p in w.logs && PartitionFacts(t, w, p, late)
    ensures PartitionFacts(t, Step(w, Delete(d)), p, late)
  {
    if d == p && p in w.highs && p in w.pending {
      DeleteGood(w.logs[p], w.highs[p]);
    }
  }

  lemma StartBooks(t: Topic)
    ensures Books(t, Start(t))
  {
    assert t.order[0..] == t.order && t.order[..0] == [];
  }

  lemma StartInv(t: Topic)
    requires t.Valid()
    ensures PurgeInv(t, [])
  {
    StartBooks(t);
  }

  lemma NextUnread(t: Topic, w: World, late: seq<Rec>)
    requires t.Valid() && Books(t, w) && w.todo != []
    requires w.todo[0] in t.logs && PartitionFacts(t, w, w.todo[0], late)
    ensures w.logs[w.todo[0]].low == t.Low(w.todo[0])
  {
    var k := |t.order| - |w.todo|;
    assert w.todo[0] == t.order[k] && t.order[k] !in t.order[..k];
  }

  lemma UnreadIsListed(t: Topic, w: World)
    requires t.Valid() && Books(t, w) && w.todo != []
    ensures w.todo[0] in t.logs && w.todo[0] in w.logs
  {
    var k := |t.order| - |w.todo|;
    assert w.todo[0] == t.order[k] && t.order[k] in t.order;
  }

  lemma StepKeepsBoth(t: Topic, w: World, a: Action, late: int -> seq<Rec>)
    requires t.Valid() && GoodLogs(w.logs) && Books(t, w)
    requires forall p :: p in t.logs ==> PartitionFacts(t, w, p, late(p))
    ensures Books(t, Step(w, a))
    ensures forall p :: p in t.logs ==> PartitionFacts(t, Step(w, a), p, LateStep(w, a, p, late(p)))
  {
    if a.ReadNext? {
      if w.todo != [] {
        UnreadIsListed(t, w);
        NextUnread(t, w, late(w.todo[0]));
      }
      ReadKeepsBooks(t, w);
    } else if a.Append? {
      AppendKeepsBooks(t, w, a.rec);
    } else {
      DeleteKeepsBooks(t, w, a.p);
    }
    forall p | p in t.logs ensures PartitionFacts(t, Step(w, a), p, LateStep(w, a, p, late(p))) {
      match a
      case Append(rec) => AppendKeepsPart(t, w, rec, p, late(p));
      case ReadNext => ReadKeepsPart(t, w, p, late(p));
      case Delete(d) => DeleteKeepsPart(t, w, d, p, late(p));
    }
  }

  lemma {:induction false} PurgeInvAlways(t: Topic, actions: seq<Action>)
    requires t.Valid()
    ensures PurgeInv(t, actions)
  {
    if actions == [] {
      StartInv(t);
    } else {
      var init := actions[..|actions| - 1];
      PurgeInvAlways(t, init);
      StepKeepsBoth(t, Interleave(t, init), actions[|actions| - 1], p => Late(t, init, p));
    }
  }

  ghost predicate Completed(w: World) {
    w.todo == [] && w.pending == {}
  }

  /** The watermark span a purge has removed. */
  function Removed(t: Topic, logs: map<int, Log>): int -> int {
    p => (if p in logs then logs[p].low else 0) - t.Low(p)
  }

  lemma CompletedPart(t: Topic, w: World, p: int, late: seq<Rec>)
    requires t.Listed() && Books(t, w) && Completed(w)
    requires p in t.logs && p in w.logs && PartitionFacts(t, w, p, late)
    ensures p in w.highs && w.logs[p].low == w.highs[p] && w.logs[p].recs == late
  {
    assert t.order[..|t.order|] == t.order;
  }

  lemma SpansRemoved(t: Topic, w: World)
    requires t.Listed() && w.purged == SumBy(t.order, Purgeable(t, w.highs))
    requires forall p :: p in t.logs ==> p in w.logs && p in w.highs && w.logs[p].low == w.highs[p]
    ensures w.purged == SumBy(t.order, Removed(t, w.logs))
  {
    var f, g := Purgeable(t, w.highs), Removed(t, w.logs);
    forall i | 0 <= i < |t.order| ensures f(t.order[i]) == g(t.order[i]) {
      assert t.order[i] in t.logs;
    }
    SumCongruent(t.order, f, g);
  }

  /** What a completed purge leaves of a partition. */
  ghost predicate LeftOver(t: Topic, actions: seq<Action>, w: World, p: int)
    requires t.Valid()
  {
    p in w.logs && p in w.highs && w.logs[p].low == w.highs[p] && w.logs[p].recs == Late(t, actions, p)
  }

  /** In every interleaving with producers, a completed purge has removed exactly the records below
      the highs it read: what is left of a partition is what was appended after its watermarks were
      read, and the count returned is the watermark span removed. */
  lemma PurgeKeepsOnlyLateRecords(t: Topic, actions: seq<Action>, w: World)
    requires t.Valid() && w == Interleave(t, actions) && Completed(w)
    ensures forall p :: p in t.logs ==> LeftOver(t, actions, w, p)
    ensures w.purged == SumBy(t.order, Removed(t, w.logs))
  {
    PurgeInvAlways(t, actions);
    forall p | p in t.logs ensures LeftOver(t, actions, w, p) {
      CompletedPart(t, w, p, Late(t, actions, p));
    }
    assert t.order[..|t.order|] == t.order;
    SpansRemoved(t, w);
  }

  // ---- A purge nobody interrupts ----

  /** The topic with every partition emptied up to its end. */
  function Emptied(t: Topic): Topic {
    t.(logs := map p | p in t.logs :: DeleteBelow(t.logs[p], t.logs[p].high))
  }

  /** The first loop of `purge_topic`: the highs to delete up to, and how many offsets that is. */
  method ReadWatermarks(t: Topic) returns (toDelete: map<int, int>, purged: int)
    requires forall i :: 0 <= i < |t.order| ==> t.order[i] in t.logs
    ensures forall i :: 0 <= i < |t.order| ==> t.order[i] in toDelete
    ensures forall p :: p in toDelete ==> p in t.logs && toDelete[p] == t.logs[p].high
    ensures purged == Count(t)
  {
    toDelete, purged := map[], 0;
    for i := 0 to |t.order|
      invariant forall j :: 0 <= j < i ==> t.order[j] in toDelete
      invariant forall p :: p in toDelete ==> p in t.logs && toDelete[p] == t.logs[p].high
      invariant purged + SumBy(t.order[i..], Span(t)) == Count(t)
    {
      var p := t.order[i];
      SpanStep(t, i);
      purged := purged + (t.logs[p].high - t.logs[p].low);
      toDelete := toDelete[p := t.logs[p].high];
    }
  }

  lemma SpanStep(t: Topic, i: nat)
    requires i < |t.order| && t.order[i] in t.logs
    ensures SumBy(t.order[i..], Span(t))
         == t.logs[t.order[i]].high - t.logs[t.order[i]].low + SumBy(t.order[i + 1..], Span(t))
  {
    assert t.order[i..][1..] == t.order[i + 1..];
  }

  lemma EmptiedValid(t: Topic)
    requires t.Valid()
    ensures Emptied(t).Valid()
    ensures forall p :: p in t.logs ==> Emptied(t).logs[p] == Log(t.logs[p].high, t.logs[p].high, [])
  {
    forall p | p in t.logs ensures Emptied(t).logs[p] == Log(t.logs[p].high, t.logs[p].high, []) {
      DeleteGood(t.logs[p], t.logs[p].high);
      FilterNone(t.logs[p].recs, (r: Rec) => r.offset >= t.logs[p].high);
    }
  }

  /** The second loop: every partition deleted up to the high read for it. */
  method DeleteRecords(t: Topic, toDelete: map<int, int>) returns (logs: map<int, Log>)
    requires t.Valid() && forall i :: 0 <= i < |t.order| ==> t.order[i] in toDelete
    requires forall p :: p in toDelete ==> p in t.logs && toDelete[p] == t.logs[p].high
    ensures logs == Emptied(t).logs
  {
    logs := t.logs;
    for i := 0 to |t.order|
      invariant logs.Keys == t.logs.Keys && forall j :: 0 <= j < |t.order| ==> t.order[j] in logs
      invariant forall j :: 0 <= j < i ==> logs[t.order[j]] == DeleteBelow(t.logs[t.order[j]], t.logs[t.order[j]].high)
      invariant forall j :: i <= j < |t.order| ==> logs[t.order[j]] == t.logs[t.order[j]]
    {
      var p := t.order[i];
      logs := logs[p := DeleteBelow(logs[p], toDelete[p])];
    }
    EmptiedIs(t, logs);
  }

  lemma EmptiedIs(t: Topic, logs: map<int, Log>)
    requires t.Valid() && logs.Keys == t.logs.Keys
    requires forall j :: 0 <= j < |t.order| ==>
               t.order[j] in t.logs && t.order[j] in logs && logs[t.order[j]] == DeleteBelow(t.logs[t.order[j]], t.logs[t.order[j]].high)
    ensures logs == Emptied(t).logs
  {
    var emptied := Emptied(t).logs;
    forall p | p in logs ensures p in emptied && logs[p] == emptied[p] {
      assert p in t.order;
    }
    assert forall p :: p in emptied ==> p in logs;
  }

  predicate NoAppends(actions: seq<Action>) {
    forall i :: 0 <= i < |actions| ==> !actions[i].Append?
  }

  lemma {:induction false} HighsStay(t: Topic, actions: seq<Action>)
    requires t.Valid() && NoAppends(actions)
    ensures var w := Interleave(t, actions);
            forall p :: p in t.logs ==>
              && p in w.logs && w.logs[p].high == t.logs[p].high
              && (p in w.highs ==> w.highs[p] == t.logs[p].high)
              && Late(t, actions, p) == []
  {
    if actions != [] {
      HighsStay(t, actions[..|actions| - 1]);
      assert !actions[|actions| - 1].Append?;
    }
  }

  lemma NothingIsLeft(t: Topic, w: World)
    requires t.Valid() && w.logs.Keys == t.logs.Keys && w.purged == SumBy(t.order, Removed(t, w.logs))
    requires forall p :: p in t.logs ==> w.logs[p] == Log(t.logs[p].high, t.logs[p].high, [])
    ensures w.logs == Emptied(t).logs && w.purged == Count(t)
  {
    EmptiedValid(t);
    var emptied := Emptied(t).logs;
    assert w.logs == emptied by {
      assert emptied.Keys == t.logs.Keys;
      assert forall p :: p in w.logs ==> w.logs[p] == emptied[p];
    }
    forall i | 0 <= i < |t.order| ensures Removed(t, w.logs)(t.order[i]) == Span(t)(t.order[i]) {
      assert t.order[i] in t.logs;
    }
    SumCongruent(t.order, Removed(t, w.logs), Span(t));
  }

  /** Without appends every order of the reads and deletions that completes ends the same way: the
      topic emptied and the distances between its watermarks added up. */
  lemma UninterruptedPurgeEmpties(t: Topic, actions: seq<Action>, w: World)
    requires t.Valid() && NoAppends(actions) && w == Interleave(t, actions) && Completed(w)
    ensures w.logs == Emptied(t).logs && w.purged == Count(t)
  {
    PurgeKeepsOnlyLateRecords(t, actions, w);
    PurgeInvAlways(t, actions);
    HighsStay(t, actions);
    forall p | p in t.logs ensures w.logs[p] == Log(t.logs[p].high, t.logs[p].high, []) {
      assert LeftOver(t, actions, w, p);
    }
    NothingIsLeft(t, w);
  }

  function Reads(k: nat): (actions: seq<Action>)
    ensures NoAppends(actions)
  {
    if k == 0 then [] else Reads(k - 1) + [ReadNext]
  }

  /** The steps `purge_topic` takes when it is alone, up to the `k`-th deletion: every read, then one
      deletion after the other. */
  function PurgeSteps(order: seq<int>, k: nat): (actions: seq<Action>)
    requires k <= |order|
    ensures NoAppends(actions)
  {
    if k == 0 then Reads(|order|) else PurgeSteps(order, k - 1) + [Delete(order[k - 1])]
  }

  lemma ReadTakes(t: Topic, actions: seq<Action>)
    requires t.Valid() && Interleave(t, actions).todo != []
    ensures var before, w := Interleave(t, actions), Interleave(t, actions + [ReadNext]);
            w.todo == before.todo[1..] && w.pending == before.pending + {before.todo[0]}
  {
    PurgeInvAlways(t, actions);
    UnreadIsListed(t, Interleave(t, actions));
    assert (actions + [ReadNext])[..|actions|] == actions;
  }

  lemma DeleteTakes(t: Topic, actions: seq<Action>, p: int)
    requires t.Valid() && Interleave(t, actions).todo == [] && p in Interleave(t, actions).pending
    ensures var before, w := Interleave(t, actions), Interleave(t, actions + [Delete(p)]);
            w.todo == [] && w.pending == before.pending - {p}
  {
    PurgeInvAlways(t, actions);
    assert (actions + [Delete(p)])[..|actions|] == actions;
    assert t.order[..|t.order|] == t.order;
    assert p in Interleave(t, actions).highs && p in t.order;
  }

  /** The first `k` partitions. */
  function Among(order: seq<int>, k: nat): (parts: set<int>)
    requires k <= |order|
    ensures forall i :: 0 <= i < k ==> order[i] in parts
    ensures forall p :: p in parts ==> exists i :: 0 <= i < k && order[i] == p
  {
    if k == 0 then {} else Among(order, k - 1) + {order[k - 1]}
  }

  /** The first `k` partitions have been read, and none deleted. */
  ghost predicate HasRead(t: Topic, actions: seq<Action>, k: nat)
    requires t.Valid() && k <= |t.order|
  {
    var w := Interleave(t, actions);
    w.todo == t.order[k..] && w.pending == Among(t.order, k)
  }

  /** All partitions have been read, and the first `k` deleted. */
  ghost predicate HasDeleted(t: Topic, actions: seq<Action>, k: nat)
    requires t.Valid() && k <= |t.order|
  {
    var w := Interleave(t, actions);
    w.todo == [] && w.pending == Among(t.order, |t.order|) - Among(t.order, k)
  }

  lemma ReadStep(t: Topic, before: seq<Action>, actions: seq<Action>, k: nat)
    requires t.Valid() && 0 < k <= |t.order| && HasRead(t, before, k - 1) && actions == before + [ReadNext]
    ensures HasRead(t, actions, k)
  {
    assert t.order[k - 1..] == [t.order[k - 1]] + t.order[k..];
    ReadTakes(t, before);
  }

  lemma {:induction false} ReadsRead(t: Topic, k: nat)
    requires t.Valid() && k <= |t.order|
    ensures HasRead(t, Reads(k), k)
  {
    if k > 0 {
      ReadsRead(t, k - 1);
      ReadStep(t, Reads(k - 1), Reads(k), k);
    }
  }

  lemma StillPending(order: seq<int>, k: nat)
    requires 0 < k <= |order| && Distinct(order)
    ensures order[k - 1] in Among(order, |order|) - Among(order, k - 1)
    ensures Among(order, |order|) - Among(order, k) == Among(order, |order|) - Among(order, k - 1) - {order[k - 1]}
  {
  }

  lemma DeleteStep(t: Topic, before: seq<Action>, actions: seq<Action>, k: nat)
    requires t.Valid() && 0 < k <= |t.order| && HasDeleted(t, before, k - 1)
    requires actions == before + [Delete(t.order[k - 1])]
    ensures HasDeleted(t, actions, k)
  {
    StillPending(t.order, k);
    DeleteTakes(t, before, t.order[k - 1]);
  }

  lemma ReadIsUndeleted(t: Topic, actions: seq<Action>)
    requires t.Valid() && HasRead(t, actions, |t.order|)
    ensures HasDeleted(t, actions, 0)
  {
  }

  lemma {:induction false} DeletesDelete(t: Topic, k: nat)
    requires t.Valid() && k <= |t.order|
    ensures HasDeleted(t, PurgeSteps(t.order, k), k)
  {
    if k == 0 {
      ReadsRead(t, |t.order|);
      ReadIsUndeleted(t, Reads(|t.order|));
    } else {
      DeletesDelete(t, k - 1);
      DeleteStep(t, PurgeSteps(t.order, k - 1), PurgeSteps(t.order, k), k);
    }
  }

  /** Taking those steps completes, and does to the logs and to the count what `PurgeTopic` does. */
  lemma PurgeStepsEmpty(t: Topic)
    requires t.Valid()
    ensures var w := Interleave(t, PurgeSteps(t.order, |t.order|));
            Completed(w) && w.logs == Emptied(t).logs && w.purged == Count(t)
  {
    var steps := PurgeSteps(t.order, |t.order|);
    DeletesDelete(t, |t.order|);
    UninterruptedPurgeEmpties(t, steps, Interleave(t, steps));
  }

  /** Commits are for partitions, which a purge keeps. */
  lemma CommitsStayKnown(topics: map<string, Topic>, commits: seq<Commit>, name: string, logs: map<int, Log>)
    requires KnownCommits(topics, commits) && name in topics && logs.Keys == topics[name].logs.Keys
    ensures KnownCommits(topics[name := topics[name].(logs := logs)], commits)
  {
  }

  /** `purge_topic` with nobody appending meanwhile: the topic is emptied and nothing else changes; it
      returns the number of offsets between the watermarks. */
  method PurgeTopic(broker: Broker, name: string) returns (r: Result<int, PurgeError>)
    requires broker.Valid()
    modifies broker
    ensures broker.Valid()
    ensures broker.groups == old(broker.groups) && broker.readonly == old(broker.readonly)
    ensures if old(broker.readonly) then r == Err(ReadOnlyCluster)
            else if |name| >= 2 && name[0] == '_' == name[1] then r == Err(InternalTopic)
            else if name !in old(broker.topics) || old(broker.topics)[name].broken then r == Err(UnknownTopic)
            else r == Ok(Count(old(broker.topics)[name]))
    ensures broker.topics == if r.Ok? then old(broker.topics)[name := Emptied(old(broker.topics)[name])]
                             else old(broker.topics)
  {
    if broker.readonly {
      return Err(ReadOnlyCluster);
    }
    if "__" <= name {
      return Err(InternalTopic);
    }
    var metadata := Metadata(broker.topics, name);
    if metadata.None? {
      return Err(UnknownTopic);
    }
    var t := metadata.value;
    var toDelete, purged := ReadWatermarks(t);
    EmptiedValid(t);
    var logs := DeleteRecords(t, toDelete);
    forall id | id in broker.groups {
      CommitsStayKnown(broker.topics, broker.groups[id].commits, name, logs);
    }
    broker.topics := broker.topics[name := t.(logs := logs)];
    return Ok(purged);
  }

  /** After it, the topic counts no record, and every plan, whatever its start, is empty. */
  lemma PurgedTopicIsEmpty(t: Topic, spec: Spec, plan: Plan, parts: seq<int>)
    requires t.Valid() && IsPlan(Emptied(t), spec, parts, plan)
    ensures Count(Emptied(t)) == 0
    ensures plan.total == 0
  {
    EmptiedValid(t);
    NoSpans(Emptied(t));
    WindowsInRange(Emptied(t), spec, plan, parts);
    NoWidths(parts, plan.starts, plan.ends);
  }
}
