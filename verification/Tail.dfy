/** The live tail of app/services/messages.py: no window, no budget, no limit. */
module Tail {
  import opened Common
  import opened Logs
  import opened Scan
  import opened ScanTheorems

  datatype TailState = TailState(scanned: nat, hits: nat, events: seq<Event>, status: Status, taken: nat)

  const TAIL_BATCH: nat := 200

  function TailItem(keep: Rec -> bool, st: TailState, item: Item): TailState {
    match item
    case EndOfPartition => st.(taken := st.taken + 1)
    case Fault(text) => st.(taken := st.taken + 1, status := Raised(text))
    case Record(rec) =>
      var counted := st.(taken := st.taken + 1, scanned := st.scanned + 1);
      if keep(rec) then counted.(hits := st.hits + 1, events := st.events + [Hit(rec)]) else counted
  }

  function TailBatch(keep: Rec -> bool, st: TailState, batch: seq<Item>): TailState
    decreases |batch|
  {
    if batch == [] || !st.status.Running? then st
    else TailBatch(keep, TailItem(keep, st, batch[0]), batch[1..])
  }

  function TailTurn(keep: Rec -> bool, feed: seq<Item>, st: TailState, turn: Turn): TailState {
    if turn.cancelled then
      st.(status := Stopped(TailStopped), events := st.events + [Finished(st.scanned, st.hits, TailStopped)])
    else
      var after := TailBatch(keep, st, Consume(feed, st.taken, turn.ready, TAIL_BATCH));
      if after.status.Running? then after.(events := after.events + [Progress(after.scanned, after.hits)]) else after
  }

  const TAIL_START := TailState(0, 0, [], Running, 0)

  function TailRun(keep: Rec -> bool, feed: seq<Item>, st: TailState, turns: seq<Turn>): TailState
    decreases |turns|
  {
    if turns == [] || !st.status.Running? then st
    else TailRun(keep, feed, TailTurn(keep, feed, st, turns[0]), turns[1..])
  }

  /** The inner loop: counts each record and yields the hits, until the batch is done or an error is
      raised. */
  method FollowBatch(keep: Rec -> bool, stats: ScanStats, batch: seq<Item>, events0: seq<Event>, taken0: nat)
    returns (events: seq<Event>, taken: nat, status: Status)
    modifies stats
    ensures TailState(stats.scanned, stats.hits, events, status, taken)
         == TailBatch(keep, TailState(old(stats.scanned), old(stats.hits), events0, Running, taken0), batch)
    ensures stats.reason == old(stats.reason)
  {
    events, taken, status := events0, taken0, Running;
    ghost var st := TailState(stats.scanned, stats.hits, events, Running, taken);
    for i := 0 to |batch|
      invariant stats.reason == old(stats.reason) && status == Running
      invariant TailBatch(keep, st, batch)
             == TailBatch(keep, TailState(stats.scanned, stats.hits, events, Running, taken), batch[i..])
    {
      assert batch[i..][0] == batch[i] && batch[i..][1..] == batch[i + 1..];
      taken := taken + 1;
      match batch[i] {
        case EndOfPartition =>
        case Fault(text) =>
          status := Raised(text);
          return;
        case Record(rec) =>
          stats.scanned := stats.scanned + 1;
          if keep(rec) {
            stats.hits := stats.hits + 1;
            events := events + [Hit(rec)];
          }
      }
    }
  }

  /** `tail`, run for as many turns as its environment grants it. */
  method Follow(keep: Rec -> bool, feed: seq<Item>, turns: seq<Turn>) returns (final: TailState)
    ensures final == TailRun(keep, feed, TAIL_START, turns)
  {
    var stats := new ScanStats();
    var events: seq<Event>, taken := [], 0;
    for t := 0 to |turns|
      invariant TailRun(keep, feed, TAIL_START, turns)
             == TailRun(keep, feed, TailState(stats.scanned, stats.hits, events, Running, taken), turns[t..])
    {
      ghost var st := TailState(stats.scanned, stats.hits, events, Running, taken);
      assert turns[t..][0] == turns[t] && turns[t..][1..] == turns[t + 1..];
      assert TailRun(keep, feed, st, turns[t..]) == TailRun(keep, feed, TailTurn(keep, feed, st, turns[t]), turns[t + 1..]);
      if turns[t].cancelled {
        stats.reason := Some(TailStopped);
        events := events + [Finished(stats.scanned, stats.hits, TailStopped)];
        return TailState(stats.scanned, stats.hits, events, Stopped(TailStopped), taken);
      }
      var batch := Consume(feed, taken, turns[t].ready, TAIL_BATCH);
      var status;
      events, taken, status := FollowBatch(keep, stats, batch, events, taken);
      if !status.Running? {
        return TailState(stats.scanned, stats.hits, events, status, taken);
      }
      events := events + [Progress(stats.scanned, stats.hits)];
    }
    return TailState(stats.scanned, stats.hits, events, Running, taken);
  }

  /** The tail emits exactly the matches among the records it has taken. */
  ghost predicate TailSane(keep: Rec -> bool, feed: seq<Item>, st: TailState) {
    var recs := Records(Take(feed, st.taken));
    && st.taken <= |feed|
    && st.scanned == |recs|
    && HitsIn(st.events) == Filter(recs, keep)
    && st.hits == |HitsIn(st.events)|
  }

  lemma TailItemSane(keep: Rec -> bool, feed: seq<Item>, st: TailState)
    requires TailSane(keep, feed, st) && st.taken < |feed|
    ensures TailSane(keep, feed, TailItem(keep, st, feed[st.taken]))
  {
    RecordsNext(feed, st.taken);
    if feed[st.taken].Record? {
      var rec := feed[st.taken].rec;
      FilterSnoc(Records(Take(feed, st.taken)), rec, keep);
      HitsAppend(st.events, Hit(rec));
    }
  }

  lemma {:induction false} TailBatchSane(keep: Rec -> bool, feed: seq<Item>, st: TailState, batch: seq<Item>)
    requires TailSane(keep, feed, st) && batch <= Drop(feed, st.taken)
    ensures TailSane(keep, feed, TailBatch(keep, st, batch))
    decreases |batch|
  {
    if batch != [] && st.status.Running? {
      assert batch[0] == feed[st.taken];
      TailItemSane(keep, feed, st);
      var next := TailItem(keep, st, batch[0]);
      assert batch[1..] <= Drop(feed, next.taken);
      TailBatchSane(keep, feed, next, batch[1..]);
    }
  }

  lemma {:induction false} TailRunSane(keep: Rec -> bool, feed: seq<Item>, st: TailState, turns: seq<Turn>)
    requires TailSane(keep, feed, st)
    ensures TailSane(keep, feed, TailRun(keep, feed, st, turns))
    decreases |turns|
  {
    if turns != [] && st.status.Running? {
      var batch := Consume(feed, st.taken, turns[0].ready, TAIL_BATCH);
      TailBatchSane(keep, feed, st, batch);
      var after := TailBatch(keep, st, batch);
      HitsAppend(st.events, Finished(st.scanned, st.hits, TailStopped));
      HitsAppend(after.events, Progress(after.scanned, after.hits));
      TailRunSane(keep, feed, TailTurn(keep, feed, st, turns[0]), turns[1..]);
    }
  }

  /** After any number of turns, whatever was delivered, the tail's hits are exactly the matches
      among the records taken, in order. */
  lemma TailEmitsMatches(keep: Rec -> bool, feed: seq<Item>, turns: seq<Turn>)
    ensures var st := TailRun(keep, feed, TAIL_START, turns);
            var recs := Records(Take(feed, st.taken));
            st.scanned == |recs| && HitsIn(st.events) == Filter(recs, keep) && st.hits == |HitsIn(st.events)|
  {
    assert Take(feed, 0) == [];
    TailRunSane(keep, feed, TAIL_START, turns);
  }

  // ---- The event stream ----

  ghost predicate NoDone(events: seq<Event>) {
    forall i :: 0 <= i < |events| ==> !events[i].Finished?
  }

  /** The counters yielded so far are true, and no `done` is among them. */
  ghost predicate Telling(keep: Rec -> bool, recs: seq<Rec>, events: seq<Event>) {
    History(recs, events, keep) && NoDone(events)
  }

  lemma RecordTelling(keep: Rec -> bool, recs: seq<Rec>, rec: Rec, events: seq<Event>)
    requires Telling(keep, recs, events)
    ensures Telling(keep, recs + [rec], events) && Telling(keep, recs + [rec], events + [Hit(rec)])
  {
    HistoryGrows(recs, recs + [rec], events, Hit(rec), keep);
  }

  lemma CountTelling(keep: Rec -> bool, recs: seq<Rec>, events: seq<Event>, e: Event)
    requires Telling(keep, recs, events) && !e.Hit?
    requires HitsIn(events) == Filter(recs, keep) && e.scanned == |recs| && e.hits == |HitsIn(events)|
    ensures History(recs, events + [e], keep) && (e.Progress? ==> Telling(keep, recs, events + [e]))
  {
    HistoryGrows(recs, recs, events, e, keep);
  }

  lemma TailItemEvents(keep: Rec -> bool, st: TailState, item: Item)
    requires st.status.Running?
    ensures var next := TailItem(keep, st, item);
            && next.taken == st.taken + 1 && !next.status.Stopped?
            && next.events == if item.Record? && keep(item.rec) then st.events + [Hit(item.rec)] else st.events
  {
  }

  lemma ItemTelling(keep: Rec -> bool, feed: seq<Item>, k: nat, events: seq<Event>, events': seq<Event>)
    requires k < |feed| && Telling(keep, Records(Take(feed, k)), events)
    requires events' == if feed[k].Record? && keep(feed[k].rec) then events + [Hit(feed[k].rec)] else events
    ensures Telling(keep, Records(Take(feed, k + 1)), events')
  {
    RecordsNext(feed, k);
    if feed[k].Record? {
      RecordTelling(keep, Records(Take(feed, k)), feed[k].rec, events);
    }
  }

  lemma {:induction false} TailBatchTells(keep: Rec -> bool, feed: seq<Item>, st: TailState, batch: seq<Item>)
    requires st.taken <= |feed| && Telling(keep, Records(Take(feed, st.taken)), st.events)
    requires batch <= Drop(feed, st.taken) && !st.status.Stopped?
    ensures var after := TailBatch(keep, st, batch);
            !after.status.Stopped? && Telling(keep, Records(Take(feed, after.taken)), after.events)
    decreases |batch|
  {
    if batch != [] && st.status.Running? {
      assert batch[0] == feed[st.taken];
      var next := TailItem(keep, st, batch[0]);
      TailItemEvents(keep, st, batch[0]);
      ItemTelling(keep, feed, st.taken, st.events, next.events);
      assert batch[1..] <= Drop(feed, next.taken);
      TailBatchTells(keep, feed, next, batch[1..]);
    }
  }

  /** The stream is (hit* progress)* done: one `done`, at the end and only when the client stopped the
      tail (none after an error), right after a `progress`. */
  ghost predicate TailShaped(st: TailState) {
    var n := |st.events|;
    && (forall i :: 0 <= i < n && st.events[i].Finished? ==> i == n - 1 && st.status.Stopped?)
    && (st.status.Running? ==> n == 0 || st.events[n - 1] == Progress(st.scanned, st.hits))
    && (st.status.Stopped? ==>
          && n > 0 && st.events[n - 1] == Finished(st.scanned, st.hits, TailStopped)
          && (n == 1 || st.events[n - 2] == Progress(st.scanned, st.hits)))
  }

  lemma TailTurnShaped(keep: Rec -> bool, feed: seq<Item>, st: TailState, turn: Turn)
    requires TailShaped(st) && st.status.Running?
    requires var after := TailBatch(keep, st, Consume(feed, st.taken, turn.ready, TAIL_BATCH));
             NoDone(after.events) && !after.status.Stopped?
    ensures TailShaped(TailTurn(keep, feed, st, turn))
  {
  }

  lemma TailTurnTells(keep: Rec -> bool, feed: seq<Item>, st: TailState, turn: Turn)
    requires TailSane(keep, feed, st) && st.status.Running? && Telling(keep, Records(Take(feed, st.taken)), st.events)
    ensures var next := TailTurn(keep, feed, st, turn);
            && TailSane(keep, feed, next)
            && History(Records(Take(feed, next.taken)), next.events, keep)
            && (next.status.Running? ==> Telling(keep, Records(Take(feed, next.taken)), next.events))
  {
    if turn.cancelled {
      CountTelling(keep, Records(Take(feed, st.taken)), st.events, Finished(st.scanned, st.hits, TailStopped));
      HitsAppend(st.events, Finished(st.scanned, st.hits, TailStopped));
    } else {
      var batch := Consume(feed, st.taken, turn.ready, TAIL_BATCH);
      TailBatchSane(keep, feed, st, batch);
      TailBatchTells(keep, feed, st, batch);
      var after := TailBatch(keep, st, batch);
      CountTelling(keep, Records(Take(feed, after.taken)), after.events, Progress(after.scanned, after.hits));
      HitsAppend(after.events, Progress(after.scanned, after.hits));
    }
  }

  lemma {:induction false} TailRunTells(keep: Rec -> bool, feed: seq<Item>, st: TailState, turns: seq<Turn>)
    requires TailSane(keep, feed, st) && TailShaped(st) && History(Records(Take(feed, st.taken)), st.events, keep)
    requires st.status.Running? ==> Telling(keep, Records(Take(feed, st.taken)), st.events)
    ensures var end := TailRun(keep, feed, st, turns);
            TailShaped(end) && History(Records(Take(feed, end.taken)), end.events, keep)
    decreases |turns|
  {
    if turns != [] && st.status.Running? {
      TailBatchTells(keep, feed, st, Consume(feed, st.taken, turns[0].ready, TAIL_BATCH));
      TailTurnShaped(keep, feed, st, turns[0]);
      TailTurnTells(keep, feed, st, turns[0]);
      TailRunTells(keep, feed, TailTurn(keep, feed, st, turns[0]), turns[1..]);
    }
  }

  /** The progress events among yielded ones. */
  function Beats(events: seq<Event>): nat {
    if events == [] then 0
    else Beats(events[..|events| - 1]) + if events[|events| - 1].Progress? then 1 else 0
  }

  lemma BeatsAppend(events: seq<Event>, e: Event)
    ensures Beats(events + [e]) == Beats(events) + if e.Progress? then 1 else 0
  {
    assert (events + [e])[..|events|] == events;
  }

  lemma {:induction false} TailBatchBeats(keep: Rec -> bool, st: TailState, batch: seq<Item>)
    requires !st.status.Stopped?
    ensures Beats(TailBatch(keep, st, batch).events) == Beats(st.events) && !TailBatch(keep, st, batch).status.Stopped?
    decreases |batch|
  {
    if batch != [] && st.status.Running? {
      if batch[0].Record? {
        BeatsAppend(st.events, Hit(batch[0].rec));
      }
      TailBatchBeats(keep, TailItem(keep, st, batch[0]), batch[1..]);
    }
  }

  /** How a run of turns ended, after `beats` whole ones: all of them whole, or the next one the
      client's stop, or the next one an error. */
  predicate EndedAfter(turns: seq<Turn>, beats: int, status: Status) {
    && 0 <= beats <= |turns|
    && (forall i :: 0 <= i < beats ==> !turns[i].cancelled)
    && (status.Running? ==> beats == |turns|)
    && (status.Stopped? ==> beats < |turns| && turns[beats].cancelled)
    && (status.Raised? ==> beats < |turns| && !turns[beats].cancelled)
  }

  lemma TailTurnBeats(keep: Rec -> bool, feed: seq<Item>, st: TailState, turn: Turn)
    requires st.status.Running?
    ensures var next := TailTurn(keep, feed, st, turn);
            && Beats(next.events) == Beats(st.events) + (if next.status.Running? then 1 else 0)
            && (next.status.Stopped? <==> turn.cancelled)
  {
    if turn.cancelled {
      BeatsAppend(st.events, Finished(st.scanned, st.hits, TailStopped));
    } else {
      var batch := Consume(feed, st.taken, turn.ready, TAIL_BATCH);
      TailBatchBeats(keep, st, batch);
      var after := TailBatch(keep, st, batch);
      BeatsAppend(after.events, Progress(after.scanned, after.hits));
    }
  }

  lemma {:induction false} TailRunBeats(keep: Rec -> bool, feed: seq<Item>, st: TailState, turns: seq<Turn>)
    requires st.status.Running?
    ensures var end := TailRun(keep, feed, st, turns);
            EndedAfter(turns, Beats(end.events) - Beats(st.events), end.status)
    decreases |turns|
  {
    if turns != [] {
      var next, end := TailTurn(keep, feed, st, turns[0]), TailRun(keep, feed, st, turns);
      TailTurnBeats(keep, feed, st, turns[0]);
      if next.status.Running? {
        TailRunBeats(keep, feed, next, turns[1..]);
        EndedLater(turns, Beats(end.events) - Beats(next.events), end.status);
      } else {
        assert end == next;
      }
    }
  }

  lemma EndedLater(turns: seq<Turn>, beats: int, status: Status)
    requires turns != [] && !turns[0].cancelled && EndedAfter(turns[1..], beats, status)
    ensures EndedAfter(turns, beats + 1, status)
  {
    forall i | 0 <= i < beats + 1 ensures !turns[i].cancelled {
      assert i > 0 ==> turns[i] == turns[1..][i - 1];
    }
  }

  // ---- Every event at its moment ----

  /** The state after the first `k` turns. */
  function TailAfter(keep: Rec -> bool, feed: seq<Item>, turns: seq<Turn>, k: nat): TailState
    requires k <= |turns|
  {
    TailRun(keep, feed, TAIL_START, turns[..k])
  }

  /** A `progress` that ends the events of the first `k` turns, with the counters as they were then. */
  ghost predicate TailYieldedAfter(keep: Rec -> bool, feed: seq<Item>, turns: seq<Turn>, k: nat, events: seq<Event>, i: nat)
    requires k <= |turns| && i < |events|
  {
    var st := TailAfter(keep, feed, turns, k);
    && st.events == events[..i + 1]
    && st.scanned == |Records(Take(feed, st.taken))|
    && events[i] == Progress(st.scanned, st.hits)
  }

  /** Events are only ever added, and each heartbeat tells how many records had been taken and how many
      hits yielded when its turn ended. */
  ghost predicate TailPinned(keep: Rec -> bool, feed: seq<Item>, turns: seq<Turn>) {
    var events := TailRun(keep, feed, TAIL_START, turns).events;
    && (forall k :: 0 <= k <= |turns| ==> TailAfter(keep, feed, turns, k).events <= events)
    && forall i :: 0 <= i < |events| && events[i].Progress? ==>
         exists k :: 0 <= k <= |turns| && TailYieldedAfter(keep, feed, turns, k, events, i)
  }

  lemma {:induction false} TailRunSnoc(keep: Rec -> bool, feed: seq<Item>, st: TailState, turns: seq<Turn>, turn: Turn)
    ensures var before := TailRun(keep, feed, st, turns);
            TailRun(keep, feed, st, turns + [turn])
            == if before.status.Running? then TailTurn(keep, feed, before, turn) else before
    decreases |turns|
  {
    if turns == [] {
      assert turns + [turn] == [turn] && [turn][1..] == [];
    } else if st.status.Running? {
      TailRunSnoc(keep, feed, TailTurn(keep, feed, st, turns[0]), turns[1..], turn);
      assert (turns + [turn])[1..] == turns[1..] + [turn];
    }
  }

  lemma {:induction false} TailBatchAppends(keep: Rec -> bool, st: TailState, batch: seq<Item>)
    ensures var after := TailBatch(keep, st, batch);
            && st.events <= after.events
            && forall i :: |st.events| <= i < |after.events| ==> after.events[i].Hit?
    decreases |batch|
  {
    if batch != [] && st.status.Running? {
      TailBatchAppends(keep, TailItem(keep, st, batch[0]), batch[1..]);
    }
  }

  lemma TailTurnAppends(keep: Rec -> bool, feed: seq<Item>, st: TailState, turn: Turn)
    ensures var next := TailTurn(keep, feed, st, turn);
            && st.events <= next.events
            && forall i :: |st.events| <= i < |next.events| && next.events[i].Progress? ==>
                 i == |next.events| - 1 && next.events[i] == Progress(next.scanned, next.hits)
  {
    TailBatchAppends(keep, st, Consume(feed, st.taken, turn.ready, TAIL_BATCH));
  }

  lemma {:induction false} TailRunPinned(keep: Rec -> bool, feed: seq<Item>, turns: seq<Turn>)
    ensures TailPinned(keep, feed, turns)
    decreases |turns|
  {
    if turns == [] {
      assert turns[..0] == [];
    } else {
      TailRunPinned(keep, feed, turns[..|turns| - 1]);
      TailPinnedNext(keep, feed, turns[..|turns| - 1], turns[|turns| - 1]);
      assert turns == turns[..|turns| - 1] + [turns[|turns| - 1]];
    }
  }

  lemma TailPinnedNext(keep: Rec -> bool, feed: seq<Item>, turns: seq<Turn>, turn: Turn)
    requires TailPinned(keep, feed, turns)
    ensures TailPinned(keep, feed, turns + [turn])
  {
    var all, before := turns + [turn], TailRun(keep, feed, TAIL_START, turns);
    var after := TailRun(keep, feed, TAIL_START, all);
    TailRunSnoc(keep, feed, TAIL_START, turns, turn);
    TailTurnAppends(keep, feed, before, turn);
    assert before.events <= after.events;
    forall k | 0 <= k <= |all| ensures TailAfter(keep, feed, all, k).events <= after.events {
      if k < |all| {
        assert all[..k] == turns[..k];
        assert TailAfter(keep, feed, turns, k).events <= before.events;
      } else {
        assert all[..k] == all;
      }
    }
    forall i | 0 <= i < |after.events| && after.events[i].Progress?
      ensures exists k :: 0 <= k <= |all| && TailYieldedAfter(keep, feed, all, k, after.events, i)
    {
      if i < |before.events| {
        var k :| 0 <= k <= |turns| && TailYieldedAfter(keep, feed, turns, k, before.events, i);
        assert all[..k] == turns[..k] && after.events[..i + 1] == before.events[..i + 1];
        assert TailYieldedAfter(keep, feed, all, k, after.events, i);
      } else {
        TailEmitsMatches(keep, feed, all);
        assert all[..|all|] == all && after.events[..i + 1] == after.events;
        assert TailYieldedAfter(keep, feed, all, |all|, after.events, i);
      }
    }
  }

  /** The events of a tail after any number of turns: well shaped, every hit count that of the matches
      before it and every counter the one of the moment it was yielded at; one heartbeat for every
      whole batch, even an empty one; it is over exactly when the client stopped it or an error was
      raised. */
  lemma TailEventsTellTheRun(keep: Rec -> bool, feed: seq<Item>, turns: seq<Turn>)
    ensures var st := TailRun(keep, feed, TAIL_START, turns);
            && TailShaped(st)
            && History(Records(Take(feed, st.taken)), st.events, keep)
            && TailPinned(keep, feed, turns)
            && EndedAfter(turns, Beats(st.events), st.status)
  {
    assert Take(feed, 0) == [];
    TailRunTells(keep, feed, TAIL_START, turns);
    TailRunPinned(keep, feed, turns);
    TailRunBeats(keep, feed, TAIL_START, turns);
  }

  // ---- Errors and fetches ----

  /** The tail has raised an error exactly if the last item taken is one; none before it is. */
  ghost predicate FaultIsLast(feed: seq<Item>, st: TailState) {
    && st.taken <= |feed|
    && (forall i :: 0 <= i < st.taken && feed[i].Fault? ==> i == st.taken - 1 && st.status == Raised(feed[i].text))
    && (st.status.Raised? ==> st.taken > 0 && feed[st.taken - 1] == Fault(st.status.text))
  }

  lemma {:induction false} TailBatchFaults(keep: Rec -> bool, feed: seq<Item>, st: TailState, batch: seq<Item>)
    requires FaultIsLast(feed, st) && batch <= Drop(feed, st.taken)
    ensures FaultIsLast(feed, TailBatch(keep, st, batch))
    ensures var after := TailBatch(keep, st, batch);
            && after.taken - st.taken <= |batch|
            && (after.status.Running? ==> after.taken - st.taken == |batch|)
    decreases |batch|
  {
    if batch != [] && st.status.Running? {
      assert batch[0] == feed[st.taken];
      var next := TailItem(keep, st, batch[0]);
      assert batch[1..] <= Drop(feed, next.taken);
      TailBatchFaults(keep, feed, next, batch[1..]);
    }
  }

  /** A turn that the client lets pass takes as many of the items that are ready as fit in 200, unless
      one of them is an error. */
  lemma TailFetch(keep: Rec -> bool, feed: seq<Item>, st: TailState, turn: Turn)
    requires FaultIsLast(feed, st) && st.status.Running?
    ensures var next := TailTurn(keep, feed, st, turn);
            && next.taken - st.taken <= 200
            && (next.status.Running? ==> next.taken - st.taken == Min(Min(turn.ready, |Drop(feed, st.taken)|), 200))
            && FaultIsLast(feed, next)
  {
    TailBatchFaults(keep, feed, st, Consume(feed, st.taken, turn.ready, TAIL_BATCH));
  }

  lemma {:induction false} TailRunFaults(keep: Rec -> bool, feed: seq<Item>, st: TailState, turns: seq<Turn>)
    requires FaultIsLast(feed, st)
    ensures FaultIsLast(feed, TailRun(keep, feed, st, turns))
    decreases |turns|
  {
    if turns != [] && st.status.Running? {
      TailFetch(keep, feed, st, turns[0]);
      TailRunFaults(keep, feed, TailTurn(keep, feed, st, turns[0]), turns[1..]);
    }
  }

  /** The first broker error ends the tail, and nothing else raises one: the status is a raised error
      if and only if the last item taken is that error, and no error lies among those before. */
  lemma ErrorEndsTail(keep: Rec -> bool, feed: seq<Item>, turns: seq<Turn>)
    ensures var st := TailRun(keep, feed, TAIL_START, turns);
            && st.taken <= |feed|
            && (forall text :: st.status == Raised(text) <==> st.taken > 0 && feed[st.taken - 1] == Fault(text))
            && (forall i :: 0 <= i < st.taken && feed[i].Fault? ==> i == st.taken - 1 && st.status == Raised(feed[i].text))
  {
    TailRunFaults(keep, feed, TAIL_START, turns);
  }
}
