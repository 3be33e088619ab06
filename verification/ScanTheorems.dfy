/** What every run of the scan keeps: its hits are a filter of what was delivered, its events tell
    their own history, and its counters stay within the budget. */
module ScanTheorems {
  import opened Common
  import opened Logs
  import opened Scan

  // ---- Reading deliveries and events ----

  /** The records among delivered items. */
  function Records(items: seq<Item>): (r: seq<Rec>)
    ensures |r| <= |items|
  {
    if items == [] then []
    else if items[|items| - 1].Record? then Records(items[..|items| - 1]) + [items[|items| - 1].rec]
    else Records(items[..|items| - 1])
  }

  /** The hits among yielded events. */
  function HitsIn(events: seq<Event>): seq<Rec> {
    if events == [] then []
    else if events[|events| - 1].Hit? then HitsIn(events[..|events| - 1]) + [events[|events| - 1].rec]
    else HitsIn(events[..|events| - 1])
  }

  /** The records the scan has processed: those among the items it has taken. */
  function Processed(feed: seq<Item>, st: State): seq<Rec> {
    Records(Take(feed, st.taken))
  }

  /** The broker delivers only partitions the consumer was assigned. */
  predicate Assigned(cfg: Config, feed: seq<Item>) {
    forall i :: 0 <= i < |feed| && feed[i].Record? ==> feed[i].rec.partition in cfg.ends
  }

  // ---- The invariant ----

  /** A counting event states the number of records processed before it and of hits yielded before
      it, and those hits are exactly the matches among those records. */
  predicate Tells(recs: seq<Rec>, events: seq<Event>, i: nat, scanned: nat, hits: nat, keep: Rec -> bool)
    requires i <= |events|
  {
    && scanned <= |recs|
    && HitsIn(events[..i]) == Filter(recs[..scanned], keep)
    && hits == |HitsIn(events[..i])|
  }

  ghost predicate History(recs: seq<Rec>, events: seq<Event>, keep: Rec -> bool) {
    && (forall i :: 0 <= i < |events| && events[i].Progress? ==>
          Tells(recs, events, i, events[i].scanned, events[i].hits, keep))
    && (forall i :: 0 <= i < |events| && events[i].Finished? ==>
          && i == |events| - 1
          && Tells(recs, events, i, events[i].scanned, events[i].hits, keep))
  }

  /** The invariant of a scan that has processed `recs`. */
  ghost predicate Tracks(cfg: Config, recs: seq<Rec>, st: State) {
    && st.scanned == |recs|
    && HitsIn(st.events) == Filter(recs, cfg.keep)
    && st.hits == |HitsIn(st.events)|
    && History(recs, st.events, cfg.keep)
    && (if st.status == Stopped(LimitReached)
        then st.hits == Max(1, cfg.limit) && recs != [] && cfg.keep(recs[|recs| - 1])
        else st.hits == 0 || st.hits < cfg.limit)
    && (st.status.Stopped? <==> EndsFinished(st.events))
    && (st.status.Stopped? ==> st.events[|st.events| - 1] == Finished(st.scanned, st.hits, st.status.reason))
  }

  predicate EndsFinished(events: seq<Event>) {
    events != [] && events[|events| - 1].Finished?
  }

  ghost predicate Sane(cfg: Config, feed: seq<Item>, st: State) {
    st.taken <= |feed| && Tracks(cfg, Processed(feed, st), st)
  }

  lemma HitsAppend(events: seq<Event>, e: Event)
    ensures HitsIn(events + [e]) == if e.Hit? then HitsIn(events) + [e.rec] else HitsIn(events)
  {
    assert (events + [e])[..|events|] == events;
  }

  lemma TellsLonger(recs: seq<Rec>, more: seq<Rec>, events: seq<Event>, e: Event, i: nat, scanned: nat, hits: nat, keep: Rec -> bool)
    requires recs <= more && i <= |events| && Tells(recs, events, i, scanned, hits, keep)
    ensures Tells(more, events, i, scanned, hits, keep)
    ensures Tells(more, events + [e], i, scanned, hits, keep)
  {
    assert more[..scanned] == recs[..scanned];
    assert (events + [e])[..i] == events[..i];
  }

  lemma TellsNow(recs: seq<Rec>, events: seq<Event>, e: Event, keep: Rec -> bool)
    requires HitsIn(events) == Filter(recs, keep)
    ensures Tells(recs, events + [e], |events|, |recs|, |HitsIn(events)|, keep)
  {
    assert recs[..|recs|] == recs && (events + [e])[..|events|] == events;
  }

  /** More records and one more event: the old events still tell the truth. */
  lemma HistoryGrows(recs: seq<Rec>, more: seq<Rec>, events: seq<Event>, e: Event, keep: Rec -> bool)
    requires History(recs, events, keep) && recs <= more && !EndsFinished(events)
    requires e.Hit? || (HitsIn(events) == Filter(more, keep) && e.scanned == |more| && e.hits == |HitsIn(events)|)
    ensures History(more, events, keep)
    ensures History(more, events + [e], keep)
  {
    forall i | 0 <= i < |events| && (events[i].Progress? || events[i].Finished?)
      ensures Tells(more, events, i, events[i].scanned, events[i].hits, keep)
      ensures Tells(more, events + [e], i, events[i].scanned, events[i].hits, keep)
    {
      TellsLonger(recs, more, events, e, i, events[i].scanned, events[i].hits, keep);
    }
    if !e.Hit? {
      TellsNow(more, events, e, keep);
    }
  }

  lemma FinishTracks(cfg: Config, recs: seq<Rec>, st: State, reason: Reason)
    requires Tracks(cfg, recs, st) && st.status.Running? && reason != LimitReached
    ensures Tracks(cfg, recs, Finish(st, reason))
  {
    var e := Finished(st.scanned, st.hits, reason);
    HitsAppend(st.events, e);
    HistoryGrows(recs, recs, st.events, e, cfg.keep);
  }

  lemma ProgressTracks(cfg: Config, recs: seq<Rec>, st: State)
    requires Tracks(cfg, recs, st) && st.status.Running?
    ensures Tracks(cfg, recs, st.(events := st.events + [Progress(st.scanned, st.hits)]))
  {
    var e := Progress(st.scanned, st.hits);
    HitsAppend(st.events, e);
    HistoryGrows(recs, recs, st.events, e, cfg.keep);
  }

  /** A record that does not match. */
  lemma SkipTracks(cfg: Config, recs: seq<Rec>, st: State, rec: Rec, remaining: map<int, int>)
    requires Tracks(cfg, recs, st) && st.status.Running? && !cfg.keep(rec)
    ensures Tracks(cfg, recs + [rec], st.(taken := st.taken + 1, scanned := st.scanned + 1, remaining := remaining))
  {
    FilterSnoc(recs, rec, cfg.keep);
    HistoryGrows(recs, recs + [rec], st.events, Hit(rec), cfg.keep);
  }

  /** A record that matches, short of the limit. */
  lemma HitBelowLimit(cfg: Config, recs: seq<Rec>, st: State, rec: Rec, next: State)
    requires Tracks(cfg, recs, st) && st.status.Running? && cfg.keep(rec)
    requires next.events == st.events + [Hit(rec)] && next.status == st.status
    requires next.scanned == st.scanned + 1 && next.hits == st.hits + 1
    ensures HitsIn(next.events) == Filter(recs + [rec], cfg.keep) && next.hits == |HitsIn(next.events)|
    ensures History(recs + [rec], next.events, cfg.keep) && !EndsFinished(next.events)
    ensures next.hits < cfg.limit ==> Tracks(cfg, recs + [rec], next)
  {
    FilterSnoc(recs, rec, cfg.keep);
    HitsAppend(st.events, Hit(rec));
    HistoryGrows(recs, recs + [rec], st.events, Hit(rec), cfg.keep);
  }

  /** The record that reaches the limit. */
  lemma HitAtLimit(cfg: Config, more: seq<Rec>, st: State)
    requires more != [] && cfg.keep(more[|more| - 1]) && st.scanned == |more|
    requires HitsIn(st.events) == Filter(more, cfg.keep) && st.hits == |HitsIn(st.events)| == Max(1, cfg.limit)
    requires History(more, st.events, cfg.keep) && !EndsFinished(st.events)
    ensures Tracks(cfg, more, Finish(st, LimitReached))
  {
    var e := Finished(st.scanned, st.hits, LimitReached);
    HitsAppend(st.events, e);
    HistoryGrows(more, more, st.events, e, cfg.keep);
  }

  /** A record that matches. */
  lemma HitTracks(cfg: Config, recs: seq<Rec>, st: State, rec: Rec, remaining: map<int, int>)
    requires Tracks(cfg, recs, st) && st.status.Running? && cfg.keep(rec)
    ensures Tracks(cfg, recs + [rec],
                   Emit(cfg, st.(taken := st.taken + 1, scanned := st.scanned + 1, remaining := remaining), rec))
  {
    var hit := st.(taken := st.taken + 1, scanned := st.scanned + 1, remaining := remaining,
                   hits := st.hits + 1, events := st.events + [Hit(rec)]);
    HitBelowLimit(cfg, recs, st, rec, hit);
    if hit.hits >= cfg.limit {
      HitAtLimit(cfg, recs + [rec], hit);
    }
  }

  lemma RecordsNext(feed: seq<Item>, k: nat)
    requires k < |feed|
    ensures Records(Take(feed, k + 1))
         == if feed[k].Record? then Records(Take(feed, k)) + [feed[k].rec] else Records(Take(feed, k))
  {
    var items := Take(feed, k + 1);
    assert items[..|items| - 1] == Take(feed, k);
  }

  lemma ProcessedNext(feed: seq<Item>, st: State, next: State)
    requires st.taken < |feed| && next.taken == st.taken + 1
    ensures Processed(feed, next)
         == if feed[st.taken].Record? then Processed(feed, st) + [feed[st.taken].rec] else Processed(feed, st)
  {
    RecordsNext(feed, st.taken);
  }

  lemma TakeItemSane(cfg: Config, feed: seq<Item>, st: State)
    requires Sane(cfg, feed, st) && st.status.Running? && st.taken < |feed| && Assigned(cfg, feed)
    ensures Sane(cfg, feed, TakeItem(cfg, st, feed[st.taken]))
    ensures TakeItem(cfg, st, feed[st.taken]).taken == st.taken + 1
  {
    ProcessedNext(feed, st, TakeItem(cfg, st, feed[st.taken]));
    if feed[st.taken].Record? {
      var rec := feed[st.taken].rec;
      var remaining := st.remaining[rec.partition := cfg.ends[rec.partition] - rec.offset - 1];
      if cfg.keep(rec) {
        HitTracks(cfg, Processed(feed, st), st, rec, remaining);
      } else {
        SkipTracks(cfg, Processed(feed, st), st, rec, remaining);
      }
    }
  }

  lemma {:induction false} TakeBatchSane(cfg: Config, feed: seq<Item>, st: State, batch: seq<Item>)
    requires Sane(cfg, feed, st) && Assigned(cfg, feed) && batch <= Drop(feed, st.taken)
    ensures Sane(cfg, feed, TakeBatch(cfg, st, batch))
    decreases |batch|
  {
    if batch != [] && st.status.Running? {
      assert batch[0] == feed[st.taken];
      TakeItemSane(cfg, feed, st);
      var next := TakeItem(cfg, st, batch[0]);
      assert batch[1..] <= Drop(feed, next.taken);
      TakeBatchSane(cfg, feed, next, batch[1..]);
    }
  }

  lemma BatchTurnSane(cfg: Config, feed: seq<Item>, st: State, batch: seq<Item>)
    requires Sane(cfg, feed, st) && Assigned(cfg, feed) && batch <= Drop(feed, st.taken)
    ensures var after := TakeBatch(cfg, st, batch);
            && Sane(cfg, feed, after)
            && (after.status.Running? ==>
                  Sane(cfg, feed, after.(events := after.events + [Progress(after.scanned, after.hits)])))
  {
    TakeBatchSane(cfg, feed, st, batch);
    var after := TakeBatch(cfg, st, batch);
    if after.status.Running? {
      ProgressTracks(cfg, Processed(feed, after), after);
    }
  }

  lemma TakeTurnSane(cfg: Config, feed: seq<Item>, st: State, turn: Turn)
    requires Sane(cfg, feed, st) && st.status.Running? && Assigned(cfg, feed)
    ensures Sane(cfg, feed, TakeTurn(cfg, feed, st, turn))
  {
    var recs, batch := Processed(feed, st), Consume(feed, st.taken, turn.ready, BatchSize(cfg, st));
    if turn.cancelled {
      FinishTracks(cfg, recs, st, Cancelled);
    } else if st.scanned >= cfg.Budget() {
      FinishTracks(cfg, recs, st, if cfg.Budget() < cfg.total then BudgetReached else EndOfWindow);
    } else if !AnyRemaining(st.remaining) || batch == [] {
      FinishTracks(cfg, recs, st, EndOfWindow);
    } else {
      BatchTurnSane(cfg, feed, st, batch);
    }
  }

  lemma BeginSane(cfg: Config, feed: seq<Item>)
    requires cfg.starts.Keys == cfg.ends.Keys
    ensures Sane(cfg, feed, Begin(cfg))
  {
    var st := State(0, 0, map p | p in cfg.ends :: cfg.ends[p] - cfg.starts[p], [], Running, 0);
    assert Take(feed, 0) == [];
    FinishTracks(cfg, [], st, NothingInWindow);
  }

  lemma {:induction false} RunSane(cfg: Config, feed: seq<Item>, st: State, turns: seq<Turn>)
    requires Sane(cfg, feed, st) && Assigned(cfg, feed)
    ensures Sane(cfg, feed, Run(cfg, feed, st, turns))
    decreases |turns|
  {
    if turns != [] && st.status.Running? {
      TakeTurnSane(cfg, feed, st, turns[0]);
      RunSane(cfg, feed, TakeTurn(cfg, feed, st, turns[0]), turns[1..]);
    }
  }

  // ---- Main results on every run ----

  lemma {:induction false} RecordsPrefix(feed: seq<Item>, k: nat)
    requires k <= |feed|
    ensures Records(feed[..k]) <= Records(feed)
    decreases |feed|
  {
    if k < |feed| {
      var init := feed[..|feed| - 1];
      RecordsPrefix(init, k);
      assert init[..k] == feed[..k];
    } else {
      assert feed[..k] == feed;
    }
  }

  lemma FilterPrefix(recs: seq<Rec>, more: seq<Rec>, keep: Rec -> bool)
    requires recs <= more
    ensures Filter(recs, keep) <= Filter(more, keep)
  {
    FilterAppend(recs, more[|recs|..], keep);
    assert more == recs + more[|recs|..];
  }

  /** Filter, then truncate: after any number of turns the hits are exactly the matches among the
      records processed, in order; they are the first matches of everything delivered, at most
      max(1, limit) of them; and a limit stop comes with the last processed record as its last hit. */
  lemma ScanEmitsMatches(cfg: Config, feed: seq<Item>, turns: seq<Turn>)
    requires cfg.starts.Keys == cfg.ends.Keys && Assigned(cfg, feed)
    ensures var st := Run(cfg, feed, Begin(cfg), turns);
            var recs, hits := Processed(feed, st), HitsIn(st.events);
            && st.scanned == |recs| && st.hits == |hits| <= Max(1, cfg.limit)
            && recs <= Records(feed)
            && hits == Filter(recs, cfg.keep) <= Filter(Records(feed), cfg.keep)
            && (st.status == Stopped(LimitReached) ==>
                  && hits == Take(Filter(Records(feed), cfg.keep), Max(1, cfg.limit)) && |hits| == Max(1, cfg.limit)
                  && hits[|hits| - 1] == recs[|recs| - 1])
            && (st.status != Stopped(LimitReached) ==> |hits| == 0 || |hits| < cfg.limit)
  {
    BeginSane(cfg, feed);
    RunSane(cfg, feed, Begin(cfg), turns);
    var st := Run(cfg, feed, Begin(cfg), turns);
    var recs := Processed(feed, st);
    RecordsPrefix(feed, st.taken);
    FilterPrefix(recs, Records(feed), cfg.keep);
  }

  /** The event stream is (hit* progress)* hit* done: exactly one `done`, at the end, and only when
      the scan stopped (none when an error was raised); the hits just before it are there only on a
      limit stop. */
  ghost predicate WellShaped(recs: seq<Rec>, st: State) {
    var n := |st.events|;
    && (forall i :: 0 <= i < n && st.events[i].Finished? ==> i == n - 1 && st.status.Stopped?)
    && (st.status.Stopped? ==> n > 0 && st.events[n - 1] == Finished(st.scanned, st.hits, st.status.reason))
    && (st.status.Running? ==> n == 0 || st.events[n - 1] == Progress(st.scanned, st.hits))
    && (st.status == Stopped(LimitReached) ==> n >= 2 && recs != [] && st.events[n - 2] == Hit(recs[|recs| - 1]))
    && (st.status.Stopped? && st.status.reason != LimitReached ==> n == 1 || st.events[n - 2] == Progress(st.scanned, st.hits))
  }

  /** What a batch appends: hits, and after the last of them a `done` if the limit was reached. */
  ghost predicate BatchAppends(before: State, after: State) {
    var m, n := |before.events|, |after.events|;
    && before.events <= after.events
    && (forall i :: m <= i < n ==> after.events[i].Hit? || (i == n - 1 && after.status == Stopped(LimitReached)))
    && (after.status == Stopped(LimitReached) ==> n >= m + 2 && after.events[n - 1].Finished?)
    && (after.status.Stopped? ==> after.status.reason == LimitReached)
  }

  lemma {:induction false} TakeBatchAppends(cfg: Config, st: State, batch: seq<Item>)
    requires st.status.Running?
    ensures BatchAppends(st, TakeBatch(cfg, st, batch))
    decreases |batch|
  {
    if batch != [] {
      var next := TakeItem(cfg, st, batch[0]);
      assert BatchAppends(st, next);
      if next.status.Running? {
        TakeBatchAppends(cfg, next, batch[1..]);
      }
    }
  }

  lemma LastHitIsLastRecord(cfg: Config, feed: seq<Item>, st: State)
    requires Sane(cfg, feed, st) && st.status == Stopped(LimitReached)
    requires |st.events| >= 2 && st.events[|st.events| - 2].Hit?
    ensures var recs := Processed(feed, st); recs != [] && st.events[|st.events| - 2] == Hit(recs[|recs| - 1])
  {
    LastHit(st.events);
    LastMatch(Processed(feed, st), cfg.keep);
  }

  lemma LastHit(events: seq<Event>)
    requires |events| >= 2 && !events[|events| - 1].Hit? && events[|events| - 2].Hit?
    ensures var hits := HitsIn(events); hits != [] && hits[|hits| - 1] == events[|events| - 2].rec
  {
    var n := |events|;
    assert events[..n - 1][..n - 2] == events[..n - 2];
    assert HitsIn(events[..n - 1]) == HitsIn(events[..n - 2]) + [events[n - 2].rec];
  }

  lemma LastMatch(recs: seq<Rec>, keep: Rec -> bool)
    requires recs != [] && keep(recs[|recs| - 1])
    ensures var hits := Filter(recs, keep); hits != [] && hits[|hits| - 1] == recs[|recs| - 1]
  {
  }

  lemma BatchShape(cfg: Config, feed: seq<Item>, st: State, after: State)
    requires Sane(cfg, feed, after) && WellShaped(Processed(feed, st), st)
    requires st.status.Running? && BatchAppends(st, after)
    ensures !after.status.Running? ==> WellShaped(Processed(feed, after), after)
    ensures after.status.Running? ==> forall i :: 0 <= i < |after.events| ==> !after.events[i].Finished?
  {
    if after.status == Stopped(LimitReached) {
      LastHitIsLastRecord(cfg, feed, after);
    }
  }

  lemma FinishShape(recs: seq<Rec>, st: State, reason: Reason)
    requires WellShaped(recs, st) && st.status.Running? && reason != LimitReached
    ensures WellShaped(recs, Finish(st, reason))
  {
  }

  lemma ProgressShape(recs: seq<Rec>, after: State)
    requires after.status.Running? && forall i :: 0 <= i < |after.events| ==> !after.events[i].Finished?
    ensures WellShaped(recs, after.(events := after.events + [Progress(after.scanned, after.hits)]))
  {
  }

  lemma TakeTurnShape(cfg: Config, feed: seq<Item>, st: State, turn: Turn)
    requires Sane(cfg, feed, st) && st.status.Running? && Assigned(cfg, feed) && WellShaped(Processed(feed, st), st)
    ensures var next := TakeTurn(cfg, feed, st, turn); WellShaped(Processed(feed, next), next)
  {
    var recs := Processed(feed, st);
    var batch := Consume(feed, st.taken, turn.ready, BatchSize(cfg, st));
    if turn.cancelled {
      FinishShape(recs, st, Cancelled);
    } else if st.scanned >= cfg.Budget() {
      FinishShape(recs, st, if cfg.Budget() < cfg.total then BudgetReached else EndOfWindow);
    } else if !AnyRemaining(st.remaining) || batch == [] {
      FinishShape(recs, st, EndOfWindow);
    } else {
      TakeBatchSane(cfg, feed, st, batch);
      TakeBatchAppends(cfg, st, batch);
      var after := TakeBatch(cfg, st, batch);
      BatchShape(cfg, feed, st, after);
      if after.status.Running? {
        ProgressShape(Processed(feed, after), after);
      }
    }
  }

  lemma BeginShape(cfg: Config, feed: seq<Item>)
    requires cfg.starts.Keys == cfg.ends.Keys
    ensures WellShaped(Processed(feed, Begin(cfg)), Begin(cfg))
  {
  }

  lemma {:induction false} RunShape(cfg: Config, feed: seq<Item>, st: State, turns: seq<Turn>)
    requires Sane(cfg, feed, st) && Assigned(cfg, feed) && WellShaped(Processed(feed, st), st)
    ensures var end := Run(cfg, feed, st, turns); WellShaped(Processed(feed, end), end)
    decreases |turns|
  {
    if turns != [] && st.status.Running? {
      TakeTurnShape(cfg, feed, st, turns[0]);
      TakeTurnSane(cfg, feed, st, turns[0]);
      RunShape(cfg, feed, TakeTurn(cfg, feed, st, turns[0]), turns[1..]);
    }
  }

  // ---- Every event at its moment ----

  /** The state after the first `k` turns. */
  function After(cfg: Config, feed: seq<Item>, turns: seq<Turn>, k: nat): State
    requires cfg.starts.Keys == cfg.ends.Keys && k <= |turns|
  {
    Run(cfg, feed, Begin(cfg), turns[..k])
  }

  /** A `progress` that ends the events of the first `k` turns, with the counters as they were then. */
  ghost predicate YieldedAfter(cfg: Config, feed: seq<Item>, turns: seq<Turn>, k: nat, events: seq<Event>, i: nat)
    requires cfg.starts.Keys == cfg.ends.Keys && k <= |turns| && i < |events|
  {
    var st := After(cfg, feed, turns, k);
    && st.events == events[..i + 1]
    && st.scanned == |Processed(feed, st)|
    && events[i] == Progress(st.scanned, st.hits)
  }

  /** Events are only ever added, and each `progress` tells how many records had been processed and
      how many hits yielded when its turn ended. */
  ghost predicate Pinned(cfg: Config, feed: seq<Item>, turns: seq<Turn>)
    requires cfg.starts.Keys == cfg.ends.Keys
  {
    var events := Run(cfg, feed, Begin(cfg), turns).events;
    && (forall k :: 0 <= k <= |turns| ==> After(cfg, feed, turns, k).events <= events)
    && forall i :: 0 <= i < |events| && events[i].Progress? ==>
         exists k :: 0 <= k <= |turns| && YieldedAfter(cfg, feed, turns, k, events, i)
  }

  lemma {:induction false} RunSnoc(cfg: Config, feed: seq<Item>, st: State, turns: seq<Turn>, turn: Turn)
    ensures var before := Run(cfg, feed, st, turns);
            Run(cfg, feed, st, turns + [turn]) == if before.status.Running? then TakeTurn(cfg, feed, before, turn) else before
    decreases |turns|
  {
    if turns == [] {
      assert turns + [turn] == [turn] && [turn][1..] == [];
    } else if st.status.Running? {
      RunSnoc(cfg, feed, TakeTurn(cfg, feed, st, turns[0]), turns[1..], turn);
      assert (turns + [turn])[1..] == turns[1..] + [turn];
    }
  }

  lemma TurnAppends(cfg: Config, feed: seq<Item>, st: State, turn: Turn)
    requires st.status.Running?
    ensures var next := TakeTurn(cfg, feed, st, turn);
            && st.events <= next.events
            && forall i :: |st.events| <= i < |next.events| && next.events[i].Progress? ==>
                 i == |next.events| - 1 && next.events[i] == Progress(next.scanned, next.hits)
  {
    var batch, next := Consume(feed, st.taken, turn.ready, BatchSize(cfg, st)), TakeTurn(cfg, feed, st, turn);
    var after := TakeBatch(cfg, st, batch);
    TakeBatchAppends(cfg, st, batch);
    if turn.cancelled || st.scanned >= cfg.Budget() || !AnyRemaining(st.remaining) || batch == [] {
      assert next.events == st.events + [next.events[|st.events|]] && next.events[|st.events|].Finished?;
    } else if after.status.Running? {
      assert next.events == after.events + [Progress(next.scanned, next.hits)];
    }
  }

  lemma {:induction false} RunPinned(cfg: Config, feed: seq<Item>, turns: seq<Turn>)
    requires cfg.starts.Keys == cfg.ends.Keys && Assigned(cfg, feed)
    ensures Pinned(cfg, feed, turns)
    decreases |turns|
  {
    if turns == [] {
      assert turns[..0] == [];
    } else {
      RunPinned(cfg, feed, turns[..|turns| - 1]);
      PinnedNext(cfg, feed, turns[..|turns| - 1], turns[|turns| - 1]);
      assert turns == turns[..|turns| - 1] + [turns[|turns| - 1]];
    }
  }

  lemma PinnedNext(cfg: Config, feed: seq<Item>, turns: seq<Turn>, turn: Turn)
    requires cfg.starts.Keys == cfg.ends.Keys && Assigned(cfg, feed) && Pinned(cfg, feed, turns)
    ensures Pinned(cfg, feed, turns + [turn])
  {
    var all, before := turns + [turn], Run(cfg, feed, Begin(cfg), turns);
    var after := Run(cfg, feed, Begin(cfg), all);
    RunSnoc(cfg, feed, Begin(cfg), turns, turn);
    if before.status.Running? {
      TurnAppends(cfg, feed, before, turn);
    }
    assert before.events <= after.events;
    forall k | 0 <= k <= |all| ensures After(cfg, feed, all, k).events <= after.events {
      if k < |all| {
        assert all[..k] == turns[..k];
        assert After(cfg, feed, turns, k).events <= before.events;
      } else {
        assert all[..k] == all;
      }
    }
    forall i | 0 <= i < |after.events| && after.events[i].Progress?
      ensures exists k :: 0 <= k <= |all| && YieldedAfter(cfg, feed, all, k, after.events, i)
    {
      if i < |before.events| {
        var k :| 0 <= k <= |turns| && YieldedAfter(cfg, feed, turns, k, before.events, i);
        assert all[..k] == turns[..k] && after.events[..i + 1] == before.events[..i + 1];
        assert YieldedAfter(cfg, feed, all, k, after.events, i);
      } else {
        BeginSane(cfg, feed);
        RunSane(cfg, feed, Begin(cfg), all);
        assert all[..|all|] == all && after.events[..i + 1] == after.events;
        assert YieldedAfter(cfg, feed, all, |all|, after.events, i);
      }
    }
  }

  /** The events of any run: well shaped, every hit count that of the matches before it, and every
      counter the one of the moment it was yielded at. */
  lemma EventsTellTheRun(cfg: Config, feed: seq<Item>, turns: seq<Turn>)
    requires cfg.starts.Keys == cfg.ends.Keys && Assigned(cfg, feed)
    ensures Pinned(cfg, feed, turns)
    ensures var st := Run(cfg, feed, Begin(cfg), turns);
            WellShaped(Processed(feed, st), st) && History(Processed(feed, st), st.events, cfg.keep)
  {
    BeginSane(cfg, feed);
    RunSane(cfg, feed, Begin(cfg), turns);
    BeginShape(cfg, feed);
    RunShape(cfg, feed, Begin(cfg), turns);
    RunPinned(cfg, feed, turns);
  }

  // ---- How a run ends ----

  /** What an item raises in the loop, if anything: the broker's error, or a missing key when the
      record is of a partition that was not assigned. */
  function ErrorOf(ends: map<int, int>, item: Item): Option<string> {
    match item
    case Fault(text) => Some(text)
    case Record(rec) => if rec.partition in ends then None else Some("KeyError")
    case EndOfPartition => None
  }

  /** The scan has raised an error exactly if the last item taken raises it; none before it does. */
  ghost predicate RaisedByLast(cfg: Config, feed: seq<Item>, st: State) {
    && st.taken <= |feed|
    && (forall i :: 0 <= i < st.taken - 1 ==> ErrorOf(cfg.ends, feed[i]).None?)
    && (st.status.Raised? ==> st.taken > 0 && ErrorOf(cfg.ends, feed[st.taken - 1]) == Some(st.status.text))
    && (st.taken > 0 && ErrorOf(cfg.ends, feed[st.taken - 1]).Some? ==> st.status.Raised?)
  }

  lemma TakeItemRaises(cfg: Config, feed: seq<Item>, st: State)
    requires RaisedByLast(cfg, feed, st) && st.status.Running? && st.taken < |feed|
    ensures RaisedByLast(cfg, feed, TakeItem(cfg, st, feed[st.taken]))
    ensures TakeItem(cfg, st, feed[st.taken]).taken == st.taken + 1
  {
  }

  lemma {:induction false} TakeBatchRaises(cfg: Config, feed: seq<Item>, st: State, batch: seq<Item>)
    requires RaisedByLast(cfg, feed, st) && batch <= Drop(feed, st.taken)
    ensures RaisedByLast(cfg, feed, TakeBatch(cfg, st, batch))
    decreases |batch|
  {
    if batch != [] && st.status.Running? {
      assert batch[0] == feed[st.taken];
      TakeItemRaises(cfg, feed, st);
      var next := TakeItem(cfg, st, batch[0]);
      assert batch[1..] <= Drop(feed, next.taken);
      TakeBatchRaises(cfg, feed, next, batch[1..]);
    }
  }

  lemma TakeTurnRaises(cfg: Config, feed: seq<Item>, st: State, turn: Turn)
    requires RaisedByLast(cfg, feed, st) && st.status.Running?
    ensures RaisedByLast(cfg, feed, TakeTurn(cfg, feed, st, turn))
  {
    var batch := Consume(feed, st.taken, turn.ready, BatchSize(cfg, st));
    TakeBatchRaises(cfg, feed, st, batch);
  }

  lemma {:induction false} RunRaises(cfg: Config, feed: seq<Item>, st: State, turns: seq<Turn>)
    requires RaisedByLast(cfg, feed, st)
    ensures RaisedByLast(cfg, feed, Run(cfg, feed, st, turns))
    decreases |turns|
  {
    if turns != [] && st.status.Running? {
      TakeTurnRaises(cfg, feed, st, turns[0]);
      RunRaises(cfg, feed, TakeTurn(cfg, feed, st, turns[0]), turns[1..]);
    }
  }

  /** The first broker error ends the scan, and nothing else raises one: on deliveries from assigned
      partitions, the status is a raised error if and only if the last item taken is that error, and
      no error lies among the items taken before. */
  lemma ErrorEndsScan(cfg: Config, feed: seq<Item>, turns: seq<Turn>)
    requires cfg.starts.Keys == cfg.ends.Keys && Assigned(cfg, feed)
    ensures var st := Run(cfg, feed, Begin(cfg), turns);
            && st.taken <= |feed|
            && (forall text :: st.status == Raised(text) <==> st.taken > 0 && feed[st.taken - 1] == Fault(text))
            && (forall i :: 0 <= i < st.taken && feed[i].Fault? ==> i == st.taken - 1 && st.status == Raised(feed[i].text))
  {
    RunRaises(cfg, feed, Begin(cfg), turns);
    var st := Run(cfg, feed, Begin(cfg), turns);
    forall i | 0 <= i < st.taken ensures ErrorOf(cfg.ends, feed[i]) == if feed[i].Fault? then Some(feed[i].text) else None {
    }
  }

  lemma {:induction false} RunFrozen(cfg: Config, feed: seq<Item>, turns: seq<Turn>, k: nat)
    requires cfg.starts.Keys == cfg.ends.Keys && k <= |turns| && !After(cfg, feed, turns, k).status.Running?
    ensures Run(cfg, feed, Begin(cfg), turns) == After(cfg, feed, turns, k)
    decreases |turns|
  {
    if k < |turns| {
      var init, last := turns[..|turns| - 1], turns[|turns| - 1];
      assert init[..k] == turns[..k] && turns == init + [last];
      RunFrozen(cfg, feed, init, k);
      RunSnoc(cfg, feed, Begin(cfg), init, last);
    } else {
      assert turns[..k] == turns;
    }
  }

  lemma TurnStops(cfg: Config, feed: seq<Item>, st: State, turn: Turn)
    requires st.status.Running?
    ensures var next := TakeTurn(cfg, feed, st, turn);
            && (next.status == Stopped(Cancelled) <==> turn.cancelled)
            && (turn.cancelled ==> next.taken == st.taken && next.events == st.events + [Finished(st.scanned, st.hits, Cancelled)])
            && (next.status == Stopped(BudgetReached) ==> st.scanned >= cfg.maxScan && cfg.maxScan < cfg.total && next.scanned == st.scanned)
  {
    TakeBatchAppends(cfg, st, Consume(feed, st.taken, turn.ready, BatchSize(cfg, st)));
  }

  /** The turn at which the client hung up: the scan was still running, and takes nothing more. */
  ghost predicate HungUpAt(cfg: Config, feed: seq<Item>, turns: seq<Turn>, k: nat)
    requires cfg.starts.Keys == cfg.ends.Keys && k < |turns|
  {
    var before, end := After(cfg, feed, turns, k), Run(cfg, feed, Begin(cfg), turns);
    && before.status.Running? && turns[k].cancelled
    && end.taken == before.taken && end.events == before.events + [Finished(before.scanned, before.hits, Cancelled)]
  }

  /** The scan is cancelled exactly by the first cancelled turn it comes to. */
  lemma CancelledIff(cfg: Config, feed: seq<Item>, turns: seq<Turn>)
    requires cfg.starts.Keys == cfg.ends.Keys
    ensures Run(cfg, feed, Begin(cfg), turns).status == Stopped(Cancelled)
       <==> exists k :: 0 <= k < |turns| && HungUpAt(cfg, feed, turns, k)
    ensures forall k :: 0 <= k < |turns| && turns[k].cancelled && After(cfg, feed, turns, k).status.Running? ==>
              HungUpAt(cfg, feed, turns, k)
  {
    forall k | 0 <= k < |turns| && turns[k].cancelled && After(cfg, feed, turns, k).status.Running?
      ensures HungUpAt(cfg, feed, turns, k) && Run(cfg, feed, Begin(cfg), turns).status == Stopped(Cancelled)
    {
      CancelStops(cfg, feed, turns, k);
    }
    if Run(cfg, feed, Begin(cfg), turns).status == Stopped(Cancelled) {
      var k := CancelledTurn(cfg, feed, turns);
      CancelStops(cfg, feed, turns, k);
    }
  }

  lemma CancelStops(cfg: Config, feed: seq<Item>, turns: seq<Turn>, k: nat)
    requires cfg.starts.Keys == cfg.ends.Keys && k < |turns|
    requires turns[k].cancelled && After(cfg, feed, turns, k).status.Running?
    ensures HungUpAt(cfg, feed, turns, k) && Run(cfg, feed, Begin(cfg), turns).status == Stopped(Cancelled)
  {
    assert turns[..k + 1] == turns[..k] + [turns[k]];
    RunSnoc(cfg, feed, Begin(cfg), turns[..k], turns[k]);
    TurnStops(cfg, feed, After(cfg, feed, turns, k), turns[k]);
    RunFrozen(cfg, feed, turns, k + 1);
  }

  lemma {:induction false} CancelledTurn(cfg: Config, feed: seq<Item>, turns: seq<Turn>) returns (k: nat)
    requires cfg.starts.Keys == cfg.ends.Keys && Run(cfg, feed, Begin(cfg), turns).status == Stopped(Cancelled)
    ensures k < |turns| && turns[k].cancelled && After(cfg, feed, turns, k).status.Running?
    decreases |turns|
  {
    if turns != [] {
      var init, last := turns[..|turns| - 1], turns[|turns| - 1];
      assert turns == init + [last];
      RunSnoc(cfg, feed, Begin(cfg), init, last);
      var before := Run(cfg, feed, Begin(cfg), init);
      if before.status.Running? {
        TurnStops(cfg, feed, before, last);
        k := |init|;
      } else {
        k := CancelledTurn(cfg, feed, init);
        assert init[..k] == turns[..k];
      }
    }
  }

  // ---- Budget ----

  lemma {:induction false} TakeBatchCounts(cfg: Config, st: State, batch: seq<Item>)
    ensures var after := TakeBatch(cfg, st, batch);
            st.scanned <= after.scanned && after.scanned - st.scanned <= after.taken - st.taken
    decreases |batch|
  {
    if batch != [] && st.status.Running? {
      TakeBatchCounts(cfg, TakeItem(cfg, st, batch[0]), batch[1..]);
    }
  }

  lemma {:induction false} TakeBatchTakes(cfg: Config, st: State, batch: seq<Item>)
    requires st.status.Running? && TakeBatch(cfg, st, batch).status.Running?
    ensures TakeBatch(cfg, st, batch).taken == st.taken + |batch|
    decreases |batch|
  {
    if batch != [] {
      var next := TakeItem(cfg, st, batch[0]);
      assert next.status.Running?;
      TakeBatchTakes(cfg, next, batch[1..]);
    }
  }

  lemma {:induction false} TakeBatchTaken(cfg: Config, st: State, batch: seq<Item>)
    ensures st.taken <= TakeBatch(cfg, st, batch).taken <= st.taken + |batch|
    decreases |batch|
  {
    if batch != [] && st.status.Running? {
      TakeBatchTaken(cfg, TakeItem(cfg, st, batch[0]), batch[1..]);
    }
  }

  /** A turn takes at most 500 items from the broker and never more than the budget has left; with the
      budget spent it takes none. A turn that does not end the scan takes as many of the items that are
      ready as that allows. */
  lemma FetchWithinBudget(cfg: Config, feed: seq<Item>, st: State, turn: Turn)
    requires st.status.Running?
    ensures var next := TakeTurn(cfg, feed, st, turn);
            && st.taken <= next.taken <= st.taken + 500
            && st.scanned <= next.scanned
            && (next.taken > st.taken ==> next.taken - st.taken <= Min(cfg.total, cfg.maxScan) - st.scanned)
            && next.scanned - st.scanned <= next.taken - st.taken
            && (next.status.Running? ==>
                  next.taken - st.taken == Min(Min(turn.ready, |Drop(feed, st.taken)|),
                                               Min(500, Min(cfg.total, cfg.maxScan) - st.scanned)))
  {
    var batch := Consume(feed, st.taken, turn.ready, BatchSize(cfg, st));
    TakeBatchTaken(cfg, st, batch);
    TakeBatchCounts(cfg, st, batch);
    if TakeBatch(cfg, st, batch).status.Running? {
      TakeBatchTakes(cfg, st, batch);
    }
  }

  /** No reachable state has scanned more than the window holds or the scan limit allows, whatever
      the broker delivers. */
  lemma {:induction false} ScannedWithinBudget(cfg: Config, feed: seq<Item>, st: State, turns: seq<Turn>)
    requires st.scanned <= Max(0, Min(cfg.total, cfg.maxScan))
    ensures Run(cfg, feed, st, turns).scanned <= Max(0, Min(cfg.total, cfg.maxScan))
    decreases |turns|
  {
    if turns != [] && st.status.Running? {
      var next := TakeTurn(cfg, feed, st, turns[0]);
      FetchWithinBudget(cfg, feed, st, turns[0]);
      ScannedWithinBudget(cfg, feed, next, turns[1..]);
    }
  }

  /** A scan reports a spent budget only when it has scanned exactly as many records as the scan limit
      allows and the window held more. */
  lemma {:induction false} BudgetStop(cfg: Config, feed: seq<Item>, st: State, turns: seq<Turn>)
    requires st.scanned <= Max(0, Min(cfg.total, cfg.maxScan)) && st.status.Running?
    ensures var end := Run(cfg, feed, st, turns);
            end.status == Stopped(BudgetReached) ==> end.scanned == Max(0, cfg.maxScan) && cfg.maxScan < cfg.total
    decreases |turns|
  {
    if turns != [] {
      var next := TakeTurn(cfg, feed, st, turns[0]);
      TurnStops(cfg, feed, st, turns[0]);
      ScannedWithinBudget(cfg, feed, st, turns[..1]);
      assert turns[..1][1..] == [];
      assert Run(cfg, feed, st, turns[..1]) == Run(cfg, feed, next, []);
      if next.status.Running? {
        BudgetStop(cfg, feed, next, turns[1..]);
      }
    }
  }

  // ---- Termination ----

  /** The turns of a run that take items but no record: nothing but end-of-partition events. */
  function Recordless(cfg: Config, feed: seq<Item>, st: State, turns: seq<Turn>): nat
    decreases |turns|
  {
    if turns == [] || !st.status.Running? then 0
    else
      var next := TakeTurn(cfg, feed, st, turns[0]);
      (if next.taken > st.taken && next.scanned == st.scanned then 1 else 0) + Recordless(cfg, feed, next, turns[1..])
  }

  lemma TurnMoves(cfg: Config, feed: seq<Item>, st: State, turn: Turn)
    requires st.status.Running? && TakeTurn(cfg, feed, st, turn).status.Running?
    ensures TakeTurn(cfg, feed, st, turn).taken > st.taken
  {
    TakeBatchTakes(cfg, st, Consume(feed, st.taken, turn.ready, BatchSize(cfg, st)));
  }

  lemma {:induction false} RunMoves(cfg: Config, feed: seq<Item>, st: State, turns: seq<Turn>)
    requires st.status.Running? && Run(cfg, feed, st, turns).status.Running?
    ensures Run(cfg, feed, st, turns).scanned + Recordless(cfg, feed, st, turns) >= st.scanned + |turns|
    decreases |turns|
  {
    if turns != [] {
      var next := TakeTurn(cfg, feed, st, turns[0]);
      assert next.status.Running?;
      TurnMoves(cfg, feed, st, turns[0]);
      FetchWithinBudget(cfg, feed, st, turns[0]);
      RunMoves(cfg, feed, next, turns[1..]);
    }
  }

  lemma {:induction false} RecordlessTake(cfg: Config, feed: seq<Item>, st: State, turns: seq<Turn>)
    ensures var end := Run(cfg, feed, st, turns);
            Recordless(cfg, feed, st, turns) <= (end.taken - st.taken) - (end.scanned - st.scanned)
    decreases |turns|
  {
    if turns != [] && st.status.Running? {
      FetchWithinBudget(cfg, feed, st, turns[0]);
      RecordlessTake(cfg, feed, TakeTurn(cfg, feed, st, turns[0]), turns[1..]);
    }
  }

  function Events(items: seq<Item>): nat {
    |items| - |Records(items)|
  }

  lemma {:induction false} EventsPrefix(feed: seq<Item>, k: nat)
    requires k <= |feed|
    ensures Events(feed[..k]) <= Events(feed)
    decreases |feed|
  {
    if k < |feed| {
      var init := feed[..|feed| - 1];
      EventsPrefix(init, k);
      assert init[..k] == feed[..k];
    } else {
      assert feed[..k] == feed;
    }
  }

  /** The loop terminates: apart from the turns that take no record at all, it makes at most
      budget + 1 turns, whatever the broker delivers and however little of it at a time. */
  lemma ScanTerminates(cfg: Config, feed: seq<Item>, turns: seq<Turn>)
    requires cfg.starts.Keys == cfg.ends.Keys
    requires |turns| > Max(0, cfg.Budget()) + Recordless(cfg, feed, Begin(cfg), turns)
    ensures !Run(cfg, feed, Begin(cfg), turns).status.Running?
  {
    if Run(cfg, feed, Begin(cfg), turns).status.Running? {
      RunMoves(cfg, feed, Begin(cfg), turns);
      ScannedWithinBudget(cfg, feed, Begin(cfg), turns);
    }
  }

  /** And of those turns there are no more than end-of-partition events. */
  lemma RecordlessAreEvents(cfg: Config, feed: seq<Item>, turns: seq<Turn>)
    requires cfg.starts.Keys == cfg.ends.Keys && Assigned(cfg, feed)
    ensures Recordless(cfg, feed, Begin(cfg), turns) <= Events(feed)
  {
    BeginSane(cfg, feed);
    RunSane(cfg, feed, Begin(cfg), turns);
    RecordlessTake(cfg, feed, Begin(cfg), turns);
    EventsPrefix(feed, Run(cfg, feed, Begin(cfg), turns).taken);
  }
}
