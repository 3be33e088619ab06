/** When a scan has seen its whole window, and how a scan and a tail share a log between them. */
module Complete {
  import opened Common
  import opened Logs
  import opened Messages
  import opened Search
  import opened Sums
  import opened Cluster
  import opened Planner
  import opened Scan
  import opened ScanTheorems
  import opened Account
  import opened Tail
  import Purge

  // ---- Deliveries that follow the logs ----

  /** Each assigned partition delivers, in order, a prefix of its log from its start on. The log is the
      whole one, with the records appended while the scan runs. */
  ghost predicate Follows(starts: map<int, int>, logs: map<int, seq<Rec>>, feed: seq<Item>) {
    && (forall i :: 0 <= i < |feed| && feed[i].Record? ==> feed[i].rec.partition in starts)
    && forall p :: p in starts ==>
         p in logs && Increasing(logs[p]) && OfPartition(Records(feed), p) <= Since(logs[p], starts[p])
  }

  /** Every offset from a partition's start to its end holds a record. */
  ghost predicate Dense(cfg: Config, logs: map<int, seq<Rec>>) {
    forall p, offset :: p in cfg.ends && p in logs && Get(cfg.starts, p) <= offset < cfg.ends[p] ==> HasOffset(logs[p], offset)
  }

  lemma DeliveredPrefix(feed: seq<Item>, k: nat, p: int)
    requires k <= |feed|
    ensures OfPartition(Records(Take(feed, k)), p) <= OfPartition(Records(feed), p)
  {
    RecordsPrefix(feed, k);
    FilterPrefix(Records(feed[..k]), Records(feed), (r: Rec) => r.partition == p);
  }

  function NextOf(start: int, delivered: seq<Rec>): int {
    if delivered == [] then start else delivered[|delivered| - 1].offset + 1
  }

  lemma {:induction false} NextIs(cfg: Config, recs: seq<Rec>, p: int)
    ensures Next(cfg, recs, p) == NextOf(Get(cfg.starts, p), OfPartition(recs, p))
  {
    if recs != [] && recs[|recs| - 1].partition != p {
      NextIs(cfg, recs[..|recs| - 1], p);
    }
  }

  lemma DeliveredNext(feed: seq<Item>, i: nat, rec: Rec)
    requires i < |feed| && feed[i] == Record(rec)
    ensures OfPartition(Records(Take(feed, i)), rec.partition) + [rec] <= OfPartition(Records(feed), rec.partition)
  {
    RecordsNext(feed, i);
    DeliveredPrefix(feed, i + 1, rec.partition);
    FilterSnoc(Records(Take(feed, i)), rec, (r: Rec) => r.partition == rec.partition);
  }

  lemma DeliveredBefore(window: seq<Rec>, start: int, delivered: seq<Rec>)
    requires Increasing(window) && delivered <= window && forall i :: 0 <= i < |window| ==> window[i].offset >= start
    ensures start <= NextOf(start, delivered)
    ensures forall i :: 0 <= i < |delivered| ==> window[i].offset < NextOf(start, delivered)
  {
    assert forall i :: 0 <= i < |delivered| ==> delivered[i] == window[i];
  }

  lemma RestAfter(window: seq<Rec>, start: int, delivered: seq<Rec>)
    requires Increasing(window) && delivered <= window && forall i :: 0 <= i < |window| ==> window[i].offset >= start
    ensures forall i :: |delivered| <= i < |window| ==> window[i].offset >= NextOf(start, delivered)
  {
    if delivered != [] {
      assert delivered[|delivered| - 1] == window[|delivered| - 1];
    }
  }

  /** The part of a log from its start on: what has been delivered of it, up to the next offset
      expected, and the rest. */
  lemma Cursor(log: seq<Rec>, start: int, delivered: seq<Rec>)
    requires Increasing(log) && delivered <= Since(log, start)
    ensures Since(log, start) == delivered + Since(log, start)[|delivered|..]
    ensures start <= NextOf(start, delivered)
    ensures forall rec :: rec in Since(log, start)[|delivered|..] <==> rec in log && rec.offset >= NextOf(start, delivered)
  {
    SinceFacts(log, start);
    var window, n, next := Since(log, start), |delivered|, NextOf(start, delivered);
    forall i | 0 <= i < |window| ensures window[i].offset >= start {
      assert window[i] in window;
    }
    DeliveredBefore(window, start, delivered);
    RestAfter(window, start, delivered);
    RestMembers(window, delivered, next);
    forall rec ensures rec in window[n..] <==> rec in log && rec.offset >= next {
      assert rec in window <==> rec in log && rec.offset >= start;
    }
  }

  lemma RestMembers(window: seq<Rec>, delivered: seq<Rec>, next: int)
    requires delivered <= window && forall i :: 0 <= i < |delivered| ==> window[i].offset < next
    requires forall i :: |delivered| <= i < |window| ==> window[i].offset >= next
    ensures forall rec :: rec in window[|delivered|..] <==> rec in window && rec.offset >= next
  {
    var n := |delivered|;
    forall rec | rec in window && rec.offset >= next ensures rec in window[n..] {
      var i :| 0 <= i < |window| && window[i] == rec;
      assert window[n..][i - n] == rec;
    }
  }

  lemma FollowsAt(cfg: Config, logs: map<int, seq<Rec>>, feed: seq<Item>, i: nat)
    requires Planned(cfg) && Follows(cfg.starts, logs, feed) && i < |feed| && feed[i].Record?
    ensures var rec, next := feed[i].rec, Next(cfg, Records(Take(feed, i)), feed[i].rec.partition);
            && rec.partition in cfg.ends && next <= rec.offset
            && (Dense(cfg, logs) && next < cfg.ends[rec.partition] ==> rec.offset == next)
  {
    var rec, recs := feed[i].rec, Records(Take(feed, i));
    var p := rec.partition;
    assert p in cfg.starts && p in cfg.ends;
    var delivered, log := OfPartition(recs, p), logs[p];
    DeliveredNext(feed, i, rec);
    NextIs(cfg, recs, p);
    assert delivered <= delivered + [rec] <= Since(log, cfg.starts[p]);
    Cursor(log, cfg.starts[p], delivered);
    var next, rest := NextOf(cfg.starts[p], delivered), Since(log, cfg.starts[p])[|delivered|..];
    assert rest[0] == Since(log, cfg.starts[p])[|delivered|] == (delivered + [rec])[|delivered|] == rec;
    if Dense(cfg, logs) && next < cfg.ends[p] {
      assert HasOffset(log, next);
      var j :| 0 <= j < |log| && log[j].offset == next;
      assert log[j] in rest;
      FirstIsLeast(log, cfg.starts[p], |delivered|, log[j]);
    }
  }

  lemma FirstIsLeast(log: seq<Rec>, start: int, n: nat, rec: Rec)
    requires Increasing(log) && n < |Since(log, start)| && rec in Since(log, start)[n..]
    ensures Since(log, start)[n].offset <= rec.offset
  {
    SinceFacts(log, start);
  }

  lemma FollowsInOrder(cfg: Config, logs: map<int, seq<Rec>>, feed: seq<Item>)
    requires Planned(cfg) && Follows(cfg.starts, logs, feed)
    ensures InOrder(cfg, feed)
    ensures Dense(cfg, logs) ==> NoSkips(cfg, feed)
  {
    forall i | 0 <= i < |feed| && feed[i].Record?
      ensures var rec, next := feed[i].rec, Next(cfg, Records(Take(feed, i)), feed[i].rec.partition);
              && rec.partition in cfg.ends && next <= rec.offset
              && (Dense(cfg, logs) && next < cfg.ends[rec.partition] ==> rec.offset == next)
    {
      FollowsAt(cfg, logs, feed, i);
    }
  }

  // ---- Which windows a scan has seen ----

  /** The records of a partition's log inside the planned window. */
  function Window(cfg: Config, logs: map<int, seq<Rec>>, p: int): seq<Rec> {
    if p in logs then Until(Since(logs[p], Get(cfg.starts, p)), Get(cfg.ends, p)) else []
  }

  /** The processed records of a partition that lie before its end. */
  function SeenOf(cfg: Config, recs: seq<Rec>, p: int): seq<Rec> {
    Until(OfPartition(recs, p), Get(cfg.ends, p))
  }

  /** Every record of every window has been processed, once and in order. */
  ghost predicate SawWindows(cfg: Config, logs: map<int, seq<Rec>>, recs: seq<Rec>) {
    forall p :: p in cfg.ends ==> SeenOf(cfg, recs, p) == Window(cfg, logs, p)
  }

  /** No record of the log lies between the position `remaining` stands for and the partition's end:
      at most gaps are left there. */
  predicate OnlyGapsLeft(cfg: Config, log: seq<Rec>, remaining: map<int, int>, p: int) {
    forall i :: 0 <= i < |log| ==> !(Get(cfg.ends, p) - Get(remaining, p) <= log[i].offset < Get(cfg.ends, p))
  }

  lemma RestOfWindow(log: seq<Rec>, start: int, end: int, delivered: seq<Rec>)
    requires Increasing(log) && delivered <= Since(log, start)
    ensures var rest := Since(log, start)[|delivered|..];
            && Until(Since(log, start), end) == Until(delivered, end) + Until(rest, end)
            && (Until(rest, end) == [] <==>
                  forall i :: 0 <= i < |log| ==> !(NextOf(start, delivered) <= log[i].offset < end))
  {
    Cursor(log, start, delivered);
    var rest := Since(log, start)[|delivered|..];
    FilterAppend(delivered, rest, (r: Rec) => r.offset < end);
    FilterMembers(rest, (r: Rec) => r.offset < end);
    if Until(rest, end) != [] {
      assert Until(rest, end)[0] in Until(rest, end);
    } else {
      forall i | 0 <= i < |log| ensures !(NextOf(start, delivered) <= log[i].offset < end) {
        assert log[i] in log;
        assert log[i] !in Until(rest, end);
      }
    }
  }

  lemma Reached(cfg: Config, logs: map<int, seq<Rec>>, feed: seq<Item>, turns: seq<Turn>, p: int)
    requires Planned(cfg) && Follows(cfg.starts, logs, feed) && p in cfg.ends
    ensures p in logs && p in cfg.starts && Increasing(logs[p])
    ensures var st := Run(cfg, feed, Begin(cfg), turns);
            var delivered := OfPartition(Processed(feed, st), p);
            && st.taken <= |feed| && st.remaining.Keys == cfg.ends.Keys
            && delivered <= Since(logs[p], cfg.starts[p])
            && cfg.ends[p] - st.remaining[p] == NextOf(cfg.starts[p], delivered)
  {
    FollowsInOrder(cfg, logs, feed);
    ReachedAccounts(cfg, feed, turns, false);
    var st := Run(cfg, feed, Begin(cfg), turns);
    assert p in cfg.starts;
    DeliveredPrefix(feed, st.taken, p);
    NextIs(cfg, Processed(feed, st), p);
  }

  /** In every state a scan reaches, late records or not: it has processed exactly the records of a
      partition's window if and only if only gaps are left between where it stands and the end. What
      it has processed is otherwise a prefix of the window. */
  lemma SawWindowIff(cfg: Config, logs: map<int, seq<Rec>>, feed: seq<Item>, turns: seq<Turn>, p: int)
    requires Planned(cfg) && Follows(cfg.starts, logs, feed) && p in cfg.ends
    ensures p in logs
    ensures var st := Run(cfg, feed, Begin(cfg), turns);
            && SeenOf(cfg, Processed(feed, st), p) <= Window(cfg, logs, p)
            && (SeenOf(cfg, Processed(feed, st), p) == Window(cfg, logs, p) <==> OnlyGapsLeft(cfg, logs[p], st.remaining, p))
  {
    Reached(cfg, logs, feed, turns, p);
    var st := Run(cfg, feed, Begin(cfg), turns);
    RestOfWindow(logs[p], cfg.starts[p], cfg.ends[p], OfPartition(Processed(feed, st), p));
  }

  /** And then its hits before the end are the matches in the window. */
  lemma SeenWindowHits(cfg: Config, logs: map<int, seq<Rec>>, feed: seq<Item>, turns: seq<Turn>, p: int)
    requires Planned(cfg) && Follows(cfg.starts, logs, feed) && p in cfg.ends && p in logs
    requires OnlyGapsLeft(cfg, logs[p], Run(cfg, feed, Begin(cfg), turns).remaining, p)
    ensures var st := Run(cfg, feed, Begin(cfg), turns);
            && SeenOf(cfg, Processed(feed, st), p) == Window(cfg, logs, p)
            && SeenOf(cfg, HitsIn(st.events), p) == Filter(Window(cfg, logs, p), cfg.keep)
            && (BelowEnds(cfg.ends, feed) ==>
                  && OfPartition(Processed(feed, st), p) == Window(cfg, logs, p)
                  && OfPartition(HitsIn(st.events), p) == Filter(Window(cfg, logs, p), cfg.keep))
  {
    var st := Run(cfg, feed, Begin(cfg), turns);
    var recs := Processed(feed, st);
    SawWindowIff(cfg, logs, feed, turns, p);
    FollowsInOrder(cfg, logs, feed);
    BeginSane(cfg, feed);
    RunSane(cfg, feed, Begin(cfg), turns);
    FilterCommutes(recs, cfg.keep, (r: Rec) => r.partition == p);
    FilterCommutes(OfPartition(recs, p), cfg.keep, (r: Rec) => r.offset < Get(cfg.ends, p));
    if BelowEnds(cfg.ends, feed) {
      PartitionInTime(feed, st.taken, cfg.ends, p);
    }
  }

  lemma PartitionInTime(feed: seq<Item>, k: nat, ends: map<int, int>, p: int)
    requires k <= |feed| && BelowEnds(ends, feed)
    ensures var mine := OfPartition(Records(Take(feed, k)), p); Until(mine, Get(ends, p)) == mine
  {
    var recs := Records(Take(feed, k));
    RecordsAreDelivered(feed, k);
    FilterMembers(recs, (r: Rec) => r.partition == p);
    forall i | 0 <= i < |OfPartition(recs, p)| ensures OfPartition(recs, p)[i].offset < Get(ends, p) {
      assert OfPartition(recs, p)[i] in OfPartition(recs, p);
    }
    FilterAll(OfPartition(recs, p), (r: Rec) => r.offset < Get(ends, p));
  }

  // ---- What "reached the end of the window" means ----

  function SeenBy(cfg: Config, recs: seq<Rec>): int -> int {
    p => |SeenOf(cfg, recs, p)|
  }

  function WindowBy(cfg: Config, logs: map<int, seq<Rec>>): int -> int {
    p => |Window(cfg, logs, p)|
  }

  /** The planned total counts offsets; this many of them hold no record. */
  function Gaps(cfg: Config, logs: map<int, seq<Rec>>): int {
    cfg.total - SumBy(cfg.parts, WindowBy(cfg, logs))
  }

  /** The records seen are those seen in each partition. */
  lemma {:induction false} SeenByPartition(cfg: Config, recs: seq<Rec>)
    requires Distinct(cfg.parts) && forall i :: 0 <= i < |recs| ==> recs[i].partition in cfg.parts
    ensures |Seen(cfg, recs)| == SumBy(cfg.parts, SeenBy(cfg, recs))
  {
    if recs == [] {
      SumOfConstant(cfg.parts, SeenBy(cfg, recs), 0);
    } else {
      var init, rec := recs[..|recs| - 1], recs[|recs| - 1];
      SeenByPartition(cfg, init);
      forall p ensures SeenBy(cfg, recs)(p) == SeenBy(cfg, init)(p) + (if p == rec.partition && InTime(cfg.ends)(rec) then 1 else 0) {
        FilterSnoc(OfPartition(init, p), rec, (r: Rec) => r.offset < Get(cfg.ends, p));
      }
      SumPointUpdate(cfg.parts, SeenBy(cfg, init), SeenBy(cfg, recs), rec.partition);
    }
  }

  /** Prefixes of the windows are the windows if and only if together they are as long. */
  lemma SawWindowsBySize(cfg: Config, logs: map<int, seq<Rec>>, recs: seq<Rec>)
    requires Planned(cfg) && forall i :: 0 <= i < |recs| ==> recs[i].partition in cfg.parts
    requires forall p :: p in cfg.ends ==> SeenOf(cfg, recs, p) <= Window(cfg, logs, p)
    ensures SawWindows(cfg, logs, recs) <==> |Seen(cfg, recs)| == SumBy(cfg.parts, WindowBy(cfg, logs))
  {
    SeenByPartition(cfg, recs);
    var f, g := SeenBy(cfg, recs), WindowBy(cfg, logs);
    forall i | 0 <= i < |cfg.parts| ensures f(cfg.parts[i]) <= g(cfg.parts[i]) {
      assert cfg.parts[i] in cfg.ends;
    }
    SumDominated(cfg.parts, f, g);
    if SawWindows(cfg, logs, recs) {
      forall i | 0 <= i < |cfg.parts| ensures f(cfg.parts[i]) == g(cfg.parts[i]) {
        assert cfg.parts[i] in cfg.ends;
      }
      SumCongruent(cfg.parts, f, g);
    } else {
      var p :| p in cfg.ends && SeenOf(cfg, recs, p) != Window(cfg, logs, p);
      assert p in cfg.parts && f(p) != g(p);
    }
  }

  lemma PrefixesSeen(cfg: Config, logs: map<int, seq<Rec>>, feed: seq<Item>, turns: seq<Turn>)
    requires Planned(cfg) && Follows(cfg.starts, logs, feed)
    ensures var st := Run(cfg, feed, Begin(cfg), turns);
            && (forall p :: p in cfg.ends ==> SeenOf(cfg, Processed(feed, st), p) <= Window(cfg, logs, p))
            && (SawWindows(cfg, logs, Processed(feed, st)) <==>
                  forall p :: p in cfg.ends ==> p in logs && OnlyGapsLeft(cfg, logs[p], st.remaining, p))
            && forall i :: 0 <= i < |Processed(feed, st)| ==> Processed(feed, st)[i].partition in cfg.parts
  {
    var st := Run(cfg, feed, Begin(cfg), turns);
    forall p | p in cfg.ends
      ensures SeenOf(cfg, Processed(feed, st), p) <= Window(cfg, logs, p) && p in logs
      ensures SeenOf(cfg, Processed(feed, st), p) == Window(cfg, logs, p) <==> OnlyGapsLeft(cfg, logs[p], st.remaining, p)
    {
      SawWindowIff(cfg, logs, feed, turns, p);
    }
    FollowsInOrder(cfg, logs, feed);
    ReachedAccounts(cfg, feed, turns, false);
    RecordsAreDelivered(feed, st.taken);
    forall i | 0 <= i < |Processed(feed, st)| ensures Processed(feed, st)[i].partition in cfg.parts {
      assert Processed(feed, st)[i] in Processed(feed, st);
    }
  }

  lemma StopKeepsRecords(cfg: Config, feed: seq<Item>, st: State, last: Turn)
    requires st.status.Running? && TakeTurn(cfg, feed, st, last).status == Stopped(EndOfWindow)
    ensures TakeTurn(cfg, feed, st, last) == Finish(st, EndOfWindow)
    ensures st.scanned >= cfg.Budget() ==> cfg.Budget() == cfg.total
  {
    var batch := Consume(feed, st.taken, last.ready, BatchSize(cfg, st));
    if batch != [] {
      TakeBatchAppends(cfg, st, batch);
    }
  }

  lemma ScannedTotal(cfg: Config, logs: map<int, seq<Rec>>, feed: seq<Item>, turns: seq<Turn>)
    requires Planned(cfg) && Follows(cfg.starts, logs, feed) && cfg.Budget() == cfg.total
    requires Run(cfg, feed, Begin(cfg), turns).scanned >= cfg.total
    ensures |Processed(feed, Run(cfg, feed, Begin(cfg), turns))| == cfg.total
  {
    FollowsInOrder(cfg, logs, feed);
    ReachedAccounts(cfg, feed, turns, false);
    ScannedWithinBudget(cfg, feed, Begin(cfg), turns);
  }

  /** With the whole total scanned, every window has been seen if and only if no more late records were
      scanned than the windows have gaps. */
  lemma SpentBudgetSees(cfg: Config, logs: map<int, seq<Rec>>, feed: seq<Item>, turns: seq<Turn>)
    requires Planned(cfg) && Follows(cfg.starts, logs, feed) && cfg.Budget() == cfg.total
    requires Run(cfg, feed, Begin(cfg), turns).scanned >= cfg.total
    ensures var recs := Processed(feed, Run(cfg, feed, Begin(cfg), turns));
            SawWindows(cfg, logs, recs) <==> LateCount(cfg, recs) == Gaps(cfg, logs)
  {
    ScannedTotal(cfg, logs, feed, turns);
    PrefixesSeen(cfg, logs, feed, turns);
    SawWindowsBySize(cfg, logs, Processed(feed, Run(cfg, feed, Begin(cfg), turns)));
  }

  lemma NothingLeftOf(cfg: Config, logs: map<int, seq<Rec>>, feed: seq<Item>, turns: seq<Turn>, p: int)
    requires Planned(cfg) && Follows(cfg.starts, logs, feed) && p in cfg.ends
    requires !AnyRemaining(Run(cfg, feed, Begin(cfg), turns).remaining)
    ensures p in logs && OnlyGapsLeft(cfg, logs[p], Run(cfg, feed, Begin(cfg), turns).remaining, p)
  {
    Reached(cfg, logs, feed, turns, p);
  }

  /** A scan that reports the end of its window has seen every record of it, exactly when: after a
      spent budget, as many late records were scanned as the window has gaps; after an empty fetch,
      only gaps are left in every partition; and always when the loop found nothing remaining. */
  lemma EndOfWindowIff(cfg: Config, logs: map<int, seq<Rec>>, feed: seq<Item>, turns: seq<Turn>, last: Turn)
    requires Planned(cfg) && Follows(cfg.starts, logs, feed)
    requires var st := Run(cfg, feed, Begin(cfg), turns);
             st.status.Running? && TakeTurn(cfg, feed, st, last).status == Stopped(EndOfWindow)
    ensures var st := Run(cfg, feed, Begin(cfg), turns);
            SawWindows(cfg, logs, Processed(feed, TakeTurn(cfg, feed, st, last))) <==>
              if st.scanned >= cfg.Budget() then LateCount(cfg, Processed(feed, st)) == Gaps(cfg, logs)
              else !AnyRemaining(st.remaining)
                   || forall p :: p in cfg.ends ==> p in logs && OnlyGapsLeft(cfg, logs[p], st.remaining, p)
  {
    var st := Run(cfg, feed, Begin(cfg), turns);
    StopKeepsRecords(cfg, feed, st, last);
    PrefixesSeen(cfg, logs, feed, turns);
    if st.scanned >= cfg.Budget() {
      SpentBudgetSees(cfg, logs, feed, turns);
    } else if !AnyRemaining(st.remaining) {
      forall p | p in cfg.ends ensures p in logs && OnlyGapsLeft(cfg, logs[p], st.remaining, p) {
        NothingLeftOf(cfg, logs, feed, turns, p);
      }
    }
  }

  lemma DenseLeaves(cfg: Config, logs: map<int, seq<Rec>>, feed: seq<Item>, turns: seq<Turn>, p: int)
    requires Planned(cfg) && Follows(cfg.starts, logs, feed) && Dense(cfg, logs) && p in cfg.ends
    ensures var st := Run(cfg, feed, Begin(cfg), turns);
            p in logs && p in st.remaining && (OnlyGapsLeft(cfg, logs[p], st.remaining, p) <==> st.remaining[p] <= 0)
  {
    Reached(cfg, logs, feed, turns, p);
    var st := Run(cfg, feed, Begin(cfg), turns);
    Cursor(logs[p], cfg.starts[p], OfPartition(Processed(feed, st), p));
    if st.remaining[p] > 0 {
      assert HasOffset(logs[p], cfg.ends[p] - st.remaining[p]);
    }
  }

  /** On logs without gaps the windows have been seen if and only if nothing remains. */
  lemma DenseSees(cfg: Config, logs: map<int, seq<Rec>>, feed: seq<Item>, turns: seq<Turn>)
    requires Planned(cfg) && Follows(cfg.starts, logs, feed) && Dense(cfg, logs)
    ensures var st := Run(cfg, feed, Begin(cfg), turns);
            SawWindows(cfg, logs, Processed(feed, st)) <==> !AnyRemaining(st.remaining)
  {
    var st := Run(cfg, feed, Begin(cfg), turns);
    PrefixesSeen(cfg, logs, feed, turns);
    FollowsInOrder(cfg, logs, feed);
    ReachedAccounts(cfg, feed, turns, true);
    forall p | p in cfg.ends
      ensures p in logs && (OnlyGapsLeft(cfg, logs[p], st.remaining, p) <==> st.remaining[p] <= 0)
    {
      DenseLeaves(cfg, logs, feed, turns, p);
    }
  }

  /** So there the loop's own guards decide: the report is right if and only if no late record was
      scanned, when the budget was spent, and nothing remained, when it was not. */
  lemma EndOfWindowGapFree(cfg: Config, logs: map<int, seq<Rec>>, feed: seq<Item>, turns: seq<Turn>, last: Turn)
    requires Planned(cfg) && Follows(cfg.starts, logs, feed) && Dense(cfg, logs)
    requires var st := Run(cfg, feed, Begin(cfg), turns);
             st.status.Running? && TakeTurn(cfg, feed, st, last).status == Stopped(EndOfWindow)
    ensures var st := Run(cfg, feed, Begin(cfg), turns);
            SawWindows(cfg, logs, Processed(feed, TakeTurn(cfg, feed, st, last))) <==>
              if st.scanned >= cfg.Budget() then LateCount(cfg, Processed(feed, st)) == 0 else !AnyRemaining(st.remaining)
  {
    StopKeepsRecords(cfg, feed, Run(cfg, feed, Begin(cfg), turns), last);
    DenseSees(cfg, logs, feed, turns);
    FollowsInOrder(cfg, logs, feed);
    ExhaustedMeansFinished(cfg, feed, turns);
    ScannedWithinBudget(cfg, feed, Begin(cfg), turns);
  }

  // Three runs that report the end of the window: two wrongly, one rightly although the loop still
  // counts a record as remaining.

  lemma TakeBoth(cfg: Config, st: State, x: Item, y: Item)
    requires st.status.Running? && TakeItem(cfg, st, x).status.Running?
    ensures TakeBatch(cfg, st, [x, y]) == TakeItem(cfg, TakeItem(cfg, st, x), y)
  {
    assert [x, y][1..] == [y] && [y][1..] == [];
    var next := TakeItem(cfg, st, x);
    assert TakeBatch(cfg, next, [y]) == TakeBatch(cfg, TakeItem(cfg, next, y), []);
  }

  lemma TwoRecords(a: Rec, b: Rec)
    ensures Records([Record(a), Record(b)]) == [a, b]
  {
    assert [Record(a), Record(b)][..1] == [Record(a)] && [Record(a)][..0] == [];
    assert Records([Record(a)]) == Records([]) + [a];
  }

  lemma FilterTwo(a: Rec, b: Rec, keep: Rec -> bool)
    ensures Filter([a, b], keep) == (if keep(a) then [a] else []) + if keep(b) then [b] else []
  {
    assert [a, b] == [a] + [b];
    FilterAppend([a], [b], keep);
  }

  /** The first turn of a scan with a budget of two takes both records that are ready. */
  lemma TurnOfTwo(cfg: Config, a: Rec, b: Rec, turn: Turn)
    requires cfg.starts.Keys == cfg.ends.Keys && a.partition == b.partition && a.partition in cfg.ends
    requires cfg.Budget() == 2 && cfg.limit > 2 && cfg.starts[a.partition] < cfg.ends[a.partition]
    requires turn == Turn(false, 500)
    ensures var st := Run(cfg, [Record(a), Record(b)], Begin(cfg), [turn]);
            && st.status.Running? && st.scanned == st.taken == 2
            && forall q :: q in cfg.ends && q != a.partition ==> q in st.remaining && st.remaining[q] == cfg.ends[q] - cfg.starts[q]
  {
    var feed, begin := [Record(a), Record(b)], Begin(cfg);
    assert a.partition in begin.remaining && begin.remaining[a.partition] > 0;
    assert Consume(feed, 0, 500, BatchSize(cfg, begin)) == feed;
    TakeBoth(cfg, begin, Record(a), Record(b));
    assert [turn][1..] == [];
    assert Run(cfg, feed, begin, [turn]) == Run(cfg, feed, TakeTurn(cfg, feed, begin, turn), []);
  }

  lemma FollowsTwo(starts: map<int, int>, logs: map<int, seq<Rec>>, feed: seq<Item>, a: Rec, late: Rec)
    requires a.partition == 0 && late.partition == 0 && a.offset == 0 && late.offset == 1
    requires starts.Keys == {0, 1} && starts[0] == 0 && starts[1] == 0
    requires 0 in logs && 1 in logs && logs[0] == [a, late] && Increasing(logs[1])
    requires Records(feed) == [a, late] && feed == [Record(a), Record(late)]
    ensures Follows(starts, logs, feed)
  {
    assert OfPartition([a, late], 0) == [a, late] by {
      FilterAll([a, late], (r: Rec) => r.partition == 0);
    }
    assert OfPartition([a, late], 1) == [] by {
      FilterNone([a, late], (r: Rec) => r.partition == 1);
    }
    assert Since(logs[0], 0) == [a, late] by {
      FilterAll([a, late], (r: Rec) => r.offset >= 0);
    }
  }

  /** Two partitions with one record each, and one record appended to the first while the scan runs:
      delivered first, it uses up the budget, and the second partition is never read. */
  lemma LateRecordLooksFinished(cfg: Config, logs: map<int, seq<Rec>>, a: Rec, late: Rec, b: Rec)
    requires cfg.parts == [0, 1] && cfg.total == 2 && cfg.maxScan >= 2 && cfg.limit > 2
    requires cfg.starts.Keys == {0, 1} && cfg.starts[0] == 0 && cfg.starts[1] == 0
    requires cfg.ends.Keys == {0, 1} && cfg.ends[0] == 1 && cfg.ends[1] == 1
    requires a.partition == 0 && late.partition == 0 && a.offset == 0 && late.offset == 1 && b.offset == 0
    requires 0 in logs && 1 in logs && logs[0] == [a, late] && logs[1] == [b]
    ensures Planned(cfg) && Follows(cfg.starts, logs, [Record(a), Record(late)]) && Dense(cfg, logs)
    ensures var feed := [Record(a), Record(late)];
            var st := Run(cfg, feed, Begin(cfg), [Turn(false, 500)]);
            && st.status.Running? && st.scanned == cfg.total && LateCount(cfg, Processed(feed, st)) == 1
            && TakeTurn(cfg, feed, st, Turn(false, 500)).status == Stopped(EndOfWindow)
            && !SawWindows(cfg, logs, Processed(feed, st))
  {
    var feed, turn := [Record(a), Record(late)], Turn(false, 500);
    PlannedTwo(cfg);
    TwoRecords(a, late);
    FollowsTwo(cfg.starts, logs, feed, a, late);
    assert logs[0][0].offset == 0 && logs[1][0].offset == 0;
    DenseTwo(cfg, logs);
    TurnOfTwo(cfg, a, late, turn);
    assert Take(feed, 2) == feed;
    var st := Run(cfg, feed, Begin(cfg), [turn]);
    assert Processed(feed, st) == [a, late];
    OneIsLate(cfg, a, late);
    LateStop(cfg, logs, feed, [turn], turn);
  }

  /** A spent budget with a late record among the scanned: the report is wrong. */
  lemma LateStop(cfg: Config, logs: map<int, seq<Rec>>, feed: seq<Item>, turns: seq<Turn>, last: Turn)
    requires Planned(cfg) && Follows(cfg.starts, logs, feed) && Dense(cfg, logs) && cfg.Budget() == cfg.total
    requires var st := Run(cfg, feed, Begin(cfg), turns);
             st.status.Running? && st.scanned >= cfg.Budget() && LateCount(cfg, Processed(feed, st)) > 0
    requires !last.cancelled
    ensures var st := Run(cfg, feed, Begin(cfg), turns);
            TakeTurn(cfg, feed, st, last).status == Stopped(EndOfWindow) && !SawWindows(cfg, logs, Processed(feed, st))
  {
    EndOfWindowGapFree(cfg, logs, feed, turns, last);
  }

  lemma DenseTwo(cfg: Config, logs: map<int, seq<Rec>>)
    requires cfg.starts.Keys == {0, 1} && cfg.starts[0] == 0 && cfg.starts[1] == 0
    requires cfg.ends.Keys == {0, 1} && cfg.ends[0] == 1 && cfg.ends[1] == 1
    requires 0 in logs && 1 in logs && HasOffset(logs[0], 0) && HasOffset(logs[1], 0)
    ensures Dense(cfg, logs)
  {
  }

  lemma OneIsLate(cfg: Config, a: Rec, late: Rec)
    requires a.partition == 0 && late.partition == 0 && a.offset == 0 && late.offset == 1 && 0 in cfg.ends && cfg.ends[0] == 1
    ensures LateCount(cfg, [a, late]) == 1
  {
    FilterTwo(a, late, InTime(cfg.ends));
  }

  lemma PlannedTwo(cfg: Config)
    requires cfg.parts == [0, 1] && cfg.total == 2
    requires cfg.starts.Keys == {0, 1} && cfg.starts[0] == 0 && cfg.starts[1] == 0
    requires cfg.ends.Keys == {0, 1} && cfg.ends[0] == 1 && cfg.ends[1] == 1
    ensures Planned(cfg)
  {
    SumOfConstant(cfg.parts, Width(cfg.starts, cfg.ends), 1);
  }

  lemma TurnOfOne(cfg: Config, a: Rec, turn: Turn)
    requires cfg.starts.Keys == cfg.ends.Keys && a.partition in cfg.ends
    requires cfg.Budget() == 2 && cfg.limit > 1 && cfg.starts[a.partition] < cfg.ends[a.partition]
    requires turn == Turn(false, 500)
    ensures var st := Run(cfg, [Record(a)], Begin(cfg), [turn]);
            && st.status.Running? && st.scanned == st.taken == 1
            && a.partition in st.remaining && st.remaining[a.partition] == cfg.ends[a.partition] - a.offset - 1
  {
    var feed, begin := [Record(a)], Begin(cfg);
    assert a.partition in begin.remaining && begin.remaining[a.partition] > 0;
    assert Consume(feed, 0, 500, BatchSize(cfg, begin)) == feed && feed[1..] == [];
    assert TakeBatch(cfg, begin, feed) == TakeBatch(cfg, TakeItem(cfg, begin, feed[0]), []);
    assert [turn][1..] == [];
    assert Run(cfg, feed, begin, [turn]) == Run(cfg, feed, TakeTurn(cfg, feed, begin, turn), []);
  }

  lemma OneRecord(a: Rec)
    ensures Records([Record(a)]) == [a]
  {
    assert [Record(a)][..0] == [];
    assert Records([Record(a)]) == Records([]) + [a];
  }

  lemma FollowsOne(starts: map<int, int>, logs: map<int, seq<Rec>>, feed: seq<Item>, a: Rec)
    requires starts.Keys == {0} && starts[0] == 0 && a.partition == 0
    requires 0 in logs && logs[0] == [a] && Records(feed) == [a] && feed == [Record(a)]
    ensures Follows(starts, logs, feed)
  {
    assert OfPartition([a], 0) == [a] by {
      FilterAll([a], (r: Rec) => r.partition == 0);
    }
    assert Since([a], 0) == [a] by {
      FilterAll([a], (r: Rec) => r.offset >= 0);
    }
  }

  /** One partition whose last offset holds no record (a transaction marker): the one record it has is
      scanned, the loop waits for another, and the broker has none. */
  lemma TrailingGapIsSeen(cfg: Config, logs: map<int, seq<Rec>>, a: Rec)
    requires cfg.parts == [0] && cfg.total == 2 && cfg.maxScan >= 2 && cfg.limit > 1
    requires cfg.starts.Keys == {0} && cfg.starts[0] == 0 && cfg.ends.Keys == {0} && cfg.ends[0] == 2
    requires a.partition == 0 && a.offset == 0 && 0 in logs && logs[0] == [a]
    ensures Planned(cfg) && Follows(cfg.starts, logs, [Record(a)])
    ensures var st := Run(cfg, [Record(a)], Begin(cfg), [Turn(false, 500)]);
            && st.status.Running? && st.scanned < cfg.Budget() && AnyRemaining(st.remaining)
            && TakeTurn(cfg, [Record(a)], st, Turn(false, 500)).status == Stopped(EndOfWindow)
            && SawWindows(cfg, logs, Processed([Record(a)], st))
  {
    var turn := Turn(false, 500);
    SumOfConstant(cfg.parts, Width(cfg.starts, cfg.ends), 2);
    OneRecord(a);
    FollowsOne(cfg.starts, logs, [Record(a)], a);
    TurnOfOne(cfg, a, turn);
    var st := Run(cfg, [Record(a)], Begin(cfg), [turn]);
    assert 0 in st.remaining && st.remaining[0] == 1;
    EndOfWindowIff(cfg, logs, [Record(a)], [turn], turn);
  }

  /** A broker that answers the first fetch with nothing, although records are planned. */
  lemma QuietBrokerLooksFinished(cfg: Config, logs: map<int, seq<Rec>>, p: int)
    requires Planned(cfg) && p in cfg.ends && cfg.Budget() > 0
    requires forall q :: q in cfg.starts ==> q in logs && Increasing(logs[q])
    requires Window(cfg, logs, p) != []
    ensures Follows(cfg.starts, logs, [])
    ensures var st := TakeTurn(cfg, [], Begin(cfg), Turn(false, 500));
            st.status == Stopped(EndOfWindow) && st.scanned == 0 && !SawWindows(cfg, logs, Processed([], st))
  {
  }

  // ---- What "nothing in the selected window" means ----

  lemma TurnReasons(cfg: Config, feed: seq<Item>, st: State, turn: Turn)
    requires st.status.Running?
    ensures TakeTurn(cfg, feed, st, turn).status != Stopped(NothingInWindow)
  {
    TakeBatchAppends(cfg, st, Consume(feed, st.taken, turn.ready, BatchSize(cfg, st)));
  }

  lemma {:induction false} RunReasons(cfg: Config, feed: seq<Item>, st: State, turns: seq<Turn>)
    ensures Run(cfg, feed, st, turns).status == Stopped(NothingInWindow) <==> st.status == Stopped(NothingInWindow)
    decreases |turns|
  {
    if turns != [] && st.status.Running? {
      TurnReasons(cfg, feed, st, turns[0]);
      RunReasons(cfg, feed, TakeTurn(cfg, feed, st, turns[0]), turns[1..]);
    }
  }

  lemma NoOffsets(cfg: Config)
    requires Planned(cfg)
    ensures cfg.total == 0 <==> forall p :: p in cfg.ends ==> cfg.starts[p] >= cfg.ends[p]
  {
    var width := Width(cfg.starts, cfg.ends);
    assert forall p :: width(p) == Max(0, Get(cfg.ends, p) - Get(cfg.starts, p));
    if cfg.total == 0 {
      forall p | p in cfg.ends ensures cfg.starts[p] >= cfg.ends[p] {
        SummandBound(cfg.parts, width, p);
        assert p in cfg.starts;
      }
    } else if forall p :: p in cfg.ends ==> cfg.starts[p] >= cfg.ends[p] {
      SumOfConstant(cfg.parts, width, 0);
    }
  }

  lemma WindowMembers(cfg: Config, logs: map<int, seq<Rec>>, p: int)
    requires p in logs
    ensures forall rec :: rec in Window(cfg, logs, p) <==>
              rec in logs[p] && Get(cfg.starts, p) <= rec.offset < Get(cfg.ends, p)
  {
    FilterMembers(logs[p], (r: Rec) => r.offset >= Get(cfg.starts, p));
    FilterMembers(Since(logs[p], Get(cfg.starts, p)), (r: Rec) => r.offset < Get(cfg.ends, p));
  }

  ghost predicate NoRecords(cfg: Config, logs: map<int, seq<Rec>>) {
    forall p :: p in cfg.ends ==> Window(cfg, logs, p) == []
  }

  lemma NoRecordsIff(cfg: Config, logs: map<int, seq<Rec>>)
    requires Planned(cfg)
    ensures NoRecords(cfg, logs) <==> Gaps(cfg, logs) == cfg.total
  {
    var held := WindowBy(cfg, logs);
    if NoRecords(cfg, logs) {
      SumOfConstant(cfg.parts, held, 0);
    } else {
      var p :| p in cfg.ends && Window(cfg, logs, p) != [];
      SummandBound(cfg.parts, held, p);
      assert held(p) > 0;
    }
  }

  /** A scan reports that nothing is in the selected window exactly when the smaller of the planned
      total and the scan limit is 0. The report is right if and only if the plan holds no offset, or,
      in terms of records, none but gaps; without gaps the two are the same. */
  lemma NothingInWindowIff(cfg: Config, logs: map<int, seq<Rec>>, feed: seq<Item>, turns: seq<Turn>)
    requires Planned(cfg) && forall p :: p in cfg.ends ==> p in logs
    ensures Run(cfg, feed, Begin(cfg), turns).status == Stopped(NothingInWindow) <==> cfg.total == 0 <= cfg.maxScan || cfg.maxScan == 0
    ensures cfg.total == 0 <==> forall p :: p in cfg.ends ==> cfg.starts[p] >= cfg.ends[p]
    ensures NoRecords(cfg, logs) <==> Gaps(cfg, logs) == cfg.total
    ensures cfg.total == 0 ==> NoRecords(cfg, logs)
    ensures Dense(cfg, logs) ==> (NoRecords(cfg, logs) <==> cfg.total == 0)
  {
    RunReasons(cfg, feed, Begin(cfg), turns);
    NoOffsets(cfg);
    NoRecordsIff(cfg, logs);
    forall p | p in cfg.ends
      ensures cfg.starts[p] >= cfg.ends[p] ==> Window(cfg, logs, p) == []
      ensures Dense(cfg, logs) && cfg.starts[p] < cfg.ends[p] ==> Window(cfg, logs, p) != []
    {
      WindowOf(cfg, logs, p);
    }
  }

  lemma WindowOf(cfg: Config, logs: map<int, seq<Rec>>, p: int)
    requires p in cfg.ends && p in cfg.starts && p in logs
    ensures cfg.starts[p] >= cfg.ends[p] ==> Window(cfg, logs, p) == []
    ensures Dense(cfg, logs) && cfg.starts[p] < cfg.ends[p] ==> Window(cfg, logs, p) != []
  {
    var since := Since(logs[p], cfg.starts[p]);
    FilterMembers(logs[p], (r: Rec) => r.offset >= cfg.starts[p]);
    assert forall i :: 0 <= i < |since| ==> since[i] in since;
    if cfg.starts[p] >= cfg.ends[p] {
      FilterNone(since, (r: Rec) => r.offset < cfg.ends[p]);
    }
    WindowMembers(cfg, logs, p);
    if Dense(cfg, logs) && cfg.starts[p] < cfg.ends[p] {
      assert HasOffset(logs[p], cfg.starts[p]);
      var i :| 0 <= i < |logs[p]| && logs[p][i].offset == cfg.starts[p];
      assert logs[p][i] in Window(cfg, logs, p);
    }
  }

  /** For example, a scan limit of 0 makes every scan say so, whatever its window holds. */
  lemma ZeroLimitLooksEmpty(cfg: Config, logs: map<int, seq<Rec>>, p: int)
    requires Planned(cfg) && cfg.maxScan == 0 && p in cfg.ends && p in logs && Window(cfg, logs, p) != []
    ensures Begin(cfg).status == Stopped(NothingInWindow) && cfg.total > 0
  {
    NoOffsets(cfg);
    WindowOf(cfg, logs, p);
  }

  // ---- A scan and then a tail ----

  lemma WindowThenTail(log: seq<Rec>, start: int, end: int)
    requires Increasing(log) && start <= end
    ensures Since(log, start) == Until(Since(log, start), end) + Since(log, end)
  {
    SinceFacts(log, start);
    SplitAt(Since(log, start), end);
    SinceSince(log, start, end);
  }

  /** Between them a scan that has seen a partition's window and a tail that starts at its end see
      every record from the scan's start up to the tail's position exactly once: the window and what
      the tail has taken make up a prefix of the log, and the hits concatenated (the scan's up to the
      end, should it have been given late records) are the matches in that prefix. */
  lemma ScanThenTail(
    cfg: Config, logs: map<int, seq<Rec>>, feed: seq<Item>, turns: seq<Turn>,
    tailFeed: seq<Item>, tailTurns: seq<Turn>, p: int)
    requires Planned(cfg) && Follows(cfg.starts, logs, feed) && p in cfg.ends && p in logs
    requires OnlyGapsLeft(cfg, logs[p], Run(cfg, feed, Begin(cfg), turns).remaining, p)
    requires Follows(cfg.ends, logs, tailFeed) && p in cfg.starts && cfg.starts[p] <= cfg.ends[p]
    ensures var st, tl := Run(cfg, feed, Begin(cfg), turns), TailRun(cfg.keep, tailFeed, TAIL_START, tailTurns);
            var seen := Window(cfg, logs, p) + OfPartition(Records(Take(tailFeed, tl.taken)), p);
            && seen <= Since(logs[p], cfg.starts[p])
            && SeenOf(cfg, HitsIn(st.events), p) + OfPartition(HitsIn(tl.events), p) == Filter(seen, cfg.keep)
            && (BelowEnds(cfg.ends, feed) ==>
                  OfPartition(HitsIn(st.events), p) + OfPartition(HitsIn(tl.events), p) == Filter(seen, cfg.keep))
  {
    var tl := TailRun(cfg.keep, tailFeed, TAIL_START, tailTurns);
    var recs := Records(Take(tailFeed, tl.taken));
    var window, after := Window(cfg, logs, p), OfPartition(recs, p);
    SeenWindowHits(cfg, logs, feed, turns, p);
    assert Take(tailFeed, 0) == [];
    TailRunSane(cfg.keep, tailFeed, TAIL_START, tailTurns);
    DeliveredPrefix(tailFeed, tl.taken, p);
    WindowThenTail(logs[p], cfg.starts[p], cfg.ends[p]);
    FilterCommutes(recs, cfg.keep, (r: Rec) => r.partition == p);
    FilterAppend(window, after, cfg.keep);
  }

  /** The log a partition held when its watermarks were read, and what was appended since. */
  ghost predicate Extends(held: Log, log: seq<Rec>) {
    && Increasing(log) && held.recs <= log
    && forall i :: |held.recs| <= i < |log| ==> log[i].offset >= held.high
  }

  lemma WindowIsHeld(held: Log, log: seq<Rec>)
    requires held.Valid() && Extends(held, log)
    ensures Since(log, held.low) == log && Until(log, held.high) == held.recs
  {
    forall i | 0 <= i < |log| ensures log[i].offset >= held.low {
      assert i < |held.recs| ==> log[i] == held.recs[i];
    }
    FilterAll(log, (r: Rec) => r.offset >= held.low);
    HeldFirst(held, log, log[|held.recs|..]);
  }

  lemma HeldFirst(held: Log, log: seq<Rec>, rest: seq<Rec>)
    requires held.Valid() && log == held.recs + rest && forall i :: 0 <= i < |rest| ==> rest[i].offset >= held.high
    ensures Until(log, held.high) == held.recs
  {
    FilterAppend(held.recs, rest, (r: Rec) => r.offset < held.high);
    FilterAll(held.recs, (r: Rec) => r.offset < held.high);
    FilterNone(rest, (r: Rec) => r.offset < held.high);
  }

  /** What the plan of a scan from the earliest offset means for a partition. */
  lemma EarliestWindow(
    t: Topic, spec: Spec, plan: Plan, limit: int, maxScan: int, keep: Rec -> bool, logs: map<int, seq<Rec>>, p: int)
    requires t.Valid() && spec.start.Earliest? && Selected(t, spec.partition).Ok?
    requires IsPlan(t, spec, Selected(t, spec.partition).value, plan) && p in plan.ends
    requires p in t.logs && p in logs && Extends(t.logs[p], logs[p])
    ensures plan.total >= 0 && Planned(ConfigOf(plan, limit, maxScan, keep))
    ensures p in plan.starts && plan.starts[p] == t.logs[p].low <= t.logs[p].high == plan.ends[p]
    ensures Window(ConfigOf(plan, limit, maxScan, keep), logs, p) == t.logs[p].recs
    ensures Since(logs[p], plan.starts[p]) == logs[p]
  {
    PlanIsPlanned(t, spec, plan, limit, maxScan, keep);
    assert p in plan.parts && plan.starts[p] == t.logs[p].low && plan.ends[p] == t.logs[p].high;
    WindowIsHeld(t.logs[p], logs[p]);
  }

  /** From the earliest offset: the scan's plan and the tail's assignment read the same watermarks, so
      what they see is a prefix of the partition's whole log that includes everything it held. */
  lemma EarliestScanThenTail(
    t: Topic, spec: Spec, plan: Plan, limit: int, maxScan: int, keep: Rec -> bool, logs: map<int, seq<Rec>>,
    feed: seq<Item>, turns: seq<Turn>, tailFeed: seq<Item>, tailTurns: seq<Turn>, p: int)
    requires t.Valid() && spec.start.Earliest? && Selected(t, spec.partition).Ok?
    requires IsPlan(t, spec, Selected(t, spec.partition).value, plan) && plan.total >= 0 && p in plan.ends
    requires p in t.logs && p in logs && Extends(t.logs[p], logs[p])
    requires var cfg := ConfigOf(plan, limit, maxScan, keep);
             && Follows(cfg.starts, logs, feed) && Follows(cfg.ends, logs, tailFeed)
             && OnlyGapsLeft(cfg, logs[p], Run(cfg, feed, Begin(cfg), turns).remaining, p)
    ensures var cfg := ConfigOf(plan, limit, maxScan, keep);
            var st, tl := Run(cfg, feed, Begin(cfg), turns), TailRun(keep, tailFeed, TAIL_START, tailTurns);
            var seen := t.logs[p].recs + OfPartition(Records(Take(tailFeed, tl.taken)), p);
            && seen <= logs[p]
            && SeenOf(cfg, HitsIn(st.events), p) + OfPartition(HitsIn(tl.events), p) == Filter(seen, keep)
            && (BelowEnds(cfg.ends, feed) ==>
                  OfPartition(HitsIn(st.events), p) + OfPartition(HitsIn(tl.events), p) == Filter(seen, keep))
  {
    EarliestWindow(t, spec, plan, limit, maxScan, keep, logs, p);
    ScanThenTail(ConfigOf(plan, limit, maxScan, keep), logs, feed, turns, tailFeed, tailTurns, p);
  }

  /** A search from the earliest offset that has only gaps left in a partition has found, below its
      end, exactly the messages it held that pass the filters. */
  lemma FinishedSearchFindsMatches(
    t: Topic, spec: Spec, plan: Plan, limit: int, maxScan: int, f: Filters, lib: Library, logs: map<int, seq<Rec>>,
    feed: seq<Item>, turns: seq<Turn>, p: int)
    requires t.Valid() && spec.start.Earliest? && Selected(t, spec.partition).Ok?
    requires IsPlan(t, spec, Selected(t, spec.partition).value, plan) && plan.total >= 0 && p in plan.ends
    requires p in t.logs && p in logs && Extends(t.logs[p], logs[p])
    requires var cfg := ConfigOf(plan, limit, maxScan, Matching(f, lib));
             && Follows(cfg.starts, logs, feed)
             && OnlyGapsLeft(cfg, logs[p], Run(cfg, feed, Begin(cfg), turns).remaining, p)
    ensures var cfg := ConfigOf(plan, limit, maxScan, Matching(f, lib));
            var found := SeenOf(cfg, HitsIn(Run(cfg, feed, Begin(cfg), turns).events), p);
            && Increasing(found)
            && forall rec :: rec in found <==> rec in t.logs[p].recs && Passes(rec.msg, f, lib)
  {
    var cfg := ConfigOf(plan, limit, maxScan, Matching(f, lib));
    EarliestWindow(t, spec, plan, limit, maxScan, Matching(f, lib), logs, p);
    SeenWindowHits(cfg, logs, feed, turns, p);
    FilterMembers(t.logs[p].recs, Matching(f, lib));
    FilterIncreasing(t.logs[p].recs, Matching(f, lib));
    forall rec | rec in t.logs[p].recs ensures Matches(rec.msg, f, lib) <==> Passes(rec.msg, f, lib) {
      MatchesIff(rec.msg, f, lib);
    }
  }

  lemma {:induction false} FilterIncreasing(recs: seq<Rec>, keep: Rec -> bool)
    requires Increasing(recs)
    ensures Increasing(Filter(recs, keep))
  {
    if recs != [] {
      var init := recs[..|recs| - 1];
      FilterIncreasing(init, keep);
      FilterMembers(init, keep);
      var kept := Filter(init, keep);
      forall i | 0 <= i < |kept| ensures kept[i].offset < recs[|recs| - 1].offset {
        assert kept[i] in kept && kept[i] in init;
      }
    }
  }

  // ---- A scan after a purge ----

  /** Right after a purge that nobody interrupted, every scan of the topic ends at once: there is
      nothing in the selected window. */
  lemma PurgedTopicScansNothing(t: Topic, spec: Spec, plan: Plan, parts: seq<int>, limit: int, maxScan: int, keep: Rec -> bool)
    requires t.Valid() && IsPlan(Purge.Emptied(t), spec, parts, plan) && maxScan >= 0
    ensures plan.total == 0
    ensures var st := Begin(ConfigOf(plan, limit, maxScan, keep));
            st.status == Stopped(NothingInWindow) && st.events == [Finished(0, 0, NothingInWindow)]
  {
    Purge.PurgedTopicIsEmpty(t, spec, plan, parts);
  }
}
