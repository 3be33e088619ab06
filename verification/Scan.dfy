/** The bounded scan of app/services/messages.py as a state machine over what the broker delivers. */
module Scan {
  import opened Common
  import opened Logs
  import opened Messages

  /** What `consume` hands over: a record, an end-of-partition event or an error. */
  datatype Item = Record(rec: Rec) | EndOfPartition | Fault(text: string)

  datatype Reason = NothingInWindow | Cancelled | BudgetReached | EndOfWindow | LimitReached | TailStopped

  /** The events the generator yields, with the counters as they are at that moment. */
  datatype Event =
    | Hit(rec: Rec)
    | Progress(scanned: nat, hits: nat)
    | Finished(scanned: nat, hits: nat, reason: Reason)

  datatype Status = Running | Stopped(reason: Reason) | Raised(text: string)

  /** A planned scan: `parts`, `starts`, `ends` and `total` come from the planner, the rest from the
      request. `keep` stands for `matches(_build(raw), spec)`
      (see `Matching`). */
  datatype Config = Config(
    parts: seq<int>, starts: map<int, int>, ends: map<int, int>, total: nat,
    limit: int, maxScan: int, keep: Rec -> bool)
  {
    function Budget(): int {
      Min(total, maxScan)
    }
  }

  /** The variables of the generator, the events yielded so far, and how many delivered items have
      been processed. */
  datatype State = State(
    scanned: nat, hits: nat, remaining: map<int, int>,
    events: seq<Event>, status: Status, taken: nat)

  /** One turn of the `while` loop as its environment decides it: whether the client hung up, and
      how many further items the broker has ready. */
  datatype Turn = Turn(cancelled: bool, ready: nat)

  const MAX_BATCH: nat := 500

  /** The records whose message passes the request's filters. */
  function Matching(f: Filters, lib: Library): Rec -> bool {
    (rec: Rec) => Matches(rec.msg, f, lib)
  }

  // ---- One record, one batch, one turn ----

  function Finish(st: State, reason: Reason): State {
    st.(status := Stopped(reason), events := st.events + [Finished(st.scanned, st.hits, reason)])
  }

  function Emit(cfg: Config, st: State, rec: Rec): State {
    if !cfg.keep(rec) then st
    else
      var hit := st.(hits := st.hits + 1, events := st.events + [Hit(rec)]);
      if hit.hits >= cfg.limit then Finish(hit, LimitReached) else hit
  }

  function TakeItem(cfg: Config, st: State, item: Item): State {
    match item
    case EndOfPartition => st.(taken := st.taken + 1)
    case Fault(text) => st.(taken := st.taken + 1, status := Raised(text))
    case Record(rec) =>
      var counted := st.(taken := st.taken + 1, scanned := st.scanned + 1);
      if rec.partition !in cfg.ends then counted.(status := Raised("KeyError"))
      else
        Emit(cfg, counted.(remaining := st.remaining[rec.partition := cfg.ends[rec.partition] - rec.offset - 1]), rec)
  }

  function TakeBatch(cfg: Config, st: State, batch: seq<Item>): State
    decreases |batch|
  {
    if batch == [] || !st.status.Running? then st
    else TakeBatch(cfg, TakeItem(cfg, st, batch[0]), batch[1..])
  }

  function BatchSize(cfg: Config, st: State): int {
    Max(1, Min(MAX_BATCH, cfg.Budget() - st.scanned))
  }

  /** What `consume` returns: at most as many items as asked for, the next ones in line. */
  function Consume(feed: seq<Item>, from: nat, ready: nat, size: int): (batch: seq<Item>)
    requires size >= 0
    ensures |batch| <= size
    ensures batch <= Drop(feed, from)
  {
    Take(Drop(feed, from), Min(ready, size))
  }

  predicate AnyRemaining(remaining: map<int, int>) {
    exists p :: p in remaining && remaining[p] > 0
  }

  function TakeTurn(cfg: Config, feed: seq<Item>, st: State, turn: Turn): State {
    if turn.cancelled then Finish(st, Cancelled)
    else if st.scanned >= cfg.Budget() then
      Finish(st, if cfg.Budget() < cfg.total then BudgetReached else EndOfWindow)
    else if !AnyRemaining(st.remaining) then Finish(st, EndOfWindow)
    else
      var batch := Consume(feed, st.taken, turn.ready, BatchSize(cfg, st));
      if batch == [] then Finish(st, EndOfWindow)
      else
        var after := TakeBatch(cfg, st, batch);
        if after.status.Running? then after.(events := after.events + [Progress(after.scanned, after.hits)])
        else after
  }

  function Begin(cfg: Config): State
    requires cfg.starts.Keys == cfg.ends.Keys
  {
    var st := State(0, 0, map p | p in cfg.ends :: cfg.ends[p] - cfg.starts[p], [], Running, 0);
    if cfg.Budget() == 0 then Finish(st, NothingInWindow) else st
  }

  /** The state after some turns; every state a scan can reach is one of these. */
  function Run(cfg: Config, feed: seq<Item>, st: State, turns: seq<Turn>): State
    decreases |turns|
  {
    if turns == [] || !st.status.Running? then st
    else Run(cfg, feed, TakeTurn(cfg, feed, st, turns[0]), turns[1..])
  }

  // ---- The generator as the source runs it ----

  /** `ScanStats` */
  class ScanStats {
    var scanned: nat
    var hits: nat
    var reason: Option<Reason>

    constructor ()
      ensures scanned == 0 && hits == 0 && reason == None
    {
      scanned, hits, reason := 0, 0, None;
    }
  }

  /** The inner loop: counts each record, moves its partition's `remaining` and yields the hits,
      until the batch is done, the limit is reached or an error is raised. */
  method ScanBatch(cfg: Config, stats: ScanStats, batch: seq<Item>, remaining0: map<int, int>, events0: seq<Event>, taken0: nat)
    returns (remaining: map<int, int>, events: seq<Event>, taken: nat, status: Status)
    requires stats.reason == None
    modifies stats
    ensures State(stats.scanned, stats.hits, remaining, events, status, taken)
         == TakeBatch(cfg, State(old(stats.scanned), old(stats.hits), remaining0, events0, Running, taken0), batch)
    ensures stats.reason == if status.Stopped? then Some(status.reason) else None
  {
    remaining, events, taken, status := remaining0, events0, taken0, Running;
    ghost var st := State(stats.scanned, stats.hits, remaining, events, Running, taken);
    for i := 0 to |batch|
      invariant stats.reason == None && status == Running
      invariant TakeBatch(cfg, st, batch)
             == TakeBatch(cfg, State(stats.scanned, stats.hits, remaining, events, Running, taken), batch[i..])
    {
      assert batch[i..][0] == batch[i] && batch[i..][1..] == batch[i + 1..];
      taken := taken + 1;
      match batch[i] {
        case EndOfPartition =>
        case Fault(text) =>
          status := Raised(text);
          return;
        case Record(rec) =>
          stats.scanned := stats.scanned + 1;
          if rec.partition !in cfg.ends {
            status := Raised("KeyError");
            return;
          }
          remaining := remaining[rec.partition := cfg.ends[rec.partition] - rec.offset - 1];
          if cfg.keep(rec) {
            stats.hits := stats.hits + 1;
            events := events + [Hit(rec)];
            if stats.hits >= cfg.limit {
              stats.reason := Some(LimitReached);
              events := events + [Finished(stats.scanned, stats.hits, LimitReached)];
              status := Stopped(LimitReached);
              return;
            }
          }
      }
    }
  }

  /** `scan`, run for as many turns as its environment grants it. */
  method Scan(cfg: Config, feed: seq<Item>, turns: seq<Turn>) returns (final: State)
    requires cfg.starts.Keys == cfg.ends.Keys
    ensures final == Run(cfg, feed, Begin(cfg), turns)
  {
    var stats := new ScanStats();
    var events: seq<Event>, taken := [], 0;
    var remaining := map p | p in cfg.ends :: cfg.ends[p] - cfg.starts[p];
    var budget := Min(cfg.total, cfg.maxScan);
    if budget == 0 {
      stats.reason := Some(NothingInWindow);
      events := events + [Finished(stats.scanned, stats.hits, NothingInWindow)];
      return State(stats.scanned, stats.hits, remaining, events, Stopped(NothingInWindow), taken);
    }
    for t := 0 to |turns|
      invariant stats.reason == None
      invariant Run(cfg, feed, Begin(cfg), turns)
             == Run(cfg, feed, State(stats.scanned, stats.hits, remaining, events, Running, taken), turns[t..])
    {
      ghost var st := State(stats.scanned, stats.hits, remaining, events, Running, taken);
      assert turns[t..][0] == turns[t] && turns[t..][1..] == turns[t + 1..];
      assert Run(cfg, feed, st, turns[t..]) == Run(cfg, feed, TakeTurn(cfg, feed, st, turns[t]), turns[t + 1..]);
      if turns[t].cancelled {
        stats.reason := Some(Cancelled);
      } else if stats.scanned >= budget {
        stats.reason := Some(if budget < cfg.total then BudgetReached else EndOfWindow);
      } else if !AnyRemaining(remaining) {
        stats.reason := Some(EndOfWindow);
      } else {
        var batchSize := Max(1, Min(MAX_BATCH, budget - stats.scanned));
        var batch := Consume(feed, taken, turns[t].ready, batchSize);
        if batch == [] {
          stats.reason := Some(EndOfWindow);
        } else {
          var status;
          remaining, events, taken, status := ScanBatch(cfg, stats, batch, remaining, events, taken);
          if !status.Running? {
            return State(stats.scanned, stats.hits, remaining, events, status, taken);
          }
          events := events + [Progress(stats.scanned, stats.hits)];
        }
      }
      if stats.reason.Some? {
        events := events + [Finished(stats.scanned, stats.hits, stats.reason.value)];
        return State(stats.scanned, stats.hits, remaining, events, Stopped(stats.reason.value), taken);
      }
    }
    return State(stats.scanned, stats.hits, remaining, events, Running, taken);
  }
}
