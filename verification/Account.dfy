/** The account a scan keeps of its window: what it has seen of it and what is still missing. */
module Account {
  import opened Common
  import opened Logs
  import opened Sums
  import opened Cluster
  import opened Planner
  import opened Scan
  import opened ScanTheorems

  // ---- From a plan to a scan ----

  function ConfigOf(plan: Plan, limit: int, maxScan: int, keep: Rec -> bool): Config
    requires plan.total >= 0
  {
    Config(plan.parts, plan.starts, plan.ends, plan.total, limit, maxScan, keep)
  }

  /** What a partition still has to deliver, as the loop counts it. */
  function Left(remaining: map<int, int>): int -> int {
    p => Max(0, Get(remaining, p))
  }

  ghost predicate Planned(cfg: Config) {
    && Distinct(cfg.parts)
    && cfg.starts.Keys == cfg.ends.Keys
    && (forall p :: p in cfg.ends <==> p in cfg.parts)
    && cfg.total == SumBy(cfg.parts, Width(cfg.starts, cfg.ends))
  }

  lemma PlanIsPlanned(t: Topic, spec: Spec, plan: Plan, limit: int, maxScan: int, keep: Rec -> bool)
    requires t.Valid() && Selected(t, spec.partition).Ok?
    requires IsPlan(t, spec, Selected(t, spec.partition).value, plan)
    ensures plan.total >= 0 && Planned(ConfigOf(plan, limit, maxScan, keep))
  {
    SelectedExist(t, spec.partition);
    var width := Width(plan.starts, plan.ends);
    assert forall p :: width(p) >= 0;
    SumNonNegative(plan.parts, width);
  }

  // ---- Deliveries ----

  /** The offset a partition is expected to deliver from next. */
  function Next(cfg: Config, recs: seq<Rec>, p: int): int {
    if recs == [] then Get(cfg.starts, p)
    else if recs[|recs| - 1].partition == p then recs[|recs| - 1].offset + 1
    else Next(cfg, recs[..|recs| - 1], p)
  }

  /** Each assigned partition is delivered in increasing offset order from its start. Nothing stops a
      delivery at the planned ends: records appended during the scan may come too. */
  predicate InOrder(cfg: Config, feed: seq<Item>) {
    forall i :: 0 <= i < |feed| && feed[i].Record? ==>
      var rec := feed[i].rec;
      rec.partition in cfg.ends && Next(cfg, Records(Take(feed, i)), rec.partition) <= rec.offset
  }

  /** No offset of a window is skipped. */
  predicate NoSkips(cfg: Config, feed: seq<Item>) {
    forall i :: 0 <= i < |feed| && feed[i].Record? ==>
      var rec, next := feed[i].rec, Next(cfg, Records(Take(feed, i)), feed[i].rec.partition);
      next < Get(cfg.ends, rec.partition) ==> rec.offset == next
  }

  /** Nothing at or after the planned end of a partition is delivered. */
  predicate BelowEnds(ends: map<int, int>, feed: seq<Item>) {
    forall i :: 0 <= i < |feed| && feed[i].Record? ==> feed[i].rec.offset < Get(ends, feed[i].rec.partition)
  }

  /** The processed records that belong to the window, and how many came late: appended after the
      watermarks were read. */
  function InTime(ends: map<int, int>): Rec -> bool {
    (rec: Rec) => rec.offset < Get(ends, rec.partition)
  }

  function Seen(cfg: Config, recs: seq<Rec>): seq<Rec> {
    Filter(recs, InTime(cfg.ends))
  }

  function LateCount(cfg: Config, recs: seq<Rec>): int {
    |recs| - |Seen(cfg, recs)|
  }

  // ---- The account ----

  ghost predicate RemainingIs(cfg: Config, recs: seq<Rec>, remaining: map<int, int>) {
    && remaining.Keys == cfg.ends.Keys
    && forall p :: p in cfg.ends ==> remaining[p] == cfg.ends[p] - Next(cfg, recs, p)
  }

  ghost predicate Balanced(cfg: Config, recs: seq<Rec>, remaining: map<int, int>, exact: bool) {
    && RemainingIs(cfg, recs, remaining)
    && |Seen(cfg, recs)| + SumBy(cfg.parts, Left(remaining)) <= cfg.total
    && (exact ==> |Seen(cfg, recs)| + SumBy(cfg.parts, Left(remaining)) == cfg.total)
  }

  ghost predicate Accounts(cfg: Config, feed: seq<Item>, st: State, exact: bool) {
    && st.taken <= |feed|
    && st.scanned == |Processed(feed, st)|
    && Balanced(cfg, Processed(feed, st), st.remaining, exact)
  }

  lemma NextAfter(cfg: Config, recs: seq<Rec>, rec: Rec, p: int)
    ensures Next(cfg, recs + [rec], p) == if rec.partition == p then rec.offset + 1 else Next(cfg, recs, p)
  {
    assert (recs + [rec])[..|recs|] == recs;
  }

  lemma LeftUpdate(parts: seq<int>, remaining: map<int, int>, p: int, v: int)
    requires Distinct(parts) && p in parts && p in remaining
    ensures SumBy(parts, Left(remaining[p := v])) == SumBy(parts, Left(remaining)) - Max(0, remaining[p]) + Max(0, v)
  {
    SumPointUpdate(parts, Left(remaining), Left(remaining[p := v]), p);
  }

  /** The next record of a partition, at or after the offset expected, and at it where no offset is
      skipped. */
  ghost predicate InPlace(cfg: Config, recs: seq<Rec>, rec: Rec, exact: bool) {
    && rec.partition in cfg.ends
    && Next(cfg, recs, rec.partition) <= rec.offset
    && (exact && Next(cfg, recs, rec.partition) < cfg.ends[rec.partition] ==> rec.offset == Next(cfg, recs, rec.partition))
  }

  /** A record in its place: one seen and one missing less if it belongs to the window, neither if it
      is late. */
  lemma RecordBalances(cfg: Config, recs: seq<Rec>, remaining: map<int, int>, rec: Rec, exact: bool)
    requires Planned(cfg) && Balanced(cfg, recs, remaining, exact) && InPlace(cfg, recs, rec, exact)
    ensures Balanced(cfg, recs + [rec], remaining[rec.partition := cfg.ends[rec.partition] - rec.offset - 1], exact)
  {
    var p, v := rec.partition, cfg.ends[rec.partition] - rec.offset - 1;
    LeftUpdate(cfg.parts, remaining, p, v);
    FilterSnoc(recs, rec, InTime(cfg.ends));
    forall q | q in cfg.ends ensures remaining[p := v][q] == cfg.ends[q] - Next(cfg, recs + [rec], q) {
      NextAfter(cfg, recs, rec, q);
    }
  }

  lemma TakeItemCounts(cfg: Config, st: State, item: Item)
    requires item.Record? ==> item.rec.partition in cfg.ends
    ensures var next := TakeItem(cfg, st, item);
            && next.taken == st.taken + 1
            && next.scanned == st.scanned + (if item.Record? then 1 else 0)
            && next.remaining == if item.Record?
                                 then st.remaining[item.rec.partition := cfg.ends[item.rec.partition] - item.rec.offset - 1]
                                 else st.remaining
  {
  }

  lemma InOrderAt(cfg: Config, feed: seq<Item>, i: nat, exact: bool)
    requires InOrder(cfg, feed) && (exact ==> NoSkips(cfg, feed)) && i < |feed| && feed[i].Record?
    ensures InPlace(cfg, Records(Take(feed, i)), feed[i].rec, exact)
  {
  }

  lemma RecordAccounts(cfg: Config, feed: seq<Item>, st: State, rec: Rec, next: State, exact: bool)
    requires Planned(cfg) && Accounts(cfg, feed, st, exact) && st.taken < |feed| && feed[st.taken] == Record(rec)
    requires InPlace(cfg, Processed(feed, st), rec, exact)
    requires next.taken == st.taken + 1 && next.scanned == st.scanned + 1
    requires next.remaining == st.remaining[rec.partition := cfg.ends[rec.partition] - rec.offset - 1]
    ensures Accounts(cfg, feed, next, exact)
  {
    RecordBalances(cfg, Processed(feed, st), st.remaining, rec, exact);
    ProcessedNext(feed, st, next);
  }

  lemma OtherAccounts(cfg: Config, feed: seq<Item>, st: State, next: State, exact: bool)
    requires Accounts(cfg, feed, st, exact) && st.taken < |feed| && !feed[st.taken].Record?
    requires next.taken == st.taken + 1 && next.scanned == st.scanned && next.remaining == st.remaining
    ensures Accounts(cfg, feed, next, exact)
  {
    ProcessedNext(feed, st, next);
  }

  lemma TakeItemAccounts(cfg: Config, feed: seq<Item>, st: State, exact: bool)
    requires Planned(cfg) && Accounts(cfg, feed, st, exact) && st.taken < |feed|
    requires feed[st.taken].Record? ==> InPlace(cfg, Processed(feed, st), feed[st.taken].rec, exact)
    ensures Accounts(cfg, feed, TakeItem(cfg, st, feed[st.taken]), exact)
    ensures TakeItem(cfg, st, feed[st.taken]).taken == st.taken + 1
  {
    var item := feed[st.taken];
    var next := TakeItem(cfg, st, item);
    TakeItemCounts(cfg, st, item);
    if item.Record? {
      RecordAccounts(cfg, feed, st, item.rec, next, exact);
    } else {
      OtherAccounts(cfg, feed, st, next, exact);
    }
  }

  lemma HeadAccounts(cfg: Config, feed: seq<Item>, st: State, batch: seq<Item>, next: State, exact: bool)
    requires Planned(cfg) && InOrder(cfg, feed) && (exact ==> NoSkips(cfg, feed))
    requires Accounts(cfg, feed, st, exact) && batch != [] && batch <= Drop(feed, st.taken)
    requires next == TakeItem(cfg, st, batch[0])
    ensures Accounts(cfg, feed, next, exact) && batch[1..] <= Drop(feed, next.taken)
  {
    assert batch[0] == feed[st.taken];
    if batch[0].Record? {
      InOrderAt(cfg, feed, st.taken, exact);
    }
    TakeItemAccounts(cfg, feed, st, exact);
  }

  lemma {:induction false} TakeBatchAccounts(cfg: Config, feed: seq<Item>, st: State, batch: seq<Item>, exact: bool)
    requires Planned(cfg) && InOrder(cfg, feed) && (exact ==> NoSkips(cfg, feed))
    requires Accounts(cfg, feed, st, exact) && batch <= Drop(feed, st.taken)
    ensures Accounts(cfg, feed, TakeBatch(cfg, st, batch), exact)
    decreases |batch|
  {
    if batch != [] && st.status.Running? {
      var next := TakeItem(cfg, st, batch[0]);
      HeadAccounts(cfg, feed, st, batch, next, exact);
      TakeBatchAccounts(cfg, feed, next, batch[1..], exact);
    }
  }

  lemma TurnTakes(cfg: Config, feed: seq<Item>, st: State, turn: Turn)
    ensures var next := TakeTurn(cfg, feed, st, turn);
            var after := TakeBatch(cfg, st, Consume(feed, st.taken, turn.ready, BatchSize(cfg, st)));
            || (next.taken == st.taken && next.scanned == st.scanned && next.remaining == st.remaining)
            || (next.taken == after.taken && next.scanned == after.scanned && next.remaining == after.remaining)
  {
  }

  lemma TakeTurnAccounts(cfg: Config, feed: seq<Item>, st: State, turn: Turn, exact: bool)
    requires Planned(cfg) && InOrder(cfg, feed) && (exact ==> NoSkips(cfg, feed))
    requires Accounts(cfg, feed, st, exact)
    ensures Accounts(cfg, feed, TakeTurn(cfg, feed, st, turn), exact)
  {
    TurnTakes(cfg, feed, st, turn);
    TakeBatchAccounts(cfg, feed, st, Consume(feed, st.taken, turn.ready, BatchSize(cfg, st)), exact);
  }

  lemma {:induction false} RunAccounts(cfg: Config, feed: seq<Item>, st: State, turns: seq<Turn>, exact: bool)
    requires Planned(cfg) && InOrder(cfg, feed) && (exact ==> NoSkips(cfg, feed))
    requires Accounts(cfg, feed, st, exact)
    ensures Accounts(cfg, feed, Run(cfg, feed, st, turns), exact)
    decreases |turns|
  {
    if turns != [] && st.status.Running? {
      TakeTurnAccounts(cfg, feed, st, turns[0], exact);
      RunAccounts(cfg, feed, TakeTurn(cfg, feed, st, turns[0]), turns[1..], exact);
    }
  }

  lemma BeginAccounts(cfg: Config, feed: seq<Item>, exact: bool)
    requires Planned(cfg)
    ensures Accounts(cfg, feed, Begin(cfg), exact)
  {
    assert Take(feed, 0) == [];
    BeginLeft(cfg, Begin(cfg).remaining);
  }

  lemma BeginLeft(cfg: Config, remaining: map<int, int>)
    requires Planned(cfg) && forall p :: p in cfg.ends ==> p in remaining && remaining[p] == cfg.ends[p] - cfg.starts[p]
    ensures SumBy(cfg.parts, Left(remaining)) == cfg.total
  {
    var width, left := Width(cfg.starts, cfg.ends), Left(remaining);
    forall i | 0 <= i < |cfg.parts| ensures width(cfg.parts[i]) == left(cfg.parts[i]) {
      assert cfg.parts[i] in cfg.ends;
    }
    SumCongruent(cfg.parts, width, left);
  }

  lemma ReachedAccounts(cfg: Config, feed: seq<Item>, turns: seq<Turn>, exact: bool)
    requires Planned(cfg) && InOrder(cfg, feed) && (exact ==> NoSkips(cfg, feed))
    ensures Accounts(cfg, feed, Run(cfg, feed, Begin(cfg), turns), exact)
  {
    BeginAccounts(cfg, feed, exact);
    RunAccounts(cfg, feed, Begin(cfg), turns, exact);
  }

  lemma {:induction false} RecordsAreDelivered(feed: seq<Item>, k: nat)
    requires k <= |feed|
    ensures forall r :: r in Records(Take(feed, k)) ==> Record(r) in feed
  {
    if k > 0 {
      RecordsAreDelivered(feed, k - 1);
      RecordsNext(feed, k - 1);
      assert feed[k - 1] in feed;
    }
  }

  lemma NoneLate(cfg: Config, feed: seq<Item>, k: nat)
    requires k <= |feed| && BelowEnds(cfg.ends, feed)
    ensures Seen(cfg, Records(Take(feed, k))) == Records(Take(feed, k))
  {
    var recs := Records(Take(feed, k));
    RecordsAreDelivered(feed, k);
    forall i | 0 <= i < |recs| ensures InTime(cfg.ends)(recs[i]) {
      assert recs[i] in recs;
    }
    FilterAll(recs, InTime(cfg.ends));
  }

  /** Whatever is appended meanwhile, the records seen of the window and those still missing from it
      never exceed the planned total, and without gaps they are exactly it. With nothing late, the
      records seen are those scanned. */
  lemma ScanAccounts(cfg: Config, feed: seq<Item>, turns: seq<Turn>)
    requires Planned(cfg) && InOrder(cfg, feed)
    ensures var st := Run(cfg, feed, Begin(cfg), turns);
            && st.scanned == |Seen(cfg, Processed(feed, st))| + LateCount(cfg, Processed(feed, st))
            && st.scanned - LateCount(cfg, Processed(feed, st)) + SumBy(cfg.parts, Left(st.remaining)) <= cfg.total
            && (NoSkips(cfg, feed) ==>
                  st.scanned - LateCount(cfg, Processed(feed, st)) + SumBy(cfg.parts, Left(st.remaining)) == cfg.total)
            && (BelowEnds(cfg.ends, feed) ==> LateCount(cfg, Processed(feed, st)) == 0)
  {
    ReachedAccounts(cfg, feed, turns, NoSkips(cfg, feed));
    if BelowEnds(cfg.ends, feed) {
      NoneLate(cfg, feed, Run(cfg, feed, Begin(cfg), turns).taken);
    }
  }

  lemma NothingLeft(cfg: Config, remaining: map<int, int>)
    requires Planned(cfg) && remaining.Keys == cfg.ends.Keys
    ensures SumBy(cfg.parts, Left(remaining)) >= 0
    ensures SumBy(cfg.parts, Left(remaining)) == 0 <==> !AnyRemaining(remaining)
  {
    var left := Left(remaining);
    assert forall p :: left(p) == Max(0, Get(remaining, p));
    SumNonNegative(cfg.parts, left);
    if AnyRemaining(remaining) {
      var p :| p in remaining && remaining[p] > 0;
      assert p in cfg.parts && left(p) > 0;
      SummandBound(cfg.parts, left, p);
    } else {
      SumOfConstant(cfg.parts, left, 0);
    }
  }

  /** So a scan that has seen as many records of the window as were planned has nothing left in any
      partition; and without gaps having nothing left means having seen the whole total. */
  lemma ExhaustedMeansFinished(cfg: Config, feed: seq<Item>, turns: seq<Turn>)
    requires Planned(cfg) && InOrder(cfg, feed)
    ensures var st := Run(cfg, feed, Begin(cfg), turns);
            var late := LateCount(cfg, Processed(feed, st));
            && (st.scanned - late >= cfg.total ==> !AnyRemaining(st.remaining))
            && (NoSkips(cfg, feed) ==> (st.scanned - late == cfg.total <==> !AnyRemaining(st.remaining)))
  {
    ReachedAccounts(cfg, feed, turns, NoSkips(cfg, feed));
    NothingLeft(cfg, Run(cfg, feed, Begin(cfg), turns).remaining);
  }
}
