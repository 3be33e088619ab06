/** Partition logs: records in strictly increasing offset order between two watermarks. */
module Logs {
  import opened Messages

  datatype Rec = Rec(partition: int, offset: nat, timestamp: int, msg: Message)

  /** A partition: its low and high watermarks and the records still in it. Offsets may have gaps
      (compaction, transaction markers). */
  datatype Log = Log(low: nat, high: nat, recs: seq<Rec>) {
    predicate Valid() {
      && low <= high
      && Increasing(recs)
      && forall i :: 0 <= i < |recs| ==> low <= recs[i].offset < high
    }
    /** Every offset between the watermarks holds a record. */
    ghost predicate Full() {
      forall offset :: low <= offset < high ==> HasOffset(recs, offset)
    }
  }

  predicate Increasing(recs: seq<Rec>) {
    forall i, j :: 0 <= i < j < |recs| ==> recs[i].offset < recs[j].offset
  }

  predicate HasOffset(recs: seq<Rec>, offset: int) {
    exists i :: 0 <= i < |recs| && recs[i].offset == offset
  }

  /** The records that satisfy `keep`, in order. */
  function Filter(recs: seq<Rec>, keep: Rec -> bool): (r: seq<Rec>)
    ensures |r| <= |recs|
  {
    if recs == [] then []
    else if keep(recs[|recs| - 1]) then Filter(recs[..|recs| - 1], keep) + [recs[|recs| - 1]]
    else Filter(recs[..|recs| - 1], keep)
  }

  lemma FilterSnoc(recs: seq<Rec>, rec: Rec, keep: Rec -> bool)
    ensures Filter(recs + [rec], keep) == if keep(rec) then Filter(recs, keep) + [rec] else Filter(recs, keep)
  {
    assert (recs + [rec])[..|recs|] == recs;
  }

  lemma {:induction false} FilterAppend(s: seq<Rec>, t: seq<Rec>, keep: Rec -> bool)
    ensures Filter(s + t, keep) == Filter(s, keep) + Filter(t, keep)
  {
    if t == [] {
      assert s + t == s;
    } else {
      var init, last := t[..|t| - 1], t[|t| - 1];
      FilterAppend(s, init, keep);
      FilterSnoc(s + init, last, keep);
      assert s + t == (s + init) + [last];
    }
  }

  /** The records of one partition. */
  function OfPartition(recs: seq<Rec>, p: int): seq<Rec> {
    Filter(recs, (r: Rec) => r.partition == p)
  }

  /** The records at or after an offset, and those before it. */
  function Since(recs: seq<Rec>, offset: int): seq<Rec> {
    Filter(recs, (r: Rec) => r.offset >= offset)
  }

  function Until(recs: seq<Rec>, offset: int): seq<Rec> {
    Filter(recs, (r: Rec) => r.offset < offset)
  }

  lemma {:induction false} FilterMembers(recs: seq<Rec>, keep: Rec -> bool)
    ensures forall r :: r in Filter(recs, keep) <==> r in recs && keep(r)
  {
    if recs != [] {
      var init, last := recs[..|recs| - 1], recs[|recs| - 1];
      FilterMembers(init, keep);
      assert recs == init + [last];
    }
  }

  lemma {:induction false} FilterAll(recs: seq<Rec>, keep: Rec -> bool)
    requires forall i :: 0 <= i < |recs| ==> keep(recs[i])
    ensures Filter(recs, keep) == recs
  {
    if recs != [] {
      FilterAll(recs[..|recs| - 1], keep);
      assert keep(recs[|recs| - 1]);
      assert recs == recs[..|recs| - 1] + [recs[|recs| - 1]];
    }
  }

  lemma {:induction false} FilterNone(recs: seq<Rec>, keep: Rec -> bool)
    requires forall i :: 0 <= i < |recs| ==> !keep(recs[i])
    ensures Filter(recs, keep) == []
  {
    if recs != [] {
      FilterNone(recs[..|recs| - 1], keep);
      assert !keep(recs[|recs| - 1]);
    }
  }

  lemma {:induction false} FilterCommutes(recs: seq<Rec>, f: Rec -> bool, g: Rec -> bool)
    ensures Filter(Filter(recs, f), g) == Filter(Filter(recs, g), f)
  {
    if recs != [] {
      var init, last := recs[..|recs| - 1], recs[|recs| - 1];
      FilterCommutes(init, f, g);
      FilterSnoc(Filter(init, f), last, g);
      FilterSnoc(Filter(init, g), last, f);
    }
  }

  lemma {:induction false} SinceFacts(recs: seq<Rec>, offset: int)
    requires Increasing(recs)
    ensures Increasing(Since(recs, offset))
    ensures forall r :: r in Since(recs, offset) <==> r in recs && r.offset >= offset
  {
    if recs != [] {
      var init := recs[..|recs| - 1];
      SinceFacts(init, offset);
      assert recs == init + [recs[|recs| - 1]];
      forall r | r in Since(init, offset) ensures r.offset < recs[|recs| - 1].offset {
        assert r in init;
      }
    }
  }

  /** A log is its records before an offset followed by those from it on. */
  lemma {:induction false} SplitAt(recs: seq<Rec>, offset: int)
    requires Increasing(recs)
    ensures recs == Until(recs, offset) + Since(recs, offset)
  {
    if recs != [] {
      var init, last := recs[..|recs| - 1], recs[|recs| - 1];
      assert recs == init + [last];
      if last.offset >= offset {
        SplitAt(init, offset);
        FilterSnoc(init, last, (r: Rec) => r.offset < offset);
        FilterSnoc(init, last, (r: Rec) => r.offset >= offset);
      } else {
        FilterAll(recs, (r: Rec) => r.offset < offset);
        FilterNone(recs, (r: Rec) => r.offset >= offset);
      }
    }
  }

  lemma {:induction false} SinceSince(recs: seq<Rec>, low: int, high: int)
    requires low <= high
    ensures Since(Since(recs, low), high) == Since(recs, high)
  {
    if recs != [] {
      var init, last := recs[..|recs| - 1], recs[|recs| - 1];
      SinceSince(init, low, high);
      FilterSnoc(Since(init, low), last, (r: Rec) => r.offset >= high);
    }
  }

  /** A log holds at most one record for each offset between its watermarks, and as many as there are
      offsets if and only if no offset is a gap. */
  lemma {:induction false} SpanIsRecordsIff(log: Log)
    requires log.Valid()
    ensures |log.recs| <= log.high - log.low
    ensures |log.recs| == log.high - log.low <==> log.Full()
    decreases |log.recs|
  {
    if log.recs == [] {
      assert !HasOffset(log.recs, log.low);
    } else {
      var n := |log.recs|;
      var last := log.recs[n - 1];
      var init := Log(log.low, last.offset, log.recs[..n - 1]);
      SpanIsRecordsIff(init);
      assert HasOffset(log.recs, last.offset);
      FullLast(log, init, last);
    }
  }

  lemma FullLast(log: Log, init: Log, last: Rec)
    requires log.Valid() && init.Valid() && log.recs == init.recs + [last]
    requires init.low == log.low && init.high == last.offset
    ensures log.Full() <==> init.Full() && last.offset == log.high - 1
  {
    forall offset ensures HasOffset(log.recs, offset) <==> HasOffset(init.recs, offset) || offset == last.offset {
      HasOffsetSnoc(init.recs, last, offset);
    }
    assert log.recs[|init.recs|] == last;
    if log.Full() {
      assert HasOffset(log.recs, log.high - 1);
      var i :| 0 <= i < |log.recs| && log.recs[i].offset == log.high - 1;
      forall offset | init.low <= offset < init.high ensures HasOffset(init.recs, offset) {
        assert HasOffset(log.recs, offset);
      }
    }
  }

  lemma HasOffsetSnoc(recs: seq<Rec>, last: Rec, offset: int)
    ensures HasOffset(recs + [last], offset) <==> HasOffset(recs, offset) || offset == last.offset
  {
    var all := recs + [last];
    if HasOffset(recs, offset) {
      var i :| 0 <= i < |recs| && recs[i].offset == offset;
      assert all[i].offset == offset;
    }
    if offset == last.offset {
      assert all[|recs|].offset == offset;
    }
  }
}
